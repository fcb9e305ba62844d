/** Approval and start of the configured command: one approval, given for what is displayed, is good
    for one start of exactly that. */
module CommandApproval {
  import opened Wrappers
  import opened HostRuntime

  datatype Process = Absent | NotRunning | Starting | Running

  /** What the operating system makes of a launch within the time allowed. */
  datatype Launch = Launched | Failed | Pending

  /** How an attempt to terminate the process group ends. */
  datatype Termination = Terminated | Refused | Survived

  /** The controller's fields. */
  datatype Command = Command(allowedByCli: bool, sessionApproved: bool, approvedGeneration: nat, approvedArgv: seq<string>,
                             approvedRoot: string, process: Process, group: bool, started: bool)

  datatype System = System(host: StateView, command: Command)

  datatype Event =
    | Approve(displayedGeneration: nat)
    | Start(launch: Launch)
    | LateStart
    | Stop(termination: Termination)
    | Exited
    | IndexStarted
    | IndexSucceeded(config: Config)
    | IndexFailed(message: string)

  predicate LaunchableIndex(host: StateView) {
    host.generation > 0 && host.indexState == "ready" && host.lastError == ""
  }

  predicate ApprovalMatches(s: System) {
    && LaunchableIndex(s.host) && s.command.sessionApproved && s.command.approvedGeneration == s.host.generation
    && s.command.approvedArgv == s.host.config.startArgv && s.command.approvedRoot == s.host.config.root
  }

  /** The process is there, or on its way. */
  predicate Busy(c: Command) {
    c.process == Starting || c.process == Running
  }

  predicate MayApprove(s: System, displayedGeneration: nat) {
    && LaunchableIndex(s.host) && displayedGeneration == s.host.generation
    && s.host.config.startArgv != [] && s.host.config.startManual
    && s.command.allowedByCli && !Busy(s.command)
  }

  predicate MayStart(s: System) {
    s.host.config.startArgv != [] && s.host.config.startManual && s.command.allowedByCli && ApprovalMatches(s)
  }

  /** A start request is passed on to the operating system. */
  predicate MayLaunch(s: System) {
    MayStart(s) && !Busy(s.command)
  }

  /** The next state, and whether the request was granted. */
  function Step(s: System, e: Event): (System, bool) {
    var c := s.command;
    match e
    case Approve(displayed) =>
      if MayApprove(s, displayed) then
        (s.(command := c.(sessionApproved := true, approvedGeneration := s.host.generation,
                          approvedArgv := s.host.config.startArgv, approvedRoot := s.host.config.root)), true)
      else (s.(command := c.(sessionApproved := false)), false)
    case Start(launch) =>
      if !LaunchableIndex(s.host) then (s, false)
      else if !MayStart(s) then (s.(command := c.(sessionApproved := false)), false)
      else if Busy(c) then (s, false)
      else
        (match launch
         case Launched => (s.(command := c.(sessionApproved := false, process := Running, group := true, started := true)), true)
         case Failed => (s.(command := c.(sessionApproved := false, process := NotRunning)), false)
         case Pending => (s.(command := c.(sessionApproved := false, process := Starting)), false))
    case LateStart =>
      if c.process == Starting then (s.(command := c.(process := Running, group := true)), true) else (s, true)
    case Stop(termination) =>
      if !c.group then (s.(command := c.(sessionApproved := false)), true)
      else
        (match termination
         case Terminated => (s.(command := c.(sessionApproved := false, process := NotRunning, group := false)), true)
         case Refused => (s.(command := c.(sessionApproved := false)), false)
         case Survived => (s.(command := c.(sessionApproved := false, group := false)), false))
    case Exited => (s.(command := c.(process := if Busy(c) then NotRunning else c.process, group := false)), true)
    case IndexStarted => (s.(host := AfterStarted(s.host)), true)
    case IndexSucceeded(config) => (s.(host := AfterSucceeded(s.host, config)), true)
    case IndexFailed(message) => (s.(host := AfterFailed(s.host, message)), true)
  }

  // ---------- the controller ----------

  const NO_INDEX_TO_APPROVE := "a valid indexed generation is required before command approval"
  const COMMAND_CHANGED := "command changed since it was displayed; close this dialog and review the current command"
  const NO_COMMAND := "config does not contain a manual argv start command"
  const NOT_ALLOWED := "server was not launched with --allow-command"
  const STILL_RUNNING := "stop the running command before approving another start"
  const NO_INDEX_TO_START := "a valid indexed generation is required before command start"
  const NOT_APPROVED := "start command requires config manual mode, --allow-command, and session approval"
  const ALREADY_RUNNING := "start command is already running"
  const LAUNCH_FAILED := "start command failed to launch"
  const NOT_TERMINATED := "owned process group could not be terminated"
  const NOT_STOPPED := "start command could not be stopped"

  class StartCommandController {
    const state: HostState
    const allowedByCli: bool
    var sessionApproved: bool
    var approvedGeneration: nat
    var approvedArgv: seq<string>
    var approvedRoot: string
    var process: Process
    var group: bool
    var started: bool

    constructor (state: HostState, allowedByCli: bool)
      ensures this.state == state
      ensures Fields() == Command(allowedByCli, false, 0, [], "", Absent, false, false)
    {
      this.state, this.allowedByCli := state, allowedByCli;
      sessionApproved, approvedGeneration, approvedArgv, approvedRoot := false, 0, [], "";
      process, group, started := Absent, false, false;
    }

    ghost function Fields(): Command
      reads this
    {
      Command(allowedByCli, sessionApproved, approvedGeneration, approvedArgv, approvedRoot, process, group, started)
    }

    ghost function View(): System
      reads this, state
    {
      System(state.View(), Fields())
    }

    method Launchable() returns (launchable: bool)
      ensures launchable == LaunchableIndex(state.View())
    {
      launchable := state.generation > 0 && state.indexState == "ready" && state.lastError == "";
    }

    method Approve(displayedGeneration: nat) returns (r: Result<nat>)
      modifies this
      ensures (View(), r.Ok?) == Step(old(View()), Event.Approve(displayedGeneration))
      ensures r.Ok? ==> r.value == state.generation
    {
      hide NO_INDEX_TO_APPROVE, COMMAND_CHANGED, NO_COMMAND, NOT_ALLOWED, STILL_RUNNING, AfterStarted, AfterSucceeded, AfterFailed;
      sessionApproved := false;
      var launchable := Launchable();
      if !launchable {
        return Err(NO_INDEX_TO_APPROVE);
      }
      if displayedGeneration != state.generation {
        return Err(COMMAND_CHANGED);
      }
      if state.config.startArgv == [] || !state.config.startManual {
        return Err(NO_COMMAND);
      }
      if !allowedByCli {
        return Err(NOT_ALLOWED);
      }
      if process == Starting || process == Running {
        return Err(STILL_RUNNING);
      }
      sessionApproved := true;
      approvedGeneration := state.generation;
      approvedArgv := state.config.startArgv;
      approvedRoot := state.config.root;
      return Ok(state.generation);
    }

    /** `launch` is what becomes of the process within two seconds; what it is asked to start is returned. */
    method Start(launch: Launch) returns (r: Result<(string, seq<string>)>)
      modifies this
      ensures (View(), r.Ok?) == Step(old(View()), Event.Start(launch))
      ensures r.Ok? ==> r.value == (state.config.root, state.config.startArgv)
    {
      hide NO_INDEX_TO_START, NOT_APPROVED, ALREADY_RUNNING, LAUNCH_FAILED, AfterStarted, AfterSucceeded, AfterFailed;
      var launchable := Launchable();
      if !launchable {
        return Err(NO_INDEX_TO_START);
      }
      var matches := sessionApproved && approvedGeneration == state.generation &&
                     approvedArgv == state.config.startArgv && approvedRoot == state.config.root;
      if state.config.startArgv == [] || !state.config.startManual || !allowedByCli || !matches {
        sessionApproved := false;
        return Err(NOT_APPROVED);
      }
      if process == Starting || process == Running {
        return Err(ALREADY_RUNNING);
      }
      sessionApproved := false;
      process := if launch == Pending then Starting else NotRunning;
      if launch != Launched {
        return Err(LAUNCH_FAILED);
      }
      process, group, started := Running, true, true;
      return Ok((state.config.root, state.config.startArgv));
    }

    /** The process has started after all. */
    method ProcessStarted()
      modifies this
      ensures View() == Step(old(View()), LateStart).0
    {
      if process == Starting {
        process, group := Running, true;
      }
    }

    method Stop(termination: Termination) returns (r: Result<bool>)
      modifies this
      ensures (View(), r.Ok?) == Step(old(View()), Event.Stop(termination))
      ensures r.Ok? ==> r.value == old(group)
    {
      sessionApproved := false;
      if !group {
        return Ok(false);
      }
      if termination == Refused {
        return Err(NOT_TERMINATED);
      }
      group := false;
      if termination == Survived {
        return Err(NOT_STOPPED);
      }
      process := NotRunning;
      return Ok(true);
    }

    method ProcessExited()
      modifies this
      ensures View() == Step(old(View()), Exited).0
    {
      if process == Starting || process == Running {
        process := NotRunning;
      }
      group := false;
    }
  }

  // ---------- runs ----------

  predicate IsIndexEvent(e: Event) {
    e.IndexStarted? || e.IndexSucceeded? || e.IndexFailed?
  }

  function After(s: System, events: seq<Event>): System {
    if events == [] then s else Step(After(s, events[..|events| - 1]), events[|events| - 1]).0
  }

  ghost predicate Granted(s: System, events: seq<Event>, i: nat)
    requires i < |events|
  {
    Step(After(s, events[..i]), events[i]).1
  }

  ghost predicate ApprovedAt(s: System, events: seq<Event>, i: nat) {
    i < |events| && events[i].Approve? && Granted(s, events, i)
  }

  /** A launch is attempted, whatever comes of it. */
  ghost predicate LaunchedAt(s: System, events: seq<Event>, i: nat) {
    i < |events| && events[i].Start? && MayLaunch(After(s, events[..i]))
  }

  ghost predicate IndexedSince(events: seq<Event>, j: nat) {
    exists k :: j < k < |events| && IsIndexEvent(events[k])
  }

  ghost predicate SucceededSince(events: seq<Event>, j: nat) {
    exists k :: j < k < |events| && events[k].IndexSucceeded?
  }

  /** An indexing has failed since j without giving a message. */
  ghost predicate SilentSince(events: seq<Event>, j: nat) {
    exists k :: j < k < |events| && events[k] == IndexFailed("")
  }

  ghost predicate LaunchedSince(s: System, events: seq<Event>, j: nat) {
    exists k :: j < k < |events| && LaunchedAt(s, events, k)
  }

  /** Neither has approval been asked for since j, nor a stop. */
  ghost predicate UndisturbedSince(events: seq<Event>, j: nat) {
    forall k :: j < k < |events| ==> !events[k].Approve? && !events[k].Stop?
  }

  ghost predicate SameConsent(at: StateView, c: Command) {
    c.approvedGeneration == at.generation && c.approvedArgv == at.config.startArgv && c.approvedRoot == at.config.root
  }

  /** The approval at j still stands after all the events: nothing has used it since. An indexing since
      has moved the generation on, is under way, has left its message, or has failed silently. */
  ghost predicate Stands(s: System, events: seq<Event>, j: nat) {
    && ApprovedAt(s, events, j) && !LaunchedSince(s, events, j) && UndisturbedSince(events, j)
    && var at, now := After(s, events[..j]).host, After(s, events);
       && SameConsent(at, now.command) && at.generation <= now.host.generation
       && (SucceededSince(events, j) ==> at.generation < now.host.generation)
       && (IndexedSince(events, j) ==>
             at.generation < now.host.generation || now.host.indexState != "ready" || now.host.lastError != "" ||
             SilentSince(events, j))
  }

  /** What one step does to a standing approval, on the states alone. */
  lemma ApprovalStep(before: System, e: Event, at: StateView)
    requires !e.Approve? && Step(before, e).0.command.sessionApproved
    ensures before.command.sessionApproved && !(e.Start? && MayLaunch(before)) && !e.Stop?
    ensures SameConsent(at, before.command) ==> SameConsent(at, Step(before, e).0.command)
    ensures before.host.generation <= Step(before, e).0.host.generation
    ensures e.IndexSucceeded? ==> before.host.generation < Step(before, e).0.host.generation
    ensures IsIndexEvent(e) && !e.IndexSucceeded? && e != IndexFailed("") ==>
              Step(before, e).0.host.indexState != "ready" || Step(before, e).0.host.lastError != ""
    ensures !IsIndexEvent(e) ==> Step(before, e).0.host == before.host
  {
  }

  lemma SinceOneMore(s: System, events: seq<Event>, e: Event, j: nat)
    requires j < |events|
    ensures IndexedSince(events + [e], j) <==> IndexedSince(events, j) || IsIndexEvent(e)
    ensures SucceededSince(events + [e], j) <==> SucceededSince(events, j) || e.IndexSucceeded?
    ensures SilentSince(events + [e], j) <==> SilentSince(events, j) || e == IndexFailed("")
    ensures LaunchedSince(s, events + [e], j) ==> LaunchedSince(s, events, j) || (e.Start? && MayLaunch(After(s, events)))
    ensures ApprovedAt(s, events, j) ==> ApprovedAt(s, events + [e], j)
  {
    hide Step, After, IsIndexEvent, MayLaunch;
    var all := events + [e];
    assert all[..|events|] == events && all[|events|] == e;
    forall k: nat | k < |events|
      ensures all[k] == events[k] && all[..k] == events[..k]
    {
    }
    if k :| j < k < |events| && IsIndexEvent(events[k]) {
      assert IsIndexEvent(all[k]);
    }
    if k :| j < k < |events| && events[k].IndexSucceeded? {
      assert all[k].IndexSucceeded?;
    }
    if k :| j < k < |events| && events[k] == IndexFailed("") {
      assert all[k] == IndexFailed("");
    }
    if k :| j < k < |all| && LaunchedAt(s, all, k) {
      assert k < |events| ==> LaunchedAt(s, events, k);
    }
  }

  lemma ApprovedInside(s: System, events: seq<Event>, j: nat)
    requires ApprovedAt(s, events, j)
    ensures j < |events|
  {
  }

  lemma StandsOneMore(s: System, events: seq<Event>, e: Event, j: nat)
    requires Stands(s, events, j) && !e.Approve?
    requires Step(After(s, events), e).0.command.sessionApproved
    ensures Stands(s, events + [e], j)
  {
    hide Step, SameConsent, ApprovedAt, IndexedSince, SucceededSince, SilentSince, LaunchedSince, IsIndexEvent, MayLaunch;
    var all := events + [e];
    ApprovedInside(s, events, j);
    assert forall k :: 0 <= k < |events| ==> all[k] == events[k];
    assert all[..|all| - 1] == events && all[..j] == events[..j];
    ApprovalStep(After(s, events), e, After(s, events[..j]).host);
    SinceOneMore(s, events, e, j);
  }

  lemma ApproveStep(before: System, e: Event)
    requires e.Approve? && Step(before, e).0.command.sessionApproved
    ensures Step(before, e).1 && SameConsent(before.host, Step(before, e).0.command) && Step(before, e).0.host == before.host
  {
  }

  lemma ApprovalStandsAtOnce(s: System, events: seq<Event>, e: Event)
    requires e.Approve? && Step(After(s, events), e).0.command.sessionApproved
    ensures Stands(s, events + [e], |events|)
  {
    hide Step, SameConsent;
    var all := events + [e];
    assert all[..|events|] == events && all[|events|] == e;
    ApproveStep(After(s, events), e);
    assert Granted(s, all, |events|);
  }

  lemma {:induction false} ApprovalStands(s: System, events: seq<Event>) returns (j: nat)
    requires !s.command.sessionApproved && After(s, events).command.sessionApproved
    ensures Stands(s, events, j)
  {
    hide Step, Stands, SameConsent;
    var n := |events| - 1;
    var front, e := events[..n], events[n];
    assert events == front + [e];
    if e.Approve? {
      ApprovalStandsAtOnce(s, front, e);
      j := n;
    } else {
      ApprovalStep(After(s, front), e, s.host);
      j := ApprovalStands(s, front);
      StandsOneMore(s, front, e, j);
    }
  }

  /** Approval is only given to what is displayed: the generation shown to the user is the one the host is at. */
  lemma ApprovedWasDisplayed(s: System, events: seq<Event>, j: nat)
    requires ApprovedAt(s, events, j)
    ensures events[j].displayedGeneration == After(s, events[..j]).host.generation
    ensures After(s, events[..j]).command.allowedByCli
  {
  }

  /** Approval is granted exactly for the displayed generation of an index that is ready and without error, if there is
      a command to be started by hand, the server was started to allow it, and no such process is there; asking for it
      in vain withdraws what was granted before. */
  lemma ApprovalGrantedIff(s: System, events: seq<Event>, j: nat)
    requires j < |events| && events[j].Approve?
    ensures var now, after := After(s, events[..j]), After(s, events[..j + 1]);
            && (ApprovedAt(s, events, j) <==>
                  && now.host.generation > 0 && now.host.indexState == "ready" && now.host.lastError == ""
                  && events[j].displayedGeneration == now.host.generation
                  && now.host.config.startArgv != [] && now.host.config.startManual && now.command.allowedByCli
                  && (now.command.process == Absent || now.command.process == NotRunning))
            && (after.command.sessionApproved <==> ApprovedAt(s, events, j))
  {
    assert events[..j + 1][..j] == events[..j];
  }

  /** A start that follows an approval at once is launched. */
  lemma ApprovedStartLaunches(s: System, events: seq<Event>, j: nat)
    requires j + 1 < |events| && ApprovedAt(s, events, j) && events[j + 1].Start?
    ensures LaunchedAt(s, events, j + 1)
    ensures Granted(s, events, j + 1) <==> events[j + 1] == Start(Launched)
  {
    assert events[..j + 1][..j] == events[..j];
  }

  /** Every launch uses up one earlier approval, given for the generation that was displayed, whose root and argv are
      launched. It is the last approval asked for; no other launch, no stop and no successful indexing lies in between;
      and no indexing event at all does unless an indexing failed there without a message. Nothing is launched unless
      the server was started to allow it and the configuration has a command to be started by hand. */
  lemma StartUsesApproval(s: System, events: seq<Event>, i: nat) returns (j: nat)
    requires !s.command.sessionApproved && LaunchedAt(s, events, i)
    ensures j < i && ApprovedAt(s, events, j)
    ensures var at, now := After(s, events[..j]).host, After(s, events[..i]).host;
            && events[j].displayedGeneration == at.generation == now.generation
            && at.config.root == now.config.root && at.config.startArgv == now.config.startArgv
            && now.config.startArgv != [] && now.config.startManual && s.command.allowedByCli
    ensures forall k :: j < k < i ==>
              !LaunchedAt(s, events, k) && !events[k].IndexSucceeded? && !events[k].Approve? && !events[k].Stop?
    ensures IndexedSince(events[..i], j) <==> SilentSince(events[..i], j)
  {
    CliIsFixed(s, events[..i]);
    var front := events[..i];
    j := ApprovalStands(s, front);
    assert front[..j] == events[..j];
    assert MayStart(After(s, front));
    ApprovedWasDisplayed(s, front, j);
    forall k | j < k < i
      ensures !LaunchedAt(s, events, k) && !events[k].IndexSucceeded? && !events[k].Approve? && !events[k].Stop?
    {
      assert front[..k] == events[..k] && front[k] == events[k];
      assert !LaunchedAt(s, front, k);
    }
    if k :| j < k < |front| && front[k] == IndexFailed("") {
      assert IsIndexEvent(front[k]);
    }
  }

  /** Different launches use up different approvals, and when every failure has its message nothing is
      indexed between an approval and the launch that uses it. */
  lemma StartsUseDistinctApprovals(s: System, events: seq<Event>, i1: nat, i2: nat) returns (j1: nat, j2: nat)
    requires !s.command.sessionApproved
    requires i1 < i2 && LaunchedAt(s, events, i1) && LaunchedAt(s, events, i2)
    ensures j1 < i1 < j2 < i2 && ApprovedAt(s, events, j1) && ApprovedAt(s, events, j2)
    ensures IndexFailed("") !in events ==> forall k :: j1 < k < i1 || j2 < k < i2 ==> !IsIndexEvent(events[k])
  {
    j1 := StartUsesApproval(s, events, i1);
    j2 := StartUsesApproval(s, events, i2);
    assert forall k :: 0 <= k < i1 ==> events[..i1][k] == events[k];
    assert forall k :: 0 <= k < i2 ==> events[..i2][k] == events[k];
  }

  /** A failed indexing without a message leaves the approval standing. The messages of the analyzer's runner all
      hold some text, so this takes another caller. */
  lemma EmptyFailureKeepsApproval(s: System, config: Config)
    requires s.host.generation == 0 && s.command == Command(true, false, 0, [], "", Absent, false, false)
    requires config.startArgv != [] && config.startManual
    ensures var events := [IndexSucceeded(config), Approve(1), IndexStarted, IndexFailed(""), Start(Launched)];
            ApprovedAt(s, events, 1) && LaunchedAt(s, events, 4)
  {
    var events := [IndexSucceeded(config), Approve(1), IndexStarted, IndexFailed(""), Start(Launched)];
    assert After(s, []) == s;
    assert events[..1] == [IndexSucceeded(config)] && events[..1][..0] == [];
    assert After(s, events[..1]) == Step(s, IndexSucceeded(config)).0;
    assert events[..2][..1] == events[..1];
    assert events[..3][..2] == events[..2];
    assert events[..4][..3] == events[..3];
    var s1 := Step(s, IndexSucceeded(config)).0;
    var s2 := Step(s1, Approve(1)).0;
    assert After(s, events[..2]) == s2;
    var s3 := Step(s2, IndexStarted).0;
    assert After(s, events[..3]) == s3;
    var s4 := Step(s3, IndexFailed("")).0;
    assert After(s, events[..4]) == s4;
    assert MayLaunch(s4);
  }

  lemma {:induction false} CliIsFixed(s: System, events: seq<Event>)
    ensures After(s, events).command.allowedByCli == s.command.allowedByCli
  {
    if events != [] {
      CliIsFixed(s, events[..|events| - 1]);
    }
  }

  // ---------- the configuration of a generation ----------

  function Successes(events: seq<Event>): seq<Config> {
    if events == [] then []
    else
      var e := events[|events| - 1];
      Successes(events[..|events| - 1]) + if e.IndexSucceeded? then [e.config] else []
  }

  /** Each successful indexing begins a generation, with the configuration it was delivered with. */
  lemma {:induction false} GenerationsCountSuccesses(s: System, events: seq<Event>)
    ensures var host, configs := After(s, events).host, Successes(events);
            && host.generation == s.host.generation + |configs|
            && host.config == if configs == [] then s.host.config else configs[|configs| - 1]
  {
    if events != [] {
      GenerationsCountSuccesses(s, events[..|events| - 1]);
    }
  }

  // ---------- what stopping leaves ----------

  /** In every run a process group is that of a running process. */
  lemma {:induction false} GroupIsRunning(s: System, events: seq<Event>)
    requires !s.command.group
    ensures After(s, events).command.group ==> After(s, events).command.process == Running
  {
    if events != [] {
      GroupIsRunning(s, events[..|events| - 1]);
    }
  }

  /** However it ends, a stop leaves no approval; if it is granted it leaves no group, and no process that had one. */
  lemma StopLeaves(s: System, events: seq<Event>, i: nat)
    requires i < |events| && events[i].Stop?
    ensures var before, after := After(s, events[..i]).command, After(s, events[..i + 1]).command;
            && !after.sessionApproved
            && (Granted(s, events, i) ==> !after.group && (before.group ==> !Busy(after)))
            && (!before.group ==> after == before.(sessionApproved := false))
            && (!Granted(s, events, i) ==> after.process == before.process)
  {
    assert events[..i + 1][..i] == events[..i];
  }

  /** The end of the process leaves nothing running and no group, and no approval that was not there. */
  lemma ExitLeaves(s: System, events: seq<Event>, i: nat)
    requires i < |events| && events[i].Exited?
    ensures var before, after := After(s, events[..i]).command, After(s, events[..i + 1]).command;
            !Busy(after) && !after.group && after == before.(process := after.process, group := false)
  {
    assert events[..i + 1][..i] == events[..i];
  }

  // ---------- what runs was approved ----------

  /** A step makes the process busy only by launching it. */
  lemma BusyStep(before: System, e: Event)
    requires Busy(Step(before, e).0.command) && !(e.Start? && MayLaunch(before))
    ensures Busy(before.command)
  {
  }

  lemma {:induction false} BusySinceLaunch(s: System, events: seq<Event>) returns (i: nat)
    requires !Busy(s.command) && Busy(After(s, events).command)
    ensures LaunchedAt(s, events, i)
    ensures forall k :: i < k <= |events| ==> Busy(After(s, events[..k]).command)
  {
    hide Step, Busy, MayLaunch;
    var n := |events| - 1;
    var front, e := events[..n], events[n];
    assert events[..|events|] == events;
    if e.Start? && MayLaunch(After(s, front)) {
      i := n;
    } else {
      BusyStep(After(s, front), e);
      i := BusySinceLaunch(s, front);
      assert front[..i] == events[..i];
      forall k | i < k <= |events|
        ensures Busy(After(s, events[..k]).command)
      {
        assert k <= n ==> front[..k] == events[..k];
      }
    }
  }

  /** Whenever a command is running or starting, it was launched by a start request that used up an approval of
      exactly this command; it has been there ever since, and no other launch was attempted in the meantime. */
  lemma RunningWasApproved(s: System, events: seq<Event>) returns (i: nat, j: nat)
    requires !s.command.sessionApproved && !Busy(s.command) && Busy(After(s, events).command)
    ensures j < i < |events| && LaunchedAt(s, events, i) && ApprovedAt(s, events, j)
    ensures var at, now := After(s, events[..j]).host, After(s, events[..i]).host;
            && events[j].displayedGeneration == at.generation == now.generation
            && at.config.root == now.config.root && at.config.startArgv == now.config.startArgv
            && now.config.startArgv != [] && now.config.startManual && s.command.allowedByCli
    ensures forall k :: i < k <= |events| ==> Busy(After(s, events[..k]).command)
    ensures forall k :: j < k < |events| && k != i ==> !LaunchedAt(s, events, k)
  {
    i := BusySinceLaunch(s, events);
    j := StartUsesApproval(s, events, i);
  }
}
