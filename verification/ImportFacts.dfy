/** What import resolution guarantees over any run of requests, and that repeating an import is harmless. */
module ImportFacts {
  import opened Wrappers
  import opened ImportResolution
  import opened ImportClaims

  // ---------- runs ----------

  datatype Request = ToImport(name: Name) | ToResolve(name: Name)

  ghost function Serve(p: Program, st: State, request: Request): (r: State)
    requires Valid(p, st)
    ensures Extends(p, st, r)
  {
    match request
    case ToImport(n) => ImportModule(p, st, n).0
    case ToResolve(n) => Resolve(p, st, n).0
  }

  /** The state after serving the requests in turn, from an empty state. */
  ghost function Served(p: Program, requests: seq<Request>): (r: State)
    ensures Valid(p, r)
  {
    if requests == [] then EMPTY
    else Serve(p, Served(p, requests[..|requests| - 1]), requests[|requests| - 1])
  }

  /** Over any run nothing is left loading, and the body of every loaded module, and of no other, has been
      replayed exactly once; each request only adds to the replays before it. */
  lemma {:induction false} ReplaysOnce(p: Program, requests: seq<Request>)
    ensures var st := Served(p, requests);
            st.loading == {} && NoRepeats(st.log) && forall m :: m in st.log <==> m in st.modules
    ensures forall k :: 0 <= k <= |requests| ==> Served(p, requests[..k]).log <= Served(p, requests).log
  {
    if requests == [] {
    } else {
      var front := requests[..|requests| - 1];
      ReplaysOnce(p, front);
      forall k | 0 <= k <= |requests|
        ensures Served(p, requests[..k]).log <= Served(p, requests).log
      {
        if k < |requests| {
          assert requests[..k] == front[..k];
        } else {
          assert requests[..k] == requests;
        }
      }
    }
  }

  lemma {:induction false} PrefixesLoaded(p: Program, st: State, n: Name, k: nat, j: nat)
    requires Valid(p, st) && 1 <= k <= j <= |n| && n[..j] in p.bodies
    ensures n[..j] in ImportPrefixes(p, st, n, k).modules
    decreases |n| - k
  {
    hide ImportOne;
    var s := ImportOne(p, st, n[..k]);
    if j == k {
      OneLoaded(p, st, n[..k]);
    } else {
      PrefixesLoaded(p, s, n, k + 1, j);
    }
  }

  lemma OneLoaded(p: Program, st: State, n: Name)
    requires Valid(p, st) && n in p.bodies
    ensures n in ImportOne(p, st, n).modules
  {
  }

  /** An import loads every module among the name's prefixes, and succeeds if and only if none of the
      prefixes has failed. */
  lemma ImportLoadsPrefixes(p: Program, st: State, n: Name)
    requires Valid(p, st) && n != []
    ensures var r := ImportModule(p, st, n);
            && (forall k :: 1 <= k <= |n| && n[..k] in p.bodies ==> n[..k] in r.0.modules)
            && (r.1 <==> forall k :: 1 <= k <= |n| ==> n[..k] !in r.0.failed)
  {
    forall k | 1 <= k <= |n| && n[..k] in p.bodies
      ensures n[..k] in ImportModule(p, st, n).0.modules
    {
      PrefixesLoaded(p, st, n, 1, k);
    }
    assert n[..|n|] == n;
  }

  // ---------- a package once bound stays bound ----------

  /** The package d, which has no body, is an attribute of its loaded parent, beyond doubt. */
  ghost predicate PackageBound(p: Program, st: State, d: Name) {
    && d != [] && d in p.packages && d !in p.bodies && Parent(d) in st.modules && d !in st.uncertain
    && Lookup(st.modules[Parent(d)], Child(d)) == Some(Known(ResolveModule(p, d)))
  }

  lemma PackageClaim(p: Program, d: Name) returns (c: Claim)
    requires d != [] && d in p.packages && d !in p.bodies
    ensures Coherent(p, c) && forall st :: Holds(p, st, c) <==> PackageBound(p, st, d)
  {
    c := Bound(d, {Some(Known(ResolveModule(p, d)))}, true);
  }

  /** Whatever bodies a load replays, a bound package stays bound. */
  lemma BoundPackageStays(p: Program, st: State, m: Name, d: Name)
    requires Valid(p, st) && Named(p) && PackageBound(p, st, d)
    ensures PackageBound(p, Load(p, st, m), d)
  {
    hide Holds, Coherent, Load;
    var c := PackageClaim(p, d);
    LoadKeeps(p, st, m, c);
  }

  // ---------- importing again ----------

  /** Importing the prefix d does nothing in this state. */
  ghost predicate Settled(p: Program, st: State, d: Name) {
    || d in st.modules
    || (d !in p.bodies && (d !in p.packages || Parent(d) !in p.bodies || PackageBound(p, st, d)))
  }

  lemma OneSettles(p: Program, st: State, d: Name)
    requires Valid(p, st) && Named(p) && d != [] && (Parent(d) in p.bodies ==> Parent(d) in st.modules)
    ensures Settled(p, ImportOne(p, st, d), d)
  {
    hide ResolveModule;
  }

  lemma SettledDoesNothing(p: Program, st: State, d: Name)
    requires Valid(p, st) && Named(p) && Settled(p, st, d)
    ensures ImportOne(p, st, d) == st
  {
    hide ResolveModule;
    if d !in st.modules && PackageBound(p, st, d) {
      var e := Known(ResolveModule(p, d));
      assert st.modules[Parent(d)][Child(d) := e] == st.modules[Parent(d)];
      assert Bind(st, Parent(d), Child(d), e) == st;
    }
  }

  lemma BoundStays(p: Program, st: State, n: Name, d: Name)
    requires Valid(p, st) && Named(p) && PackageBound(p, st, d)
    ensures PackageBound(p, ImportOne(p, st, n), d)
  {
    hide Holds, Coherent, ImportOne;
    var c := PackageClaim(p, d);
    OneKeeps(p, st, n, c);
  }

  lemma StaysSettled(p: Program, st: State, n: Name, d: Name)
    requires Valid(p, st) && Named(p) && Settled(p, st, d)
    ensures Settled(p, ImportOne(p, st, n), d)
  {
    hide ImportOne, PackageBound;
    if PackageBound(p, st, d) {
      BoundStays(p, st, n, d);
    }
  }

  ghost predicate SettledUpTo(p: Program, st: State, n: Name, k: nat)
    requires k <= |n| + 1
  {
    forall j :: 1 <= j < k ==> Settled(p, st, n[..j])
  }

  lemma {:induction false} PrefixesSettle(p: Program, st: State, n: Name, k: nat)
    requires Valid(p, st) && Named(p) && 1 <= k <= |n| + 1 && SettledUpTo(p, st, n, k)
    ensures SettledUpTo(p, ImportPrefixes(p, st, n, k), n, |n| + 1)
    decreases |n| + 1 - k
  {
    hide ImportOne, PackageBound;
    if k <= |n| {
      var d := n[..k];
      var s := ImportOne(p, st, d);
      forall j | 1 <= j < k + 1
        ensures Settled(p, s, n[..j])
      {
        if j < k {
          StaysSettled(p, st, d, n[..j]);
        } else {
          ParentSettled(p, st, n, k);
          OneSettles(p, st, d);
        }
      }
      PrefixesSettle(p, s, n, k + 1);
    }
  }

  lemma ParentSettled(p: Program, st: State, n: Name, k: nat)
    requires Named(p) && 1 <= k <= |n| && SettledUpTo(p, st, n, k)
    ensures Parent(n[..k]) in p.bodies ==> Parent(n[..k]) in st.modules
  {
    assert n[..k][..k - 1] == n[..k - 1];
    assert k > 1 ==> Settled(p, st, n[..k - 1]);
  }

  lemma {:induction false} SettledPrefixes(p: Program, st: State, n: Name, k: nat)
    requires Valid(p, st) && Named(p) && 1 <= k <= |n| + 1 && SettledUpTo(p, st, n, |n| + 1)
    ensures ImportPrefixes(p, st, n, k) == st
    decreases |n| + 1 - k
  {
    hide ImportOne;
    if k <= |n| {
      assert Settled(p, st, n[..k]);
      SettledDoesNothing(p, st, n[..k]);
      SettledPrefixes(p, st, n, k + 1);
    }
  }

  /** Importing the same name again at once replays nothing, changes nothing and answers the same. */
  lemma ImportingAgain(p: Program, st: State, n: Name)
    requires Valid(p, st) && Named(p)
    ensures var r := ImportModule(p, st, n);
            ImportModule(p, r.0, n) == r
  {
    hide ImportOne, ImportPrefixes;
    if n != [] {
      PrefixesSettle(p, st, n, 1);
      SettledPrefixes(p, ImportModule(p, st, n).0, n, 1);
    } else {
      NothingNamedEmpty(p, st);
      NothingNamedEmpty(p, ImportModule(p, st, n).0);
    }
  }

  lemma NothingNamedEmpty(p: Program, st: State)
    requires Valid(p, st) && Named(p)
    ensures ImportOne(p, st, []) == st
  {
  }
}
