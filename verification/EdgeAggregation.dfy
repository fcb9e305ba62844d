/** Merging the edges that fall onto the same displayed edge: what the merged edge says, whatever the
    order in which they come. */
module EdgeAggregation {
  import opened Wrappers

  datatype Resolution = Resolved | External | Unresolved
  datatype Confidence = Exact | Heuristic | Unknown
  datatype Diff = Added | Modified | Removed | Unchanged

  datatype Edge = Edge(id: string, kind: string, source: string, target: string, resolution: Resolution,
                       confidence: Confidence, count: int, diff: Diff, locations: seq<string>,
                       boundaryReason: Option<string>)

  function ResolutionName(r: Resolution): string {
    match r
    case Resolved => "resolved"
    case External => "external"
    case Unresolved => "unresolved"
  }

  function Mixed(r: Resolution): string {
    "Mixed boundary evidence (" + ResolutionName(r) + ")."
  }

  // ---------- one merge ----------

  function JoinDiff(a: Diff, b: Diff): Diff {
    if a == b then a else Modified
  }

  function JoinResolution(a: Resolution, b: Resolution): Resolution {
    if a == b then b else if a == Unresolved || b == Unresolved then Unresolved else External
  }

  function JoinConfidence(a: Confidence, b: Confidence): Confidence {
    if a == b then a else if a == Unknown || b == Unknown then Unknown else Heuristic
  }

  function Merge(current: Edge, edge: Edge): Edge {
    var resolution := JoinResolution(current.resolution, edge.resolution);
    current.(count := current.count + edge.count, locations := current.locations + edge.locations,
             diff := JoinDiff(current.diff, edge.diff), resolution := resolution,
             confidence := JoinConfidence(current.confidence, edge.confidence),
             boundaryReason := if current.resolution == edge.resolution && current.boundaryReason == edge.boundaryReason
                               then current.boundaryReason else Some(Mixed(resolution)))
  }

  // ---------- what a merged edge says of all its parts ----------

  function Total(parts: seq<Edge>): int {
    if parts == [] then 0 else Total(parts[..|parts| - 1]) + parts[|parts| - 1].count
  }

  function AllLocations(parts: seq<Edge>): seq<string> {
    if parts == [] then [] else AllLocations(parts[..|parts| - 1]) + parts[|parts| - 1].locations
  }

  function ResolutionRank(r: Resolution): nat {
    match r
    case Resolved => 0
    case External => 1
    case Unresolved => 2
  }

  function ConfidenceRank(c: Confidence): nat {
    match c
    case Exact => 0
    case Heuristic => 1
    case Unknown => 2
  }

  ghost predicate WorstResolution(parts: seq<Edge>, r: Resolution) {
    && (exists e :: e in parts && e.resolution == r)
    && (forall e :: e in parts ==> ResolutionRank(e.resolution) <= ResolutionRank(r))
  }

  ghost predicate WorstConfidence(parts: seq<Edge>, c: Confidence) {
    && (exists e :: e in parts && e.confidence == c)
    && (forall e :: e in parts ==> ConfidenceRank(e.confidence) <= ConfidenceRank(c))
  }

  /** What all agree on, or else "modified". */
  ghost predicate CommonDiff(parts: seq<Edge>, d: Diff) {
    || (forall e :: e in parts ==> e.diff == d)
    || (d == Modified && exists e, f :: e in parts && f in parts && e.diff != f.diff)
  }

  /** The reason all give for the same resolution, or else that the evidence is mixed. */
  ghost predicate CommonReason(parts: seq<Edge>, r: Resolution, reason: Option<string>) {
    || (forall e :: e in parts ==> e.resolution == r && e.boundaryReason == reason)
    || (reason == Some(Mixed(r)) &&
        exists e, f :: e in parts && f in parts && (e.resolution != f.resolution || e.boundaryReason != f.boundaryReason))
  }

  ghost predicate Aggregates(r: Edge, parts: seq<Edge>) {
    && parts != []
    && r.count == Total(parts) && r.locations == AllLocations(parts)
    && WorstResolution(parts, r.resolution) && WorstConfidence(parts, r.confidence)
    && CommonDiff(parts, r.diff) && CommonReason(parts, r.resolution, r.boundaryReason)
  }

  lemma OnePart(e: Edge, r: Edge)
    requires r == e.(id := r.id, source := r.source, target := r.target)
    ensures Aggregates(r, [e])
  {
    var parts := [e];
    var front := parts[..|parts| - 1];
    assert front == [] && e in parts;
    assert AllLocations(parts) == AllLocations(front) + e.locations;
    assert AllLocations(front) == [] && AllLocations(front) + e.locations == e.locations;
    assert Total(parts) == Total(front) + e.count;
  }

  lemma WorstResolutionGrows(parts: seq<Edge>, r: Resolution, e: Edge)
    requires WorstResolution(parts, r)
    ensures WorstResolution(parts + [e], JoinResolution(r, e.resolution))
  {
    var x :| x in parts && x.resolution == r;
    assert x in parts + [e] && e in parts + [e];
  }

  lemma WorstConfidenceGrows(parts: seq<Edge>, c: Confidence, e: Edge)
    requires WorstConfidence(parts, c)
    ensures WorstConfidence(parts + [e], JoinConfidence(c, e.confidence))
  {
    var x :| x in parts && x.confidence == c;
    assert x in parts + [e] && e in parts + [e];
  }

  lemma CommonDiffGrows(parts: seq<Edge>, d: Diff, e: Edge)
    requires parts != [] && CommonDiff(parts, d)
    ensures CommonDiff(parts + [e], JoinDiff(d, e.diff))
  {
    var all := parts + [e];
    assert parts[0] in all && e in all;
    if !(forall x :: x in parts ==> x.diff == d) {
      var x, y :| x in parts && y in parts && x.diff != y.diff;
      assert x in all && y in all;
    }
  }

  lemma CommonReasonGrows(parts: seq<Edge>, r: Resolution, reason: Option<string>, e: Edge)
    requires parts != [] && CommonReason(parts, r, reason)
    ensures var joined := JoinResolution(r, e.resolution);
            CommonReason(parts + [e], joined,
                         if r == e.resolution && reason == e.boundaryReason then reason else Some(Mixed(joined)))
  {
    var all := parts + [e];
    assert parts[0] in parts && parts[0] in all && e in all;
    if !(forall x :: x in parts ==> x.resolution == r && x.boundaryReason == reason) {
      var x, y :| x in parts && y in parts && (x.resolution != y.resolution || x.boundaryReason != y.boundaryReason);
      assert x in all && y in all;
    }
  }

  lemma OneMorePart(r: Edge, parts: seq<Edge>, e: Edge)
    requires Aggregates(r, parts)
    ensures Aggregates(Merge(r, e), parts + [e])
  {
    hide WorstResolution, WorstConfidence, CommonDiff, CommonReason, JoinResolution, JoinConfidence, JoinDiff, Mixed;
    assert (parts + [e])[..|parts|] == parts;
    WorstResolutionGrows(parts, r.resolution, e);
    WorstConfidenceGrows(parts, r.confidence, e);
    CommonDiffGrows(parts, r.diff, e);
    CommonReasonGrows(parts, r.resolution, r.boundaryReason, e);
  }

  // ---------- the order does not matter ----------

  lemma {:induction false} TotalWithout(parts: seq<Edge>, i: nat)
    requires i < |parts|
    ensures Total(parts) == Total(parts[..i] + parts[i + 1..]) + parts[i].count
  {
    var n := |parts| - 1;
    if i == n {
      assert parts[..i] + parts[i + 1..] == parts[..n];
    } else {
      TotalWithout(parts[..n], i);
      var without := parts[..i] + parts[i + 1..];
      assert parts[..n][..i] + parts[..n][i + 1..] == without[..|without| - 1];
      assert without[|without| - 1] == parts[n];
    }
  }

  lemma LastAmong(a: seq<Edge>, b: seq<Edge>) returns (i: nat)
    requires a != [] && multiset(a) == multiset(b)
    ensures i < |b| && b[i] == a[|a| - 1]
    ensures multiset(a[..|a| - 1]) == multiset(b[..i] + b[i + 1..])
  {
    var n := |a| - 1;
    assert a[n] in multiset(a);
    i :| 0 <= i < |b| && b[i] == a[n];
    assert a == a[..n] + [a[n]];
    assert b == b[..i] + ([b[i]] + b[i + 1..]);
    var rest := b[..i] + b[i + 1..];
    assert multiset(b) == multiset(rest) + multiset{a[n]};
    assert multiset(a) == multiset(a[..n]) + multiset{a[n]};
    assert multiset(a[..n]) == multiset(a) - multiset{a[n]} == multiset(b) - multiset{a[n]} == multiset(rest);
  }

  lemma {:induction false} TotalOfPermutation(a: seq<Edge>, b: seq<Edge>)
    requires multiset(a) == multiset(b)
    ensures Total(a) == Total(b)
    decreases |a|
  {
    if a == [] {
      assert |multiset(b)| == 0;
    } else {
      var n := |a| - 1;
      var i := LastAmong(a, b);
      var rest := b[..i] + b[i + 1..];
      TotalWithout(b, i);
      TotalOfPermutation(a[..n], rest);
    }
  }

  lemma LastLocations(parts: seq<Edge>)
    requires parts != []
    ensures multiset(AllLocations(parts)) ==
            multiset(AllLocations(parts[..|parts| - 1])) + multiset(parts[|parts| - 1].locations)
  {
  }

  lemma {:induction false} LocationsOf(parts: seq<Edge>, i: nat)
    requires i < |parts|
    ensures multiset(AllLocations(parts)) ==
            multiset(AllLocations(parts[..i] + parts[i + 1..])) + multiset(parts[i].locations)
  {
    hide AllLocations;
    var n := |parts| - 1;
    var without := parts[..i] + parts[i + 1..];
    LastLocations(parts);
    if i == n {
      assert without == parts[..n];
    } else {
      LocationsOf(parts[..n], i);
      assert parts[..n][..i] + parts[..n][i + 1..] == without[..|without| - 1];
      assert without[|without| - 1] == parts[n];
      LastLocations(without);
    }
  }

  lemma {:induction false} LocationsOfPermutation(a: seq<Edge>, b: seq<Edge>)
    requires multiset(a) == multiset(b)
    ensures multiset(AllLocations(a)) == multiset(AllLocations(b))
    decreases |a|
  {
    if a == [] {
      assert |multiset(b)| == 0;
    } else {
      var n := |a| - 1;
      var i := LastAmong(a, b);
      var rest := b[..i] + b[i + 1..];
      LocationsOf(b, i);
      LocationsOfPermutation(a[..n], rest);
    }
  }

  /** Two displayed edges merged from the same parts in different orders say the same. */
  lemma OrderDoesNotMatter(r1: Edge, parts1: seq<Edge>, r2: Edge, parts2: seq<Edge>)
    requires Aggregates(r1, parts1) && Aggregates(r2, parts2) && multiset(parts1) == multiset(parts2)
    ensures r1.count == r2.count && r1.resolution == r2.resolution && r1.confidence == r2.confidence
    ensures r1.diff == r2.diff && r1.boundaryReason == r2.boundaryReason
    ensures multiset(r1.locations) == multiset(r2.locations)
  {
    TotalOfPermutation(parts1, parts2);
    LocationsOfPermutation(parts1, parts2);
    forall e
      ensures e in parts1 <==> e in parts2
    {
      assert e in parts1 <==> e in multiset(parts1);
    }
    WorstAgree(parts1, parts2, r1, r2);
    CommonAgree(parts1, parts2, r1, r2);
  }

  lemma WorstAgree(parts1: seq<Edge>, parts2: seq<Edge>, r1: Edge, r2: Edge)
    requires forall e :: e in parts1 <==> e in parts2
    requires WorstResolution(parts1, r1.resolution) && WorstResolution(parts2, r2.resolution)
    requires WorstConfidence(parts1, r1.confidence) && WorstConfidence(parts2, r2.confidence)
    ensures r1.resolution == r2.resolution && r1.confidence == r2.confidence
  {
  }

  lemma CommonAgree(parts1: seq<Edge>, parts2: seq<Edge>, r1: Edge, r2: Edge)
    requires parts1 != [] && forall e :: e in parts1 <==> e in parts2
    requires CommonDiff(parts1, r1.diff) && CommonDiff(parts2, r2.diff)
    requires r1.resolution == r2.resolution
    requires CommonReason(parts1, r1.resolution, r1.boundaryReason)
    requires CommonReason(parts2, r2.resolution, r2.boundaryReason)
    ensures r1.diff == r2.diff && r1.boundaryReason == r2.boundaryReason
  {
    assert parts1[0] in parts1 && parts1[0] in parts2;
  }
}
