/** Which files an incremental refresh clears and indexes again. */
module RefreshPlan {
  import opened Reachability

  type Path = string
  type Arcs = set<(Path, Path)>

  /** A file the database knows: whether it is on disk and whether it differs from what was indexed. */
  datatype FileInfo = FileInfo(path: Path, onDisk: bool, changed: bool)

  /** For each file, the files that refer to it. */
  type References = map<Path, set<Path>>

  datatype Storage = Storage(files: seq<FileInfo>, indexed: set<Path>, includedBy: References, importedBy: References)

  datatype RefreshInfo = RefreshInfo(filesToIndex: set<Path>, filesToClear: set<Path>, nonIndexedFilesToClear: set<Path>)

  // ---------- closures ----------

  ghost function ArcsOf(references: References): Arcs {
    set id, other | id in references && other in references[id] :: (id, other)
  }

  function Inverse(arcs: Arcs): Arcs {
    set arc | arc in arcs :: (arc.1, arc.0)
  }

  ghost function Successors(arcs: Arcs, s: set<Path>): set<Path> {
    set arc | arc in arcs && arc.0 in s :: arc.1
  }

  /** A chain of one or more arcs leads from a to b. */
  ghost predicate Chain(arcs: Arcs, a: Path, b: Path) {
    exists arc :: arc in arcs && Reaches(arcs, a, arc.0) && arc.1 == b
  }

  ghost predicate ChainFrom(arcs: Arcs, s: set<Path>, b: Path) {
    exists a :: a in s && Chain(arcs, a, b)
  }

  /** Everything at the end of a chain that starts in s. */
  ghost function After(arcs: Arcs, s: set<Path>): (r: set<Path>)
    ensures forall b :: b in r <==> ChainFrom(arcs, s, b)
  {
    set arc | arc in arcs && ChainFrom(arcs, s, arc.1) :: arc.1
  }

  lemma ChainStep(arcs: Arcs, s: set<Path>, b: Path, c: Path)
    requires (b in s || ChainFrom(arcs, s, b)) && (b, c) in arcs
    ensures ChainFrom(arcs, s, c)
  {
    if b in s {
      ReachesSelf(arcs, b);
      assert Chain(arcs, b, c) by {
        assert (b, c) in arcs && Reaches(arcs, b, (b, c).0);
      }
    } else {
      var a :| a in s && Chain(arcs, a, b);
      var arc :| arc in arcs && Reaches(arcs, a, arc.0) && arc.1 == b;
      assert arc == (arc.0, b);
      ReachesStep(arcs, a, arc.0, b);
      assert (b, c).0 == b && (b, c).1 == c;
      assert Chain(arcs, a, c);
    }
  }

  /** A set that holds the successors of s and its own successors holds all of After(s). */
  lemma ClosedHoldsAfter(arcs: Arcs, s: set<Path>, r: set<Path>, b: Path)
    requires Successors(arcs, s + r) <= r && ChainFrom(arcs, s, b)
    ensures b in r
  {
    var a :| a in s && Chain(arcs, a, b);
    var arc :| arc in arcs && Reaches(arcs, a, arc.0) && arc.1 == b;
    forall e | e in arcs && e.0 in s + r
      ensures e.1 in s + r
    {
      assert e.1 in Successors(arcs, s + r);
    }
    assert Closed(arcs, s + r);
    ClosedKeepsReachable(arcs, s + r, a, arc.0);
    assert arc.1 in Successors(arcs, s + r);
  }

  /** One round of the search: the referrers of all of `temp`, and those not processed before. */
  method OneRound(temp: set<Path>, references: References, processed: set<Path>) returns (found: set<Path>, added: set<Path>)
    ensures found == Successors(ArcsOf(references), temp) && added == found - processed
  {
    hide ArcsOf, Successors;
    ghost var arcs := ArcsOf(references);
    found, added := {}, {};
    NoSuccessors(arcs);
    var rest := temp;
    assert temp - rest == {};
    while rest != {}
      invariant rest <= temp
      invariant found == Successors(arcs, temp - rest) && added == found - processed
      decreases rest
    {
      var id :| id in rest;
      var others := if id in references then references[id] else {};
      OthersAreSuccessors(references, id);
      SuccessorsJoin(arcs, temp - rest, {id});
      assert temp - (rest - {id}) == (temp - rest) + {id};
      found := found + others;
      added := added + (set other | other in others && other !in processed);
      rest := rest - {id};
    }
    assert temp - rest == temp;
  }

  method GetReferencing(ids: set<Path>, references: References) returns (referencing: set<Path>)
    ensures referencing == After(ArcsOf(references), ids)
  {
    hide ArcsOf, Successors, ChainFrom;
    ghost var arcs := ArcsOf(references);
    referencing := {};
    var processing, processed := ids, {};
    NoSuccessors(arcs);
    ghost var all := ids + (set arc | arc in arcs :: arc.1);
    while processing != {}
      invariant processing !! processed && processed + processing == ids + referencing <= all
      invariant referencing == Successors(arcs, processed) <= After(arcs, ids)
      decreases all - processed
    {
      hide After;
      var temp := processing;
      SuccessorsJoin(arcs, processed, temp);
      SuccessorsAfter(arcs, ids, referencing, temp);
      SuccessorsAreEnds(arcs, temp);
      processed := processed + processing;
      var found;
      found, processing := OneRound(temp, references, processed);
      referencing := referencing + found;
    }
    assert processed == ids + referencing;
    AllAfter(arcs, ids, referencing);
  }

  lemma NoSuccessors(arcs: Arcs)
    ensures Successors(arcs, {}) == {}
  {
  }

  lemma SuccessorsAreEnds(arcs: Arcs, s: set<Path>)
    ensures Successors(arcs, s) <= set arc | arc in arcs :: arc.1
  {
  }

  lemma SuccessorsAfter(arcs: Arcs, ids: set<Path>, referencing: set<Path>, s: set<Path>)
    requires s <= ids + referencing && referencing <= After(arcs, ids)
    ensures Successors(arcs, s) <= After(arcs, ids)
  {
    forall b | b in Successors(arcs, s)
      ensures b in After(arcs, ids)
    {
      var arc :| arc in arcs && arc.0 in s && arc.1 == b;
      assert arc == (arc.0, b);
      ChainStep(arcs, ids, arc.0, b);
    }
  }

  lemma AllAfter(arcs: Arcs, ids: set<Path>, referencing: set<Path>)
    requires referencing == Successors(arcs, ids + referencing) <= After(arcs, ids)
    ensures referencing == After(arcs, ids)
  {
    hide Successors, ChainFrom;
    forall b | b in After(arcs, ids)
      ensures b in referencing
    {
      ClosedHoldsAfter(arcs, ids, referencing, b);
    }
  }

  lemma OthersAreSuccessors(references: References, id: Path)
    ensures (if id in references then references[id] else {}) == Successors(ArcsOf(references), {id})
  {
    if id in references {
      forall b | b in references[id]
        ensures b in Successors(ArcsOf(references), {id})
      {
        assert (id, b) in ArcsOf(references);
      }
    }
  }

  lemma SuccessorsJoin(arcs: Arcs, s: set<Path>, t: set<Path>)
    ensures Successors(arcs, s + t) == Successors(arcs, s) + Successors(arcs, t)
  {
  }

  ghost predicate Entry(references: References, a: Path, b: Path) {
    a in references && b in references[a]
  }

  /** `inverted` turns round the entries of `references` under the keys in `done`, and `part` of the entry of `id`. */
  ghost predicate Inverts(inverted: References, references: References, done: set<Path>, id: Path, part: set<Path>) {
    forall a, b :: Entry(inverted, a, b) <==> (b in done && Entry(references, b, a)) || (b == id && a in part)
  }

  function Grown(inverted: References, other: Path, id: Path): References {
    inverted[other := (if other in inverted then inverted[other] else {}) + {id}]
  }

  lemma InvertOne(inverted: References, references: References, done: set<Path>, id: Path, part: set<Path>, other: Path)
    requires Inverts(inverted, references, done, id, part)
    ensures Inverts(Grown(inverted, other, id), references, done, id, part + {other})
  {
    var grown := Grown(inverted, other, id);
    forall a, b
      ensures Entry(grown, a, b) <==> (b in done && Entry(references, b, a)) || (b == id && a in part + {other})
    {
      assert Entry(grown, a, b) <==> Entry(inverted, a, b) || (a == other && b == id);
    }
  }

  lemma InvertNext(inverted: References, references: References, done: set<Path>, id: Path)
    requires id in references && Inverts(inverted, references, done, id, references[id])
    ensures forall next :: Inverts(inverted, references, done + {id}, next, {})
  {
  }

  method GetReferenced(ids: set<Path>, references: References) returns (referenced: set<Path>)
    ensures referenced == After(Inverse(ArcsOf(references)), ids)
  {
    var inverted: References := map[];
    var keys := references.Keys;
    while keys != {}
      invariant keys <= references.Keys
      invariant forall id :: Inverts(inverted, references, references.Keys - keys, id, {})
      decreases keys
    {
      var id :| id in keys;
      ghost var done := references.Keys - keys;
      var others := references[id];
      assert Inverts(inverted, references, done, id, {}) && references[id] - others == {};
      while others != {}
        invariant others <= references[id]
        invariant Inverts(inverted, references, done, id, references[id] - others)
        decreases others
      {
        hide Inverts, Grown;
        var other :| other in others;
        InvertOne(inverted, references, done, id, references[id] - others, other);
        inverted := Grown(inverted, other, id);
        assert references[id] - (others - {other}) == references[id] - others + {other};
        others := others - {other};
      }
      assert references[id] - {} == references[id];
      InvertNext(inverted, references, done, id);
      assert references.Keys - (keys - {id}) == done + {id};
      keys := keys - {id};
    }
    assert references.Keys - keys == references.Keys;
    InvertedArcs(references, inverted);
    referenced := GetReferencing(ids, inverted);
  }

  lemma InvertedArcs(references: References, inverted: References)
    requires Inverts(inverted, references, references.Keys, "", {})
    ensures ArcsOf(inverted) == Inverse(ArcsOf(references))
  {
    forall a, b
      ensures (a, b) in ArcsOf(inverted) <==> (a, b) in Inverse(ArcsOf(references))
    {
      assert Entry(inverted, a, b) <==> Entry(references, b, a);
      if Entry(references, b, a) {
        assert (b, a) in ArcsOf(references);
      }
    }
  }

  // ---------- the plan ----------

  /** `known` are the paths the enabled source groups contain, `sources` the source files they list. */
  predicate CountsAsChanged(info: FileInfo, indexed: set<Path>, known: set<Path>) {
    if info.path in known && info.onDisk then info.path !in indexed || info.changed
    else info.path in indexed || info.changed
  }

  predicate CountsAsUnchangedIndexed(info: FileInfo, indexed: set<Path>, known: set<Path>) {
    info.path in known && info.onDisk && info.path in indexed && !info.changed
  }

  function Changed(st: Storage, known: set<Path>): set<Path> {
    set info | info in st.files && CountsAsChanged(info, st.indexed, known) :: info.path
  }

  function UnchangedIndexed(st: Storage, known: set<Path>): set<Path> {
    set info | info in st.files && CountsAsUnchangedIndexed(info, st.indexed, known) :: info.path
  }

  ghost function Referencing(st: Storage, s: set<Path>): set<Path> {
    After(ArcsOf(st.includedBy), s) + After(ArcsOf(st.importedBy), s)
  }

  ghost function Referenced(st: Storage, s: set<Path>): set<Path> {
    After(Inverse(ArcsOf(st.includedBy)), s) + After(Inverse(ArcsOf(st.importedBy)), s)
  }

  /** The changed files and those that refer to them. */
  ghost function FirstCleared(st: Storage, known: set<Path>): set<Path> {
    Changed(st, known) + Referencing(st, Changed(st, known))
  }

  ghost function Cleared(st: Storage, known: set<Path>, sources: set<Path>): set<Path> {
    var first := FirstCleared(st, known);
    first + (Referenced(st, first) - Referenced(st, sources - first) - (sources - first))
  }

  ghost function Indexed(st: Storage, known: set<Path>, sources: set<Path>): set<Path> {
    sources * Cleared(st, known, sources) + (sources - UnchangedIndexed(st, known))
  }

  method DivideFiles(st: Storage, known: set<Path>)
    returns (unchangedIndexed: set<Path>, unchangedNonindexed: set<Path>, changed: set<Path>)
    ensures unchangedIndexed == UnchangedIndexed(st, known) && changed == Changed(st, known)
  {
    hide Changed, UnchangedIndexed;
    unchangedIndexed, unchangedNonindexed, changed := {}, {}, {};
    NoFile(st, known);
    assert st.files[..0] == [];
    for i := 0 to |st.files|
      invariant changed == Changed(st.(files := st.files[..i]), known)
      invariant unchangedIndexed == UnchangedIndexed(st.(files := st.files[..i]), known)
    {
      var file := st.files[i];
      OneMoreFile(st, known, i);
      if file.path in known && file.onDisk {
        if file.path in st.indexed {
          if file.changed {
            changed := changed + {file.path};
          } else {
            unchangedIndexed := unchangedIndexed + {file.path};
          }
        } else {
          changed := changed + {file.path};
        }
      } else if file.path !in st.indexed && !file.changed {
        unchangedNonindexed := unchangedNonindexed + {file.path};
      } else {
        changed := changed + {file.path};
      }
    }
    assert st.files[..|st.files|] == st.files && st.(files := st.files) == st;
  }

  method RefreshInfoForUpdatedFiles(st: Storage, known: set<Path>, sources: set<Path>) returns (info: RefreshInfo)
    ensures info.filesToIndex == Indexed(st, known, sources)
    ensures info.filesToClear + info.nonIndexedFilesToClear == Cleared(st, known, sources)
    ensures info.filesToClear <= st.indexed && info.nonIndexedFilesToClear !! st.indexed
  {
    hide Changed, UnchangedIndexed, ArcsOf, Inverse, After;
    var unchangedIndexed, unchangedNonindexed, changed := DivideFiles(st, known);

    var byIncludes := GetReferencing(changed, st.includedBy);
    var byImports := GetReferencing(changed, st.importedBy);
    var toClear := changed + (byIncludes + byImports);
    var staticSources := sources - toClear;
    var staticIncluded := GetReferenced(staticSources, st.includedBy);
    var staticImported := GetReferenced(staticSources, st.importedBy);
    var staticReferenced := staticIncluded + staticImported;
    var dynamicIncluded := GetReferenced(toClear, st.includedBy);
    var dynamicImported := GetReferenced(toClear, st.importedBy);
    var dynamicReferenced := dynamicIncluded + dynamicImported;

    toClear := ClearMore(toClear, dynamicReferenced, staticReferenced, staticSources);
    var toIndex := ChooseIndexed(sources, toClear, unchangedIndexed);
    var filesToClear, nonIndexed := DivideCleared(toClear, st.indexed);
    info := RefreshInfo(toIndex, filesToClear, nonIndexed);
  }

  /** Clears what is referenced by the cleared files and by no static source, unless it is one itself. */
  method ClearMore(first: set<Path>, dynamicReferenced: set<Path>, staticReferenced: set<Path>, staticSources: set<Path>)
    returns (toClear: set<Path>)
    ensures toClear == first + (dynamicReferenced - staticReferenced - staticSources)
  {
    toClear := first;
    var rest := dynamicReferenced;
    while rest != {}
      invariant rest <= dynamicReferenced
      invariant toClear == first + ((dynamicReferenced - rest) - staticReferenced - staticSources)
      decreases rest
    {
      var path :| path in rest;
      if path !in staticReferenced && path !in staticSources {
        toClear := toClear + {path};
      }
      rest := rest - {path};
    }
  }

  method ChooseIndexed(sources: set<Path>, toClear: set<Path>, unchangedIndexed: set<Path>) returns (toIndex: set<Path>)
    ensures toIndex == sources * toClear + (sources - unchangedIndexed)
  {
    toIndex := {};
    var rest := sources;
    while rest != {}
      invariant rest <= sources
      invariant toIndex == (sources - rest) * toClear + (sources - rest - unchangedIndexed)
      decreases rest
    {
      var path :| path in rest;
      if path in toClear || path !in unchangedIndexed {
        toIndex := toIndex + {path};
      }
      rest := rest - {path};
    }
  }

  method DivideCleared(toClear: set<Path>, indexed: set<Path>) returns (filesToClear: set<Path>, nonIndexed: set<Path>)
    ensures filesToClear == toClear * indexed && nonIndexed == toClear - indexed
  {
    filesToClear, nonIndexed := {}, {};
    var rest := toClear;
    while rest != {}
      invariant rest <= toClear
      invariant filesToClear == (toClear - rest) * indexed && nonIndexed == toClear - rest - indexed
      decreases rest
    {
      var path :| path in rest;
      if path in indexed {
        filesToClear := filesToClear + {path};
      } else {
        nonIndexed := nonIndexed + {path};
      }
      rest := rest - {path};
    }
  }

  lemma NoFile(st: Storage, known: set<Path>)
    ensures Changed(st.(files := []), known) == {} && UnchangedIndexed(st.(files := []), known) == {}
  {
  }

  lemma OneMoreFile(st: Storage, known: set<Path>, i: nat)
    requires i < |st.files|
    ensures Changed(st.(files := st.files[..i + 1]), known) ==
            Changed(st.(files := st.files[..i]), known) +
            if CountsAsChanged(st.files[i], st.indexed, known) then {st.files[i].path} else {}
    ensures UnchangedIndexed(st.(files := st.files[..i + 1]), known) ==
            UnchangedIndexed(st.(files := st.files[..i]), known) +
            if CountsAsUnchangedIndexed(st.files[i], st.indexed, known) then {st.files[i].path} else {}
  {
    assert st.files[..i + 1] == st.files[..i] + [st.files[i]];
  }

  // ---------- what the plan keeps ----------

  lemma {:induction false} InverseWalk(arcs: Arcs, a: Path, b: Path, n: nat)
    requires Walk(arcs, a, b, n)
    ensures Reaches(Inverse(arcs), b, a)
    decreases n
  {
    if n == 0 {
      ReachesSelf(Inverse(arcs), a);
    } else {
      var mid :| Walk(arcs, a, mid, n - 1) && (mid, b) in arcs;
      InverseWalk(arcs, a, mid, n - 1);
      assert (b, mid) in Inverse(arcs);
      ReachesSelf(Inverse(arcs), b);
      ReachesStep(Inverse(arcs), b, b, mid);
      ReachesTransitive(Inverse(arcs), b, mid, a);
    }
  }

  lemma InverseOfInverse(arcs: Arcs)
    ensures Inverse(Inverse(arcs)) == arcs
  {
    forall a, b
      ensures (a, b) in Inverse(Inverse(arcs)) <==> (a, b) in arcs
    {
      if (a, b) in arcs {
        assert (b, a) in Inverse(arcs);
      }
    }
  }

  lemma InverseChainOneWay(arcs: Arcs, a: Path, b: Path)
    requires Chain(arcs, a, b)
    ensures Chain(Inverse(arcs), b, a)
  {
    var arc :| arc in arcs && Reaches(arcs, a, arc.0) && arc.1 == b;
    var inverse := Inverse(arcs);
    assert (b, arc.0) in inverse;
    if a == arc.0 {
      ReachesSelf(inverse, b);
      assert Chain(inverse, b, a) by {
        assert (b, a).0 == b && (b, a).1 == a;
      }
    } else {
      var n: nat :| Walk(arcs, a, arc.0, n);
      InverseWalk(arcs, a, arc.0, n);
      var first := WalkFirstArc(arcs, a, arc.0, n);
      InverseWalk(arcs, first, arc.0, n - 1);
      ReachesSelf(inverse, b);
      ReachesStep(inverse, b, b, arc.0);
      ReachesTransitive(inverse, b, arc.0, first);
      assert (first, a) in inverse;
      assert (first, a).0 == first && (first, a).1 == a;
    }
  }

  /** The two closures the storage computes are inverse to each other. */
  lemma InverseChain(arcs: Arcs, a: Path, b: Path)
    ensures Chain(Inverse(arcs), b, a) <==> Chain(arcs, a, b)
  {
    if Chain(arcs, a, b) {
      InverseChainOneWay(arcs, a, b);
    }
    if Chain(Inverse(arcs), b, a) {
      InverseChainOneWay(Inverse(arcs), b, a);
      InverseOfInverse(arcs);
    }
  }

  lemma ChainTransitive(arcs: Arcs, a: Path, b: Path, c: Path)
    requires Chain(arcs, a, b) && Chain(arcs, b, c)
    ensures Chain(arcs, a, c)
  {
    var arc :| arc in arcs && Reaches(arcs, a, arc.0) && arc.1 == b;
    assert arc == (arc.0, b);
    ReachesStep(arcs, a, arc.0, b);
    var last :| last in arcs && Reaches(arcs, b, last.0) && last.1 == c;
    ReachesTransitive(arcs, a, b, last.0);
  }

  /** Through includes alone, or through imports alone, p refers to x. */
  ghost predicate Includes(st: Storage, p: Path, x: Path) {
    Chain(ArcsOf(st.includedBy), x, p)
  }

  ghost predicate Imports(st: Storage, p: Path, x: Path) {
    Chain(ArcsOf(st.importedBy), x, p)
  }

  ghost predicate RefersTo(st: Storage, p: Path, x: Path) {
    Includes(st, p, x) || Imports(st, p, x)
  }

  lemma ReferencedMeans(st: Storage, s: set<Path>, x: Path)
    ensures x in Referenced(st, s) <==> exists p :: p in s && RefersTo(st, p, x)
    ensures x in Referencing(st, s) <==> exists p :: p in s && RefersTo(st, x, p)
  {
    forall p
      ensures Chain(Inverse(ArcsOf(st.includedBy)), p, x) <==> Includes(st, p, x)
      ensures Chain(Inverse(ArcsOf(st.importedBy)), p, x) <==> Imports(st, p, x)
    {
      InverseChain(ArcsOf(st.includedBy), x, p);
      InverseChain(ArcsOf(st.importedBy), x, p);
    }
  }

  /** A file counts as changed unless it is there and was indexed as it is, or is gone and was never indexed. */
  lemma ChangedExactly(st: Storage, known: set<Path>, p: Path)
    ensures p in Changed(st, known) <==>
            exists info :: && info in st.files && info.path == p
                           && !(p in known && info.onDisk && p in st.indexed && !info.changed)
                           && !(!(p in known && info.onDisk) && p !in st.indexed && !info.changed)
    ensures p in UnchangedIndexed(st, known) <==>
            exists info :: info in st.files && info.path == p && p in known && info.onDisk && p in st.indexed && !info.changed
  {
  }

  /** The file counts as changed or refers to one that does. */
  ghost predicate Affected(st: Storage, known: set<Path>, p: Path) {
    p in Changed(st, known) || exists c :: c in Changed(st, known) && RefersTo(st, p, c)
  }

  /** The files cleared are the affected ones, and those that an affected file refers to, unless they are an unaffected
      source or one refers to them. */
  lemma ClearedExactly(st: Storage, known: set<Path>, sources: set<Path>, x: Path)
    ensures x in Cleared(st, known, sources) <==>
            || Affected(st, known, x)
            || ((exists p :: Affected(st, known, p) && RefersTo(st, p, x)) &&
                !exists q :: q in sources && !Affected(st, known, q) && (q == x || RefersTo(st, q, x)))
  {
    hide Changed, RefersTo, Referenced, Referencing;
    forall p
      ensures p in FirstCleared(st, known) <==> Affected(st, known, p)
    {
      ReferencedMeans(st, Changed(st, known), p);
    }
    ReferencedMeans(st, FirstCleared(st, known), x);
    ReferencedMeans(st, sources - FirstCleared(st, known), x);
  }

  /** A source file the plan leaves alone. */
  ghost predicate Kept(st: Storage, known: set<Path>, sources: set<Path>, p: Path) {
    p in sources && p !in Indexed(st, known, sources)
  }

  /** The source files indexed again are exactly those that are not known as unchanged and indexed, that
      count as changed, or that refer to a file that does. */
  lemma IndexedExactly(st: Storage, known: set<Path>, sources: set<Path>, p: Path)
    requires p in sources
    ensures p in Indexed(st, known, sources) <==>
            (|| p !in UnchangedIndexed(st, known) || p in Changed(st, known)
             || exists c :: c in Changed(st, known) && RefersTo(st, p, c))
  {
    ReferencedMeans(st, Changed(st, known), p);
  }

  /** A file left alone is unchanged, indexed and not cleared, and refers to no changed file. */
  lemma KeptIsUntouched(st: Storage, known: set<Path>, sources: set<Path>, p: Path)
    requires Kept(st, known, sources, p)
    ensures p !in Cleared(st, known, sources) && p in st.indexed
    ensures exists info :: info in st.files && info.path == p && info.onDisk && !info.changed
    ensures forall x :: RefersTo(st, p, x) ==> x !in Changed(st, known)
  {
    IndexedExactly(st, known, sources, p);
    var info :| info in st.files && CountsAsUnchangedIndexed(info, st.indexed, known) && info.path == p;
  }

  /** A source that is itself up to date and refers to no changed file through one relation alone, but
      does so through a chain of one relation followed by a chain of the other. */
  ghost predicate MixedLoss(st: Storage, known: set<Path>, sources: set<Path>, p: Path, x: Path, c: Path) {
    && p in sources && p in UnchangedIndexed(st, known) && p !in FirstCleared(st, known)
    && c in Changed(st, known)
    && ((Includes(st, p, x) && Imports(st, x, c)) || (Imports(st, p, x) && Includes(st, x, c)))
  }

  ghost predicate NothingLost(st: Storage, known: set<Path>, sources: set<Path>) {
    forall p, x :: Kept(st, known, sources, p) && RefersTo(st, p, x) ==> x !in Cleared(st, known, sources)
  }

  lemma KeptIsStatic(st: Storage, known: set<Path>, sources: set<Path>, p: Path)
    ensures Kept(st, known, sources, p) <==>
            p in sources && p in UnchangedIndexed(st, known) && p !in FirstCleared(st, known)
  {
  }

  /** Of what a kept file refers to, only what counts as changed or refers to a change is cleared. */
  lemma ReferencedByKept(st: Storage, known: set<Path>, sources: set<Path>, p: Path, x: Path)
    requires Kept(st, known, sources, p) && RefersTo(st, p, x)
    ensures x in Cleared(st, known, sources) <==> x in FirstCleared(st, known)
  {
    KeptIsStatic(st, known, sources, p);
    ReferencedMeans(st, sources - FirstCleared(st, known), x);
  }

  lemma LossIsMixed(st: Storage, known: set<Path>, sources: set<Path>, p: Path, x: Path) returns (c: Path)
    requires Kept(st, known, sources, p) && RefersTo(st, p, x) && x in Cleared(st, known, sources)
    ensures MixedLoss(st, known, sources, p, x, c)
  {
    ReferencedByKept(st, known, sources, p, x);
    KeptIsStatic(st, known, sources, p);
    KeptIsUntouched(st, known, sources, p);
    ReferencedMeans(st, Changed(st, known), x);
    ReferencedMeans(st, Changed(st, known), p);
    c :| c in Changed(st, known) && RefersTo(st, x, c);
    assert !RefersTo(st, p, c);
    if Includes(st, p, x) && Includes(st, x, c) {
      ChainTransitive(ArcsOf(st.includedBy), c, x, p);
    }
    if Imports(st, p, x) && Imports(st, x, c) {
      ChainTransitive(ArcsOf(st.importedBy), c, x, p);
    }
  }

  /** The refresh clears nothing that a kept file refers to, exactly when no up-to-date source reaches a
      changed file only by mixing includes and imports: the storage closes the two relations apart. */
  lemma NothingLostIff(st: Storage, known: set<Path>, sources: set<Path>)
    ensures NothingLost(st, known, sources) <==> !exists p, x, c :: MixedLoss(st, known, sources, p, x, c)
  {
    if !NothingLost(st, known, sources) {
      var p, x :| Kept(st, known, sources, p) && RefersTo(st, p, x) && x in Cleared(st, known, sources);
      var c := LossIsMixed(st, known, sources, p, x);
    }
    if p, x, c :| MixedLoss(st, known, sources, p, x, c) {
      KeptIsStatic(st, known, sources, p);
      assert RefersTo(st, p, x) && RefersTo(st, x, c);
      ReferencedMeans(st, Changed(st, known), x);
      assert x in Cleared(st, known, sources);
    }
  }

  /** With a single relation, taken as closed by the storage, nothing is lost. */
  lemma OneRelationLosesNothing(st: Storage, known: set<Path>, sources: set<Path>)
    requires ArcsOf(st.includedBy) == {} || ArcsOf(st.importedBy) == {}
    ensures NothingLost(st, known, sources)
  {
    NothingLostIff(st, known, sources);
  }

  lemma OneArcChain(a: Path, b: Path, x: Path, y: Path)
    requires a != b
    ensures Chain({(a, b)}, x, y) <==> x == a && y == b
  {
    var arcs := {(a, b)};
    ReachesSelf(arcs, a);
    assert (a, b) in arcs && (a, b).0 == a && (a, b).1 == b;
    assert Chain(arcs, a, b);
    if Chain(arcs, x, y) && x != a {
      ClosedKeepsReachable(arcs, {x}, x, a);
    }
  }

  const MIXED := Storage([FileInfo("p", true, false), FileInfo("x", true, false), FileInfo("c", true, true)],
                         {"p", "x", "c"}, map["x" := {"p"}], map["c" := {"x"}])

  lemma MixedFiles()
    ensures Changed(MIXED, MIXED.indexed) == {"c"} && "p" in UnchangedIndexed(MIXED, MIXED.indexed)
    ensures ArcsOf(MIXED.includedBy) == {("x", "p")} && ArcsOf(MIXED.importedBy) == {("c", "x")}
  {
    assert MIXED.files[0].path == "p" && MIXED.files[2].path == "c";
  }

  /** "p" includes "x", "x" imports "c", and "c" has changed: "p" is kept, but "x", which it needs, is cleared. */
  lemma MixedChainLoses()
    ensures Kept(MIXED, MIXED.indexed, {"p"}, "p") && RefersTo(MIXED, "p", "x")
    ensures "x" in Cleared(MIXED, MIXED.indexed, {"p"})
  {
    hide ArcsOf, Changed, UnchangedIndexed, Chain, After, Inverse;
    MixedFiles();
    OneArcChain("x", "p", "x", "p");
    OneArcChain("c", "x", "c", "x");
    OneArcChain("x", "p", "c", "p");
    OneArcChain("c", "x", "c", "p");
    ReferencedMeans(MIXED, {"c"}, "p");
    ReferencedMeans(MIXED, {"c"}, "x");
    assert RefersTo(MIXED, "x", "c");
    KeptIsStatic(MIXED, MIXED.indexed, {"p"}, "p");
  }
}
