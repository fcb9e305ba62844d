/** The method resolution order of a class: a C3 merge of the orders of its bases. */
module ClassLinearization {
  import opened Wrappers
  import opened Reachability

  type Class = nat

  /** An `inherits` edge; the list of edges keeps the order in which they were added. */
  datatype Inherits = Inherits(source: Class, target: Class)

  function Parents(edges: seq<Inherits>, c: Class): seq<Class> {
    if edges == [] then []
    else (if edges[0].source == c then [edges[0].target] else []) + Parents(edges[1..], c)
  }

  function Sources(edges: seq<Inherits>): set<Class> {
    set e | e in edges :: e.source
  }

  ghost function Arcs(edges: seq<Inherits>): set<(Class, Class)> {
    set e | e in edges :: (e.source, e.target)
  }

  lemma {:induction false} ParentsAreArcs(edges: seq<Inherits>, c: Class)
    ensures forall p :: p in Parents(edges, c) <==> (c, p) in Arcs(edges)
    ensures Parents(edges, c) != [] ==> c in Sources(edges)
  {
    if edges != [] {
      ParentsAreArcs(edges[1..], c);
      forall p
        ensures p in Parents(edges, c) <==> (c, p) in Arcs(edges)
      {
        assert (c, p) in Arcs(edges) <==> Inherits(c, p) in edges;
        assert (c, p) in Arcs(edges[1..]) <==> Inherits(c, p) in edges[1..];
      }
    }
  }

  // ---------- sequences and orders ----------

  ghost predicate NoDuplicates<T>(s: seq<T>) {
    forall i, j :: 0 <= i < j < |s| ==> s[i] != s[j]
  }

  ghost predicate IsSubsequence(s: seq<Class>, t: seq<Class>) {
    if s == [] then true
    else if t == [] then false
    else if s[0] == t[0] then IsSubsequence(s[1..], t[1..])
    else IsSubsequence(s, t[1..])
  }

  /** A total order, given as a list, that extends every one of the sequences. */
  ghost predicate Extends(order: seq<Class>, seqs: seq<seq<Class>>) {
    NoDuplicates(order) && forall s :: s in seqs ==> IsSubsequence(s, order)
  }

  ghost predicate Consistent(seqs: seq<seq<Class>>) {
    exists order :: Extends(order, seqs)
  }

  lemma {:induction false} SubsequenceMembers(s: seq<Class>, t: seq<Class>)
    requires IsSubsequence(s, t)
    ensures forall x :: x in s ==> x in t
  {
    if s != [] {
      SubsequenceMembers(if s[0] == t[0] then s[1..] else s, t[1..]);
      assert s == [s[0]] + s[1..] && t == [t[0]] + t[1..];
    }
  }

  lemma {:induction false} SubsequenceTail(s: seq<Class>, t: seq<Class>)
    requires IsSubsequence(s, t) && s != []
    ensures IsSubsequence(s[1..], t)
  {
    if s[0] == t[0] {
      SubsequenceWeaken(s[1..], t);
    } else {
      SubsequenceTail(s, t[1..]);
      SubsequenceWeaken(s[1..], t);
    }
  }

  lemma {:induction false} SubsequenceWeaken(s: seq<Class>, t: seq<Class>)
    requires t != [] && IsSubsequence(s, t[1..])
    ensures IsSubsequence(s, t)
  {
    if s != [] && s[0] == t[0] {
      SubsequenceTail(s, t[1..]);
    }
  }

  lemma {:induction false} SubsequenceReflexive(s: seq<Class>)
    ensures IsSubsequence(s, s)
  {
    if s != [] {
      SubsequenceReflexive(s[1..]);
    }
  }

  lemma {:induction false} SubsequenceTransitive(s: seq<Class>, t: seq<Class>, u: seq<Class>)
    requires IsSubsequence(s, t) && IsSubsequence(t, u)
    ensures IsSubsequence(s, u)
    decreases |t| + |u|
  {
    if s != [] {
      if t[0] != u[0] {
        SubsequenceTransitive(s, t, u[1..]);
        SubsequenceWeaken(s, u);
      } else if s[0] == t[0] {
        SubsequenceTransitive(s[1..], t[1..], u[1..]);
      } else {
        SubsequenceTransitive(s, t[1..], u[1..]);
      }
    }
  }

  // ---------- the merge ----------

  /** x is in no sequence behind the head. */
  predicate GoodHead(seqs: seq<seq<Class>>, x: Class) {
    forall s :: s in seqs && s != [] ==> x !in s[1..]
  }

  /** The first head, from the k-th sequence on, that is in no tail. */
  function Candidate(seqs: seq<seq<Class>>, k: nat): Option<Class>
    requires k <= |seqs|
    decreases |seqs| - k
  {
    if k == |seqs| then None
    else if seqs[k] != [] && GoodHead(seqs, seqs[k][0]) then Some(seqs[k][0])
    else Candidate(seqs, k + 1)
  }

  function NonEmpty(seqs: seq<seq<Class>>): seq<seq<Class>> {
    if seqs == [] then [] else (if seqs[0] == [] then [] else [seqs[0]]) + NonEmpty(seqs[1..])
  }

  function DropHeads(seqs: seq<seq<Class>>, c: Class): seq<seq<Class>> {
    if seqs == [] then []
    else [if seqs[0] != [] && seqs[0][0] == c then seqs[0][1..] else seqs[0]] + DropHeads(seqs[1..], c)
  }

  function Total(seqs: seq<seq<Class>>): nat {
    if seqs == [] then 0 else |seqs[0]| + Total(seqs[1..])
  }

  datatype Merged = Merged(order: seq<Class>, complete: bool)

  /** The merge: it takes good heads while there are any, and is complete if nothing is left over. */
  function Merge(seqs: seq<seq<Class>>): Merged
    decreases Total(seqs)
  {
    var live := NonEmpty(seqs);
    if live == [] then Merged([], true)
    else
      match Candidate(live, 0)
      case None => Merged([], false)
      case Some(c) =>
        CandidateIsHead(live, 0, c);
        NonEmptyTotal(seqs);
        DropHeadsShrinks(live, c);
        var rest := Merge(DropHeads(live, c));
        Merged([c] + rest.order, rest.complete)
  }

  lemma {:induction false} NonEmptyMembers(seqs: seq<seq<Class>>)
    ensures forall s :: s in NonEmpty(seqs) <==> s in seqs && s != []
  {
    if seqs != [] {
      NonEmptyMembers(seqs[1..]);
      assert forall s :: s in seqs <==> s == seqs[0] || s in seqs[1..];
    }
  }

  lemma {:induction false} NonEmptyTotal(seqs: seq<seq<Class>>)
    ensures Total(NonEmpty(seqs)) == Total(seqs)
  {
    if seqs != [] {
      NonEmptyTotal(seqs[1..]);
      if seqs[0] != [] {
        assert NonEmpty(seqs)[1..] == NonEmpty(seqs[1..]);
      } else {
        assert NonEmpty(seqs) == NonEmpty(seqs[1..]);
      }
    }
  }

  lemma {:induction false} CandidateIsHead(seqs: seq<seq<Class>>, k: nat, c: Class)
    requires k <= |seqs| && Candidate(seqs, k) == Some(c)
    ensures GoodHead(seqs, c) && exists s :: s in seqs && s != [] && s[0] == c
    decreases |seqs| - k
  {
    if seqs[k] != [] && GoodHead(seqs, seqs[k][0]) {
      assert seqs[k] in seqs;
    } else {
      CandidateIsHead(seqs, k + 1, c);
    }
  }

  lemma {:induction false} CandidateExists(seqs: seq<seq<Class>>, k: nat, i: nat)
    requires k <= i < |seqs| && seqs[i] != [] && GoodHead(seqs, seqs[i][0])
    ensures Candidate(seqs, k).Some?
    decreases i - k
  {
    if k < i {
      CandidateExists(seqs, k + 1, i);
    }
  }

  lemma {:induction false} DropHeadsAt(seqs: seq<seq<Class>>, c: Class)
    ensures |DropHeads(seqs, c)| == |seqs|
    ensures forall i :: 0 <= i < |seqs| ==>
              DropHeads(seqs, c)[i] == if seqs[i] != [] && seqs[i][0] == c then seqs[i][1..] else seqs[i]
  {
    if seqs != [] {
      DropHeadsAt(seqs[1..], c);
    }
  }

  lemma {:induction false} DropHeadsShrinks(seqs: seq<seq<Class>>, c: Class)
    ensures Total(DropHeads(seqs, c)) <= Total(seqs)
    ensures (exists s :: s in seqs && s != [] && s[0] == c) ==> Total(DropHeads(seqs, c)) < Total(seqs)
  {
    if seqs != [] {
      DropHeadsShrinks(seqs[1..], c);
      assert DropHeads(seqs, c)[1..] == DropHeads(seqs[1..], c);
      assert forall s :: s in seqs <==> s == seqs[0] || s in seqs[1..];
    }
  }

  // ---------- what the merge takes ----------

  ghost predicate Occurs(seqs: seq<seq<Class>>, x: Class) {
    exists s :: s in seqs && x in s
  }

  lemma OccursAfter(seqs: seq<seq<Class>>, c: Class, x: Class)
    requires GoodHead(seqs, c) && Occurs(DropHeads(seqs, c), x)
    ensures Occurs(seqs, x) && x != c
  {
    DropHeadsAt(seqs, c);
    var after := DropHeads(seqs, c);
    var i :| 0 <= i < |after| && x in after[i];
    var s := seqs[i];
    assert s in seqs;
    if s != [] {
      assert s == [s[0]] + s[1..];
    }
  }

  lemma OccursBefore(seqs: seq<seq<Class>>, c: Class, x: Class)
    requires Occurs(seqs, x) && x != c
    ensures Occurs(DropHeads(seqs, c), x)
  {
    DropHeadsAt(seqs, c);
    var after := DropHeads(seqs, c);
    var i :| 0 <= i < |seqs| && x in seqs[i];
    assert seqs[i] == [seqs[i][0]] + seqs[i][1..];
    assert after[i] in after && x in after[i];
  }

  lemma DropHeadsOccurs(seqs: seq<seq<Class>>, c: Class)
    requires GoodHead(seqs, c)
    ensures forall x :: Occurs(DropHeads(seqs, c), x) <==> Occurs(seqs, x) && x != c
  {
    forall x
      ensures Occurs(DropHeads(seqs, c), x) <==> Occurs(seqs, x) && x != c
    {
      if Occurs(DropHeads(seqs, c), x) {
        OccursAfter(seqs, c, x);
      } else if Occurs(seqs, x) && x != c {
        OccursBefore(seqs, c, x);
      }
    }
  }

  /** The unfolding of one round of the merge, for the proofs below. */
  lemma MergeRound(seqs: seq<seq<Class>>) returns (c: Class)
    requires NonEmpty(seqs) != [] && Candidate(NonEmpty(seqs), 0).Some?
    ensures c == Candidate(NonEmpty(seqs), 0).value
    ensures GoodHead(NonEmpty(seqs), c) && exists s :: s in NonEmpty(seqs) && s != [] && s[0] == c
    ensures Total(DropHeads(NonEmpty(seqs), c)) < Total(seqs)
    ensures var rest := Merge(DropHeads(NonEmpty(seqs), c));
            Merge(seqs) == Merged([c] + rest.order, rest.complete)
    ensures forall x :: Occurs(seqs, x) <==> x == c || Occurs(DropHeads(NonEmpty(seqs), c), x)
  {
    var live := NonEmpty(seqs);
    c := Candidate(live, 0).value;
    CandidateIsHead(live, 0, c);
    NonEmptyTotal(seqs);
    DropHeadsShrinks(live, c);
    DropHeadsOccurs(live, c);
    NonEmptyMembers(seqs);
    forall x
      ensures Occurs(seqs, x) <==> Occurs(live, x)
    {
    }
    var s :| s in live && s != [] && s[0] == c;
    assert c in s;
  }

  /** Whatever the sequences, the merge never takes an element twice, takes only elements of the
      sequences, and when it is complete it has taken all of them. */
  lemma {:induction false} MergeTakes(seqs: seq<seq<Class>>)
    ensures NoDuplicates(Merge(seqs).order)
    ensures forall x :: x in Merge(seqs).order ==> Occurs(seqs, x)
    ensures Merge(seqs).complete ==> forall x :: Occurs(seqs, x) ==> x in Merge(seqs).order
    decreases Total(seqs)
  {
    NonEmptyMembers(seqs);
    if NonEmpty(seqs) == [] {
      forall s | s in seqs
        ensures s == []
      {
      }
    } else if Candidate(NonEmpty(seqs), 0).Some? {
      var c := MergeRound(seqs);
      var after := DropHeads(NonEmpty(seqs), c);
      MergeTakes(after);
      DropHeadsOccurs(NonEmpty(seqs), c);
      assert c !in Merge(after).order;
    }
  }

  /** Putting the candidate before an order of what is left gives back an order of every sequence. */
  lemma CandidateFirst(live: seq<seq<Class>>, c: Class, order: seq<Class>, s: seq<Class>)
    requires s in live && s != [] && forall t :: t in DropHeads(live, c) ==> IsSubsequence(t, order)
    ensures IsSubsequence(s, [c] + order)
  {
    DropHeadsAt(live, c);
    var i :| 0 <= i < |live| && live[i] == s;
    assert DropHeads(live, c)[i] in DropHeads(live, c);
    assert ([c] + order)[1..] == order;
  }

  /** A complete merge is an order that extends every sequence. */
  lemma {:induction false} MergeExtends(seqs: seq<seq<Class>>)
    requires Merge(seqs).complete
    ensures Extends(Merge(seqs).order, seqs)
    decreases Total(seqs)
  {
    MergeTakes(seqs);
    NonEmptyMembers(seqs);
    var live := NonEmpty(seqs);
    if live != [] {
      var c := MergeRound(seqs);
      var after := DropHeads(live, c);
      hide Merge, DropHeads, NonEmpty, Total, Candidate;
      MergeExtends(after);
      forall s | s in seqs
        ensures IsSubsequence(s, Merge(seqs).order)
      {
        if s != [] {
          CandidateFirst(live, c, Merge(after).order, s);
        }
      }
    }
  }

  /** As long as an order extends the sequences, the merge finds a head to take. */
  lemma {:induction false} GoodHeadExists(seqs: seq<seq<Class>>, order: seq<Class>) returns (i: nat)
    requires Extends(order, seqs)
    requires seqs != [] && forall j :: 0 <= j < |seqs| ==> seqs[j] != []
    ensures i < |seqs| && GoodHead(seqs, seqs[i][0])
    decreases |order|
  {
    assert seqs[0] in seqs;
    assert order != [];
    assert order[0] !in order[1..];
    if exists j :: 0 <= j < |seqs| && seqs[j][0] == order[0] {
      i :| 0 <= i < |seqs| && seqs[i][0] == order[0];
      forall s | s in seqs
        ensures s != [] && order[0] !in s[1..]
      {
        var j :| 0 <= j < |seqs| && seqs[j] == s;
        if s[0] == order[0] {
          SubsequenceMembers(s[1..], order[1..]);
        } else {
          SubsequenceMembers(s, order[1..]);
        }
      }
    } else {
      forall s | s in seqs
        ensures IsSubsequence(s, order[1..])
      {
        var j :| 0 <= j < |seqs| && seqs[j] == s;
      }
      i := GoodHeadExists(seqs, order[1..]);
    }
  }

  lemma {:induction false} ConsistentMergeCompletes(seqs: seq<seq<Class>>, order: seq<Class>)
    requires Extends(order, seqs)
    ensures Merge(seqs).complete
    decreases Total(seqs)
  {
    var live := NonEmpty(seqs);
    NonEmptyMembers(seqs);
    if live != [] {
      assert forall j :: 0 <= j < |live| ==> live[j] in live;
      var i := GoodHeadExists(live, order);
      CandidateExists(live, 0, i);
      var c := MergeRound(seqs);
      var after := DropHeads(live, c);
      DropHeadsAt(live, c);
      forall s | s in after
        ensures IsSubsequence(s, order)
      {
        var j :| 0 <= j < |after| && after[j] == s;
        assert live[j] in live;
        if live[j][0] == c {
          SubsequenceTail(live[j], order);
        }
      }
      ConsistentMergeCompletes(after, order);
    }
  }

  /** The merge gets stuck exactly when there is no order to be found. */
  lemma MergeCompleteIffConsistent(seqs: seq<seq<Class>>)
    ensures Merge(seqs).complete <==> Consistent(seqs)
  {
    if Merge(seqs).complete {
      MergeExtends(seqs);
    }
    if Consistent(seqs) {
      var order :| Extends(order, seqs);
      ConsistentMergeCompletes(seqs, order);
    }
  }

  // ---------- which head the merge takes ----------

  /** What is left of a sequence once some elements have been taken. */
  ghost function Rest(s: seq<Class>, taken: seq<Class>): seq<Class> {
    if s == [] then [] else (if s[0] in taken then [] else [s[0]]) + Rest(s[1..], taken)
  }

  /** x still stands behind the head of some sequence. */
  ghost predicate Blocked(seqs: seq<seq<Class>>, taken: seq<Class>, x: Class) {
    exists s :: s in seqs && Rest(s, taken) != [] && x in Rest(s, taken)[1..]
  }

  /** The sequence offers no element: it is used up, or its head is blocked. */
  ghost predicate OffersNothing(seqs: seq<seq<Class>>, taken: seq<Class>, s: seq<Class>) {
    Rest(s, taken) == [] || Blocked(seqs, taken, Rest(s, taken)[0])
  }

  /** x is the head of the first sequence that offers one. */
  ghost predicate FirstOffered(seqs: seq<seq<Class>>, taken: seq<Class>, x: Class) {
    exists i :: IsOfferedAt(seqs, seqs, taken, x, i)
  }

  /** Of some of the sequences, the i-th is the first that offers an element, and that is x. */
  ghost predicate IsOfferedAt(some: seq<seq<Class>>, seqs: seq<seq<Class>>, taken: seq<Class>, x: Class, i: int) {
    && 0 <= i < |some| && Rest(some[i], taken) != [] && Rest(some[i], taken)[0] == x && !Blocked(seqs, taken, x)
    && forall j :: 0 <= j < i ==> OffersNothing(seqs, taken, some[j])
  }

  lemma {:induction false} RestOfNothing(s: seq<Class>)
    ensures Rest(s, []) == s
  {
    if s != [] {
      RestOfNothing(s[1..]);
    }
  }

  lemma {:induction false} RestWithout(s: seq<Class>, c: Class, taken: seq<Class>)
    requires c !in s
    ensures Rest(s, [c] + taken) == Rest(s, taken)
  {
    if s != [] {
      RestWithout(s[1..], c, taken);
      assert s[0] in s;
    }
  }

  /** Taking a good head from a sequence takes its head or nothing. */
  lemma RestAfter(s: seq<Class>, c: Class, taken: seq<Class>)
    requires s != [] && c !in s[1..]
    ensures Rest(s, [c] + taken) == Rest(if s[0] == c then s[1..] else s, taken)
  {
    RestWithout(s[1..], c, taken);
  }

  /** The same of all the sequences that are left. */
  lemma RestsAfter(live: seq<seq<Class>>, c: Class, taken: seq<Class>)
    requires GoodHead(live, c) && forall s :: s in live ==> s != []
    ensures |DropHeads(live, c)| == |live|
    ensures forall i :: 0 <= i < |live| ==> Rest(DropHeads(live, c)[i], taken) == Rest(live[i], [c] + taken)
  {
    DropHeadsAt(live, c);
    forall i | 0 <= i < |live|
      ensures Rest(DropHeads(live, c)[i], taken) == Rest(live[i], [c] + taken)
    {
      assert live[i] in live;
      RestAfter(live[i], c, taken);
    }
  }

  /** Sequences of the same rests offer the same. */
  lemma SameRestsBlock(a: seq<seq<Class>>, taken: seq<Class>, b: seq<seq<Class>>, more: seq<Class>, x: Class)
    requires |a| == |b| && forall i :: 0 <= i < |a| ==> Rest(a[i], taken) == Rest(b[i], more)
    ensures Blocked(a, taken, x) <==> Blocked(b, more, x)
  {
    if Blocked(a, taken, x) {
      var s :| s in a && Rest(s, taken) != [] && x in Rest(s, taken)[1..];
      var i :| 0 <= i < |a| && a[i] == s;
      assert b[i] in b;
    }
    if Blocked(b, more, x) {
      var s :| s in b && Rest(s, more) != [] && x in Rest(s, more)[1..];
      var i :| 0 <= i < |b| && b[i] == s;
      assert a[i] in a;
    }
  }

  lemma SameRests(a: seq<seq<Class>>, taken: seq<Class>, b: seq<seq<Class>>, more: seq<Class>)
    requires |a| == |b| && forall i :: 0 <= i < |a| ==> Rest(a[i], taken) == Rest(b[i], more)
    ensures forall x :: FirstOffered(a, taken, x) ==> FirstOffered(b, more, x)
    ensures (forall s :: s in a ==> OffersNothing(a, taken, s)) ==> forall s :: s in b ==> OffersNothing(b, more, s)
    ensures (forall s :: s in a ==> Rest(s, taken) == []) <==> forall s :: s in b ==> Rest(s, more) == []
  {
    hide Blocked, Rest;
    forall x
      ensures Blocked(a, taken, x) <==> Blocked(b, more, x)
    {
      SameRestsBlock(a, taken, b, more, x);
    }
    forall x | FirstOffered(a, taken, x)
      ensures FirstOffered(b, more, x)
    {
      var i :| IsOfferedAt(a, a, taken, x, i);
      assert IsOfferedAt(b, b, more, x, i);
    }
    assert forall i :: 0 <= i < |b| ==> a[i] in a && b[i] in b;
  }

  lemma {:induction false} LiveOffersFrom(some: seq<seq<Class>>, seqs: seq<seq<Class>>, taken: seq<Class>, x: Class, i: nat) returns (k: nat)
    requires IsOfferedAt(NonEmpty(some), seqs, taken, x, i)
    ensures IsOfferedAt(some, seqs, taken, x, k)
    decreases |some|
  {
    var tail := NonEmpty(some[1..]);
    if some[0] == [] {
      assert NonEmpty(some) == tail;
      k := LiveOffersFrom(some[1..], seqs, taken, x, i);
      k := k + 1;
    } else {
      assert NonEmpty(some) == [some[0]] + tail;
      if i == 0 {
        k := 0;
      } else {
        assert forall j :: 0 <= j < i - 1 ==> tail[j] == NonEmpty(some)[j + 1];
        assert IsOfferedAt(tail, seqs, taken, x, i - 1);
        assert OffersNothing(seqs, taken, NonEmpty(some)[0]);
        k := LiveOffersFrom(some[1..], seqs, taken, x, i - 1);
        k := k + 1;
      }
    }
  }

  /** Sequences that are used up make no difference. */
  lemma LiveOffers(seqs: seq<seq<Class>>, taken: seq<Class>)
    ensures forall x :: FirstOffered(NonEmpty(seqs), taken, x) ==> FirstOffered(seqs, taken, x)
    ensures forall x :: Blocked(NonEmpty(seqs), taken, x) <==> Blocked(seqs, taken, x)
  {
    NonEmptyMembers(seqs);
    forall x
      ensures Blocked(NonEmpty(seqs), taken, x) <==> Blocked(seqs, taken, x)
    {
    }
    forall x | FirstOffered(NonEmpty(seqs), taken, x)
      ensures FirstOffered(seqs, taken, x)
    {
      var i :| IsOfferedAt(NonEmpty(seqs), NonEmpty(seqs), taken, x, i);
      hide Blocked;
      assert IsOfferedAt(NonEmpty(seqs), seqs, taken, x, i);
      var k := LiveOffersFrom(seqs, seqs, taken, x, i);
    }
  }

  /** Before anything is taken, a head is blocked if it is no good head. */
  lemma BlockedAtFirst(seqs: seq<seq<Class>>, x: Class)
    ensures Blocked(seqs, [], x) <==> !GoodHead(seqs, x)
  {
    forall s
      ensures Rest(s, []) == s
    {
      RestOfNothing(s);
    }
  }

  lemma {:induction false} CandidateIsFirst(seqs: seq<seq<Class>>, k: nat) returns (i: nat)
    requires k <= |seqs| && Candidate(seqs, k).Some?
    ensures k <= i < |seqs| && seqs[i] != [] && seqs[i][0] == Candidate(seqs, k).value && GoodHead(seqs, seqs[i][0])
    ensures forall j :: k <= j < i ==> seqs[j] == [] || !GoodHead(seqs, seqs[j][0])
    decreases |seqs| - k
  {
    hide GoodHead;
    if seqs[k] != [] && GoodHead(seqs, seqs[k][0]) {
      i := k;
    } else {
      i := CandidateIsFirst(seqs, k + 1);
    }
  }

  lemma {:induction false} NoCandidate(seqs: seq<seq<Class>>, k: nat)
    requires k <= |seqs| && Candidate(seqs, k) == None
    ensures forall j :: k <= j < |seqs| ==> seqs[j] == [] || !GoodHead(seqs, seqs[j][0])
    decreases |seqs| - k
  {
    hide GoodHead;
    if k < |seqs| {
      NoCandidate(seqs, k + 1);
    }
  }

  lemma CandidateIsOffered(seqs: seq<seq<Class>>)
    ensures Candidate(seqs, 0).Some? ==> FirstOffered(seqs, [], Candidate(seqs, 0).value)
    ensures Candidate(seqs, 0) == None ==> forall s :: s in seqs ==> OffersNothing(seqs, [], s)
  {
    forall s
      ensures Rest(s, []) == s
    {
      RestOfNothing(s);
    }
    forall x
      ensures Blocked(seqs, [], x) <==> !GoodHead(seqs, x)
    {
      BlockedAtFirst(seqs, x);
    }
    hide Blocked, GoodHead, Rest, Candidate;
    if Candidate(seqs, 0).Some? {
      var i := CandidateIsFirst(seqs, 0);
      assert IsOfferedAt(seqs, seqs, [], Candidate(seqs, 0).value, i);
    } else {
      NoCandidate(seqs, 0);
    }
  }

  /** Every element taken is the head of the first sequence that offers one when it is taken, and the
      merge ends when none does. */
  ghost predicate TakesFirstOffered(seqs: seq<seq<Class>>, m: Merged) {
    && (forall k :: 0 <= k < |m.order| ==> FirstOffered(seqs, m.order[..k], m.order[k]))
    && (forall s :: s in seqs ==> OffersNothing(seqs, m.order, s))
    && (m.complete <==> forall s :: s in seqs ==> Rest(s, m.order) == [])
  }

  lemma TakesOneMore(seqs: seq<seq<Class>>, c: Class, rest: Merged)
    requires NonEmpty(seqs) != [] && Candidate(NonEmpty(seqs), 0) == Some(c)
    requires GoodHead(NonEmpty(seqs), c) && TakesFirstOffered(DropHeads(NonEmpty(seqs), c), rest)
    ensures TakesFirstOffered(seqs, Merged([c] + rest.order, rest.complete))
  {
    hide Blocked, GoodHead, Rest, Candidate, FirstOffered, OffersNothing;
    var live, order := NonEmpty(seqs), [c] + rest.order;
    NonEmptyMembers(seqs);
    forall k | 0 <= k < |order|
      ensures FirstOffered(seqs, order[..k], order[k])
    {
      LiveOffers(seqs, order[..k]);
      if k == 0 {
        CandidateIsOffered(live);
      } else {
        assert order[..k] == [c] + rest.order[..k - 1];
        RestsAfter(live, c, rest.order[..k - 1]);
        SameRests(DropHeads(live, c), rest.order[..k - 1], live, order[..k]);
      }
    }
    RestsAfter(live, c, rest.order);
    SameRests(DropHeads(live, c), rest.order, live, order);
    EmptyOffersNothing(seqs, order);
  }

  lemma EmptyOffersNothing(seqs: seq<seq<Class>>, taken: seq<Class>)
    ensures (forall s :: s in NonEmpty(seqs) ==> OffersNothing(NonEmpty(seqs), taken, s)) ==>
              forall s :: s in seqs ==> OffersNothing(seqs, taken, s)
    ensures (forall s :: s in NonEmpty(seqs) ==> Rest(s, taken) == []) <==> forall s :: s in seqs ==> Rest(s, taken) == []
  {
    NonEmptyMembers(seqs);
    LiveOffers(seqs, taken);
    assert Rest([], taken) == [];
    hide Blocked, Rest;
  }

  /** The merge takes the first element offered, in the order of the sequences, as long as there is one. */
  lemma {:induction false} MergeTakesFirstOffered(seqs: seq<seq<Class>>)
    ensures TakesFirstOffered(seqs, Merge(seqs))
    decreases Total(seqs)
  {
    hide Blocked, GoodHead, Rest, FirstOffered, TakesFirstOffered;
    var live := NonEmpty(seqs);
    if live != [] && Candidate(live, 0).Some? {
      var c := MergeRound(seqs);
      MergeTakesFirstOffered(DropHeads(live, c));
      TakesOneMore(seqs, c, Merge(DropHeads(live, c)));
    } else {
      TakesNothing(seqs);
    }
  }

  lemma TakesNothing(seqs: seq<seq<Class>>)
    requires NonEmpty(seqs) == [] || Candidate(NonEmpty(seqs), 0) == None
    ensures TakesFirstOffered(seqs, Merged([], NonEmpty(seqs) == []))
  {
    hide Blocked, GoodHead, FirstOffered, Candidate;
    var live := NonEmpty(seqs);
    NonEmptyMembers(seqs);
    CandidateIsOffered(live);
    EmptyOffersNothing(seqs, []);
    forall s
      ensures Rest(s, []) == s
    {
      RestOfNothing(s);
    }
    if live != [] {
      assert live[0] in live;
    }
  }

  lemma OneIsOffered(seqs: seq<seq<Class>>, taken: seq<Class>, x: Class, y: Class)
    requires FirstOffered(seqs, taken, x)
    ensures FirstOffered(seqs, taken, y) ==> x == y
    ensures exists s :: s in seqs && !OffersNothing(seqs, taken, s)
  {
    hide Blocked, Rest;
    var i :| IsOfferedAt(seqs, seqs, taken, x, i);
    assert seqs[i] in seqs;
    if FirstOffered(seqs, taken, y) {
      var j :| IsOfferedAt(seqs, seqs, taken, y, j);
    }
  }

  /** Nothing else takes the first element offered: this determines the merge. */
  lemma {:induction false} MergeIsDetermined(seqs: seq<seq<Class>>, m: Merged)
    requires TakesFirstOffered(seqs, m)
    ensures m == Merge(seqs)
  {
    hide Blocked, Rest, FirstOffered, OffersNothing, Merge;
    MergeTakesFirstOffered(seqs);
    var a, b := m.order, Merge(seqs).order;
    var k := 0;
    while k < |a| && k < |b|
      invariant k <= |a| && k <= |b| && a[..k] == b[..k]
    {
      OneIsOffered(seqs, a[..k], a[k], b[k]);
      assert a[..k + 1] == a[..k] + [a[k]] && b[..k + 1] == b[..k] + [b[k]];
      k := k + 1;
    }
    assert a[..|a|] == a && b[..|b|] == b;
    if k < |a| {
      OneIsOffered(seqs, a[..k], a[k], a[k]);
      assert false;
    } else if k < |b| {
      OneIsOffered(seqs, b[..k], b[k], b[k]);
      assert false;
    }
  }

  // ---------- the linearisation ----------

  /** The classes whose linearisation is in progress are active; meeting one of them again ends
      the recursion, so it ends on any inheritance graph. */
  function Linearize(edges: seq<Inherits>, c: Class, active: set<Class>): (mro: seq<Class>)
    ensures mro != [] && mro[0] == c
    decreases Sources(edges) - active, 0, 0
  {
    var parents := Parents(edges, c);
    ParentsAreArcs(edges, c);
    if c in active || parents == [] then [c]
    else [c] + Merge(LinearizeAll(edges, parents, active + {c}) + [parents]).order
  }

  function LinearizeAll(edges: seq<Inherits>, cs: seq<Class>, active: set<Class>): (mros: seq<seq<Class>>)
    ensures |mros| == |cs|
    ensures forall i :: 0 <= i < |cs| ==> mros[i] == Linearize(edges, cs[i], active)
    decreases Sources(edges) - active, 1, |cs|
  {
    if cs == [] then [] else [Linearize(edges, cs[0], active)] + LinearizeAll(edges, cs[1..], active)
  }

  /** Every merge on the way to the linearisation of c is complete. */
  ghost predicate AllComplete(edges: seq<Inherits>, c: Class, active: set<Class>)
    decreases Sources(edges) - active
  {
    var parents := Parents(edges, c);
    ParentsAreArcs(edges, c);
    c in active || parents == [] ||
    ( && Merge(LinearizeAll(edges, parents, active + {c}) + [parents]).complete
      && forall p :: p in parents ==> AllComplete(edges, p, active + {c}))
  }

  ghost predicate Acyclic(edges: seq<Inherits>) {
    forall arc :: arc in Arcs(edges) ==> !Reaches(Arcs(edges), arc.1, arc.0)
  }

  /** Every active class is a proper descendant of c. */
  ghost predicate Above(edges: seq<Inherits>, active: set<Class>, c: Class) {
    forall a :: a in active ==> a != c && Reaches(Arcs(edges), a, c)
  }

  lemma AboveParent(edges: seq<Inherits>, active: set<Class>, c: Class, p: Class)
    requires Acyclic(edges) && Above(edges, active, c) && p in Parents(edges, c)
    ensures Above(edges, active + {c}, p) && p != c
  {
    ParentsAreArcs(edges, c);
    var arcs := Arcs(edges);
    assert (c, p) in arcs;
    ReachesSelf(arcs, c);
    forall a | a in active + {c}
      ensures a != p && Reaches(arcs, a, p)
    {
      ReachesStep(arcs, a, c, p);
    }
  }

  lemma SameParts(edges: seq<Inherits>, cs: seq<Class>, active: set<Class>, other: set<Class>)
    requires forall c :: c in cs ==> Linearize(edges, c, active) == Linearize(edges, c, other)
    ensures LinearizeAll(edges, cs, active) == LinearizeAll(edges, cs, other)
  {
    forall i | 0 <= i < |cs|
      ensures LinearizeAll(edges, cs, active)[i] == LinearizeAll(edges, cs, other)[i]
    {
      assert cs[i] in cs;
    }
  }

  /** On an acyclic graph the active set makes no difference. */
  lemma {:induction false} ActiveIrrelevant(edges: seq<Inherits>, c: Class, active: set<Class>, other: set<Class>)
    requires Acyclic(edges) && Above(edges, active, c) && Above(edges, other, c)
    ensures Linearize(edges, c, active) == Linearize(edges, c, other)
    ensures AllComplete(edges, c, active) == AllComplete(edges, c, other)
    decreases Sources(edges) - active
  {
    var parents := Parents(edges, c);
    ParentsAreArcs(edges, c);
    if parents != [] {
      forall p | p in parents
        ensures Linearize(edges, p, active + {c}) == Linearize(edges, p, other + {c})
        ensures AllComplete(edges, p, active + {c}) == AllComplete(edges, p, other + {c})
      {
        AboveParent(edges, active, c, p);
        AboveParent(edges, other, c, p);
        ActiveIrrelevant(edges, p, active + {c}, other + {c});
      }
      SameParts(edges, parents, active + {c}, other + {c});
    }
  }

  lemma MergeOfNothing()
    ensures Merge([[]]) == Merged([], true)
  {
    assert NonEmpty([[]][1..]) == [];
  }

  /** What the recursion adds up to on an acyclic graph: the class, then the merge of the
      linearisations of its bases with the list of its bases. */
  lemma MroEquation(edges: seq<Inherits>, c: Class)
    requires Acyclic(edges)
    ensures var parents := Parents(edges, c);
            var seqs := LinearizeAll(edges, parents, {}) + [parents];
            && Linearize(edges, c, {}) == [c] + Merge(seqs).order
            && (AllComplete(edges, c, {}) ==>
                  Merge(seqs).complete && forall p :: p in parents ==> AllComplete(edges, p, {}))
  {
    var parents := Parents(edges, c);
    forall p | p in parents
      ensures Linearize(edges, p, {} + {c}) == Linearize(edges, p, {})
      ensures AllComplete(edges, p, {} + {c}) == AllComplete(edges, p, {})
    {
      AboveParent(edges, {}, c, p);
      ActiveIrrelevant(edges, p, {} + {c}, {});
    }
    SameParts(edges, parents, {} + {c}, {});
    if parents == [] {
      assert LinearizeAll(edges, parents, {}) + [parents] == [[]];
      MergeOfNothing();
    }
  }

  /** The depth of the graph under c, for inductions over acyclic graphs. */
  ghost function Below(edges: seq<Inherits>, c: Class): set<Class> {
    set e | e in edges && Reaches(Arcs(edges), c, e.source) :: e.source
  }

  lemma BelowParent(edges: seq<Inherits>, c: Class, p: Class)
    requires Acyclic(edges) && p in Parents(edges, c)
    ensures Below(edges, p) < Below(edges, c)
    ensures (c, p) in Arcs(edges) && !Reaches(Arcs(edges), p, c)
  {
    ParentsAreArcs(edges, c);
    var arcs := Arcs(edges);
    ReachesSelf(arcs, c);
    ReachesStep(arcs, c, c, p);
    forall x | x in Below(edges, p)
      ensures x in Below(edges, c)
    {
      ReachesTransitive(arcs, c, p, x);
    }
    var e :| e in edges && (e.source, e.target) == (c, p);
    assert c in Below(edges, c) && c !in Below(edges, p);
  }

  lemma OccursInParts(edges: seq<Inherits>, c: Class, x: Class)
    requires Occurs(LinearizeAll(edges, Parents(edges, c), {}) + [Parents(edges, c)], x)
    ensures exists p :: p in Parents(edges, c) && x in Linearize(edges, p, {})
  {
    var parents := Parents(edges, c);
    var mros := LinearizeAll(edges, parents, {});
    var s :| s in mros + [parents] && x in s;
    if s in mros {
      var i :| 0 <= i < |mros| && mros[i] == s;
      assert parents[i] in parents;
    } else {
      assert x in parents && x == Linearize(edges, x, {})[0];
    }
  }

  /** On an acyclic graph the linearisation never lists a class twice and only lists ancestors,
      even when a merge got stuck. */
  lemma {:induction false} MroListsAncestorsOnce(edges: seq<Inherits>, c: Class)
    requires Acyclic(edges)
    ensures NoDuplicates(Linearize(edges, c, {}))
    ensures forall x :: x in Linearize(edges, c, {}) ==> Reaches(Arcs(edges), c, x)
    decreases Below(edges, c)
  {
    var parents := Parents(edges, c);
    var seqs := LinearizeAll(edges, parents, {}) + [parents];
    MroEquation(edges, c);
    MergeTakes(seqs);
    ReachesSelf(Arcs(edges), c);
    forall x | Occurs(seqs, x)
      ensures x != c && Reaches(Arcs(edges), c, x)
    {
      OccursInParts(edges, c, x);
      var p :| p in parents && x in Linearize(edges, p, {});
      BelowParent(edges, c, p);
      MroListsAncestorsOnce(edges, p);
      ReachesStep(Arcs(edges), c, c, p);
      ReachesTransitive(Arcs(edges), c, p, x);
    }
  }

  /** When all merges are complete, the linearisation contains every ancestor. */
  lemma {:induction false} MroListsEveryAncestor(edges: seq<Inherits>, c: Class, x: Class)
    requires Acyclic(edges) && AllComplete(edges, c, {}) && Reaches(Arcs(edges), c, x)
    ensures x in Linearize(edges, c, {})
    decreases Below(edges, c)
  {
    MroEquation(edges, c);
    if x != c {
      var parents := Parents(edges, c);
      var mros := LinearizeAll(edges, parents, {});
      var p := ReachesFirstArc(Arcs(edges), c, x);
      ParentsAreArcs(edges, c);
      BelowParent(edges, c, p);
      MroListsEveryAncestor(edges, p, x);
      var i :| 0 <= i < |parents| && parents[i] == p;
      assert mros[i] in mros + [parents];
      assert Occurs(mros + [parents], x);
      MergeTakes(mros + [parents]);
    }
  }

  /** It keeps the order of the bases and the whole linearisation of every base. */
  lemma MroKeepsOrders(edges: seq<Inherits>, c: Class)
    requires Acyclic(edges) && AllComplete(edges, c, {})
    ensures IsSubsequence(Parents(edges, c), Linearize(edges, c, {}))
    ensures forall p :: p in Parents(edges, c) ==> IsSubsequence(Linearize(edges, p, {}), Linearize(edges, c, {}))
  {
    var parents := Parents(edges, c);
    var mros := LinearizeAll(edges, parents, {});
    var seqs := mros + [parents];
    MroEquation(edges, c);
    MergeExtends(seqs);
    var mro := Linearize(edges, c, {});
    assert mro[1..] == Merge(seqs).order;
    forall s | s in seqs
      ensures IsSubsequence(s, mro)
    {
      SubsequenceWeaken(s, mro);
    }
    assert seqs[|mros|] == parents;
    forall p | p in parents
      ensures IsSubsequence(Linearize(edges, p, {}), mro)
    {
      var i :| 0 <= i < |parents| && parents[i] == p;
      assert mros[i] in seqs;
    }
  }

  lemma {:induction false} ParentAt(edges: seq<Inherits>, c: Class, i: nat) returns (a: nat)
    requires i < |edges| && edges[i].source == c
    ensures a < |Parents(edges, c)| && Parents(edges, c)[a] == edges[i].target
    ensures |Parents(edges[..i], c)| == a
    decreases |edges|
  {
    if i == 0 {
      a := 0;
    } else {
      var rest := edges[1..];
      var k := ParentAt(rest, c, i - 1);
      assert rest[..i - 1] == edges[..i][1..];
      a := if edges[0].source == c then k + 1 else k;
    }
  }

  lemma {:induction false} MoreParents(edges: seq<Inherits>, c: Class, i: nat, j: nat)
    requires i < j <= |edges| && edges[i].source == c
    ensures |Parents(edges[..i], c)| < |Parents(edges[..j], c)|
  {
    if i == 0 {
      assert edges[..j][0] == edges[0];
    } else {
      MoreParents(edges[1..], c, i - 1, j - 1);
      assert edges[1..][..i - 1] == edges[..i][1..] && edges[1..][..j - 1] == edges[..j][1..];
    }
  }

  lemma {:induction false} SubsequenceAt(s: seq<Class>, t: seq<Class>, a: nat, b: nat) returns (x: nat, y: nat)
    requires IsSubsequence(s, t) && a < b < |s|
    ensures x < y < |t| && t[x] == s[a] && t[y] == s[b]
    decreases |t|
  {
    if s[0] != t[0] {
      x, y := SubsequenceAt(s, t[1..], a, b);
      x, y := x + 1, y + 1;
    } else if a > 0 {
      x, y := SubsequenceAt(s[1..], t[1..], a - 1, b - 1);
      x, y := x + 1, y + 1;
    } else {
      SubsequenceMembers(s[1..], t[1..]);
      assert s[1..][b - 1] == s[b] && s[b] in s[1..];
      assert s[b] in t[1..];
      var k :| 0 <= k < |t[1..]| && t[1..][k] == s[b];
      x, y := 0, k + 1;
    }
  }

  /** In particular bases come in the order in which their edges were added. */
  lemma BasesInOrder(edges: seq<Inherits>, c: Class, i: nat, j: nat) returns (x: nat, y: nat)
    requires Acyclic(edges) && AllComplete(edges, c, {})
    requires i < j < |edges| && edges[i].source == c && edges[j].source == c
    ensures x < y < |Linearize(edges, c, {})|
    ensures Linearize(edges, c, {})[x] == edges[i].target && Linearize(edges, c, {})[y] == edges[j].target
  {
    var a := ParentAt(edges, c, i);
    var b := ParentAt(edges, c, j);
    MoreParents(edges, c, i, j);
    MroKeepsOrders(edges, c);
    x, y := SubsequenceAt(Parents(edges, c), Linearize(edges, c, {}), a, b);
  }

  /** The linearisations of the bases in the order of their edges, and then the list of the bases. */
  ghost predicate PartsOf(edges: seq<Inherits>, c: Class, active: set<Class>, seqs: seq<seq<Class>>) {
    var n := |Parents(edges, c)|;
    && |seqs| == n + 1 && seqs[n] == Parents(edges, c)
    && forall i :: 0 <= i < |edges| && edges[i].source == c ==>
         var a := |Parents(edges[..i], c)|; a < n && seqs[a] == Linearize(edges, edges[i].target, active + {c})
  }

  /** On any graph, cyclic ones included: behind the class, each element of its linearisation is the first one that the
      linearisations of its bases, in the order of their edges, and then the list of the bases offer, whether or not the
      merges are complete. A class whose linearisation is in progress stands for itself. */
  lemma MroTakesFirstOffered(edges: seq<Inherits>, c: Class, active: set<Class>) returns (seqs: seq<seq<Class>>)
    ensures c in active ==> Linearize(edges, c, active) == [c]
    ensures PartsOf(edges, c, active, seqs)
    ensures c !in active ==>
              var order := Linearize(edges, c, active)[1..];
              && (forall k :: 0 <= k < |order| ==> FirstOffered(seqs, order[..k], order[k]))
              && (forall s :: s in seqs ==> OffersNothing(seqs, order, s))
  {
    hide FirstOffered, OffersNothing;
    var parents := Parents(edges, c);
    var mros := LinearizeAll(edges, parents, active + {c});
    seqs := mros + [parents];
    MergeTakesFirstOffered(seqs);
    if parents == [] {
      assert seqs == [[]];
      MergeOfNothing();
    }
    assert c !in active ==> Linearize(edges, c, active)[1..] == Merge(seqs).order;
    forall i | 0 <= i < |edges| && edges[i].source == c
      ensures var a := |Parents(edges[..i], c)|; a < |parents| && seqs[a] == Linearize(edges, edges[i].target, active + {c})
    {
      var a := ParentAt(edges, c, i);
    }
  }

  /** Hence it is monotonic: it keeps the linearisation of every ancestor, however far up. */
  lemma {:induction false} MroMonotonic(edges: seq<Inherits>, c: Class, ancestor: Class)
    requires Acyclic(edges) && AllComplete(edges, c, {}) && Reaches(Arcs(edges), c, ancestor)
    ensures IsSubsequence(Linearize(edges, ancestor, {}), Linearize(edges, c, {}))
    decreases Below(edges, c)
  {
    if c == ancestor {
      SubsequenceReflexive(Linearize(edges, c, {}));
    } else {
      MroEquation(edges, c);
      var p := ReachesFirstArc(Arcs(edges), c, ancestor);
      ParentsAreArcs(edges, c);
      BelowParent(edges, c, p);
      MroMonotonic(edges, p, ancestor);
      MroKeepsOrders(edges, c);
      SubsequenceTransitive(Linearize(edges, ancestor, {}), Linearize(edges, p, {}), Linearize(edges, c, {}));
    }
  }

  // ---------- the algorithm ----------

  method MergeSequences(seqs: seq<seq<Class>>) returns (result: seq<Class>, complete: bool)
    ensures Merged(result, complete) == Merge(seqs)
    ensures complete <==> Consistent(seqs)
    ensures complete ==> Extends(result, seqs)
    ensures TakesFirstOffered(seqs, Merged(result, complete))
  {
    MergeTakesFirstOffered(seqs);
    hide TakesFirstOffered;
    var sequences := seqs;
    result, complete := [], true;
    while NonEmpty(sequences) != []
      invariant complete
      invariant Merge(seqs) == Merged(result + Merge(sequences).order, Merge(sequences).complete)
      decreases Total(sequences)
    {
      ghost var before := sequences;
      sequences := NonEmpty(sequences);
      var candidate := Candidate(sequences, 0);
      if candidate == None {
        complete := false;
        break;
      }
      ghost var c := MergeRound(before);
      result := result + [candidate.value];
      sequences := DropHeads(sequences, candidate.value);
    }
    MergeCompleteIffConsistent(seqs);
    if complete {
      MergeExtends(seqs);
    }
  }

  method LinearizeClass(edges: seq<Inherits>, c: Class, active: set<Class>) returns (mro: seq<Class>)
    ensures mro == Linearize(edges, c, active)
    decreases Sources(edges) - active
  {
    if c in active {
      return [c];
    }
    var parents := Parents(edges, c);
    ParentsAreArcs(edges, c);
    ghost var mros := LinearizeAll(edges, parents, active + {c});
    var sequences: seq<seq<Class>> := [];
    for i := 0 to |parents|
      invariant sequences == mros[..i]
    {
      var sequence := LinearizeClass(edges, parents[i], active + {c});
      sequences := sequences + [sequence];
    }
    assert sequences == mros;
    if parents == [] {
      assert sequences + [parents] == [[]];
      MergeOfNothing();
    }
    var merged, complete := MergeSequences(sequences + [parents]);
    assert merged == Merge(mros + [parents]).order;
    return [c] + merged;
  }
}
