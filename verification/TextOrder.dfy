/** The string order that both the analyzer and the host sort by, and tuples of strings under it. */
module TextOrder {

  predicate Less(a: string, b: string) {
    b != [] && (a == [] || a[0] < b[0] || (a[0] == b[0] && Less(a[1..], b[1..])))
  }

  /** A string comes before another if it is a proper prefix of it, or smaller where they first differ. */
  lemma {:induction false} LessMeans(a: string, b: string)
    ensures Less(a, b) <==>
            exists k :: 0 <= k <= |a| && k < |b| && a[..k] == b[..k] && (k == |a| || a[k] < b[k])
  {
    if a != [] && b != [] {
      var x, y := a[1..], b[1..];
      LessMeans(x, y);
      forall k | 0 < k <= |a| && k < |b| && a[..k] == b[..k]
        ensures a[0] == b[0]
      {
        assert a[..k][0] == a[0] && b[..k][0] == b[0];
      }
      if a[0] == b[0] {
        if k :| 0 <= k <= |x| && k < |y| && x[..k] == y[..k] && (k == |x| || x[k] < y[k]) {
          assert a[..k + 1] == [a[0]] + x[..k] && b[..k + 1] == [b[0]] + y[..k];
        }
        if k :| 0 <= k <= |a| && k < |b| && a[..k] == b[..k] && (k == |a| || a[k] < b[k]) {
          assert k > 0;
          assert x[..k - 1] == a[..k][1..] && y[..k - 1] == b[..k][1..];
          assert 0 <= k - 1 <= |x| && k - 1 < |y| && x[..k - 1] == y[..k - 1];
        }
      } else {
        assert a[..0] == b[..0];
      }
    } else if a == [] && b != [] {
      assert a[..0] == b[..0];
    }
  }

  lemma {:induction false} LessTransitive(a: string, b: string, c: string)
    requires Less(a, b) && Less(b, c)
    ensures Less(a, c)
  {
    if a != [] && a[0] == b[0] == c[0] {
      LessTransitive(a[1..], b[1..], c[1..]);
    }
  }

  lemma {:induction false} LessTotal(a: string, b: string)
    ensures Less(a, b) || Less(b, a) || a == b
    ensures !(Less(a, b) && Less(b, a)) && !Less(a, a)
  {
    if a != [] && b != [] && a[0] == b[0] {
      LessTotal(a[1..], b[1..]);
      assert a == [a[0]] + a[1..] && b == [b[0]] + b[1..];
    }
    if a != [] {
      LessTotal(a[1..], a[1..]);
    }
  }

  // ---------- tuples ----------

  /** Lexicographic order of tuples. */
  predicate KeyLess(a: seq<string>, b: seq<string>) {
    b != [] && (a == [] || Less(a[0], b[0]) || (a[0] == b[0] && KeyLess(a[1..], b[1..])))
  }

  lemma {:induction false} KeyLessTransitive(a: seq<string>, b: seq<string>, c: seq<string>)
    requires KeyLess(a, b) && KeyLess(b, c)
    ensures KeyLess(a, c)
  {
    if a != [] {
      LessTotal(a[0], a[0]);
      if a[0] == b[0] && b[0] == c[0] {
        KeyLessTransitive(a[1..], b[1..], c[1..]);
      } else if Less(a[0], b[0]) && Less(b[0], c[0]) {
        LessTransitive(a[0], b[0], c[0]);
      }
    }
  }

  lemma {:induction false} KeyLessTotal(a: seq<string>, b: seq<string>)
    ensures KeyLess(a, b) || KeyLess(b, a) || a == b
    ensures !(KeyLess(a, b) && KeyLess(b, a))
  {
    if a != [] && b != [] {
      LessTotal(a[0], b[0]);
      KeyLessTotal(a[1..], b[1..]);
      assert a == [a[0]] + a[1..] && b == [b[0]] + b[1..];
    }
  }

  /** No element comes before one with a smaller key. */
  ghost predicate Sorted<T(!new)>(s: seq<T>, key: T -> seq<string>)
  {
    forall i, j :: 0 <= i < j < |s| ==> !KeyLess(key(s[j]), key(s[i]))
  }

  /** It is enough to compare neighbours. */
  lemma {:induction false} NeighboursSorted<T(!new)>(s: seq<T>, key: T -> seq<string>)
    requires forall i :: 0 <= i < |s| - 1 ==> !KeyLess(key(s[i + 1]), key(s[i]))
    ensures Sorted(s, key)
  {
    if |s| > 1 {
      var front, last := s[..|s| - 1], s[|s| - 1];
      NeighboursSorted(front, key);
      forall i | 0 <= i < |s| - 1
        ensures !KeyLess(key(last), key(s[i]))
      {
        var mid := s[|s| - 2];
        if i < |s| - 2 {
          assert front[i] == s[i] && front[|s| - 2] == mid;
          NotLessTransitive(key(s[i]), key(mid), key(last));
        }
      }
    }
  }

  lemma NotLessTransitive(a: seq<string>, b: seq<string>, c: seq<string>)
    requires !KeyLess(b, a) && !KeyLess(c, b)
    ensures !KeyLess(c, a)
  {
    KeyLessTotal(a, b);
    KeyLessTotal(b, c);
    KeyLessTotal(a, c);
    if KeyLess(c, a) && KeyLess(a, b) {
      KeyLessTransitive(c, a, b);
    }
  }

  /** Stable insertion into a sorted list. */
  function Insert<T(!new)>(x: T, s: seq<T>, key: T -> seq<string>): (r: seq<T>)
    ensures multiset(r) == multiset([x]) + multiset(s)
    ensures forall y :: y in r <==> y == x || y in s
  {
    if s == [] then [x]
    else if KeyLess(key(s[0]), key(x)) then
      assert s == [s[0]] + s[1..];
      [s[0]] + Insert(x, s[1..], key)
    else [x] + s
  }

  /** The list sorted by key; elements with equal keys keep their order. */
  function SortBy<T(!new)>(s: seq<T>, key: T -> seq<string>): (r: seq<T>)
    ensures multiset(r) == multiset(s)
    ensures forall y :: y in r <==> y in s
  {
    if s == [] then []
    else
      assert s == [s[0]] + s[1..];
      Insert(s[0], SortBy(s[1..], key), key)
  }

  lemma {:induction false} InsertSorted<T(!new)>(x: T, s: seq<T>, key: T -> seq<string>)
    requires Sorted(s, key)
    ensures Sorted(Insert(x, s, key), key)
  {
    if s != [] && KeyLess(key(s[0]), key(x)) {
      InsertSorted(x, s[1..], key);
      var rest := Insert(x, s[1..], key);
      KeyLessTotal(key(s[0]), key(x));
      forall j | 0 <= j < |rest|
        ensures !KeyLess(key(rest[j]), key(s[0]))
      {
        assert rest[j] in rest;
        if rest[j] != x {
          var k :| 0 <= k < |s[1..]| && s[1..][k] == rest[j];
          assert s[k + 1] == rest[j];
        }
      }
    } else if s != [] {
      forall j | 0 <= j < |s|
        ensures !KeyLess(key(s[j]), key(x))
      {
        if j > 0 {
          NotLessTransitive(key(x), key(s[0]), key(s[j]));
        }
      }
    }
  }

  lemma {:induction false} SortBySorted<T(!new)>(s: seq<T>, key: T -> seq<string>)
    ensures Sorted(SortBy(s, key), key)
  {
    if s != [] {
      SortBySorted(s[1..], key);
      InsertSorted(s[0], SortBy(s[1..], key), key);
    }
  }

  // ---------- sets of strings ----------

  /** Strictly ascending, hence without duplicates. */
  ghost predicate Ascending(s: seq<string>) {
    forall i, j :: 0 <= i < j < |s| ==> Less(s[i], s[j])
  }

  ghost predicate Lists<T(!new)>(s: seq<T>, members: set<T>) {
    forall x :: x in s <==> x in members
  }

  method Least(ids: set<string>) returns (least: string)
    requires ids != {}
    ensures least in ids && forall id :: id in ids && id != least ==> Less(least, id)
  {
    least :| least in ids;
    var rest := ids - {least};
    while rest != {}
      invariant least in ids && rest <= ids
      invariant forall id :: id in ids && id !in rest && id != least ==> Less(least, id)
    {
      var id :| id in rest;
      LessTotal(id, least);
      if Less(id, least) {
        forall other | other in ids && other !in rest && Less(least, other)
          ensures Less(id, other)
        {
          LessTransitive(id, least, other);
        }
        least := id;
      }
      rest := rest - {id};
    }
  }

  /** The members of a set in ascending order. */
  method SortIds(ids: set<string>) returns (sorted: seq<string>)
    ensures Ascending(sorted) && Lists(sorted, ids)
  {
    sorted := [];
    var rest := ids;
    while rest != {}
      invariant rest <= ids && Ascending(sorted) && Lists(sorted, ids - rest)
      invariant forall i, id :: 0 <= i < |sorted| && id in rest ==> Less(sorted[i], id)
    {
      var least := Least(rest);
      sorted := sorted + [least];
      rest := rest - {least};
    }
    assert ids - {} == ids;
  }
}
