/**
 Node identifiers, their byte-wise order, and sorted lists of them.
 Sorting is what lets two nodes that discovered the same members in different
 orders compute the same ring.
 */
module NodeOrder {
  type NodeId = string

  /** Lexicographic order on identifiers, as `String::cmp` orders them. */
  predicate Leq(a: NodeId, b: NodeId) {
    a == "" || (b != "" && (a[0] < b[0] || (a[0] == b[0] && Leq(a[1..], b[1..]))))
  }

  /** The identifiers first differ at position `i`. */
  ghost predicate DifferAt(a: NodeId, b: NodeId, i: nat) {
    i < |a| && i < |b| && a[i] != b[i] && a[..i] == b[..i]
  }

  /** The order is decided at the first difference. */
  lemma {:induction false} DifferenceDecides(a: NodeId, b: NodeId, i: nat)
    requires DifferAt(a, b, i)
    ensures Leq(a, b) <==> a[i] < b[i]
  {
    if i > 0 {
      assert a[0] == a[..i][0] == b[..i][0];
      assert a[1..][..i - 1] == a[..i][1..] && b[1..][..i - 1] == b[..i][1..];
      DifferenceDecides(a[1..], b[1..], i - 1);
    }
  }

  /** A prefix comes first. */
  lemma {:induction false} PrefixIsFirst(a: NodeId, b: NodeId)
    requires |a| <= |b| && a == b[..|a|]
    ensures Leq(a, b)
  {
    if a != "" {
      PrefixIsFirst(a[1..], b[1..]);
    }
  }

  lemma LeqTotal(a: NodeId, b: NodeId)
    ensures Leq(a, b) || Leq(b, a)
  {
  }

  lemma LeqAntisymmetric(a: NodeId, b: NodeId)
    requires Leq(a, b) && Leq(b, a)
    ensures a == b
  {
    if a != "" {
      LeqAntisymmetric(a[1..], b[1..]);
      assert a == [a[0]] + a[1..] && b == [b[0]] + b[1..];
    }
  }

  lemma LeqTransitive(a: NodeId, b: NodeId, c: NodeId)
    requires Leq(a, b) && Leq(b, c)
    ensures Leq(a, c)
  {
  }

  ghost predicate Sorted(s: seq<NodeId>) {
    forall i, j :: 0 <= i < j < |s| ==> Leq(s[i], s[j])
  }

  ghost predicate Distinct(s: seq<NodeId>) {
    forall i, j :: 0 <= i < j < |s| ==> s[i] != s[j]
  }

  function Elements(s: seq<NodeId>): set<NodeId> {
    set x | x in s
  }

  /** `ring` lists `ids` in ascending order, each exactly once. */
  ghost predicate IsRing(ring: seq<NodeId>, ids: set<NodeId>) {
    Sorted(ring) && Distinct(ring) && Elements(ring) == ids
  }

  lemma LeastExists(ids: set<NodeId>)
    requires ids != {}
    ensures exists m :: m in ids && forall x | x in ids :: Leq(m, x)
  {
    var y :| y in ids;
    var rest := ids - {y};
    if rest == {} {
      assert ids == {y};
      LeqTotal(y, y);
    } else {
      LeastExists(rest);
      var m :| m in rest && forall x | x in rest :: Leq(m, x);
      LeqTotal(m, y);
      var least := if Leq(y, m) then y else m;
      forall x | x in ids ensures Leq(least, x) {
        LeqTotal(y, y);
        if x in rest && least == y { LeqTransitive(y, m, x); }
      }
    }
  }

  lemma RingExists(ids: set<NodeId>)
    ensures exists ring :: IsRing(ring, ids)
    decreases |ids|
  {
    if ids == {} {
      assert IsRing([], ids);
    } else {
      LeastExists(ids);
      var m :| m in ids && forall x | x in ids :: Leq(m, x);
      RingExists(ids - {m});
      var rest :| IsRing(rest, ids - {m});
      assert forall x | x in rest :: x in Elements(rest);
      assert Elements([m] + rest) == ids by {
        assert forall x :: x in [m] + rest <==> x == m || x in Elements(rest);
      }
      assert IsRing([m] + rest, ids);
    }
  }

  lemma {:induction false} DistinctSize(s: seq<NodeId>)
    requires Distinct(s)
    ensures |Elements(s)| == |s|
  {
    if s == [] {
      assert Elements(s) == {};
    } else {
      TailElements(s);
      DistinctSize(s[1..]);
      assert s[0] in Elements(s);
    }
  }

  /** The ascending list of a set of identifiers. */
  ghost function Ring(ids: set<NodeId>): (ring: seq<NodeId>)
    ensures IsRing(ring, ids) && |ring| == |ids|
  {
    RingExists(ids);
    var ring :| IsRing(ring, ids);
    DistinctSize(ring);
    ring
  }

  lemma ElementsAppend(s: seq<NodeId>, x: NodeId)
    ensures Elements(s + [x]) == Elements(s) + {x}
    ensures Distinct(s) && x !in Elements(s) ==> Distinct(s + [x])
  {
    assert forall y :: y in s + [x] <==> y in s || y == x;
    assert forall i :: 0 <= i < |s| ==> s[i] in Elements(s);
  }

  lemma EmptyElements(s: seq<NodeId>)
    ensures Elements(s) == {} <==> s == []
  {
    if s != [] { assert s[0] in Elements(s); }
  }

  /** A set has only one ascending list. */
  lemma {:induction false} RingUnique(a: seq<NodeId>, b: seq<NodeId>)
    requires Sorted(a) && Distinct(a) && Sorted(b) && Distinct(b) && Elements(a) == Elements(b)
    ensures a == b
  {
    EmptyElements(a);
    EmptyElements(b);
    if a != [] {
      assert a[0] == b[0] by {
        assert a[0] in Elements(b) && b[0] in Elements(b) && b[0] in Elements(a);
        LeqTotal(a[0], a[0]);
        LeqTotal(b[0], b[0]);
        LeqAntisymmetric(a[0], b[0]);
      }
      TailElements(a);
      TailElements(b);
      RingUnique(a[1..], b[1..]);
    }
  }

  lemma TailElements(a: seq<NodeId>)
    requires Distinct(a) && a != []
    ensures Elements(a[1..]) == Elements(a) - {a[0]}
  {
    forall x | x in Elements(a) - {a[0]} ensures x in Elements(a[1..]) {
      var i :| 0 <= i < |a| && a[i] == x;
      assert a[1..][i - 1] == x;
    }
  }

  lemma RingIs(a: seq<NodeId>, ids: set<NodeId>)
    requires IsRing(a, ids)
    ensures a == Ring(ids)
  {
    RingUnique(a, Ring(ids));
  }

  /** Insert before the first element that is not smaller. */
  function Insert(x: NodeId, s: seq<NodeId>): seq<NodeId> {
    if s == [] || Leq(x, s[0]) then [x] + s else [s[0]] + Insert(x, s[1..])
  }

  lemma {:induction false} InsertMultiset(x: NodeId, s: seq<NodeId>)
    ensures multiset(Insert(x, s)) == multiset(s) + multiset{x}
  {
    if s != [] && !Leq(x, s[0]) {
      assert s == [s[0]] + s[1..];
      InsertMultiset(x, s[1..]);
    }
  }

  lemma {:induction false} InsertSorted(x: NodeId, s: seq<NodeId>)
    requires Sorted(s)
    ensures Sorted(Insert(x, s))
  {
    if s == [] || Leq(x, s[0]) {
      SortedPrepend(x, s);
    } else {
      InsertSorted(x, s[1..]);
      InsertMultiset(x, s[1..]);
      LeqTotal(x, s[0]);
      var rest := Insert(x, s[1..]);
      forall y | y in rest ensures Leq(s[0], y) {
        assert y in multiset(rest);
        assert y in multiset(s[1..]) || y == x;
      }
      if rest != [] { assert rest[0] in rest; }
      SortedPrepend(s[0], rest);
    }
  }

  lemma SortedPrepend(x: NodeId, s: seq<NodeId>)
    requires s == [] || Leq(x, s[0])
    ensures Sorted(s) ==> Sorted([x] + s)
  {
    if Sorted(s) {
      forall j | 0 <= j < |s| ensures Leq(x, s[j]) {
        if j > 0 { LeqTransitive(x, s[0], s[j]); }
      }
    }
  }

  /** Sort identifiers in ascending order. */
  method SortIds(ids: seq<NodeId>) returns (sorted: seq<NodeId>)
    ensures Sorted(sorted) && multiset(sorted) == multiset(ids)
  {
    sorted := [];
    for i := 0 to |ids|
      invariant Sorted(sorted) && multiset(sorted) == multiset(ids[..i])
    {
      assert ids[..i + 1] == ids[..i] + [ids[i]];
      InsertMultiset(ids[i], sorted);
      InsertSorted(ids[i], sorted);
      sorted := Insert(ids[i], sorted);
    }
    assert ids[..|ids|] == ids;
  }

  /** Rearranging a duplicate-free list keeps it duplicate-free, with the same elements. */
  lemma PermutationKeeps(a: seq<NodeId>, b: seq<NodeId>)
    requires multiset(a) == multiset(b) && Distinct(a)
    ensures Distinct(b) && Elements(a) == Elements(b)
  {
    forall x ensures x in a <==> x in b {
      assert x in multiset(a) <==> x in multiset(b);
    }
    forall i, j | 0 <= i < j < |b| ensures b[i] != b[j] {
      if b[i] == b[j] {
        TwiceCounted(b, i, j);
        assert multiset(a)[b[i]] >= 2;
        DistinctCountsOnce(a, b[i]);
        assert false;
      }
    }
  }

  lemma TwiceCounted(s: seq<NodeId>, i: nat, j: nat)
    requires i < j < |s| && s[i] == s[j]
    ensures multiset(s)[s[i]] >= 2
  {
    assert s == s[..j] + [s[j]] + s[j + 1..];
    assert s[..j][i] == s[i];
  }

  lemma DistinctCountsOnce(s: seq<NodeId>, x: NodeId)
    requires Distinct(s)
    ensures multiset(s)[x] <= 1
  {
    if s != [] {
      assert s == [s[0]] + s[1..];
      DistinctCountsOnce(s[1..], x);
      if x == s[0] {
        assert x !in s[1..];
      }
    }
  }
}
