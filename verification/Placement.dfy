/**
 Assignment of partitions to nodes (`src/storage/partitioner.rs`).

 The alive nodes, sorted by identifier, form a ring. Partition `p` of a ring of
 `n` nodes has its primary at position `p % n` and its backups at the following
 positions. The lemmas speak of any duplicate-free ring; `Owners` applies them
 to the sorted ring of a set of alive nodes.
 */
module Placement {
  import opened Common
  import opened NodeOrder

  const NUM_PARTITIONS := 256

  /** Maps the 64-bit hash of a key to a partition: truncate to 32 bits, then reduce. */
  function PartitionOfHash(hash: nat): (p: nat)
    ensures p < NUM_PARTITIONS
  {
    (hash % 0x1_0000_0000) % NUM_PARTITIONS
  }

  /** Ring position `start + offset`, wrapping round. */
  function At(ring: seq<NodeId>, start: nat, offset: nat): NodeId
    requires ring != []
  {
    ring[(start + offset) % |ring|]
  }

  /** The owners of a partition on a ring: the primary first, then the backups. */
  function RingOwners(ring: seq<NodeId>, rf: nat, partition: nat): (owners: seq<NodeId>)
    ensures |owners| == Min(rf, |ring|)
  {
    if ring == [] then []
    else seq(Min(rf, |ring|), (offset: nat) => At(ring, partition % |ring|, offset))
  }

  /** The owners of a partition when `alive` is the set of alive nodes. */
  ghost function Owners(alive: set<NodeId>, rf: nat, partition: nat): seq<NodeId> {
    RingOwners(Ring(alive), rf, partition)
  }

  lemma Wrap(x: nat, n: nat)
    requires 0 < n && x < 2 * n
    ensures x % n == if x < n then x else x - n
  {
    DivModUnique(x, if x < n then 0 else 1, if x < n then x else x - n, n);
  }

  /** Positions less than one lap apart hold different nodes. */
  lemma AtInjective(ring: seq<NodeId>, start: nat, i: nat, j: nat)
    requires Distinct(ring) && start < |ring| && i < j < |ring|
    ensures At(ring, start, i) != At(ring, start, j)
  {
    Wrap(start + i, |ring|);
    Wrap(start + j, |ring|);
  }

  /** Truncating the hash first does not matter: keys spread over the partitions by their hash modulo 256. */
  lemma PartitionIs(hash: nat)
    ensures PartitionOfHash(hash) == hash % 256
  {
    var q := hash / 0x1_0000_0000;
    Decompose(hash, 0x1_0000_0000);
    assert hash == (q * 0x100_0000) * 256 + hash % 0x1_0000_0000;
    ModAddMultiple(q * 0x100_0000, hash % 0x1_0000_0000, 256);
  }

  /** The i-th owner of partition `p` is the ring member `i` places after position `p`, wrapping round. */
  lemma OwnerAt(ring: seq<NodeId>, rf: nat, p: nat, i: nat)
    requires ring != [] && i < rf && i < |ring|
    ensures i < |RingOwners(ring, rf, p)| && RingOwners(ring, rf, p)[i] == ring[(p + i) % |ring|]
  {
    Decompose(p, |ring|);
    ModAddMultiple(p / |ring|, p % |ring| + i, |ring|);
  }

  lemma PrimaryAt(ring: seq<NodeId>, rf: nat, partition: nat)
    requires ring != [] && rf >= 1
    ensures RingOwners(ring, rf, partition) != []
    ensures RingOwners(ring, rf, partition)[0] == ring[partition % |ring|]
  {
    Wrap(partition % |ring|, |ring|);
  }

  /** The owner list has min(rf, n) pairwise distinct ring members. */
  lemma RingOwnersDistinct(ring: seq<NodeId>, rf: nat, partition: nat)
    requires Distinct(ring)
    ensures Distinct(RingOwners(ring, rf, partition))
    ensures Elements(RingOwners(ring, rf, partition)) <= Elements(ring)
  {
    var owners := RingOwners(ring, rf, partition);
    forall i, j | 0 <= i < j < |owners| ensures owners[i] != owners[j] {
      AtInjective(ring, partition % |ring|, i, j);
    }
  }

  /** A non-empty alive set gives every partition min(rf, n) >= 1 distinct alive owners. */
  lemma OwnersWellFormed(alive: set<NodeId>, rf: nat, partition: nat)
    requires alive != {} && rf >= 1
    ensures var owners := Owners(alive, rf, partition);
            && |owners| == Min(rf, |alive|) >= 1
            && Distinct(owners)
            && Elements(owners) <= alive
  {
    RingOwnersDistinct(Ring(alive), rf, partition);
  }

  // ---- How many partitions a node is responsible for ----

  predicate IsPrimary(ring: seq<NodeId>, rf: nat, node: NodeId, partition: nat) {
    var owners := RingOwners(ring, rf, partition);
    owners != [] && owners[0] == node
  }

  predicate IsBackup(ring: seq<NodeId>, rf: nat, node: NodeId, partition: nat) {
    var owners := RingOwners(ring, rf, partition);
    owners != [] && node in owners[1..]
  }

  /** Each partition has exactly one primary, and no node is both primary and backup of it. */
  lemma OnePrimary(ring: seq<NodeId>, rf: nat, partition: nat)
    requires Distinct(ring) && ring != [] && rf >= 1
    ensures exists node :: node in ring && IsPrimary(ring, rf, node, partition)
                        && forall other :: IsPrimary(ring, rf, other, partition) ==> other == node
    ensures forall node :: !(IsPrimary(ring, rf, node, partition) && IsBackup(ring, rf, node, partition))
  {
    PrimaryAt(ring, rf, partition);
    RingOwnersDistinct(ring, rf, partition);
    var owners := RingOwners(ring, rf, partition);
    assert IsPrimary(ring, rf, owners[0], partition);
  }

  /** The partitions below `n` that satisfy `holds`. */
  function Below(holds: nat -> bool, n: nat): set<nat> {
    set p: nat | p < n && holds(p)
  }

  function PrimaryPartitions(ring: seq<NodeId>, rf: nat, node: NodeId, partitions: nat): set<nat> {
    Below((p: nat) => IsPrimary(ring, rf, node, p), partitions)
  }

  function BackupPartitions(ring: seq<NodeId>, rf: nat, node: NodeId, partitions: nat): set<nat> {
    Below((p: nat) => IsBackup(ring, rf, node, p), partitions)
  }

  lemma BelowStep(holds: nat -> bool, n: nat)
    ensures |Below(holds, n + 1)| == |Below(holds, n)| + (if holds(n) then 1 else 0)
  {
    assert Below(holds, n + 1) == Below(holds, n) + (if holds(n) then {n} else {});
  }

  lemma CountStep(ring: seq<NodeId>, rf: nat, node: NodeId, last: nat)
    ensures |PrimaryPartitions(ring, rf, node, last + 1)|
         == |PrimaryPartitions(ring, rf, node, last)| + (if IsPrimary(ring, rf, node, last) then 1 else 0)
    ensures |BackupPartitions(ring, rf, node, last + 1)|
         == |BackupPartitions(ring, rf, node, last)| + (if IsBackup(ring, rf, node, last) then 1 else 0)
  {
    BelowStep((p: nat) => IsPrimary(ring, rf, node, p), last);
    BelowStep((p: nat) => IsBackup(ring, rf, node, p), last);
  }

  lemma PrimaryIff(ring: seq<NodeId>, rf: nat, pos: nat, p: nat)
    requires Distinct(ring) && rf >= 1 && pos < |ring|
    ensures IsPrimary(ring, rf, ring[pos], p) <==> p % |ring| == pos
  {
    PrimaryAt(ring, rf, p);
  }

  /** Floor or ceiling of partitions / n: the first partitions % n positions get one more. */
  function Share(partitions: nat, n: nat, pos: nat): nat
    requires 0 < n
  {
    partitions / n + (if pos < partitions % n then 1 else 0)
  }

  lemma ShareStep(last: nat, n: nat, pos: nat)
    requires pos < n
    ensures Share(last + 1, n, pos) == Share(last, n, pos) + (if last % n == pos then 1 else 0)
  {
    DivModStep(last, n);
  }

  /** The node at ring position `pos` is primary for exactly its share of the partitions. */
  lemma {:induction false} PrimaryShare(ring: seq<NodeId>, rf: nat, pos: nat, partitions: nat)
    requires Distinct(ring) && rf >= 1 && pos < |ring|
    ensures |PrimaryPartitions(ring, rf, ring[pos], partitions)| == Share(partitions, |ring|, pos)
  {
    if partitions == 0 {
      assert PrimaryPartitions(ring, rf, ring[pos], 0) == {};
      DivModUnique(0, 0, 0, |ring|);
    } else {
      var last := partitions - 1;
      PrimaryShare(ring, rf, pos, last);
      ShareStep(last, |ring|, pos);
      PrimaryIff(ring, rf, pos, last);
      CountStep(ring, rf, ring[pos], last);
    }
  }

  /** Sum of a list of counts. */
  function Sum(counts: seq<nat>): nat {
    if counts == [] then 0 else counts[0] + Sum(counts[1..])
  }

  lemma {:induction false} SumAdd(a: seq<nat>, b: seq<nat>, c: seq<nat>)
    requires |a| == |b| == |c| && forall i :: 0 <= i < |a| ==> c[i] == a[i] + b[i]
    ensures Sum(c) == Sum(a) + Sum(b)
  {
    if a != [] { SumAdd(a[1..], b[1..], c[1..]); }
  }

  lemma {:induction false} SumZero(a: seq<nat>)
    requires forall i :: 0 <= i < |a| ==> a[i] == 0
    ensures Sum(a) == 0
  {
    if a != [] { SumZero(a[1..]); }
  }

  /** Summing an indicator over the ring counts the marked members. */
  lemma {:induction false} SumIndicator(ring: seq<NodeId>, marked: set<NodeId>, a: seq<nat>)
    requires Distinct(ring) && marked <= Elements(ring) && |a| == |ring|
    requires forall i :: 0 <= i < |ring| ==> a[i] == if ring[i] in marked then 1 else 0
    ensures Sum(a) == |marked|
  {
    if ring == [] {
      assert marked == {};
    } else {
      var x, rest := ring[0], ring[1..];
      TailElements(ring);
      assert x !in Elements(rest);
      forall i | 0 <= i < |rest| ensures a[1..][i] == if rest[i] in marked - {x} then 1 else 0 {
        assert rest[i] in Elements(rest);
      }
      SumIndicator(rest, marked - {x}, a[1..]);
      Unmark(marked, x);
    }
  }

  lemma Unmark(marked: set<NodeId>, x: NodeId)
    ensures |marked| == |marked - {x}| + (if x in marked then 1 else 0)
  {
    assert marked == if x in marked then (marked - {x}) + {x} else marked - {x};
  }

  function PrimaryCounts(ring: seq<NodeId>, rf: nat, partitions: nat): (counts: seq<nat>) {
    seq(|ring|, i requires 0 <= i < |ring| => |PrimaryPartitions(ring, rf, ring[i], partitions)|)
  }

  function BackupCounts(ring: seq<NodeId>, rf: nat, partitions: nat): (counts: seq<nat>) {
    seq(|ring|, i requires 0 <= i < |ring| => |BackupPartitions(ring, rf, ring[i], partitions)|)
  }

  function Marks(ring: seq<NodeId>, marked: set<NodeId>): (marks: seq<nat>) {
    seq(|ring|, i requires 0 <= i < |ring| => if ring[i] in marked then 1 else 0)
  }

  lemma PrimaryCountsStep(ring: seq<NodeId>, rf: nat, last: nat)
    requires Distinct(ring) && ring != [] && rf >= 1
    ensures Sum(PrimaryCounts(ring, rf, last + 1)) == Sum(PrimaryCounts(ring, rf, last)) + 1
  {
    var a, b, c := PrimaryCounts(ring, rf, last), Marks(ring, {RingOwners(ring, rf, last)[0]}), PrimaryCounts(ring, rf, last + 1);
    OwnerMarks(ring, rf, last);
    forall i | 0 <= i < |ring| ensures c[i] == a[i] + b[i] {
      CountStep(ring, rf, ring[i], last);
    }
    SumAdd(a, b, c);
  }

  lemma BackupCountsStep(ring: seq<NodeId>, rf: nat, last: nat)
    requires Distinct(ring) && ring != [] && rf >= 1
    ensures Sum(BackupCounts(ring, rf, last + 1)) == Sum(BackupCounts(ring, rf, last)) + (Min(rf, |ring|) - 1)
  {
    var marked := Elements(RingOwners(ring, rf, last)[1..]);
    var a, b, c := BackupCounts(ring, rf, last), Marks(ring, marked), BackupCounts(ring, rf, last + 1);
    OwnerMarks(ring, rf, last);
    forall i | 0 <= i < |ring| ensures c[i] == a[i] + b[i] {
      CountStep(ring, rf, ring[i], last);
    }
    SumAdd(a, b, c);
  }

  lemma CountsStartAtZero(ring: seq<NodeId>, rf: nat)
    ensures Sum(PrimaryCounts(ring, rf, 0)) == 0 == Sum(BackupCounts(ring, rf, 0))
  {
    forall i | 0 <= i < |ring|
      ensures PrimaryPartitions(ring, rf, ring[i], 0) == {} == BackupPartitions(ring, rf, ring[i], 0)
    {
    }
    SumZero(PrimaryCounts(ring, rf, 0));
    SumZero(BackupCounts(ring, rf, 0));
  }

  /** A count that starts at zero and grows by `c` each time is linear. */
  lemma {:induction false} Linear(f: nat -> nat, c: nat, n: nat)
    requires f(0) == 0 && forall i: nat :: f(i + 1) == f(i) + c
    ensures f(n) == n * c
  {
    if n > 0 {
      Linear(f, c, n - 1);
      assert f((n - 1) + 1) == f(n - 1) + c;
      Successor(n - 1, c);
    }
  }

  /** Over the whole ring there are P primary copies and P * (min(rf, n) - 1) backup copies. */
  lemma TotalShares(ring: seq<NodeId>, rf: nat, partitions: nat)
    requires Distinct(ring) && ring != [] && rf >= 1
    ensures Sum(PrimaryCounts(ring, rf, partitions)) == partitions
    ensures Sum(BackupCounts(ring, rf, partitions)) == partitions * (Min(rf, |ring|) - 1)
  {
    var primaries, backups := (p: nat) => Sum(PrimaryCounts(ring, rf, p)), (p: nat) => Sum(BackupCounts(ring, rf, p));
    CountsStartAtZero(ring, rf);
    forall p: nat
      ensures primaries(p + 1) == primaries(p) + 1
      ensures backups(p + 1) == backups(p) + (Min(rf, |ring|) - 1)
    {
      PrimaryCountsStep(ring, rf, p);
      BackupCountsStep(ring, rf, p);
    }
    Linear(primaries, 1, partitions);
    Linear(backups, Min(rf, |ring|) - 1, partitions);
  }

  lemma Successor(a: nat, b: nat)
    ensures (a + 1) * b == a * b + b
  {
  }

  lemma OwnerMarks(ring: seq<NodeId>, rf: nat, p: nat)
    requires Distinct(ring) && ring != [] && rf >= 1
    ensures RingOwners(ring, rf, p) != []
    ensures Sum(Marks(ring, {RingOwners(ring, rf, p)[0]})) == 1
    ensures Sum(Marks(ring, Elements(RingOwners(ring, rf, p)[1..]))) == Min(rf, |ring|) - 1
  {
    var owners := RingOwners(ring, rf, p);
    PrimaryAt(ring, rf, p);
    RingOwnersDistinct(ring, rf, p);
    assert owners[0] in Elements(owners);
    TailElements(owners);
    DistinctSize(owners[1..]);
    SumIndicator(ring, {owners[0]}, Marks(ring, {owners[0]}));
    SumIndicator(ring, Elements(owners[1..]), Marks(ring, Elements(owners[1..])));
  }

  // ---- What happens when the primary fails ----

  function Primary(ring: seq<NodeId>, p: nat): NodeId
    requires ring != []
  {
    ring[p % |ring|]
  }

  function Without(ring: seq<NodeId>, i: nat): seq<NodeId>
    requires i < |ring|
  {
    ring[..i] + ring[i + 1..]
  }

  /** Removing a node from the alive set closes the gap in the sorted ring. */
  lemma RingWithout(alive: set<NodeId>, ring: seq<NodeId>, i: nat)
    requires IsRing(ring, alive) && i < |ring|
    ensures Ring(alive - {ring[i]}) == Without(ring, i)
  {
    var shorter := Without(ring, i);
    forall x ensures x in Elements(shorter) <==> x in Elements(ring) && x != ring[i] {
      if x in ring && x != ring[i] {
        var j :| 0 <= j < |ring| && ring[j] == x;
        assert x == shorter[if j < i then j else j - 1];
      }
    }
    RingIs(shorter, alive - {ring[i]});
  }

  /**
   When the primary of `p` fails among `n >= 2` nodes, the new primary is the old ring
   member `1 + (p / n) % (n - 1)` positions after the failed one.
   */
  lemma FailoverSuccessor(ring: seq<NodeId>, p: nat)
    requires |ring| >= 2
    ensures var n := |ring|;
            Primary(Without(ring, p % n), p) == At(ring, p % n, 1 + (p / n) % (n - 1))
  {
    var n, m := |ring|, |ring| - 1;
    var i, q := p % n, p / n;
    var t := q % m;
    FailoverIndex(p, n);
    Wrap(t + i, m);
    Wrap(i + (1 + t), n);
  }

  lemma FailoverIndex(p: nat, n: nat)
    requires n >= 2
    ensures p % (n - 1) == ((p / n) % (n - 1) + p % n) % (n - 1)
  {
    var m, i, q := n - 1, p % n, p / n;
    Decompose(p, n);
    Successor(m, q);
    assert p == q * m + (q + i);
    ModAddMultiple(q, q + i, m);
    Decompose(q, m);
    assert q + i == (q / m) * m + (q % m + i);
    ModAddMultiple(q / m, q % m + i, m);
  }

  /** The next ring member takes over exactly when p / n is a multiple of n - 1. */
  lemma NextNodeTakesOver(ring: seq<NodeId>, p: nat)
    requires Distinct(ring) && |ring| >= 2
    ensures var n := |ring|;
            Primary(Without(ring, p % n), p) == At(ring, p % n, 1) <==> (p / n) % (n - 1) == 0
  {
    FailoverSuccessor(ring, p);
    var t := (p / |ring|) % (|ring| - 1);
    if t != 0 { AtInjective(ring, p % |ring|, 1, 1 + t); }
  }

  /** The new primary already held a copy exactly when its distance is within the replica count. */
  lemma NewPrimaryHeldCopy(ring: seq<NodeId>, rf: nat, p: nat)
    requires Distinct(ring) && |ring| >= 2
    ensures var n := |ring|;
            Primary(Without(ring, p % n), p) in RingOwners(ring, rf, p) <==> 1 + (p / n) % (n - 1) < rf
  {
    FailoverSuccessor(ring, p);
    var n, start := |ring|, p % |ring|;
    var d := 1 + (p / n) % (n - 1);
    var owners := RingOwners(ring, rf, p);
    if d < rf {
      assert owners[d] == At(ring, start, d);
    } else {
      forall k | 0 <= k < |owners| ensures owners[k] != At(ring, start, d) {
        AtInjective(ring, start, k, d);
      }
    }
  }

  /** With three nodes and two copies, partition 3 moves to a node that never held it. */
  lemma FailoverCounterexample()
    ensures RingOwners(["a", "b", "c"], 2, 3) == ["a", "b"]
    ensures Primary(Without(["a", "b", "c"], 0), 3) == "c"
  {
    var ring: seq<NodeId> := ["a", "b", "c"];
    DivModUnique(3, 1, 0, 3);
    FailoverSuccessor(ring, 3);
    assert At(ring, 0, 0) == "a" && At(ring, 0, 1) == "b" && At(ring, 0, 2) == "c";
    assert RingOwners(ring, 2, 3) == [At(ring, 0, 0), At(ring, 0, 1)];
  }
}
