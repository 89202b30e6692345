/** The partition manager of one node (`src/storage/partitioner.rs`): placement over its own view of the cluster. */
module Partitioner {
  import opened Common
  import opened NodeOrder
  import opened Placement
  import opened MembershipSpec
  import opened Membership

  /** The numbers below `n` that satisfy `keep`, in ascending order. */
  ghost function Filtered(keep: nat -> bool, n: nat): seq<nat> {
    if n == 0 then [] else Filtered(keep, n - 1) + (if keep(n - 1) then [n - 1] else [])
  }

  lemma {:induction false} FilteredIs(keep: nat -> bool, n: nat)
    ensures forall p: nat :: p in Filtered(keep, n) <==> p < n && keep(p)
    ensures forall i, j :: 0 <= i < j < |Filtered(keep, n)| ==> Filtered(keep, n)[i] < Filtered(keep, n)[j]
  {
    if n > 0 {
      FilteredIs(keep, n - 1);
      var init := Filtered(keep, n - 1);
      assert forall i :: 0 <= i < |init| ==> init[i] in init;
    }
  }

  /** The partitions `node` is primary for. */
  ghost function PrimaryFor(alive: set<NodeId>, rf: nat, node: NodeId): nat -> bool {
    (p: nat) => Owners(alive, rf, p) != [] && Owners(alive, rf, p)[0] == node
  }

  /** The partitions `node` is a backup of. */
  ghost function BackupOf(alive: set<NodeId>, rf: nat, node: NodeId): nat -> bool {
    (p: nat) => Owners(alive, rf, p) != [] && node in Owners(alive, rf, p)[1..]
  }

  /** The primary list: ascending, exactly the partitions whose ring position is the node's. */
  lemma PrimaryListIs(alive: set<NodeId>, rf: nat, node: NodeId, partitions: nat, p: nat)
    requires rf >= 1 && alive != {}
    ensures Ring(alive) != []
    ensures p in Filtered(PrimaryFor(alive, rf, node), partitions) <==> p < partitions && Ring(alive)[p % |Ring(alive)|] == node
    ensures var primary := Filtered(PrimaryFor(alive, rf, node), partitions);
            forall i, j :: 0 <= i < j < |primary| ==> primary[i] < primary[j]
  {
    FilteredIs(PrimaryFor(alive, rf, node), partitions);
    PrimaryAt(Ring(alive), rf, p);
  }

  /** The node is `i` places after the primary of `p`, within the replication factor. */
  predicate IsBackupAt(ring: seq<NodeId>, rf: nat, p: nat, node: NodeId, i: nat) {
    1 <= i < rf && i < |ring| && ring[(p + i) % |ring|] == node
  }

  lemma BackupAt(ring: seq<NodeId>, rf: nat, p: nat, node: NodeId, i: nat)
    requires ring != [] && IsBackupAt(ring, rf, p, node, i)
    ensures RingOwners(ring, rf, p) != [] && node in RingOwners(ring, rf, p)[1..]
  {
    OwnerAt(ring, rf, p, i);
    assert RingOwners(ring, rf, p)[1..][i - 1] == RingOwners(ring, rf, p)[i];
  }

  lemma BackupHasPlace(ring: seq<NodeId>, rf: nat, p: nat, node: NodeId) returns (i: nat)
    requires ring != [] && RingOwners(ring, rf, p) != [] && node in RingOwners(ring, rf, p)[1..]
    ensures IsBackupAt(ring, rf, p, node, i)
  {
    var j: nat :| j < |RingOwners(ring, rf, p)[1..]| && RingOwners(ring, rf, p)[1..][j] == node;
    i := j + 1;
    assert RingOwners(ring, rf, p)[i] == node;
    OwnerAt(ring, rf, p, i);
  }

  /** The backup list: ascending, exactly the partitions the node is a backup of. */
  lemma BackupListIs(alive: set<NodeId>, rf: nat, node: NodeId, partitions: nat, p: nat)
    requires rf >= 1 && alive != {}
    ensures p in Filtered(BackupOf(alive, rf, node), partitions)
            <==> p < partitions && exists i: nat :: IsBackupAt(Ring(alive), rf, p, node, i)
    ensures var backup := Filtered(BackupOf(alive, rf, node), partitions);
            forall i, j :: 0 <= i < j < |backup| ==> backup[i] < backup[j]
  {
    FilteredIs(BackupOf(alive, rf, node), partitions);
    PrimaryAt(Ring(alive), rf, p);
    if i: nat :| IsBackupAt(Ring(alive), rf, p, node, i) {
      BackupAt(Ring(alive), rf, p, node, i);
    }
    if node in Owners(alive, rf, p)[1..] {
      var i := BackupHasPlace(Ring(alive), rf, p, node);
    }
  }

  class PartitionManager {
    const numPartitions: nat
    const replicationFactor: nat
    const membership: MembershipService

    constructor (membership: MembershipService, replicationFactor: nat)
      ensures this.membership == membership && numPartitions == NUM_PARTITIONS
      ensures this.replicationFactor == Max(replicationFactor, 1)
    {
      this.membership := membership;
      this.numPartitions := NUM_PARTITIONS;
      this.replicationFactor := Max(replicationFactor, 1);
    }

    /** The members this node believes alive. */
    ghost function Alive(): set<NodeId>
      reads membership
    {
      AliveKeys(membership.members)
    }

    /** Every member is filed under its own identifier, as all handlers keep it. */
    ghost predicate Valid()
      reads membership
    {
      forall k :: k in membership.members ==> membership.members[k].id == k
    }

    /** The identifiers of the alive members, sorted. */
    method SortedAlive() returns (ring: seq<NodeId>)
      requires Valid()
      ensures ring == Ring(Alive())
    {
      var alive, order := membership.GetAliveMembers();
      var ids := seq(|alive|, i requires 0 <= i < |alive| => alive[i].id);
      assert ids == order;
      ring := SortIds(ids);
      PermutationKeeps(ids, ring);
      RingIs(ring, Alive());
    }

    /** The owners of a partition, whatever order the members were discovered in. */
    method GetOwners(partition: nat) returns (owners: seq<NodeId>)
      requires Valid()
      ensures owners == Owners(Alive(), replicationFactor, partition)
    {
      var ring := SortedAlive();
      if ring == [] {
        return [];
      }
      var start := partition % |ring|;
      var count := Min(replicationFactor, |ring|);
      owners := [];
      for offset := 0 to count
        invariant |owners| == offset && forall k :: 0 <= k < offset ==> owners[k] == At(ring, start, k)
      {
        owners := owners + [ring[(start + offset) % |ring|]];
      }
      assert owners == RingOwners(ring, replicationFactor, partition);
    }

    /** The partitions this node is primary for, in ascending order. */
    method MyPrimaryPartitions() returns (mine: seq<nat>)
      requires Valid()
      ensures mine == Filtered(PrimaryFor(Alive(), replicationFactor, membership.localNode.id), numPartitions)
    {
      ghost var alive := Alive();
      ghost var keep := PrimaryFor(alive, replicationFactor, membership.localNode.id);
      mine := [];
      for p := 0 to numPartitions
        invariant alive == Alive() && mine == Filtered(keep, p)
      {
        var owners := GetOwners(p);
        if owners != [] && owners[0] == membership.localNode.id {
          mine := mine + [p];
        }
      }
    }

    /** The partitions this node is a backup of, in ascending order. */
    method MyBackupPartitions() returns (mine: seq<nat>)
      requires Valid()
      ensures mine == Filtered(BackupOf(Alive(), replicationFactor, membership.localNode.id), numPartitions)
    {
      ghost var alive := Alive();
      ghost var keep := BackupOf(alive, replicationFactor, membership.localNode.id);
      mine := [];
      for p := 0 to numPartitions
        invariant alive == Alive() && mine == Filtered(keep, p)
      {
        var owners := GetOwners(p);
        if owners != [] && membership.localNode.id in owners[1..] {
          mine := mine + [p];
        }
      }
    }
  }

  lemma {:induction false} FilteredSize(keep: nat -> bool, n: nat)
    ensures |Filtered(keep, n)| == |Below(keep, n)|
  {
    if n == 0 {
      assert Below(keep, 0) == {};
    } else {
      FilteredSize(keep, n - 1);
      BelowStep(keep, n - 1);
    }
  }

  /** What `MyPrimaryPartitions` returns at the node on ring position `pos` is a fair share of the partitions. */
  lemma PrimaryListIsShare(alive: set<NodeId>, rf: nat, pos: nat, partitions: nat)
    requires rf >= 1 && pos < |alive|
    ensures |Filtered(PrimaryFor(alive, rf, Ring(alive)[pos]), partitions)| == Share(partitions, |alive|, pos)
  {
    var ring := Ring(alive);
    var keep := PrimaryFor(alive, rf, ring[pos]);
    FilteredSize(keep, partitions);
    PrimaryShare(ring, rf, pos, partitions);
    assert Below(keep, partitions) == PrimaryPartitions(ring, rf, ring[pos], partitions);
  }

  /** Two nodes that found the same alive members, each in its own order, compute the same owners. */
  lemma SameAliveSameOwners(found: seq<NodeId>, others: seq<NodeId>, ring: seq<NodeId>, ring': seq<NodeId>, rf: nat, partition: nat)
    requires Distinct(found) && Distinct(others) && Elements(found) == Elements(others)
    requires Sorted(ring) && multiset(ring) == multiset(found)
    requires Sorted(ring') && multiset(ring') == multiset(others)
    ensures RingOwners(ring, rf, partition) == RingOwners(ring', rf, partition)
  {
    PermutationKeeps(found, ring);
    PermutationKeeps(others, ring');
    RingUnique(ring, ring');
  }
}
