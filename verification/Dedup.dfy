/**
 Deduplication of replica writes by operation identifier (`should_process` in `src/storage/memory.rs`), over whole
 delivery sequences: exactly once up to `cap + 1` distinct operations, and not beyond.
 */
module Dedup {
  import opened StorageSpec

  datatype Write = Write(part: nat, op: OpId, key: Key, value: Value)

  /** The store after a sequence of replica deliveries. */
  ghost function Deliver(s: Store, ws: seq<Write>, cap: nat): Store {
    if ws == [] then s
    else
      var w := ws[|ws| - 1];
      Replica(Deliver(s, ws[..|ws| - 1], cap), w.part, w.op, w.key, w.value, cap)
  }

  ghost function Ops(ws: seq<Write>): set<OpId> {
    set w | w in ws :: w.op
  }

  /** The sequence without the later deliveries of an operation already delivered. */
  ghost function Firsts(ws: seq<Write>): seq<Write> {
    if ws == [] then []
    else
      var init, w := ws[..|ws| - 1], ws[|ws| - 1];
      Firsts(init) + (if w.op in Ops(init) then [] else [w])
  }

  /** Plain writes, without any deduplication. */
  ghost function WriteAll(d: Data, ws: seq<Write>): Data {
    if ws == [] then d
    else
      var w := ws[|ws| - 1];
      Put(WriteAll(d, ws[..|ws| - 1]), w.part, w.key, w.value)
  }

  lemma OpsSnoc(init: seq<Write>, w: Write)
    ensures Ops(init + [w]) == Ops(init) + {w.op}
  {
    assert forall x :: x in init + [w] <==> x in init || x == w;
  }

  lemma WriteAllSnoc(d: Data, ws: seq<Write>, w: Write)
    ensures WriteAll(d, ws + [w]) == Put(WriteAll(d, ws), w.part, w.key, w.value)
  {
    assert (ws + [w])[..|ws|] == ws;
  }

  /** With at most `cap + 1` distinct operations, every one takes effect exactly once, at its first delivery. */
  lemma {:induction false} ExactlyOnce(d: Data, ws: seq<Write>, cap: nat)
    requires |Ops(ws)| <= cap + 1
    ensures Deliver(Store(d, {}), ws, cap) == Store(WriteAll(d, Firsts(ws)), Ops(ws))
  {
    if ws != [] {
      var init, w := ws[..|ws| - 1], ws[|ws| - 1];
      assert ws == init + [w];
      OpsSnoc(init, w);
      assert Ops(ws) == if w.op in Ops(init) then Ops(init) else Ops(init) + {w.op};
      ExactlyOnce(d, init, cap);
      if w.op in Ops(init) {
        assert Firsts(ws) == Firsts(init);
      } else {
        WriteAllSnoc(d, Firsts(init), w);
      }
    } else {
      assert Ops(ws) == {};
    }
  }

  /** The set of processed operations never exceeds `cap + 1`, whatever is delivered. */
  lemma {:induction false} OpsBounded(s: Store, ws: seq<Write>, cap: nat)
    requires |s.ops| <= cap + 1
    ensures |Deliver(s, ws, cap).ops| <= cap + 1
  {
    if ws != [] {
      OpsBounded(s, ws[..|ws| - 1], cap);
    }
  }

  /** Delivery `i` is accepted: its operation is not recorded at that point. */
  ghost predicate Accepted(s: Store, ws: seq<Write>, i: nat, cap: nat)
    requires i < |ws|
  {
    ws[i].op !in Deliver(s, ws[..i], cap).ops
  }

  /** Delivery `i` empties the set of processed operations, which is then over-full. */
  ghost predicate Clears(s: Store, ws: seq<Write>, i: nat, cap: nat)
    requires i < |ws|
  {
    Accepted(s, ws, i, cap) && |Deliver(s, ws[..i], cap).ops| > cap
  }

  lemma DeliverStep(s: Store, ws: seq<Write>, i: nat, cap: nat)
    requires i < |ws|
    ensures Deliver(s, ws[..i + 1], cap)
         == Replica(Deliver(s, ws[..i], cap), ws[i].part, ws[i].op, ws[i].key, ws[i].value, cap)
  {
    assert ws[..i + 1][..i] == ws[..i];
  }

  /** An operation recorded stays recorded until the set is cleared. */
  lemma {:induction false} StaysRecorded(s: Store, ws: seq<Write>, i: nat, j: nat, cap: nat)
    requires i < j <= |ws|
    ensures ws[i].op in Deliver(s, ws[..j], cap).ops || exists c :: i < c < j && Clears(s, ws, c, cap)
    decreases j
  {
    DeliverStep(s, ws, j - 1, cap);
    if i < j - 1 {
      StaysRecorded(s, ws, i, j - 1, cap);
      if ws[i].op in Deliver(s, ws[..j - 1], cap).ops && ws[i].op !in Deliver(s, ws[..j], cap).ops {
        assert Clears(s, ws, j - 1, cap);
      }
    }
  }

  /** No operation is accepted twice unless the set was cleared in between. */
  lemma NotTwiceBetweenClears(s: Store, ws: seq<Write>, i: nat, j: nat, cap: nat)
    requires i < j < |ws| && ws[i].op == ws[j].op
    requires Accepted(s, ws, i, cap) && Accepted(s, ws, j, cap)
    ensures exists c :: i < c < j && Clears(s, ws, c, cap)
  {
    StaysRecorded(s, ws, i, j, cap);
  }

  // ---- The bound is exact ----

  /** Every delivery sequence of at most `n` distinct operations has the effect of its first deliveries. */
  ghost predicate ExactlyOnceUpTo(n: nat, cap: nat) {
    forall ws: seq<Write> :: |Ops(ws)| <= n ==> Deliver(Store(map[], {}), ws, cap).data == WriteAll(map[], Firsts(ws))
  }

  /** The i-th of a list of pairwise distinct operation identifiers. */
  ghost function Name(i: nat): (op: OpId)
    ensures |op| == i
  {
    if i == 0 then "" else Name(i - 1) + "x"
  }

  /** Writes of one key under pairwise distinct operations; only the first one writes "first". */
  ghost function BurstWrite(i: nat): Write {
    Write(0, Name(i), "key", if i == 0 then "first" else "later")
  }

  ghost function Burst(n: nat): seq<Write> {
    if n == 0 then [] else Burst(n - 1) + [BurstWrite(n - 1)]
  }

  lemma FirstsSnoc(ws: seq<Write>, w: Write)
    ensures Firsts(ws + [w]) == Firsts(ws) + (if w.op in Ops(ws) then [] else [w])
  {
    assert (ws + [w])[..|ws|] == ws;
  }

  lemma {:induction false} BurstNames(n: nat)
    ensures forall op :: op in Ops(Burst(n)) ==> |op| < n
    ensures n > 0 ==> Name(0) in Ops(Burst(n))
  {
    if n > 0 {
      BurstNames(n - 1);
      OpsSnoc(Burst(n - 1), BurstWrite(n - 1));
    }
  }

  lemma {:induction false} BurstOps(n: nat)
    ensures |Ops(Burst(n))| == n && Firsts(Burst(n)) == Burst(n)
  {
    if n == 0 {
      assert Ops(Burst(0)) == {};
    } else {
      var init, w := Burst(n - 1), BurstWrite(n - 1);
      BurstOps(n - 1);
      BurstNames(n - 1);
      OpsSnoc(init, w);
      FirstsSnoc(init, w);
      assert w.op !in Ops(init);
    }
  }

  lemma DeliverSnoc(s: Store, ws: seq<Write>, w: Write, cap: nat)
    ensures Deliver(s, ws + [w], cap) == Replica(Deliver(s, ws, cap), w.part, w.op, w.key, w.value, cap)
  {
    assert (ws + [w])[..|ws|] == ws;
  }

  /** A new operation on an over-full set. */
  lemma ReplicaClears(s: Store, w: Write, cap: nat)
    requires w.op !in s.ops && |s.ops| > cap
    ensures Replica(s, w.part, w.op, w.key, w.value, cap) == Store(Put(s.data, w.part, w.key, w.value), {w.op})
  {
    assert {} + {w.op} == {w.op};
  }

  /** The operation after `cap + 1` others clears the set. */
  lemma BurstClears(cap: nat)
    ensures Deliver(Store(map[], {}), Burst(cap + 2), cap) == Store(WriteAll(map[], Burst(cap + 2)), {Name(cap + 1)})
  {
    var ws, w := Burst(cap + 1), BurstWrite(cap + 1);
    BurstOps(cap + 1);
    BurstNames(cap + 1);
    ExactlyOnce(map[], ws, cap);
    DeliverSnoc(Store(map[], {}), ws, w, cap);
    ReplicaClears(Store(WriteAll(map[], ws), Ops(ws)), w, cap);
    WriteAllSnoc(map[], ws, w);
  }

  /** After `cap + 2` operations the set has been cleared once, and a repeat of the first is applied again. */
  lemma LateRepeatIsApplied(cap: nat)
    ensures var ws := Burst(cap + 2) + [BurstWrite(0)];
            && |Ops(ws)| == cap + 2
            && Part(Deliver(Store(map[], {}), ws, cap).data, 0) == map["key" := "first"]
            && Part(WriteAll(map[], Firsts(ws)), 0) == map["key" := "later"]
  {
    var all, w := Burst(cap + 2), BurstWrite(0);
    BurstOps(cap + 2);
    BurstNames(cap + 2);
    BurstClears(cap);
    BurstValue(cap + 2);
    OpsSnoc(all, w);
    assert Ops(all) + {w.op} == Ops(all);
    FirstsSnoc(all, w);
    assert all + [] == all;
    DeliverSnoc(Store(map[], {}), all, w, cap);
    var s := Deliver(Store(map[], {}), all, cap);
    assert w.op !in s.ops;
    PutOver(s.data, w);
  }

  lemma PutOver(d: Data, w: Write)
    requires w.part == 0 && w.key == "key" && Part(d, 0) == map["key" := "later"]
    ensures Part(Put(d, 0, "key", w.value), 0) == map["key" := w.value]
  {
  }

  lemma {:induction false} BurstValue(n: nat)
    requires n > 0
    ensures Part(WriteAll(map[], Burst(n)), 0) == map["key" := if n == 1 then "first" else "later"]
  {
    WriteAllSnoc(map[], Burst(n - 1), BurstWrite(n - 1));
    if n > 1 {
      BurstValue(n - 1);
    } else {
      assert Burst(0) == [];
    }
  }

  /** Deduplication is exact for sequences of up to `n` distinct operations if and only if `n <= cap + 1`. */
  lemma DedupExactly(n: nat, cap: nat)
    ensures ExactlyOnceUpTo(n, cap) <==> n <= cap + 1
  {
    if n <= cap + 1 {
      forall ws: seq<Write> | |Ops(ws)| <= n
        ensures Deliver(Store(map[], {}), ws, cap).data == WriteAll(map[], Firsts(ws))
      {
        ExactlyOnce(map[], ws, cap);
      }
    } else {
      LateRepeatIsApplied(cap);
      var ws := Burst(cap + 2) + [BurstWrite(0)];
      var first: Value, later: Value := "first", "later";
      assert first[0] != later[0];
      assert map["key" := first]["key"] != map["key" := later]["key"];
    }
  }
}
