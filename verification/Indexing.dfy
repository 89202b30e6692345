/**
 The inverted index and the `index_document` task handler (`src/main.rs`). The index map behaves as one map and the
 handler runs one task at a time. A read of a list may fail, and is then taken for an empty list. A put may fail, with
 or without having stored its value; the handler then stops.
 */
module IndexSpec {
  import opened Common
  import opened Tokenizer

  type BookId = string
  type Index = map<Text, seq<BookId>>

  datatype PutOutcome = Stored | StoredWithError | Refused

  /** The books listed under a token. */
  function Posting(ix: Index, t: Text): seq<BookId> {
    if t in ix then ix[t] else []
  }

  function WithBook(ids: seq<BookId>, b: BookId): seq<BookId> {
    if b in ids then ids else ids + [b]
  }

  /** The index with the book listed under each of the tokens; the lists of the `lost` ones could not be read. */
  ghost function AddAll(ix: Index, ts: set<Text>, lost: set<Text>, b: BookId): Index {
    map t | t in ix.Keys + ts :: if t in ts then WithBook(if t in lost then [] else Posting(ix, t), b) else ix[t]
  }

  lemma AddAllStep(ix: Index, ts: set<Text>, lost: set<Text>, t: Text, b: BookId, read: bool)
    requires t !in ts && lost <= ts
    ensures var mid := AddAll(ix, ts, lost, b);
            mid[t := WithBook(if read then Posting(mid, t) else [], b)] == AddAll(ix, ts + {t}, if read then lost else lost + {t}, b)
  {
  }

  function Body(lake: map<BookId, Text>, b: BookId): Option<Text> {
    if b in lake then Some(lake[b]) else None
  }

  /** One run of the handler: the document it read, the tokens it listed the book under, and those whose lists it could not read. */
  datatype Pass = Pass(book: BookId, body: Option<Text>, done: set<Text>, lost: set<Text>, ok: bool)

  /** A successful run lists every token of the document; a failed one some; a missing document is skipped. */
  ghost predicate IsPass(p: Pass) {
    p.lost <= p.done &&
    match p.body
    case None => p.ok && p.done == {}
    case Some(text) => p.done <= TokenizeText(text) && (p.ok ==> p.done == TokenizeText(text))
  }

  /** The index after a series of runs. */
  ghost function Indexed(passes: seq<Pass>): Index {
    if passes == [] then map[]
    else AddAll(Indexed(passes[..|passes| - 1]), passes[|passes| - 1].done, passes[|passes| - 1].lost, passes[|passes| - 1].book)
  }
}

module Indexing {
  import opened Common
  import opened Tokenizer
  import opened IndexSpec

  /** The first `n` puts all succeed. */
  ghost predicate AllStored(outcome: nat -> PutOutcome, n: nat) {
    forall i: nat :: i < n ==> outcome(i) == Stored
  }

  lemma NextPut(outcome: nat -> PutOutcome, i: nat, n: nat)
    requires AllStored(outcome, i) && i < n
    ensures if outcome(i) == Stored then AllStored(outcome, i + 1) else !AllStored(outcome, n)
  {
  }

  lemma OneLess<T>(s: set<T>, x: T)
    requires x in s
    ensures |s| > 0 && |s - {x}| == |s| - 1
  {
  }

  class Indexer {
    var indexMap: Index

    constructor ()
      ensures indexMap == Indexed([])
    {
      indexMap := map[];
    }

    /** The handler; `answered(i)` tells whether its `i`-th read of a list succeeds, `outcome(i)` what becomes of its put. */
    method IndexDocument(b: BookId, datalake: map<BookId, Text>, answered: nat -> bool, outcome: nat -> PutOutcome)
      returns (ok: bool, ghost done: set<Text>, ghost lost: set<Text>)
      modifies this`indexMap
      ensures indexMap == AddAll(old(indexMap), done, lost, b)
      ensures IsPass(Pass(b, Body(datalake, b), done, lost, ok))
      ensures ok <==> b !in datalake || AllStored(outcome, |TokenizeText(datalake[b])|)
      ensures (forall i :: answered(i)) ==> lost == {}
    {
      if b !in datalake {
        assert AddAll(indexMap, {}, {}, b) == indexMap;
        return true, {}, {};
      }
      ok, done, lost := AddTokens(TokenizeText(datalake[b]), b, answered, outcome);
    }

    /** The handler's loop over the tokens of a document, in any order. */
    method AddTokens(tokens: set<Text>, b: BookId, answered: nat -> bool, outcome: nat -> PutOutcome)
      returns (ok: bool, ghost done: set<Text>, ghost lost: set<Text>)
      modifies this`indexMap
      ensures indexMap == AddAll(old(indexMap), done, lost, b)
      ensures lost <= done <= tokens && (ok ==> done == tokens)
      ensures ok <==> AllStored(outcome, |tokens|)
      ensures (forall i :: answered(i)) ==> lost == {}
    {
      ghost var before := indexMap;
      done, lost := {}, {};
      assert AddAll(before, {}, {}, b) == before;
      var todo, i := tokens, 0;
      while todo != {}
        invariant Splits(tokens, todo, done) && lost <= done
        invariant i + |todo| == |tokens| && AllStored(outcome, i)
        invariant (forall j :: answered(j)) ==> lost == {}
        invariant indexMap == AddAll(before, done, lost, b)
        decreases todo
      {
        var token :| token in todo;
        SplitsStep(tokens, todo, done, token);
        OneLess(todo, token);
        AddAllStep(before, done, lost, token, b, answered(i));
        var bookIds := if answered(i) then Posting(indexMap, token) else [];
        if b !in bookIds {
          bookIds := bookIds + [b];
        }
        if outcome(i) != Refused {
          indexMap := indexMap[token := bookIds];
          done := done + {token};
          lost := if answered(i) then lost else lost + {token};
        }
        NextPut(outcome, i, |tokens|);
        if outcome(i) != Stored {
          return false, done, lost;
        }
        todo := todo - {token};
        i := i + 1;
      }
      SplitsEnd(tokens, done);
      return true, done, lost;
    }
  }

  // ---- What the index contains ----

  ghost predicate NoRepeats(ids: seq<BookId>) {
    forall i, j :: 0 <= i < j < |ids| ==> ids[i] != ids[j]
  }

  /** The run starts the list of the token anew, for another book. */
  ghost predicate Forgets(p: Pass, t: Text, b: BookId) {
    t in p.done && t in p.lost && p.book != b
  }

  ghost predicate ListedBy(passes: seq<Pass>, t: Text, b: BookId, i: nat) {
    && i < |passes| && passes[i].book == b && t in passes[i].done
    && forall j: nat :: i < j < |passes| ==> !Forgets(passes[j], t, b)
  }

  /** A run, token by token: a list not reached stays; one that could not be read starts anew; the book comes last if it is not there. */
  lemma ListIs(ix: Index, ts: set<Text>, lost: set<Text>, b: BookId, t: Text)
    ensures var before, after := Posting(ix, t), Posting(AddAll(ix, ts, lost, b), t);
            if t !in ts then after == before
            else if t in lost then after == [b]
            else if b in before then after == before
            else after == before + [b]
  {
  }

  /** Some run listed the book under the token, and no later one forgot it. */
  ghost predicate Listed(passes: seq<Pass>, t: Text, b: BookId) {
    exists i: nat :: ListedBy(passes, t, b, i)
  }

  lemma ListedSnoc(passes: seq<Pass>, t: Text, b: BookId)
    requires passes != []
    ensures var init, last := passes[..|passes| - 1], passes[|passes| - 1];
            Listed(passes, t, b) <==> (Listed(init, t, b) && !Forgets(last, t, b)) || (last.book == b && t in last.done)
  {
    var init, last := passes[..|passes| - 1], passes[|passes| - 1];
    if Listed(init, t, b) && !Forgets(last, t, b) {
      var i: nat :| ListedBy(init, t, b, i);
      assert ListedBy(passes, t, b, i);
    }
    if last.book == b && t in last.done {
      assert ListedBy(passes, t, b, |init|);
    }
    if Listed(passes, t, b) && !(last.book == b && t in last.done) {
      var i: nat :| ListedBy(passes, t, b, i);
      assert ListedBy(init, t, b, i);
    }
  }

  /** Whatever ran, in whatever order and however often: no book is listed twice, and exactly those that were listed, and not forgotten since, are. */
  lemma {:induction false} PostingsAre(passes: seq<Pass>, t: Text, b: BookId)
    ensures NoRepeats(Posting(Indexed(passes), t))
    ensures b in Posting(Indexed(passes), t) <==> Listed(passes, t, b)
  {
    if passes != [] {
      PostingsAre(passes[..|passes| - 1], t, b);
      ListedSnoc(passes, t, b);
    }
  }

  ghost predicate Succeeded(passes: seq<Pass>, b: BookId) {
    exists j :: 0 <= j < |passes| && passes[j].book == b && passes[j].ok
  }

  /** Every run read the document of the given data lake and all lists it needed, and every book with a run has a successful one. */
  ghost predicate Settled(lake: map<BookId, Text>, passes: seq<Pass>) {
    && (forall i :: 0 <= i < |passes| ==> IsPass(passes[i]) && passes[i].lost == {} && passes[i].body == Body(lake, passes[i].book))
    && (forall i :: 0 <= i < |passes| ==> Succeeded(passes, passes[i].book))
  }

  ghost predicate HasRun(passes: seq<Pass>, b: BookId) {
    exists i :: 0 <= i < |passes| && passes[i].book == b
  }

  /** A settled index lists exactly the books whose document contains the token. */
  lemma IndexIsExact(lake: map<BookId, Text>, passes: seq<Pass>, t: Text, b: BookId)
    requires Settled(lake, passes)
    ensures b in Posting(Indexed(passes), t) <==> HasRun(passes, b) && b in lake && t in TokenizeText(lake[b])
  {
    PostingsAre(passes, t, b);
    if HasRun(passes, b) && b in lake && t in TokenizeText(lake[b]) {
      var i :| 0 <= i < |passes| && passes[i].book == b;
      assert Succeeded(passes, passes[i].book);
      var j: nat :| j < |passes| && passes[j].book == b && passes[j].ok;
      assert ListedBy(passes, t, b, j);
    }
    if Listed(passes, t, b) {
      var i: nat :| ListedBy(passes, t, b, i);
      assert IsPass(passes[i]) && passes[i].body == Body(lake, b);
    }
  }

  /** Reordering or repeating the tasks, failed attempts included, does not change what is listed. */
  lemma OrderIsIrrelevant(lake: map<BookId, Text>, passes: seq<Pass>, others: seq<Pass>, t: Text)
    requires Settled(lake, passes) && Settled(lake, others)
    requires forall b :: HasRun(passes, b) <==> HasRun(others, b)
    ensures multiset(Posting(Indexed(passes), t)) == multiset(Posting(Indexed(others), t))
  {
    forall b: BookId
      ensures multiset(Posting(Indexed(passes), t))[b] == multiset(Posting(Indexed(others), t))[b]
    {
      IndexIsExact(lake, passes, t, b);
      IndexIsExact(lake, others, t, b);
      PostingsAre(passes, t, b);
      PostingsAre(others, t, b);
      CountOnce(Posting(Indexed(passes), t), b);
      CountOnce(Posting(Indexed(others), t), b);
    }
  }

  lemma {:induction false} CountOnce(ids: seq<BookId>, b: BookId)
    requires NoRepeats(ids)
    ensures multiset(ids)[b] == if b in ids then 1 else 0
  {
    if ids != [] {
      var init, last := ids[..|ids| - 1], ids[|ids| - 1];
      assert ids == init + [last];
      CountOnce(init, b);
    }
  }

  /** If all reads succeed, later runs remove nothing: a document that changes leaves its old tokens behind. */
  lemma NothingIsRemoved(passes: seq<Pass>, more: seq<Pass>, t: Text, b: BookId)
    requires b in Posting(Indexed(passes), t) && forall j :: 0 <= j < |more| ==> t !in more[j].lost
    ensures b in Posting(Indexed(passes + more), t)
  {
    PostingsAre(passes, t, b);
    PostingsAre(passes + more, t, b);
    var i: nat :| ListedBy(passes, t, b, i);
    assert ListedBy(passes + more, t, b, i);
  }

  /** A run that lists its book under a token whose list it cannot read forgets every other book of the list. */
  lemma LostReadForgets(passes: seq<Pass>, t: Text)
    requires passes != [] && t in passes[|passes| - 1].done && t in passes[|passes| - 1].lost
    ensures Posting(Indexed(passes), t) == [passes[|passes| - 1].book]
  {
  }
}
