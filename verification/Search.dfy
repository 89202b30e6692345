/**
 Search over the inverted index (`src/search/engine.rs`): score, hydrate, rank. Its result is proved equal to a
 brute-force scan of the documents.
 */
module Search {
  import opened Common
  import opened Tokenizer
  import opened IndexSpec
  import opened Indexing

  datatype BookMetadata = BookMetadata(bookId: BookId, title: string, author: string, language: string, year: Option<nat>,
                                       wordCount: nat, uniqueWords: nat)

  type Hit = (BookMetadata, nat)

  /** How often the book occurs in the lists of the tokens, position by position. */
  ghost function Score(ix: Index, tokens: seq<Text>, b: BookId): nat {
    if tokens == [] then 0
    else Score(ix, tokens[..|tokens| - 1], b) + multiset(Posting(ix, tokens[|tokens| - 1]))[b]
  }

  /** The scores reached after the given tokens and some further entries of a list. */
  ghost predicate ScoresAre(scores: map<BookId, nat>, ix: Index, tokens: seq<Text>, further: seq<BookId>) {
    forall b :: var n := Score(ix, tokens, b) + multiset(further)[b];
      (b in scores <==> n > 0) && (b in scores ==> scores[b] == n)
  }

  lemma ScoreOne(scores: map<BookId, nat>, ix: Index, tokens: seq<Text>, further: seq<BookId>, x: BookId)
    requires ScoresAre(scores, ix, tokens, further)
    ensures ScoresAre(scores[x := if x in scores then scores[x] + 1 else 1], ix, tokens, further + [x])
  {
    assert multiset(further + [x]) == multiset(further) + multiset{x};
  }

  lemma ScoreToken(scores: map<BookId, nat>, ix: Index, tokens: seq<Text>, t: Text)
    requires ScoresAre(scores, ix, tokens, Posting(ix, t))
    ensures ScoresAre(scores, ix, tokens + [t], [])
  {
    assert (tokens + [t])[..|tokens|] == tokens;
  }

  predicate Descending(hits: seq<Hit>) {
    forall i, j :: 0 <= i < j < |hits| ==> hits[i].1 >= hits[j].1
  }

  ghost predicate HaveMetadata(ids: seq<BookId>, books: map<BookId, BookMetadata>) {
    forall i :: 0 <= i < |ids| ==> ids[i] in books
  }

  /** The hits of the given books, in their order. */
  ghost function Hits(ids: seq<BookId>, books: map<BookId, BookMetadata>, score: BookId -> nat): seq<Hit>
    requires HaveMetadata(ids, books)
  {
    if ids == [] then []
    else
      var b := ids[|ids| - 1];
      Hits(ids[..|ids| - 1], books, score) + [(books[b], score(b))]
  }

  /** The books are those with a positive score and metadata, each once. */
  ghost predicate IsMatchList(ids: seq<BookId>, books: map<BookId, BookMetadata>, score: BookId -> nat) {
    && NoRepeats(ids) && HaveMetadata(ids, books)
    && forall b :: b in ids <==> b in books && score(b) > 0
  }

  ghost predicate AreHits(hits: seq<Hit>, books: map<BookId, BookMetadata>, score: BookId -> nat) {
    exists ids :: IsMatchList(ids, books, score) && hits == Hits(ids, books, score)
  }

  /** By descending score, exactly the hits of the books with a positive score and metadata, each once. */
  ghost predicate IsRanking(results: seq<Hit>, books: map<BookId, BookMetadata>, score: BookId -> nat) {
    Descending(results) && exists hits :: AreHits(hits, books, score) && multiset(results) == multiset(hits)
  }

  /** The score of a book as it follows from the index. */
  ghost function ScoreBy(ix: Index, tokens: seq<Text>): BookId -> nat {
    (b: BookId) => Score(ix, tokens, b)
  }

  lemma NoScores(ix: Index)
    ensures ScoresAre(map[], ix, [], [])
  {
  }

  lemma TakeNext<T>(s: seq<T>, i: nat)
    requires i < |s|
    ensures s[..i + 1] == s[..i] + [s[i]]
  {
  }

  lemma TakeAll<T>(s: seq<T>)
    ensures s[..|s|] == s
  {
  }

  /** The scoring phase. */
  method ScoreBooks(tokens: seq<Text>, ix: Index) returns (scores: map<BookId, nat>)
    ensures ScoresAre(scores, ix, tokens, [])
  {
    scores := map[];
    ghost var scored: seq<Text> := [];
    NoScores(ix);
    for i := 0 to |tokens|
      invariant scored == tokens[..i] && ScoresAre(scores, ix, scored, [])
    {
      var posting := Posting(ix, tokens[i]);
      ghost var counted: seq<BookId> := [];
      for j := 0 to |posting|
        invariant counted == posting[..j] && ScoresAre(scores, ix, scored, counted)
      {
        ScoreOne(scores, ix, scored, counted, posting[j]);
        TakeNext(posting, j);
        scores := scores[posting[j] := if posting[j] in scores then scores[posting[j]] + 1 else 1];
        counted := counted + [posting[j]];
      }
      TakeAll(posting);
      ScoreToken(scores, ix, scored, tokens[i]);
      TakeNext(tokens, i);
      scored := scored + [tokens[i]];
    }
    TakeAll(tokens);
  }

  /** The hydration phase; the scored books come in any order. */
  method Hydrate(scores: map<BookId, nat>, books: map<BookId, BookMetadata>, ghost ix: Index, ghost tokens: seq<Text>)
    returns (hits: seq<Hit>)
    requires ScoresAre(scores, ix, tokens, [])
    ensures AreHits(hits, books, ScoreBy(ix, tokens))
  {
    hits := [];
    ghost var ids: seq<BookId> := [];
    var todo := scores.Keys;
    while todo != {}
      invariant todo <= scores.Keys && NoRepeats(ids)
      invariant forall b :: b in ids <==> b in books && b in scores && b !in todo
      invariant HaveMetadata(ids, books) && hits == Hits(ids, books, ScoreBy(ix, tokens))
    {
      var b :| b in todo;
      if b in books {
        assert scores[b] == Score(ix, tokens, b);
        HitsSnoc(ids, books, ScoreBy(ix, tokens), b);
        hits := hits + [(books[b], scores[b])];
        ids := ids + [b];
      }
      todo := todo - {b};
    }
  }

  lemma HitsSnoc(ids: seq<BookId>, books: map<BookId, BookMetadata>, score: BookId -> nat, b: BookId)
    requires HaveMetadata(ids, books) && b in books
    ensures HaveMetadata(ids + [b], books)
    ensures Hits(ids + [b], books, score) == Hits(ids, books, score) + [(books[b], score(b))]
  {
    assert (ids + [b])[..|ids|] == ids;
  }

  /** The hits of one score, in their order. */
  ghost function OfScore(hits: seq<Hit>, score: nat): seq<Hit> {
    if hits == [] then []
    else
      var last := hits[|hits| - 1];
      OfScore(hits[..|hits| - 1], score) + (if last.1 == score then [last] else [])
  }

  lemma {:induction false} OfScoreAppend(s: seq<Hit>, r: seq<Hit>, score: nat)
    ensures OfScore(s + r, score) == OfScore(s, score) + OfScore(r, score)
  {
    if r == [] {
      assert s + r == s;
    } else {
      OfScoreAppend(s, r[..|r| - 1], score);
      assert (s + r)[..|s + r| - 1] == s + r[..|r| - 1];
    }
  }

  lemma {:induction false} NoneOfScore(s: seq<Hit>, score: nat)
    requires forall m :: 0 <= m < |s| ==> s[m].1 != score
    ensures OfScore(s, score) == []
  {
    if s != [] {
      NoneOfScore(s[..|s| - 1], score);
    }
  }

  /** Hits of every score are in the same order in both lists. */
  ghost predicate SameOrder(s: seq<Hit>, r: seq<Hit>) {
    forall score :: OfScore(s, score) == OfScore(r, score)
  }

  lemma InsertKeepsOrder(s: seq<Hit>, done: seq<Hit>, k: nat, x: Hit)
    requires k <= |s| && (forall m :: k <= m < |s| ==> s[m].1 < x.1) && SameOrder(s, done)
    ensures SameOrder(s[..k] + [x] + s[k..], done + [x])
  {
    forall score ensures OfScore(s[..k] + [x] + s[k..], score) == OfScore(done + [x], score) {
      InsertOfScore(s, k, x, score);
      OfScoreAppend(done, [x], score);
      OfScoreAppend(s, [x], score);
    }
  }

  /** Put before hits of other scores, a hit comes last of its own score. */
  lemma InsertOfScore(s: seq<Hit>, k: nat, x: Hit, score: nat)
    requires k <= |s| && forall m :: k <= m < |s| ==> s[m].1 < x.1
    ensures OfScore(s[..k] + [x] + s[k..], score) == OfScore(s + [x], score)
  {
    OfScoreAppend(s[..k] + [x], s[k..], score);
    OfScoreAppend(s[..k], [x], score);
    OfScoreAppend(s[..k], s[k..], score);
    OfScoreAppend(s, [x], score);
    assert s[..k] + s[k..] == s;
    if x.1 == score {
      NoneOfScore(s[k..], score);
    } else {
      NoneOfScore([x], score);
    }
  }

  /** Sorts by descending score, equal scores in their order. */
  method SortByScore(hits: seq<Hit>) returns (sorted: seq<Hit>)
    ensures Descending(sorted) && multiset(sorted) == multiset(hits) && SameOrder(sorted, hits)
  {
    sorted := [];
    ghost var done: seq<Hit> := [];
    for i := 0 to |hits|
      invariant done == hits[..i] && Descending(sorted) && multiset(sorted) == multiset(done) && SameOrder(sorted, done)
    {
      var k := Position(sorted, hits[i]);
      InsertOrdered(sorted, k, hits[i]);
      InsertCount(sorted, k, hits[i]);
      InsertKeepsOrder(sorted, done, k, hits[i]);
      TakeNext(hits, i);
      sorted := sorted[..k] + [hits[i]] + sorted[k..];
      done := done + [hits[i]];
    }
    TakeAll(hits);
  }

  /** Where a hit goes: after those with at least its score. */
  method Position(sorted: seq<Hit>, x: Hit) returns (k: nat)
    requires Descending(sorted)
    ensures k <= |sorted|
    ensures (forall m :: 0 <= m < k ==> sorted[m].1 >= x.1) && (forall m :: k <= m < |sorted| ==> sorted[m].1 < x.1)
  {
    k := |sorted|;
    while k > 0 && sorted[k - 1].1 < x.1
      invariant k <= |sorted| && forall m :: k <= m < |sorted| ==> sorted[m].1 < x.1
    {
      k := k - 1;
    }
  }

  lemma InsertOrdered(s: seq<Hit>, k: nat, x: Hit)
    requires Descending(s) && k <= |s|
    requires (forall m :: 0 <= m < k ==> s[m].1 >= x.1) && (forall m :: k <= m < |s| ==> s[m].1 < x.1)
    ensures Descending(s[..k] + [x] + s[k..])
  {
    var r := s[..k] + [x] + s[k..];
    forall i, j | 0 <= i < j < |r| ensures r[i].1 >= r[j].1 {
      assert r[i] == if i < k then s[i] else if i == k then x else s[i - 1];
      assert r[j] == if j < k then s[j] else if j == k then x else s[j - 1];
    }
  }

  lemma InsertCount(s: seq<Hit>, k: nat, x: Hit)
    requires k <= |s|
    ensures multiset(s[..k] + [x] + s[k..]) == multiset(s + [x])
  {
    assert s[..k] + s[k..] == s;
  }

  method Search(query: Text, ix: Index, books: map<BookId, BookMetadata>) returns (results: seq<Hit>)
    ensures IsRanking(results, books, ScoreBy(ix, TokenizeQuery(query)))
  {
    var tokens := TokenizeQuery(query);
    var scores := ScoreBooks(tokens, ix);
    var hits := Hydrate(scores, books, ix, tokens);
    results := SortByScore(hits);
  }

  // ---- Search is a brute-force scan ----

  /** The number of query tokens, position by position, that occur in the document. */
  ghost function BruteScore(body: Text, tokens: seq<Text>): nat {
    if tokens == [] then 0
    else BruteScore(body, tokens[..|tokens| - 1]) + (if tokens[|tokens| - 1] in TokenizeText(body) then 1 else 0)
  }

  /** On a settled index a book's score is that of scanning its document; unindexed and missing books score nothing. */
  lemma {:induction false} ScoreIsBruteForce(lake: map<BookId, Text>, passes: seq<Pass>, tokens: seq<Text>, b: BookId)
    requires Settled(lake, passes)
    ensures Score(Indexed(passes), tokens, b) == if HasRun(passes, b) && b in lake then BruteScore(lake[b], tokens) else 0
  {
    if tokens != [] {
      var t := tokens[|tokens| - 1];
      ScoreIsBruteForce(lake, passes, tokens[..|tokens| - 1], b);
      IndexIsExact(lake, passes, t, b);
      PostingsAre(passes, t, b);
      CountOnce(Posting(Indexed(passes), t), b);
    }
  }

  /** The score of a book by scanning its document; books never indexed score nothing. */
  ghost function ScanBy(lake: map<BookId, Text>, passes: seq<Pass>, tokens: seq<Text>): BookId -> nat {
    (b: BookId) => if HasRun(passes, b) && b in lake then BruteScore(lake[b], tokens) else 0
  }

  lemma {:induction false} SameHits(ids: seq<BookId>, books: map<BookId, BookMetadata>, f: BookId -> nat, g: BookId -> nat)
    requires HaveMetadata(ids, books) && forall b :: f(b) == g(b)
    ensures Hits(ids, books, f) == Hits(ids, books, g)
  {
    if ids != [] {
      SameHits(ids[..|ids| - 1], books, f, g);
    }
  }

  lemma SameRanking(results: seq<Hit>, books: map<BookId, BookMetadata>, f: BookId -> nat, g: BookId -> nat)
    requires IsRanking(results, books, f) && forall b :: f(b) == g(b)
    ensures IsRanking(results, books, g)
  {
    var hits :| AreHits(hits, books, f) && multiset(results) == multiset(hits);
    var ids :| IsMatchList(ids, books, f) && hits == Hits(ids, books, f);
    SameHits(ids, books, f, g);
    assert IsMatchList(ids, books, g);
    assert AreHits(hits, books, g);
  }

  /** On a settled index, the results of search are exactly those of scanning the indexed documents. */
  lemma SearchIsBruteForce(lake: map<BookId, Text>, passes: seq<Pass>, query: Text, books: map<BookId, BookMetadata>,
                           results: seq<Hit>)
    requires Settled(lake, passes)
    ensures IsRanking(results, books, ScoreBy(Indexed(passes), TokenizeQuery(query)))
            <==> IsRanking(results, books, ScanBy(lake, passes, TokenizeQuery(query)))
  {
    var f, g := ScoreBy(Indexed(passes), TokenizeQuery(query)), ScanBy(lake, passes, TokenizeQuery(query));
    forall b ensures f(b) == g(b) {
      ScoreIsBruteForce(lake, passes, TokenizeQuery(query), b);
    }
    if IsRanking(results, books, f) { SameRanking(results, books, f, g); }
    if IsRanking(results, books, g) { SameRanking(results, books, g, f); }
  }

  lemma {:induction false} HitsHave(ids: seq<BookId>, books: map<BookId, BookMetadata>, score: BookId -> nat, h: Hit)
    requires HaveMetadata(ids, books)
    ensures h in Hits(ids, books, score) <==> exists b :: b in ids && b in books && h == (books[b], score(b))
  {
    if ids != [] {
      HitsHave(ids[..|ids| - 1], books, score, h);
      assert forall b :: b in ids <==> b in ids[..|ids| - 1] || b == ids[|ids| - 1];
    }
  }

  /** What is in a ranking. */
  lemma RankingHas(results: seq<Hit>, books: map<BookId, BookMetadata>, score: BookId -> nat, h: Hit)
    requires IsRanking(results, books, score)
    ensures h in results <==> exists b :: b in books && score(b) > 0 && h == (books[b], score(b))
  {
    var hits :| AreHits(hits, books, score) && multiset(results) == multiset(hits);
    var ids :| IsMatchList(ids, books, score) && hits == Hits(ids, books, score);
    HitsHave(ids, books, score, h);
    assert h in results <==> h in multiset(results);
    assert h in hits <==> h in multiset(hits);
  }

  lemma {:induction false} BrutePositive(body: Text, tokens: seq<Text>)
    ensures BruteScore(body, tokens) > 0 <==> exists t :: t in tokens && t in TokenizeText(body)
  {
    if tokens != [] {
      var init, last := tokens[..|tokens| - 1], tokens[|tokens| - 1];
      BrutePositive(body, init);
      assert forall t :: t in tokens <==> t in init || t == last;
    }
  }

  /** The order and number of index runs does not change any score. */
  lemma ScoresIgnoreOrder(lake: map<BookId, Text>, passes: seq<Pass>, others: seq<Pass>, tokens: seq<Text>, b: BookId)
    requires Settled(lake, passes) && Settled(lake, others)
    requires forall x :: HasRun(passes, x) <==> HasRun(others, x)
    ensures Score(Indexed(passes), tokens, b) == Score(Indexed(others), tokens, b)
  {
    ScoreIsBruteForce(lake, passes, tokens, b);
    ScoreIsBruteForce(lake, others, tokens, b);
  }

  /** Searching for any token of an indexed document finds the document, with score one, if its metadata exists. */
  lemma IndexedTokenIsFound(lake: map<BookId, Text>, passes: seq<Pass>, books: map<BookId, BookMetadata>,
                            results: seq<Hit>, b: BookId, t: Text)
    requires Settled(lake, passes) && HasRun(passes, b) && b in lake && b in books && t in TokenizeText(lake[b])
    requires IsRanking(results, books, ScoreBy(Indexed(passes), TokenizeQuery(t)))
    ensures (books[b], 1) in results
  {
    IndexedTokenFindsItself(lake[b], t);
    BruteOne(lake[b], t);
    ScoreIsBruteForce(lake, passes, [t], b);
    RankingHas(results, books, ScoreBy(Indexed(passes), [t]), (books[b], 1));
  }

  /** So does a query that differs from such a token only in the case of letters. */
  lemma CaseIsIrrelevantToSearch(lake: map<BookId, Text>, passes: seq<Pass>, books: map<BookId, BookMetadata>,
                                 results: seq<Hit>, b: BookId, t: Text, query: Text)
    requires Settled(lake, passes) && HasRun(passes, b) && b in lake && b in books && t in TokenizeText(lake[b])
    requires AreTwins(query, t) && IsRanking(results, books, ScoreBy(Indexed(passes), TokenizeQuery(query)))
    ensures (books[b], 1) in results
  {
    CaseIsIrrelevant(query, t);
    IndexedTokenIsFound(lake, passes, books, results, b, t);
  }

  lemma BruteOne(body: Text, t: Text)
    requires t in TokenizeText(body)
    ensures BruteScore(body, [t]) == 1
  {
    assert [t][..0] == [];
  }

  // ---- Repeated query terms ----

  ghost function DistinctTerms(body: Text, tokens: seq<Text>): set<Text> {
    set t | t in tokens && t in TokenizeText(body)
  }

  ghost predicate RepeatsNone(body: Text, tokens: seq<Text>) {
    forall i, j :: 0 <= i < j < |tokens| && tokens[i] in TokenizeText(body) ==> tokens[i] != tokens[j]
  }

  /**
   The score counts positions, so it is the number of distinct query terms in the document, as documented, exactly
   when no term of the document is repeated in the query.
   */
  lemma {:induction false} ScoreIsDistinctExactly(body: Text, tokens: seq<Text>)
    ensures BruteScore(body, tokens) >= |DistinctTerms(body, tokens)|
    ensures BruteScore(body, tokens) == |DistinctTerms(body, tokens)| <==> RepeatsNone(body, tokens)
  {
    if tokens != [] {
      var init, last := tokens[..|tokens| - 1], tokens[|tokens| - 1];
      ScoreIsDistinctExactly(body, init);
      DistinctSnoc(body, tokens);
      RepeatsSnoc(body, tokens);
    }
  }

  lemma DistinctSnoc(body: Text, tokens: seq<Text>)
    requires tokens != []
    ensures var init, last := tokens[..|tokens| - 1], tokens[|tokens| - 1];
            |DistinctTerms(body, tokens)| == |DistinctTerms(body, init)| + (if last in TokenizeText(body) && last !in init then 1 else 0)
  {
    var init, last := tokens[..|tokens| - 1], tokens[|tokens| - 1];
    assert forall t :: t in tokens <==> t in init || t == last;
    assert DistinctTerms(body, tokens) == DistinctTerms(body, init) + (if last in TokenizeText(body) then {last} else {});
    if last in TokenizeText(body) && last in init {
      assert last in DistinctTerms(body, init);
      assert DistinctTerms(body, tokens) == DistinctTerms(body, init);
    }
  }

  lemma RepeatsSnoc(body: Text, tokens: seq<Text>)
    requires tokens != []
    ensures var init, last := tokens[..|tokens| - 1], tokens[|tokens| - 1];
            RepeatsNone(body, tokens) <==> RepeatsNone(body, init) && !(last in TokenizeText(body) && last in init)
  {
    var init, last := tokens[..|tokens| - 1], tokens[|tokens| - 1];
    assert forall i :: 0 <= i < |init| ==> init[i] == tokens[i];
    if last in TokenizeText(body) && last in init {
      var i :| 0 <= i < |init| && init[i] == last;
      assert tokens[i] == last == tokens[|tokens| - 1];
    }
  }
}
