/**
 The two tokenizers (`src/search/tokenizer.rs`), over ASCII text: one scans a document with the regular expression
 `\b[a-zA-Z]+\b`, the other splits a query at whitespace and trims each word. They were written independently and
 must agree for search to find what was indexed.
 */
module Tokenizer {
  type Ascii = c: char | c as int < 128 witness 'a'
  type Text = seq<Ascii>

  predicate IsUpper(c: char) { 'A' <= c <= 'Z' }

  predicate IsLetter(c: char) { 'a' <= c <= 'z' || 'A' <= c <= 'Z' }

  predicate IsAlphanumeric(c: char) { IsLetter(c) || '0' <= c <= '9' }

  /** What `\w` matches. */
  predicate IsWordChar(c: char) { IsAlphanumeric(c) || c == '_' }

  predicate IsSpace(c: char) { 9 <= c as int <= 13 || c == ' ' }

  predicate IsSolid(c: char) { !IsSpace(c) }

  predicate All(s: Text, p: char -> bool) {
    forall k :: 0 <= k < |s| ==> p(s[k])
  }

  function LowerChar(c: Ascii): Ascii {
    if IsUpper(c) then (c as int + 32) as char else c
  }

  function Lower(s: Text): (r: Text)
    ensures |r| == |s| && forall k :: 0 <= k < |s| ==> r[k] == LowerChar(s[k])
  {
    if s == [] then [] else [LowerChar(s[0])] + Lower(s[1..])
  }

  /** The first position from `i` on whose character does not satisfy `p`. */
  function RunEnd(s: Text, p: char -> bool, i: nat): (e: nat)
    requires i <= |s|
    ensures i <= e <= |s|
    ensures forall k :: i <= k < e ==> p(s[k])
    ensures e < |s| ==> !p(s[e])
    decreases |s| - i
  {
    if i < |s| && p(s[i]) then RunEnd(s, p, i + 1) else i
  }

  // ---- Documents ----

  /** `\b` holds at position `i`: exactly one of the neighbouring characters is a word character. */
  predicate Boundary(s: Text, i: nat)
    requires i <= |s|
  {
    (0 < i && IsWordChar(s[i - 1])) != (i < |s| && IsWordChar(s[i]))
  }

  /** The expression matches `s[i..j]`. */
  predicate Match(s: Text, i: nat, j: nat) {
    i < j <= |s| && Boundary(s, i) && All(s[i..j], IsLetter) && Boundary(s, j)
  }

  /** The matches from position `i` on, left to right and without overlap; each as long as possible. */
  function FindIter(s: Text, i: nat): seq<Text>
    requires i <= |s|
    decreases |s| - i
  {
    if i == |s| then []
    else
      var e := RunEnd(s, IsLetter, i);
      if Boundary(s, i) && i < e && Boundary(s, e) then [s[i..e]] + FindIter(s, e) else FindIter(s, i + 1)
  }

  function TokenizeText(text: Text): set<Text> {
    set w | w in FindIter(Lower(text), 0) && |w| > 2
  }

  /** A property of a stretch, position by position. */
  lemma AllBetween(s: Text, p: char -> bool, i: nat, j: nat)
    requires i <= j <= |s| && All(s[i..j], p)
    ensures forall k :: i <= k < j ==> p(s[k])
  {
    forall k | i <= k < j ensures p(s[k]) {
      assert s[i..j][k - i] == s[k];
    }
  }

  /** A match reaches exactly to the end of the letters. */
  lemma MatchEnd(s: Text, i: nat, j: nat)
    requires Match(s, i, j)
    ensures j == RunEnd(s, IsLetter, i)
  {
    AllBetween(s, IsLetter, i, j);
  }

  /** No match starts inside another, nor right after it. */
  lemma MatchApart(s: Text, i: nat, e: nat, a: nat, b: nat)
    requires Match(s, i, e) && Match(s, a, b) && i < a
    ensures e < a
  {
    AllBetween(s, IsLetter, i, e);
    AllBetween(s, IsLetter, a, b);
    assert IsLetter(s[a]);
  }

  /** `w` is matched at position `i` or later. */
  ghost predicate Matched(s: Text, i: nat, w: Text) {
    exists a: nat, b: nat :: i <= a && Match(s, a, b) && w == s[a..b]
  }

  /** The scan finds exactly the matches of the expression. */
  lemma {:induction false} FindIterFinds(s: Text, i: nat, w: Text)
    requires i <= |s|
    ensures w in FindIter(s, i) <==> Matched(s, i, w)
    decreases |s| - i
  {
    if i < |s| {
      var e := RunEnd(s, IsLetter, i);
      if Boundary(s, i) && i < e && Boundary(s, e) {
        assert Match(s, i, e);
        FindIterFinds(s, e, w);
        forall a: nat, b: nat | i <= a && Match(s, a, b) && w == s[a..b] ensures w in FindIter(s, i) {
          if a == i {
            MatchEnd(s, a, b);
          } else {
            MatchApart(s, i, e, a, b);
          }
        }
      } else {
        FindIterFinds(s, i + 1, w);
        forall a: nat, b: nat | i <= a && Match(s, a, b) && w == s[a..b] ensures i < a {
          if a == i {
            MatchEnd(s, a, b);
            assert false;
          }
        }
      }
    }
  }

  /** A document's tokens are its lower-cased words of letters, three or longer, that stand alone. */
  lemma TextTokens(text: Text, w: Text)
    ensures w in TokenizeText(text) <==> |w| > 2 && Matched(Lower(text), 0, w)
  {
    FindIterFinds(Lower(text), 0, w);
  }

  // ---- Queries ----

  /** The maximal stretches without whitespace from position `i` on. */
  function SplitWhitespace(s: Text, i: nat): seq<Text>
    requires i <= |s|
    decreases |s| - i
  {
    if i == |s| then []
    else if IsSpace(s[i]) then SplitWhitespace(s, i + 1)
    else var e := RunEnd(s, IsSolid, i); [s[i..e]] + SplitWhitespace(s, e)
  }

  /** The range left of a word when everything but letters and digits is trimmed off its edges. */
  function TrimStart(w: Text): (a: nat)
    ensures a <= |w| && (a < |w| ==> IsAlphanumeric(w[a]))
    ensures forall k :: 0 <= k < a ==> !IsAlphanumeric(w[k])
  {
    RunEnd(w, (c: char) => !IsAlphanumeric(c), 0)
  }

  function TrimEnd(w: Text, from: nat, b: nat): (e: nat)
    requires from <= b <= |w|
    ensures from <= e <= b && (from < e ==> IsAlphanumeric(w[e - 1]))
    ensures forall k :: e <= k < b ==> !IsAlphanumeric(w[k])
  {
    if from < b && !IsAlphanumeric(w[b - 1]) then TrimEnd(w, from, b - 1) else b
  }

  function TrimStop(w: Text): (b: nat)
    ensures TrimStart(w) <= b <= |w| && (TrimStart(w) < b ==> IsAlphanumeric(w[b - 1]))
    ensures forall k :: b <= k < |w| ==> !IsAlphanumeric(w[k])
  {
    TrimEnd(w, TrimStart(w), |w|)
  }

  function Trim(w: Text): Text {
    w[TrimStart(w)..TrimStop(w)]
  }

  /** Drop short words, trim the others, drop what is then empty. */
  function Clean(words: seq<Text>): seq<Text> {
    if words == [] then []
    else (if |words[0]| > 2 && Trim(words[0]) != [] then [Trim(words[0])] else []) + Clean(words[1..])
  }

  function TokenizeQuery(query: Text): seq<Text> {
    Clean(SplitWhitespace(Lower(query), 0))
  }

  /** A maximal stretch without whitespace. */
  predicate Word(s: Text, a: nat, b: nat) {
    && a < b <= |s| && All(s[a..b], IsSolid)
    && (a == 0 || IsSpace(s[a - 1])) && (b == |s| || IsSpace(s[b]))
  }

  /** `w` is a word at position `i` or later. */
  ghost predicate HasWord(s: Text, i: nat, w: Text) {
    exists a: nat, b: nat :: i <= a && Word(s, a, b) && w == s[a..b]
  }

  lemma WordEnd(s: Text, a: nat, b: nat)
    requires Word(s, a, b)
    ensures b == RunEnd(s, IsSolid, a)
  {
    AllBetween(s, IsSolid, a, b);
  }

  lemma WordApart(s: Text, i: nat, e: nat, a: nat, b: nat)
    requires Word(s, i, e) && Word(s, a, b) && i < a
    ensures e < a
  {
    AllBetween(s, IsSolid, i, e);
  }

  lemma {:induction false} SplitFinds(s: Text, i: nat, w: Text)
    requires i <= |s|
    requires i == 0 || i == |s| || IsSpace(s[i]) || IsSpace(s[i - 1])
    ensures w in SplitWhitespace(s, i) <==> HasWord(s, i, w)
    decreases |s| - i
  {
    if i < |s| {
      if IsSpace(s[i]) {
        SplitFinds(s, i + 1, w);
        forall a: nat, b: nat | i <= a && Word(s, a, b) && w == s[a..b] ensures i < a {
          assert s[a..b][0] == s[a];
        }
      } else {
        var e := RunEnd(s, IsSolid, i);
        assert Word(s, i, e);
        SplitFinds(s, e, w);
        forall a: nat, b: nat | i <= a && Word(s, a, b) && w == s[a..b] ensures w in SplitWhitespace(s, i) {
          if a == i {
            WordEnd(s, a, b);
          } else {
            WordApart(s, i, e, a, b);
          }
        }
      }
    }
  }

  lemma {:induction false} CleanHas(words: seq<Text>, t: Text)
    ensures t in Clean(words) <==> t != [] && exists w :: w in words && |w| > 2 && t == Trim(w)
  {
    if words != [] {
      CleanHas(words[1..], t);
      assert forall w :: w in words <==> w == words[0] || w in words[1..];
    }
  }

  /** A query's tokens are the trimmed words of three characters or more: the length is taken before trimming. */
  lemma QueryTokens(query: Text, t: Text)
    ensures t in TokenizeQuery(query) <==> t != [] && exists w :: HasWord(Lower(query), 0, w) && |w| > 2 && t == Trim(w)
  {
    var s := Lower(query);
    CleanHas(SplitWhitespace(s, 0), t);
    forall w ensures w in SplitWhitespace(s, 0) <==> HasWord(s, 0, w) {
      SplitFinds(s, 0, w);
    }
  }

  // ---- Agreement ----

  lemma TrimLetters(w: Text)
    requires All(w, IsAlphanumeric)
    ensures Trim(w) == w
  {
    if w != [] {
      assert TrimStart(w) == 0 && TrimStop(w) == |w|;
    }
  }

  predicate IsLowerLetter(c: char) { 'a' <= c <= 'z' }

  /** What documents can be indexed under. */
  predicate Indexable(t: Text) {
    |t| > 2 && All(t, IsLowerLetter)
  }

  lemma LowerFixed(t: Text)
    requires All(t, IsLowerLetter)
    ensures Lower(t) == t
  {
  }

  lemma LowerLetter(c: Ascii)
    requires IsLetter(LowerChar(c))
    ensures IsLowerLetter(LowerChar(c))
  {
  }

  lemma LowerLetters(s: Text, a: nat, b: nat)
    requires a <= b <= |s| && All(Lower(s)[a..b], IsLetter)
    ensures All(Lower(s)[a..b], IsLowerLetter)
  {
    var r := Lower(s);
    forall k | 0 <= k < b - a ensures IsLowerLetter(r[a..b][k]) {
      assert IsLetter(r[a..b][k]) && r[a..b][k] == r[a + k] == LowerChar(s[a + k]);
      LowerLetter(s[a + k]);
    }
  }

  /** A text occurs as a token of some document exactly when it is three or more lower-case letters. */
  lemma IndexableExactly(t: Text)
    ensures Indexable(t) <==> exists text :: t in TokenizeText(text)
  {
    if Indexable(t) {
      LowerFixed(t);
      assert t[0..|t|] == t;
      assert Match(t, 0, |t|);
      TextTokens(t, t);
    }
    if text :| t in TokenizeText(text) {
      TextTokens(text, t);
      var a: nat, b: nat :| 0 <= a && Match(Lower(text), a, b) && t == Lower(text)[a..b];
      LowerLetters(text, a, b);
    }
  }

  /** Searching for an indexed token looks up exactly that token. */
  lemma IndexedTokenFindsItself(text: Text, t: Text)
    requires t in TokenizeText(text)
    ensures TokenizeQuery(t) == [t]
  {
    IndexableExactly(t);
    LowerFixed(t);
    SingleWordQuery(t);
    TrimLetters(t);
  }

  // ---- Exactly when a single word is treated alike ----

  /** What is left of the word touches no underscore, which the expression counts as part of a word. */
  predicate TouchesNoUnderscore(s: Text) {
    var a, b := TrimStart(s), TrimStop(s);
    (a == 0 || s[a - 1] != '_') && (b == |s| || s[b] != '_')
  }

  /** A match lies within what trimming leaves. */
  lemma MatchWithinTrim(s: Text, x: nat, y: nat)
    requires Match(s, x, y)
    ensures TrimStart(s) <= x && y <= TrimStop(s)
  {
    assert s[x] == s[x..y][0] && s[y - 1] == s[x..y][y - 1 - x];
    assert IsAlphanumeric(s[x]) && IsAlphanumeric(s[y - 1]);
  }

  lemma TrimMatches(s: Text)
    requires Trim(s) != []
    ensures Match(s, TrimStart(s), TrimStop(s)) <==> All(Trim(s), IsLetter) && TouchesNoUnderscore(s)
  {
    var a, b := TrimStart(s), TrimStop(s);
    TrimBoundaries(s, a, b);
    assert Match(s, a, b) <==> Boundary(s, a) && All(Trim(s), IsLetter) && Boundary(s, b);
  }

  /** Characters past the trimming are no letters or digits; those at its ends are. */
  lemma TrimBoundaries(s: Text, a: nat, b: nat)
    requires a < b <= |s| && IsAlphanumeric(s[a]) && IsAlphanumeric(s[b - 1])
    requires (a == 0 || !IsAlphanumeric(s[a - 1])) && (b == |s| || !IsAlphanumeric(s[b]))
    ensures Boundary(s, a) <==> a == 0 || s[a - 1] != '_'
    ensures Boundary(s, b) <==> b == |s| || s[b] != '_'
  {
  }

  /** If what trimming leaves is matched, nothing else is. */
  lemma TrimMatchesAlone(s: Text, x: nat, y: nat)
    requires Match(s, TrimStart(s), TrimStop(s))
    requires Match(s, x, y)
    ensures s[x..y] == Trim(s)
  {
    var a, b := TrimStart(s), TrimStop(s);
    MatchWithinTrim(s, x, y);
    if a < x {
      MatchApart(s, a, b, x, y);
      assert false;
    }
    MatchEnd(s, a, b);
    MatchEnd(s, x, y);
  }

  /** The matches of a word of which something is left: what is left occurs among them exactly when it is matched itself. */
  lemma TrimMatched(s: Text, w: Text)
    requires Trim(s) != []
    ensures var ok := All(Trim(s), IsLetter) && TouchesNoUnderscore(s);
            (Matched(s, 0, Trim(s)) <==> ok) && (ok ==> (Matched(s, 0, w) <==> w == Trim(s)))
  {
    var a, b := TrimStart(s), TrimStop(s);
    TrimMatches(s);
    if Matched(s, 0, Trim(s)) {
      var x: nat, y: nat :| 0 <= x && Match(s, x, y) && Trim(s) == s[x..y];
      MatchWithinTrim(s, x, y);
      assert x == a && y == b;
    }
    if Match(s, a, b) && Matched(s, 0, w) {
      var x: nat, y: nat :| 0 <= x && Match(s, x, y) && w == s[x..y];
      TrimMatchesAlone(s, x, y);
    }
  }

  lemma NothingMatched(s: Text, w: Text)
    requires |s| <= 2 || Trim(s) == []
    ensures !(|w| > 2 && Matched(s, 0, w))
  {
    if |w| > 2 && Matched(s, 0, w) {
      var x: nat, y: nat :| 0 <= x && Match(s, x, y) && w == s[x..y];
      MatchWithinTrim(s, x, y);
      assert false;
    }
  }

  lemma SingleWordQuery(word: Text)
    requires All(word, IsSolid)
    ensures var s := Lower(word);
            TokenizeQuery(word) == if |s| > 2 && Trim(s) != [] then [Trim(s)] else []
  {
    var s := Lower(word);
    assert All(s, IsSolid);
    if s != [] {
      assert RunEnd(s, IsSolid, 0) == |s| && s[0..|s|] == s;
      assert SplitWhitespace(s, 0) == [s] + SplitWhitespace(s, |s|) == [s];
      assert Clean([s]) == (if |s| > 2 && Trim(s) != [] then [Trim(s)] else []) + Clean([]);
    }
  }

  lemma NoTextTokens(word: Text)
    requires |Lower(word)| <= 2 || Trim(Lower(word)) == []
    ensures TokenizeText(word) == {}
  {
    forall w ensures w !in TokenizeText(word) {
      TextTokens(word, w);
      NothingMatched(Lower(word), w);
    }
  }

  /** What trimming leaves is three or more letters that touch no underscore. */
  predicate TrimsToToken(s: Text) {
    |Trim(s)| > 2 && All(Trim(s), IsLetter) && TouchesNoUnderscore(s)
  }

  /** What the two tokenizers agree on. */
  predicate IsAgreed(w: Text) {
    |w| <= 2 || Trim(w) == [] || TrimsToToken(w)
  }

  lemma TrimIsToken(word: Text)
    ensures Trim(Lower(word)) in TokenizeText(word) <==> TrimsToToken(Lower(word))
  {
    TextTokens(word, Trim(Lower(word)));
    if Trim(Lower(word)) != [] {
      TrimMatched(Lower(word), Trim(Lower(word)));
    }
  }

  lemma TrimIsOnlyToken(word: Text, w: Text)
    requires TrimsToToken(Lower(word)) && w in TokenizeText(word)
    ensures w == Trim(Lower(word))
  {
    TextTokens(word, w);
    TrimMatched(Lower(word), w);
  }

  lemma OneTextToken(word: Text)
    ensures TokenizeText(word) == {Trim(Lower(word))} <==> TrimsToToken(Lower(word))
  {
    var t := Trim(Lower(word));
    TrimIsToken(word);
    assert t in {t};
    if TrimsToToken(Lower(word)) {
      forall w | w in TokenizeText(word) ensures w == t {
        TrimIsOnlyToken(word, w);
      }
    }
  }

  /**
   For a single word the two tokenizers agree exactly when it is too short, when trimming leaves nothing, or when it
   leaves three or more letters that touch no underscore. They differ on `a!!`, `abc1`, `it's` and `_abc`.
   */
  lemma WordAgreesExactly(word: Text)
    requires All(word, IsSolid)
    ensures var s := Lower(word);
            (set t | t in TokenizeQuery(word)) == TokenizeText(word) <==> IsAgreed(s)
  {
    var s := Lower(word);
    SingleWordQuery(word);
    if |s| <= 2 || Trim(s) == [] {
      NoTextTokens(word);
    } else {
      assert (set t | t in TokenizeQuery(word)) == {Trim(s)};
      OneTextToken(word);
    }
  }

  // ---- Texts whose words are all treated alike ----

  /** The first position of the stretch that satisfies `p` and ends at `i`. */
  function RunStart(s: Text, p: char -> bool, i: nat): (a: nat)
    requires i <= |s|
    ensures a <= i
    ensures forall k :: a <= k < i ==> p(s[k])
    ensures a > 0 ==> !p(s[a - 1])
  {
    if i > 0 && p(s[i - 1]) then RunStart(s, p, i - 1) else i
  }

  /** Every match lies in one word. */
  lemma MatchInWord(s: Text, x: nat, y: nat) returns (a: nat, b: nat)
    requires Match(s, x, y)
    ensures Word(s, a, b) && a <= x && y <= b
  {
    AllBetween(s, IsLetter, x, y);
    a, b := RunStart(s, IsSolid, x), RunEnd(s, IsSolid, y);
    assert forall k :: a <= k < b ==> IsSolid(s[k]);
    assert forall k :: 0 <= k < b - a ==> s[a..b][k] == s[a + k];
  }

  lemma BoundaryInWord(s: Text, a: nat, b: nat, x: nat)
    requires Word(s, a, b) && a <= x <= b
    ensures Boundary(s, x) == Boundary(s[a..b], x - a)
  {
    assert x > a ==> s[a..b][x - a - 1] == s[x - 1];
    assert x < b ==> s[a..b][x - a] == s[x];
  }

  lemma SliceOfSlice<T>(s: seq<T>, a: nat, b: nat, x: nat, y: nat)
    requires a <= x <= y <= b <= |s|
    ensures s[a..b][x - a..y - a] == s[x..y]
  {
    forall k | 0 <= k < y - x ensures s[a..b][x - a..y - a][k] == s[x..y][k] {
      assert s[a..b][x - a + k] == s[x + k];
    }
  }

  /** Matching inside a word does not look beyond it. */
  lemma MatchShift(s: Text, a: nat, b: nat, x: nat, y: nat)
    requires Word(s, a, b) && a <= x <= y <= b
    ensures Match(s, x, y) <==> Match(s[a..b], x - a, y - a)
  {
    BoundaryInWord(s, a, b, x);
    BoundaryInWord(s, a, b, y);
    SliceOfSlice(s, a, b, x, y);
  }

  lemma MatchedInWord(s: Text, a: nat, b: nat, t: Text)
    requires Word(s, a, b) && Matched(s[a..b], 0, t)
    ensures Matched(s, 0, t)
  {
    var x: nat, y: nat :| 0 <= x && Match(s[a..b], x, y) && t == s[a..b][x..y];
    SliceOfSlice(s, a, b, a + x, a + y);
    MatchOutside(s, a, b, x, y);
  }

  lemma MatchOutside(s: Text, a: nat, b: nat, x: nat, y: nat)
    requires Word(s, a, b) && Match(s[a..b], x, y)
    ensures Match(s, a + x, a + y)
  {
    MatchShift(s, a, b, a + x, a + y);
  }

  lemma MatchedHasWord(s: Text, t: Text) returns (w: Text)
    requires Matched(s, 0, t)
    ensures HasWord(s, 0, w) && Matched(w, 0, t)
  {
    var x: nat, y: nat :| 0 <= x && Match(s, x, y) && t == s[x..y];
    var a, b := MatchInWord(s, x, y);
    w := s[a..b];
    MatchShift(s, a, b, x, y);
    SliceOfSlice(s, a, b, x, y);
    assert w[x - a..y - a] == t;
  }

  /** An agreed word gives both tokenizers the same tokens. */
  lemma AgreedGives(w: Text, t: Text)
    requires IsAgreed(w)
    ensures |t| > 2 && Matched(w, 0, t) <==> t != [] && |w| > 2 && t == Trim(w)
  {
    if |w| <= 2 || Trim(w) == [] {
      NothingMatched(w, t);
    } else {
      TrimMatched(w, t);
    }
  }

  lemma AgreedToken(text: Text, t: Text)
    requires forall w :: HasWord(Lower(text), 0, w) ==> IsAgreed(w)
    ensures t in TokenizeQuery(text) <==> t in TokenizeText(text)
  {
    var s := Lower(text);
    TextTokens(text, t);
    QueryTokens(text, t);
    if t in TokenizeText(text) {
      var w := MatchedHasWord(s, t);
      AgreedGives(w, t);
    }
    if t in TokenizeQuery(text) {
      var w :| HasWord(s, 0, w) && |w| > 2 && t == Trim(w);
      AgreedGives(w, t);
      var a: nat, b: nat :| 0 <= a && Word(s, a, b) && w == s[a..b];
      MatchedInWord(s, a, b, t);
    }
  }

  /** On a text each word of which is agreed, the two tokenizers produce the same tokens. */
  lemma TextAgrees(text: Text)
    requires forall w :: HasWord(Lower(text), 0, w) ==> IsAgreed(w)
    ensures (set t | t in TokenizeQuery(text)) == TokenizeText(text)
  {
    forall t ensures t in TokenizeQuery(text) <==> t in TokenizeText(text) {
      AgreedToken(text, t);
    }
  }

  predicate IsPlain(c: char) { IsLetter(c) || IsSpace(c) }

  lemma PlainWord(s: Text, w: Text)
    requires All(s, IsPlain) && HasWord(s, 0, w)
    ensures IsAgreed(w)
  {
    var a: nat, b: nat :| 0 <= a && Word(s, a, b) && w == s[a..b];
    assert forall k :: 0 <= k < b - a ==> w[k] == s[a + k];
    TrimLetters(w);
    assert TrimStart(w) == 0 && TrimStop(w) == |w|;
  }

  /** In particular on letters and whitespace. */
  lemma TokenizersAgree(text: Text)
    requires All(text, IsPlain)
    ensures (set t | t in TokenizeQuery(text)) == TokenizeText(text)
  {
    assert All(Lower(text), IsPlain);
    forall w | HasWord(Lower(text), 0, w) ensures IsAgreed(w) {
      PlainWord(Lower(text), w);
    }
    TextAgrees(text);
  }

  // ---- Letter case does not matter ----

  /** Upper and lower case of one letter, or the same character. */
  predicate IsTwin(x: char, y: char) {
    x == y || ('A' <= x <= 'Z' && y as int == x as int + 32) || ('A' <= y <= 'Z' && x as int == y as int + 32)
  }

  /** The texts agree up to the case of letters. */
  predicate AreTwins(s: Text, t: Text) {
    |s| == |t| && forall k :: 0 <= k < |s| ==> IsTwin(s[k], t[k])
  }

  lemma TwinChars(x: Ascii, y: Ascii)
    requires IsTwin(x, y)
    ensures LowerChar(x) == LowerChar(y)
  {
  }

  lemma LowerIsTwin(x: Ascii)
    ensures IsTwin(x, LowerChar(x)) && !('A' <= LowerChar(x) <= 'Z')
  {
  }

  lemma TwinsLower(s: Text, t: Text)
    requires AreTwins(s, t)
    ensures Lower(s) == Lower(t)
  {
    forall k | 0 <= k < |s| ensures Lower(s)[k] == Lower(t)[k] {
      TwinChars(s[k], t[k]);
    }
  }

  lemma LowerTwins(s: Text)
    ensures AreTwins(s, Lower(s)) && forall k :: 0 <= k < |s| ==> !('A' <= Lower(s)[k] <= 'Z')
  {
    forall k | 0 <= k < |s| ensures IsTwin(s[k], Lower(s)[k]) && !('A' <= Lower(s)[k] <= 'Z') {
      LowerIsTwin(s[k]);
    }
  }

  /** Texts that agree up to the case of letters have the same tokens, as documents and as queries. */
  lemma CaseIsIrrelevant(s: Text, t: Text)
    requires AreTwins(s, t)
    ensures TokenizeText(s) == TokenizeText(t) && TokenizeQuery(s) == TokenizeQuery(t)
  {
    TwinsLower(s, t);
  }

  lemma SliceOfLower(s: Text, a: nat, b: nat)
    requires a <= b <= |s|
    ensures AreTwins(s[a..b], Lower(s)[a..b])
  {
    LowerTwins(s);
    forall k | 0 <= k < b - a ensures IsTwin(s[a..b][k], Lower(s)[a..b][k]) {
      assert s[a..b][k] == s[a + k] && Lower(s)[a..b][k] == Lower(s)[a + k];
    }
  }

  /** A document's token is a stretch of its text in lower case. */
  lemma TokenIsInText(text: Text, t: Text) returns (a: nat, b: nat)
    requires t in TokenizeText(text)
    ensures a <= b <= |text| && AreTwins(text[a..b], t) && All(t, IsLowerLetter)
  {
    TextTokens(text, t);
    a, b :| 0 <= a && Match(Lower(text), a, b) && t == Lower(text)[a..b];
    SliceOfLower(text, a, b);
    LowerLetters(text, a, b);
  }

  /** A stretch of three or more letters with no word character next to it. */
  predicate StandsAlone(s: Text, a: nat, b: nat) {
    && a + 3 <= b <= |s| && (forall k :: a <= k < b ==> IsLetter(s[k]))
    && (a == 0 || !IsWordChar(s[a - 1])) && (b == |s| || !IsWordChar(s[b]))
  }

  /** A document's tokens are, in lower case, exactly the stretches of its text that stand alone. */
  lemma TextTokensAre(text: Text, t: Text)
    ensures t in TokenizeText(text)
            <==> All(t, IsLowerLetter) && exists a: nat, b: nat :: StandsAlone(text, a, b) && AreTwins(text[a..b], t)
  {
    if t in TokenizeText(text) {
      var a, b := TokenStandsAlone(text, t);
    }
    if a: nat, b: nat :| StandsAlone(text, a, b) && AreTwins(text[a..b], t) && All(t, IsLowerLetter) {
      AloneIsToken(text, t, a, b);
    }
  }

  lemma TokenStandsAlone(text: Text, t: Text) returns (a: nat, b: nat)
    requires t in TokenizeText(text)
    ensures StandsAlone(text, a, b) && AreTwins(text[a..b], t) && All(t, IsLowerLetter)
  {
    TextTokens(text, t);
    a, b :| Match(Lower(text), a, b) && t == Lower(text)[a..b];
    SliceOfLower(text, a, b);
    LowerLetters(text, a, b);
    AloneIs(text, a, b);
  }

  lemma AloneIsToken(text: Text, t: Text, a: nat, b: nat)
    requires StandsAlone(text, a, b) && AreTwins(text[a..b], t) && All(t, IsLowerLetter)
    ensures t in TokenizeText(text)
  {
    LowerFoldsTo(text[a..b], t);
    LowerSlice(text, a, b);
    AloneIs(text, a, b);
    TextTokens(text, t);
  }

  lemma LowerSlice(s: Text, a: nat, b: nat)
    requires a <= b <= |s|
    ensures Lower(s[a..b]) == Lower(s)[a..b]
  {
  }

  lemma ClassKept(c: Ascii)
    ensures (IsLetter(LowerChar(c)) <==> IsLetter(c)) && (IsWordChar(LowerChar(c)) <==> IsWordChar(c))
  {
  }

  lemma AllLetters(s: Text, a: nat, b: nat)
    requires a <= b <= |s|
    ensures All(Lower(s)[a..b], IsLetter) <==> forall k :: a <= k < b ==> IsLetter(s[k])
  {
    var low := Lower(s);
    forall k | a <= k < b ensures IsLetter(low[a..b][k - a]) <==> IsLetter(s[k]) {
      ClassKept(s[k]);
    }
  }

  /** Between a letter and its other neighbour, a boundary is the absence of a word character. */
  lemma BoundaryIs(s: Text, i: nat)
    requires i <= |s|
    ensures i < |s| && IsLetter(s[i]) ==> (Boundary(Lower(s), i) <==> i == 0 || !IsWordChar(s[i - 1]))
    ensures 0 < i && IsLetter(s[i - 1]) ==> (Boundary(Lower(s), i) <==> i == |s| || !IsWordChar(s[i]))
  {
    if i < |s| { ClassKept(s[i]); }
    if i > 0 { ClassKept(s[i - 1]); }
  }

  lemma AloneIs(s: Text, a: nat, b: nat)
    requires a + 3 <= b <= |s|
    ensures StandsAlone(s, a, b) <==> Match(Lower(s), a, b)
  {
    AllLetters(s, a, b);
    BoundaryIs(s, a);
    BoundaryIs(s, b);
  }

  lemma LowerFoldsTo(s: Text, t: Text)
    requires AreTwins(s, t) && All(t, IsLowerLetter)
    ensures Lower(s) == t
  {
    TwinsLower(s, t);
    LowerFixed(t);
  }

  /** A query's token is a stretch of the query without capitals. */
  lemma TokenIsInQuery(query: Text, t: Text) returns (a: nat, b: nat)
    requires t in TokenizeQuery(query)
    ensures a <= b <= |query| && AreTwins(query[a..b], t)
  {
    var low := Lower(query);
    QueryTokens(query, t);
    var w :| HasWord(low, 0, w) && |w| > 2 && t == Trim(w);
    var x: nat, y: nat :| Word(low, x, y) && w == low[x..y];
    a, b := TrimmedSlice(low, x, y);
    SliceOfLower(query, a, b);
  }

  lemma TrimmedSlice(s: Text, x: nat, y: nat) returns (a: nat, b: nat)
    requires x <= y <= |s|
    ensures a <= b <= |s| && s[a..b] == Trim(s[x..y])
  {
    a, b := x + TrimStart(s[x..y]), x + TrimStop(s[x..y]);
    SliceOfSlice(s, x, y, a, b);
  }

  // ---- A query keeps its terms in order, repeated ones included ----

  /** The words of the text from position `i` on, as their ends, in order. */
  function Places(s: Text, i: nat): (places: seq<(nat, nat)>)
    requires i <= |s|
    decreases |s| - i
  {
    if i == |s| then []
    else if IsSpace(s[i]) then Places(s, i + 1)
    else var e := RunEnd(s, IsSolid, i); [(i, e)] + Places(s, e)
  }

  /** `places` are exactly the words from `i` on, each once, from left to right. */
  ghost predicate AreWords(s: Text, i: nat, places: seq<(nat, nat)>) {
    && (forall j :: 0 <= j < |places| ==> i <= places[j].0 && Word(s, places[j].0, places[j].1))
    && (forall j, k :: 0 <= j < k < |places| ==> places[j].1 < places[k].0)
    && (forall a: nat, b: nat :: i <= a && Word(s, a, b) ==> (a, b) in places)
  }

  /** The places and the stretches of the split are the same. */
  ghost predicate SameWords(s: Text, places: seq<(nat, nat)>, words: seq<Text>) {
    |places| == |words|
    && forall j :: 0 <= j < |places| ==> places[j].0 <= places[j].1 <= |s| && words[j] == s[places[j].0..places[j].1]
  }

  lemma {:induction false} PlacesAreSplit(s: Text, i: nat)
    requires i <= |s|
    ensures SameWords(s, Places(s, i), SplitWhitespace(s, i))
    decreases |s| - i
  {
    if i < |s| {
      if IsSpace(s[i]) {
        PlacesAreSplit(s, i + 1);
      } else {
        PlacesAreSplit(s, RunEnd(s, IsSolid, i));
      }
    }
  }

  lemma {:induction false} PlacesAreWords(s: Text, i: nat)
    requires i <= |s| && (i == 0 || i == |s| || IsSpace(s[i]) || IsSpace(s[i - 1]))
    ensures AreWords(s, i, Places(s, i))
    decreases |s| - i
  {
    if i < |s| {
      if IsSpace(s[i]) {
        PlacesAreWords(s, i + 1);
        NoWordHere(s, i, Places(s, i + 1));
      } else {
        var e := RunEnd(s, IsSolid, i);
        assert Word(s, i, e);
        PlacesAreWords(s, e);
        OneMoreWord(s, i, e, Places(s, e));
      }
    }
  }

  lemma NoWordHere(s: Text, i: nat, rest: seq<(nat, nat)>)
    requires i < |s| && IsSpace(s[i]) && AreWords(s, i + 1, rest)
    ensures AreWords(s, i, rest)
  {
    forall a: nat, b: nat | i <= a && Word(s, a, b) ensures i < a {
      assert s[a..b][0] == s[a];
    }
  }

  lemma OneMoreWord(s: Text, i: nat, e: nat, rest: seq<(nat, nat)>)
    requires Word(s, i, e) && AreWords(s, e, rest)
    ensures AreWords(s, i, [(i, e)] + rest)
  {
    var places := [(i, e)] + rest;
    forall j | 0 <= j < |rest| ensures e < rest[j].0 {
      WordApart(s, i, e, rest[j].0, rest[j].1);
    }
    assert forall j :: 0 < j < |places| ==> places[j] == rest[j - 1];
    forall a: nat, b: nat | i <= a && Word(s, a, b) ensures (a, b) in places {
      if a == i {
        WordEnd(s, a, b);
        WordEnd(s, i, e);
        assert places[0] == (a, b);
      } else {
        WordApart(s, i, e, a, b);
        assert (a, b) in rest;
      }
    }
  }

  /** The words that give a token, and the tokens they give. */
  predicate GivesToken(w: Text) {
    |w| > 2 && Trim(w) != []
  }

  /** `from` picks, in order, every word that gives a token, and `tokens` are these tokens. */
  ghost predicate PicksTokens(words: seq<Text>, from: seq<nat>, tokens: seq<Text>) {
    && |from| == |tokens|
    && (forall j :: 0 <= j < |from| ==> from[j] < |words| && GivesToken(words[from[j]]) && tokens[j] == Trim(words[from[j]]))
    && (forall j, k :: 0 <= j < k < |from| ==> from[j] < from[k])
    && (forall n: nat :: n < |words| && GivesToken(words[n]) ==> n in from)
  }

  lemma {:induction false} CleanPicks(words: seq<Text>) returns (from: seq<nat>)
    ensures PicksTokens(words, from, Clean(words))
  {
    from := [];
    if words != [] {
      var init, last := words[..|words| - 1], words[|words| - 1];
      CleanSnoc(init, last);
      assert init + [last] == words;
      from := CleanPicks(init);
      PicksSnoc(init, last, from, Clean(init));
      if GivesToken(last) {
        from := from + [|init|];
      }
    }
  }

  lemma {:induction false} CleanSnoc(words: seq<Text>, w: Text)
    ensures Clean(words + [w]) == Clean(words) + (if GivesToken(w) then [Trim(w)] else [])
  {
    if words == [] {
      assert [] + [w] == [w] && [w][1..] == [];
    } else {
      CleanSnoc(words[1..], w);
      assert (words + [w])[1..] == words[1..] + [w];
    }
  }

  lemma PicksSnoc(words: seq<Text>, w: Text, from: seq<nat>, tokens: seq<Text>)
    requires PicksTokens(words, from, tokens)
    ensures if GivesToken(w) then PicksTokens(words + [w], from + [|words|], tokens + [Trim(w)])
            else PicksTokens(words + [w], from, tokens)
  {
    var more := words + [w];
    assert forall n: nat :: n < |words| ==> more[n] == words[n];
    if GivesToken(w) {
      forall n: nat | n < |more| && GivesToken(more[n]) ensures n in from + [|words|] {
        if n < |words| { assert n in from; }
      }
    }
  }

  /**
   A query's tokens, position by position: the trimmed words that are longer than two characters and of which something
   is left, all of them, from left to right, repetitions included.
   */
  lemma QueryTokensInOrder(query: Text) returns (places: seq<(nat, nat)>, words: seq<Text>, from: seq<nat>)
    ensures AreWords(Lower(query), 0, places) && SameWords(Lower(query), places, words)
    ensures PicksTokens(words, from, TokenizeQuery(query))
  {
    places, words := Places(Lower(query), 0), SplitWhitespace(Lower(query), 0);
    PlacesAreWords(Lower(query), 0);
    PlacesAreSplit(Lower(query), 0);
    from := CleanPicks(words);
  }

  // ---- The character classes ----

  /** The characters that count as whitespace, letters, letters or digits, and word characters, by their codes. */
  lemma ClassesAre(c: Ascii)
    ensures IsSpace(c) <==> c as int in {9, 10, 11, 12, 13, 32}
    ensures IsLetter(c) <==> 65 <= c as int <= 90 || 97 <= c as int <= 122
    ensures IsAlphanumeric(c) <==> IsLetter(c) || 48 <= c as int <= 57
    ensures IsWordChar(c) <==> IsAlphanumeric(c) || c as int == 95
  {
  }

  /** Trimming takes everything but letters and digits off both ends, and nothing more. */
  lemma TrimIs(w: Text)
    ensures var a, b := TrimStart(w), TrimStop(w);
            && a <= b <= |w| && Trim(w) == w[a..b]
            && (forall k :: 0 <= k < a || b <= k < |w| ==> !IsAlphanumeric(w[k]))
            && (Trim(w) != [] ==> IsAlphanumeric(Trim(w)[0]) && IsAlphanumeric(Trim(w)[|Trim(w)| - 1]))
  {
  }
}
