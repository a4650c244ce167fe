/**
 * Turning text into query terms, and terms into a quoted FTS expression (src/search/terms.ts).
 * The token pattern is followed character by character; a reader of quoted strings, with doubled
 * quotes undone, says what a printed expression means.
 */
module Terms {
  import opened Prelude
  import opened StopWords

  predicate Lower(c: char) {
    'a' <= c <= 'z'
  }

  predicate Digit(c: char) {
    '0' <= c <= '9'
  }

  /** Letters, digits and underscore of any script; a-z and 0-9 are always among them. */
  type WordChars = char -> bool

  ghost predicate Sensible(word: WordChars) {
    (forall c :: Lower(c) || Digit(c) ==> word(c)) && !word('-')
  }

  /** The length of the leading run of characters satisfying `p`. */
  function RunLength(s: string, p: char -> bool): (n: nat)
    ensures n <= |s|
  {
    if s == "" || !p(s[0]) then 0 else 1 + RunLength(s[1..], p)
  }

  /** The length of a task id at the start of `s`, 0 if there is none. */
  function IdLength(s: string): (n: nat)
    ensures n <= |s|
  {
    var letters := RunLength(s, Lower);
    if letters == 0 || letters == |s| || s[letters] != '-' then 0
    else
      var digits := RunLength(s[letters + 1..], Digit);
      if digits == 0 then 0 else letters + 1 + digits
  }

  predicate IsTaskId(token: string) {
    token != "" && IdLength(token) == |token|
  }

  /** The length of a match of TOKEN at the start of `s`: a task id before a plain word. */
  function TokenLength(s: string, word: WordChars): (n: nat)
    ensures n <= |s|
  {
    if IdLength(s) > 0 then IdLength(s) else RunLength(s, word)
  }

  /** All matches of TOKEN, left to right. */
  function Matches(s: string, word: WordChars): seq<string> {
    if s == "" then []
    else
      var n := TokenLength(s, word);
      if n == 0 then Matches(s[1..], word) else [s[..n]] + Matches(s[n..], word)
  }

  predicate LongEnough(token: string) {
    IsTaskId(token) || |token| > 2
  }

  /** Tokens of a lower-cased text. */
  function Tokenize(lowered: string, word: WordChars): seq<string> {
    Filter(Matches(lowered, word), LongEnough)
  }

  /** [...new Set(xs)]: first appearances, in order. */
  function Dedupe(xs: seq<string>): seq<string> {
    if xs == [] then []
    else
      var before := Dedupe(xs[..|xs| - 1]);
      if xs[|xs| - 1] in before then before else before + [xs[|xs| - 1]]
  }

  function MeaningfulTerms(lowered: string, word: WordChars): seq<string> {
    Dedupe(Filter(Tokenize(lowered, word), (t: string) => !IsStopWord(t)))
  }

  // --- Task ids stay whole ---------------------------------------------------------

  lemma {:induction false} RunStops(pre: string, rest: string, p: char -> bool)
    requires pre != "" && !p(pre[|pre| - 1])
    ensures RunLength(pre + rest, p) == RunLength(pre, p) < |pre|
  {
    if p(pre[0]) {
      assert (pre + rest)[1..] == pre[1..] + rest;
      RunStops(pre[1..], rest, p);
    }
  }

  lemma {:induction false} RunWhole(s: string, rest: string, p: char -> bool)
    requires forall i :: 0 <= i < |s| ==> p(s[i])
    ensures RunLength(s + rest, p) == |s| + RunLength(rest, p)
  {
    if s == "" {
      assert s + rest == rest;
    } else {
      assert (s + rest)[1..] == s[1..] + rest;
      RunWhole(s[1..], rest, p);
    }
  }

  /** `pre` ends where no token can go on into `rest`. */
  predicate Boundary(pre: string, rest: string, word: WordChars) {
    pre == "" || (!word(pre[|pre| - 1]) && (rest == "" || pre[|pre| - 1] != '-' || !Digit(rest[0])))
  }

  lemma {:induction false} IdStopsAtBoundary(pre: string, rest: string, word: WordChars)
    requires Sensible(word) && Boundary(pre, rest, word) && pre != ""
    ensures IdLength(pre + rest) == IdLength(pre) < |pre|
  {
    var letters := RunLength(pre, Lower);
    RunStops(pre, rest, Lower);
    if letters > 0 && pre[letters] == '-' {
      var tail := pre[letters + 1..];
      assert (pre + rest)[letters + 1..] == tail + rest;
      if tail == "" {
        assert tail + rest == rest;
      } else {
        RunStops(tail, rest, Digit);
      }
    }
  }

  lemma {:induction false} MatchesConcat(pre: string, rest: string, word: WordChars)
    requires Sensible(word) && Boundary(pre, rest, word)
    ensures Matches(pre + rest, word) == Matches(pre, word) + Matches(rest, word)
    decreases |pre|
  {
    if pre == "" {
      assert pre + rest == rest;
    } else {
      TokenStopsAtBoundary(pre, rest, word);
      var n := TokenLength(pre, word);
      if n == 0 {
        assert (pre + rest)[1..] == pre[1..] + rest;
        MatchesConcat(pre[1..], rest, word);
      } else {
        assert (pre + rest)[n..] == pre[n..] + rest && (pre + rest)[..n] == pre[..n];
        MatchesConcat(pre[n..], rest, word);
        ConcatAssoc([pre[..n]], Matches(pre[n..], word), Matches(rest, word));
      }
    }
  }

  lemma {:induction false} TokenStopsAtBoundary(pre: string, rest: string, word: WordChars)
    requires Sensible(word) && Boundary(pre, rest, word) && pre != ""
    ensures TokenLength(pre + rest, word) == TokenLength(pre, word) < |pre|
  {
    IdStopsAtBoundary(pre, rest, word);
    RunStops(pre, rest, word);
  }

  lemma {:induction false} IdParts(id: string) returns (letters: nat)
    requires IsTaskId(id)
    ensures 0 < letters < |id| - 1 && id[letters] == '-'
    ensures forall i :: 0 <= i < letters ==> Lower(id[i])
    ensures forall i :: letters < i < |id| ==> Digit(id[i])
  {
    letters := RunLength(id, Lower);
    RunHolds(id, Lower);
    CutAt(id, letters + 1, "");
    RunHolds(id[letters + 1..], Digit);
    forall i | letters < i < |id| ensures Digit(id[i]) {
      assert id[letters + 1..][i - letters - 1] == id[i];
    }
  }

  const LETTERS := "abcdefghijklmnopqrstuvwxyz"
  const DIGITS := "0123456789"

  lemma {:induction false} CharactersAre(c: char)
    ensures Lower(c) <==> c in LETTERS
    ensures Digit(c) <==> c in DIGITS
  {
    if Lower(c) {
      assert LETTERS[c as int - 'a' as int] == c;
    }
    if Digit(c) {
      assert DIGITS[c as int - '0' as int] == c;
    }
  }

  ghost predicate Hyphened(t: string, k: nat) {
    && 0 < k < |t| - 1 && t[k] == '-'
    && (forall i :: 0 <= i < k ==> t[i] in LETTERS) && (forall i :: k < i < |t| ==> t[i] in DIGITS)
  }

  /** A task id is letters, a hyphen and digits, and nothing else. */
  lemma {:induction false} TaskIdIff(t: string)
    ensures IsTaskId(t) <==> exists k: nat :: Hyphened(t, k)
  {
    forall i | 0 <= i < |t| ensures (Lower(t[i]) <==> t[i] in LETTERS) && (Digit(t[i]) <==> t[i] in DIGITS) {
      CharactersAre(t[i]);
    }
    if IsTaskId(t) {
      var k := IdParts(t);
      assert Hyphened(t, k);
    }
    if k: nat :| Hyphened(t, k) {
      PartsAreId(t, k);
    }
  }

  lemma {:induction false} PartsAreId(t: string, k: nat)
    requires 0 < k < |t| - 1 && t[k] == '-'
    requires (forall i :: 0 <= i < k ==> Lower(t[i])) && (forall i :: k < i < |t| ==> Digit(t[i]))
    ensures IsTaskId(t)
  {
    assert t == t[..k] + t[k..];
    RunWhole(t[..k], t[k..], Lower);
    assert RunLength(t[k..], Lower) == 0;
    RunWhole(t[k + 1..], "", Digit);
    assert t[k + 1..] + "" == t[k + 1..];
  }

  lemma {:induction false} RunHolds(s: string, p: char -> bool)
    ensures forall i :: 0 <= i < RunLength(s, p) ==> p(s[i])
    ensures RunLength(s, p) < |s| ==> !p(s[RunLength(s, p)])
  {
    if s != "" && p(s[0]) {
      RunHolds(s[1..], p);
      assert forall i :: 0 < i < |s| ==> s[i] == s[1..][i - 1];
    }
  }

  lemma {:induction false} IdThen(id: string, post: string)
    requires IsTaskId(id) && (post == "" || !Digit(post[0]))
    ensures IdLength(id + post) == |id|
  {
    var letters := IdParts(id);
    CutAt(id, letters, post);
    CutAt(id, letters + 1, post);
    RunWhole(id[..letters], id[letters..] + post, Lower);
    assert RunLength(id[letters..] + post, Lower) == 0;
    RunWhole(id[letters + 1..], post, Digit);
    assert RunLength(post, Digit) == 0;
  }

  lemma {:induction false} IdMatches(pre: string, id: string, post: string, word: WordChars)
    requires Sensible(word) && IsTaskId(id)
    requires pre == "" || !word(pre[|pre| - 1])
    requires post == "" || !Digit(post[0])
    ensures id in Matches(pre + (id + post), word)
  {
    var letters := IdParts(id);
    IdThen(id, post);
    assert (id + post)[..|id|] == id && (id + post)[|id|..] == post;
    assert Matches(id + post, word) == [id] + Matches(post, word);
    MatchesConcat(pre, id + post, word);
  }

  /** Some leading part of `s` is letters, a hyphen and digits. */
  ghost predicate BeginsWithId(s: string) {
    exists n, k: nat :: 0 <= n <= |s| && Hyphened(s[..n], k)
  }

  lemma {:induction false} BeginsWithIdIff(s: string)
    ensures IdLength(s) > 0 <==> BeginsWithId(s)
  {
    if IdLength(s) > 0 {
      var n, k := IdLength(s), RunLength(s, Lower);
      RunHolds(s, Lower);
      RunHolds(s[k + 1..], Digit);
      forall i | 0 <= i < n && i != k ensures if i < k then s[i] in LETTERS else s[i] in DIGITS {
        CharactersAre(s[i]);
        assert i > k ==> s[i] == s[k + 1..][i - k - 1];
      }
      assert Hyphened(s[..n], k);
    }
    if BeginsWithId(s) {
      var n, k: nat :| 0 <= n <= |s| && Hyphened(s[..n], k);
      PartBeginsWithId(s, n, k);
    }
  }

  lemma {:induction false} PartBeginsWithId(s: string, n: nat, k: nat)
    requires n <= |s| && Hyphened(s[..n], k)
    ensures IdLength(s) > 0
  {
    forall i | 0 <= i < n && i != k ensures if i < k then Lower(s[i]) else Digit(s[i]) {
      assert s[..n][i] == s[i];
      CharactersAre(s[i]);
    }
    assert s == s[..k] + s[k..] && s[k] == '-';
    RunWhole(s[..k], s[k..], Lower);
    assert RunLength(s[k..], Lower) == 0;
    assert Digit(s[k + 1..][0]);
  }

  /** A run of word characters: what it stands between is no word character, and no id begins or ends in it. */
  ghost predicate PlainWord(pre: string, w: string, post: string, word: WordChars) {
    && w != "" && (forall i :: 0 <= i < |w| ==> word(w[i])) && Boundary(pre, w, word)
    && (post == "" || !word(post[0])) && !BeginsWithId(w + post)
  }

  lemma {:induction false} WordMatches(pre: string, w: string, post: string, word: WordChars)
    requires Sensible(word) && PlainWord(pre, w, post, word)
    ensures w in Matches(pre + (w + post), word)
  {
    BeginsWithIdIff(w + post);
    RunWhole(w, post, word);
    assert RunLength(post, word) == 0;
    assert (w + post)[..|w|] == w;
    assert Matches(w + post, word) == [w] + Matches((w + post)[|w|..], word);
    assert (w + post)[0] == w[0];
    MatchesConcat(pre, w + post, word);
  }

  lemma {:induction false} IdIsNoStopWord(id: string)
    requires IsTaskId(id)
    ensures !IsStopWord(id)
  {
    var letters := IdParts(id);
    assert Digit(id[|id| - 1]);
  }

  lemma {:induction false} DedupeIs(xs: seq<string>)
    ensures Distinct(Dedupe(xs)) && forall x :: x in Dedupe(xs) <==> x in xs
  {
    if xs != [] {
      var init := xs[..|xs| - 1];
      DedupeIs(init);
      assert xs == init + [xs[|xs| - 1]];
    }
  }

  /** The terms are exactly the tokens worth keeping, each once. */
  lemma {:induction false} TermsAre(lowered: string, word: WordChars)
    ensures Distinct(MeaningfulTerms(lowered, word))
    ensures forall t :: t in MeaningfulTerms(lowered, word) <==>
      t in Matches(lowered, word) && (IsTaskId(t) || |t| > 2) && !IsStopWord(t)
  {
    DedupeIs(Filter(Tokenize(lowered, word), (t: string) => !IsStopWord(t)));
  }

  /** A task id set off from the word before it and the digit after it is one token, and a term. */
  lemma {:induction false} IdsStayWhole(pre: string, id: string, post: string, word: WordChars)
    requires Sensible(word) && IsTaskId(id)
    requires pre == "" || !word(pre[|pre| - 1])
    requires post == "" || !Digit(post[0])
    ensures id in MeaningfulTerms(pre + (id + post), word)
  {
    IdMatches(pre, id, post, word);
    IdIsNoStopWord(id);
    TermsAre(pre + (id + post), word);
  }

  /** A word set apart, and no id, is a term exactly when it is longer than two and no stop word. */
  lemma {:induction false} WordIsTermIff(pre: string, w: string, post: string, word: WordChars)
    requires Sensible(word) && PlainWord(pre, w, post, word)
    ensures w in MeaningfulTerms(pre + (w + post), word) <==> |w| > 2 && !IsStopWord(w)
    ensures !IsTaskId(w)
  {
    WordMatches(pre, w, post, word);
    TermsAre(pre + (w + post), word);
    if IsTaskId(w) {
      var letters := IdParts(w);
    }
  }

  // --- The expression and how it reads back ----------------------------------------

  function Escape(s: string): string {
    if s == "" then "" else (if s[0] == '"' then "\"\"" else [s[0]]) + Escape(s[1..])
  }

  function Quote(term: string): string {
    "\"" + Escape(term) + "\""
  }

  const OR := " OR "

  function OrExpression(terms: seq<string>): string {
    if terms == [] then ""
    else if |terms| == 1 then Quote(terms[0])
    else Quote(terms[0]) + OR + OrExpression(terms[1..])
  }

  datatype Read = Read(term: string, rest: string)

  /** A quoted string after its opening quote: two quotes are one, one quote ends it. */
  function ReadQuoted(s: string): Option<Read> {
    if s == "" then None
    else if s[0] != '"' then
      match ReadQuoted(s[1..])
      case None => None
      case Some(r) => Some(Read([s[0]] + r.term, r.rest))
    else if |s| > 1 && s[1] == '"' then
      match ReadQuoted(s[2..])
      case None => None
      case Some(r) => Some(Read(['"'] + r.term, r.rest))
    else Some(Read("", s[1..]))
  }

  lemma {:induction false} ReadShortens(s: string)
    ensures ReadQuoted(s).Some? ==> |ReadQuoted(s).value.rest| < |s|
  {
    if s != "" && s[0] != '"' {
      ReadShortens(s[1..]);
    } else if |s| > 1 && s[1] == '"' {
      ReadShortens(s[2..]);
    }
  }

  /** Reads an OR of quoted strings. */
  function ReadOr(s: string): Option<seq<string>>
    decreases |s|
  {
    if s == "" then Some([])
    else if s[0] != '"' then None
    else
      match ReadQuoted(s[1..])
      case None => None
      case Some(r) =>
        if r.rest == "" then Some([r.term])
        else if |r.rest| <= |OR| || r.rest[..|OR|] != OR then None
        else
          ReadShortens(s[1..]);
          match ReadOr(r.rest[|OR|..])
          case None => None
          case Some(terms) => Some([r.term] + terms)
  }

  /** A character other than a quote is read as it is. */
  lemma {:induction false} ReadPlain(c: char, tail: string)
    requires c != '"'
    ensures ReadQuoted([c] + tail) ==
            match ReadQuoted(tail) case None => None case Some(r) => Some(Read([c] + r.term, r.rest))
  {
    assert ([c] + tail)[1..] == tail;
  }

  /** A doubled quote is read as one. */
  lemma {:induction false} ReadDoubled(tail: string)
    ensures ReadQuoted("\"\"" + tail) ==
            match ReadQuoted(tail) case None => None case Some(r) => Some(Read(['"'] + r.term, r.rest))
  {
    assert ("\"\"" + tail)[2..] == tail;
  }

  lemma {:induction false} ReadEscaped(term: string, rest: string)
    requires rest == "" || rest[0] != '"'
    ensures ReadQuoted(Escape(term) + "\"" + rest) == Some(Read(term, rest))
  {
    ReadEnds(rest);
    ReadPast(term, "\"" + rest, rest);
    ConcatAssoc(Escape(term), "\"", rest);
  }

  /** Reading on over an escaped term to where the reading ends. */
  lemma {:induction false} ReadPast(term: string, after: string, rest: string)
    requires ReadQuoted(after) == Some(Read("", rest))
    ensures ReadQuoted(Escape(term) + after) == Some(Read(term, rest))
  {
    if term == "" {
      assert "" + after == after;
    } else {
      ReadPast(term[1..], after, rest);
      EscapedCons(term, after);
      assert [term[0]] + term[1..] == term;
      if term[0] == '"' {
        ReadDoubled(Escape(term[1..]) + after);
      } else {
        ReadPlain(term[0], Escape(term[1..]) + after);
      }
    }
  }

  lemma {:induction false} EscapedCons(term: string, after: string)
    requires term != ""
    ensures Escape(term) + after ==
            (if term[0] == '"' then "\"\"" else [term[0]]) + (Escape(term[1..]) + after)
  {
  }

  /** A quote that no other follows ends the term. */
  lemma {:induction false} ReadEnds(rest: string)
    requires rest == "" || rest[0] != '"'
    ensures ReadQuoted("\"" + rest) == Some(Read("", rest))
  {
    assert ("\"" + rest)[1..] == rest;
  }

  lemma {:induction false} ReadsLast(term: string)
    ensures ReadOr(Quote(term)) == Some([term])
  {
    assert Quote(term)[1..] == Escape(term) + "\"" + "";
    ReadEscaped(term, "");
  }

  lemma {:induction false} ReadsOneMore(term: string, more: string)
    requires more != ""
    ensures ReadOr(Quote(term) + OR + more) ==
      match ReadOr(more) case None => None case Some(terms) => Some([term] + terms)
  {
    var after := OR + more;
    var s := Quote(term) + OR + more;
    assert s[1..] == Escape(term) + "\"" + after;
    ReadEscaped(term, after);
    assert after[|OR|..] == more && after[..|OR|] == OR;
  }

  /** Reading the printed expression gives back the terms, in order, whatever characters they hold. */
  lemma {:induction false} ExpressionReadsBack(terms: seq<string>)
    ensures ReadOr(OrExpression(terms)) == Some(terms)
  {
    if |terms| == 1 {
      ReadsLast(terms[0]);
      assert terms == [terms[0]];
    } else if |terms| > 1 {
      ExpressionReadsBack(terms[1..]);
      ReadsOneMore(terms[0], OrExpression(terms[1..]));
      assert terms == [terms[0]] + terms[1..];
    }
  }
}
