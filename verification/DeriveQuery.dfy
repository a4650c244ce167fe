/**
 * The query a text derives: its rarest terms and every task id it names (src/search/derive-
 * query.ts). How common a term is comes as a function, so that what is picked, in which order,
 * and what is never dropped can be said of every corpus.
 */
module DeriveQuery {
  import opened Prelude
  import opened StopWords
  import opened Terms

  const QUERY_TERMS: nat := 12

  type Frequency = string -> int

  /** /^[0-9a-f]{7,}$/ */
  predicate HexHash(t: string) {
    |t| >= 7 && forall i :: 0 <= i < |t| ==> Digit(t[i]) || 'a' <= t[i] <= 'f'
  }

  /** A hash is seven or more characters, each a digit or one of a to f. */
  lemma {:induction false} HashIff(t: string)
    ensures HexHash(t) <==> |t| >= 7 && forall c :: c in t ==> c in "0123456789abcdef"
  {
    forall i | 0 <= i < |t| ensures (Digit(t[i]) || 'a' <= t[i] <= 'f') <==> t[i] in "0123456789abcdef" {
      var c := t[i];
      if Digit(c) {
        assert "0123456789abcdef"[c as int - '0' as int] == c;
      } else if 'a' <= c <= 'f' {
        assert "0123456789abcdef"[10 + c as int - 'a' as int] == c;
      }
    }
  }

  datatype Candidates = Candidates(terms: seq<string>, ids: seq<string>)

  function CandidatesOf(distinct: seq<string>): Candidates {
    Candidates(
      Filter(distinct, (t: string) => !IsTaskId(t) && !HexHash(t)),
      Filter(distinct, (t: string) => IsTaskId(t)))
  }

  /** A term with its place in the list. */
  datatype Placed = Placed(term: string, index: nat)

  /** a.df - b.df || a.index - b.index */
  predicate Sooner(a: Placed, b: Placed, df: Frequency) {
    df(a.term) < df(b.term) || (df(a.term) == df(b.term) && a.index < b.index)
  }

  function InsertPlaced(xs: seq<Placed>, x: Placed, df: Frequency): seq<Placed> {
    if xs == [] || Sooner(x, xs[0], df) then [x] + xs else [xs[0]] + InsertPlaced(xs[1..], x, df)
  }

  /** The terms, each with its place, sorted. */
  function Sorted(terms: seq<string>, df: Frequency): seq<Placed> {
    if terms == [] then []
    else InsertPlaced(Sorted(terms[..|terms| - 1], df), Placed(terms[|terms| - 1], |terms| - 1), df)
  }

  function TermsOf(xs: seq<Placed>): (r: seq<string>)
    ensures |r| == |xs| && forall i :: 0 <= i < |r| ==> r[i] == xs[i].term
  {
    if xs == [] then [] else [xs[0].term] + TermsOf(xs[1..])
  }

  function Rarest(terms: seq<string>, df: Frequency, limit: nat): seq<string> {
    if |terms| <= limit then terms
    else
      SortedIs(terms, df);
      TermsOf(Sorted(terms, df)[..limit])
  }

  datatype DerivedQuery = DerivedQuery(terms: seq<string>, expression: string)

  function Derive(lowered: string, word: WordChars, df: Frequency, limit: nat := QUERY_TERMS): DerivedQuery {
    var c := CandidatesOf(MeaningfulTerms(lowered, word));
    var picked := Rarest(c.terms, df, limit) + c.ids;
    DerivedQuery(picked, OrExpression(picked))
  }

  // --- Sorting ---------------------------------------------------------------------

  ghost predicate InOrder(xs: seq<Placed>, df: Frequency) {
    forall i, j :: 0 <= i < j < |xs| ==> Sooner(xs[i], xs[j], df)
  }

  lemma {:induction false} InsertElements(xs: seq<Placed>, x: Placed, df: Frequency)
    ensures |InsertPlaced(xs, x, df)| == |xs| + 1
    ensures forall y :: y in InsertPlaced(xs, x, df) <==> y in xs || y == x
  {
    if xs != [] && !Sooner(x, xs[0], df) {
      InsertElements(xs[1..], x, df);
      assert xs == [xs[0]] + xs[1..];
    }
  }

  lemma {:induction false} ConsInOrder(x: Placed, rest: seq<Placed>, df: Frequency)
    requires InOrder(rest, df) && forall y :: y in rest ==> Sooner(x, y, df)
    ensures InOrder([x] + rest, df)
  {
    assert forall j :: 0 <= j < |rest| ==> rest[j] in rest;
  }

  lemma {:induction false} InsertInOrder(xs: seq<Placed>, x: Placed, df: Frequency)
    requires InOrder(xs, df) && forall y :: y in xs ==> y.index != x.index
    ensures InOrder(InsertPlaced(xs, x, df), df)
  {
    if xs == [] {
    } else if Sooner(x, xs[0], df) {
      forall y | y in xs ensures Sooner(x, y, df) {
        var j :| 0 <= j < |xs| && xs[j] == y;
        assert j > 0 ==> Sooner(xs[0], xs[j], df);
      }
      ConsInOrder(x, xs, df);
    } else {
      var rest := xs[1..];
      assert xs[0] in xs;
      InsertInOrder(rest, x, df);
      InsertElements(rest, x, df);
      forall y | y in InsertPlaced(rest, x, df) ensures Sooner(xs[0], y, df) {
        if y in rest {
          var j :| 0 <= j < |rest| && rest[j] == y;
          assert xs[j + 1] == y;
        }
      }
      ConsInOrder(xs[0], InsertPlaced(rest, x, df), df);
    }
  }

  lemma {:induction false} SortedIs(terms: seq<string>, df: Frequency)
    ensures |Sorted(terms, df)| == |terms| && InOrder(Sorted(terms, df), df)
    ensures forall p :: p in Sorted(terms, df) <==> p.index < |terms| && p.term == terms[p.index]
  {
    if terms != [] {
      var n := |terms| - 1;
      SortedIs(terms[..n], df);
      InsertElements(Sorted(terms[..n], df), Placed(terms[n], n), df);
      InsertInOrder(Sorted(terms[..n], df), Placed(terms[n], n), df);
    }
  }

  // --- What is picked ----------------------------------------------------------------

  /** Term i counts as rarer than term j. */
  predicate Rarer(terms: seq<string>, df: Frequency, i: nat, j: nat)
    requires i < |terms| && j < |terms|
  {
    Sooner(Placed(terms[i], i), Placed(terms[j], j), df)
  }

  /** Place k of the pick holds term number `chosen[k]`. */
  ghost predicate Picks(terms: seq<string>, picked: seq<string>, chosen: seq<nat>) {
    && |chosen| == |picked|
    && forall k :: 0 <= k < |picked| ==> chosen[k] < |terms| && terms[chosen[k]] == picked[k]
  }

  /**
   * Past the limit, the pick is the `limit` least by frequency and then first
   * appearance, in that order: each picked one is rarer than the next and than
   * every one left out.
   */
  lemma {:induction false} RarestAreLeast(terms: seq<string>, df: Frequency, limit: nat) returns (chosen: seq<nat>)
    requires |terms| > limit
    ensures |Rarest(terms, df, limit)| == limit && Picks(terms, Rarest(terms, df, limit), chosen)
    ensures forall a, b :: 0 <= a < b < limit ==> Rarer(terms, df, chosen[a], chosen[b])
    ensures forall a: nat, j: nat :: a < limit && j < |terms| && j !in chosen ==> Rarer(terms, df, chosen[a], j)
  {
    var sorted := Sorted(terms, df);
    SortedIs(terms, df);
    chosen := seq(limit, k requires 0 <= k < limit => sorted[k].index);
    forall k | 0 <= k < limit ensures chosen[k] < |terms| && sorted[k] == Placed(terms[chosen[k]], chosen[k]) {
      assert sorted[k] in sorted;
    }
    forall a: nat, j: nat | a < limit && j < |terms| && j !in chosen ensures Rarer(terms, df, chosen[a], j) {
      RarerThanLeft(terms, df, limit, chosen, a, j);
    }
  }

  lemma {:induction false} RarerThanLeft(
    terms: seq<string>, df: Frequency, limit: nat, chosen: seq<nat>, a: nat, j: nat)
    requires a < limit < |terms| && j < |terms| && j !in chosen && |chosen| == limit
    requires |Sorted(terms, df)| == |terms| && forall k :: 0 <= k < limit ==> chosen[k] == Sorted(terms, df)[k].index
    ensures chosen[a] < |terms| && Rarer(terms, df, chosen[a], j)
  {
    var sorted := Sorted(terms, df);
    SortedIs(terms, df);
    assert Placed(terms[j], j) in sorted && sorted[a] in sorted;
    var k :| 0 <= k < |sorted| && sorted[k] == Placed(terms[j], j);
    assert forall b :: 0 <= b < limit ==> chosen[b] in chosen;
  }

  ghost predicate RarestFirst(picked: seq<string>, df: Frequency) {
    forall a, b :: 0 <= a < b < |picked| ==> df(picked[a]) <= df(picked[b])
  }

  /** The terms put before the ids are rarest first exactly when there were too many, or they were so in the text. */
  lemma {:induction false} RarestFirstIff(terms: seq<string>, df: Frequency, limit: nat)
    ensures RarestFirst(Rarest(terms, df, limit), df) <==> |terms| > limit || RarestFirst(terms, df)
  {
    if |terms| > limit {
      var picked := Rarest(terms, df, limit);
      var chosen := RarestAreLeast(terms, df, limit);
      forall a, b | 0 <= a < b < limit ensures df(picked[a]) <= df(picked[b]) {
        assert Rarer(terms, df, chosen[a], chosen[b]);
      }
    }
  }

  /** The same of a derived query, whose ids come last. */
  lemma {:induction false} DerivedRarestFirstIff(lowered: string, word: WordChars, df: Frequency, limit: nat)
    ensures var q, c := Derive(lowered, word, df, limit), CandidatesOf(MeaningfulTerms(lowered, word));
            && |q.terms| >= |c.ids| && q.terms[|q.terms| - |c.ids|..] == c.ids
            && (RarestFirst(q.terms[..|q.terms| - |c.ids|], df) <==> |c.terms| > limit || RarestFirst(c.terms, df))
  {
    var q, c := Derive(lowered, word, df, limit), CandidatesOf(MeaningfulTerms(lowered, word));
    var rare := Rarest(c.terms, df, limit);
    RarestFirstIff(c.terms, df, limit);
    assert q.terms == rare + c.ids;
    assert q.terms[..|rare|] == rare;
  }

  /** Two terms of a short text keep their order, the more common one first. */
  lemma {:induction false} ShortTextsKeepOrder()
    ensures var df := (t: string) => if t == "alpha" then 2 else 1;
            && Rarest(["alpha", "beta"], df, QUERY_TERMS) == ["alpha", "beta"]
            && !RarestFirst(Rarest(["alpha", "beta"], df, QUERY_TERMS), df)
  {
    var df := (t: string) => if t == "alpha" then 2 else 1;
    var picked := ["alpha", "beta"];
    assert df(picked[0]) > df(picked[1]);
  }

  lemma {:induction false} RarestDistinct(terms: seq<string>, df: Frequency, limit: nat)
    requires Distinct(terms)
    ensures Distinct(Rarest(terms, df, limit)) && forall t :: t in Rarest(terms, df, limit) ==> t in terms
  {
    if |terms| > limit {
      var chosen := RarestAreLeast(terms, df, limit);
      forall a, b | 0 <= a < b < limit ensures Rarest(terms, df, limit)[a] != Rarest(terms, df, limit)[b] {
        assert Rarer(terms, df, chosen[a], chosen[b]);
      }
    }
  }

  lemma {:induction false} FilterDistinct(xs: seq<string>, keep: string -> bool)
    requires Distinct(xs)
    ensures Distinct(Filter(xs, keep))
  {
    if xs != [] {
      FilterDistinct(xs[1..], keep);
      var rest := Filter(xs[1..], keep);
      forall j | 0 <= j < |rest| ensures rest[j] != xs[0] {
        assert rest[j] in xs[1..];
      }
    }
  }

  lemma {:induction false} ConcatDistinct(xs: seq<string>, ys: seq<string>)
    requires Distinct(xs) && Distinct(ys) && forall x :: x in xs ==> x !in ys
    ensures Distinct(xs + ys)
  {
    assert forall i :: 0 <= i < |xs| ==> xs[i] in xs;
  }

  lemma {:induction false} CandidatesAre(all: seq<string>)
    requires Distinct(all)
    ensures var c := CandidatesOf(all);
            && Distinct(c.terms) && Distinct(c.ids)
            && (forall t :: t in c.terms <==> t in all && !IsTaskId(t) && !HexHash(t))
            && (forall t :: t in c.ids <==> t in all && IsTaskId(t))
  {
    FilterDistinct(all, (t: string) => !IsTaskId(t) && !HexHash(t));
    FilterDistinct(all, (t: string) => IsTaskId(t));
  }

  /**
   * Nothing repeats, every task id of the text is kept, no hash or stop word is picked, and
   * the expression reads back as the terms.
   */
  lemma {:induction false} DerivedQueryIs(lowered: string, word: WordChars, df: Frequency, limit: nat)
    ensures var q, all := Derive(lowered, word, df, limit), MeaningfulTerms(lowered, word);
            && Distinct(q.terms)
            && (forall t :: t in all && IsTaskId(t) ==> t in q.terms)
            && (forall t :: t in q.terms ==> t in all && (IsTaskId(t) || !HexHash(t)))
            && ReadOr(q.expression) == Some(q.terms)
  {
    var all := MeaningfulTerms(lowered, word);
    var c := CandidatesOf(all);
    var rare := Rarest(c.terms, df, limit);
    TermsAre(lowered, word);
    CandidatesAre(all);
    RarestDistinct(c.terms, df, limit);
    ConcatDistinct(rare, c.ids);
    ExpressionReadsBack(rare + c.ids);
  }

  /** A word set apart is in the query of a text with no more terms than the limit exactly when it is a term and no hash. */
  lemma {:induction false} WordIsQueriedIff(
    pre: string, w: string, post: string, word: WordChars, df: Frequency, limit: nat)
    requires Sensible(word) && PlainWord(pre, w, post, word)
    requires |CandidatesOf(MeaningfulTerms(pre + (w + post), word)).terms| <= limit
    ensures w in Derive(pre + (w + post), word, df, limit).terms <==> |w| > 2 && !IsStopWord(w) && !HexHash(w)
  {
    var all := MeaningfulTerms(pre + (w + post), word);
    WordIsTermIff(pre, w, post, word);
    TermsAre(pre + (w + post), word);
    CandidatesAre(all);
  }

  /** Past the limit it is in the query exactly when fewer terms than the limit are rarer. */
  lemma {:induction false} PickedIff(terms: seq<string>, df: Frequency, limit: nat, j: nat)
    requires |terms| > limit && j < |terms| && Distinct(terms)
    ensures terms[j] in Rarest(terms, df, limit) <==> |RarerThan(terms, df, j)| < limit
  {
    var chosen := RarestAreLeast(terms, df, limit);
    var picked := Rarest(terms, df, limit);
    if terms[j] in picked {
      var k :| 0 <= k < limit && picked[k] == terms[j];
      assert chosen[k] == j;
      RarerAreBefore(terms, df, limit, chosen, k);
    } else {
      forall a | 0 <= a < limit ensures chosen[a] != j {
        assert picked[a] == terms[chosen[a]];
      }
      AllChosenRarer(terms, df, limit, chosen, j);
    }
  }

  /** The terms that count as rarer than term `j`, by their places. */
  ghost function RarerThan(terms: seq<string>, df: Frequency, j: nat): set<nat>
    requires j < |terms|
  {
    set i: nat | i < |terms| && Rarer(terms, df, i, j)
  }

  ghost function Firsts(xs: seq<nat>, k: nat): (r: set<nat>)
    requires k <= |xs|
    ensures forall x :: x in r <==> exists a :: 0 <= a < k && xs[a] == x
    ensures |r| <= k && ((forall a, b :: 0 <= a < b < k ==> xs[a] != xs[b]) ==> |r| == k)
  {
    if k == 0 then {} else Firsts(xs, k - 1) + {xs[k - 1]}
  }

  lemma {:induction false} SmallerSet(a: set<nat>, b: set<nat>)
    requires a <= b
    ensures |a| <= |b|
  {
    if a != {} {
      var x :| x in a;
      SmallerSet(a - {x}, b - {x});
    }
  }

  lemma {:induction false} RarerAreBefore(terms: seq<string>, df: Frequency, limit: nat, chosen: seq<nat>, k: nat)
    requires |chosen| == limit && k < limit && forall a :: 0 <= a < limit ==> chosen[a] < |terms|
    requires forall a, b :: 0 <= a < b < limit ==> Rarer(terms, df, chosen[a], chosen[b])
    requires forall a: nat, j: nat :: a < limit && j < |terms| && j !in chosen ==> Rarer(terms, df, chosen[a], j)
    ensures |RarerThan(terms, df, chosen[k])| < limit
  {
    forall i | i in RarerThan(terms, df, chosen[k]) ensures i in Firsts(chosen, k) {
      if i in chosen {
        var a :| 0 <= a < limit && chosen[a] == i;
        assert a < k;
      }
    }
    SmallerSet(RarerThan(terms, df, chosen[k]), Firsts(chosen, k));
  }

  lemma {:induction false} AllChosenRarer(terms: seq<string>, df: Frequency, limit: nat, chosen: seq<nat>, j: nat)
    requires |chosen| == limit && j < |terms| && j !in chosen && forall a :: 0 <= a < limit ==> chosen[a] < |terms|
    requires forall a, b :: 0 <= a < b < limit ==> Rarer(terms, df, chosen[a], chosen[b])
    requires forall a: nat :: a < limit ==> Rarer(terms, df, chosen[a], j)
    ensures |RarerThan(terms, df, j)| >= limit
  {
    forall a, b | 0 <= a < b < limit ensures chosen[a] != chosen[b] {
      assert Rarer(terms, df, chosen[a], chosen[b]);
    }
    SmallerSet(Firsts(chosen, limit), RarerThan(terms, df, j));
  }

  /** A task id written apart in the text is in the query, however common its text is. */
  lemma {:induction false} NamedIdIsQueried(
    pre: string, id: string, post: string, word: WordChars, df: Frequency, limit: nat)
    requires Sensible(word) && IsTaskId(id)
    requires pre == "" || !word(pre[|pre| - 1])
    requires post == "" || !Digit(post[0])
    ensures id in Derive(pre + (id + post), word, df, limit).terms
  {
    IdsStayWhole(pre, id, post, word);
    DerivedQueryIs(pre + (id + post), word, df, limit);
  }
}
