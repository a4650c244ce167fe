/**
 * The order in which slug locks are taken (src/commands/_focus-helpers.ts, sortSlugs): without
 * repetition, ascending by code unit. The order is strict, transitive and total, so the ascending
 * list of a given set of slugs is unique; the lock protocol needs no more of it than that, and no
 * less either.
 */
module LockOrder {
  /** String comparison by code unit, as Array.prototype.sort compares. */
  predicate Less(a: string, b: string) {
    if b == "" then false
    else if a == "" then true
    else if a[0] != b[0] then a[0] < b[0]
    else Less(a[1..], b[1..])
  }

  lemma {:induction false} LessIsStrict(a: string)
    ensures !Less(a, a)
  {
    if a != "" {
      LessIsStrict(a[1..]);
    }
  }

  lemma {:induction false} LessIsTransitive(a: string, b: string, c: string)
    requires Less(a, b) && Less(b, c)
    ensures Less(a, c)
  {
    if a != "" && a[0] == b[0] && b[0] == c[0] {
      LessIsTransitive(a[1..], b[1..], c[1..]);
    }
  }

  lemma {:induction false} LessIsTotal(a: string, b: string)
    ensures Less(a, b) || a == b || Less(b, a)
  {
    if a != "" && b != "" && a[0] == b[0] {
      LessIsTotal(a[1..], b[1..]);
      assert a == [a[0]] + a[1..] && b == [b[0]] + b[1..];
    }
  }

  ghost predicate Ascending(xs: seq<string>) {
    forall i, j :: 0 <= i < j < |xs| ==> Less(xs[i], xs[j])
  }

  function Insert(xs: seq<string>, x: string): seq<string> {
    if xs == [] then [x]
    else if x == xs[0] then xs
    else if Less(x, xs[0]) then [x] + xs
    else [xs[0]] + Insert(xs[1..], x)
  }

  /** [...new Set(slugs)].sort() */
  function SortSlugs(slugs: seq<string>): seq<string> {
    if slugs == [] then [] else Insert(SortSlugs(slugs[..|slugs| - 1]), slugs[|slugs| - 1])
  }

  lemma {:induction false} InsertSorts(xs: seq<string>, x: string)
    requires Ascending(xs)
    ensures Ascending(Insert(xs, x))
    ensures forall y :: y in Insert(xs, x) <==> y in xs || y == x
  {
    if xs != [] && x != xs[0] {
      var rest := xs[1..];
      assert xs == [xs[0]] + rest;
      if Less(x, xs[0]) {
        forall j | 0 <= j < |xs| ensures Less(x, xs[j]) {
          if j > 0 {
            LessIsTransitive(x, xs[0], xs[j]);
          }
        }
      } else {
        LessIsTotal(x, xs[0]);
        InsertSorts(rest, x);
        var after := Insert(rest, x);
        forall j | 0 <= j < |after| ensures Less(xs[0], after[j]) {
          if after[j] in rest {
            var k :| 0 <= k < |rest| && rest[k] == after[j];
            assert xs[k + 1] == after[j];
          }
        }
      }
    }
  }

  /** The result is the ascending list of exactly the slugs given. */
  lemma {:induction false} SortSlugsSorts(slugs: seq<string>)
    ensures Ascending(SortSlugs(slugs))
    ensures forall x :: x in SortSlugs(slugs) <==> x in slugs
  {
    if slugs != [] {
      var init := slugs[..|slugs| - 1];
      SortSlugsSorts(init);
      InsertSorts(SortSlugs(init), slugs[|slugs| - 1]);
      assert slugs == init + [slugs[|slugs| - 1]];
    }
  }

  lemma {:induction false} AscendingHead(xs: seq<string>, ys: seq<string>)
    requires Ascending(xs) && Ascending(ys) && xs != [] && ys != []
    requires forall x :: x in xs <==> x in ys
    ensures xs[0] == ys[0]
  {
    assert xs[0] in ys && ys[0] in xs;
    var i :| 0 <= i < |ys| && ys[i] == xs[0];
    var j :| 0 <= j < |xs| && xs[j] == ys[0];
    if i > 0 && j > 0 {
      LessIsTransitive(xs[0], ys[0], xs[0]);
      LessIsStrict(xs[0]);
    }
  }

  lemma {:induction false} TailElements(xs: seq<string>)
    requires Ascending(xs) && xs != [] && !Less(xs[0], xs[0])
    ensures xs == [xs[0]] + xs[1..]
    ensures forall x :: x in xs[1..] <==> x in xs && x != xs[0]
  {
    forall x | x in xs && x != xs[0] ensures x in xs[1..] {
      var i :| 0 <= i < |xs| && xs[i] == x;
      assert xs[1..][i - 1] == x;
    }
  }

  lemma {:induction false} AscendingIsUnique(xs: seq<string>, ys: seq<string>)
    requires Ascending(xs) && Ascending(ys)
    requires forall x :: x in xs <==> x in ys
    ensures xs == ys
  {
    assert ys == [] || ys[0] in ys;
    if xs != [] {
      assert xs[0] in ys;
      AscendingHead(xs, ys);
      LessIsStrict(xs[0]);
      TailElements(xs);
      TailElements(ys);
      AscendingIsUnique(xs[1..], ys[1..]);
    }
  }

  /** Two commands that need the same slugs take them in the same order, however they listed them. */
  lemma {:induction false} SameSlugsSameOrder(one: seq<string>, two: seq<string>)
    ensures SortSlugs(one) == SortSlugs(two) <==> forall x :: x in one <==> x in two
  {
    SortSlugsSorts(one);
    SortSlugsSorts(two);
    if forall x :: x in one <==> x in two {
      AscendingIsUnique(SortSlugs(one), SortSlugs(two));
    }
  }
}
