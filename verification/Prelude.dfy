/** Option and a few sequence facts the other modules share. */
module Prelude {

  datatype Option<+T> = None | Some(value: T) {
    function GetOr(default: T): T {
      if Some? then value else default
    }
  }

  /** What String.prototype.trim takes off. */
  const BLANKS: string := " \t\n\r\U{000B}\U{000C}\U{00A0}\U{1680}\U{2028}\U{2029}\U{202F}\U{205F}\U{3000}\U{FEFF}"

  predicate IsBlankChar(c: char) {
    c in BLANKS || '\U{2000}' <= c <= '\U{200A}'
  }

  /** The white space of ECMAScript: what WhiteSpace and LineTerminator list, and the space separators. */
  lemma {:induction false} BlanksAre(c: char)
    ensures IsBlankChar(c) <==>
            c in {'\t', '\n', '\r', ' ', '\U{000B}', '\U{000C}', '\U{00A0}', '\U{1680}', '\U{2000}', '\U{2001}',
                  '\U{2002}', '\U{2003}', '\U{2004}', '\U{2005}', '\U{2006}', '\U{2007}', '\U{2008}', '\U{2009}',
                  '\U{200A}', '\U{2028}', '\U{2029}', '\U{202F}', '\U{205F}', '\U{3000}', '\U{FEFF}'}
  {
    assert BLANKS[0] == ' ' && BLANKS[1] == '\t' && BLANKS[2] == '\n' && BLANKS[3] == '\r' && BLANKS[4] == '\U{000B}'
      && BLANKS[5] == '\U{000C}' && BLANKS[6] == '\U{00A0}' && BLANKS[7] == '\U{1680}' && BLANKS[8] == '\U{2028}'
      && BLANKS[9] == '\U{2029}' && BLANKS[10] == '\U{202F}' && BLANKS[11] == '\U{205F}' && BLANKS[12] == '\U{3000}'
      && BLANKS[13] == '\U{FEFF}';
  }

  /** text.trim() is empty. */
  predicate IsBlank(text: string) {
    forall i :: 0 <= i < |text| ==> IsBlankChar(text[i])
  }

  /** `xs` without repetition. */
  ghost predicate Distinct<T>(xs: seq<T>) {
    forall i, j :: 0 <= i < j < |xs| ==> xs[i] != xs[j]
  }

  lemma {:induction false} ConcatAssoc<T>(xs: seq<T>, ys: seq<T>, zs: seq<T>)
    ensures (xs + ys) + zs == xs + (ys + zs)
  {
  }

  /** A sequence cut in two, with more after it. */
  lemma {:induction false} CutAt<T>(xs: seq<T>, k: nat, more: seq<T>)
    requires k <= |xs|
    ensures xs == xs[..k] + xs[k..]
    ensures xs + more == xs[..k] + (xs[k..] + more)
    ensures (xs + more)[..k] == xs[..k] && (xs + more)[k..] == xs[k..] + more
  {
    assert xs == xs[..k] + xs[k..];
    ConcatAssoc(xs[..k], xs[k..], more);
  }

  /** `xs` with every element satisfying `keep`, in order (Array.prototype.filter). */
  function Filter<T>(xs: seq<T>, keep: T -> bool): (r: seq<T>)
    ensures |r| <= |xs|
    ensures forall x :: x in r ==> x in xs && keep(x)
    ensures forall x :: x in xs && keep(x) ==> x in r
  {
    if xs == [] then []
    else (if keep(xs[0]) then [xs[0]] else []) + Filter(xs[1..], keep)
  }

  lemma {:induction false} FilterAppend<T>(xs: seq<T>, ys: seq<T>, keep: T -> bool)
    ensures Filter(xs + ys, keep) == Filter(xs, keep) + Filter(ys, keep)
  {
    if xs == [] {
      assert xs + ys == ys;
    } else {
      assert (xs + ys)[1..] == xs[1..] + ys;
      FilterAppend(xs[1..], ys, keep);
      ConcatAssoc(if keep(xs[0]) then [xs[0]] else [], Filter(xs[1..], keep), Filter(ys, keep));
    }
  }

  lemma {:induction false} FilterSnoc<T>(xs: seq<T>, x: T, keep: T -> bool)
    ensures Filter(xs + [x], keep) == Filter(xs, keep) + (if keep(x) then [x] else [])
  {
    FilterAppend(xs, [x], keep);
    assert [x][1..] == [];
  }

  lemma {:induction false} FilterAll<T>(xs: seq<T>, keep: T -> bool)
    requires forall x :: x in xs ==> keep(x)
    ensures Filter(xs, keep) == xs
  {
    if xs != [] {
      FilterAll(xs[1..], keep);
    }
  }

  lemma {:induction false} FilterNone<T>(xs: seq<T>, keep: T -> bool)
    requires forall x :: x in xs ==> !keep(x)
    ensures Filter(xs, keep) == []
  {
    if xs != [] {
      FilterNone(xs[1..], keep);
    }
  }

  /** The numbers below `n` that `p` holds of, ascending. */
  ghost function Listing(n: nat, p: nat -> bool): (r: seq<nat>)
    ensures forall k :: 0 <= k < |r| ==> r[k] < n && p(r[k])
  {
    if n == 0 then [] else Listing(n - 1, p) + (if p(n - 1) then [n - 1] else [])
  }

  /** Each of them is listed, and in order. */
  lemma {:induction false} ListingIs(n: nat, p: nat -> bool)
    ensures forall i :: i in Listing(n, p) <==> 0 <= i < n && p(i)
    ensures forall a, b :: 0 <= a < b < |Listing(n, p)| ==> Listing(n, p)[a] < Listing(n, p)[b]
  {
    if n > 0 {
      ListingIs(n - 1, p);
    }
  }
}
