/** The worktree registry. */
module Worktrees {
  // What the schema demands of the list (src/schemas/artifacts.ts) and the commands that change it
  // (src/commands/worktree-set.ts, worktree-set-default.ts, artifact-prune.ts, src/wrap/sweep.ts,
  // new.ts, track.ts).

  import opened Prelude

  /** `flag` is the optional `default` key; `details` stands for branch, holding, pr and note. */
  datatype Worktree = Worktree(path: string, repo: string, details: string, name: Option<string>, flag: Option<bool>)

  predicate IsDefault(e: Worktree) {
    e.flag == Some(true)
  }

  predicate FieldsOk(e: Worktree) {
    e.path != "" && e.repo != "" && e.name != Some("")
  }

  predicate SameName(one: Worktree, two: Worktree) {
    one.name.Some? && one.name == two.name
  }

  ghost predicate NamesDistinct(es: seq<Worktree>) {
    forall i, j :: 0 <= i < j < |es| ==> !SameName(es[i], es[j])
  }

  ghost predicate DefaultsNamed(es: seq<Worktree>) {
    forall i :: 0 <= i < |es| && IsDefault(es[i]) ==> es[i].name.Some?
  }

  ghost predicate AtMostOneDefault(es: seq<Worktree>) {
    forall i, j :: 0 <= i < j < |es| ==> !(IsDefault(es[i]) && IsDefault(es[j]))
  }

  ghost predicate AllFieldsOk(es: seq<Worktree>) {
    forall i :: 0 <= i < |es| ==> FieldsOk(es[i])
  }

  ghost predicate Valid(es: seq<Worktree>) {
    AllFieldsOk(es) && NamesDistinct(es) && DefaultsNamed(es) && AtMostOneDefault(es)
  }

  // --- The schema's refinement -----------------------------------------------------

  datatype Issue = DuplicateName(at: nat) | UnnamedDefault(at: nat) | ManyDefaults

  /** What is wrong with entry n, given those before it. */
  function NewIssues(es: seq<Worktree>, n: nat): seq<Issue>
    requires n < |es|
  {
    (if exists j :: 0 <= j < n && SameName(es[j], es[n]) then [DuplicateName(n)] else [])
    + (if IsDefault(es[n]) && es[n].name.None? then [UnnamedDefault(n)] else [])
  }

  function IssuesUpTo(es: seq<Worktree>, n: nat): seq<Issue>
    requires n <= |es|
  {
    if n == 0 then [] else IssuesUpTo(es, n - 1) + NewIssues(es, n - 1)
  }

  lemma {:induction false} NoIssuesUpTo(es: seq<Worktree>, n: nat)
    requires n <= |es|
    ensures IssuesUpTo(es, n) == [] <==> NamesDistinct(es[..n]) && DefaultsNamed(es[..n])
  {
    if n > 0 {
      NoIssuesUpTo(es, n - 1);
      assert es[..n - 1] == es[..n][..n - 1];
      assert es[..n][n - 1] == es[n - 1];
      if j :| 0 <= j < n - 1 && SameName(es[j], es[n - 1]) {
        assert es[..n][j] == es[j];
      }
    }
  }

  function DefaultCount(es: seq<Worktree>): nat {
    if es == [] then 0 else DefaultCount(es[..|es| - 1]) + (if IsDefault(es[|es| - 1]) then 1 else 0)
  }

  lemma {:induction false} CountsDefaults(es: seq<Worktree>)
    ensures DefaultCount(es) == 0 <==> forall i :: 0 <= i < |es| ==> !IsDefault(es[i])
    ensures DefaultCount(es) <= 1 <==> AtMostOneDefault(es)
  {
    if es != [] {
      var init := es[..|es| - 1];
      CountsDefaults(init);
      assert forall i :: 0 <= i < |init| ==> init[i] == es[i];
    }
  }

  function AllIssues(es: seq<Worktree>): seq<Issue> {
    IssuesUpTo(es, |es|) + (if DefaultCount(es) > 1 then [ManyDefaults] else [])
  }

  /** No issue is raised exactly for a list with unique names and at most one default, which is named. */
  lemma {:induction false} NoIssuesIff(es: seq<Worktree>)
    ensures AllIssues(es) == [] <==> NamesDistinct(es) && DefaultsNamed(es) && AtMostOneDefault(es)
  {
    NoIssuesUpTo(es, |es|);
    CountsDefaults(es);
    assert es[..|es|] == es;
  }

  /** The set holds the labels of the first n entries. */
  ghost predicate Seen(names: set<string>, es: seq<Worktree>, n: nat)
    requires n <= |es|
  {
    forall s :: s in names <==> exists j :: 0 <= j < n && es[j].name == Some(s)
  }

  lemma {:induction false} SeenTells(names: set<string>, es: seq<Worktree>, n: nat)
    requires n < |es| && Seen(names, es, n)
    ensures Seen(if es[n].name.Some? then names + {es[n].name.value} else names, es, n + 1)
    ensures es[n].name.Some? && es[n].name.value in names <==> exists j :: 0 <= j < n && SameName(es[j], es[n])
  {
    if es[n].name.Some? && es[n].name.value in names {
      var j :| 0 <= j < n && es[j].name == Some(es[n].name.value);
      assert SameName(es[j], es[n]);
    }
    var next := if es[n].name.Some? then names + {es[n].name.value} else names;
    forall s ensures s in next <==> exists j :: 0 <= j < n + 1 && es[j].name == Some(s) {
      if s in next && s !in names {
        assert es[n].name == Some(s);
      }
    }
  }

  /** superRefine: a set of names seen, a counter of defaults, an issue for each breach in order. */
  method Refine(es: seq<Worktree>) returns (issues: seq<Issue>)
    ensures issues == AllIssues(es)
  {
    var names: set<string> := {};
    var defaults := 0;
    issues := [];
    for n := 0 to |es|
      invariant Seen(names, es, n)
      invariant defaults == DefaultCount(es[..n])
      invariant issues == IssuesUpTo(es, n)
    {
      var e := es[n];
      assert es[..n + 1][..n] == es[..n];
      SeenTells(names, es, n);
      ghost var before := issues;
      if e.name.Some? {
        if e.name.value in names {
          issues := issues + [DuplicateName(n)];
        }
        names := names + {e.name.value};
      }
      if IsDefault(e) {
        defaults := defaults + 1;
        if e.name.None? {
          issues := issues + [UnnamedDefault(n)];
        }
      }
      assert issues == before + NewIssues(es, n);
    }
    assert es[..|es|] == es;
    if defaults > 1 {
      issues := issues + [ManyDefaults];
    }
  }

  // --- The commands ----------------------------------------------------------------

  /** Tilde expansion and resolution of a path. */
  type Normalizer = string -> string

  function NamedFrom(es: seq<Worktree>, tag: string, i: nat): (r: Option<nat>)
    ensures r.Some? ==> i <= r.value < |es| && es[r.value].name == Some(tag)
    ensures r.None? ==> forall j :: i <= j < |es| ==> es[j].name != Some(tag)
    decreases |es| - i
  {
    if i >= |es| then None else if es[i].name == Some(tag) then Some(i) else NamedFrom(es, tag, i + 1)
  }

  /** The first unnamed entry at the same path. */
  function SweptFrom(es: seq<Worktree>, path: string, norm: Normalizer, i: nat): (r: Option<nat>)
    ensures r.Some? ==> i <= r.value < |es| && es[r.value].name.None? && norm(es[r.value].path) == norm(path)
    ensures r.None? ==> forall j :: i <= j < |es| && es[j].name.None? ==> norm(es[j].path) != norm(path)
    decreases |es| - i
  {
    if i >= |es| then None
    else if es[i].name.None? && norm(es[i].path) == norm(path) then Some(i)
    else SweptFrom(es, path, norm, i + 1)
  }

  function Cleared(e: Worktree): Worktree {
    e.(flag := None)
  }

  function ClearDefaults(es: seq<Worktree>): (r: seq<Worktree>)
    ensures |r| == |es|
  {
    seq(|es|, i requires 0 <= i < |es| => if IsDefault(es[i]) then Cleared(es[i]) else es[i])
  }

  function TargetOf(es: seq<Worktree>, path: string, tag: string, norm: Normalizer): (r: Option<nat>)
    ensures r.Some? ==> r.value < |es| && (es[r.value].name == Some(tag) || es[r.value].name.None?)
  {
    var byLabel := NamedFrom(es, tag, 0);
    if byLabel.Some? then byLabel else SweptFrom(es, path, norm, 0)
  }

  /** On request, when alone, or when the label has it already. */
  predicate MakesDefault(es: seq<Worktree>, tag: string, asked: bool) {
    var byLabel := NamedFrom(es, tag, 0);
    || asked
    || (forall i :: 0 <= i < |es| && es[i].name.Some? ==> es[i].name == Some(tag))
    || (byLabel.Some? && IsDefault(es[byLabel.value]))
  }

  /** worktree.set: everything but the target, then the target under its label. */
  function SetWorktree(es: seq<Worktree>, path: string, tag: string, asked: bool, norm: Normalizer): seq<Worktree> {
    var target := TargetOf(es, path, tag, norm);
    var makeDefault := MakesDefault(es, tag, asked);
    var flag := if makeDefault then Some(true) else None;
    var rest := if target.Some? then es[..target.value] + es[target.value + 1..] else es;
    var updated := if target.Some? then es[target.value].(path := path, name := Some(tag), flag := flag)
                   else Worktree(path, path, "", Some(tag), flag);
    (if makeDefault then ClearDefaults(rest) else rest) + [updated]
  }

  /** worktree.set-default: None when the label is not registered. */
  function SetDefault(es: seq<Worktree>, tag: string): Option<seq<Worktree>> {
    if NamedFrom(es, tag, 0).None? then None
    else Some(seq(|es|, i requires 0 <= i < |es| =>
      if es[i].name == Some(tag) then es[i].(flag := Some(true)) else Cleared(es[i])))
  }

  /** What wrap records of a worktree it found: no label, no default. */
  function Observed(path: string, repo: string, details: string): Worktree {
    Worktree(path, repo, details, None, None)
  }

  datatype Command =
    | Set(path: string, tag: string, asked: bool)
    | Default(tag: string)
    | Prune(keep: Worktree -> bool)
    | Sweep(found: seq<Worktree>)

  /** The arguments the commands accept, and what a sweep can bring. */
  ghost predicate Accepted(c: Command) {
    match c
    case Set(path, tag, _) => path != "" && tag != ""
    case Default(_) => true
    case Prune(_) => true
    case Sweep(found) => forall i :: 0 <= i < |found| ==>
      FieldsOk(found[i]) && found[i] == Observed(found[i].path, found[i].repo, found[i].details)
  }

  function Execute(es: seq<Worktree>, c: Command, norm: Normalizer): seq<Worktree> {
    match c
    case Set(path, tag, asked) => SetWorktree(es, path, tag, asked, norm)
    case Default(tag) => SetDefault(es, tag).GetOr(es)
    case Prune(keep) => Filter(es, keep)
    case Sweep(found) => es + found
  }

  function Run(es: seq<Worktree>, cs: seq<Command>, norm: Normalizer): seq<Worktree> {
    if cs == [] then es else Execute(Run(es, cs[..|cs| - 1], norm), cs[|cs| - 1], norm)
  }

  /** partition: the entries kept and the entries pruned, each in order. */
  method Partition(es: seq<Worktree>, keep: Worktree -> bool) returns (kept: seq<Worktree>, pruned: seq<Worktree>)
    ensures kept == Filter(es, keep)
    ensures pruned == Filter(es, (e: Worktree) => !keep(e))
  {
    kept, pruned := [], [];
    ghost var drop := (e: Worktree) => !keep(e);
    for i := 0 to |es|
      invariant kept == Filter(es[..i], keep)
      invariant pruned == Filter(es[..i], drop)
    {
      assert es[..i + 1] == es[..i] + [es[i]];
      FilterSnoc(es[..i], es[i], keep);
      FilterSnoc(es[..i], es[i], drop);
      if keep(es[i]) {
        kept := kept + [es[i]];
      } else {
        pruned := pruned + [es[i]];
      }
    }
    assert es[..|es|] == es;
  }

  /** A sweep adds what it found at the end, without label or default. */
  lemma {:induction false} SweepAdds(es: seq<Worktree>, found: seq<Worktree>, norm: Normalizer)
    requires Accepted(Sweep(found))
    ensures var next := Execute(es, Sweep(found), norm);
            && |next| == |es| + |found| && es <= next
            && forall k :: 0 <= k < |found| ==>
                 && next[|es| + k] == found[k] && found[k].name == None && found[k].flag == None
                 && found[k].path != "" && found[k].repo != ""
  {
  }

  /** An entry without path or repository, or with an empty label, is refused wherever it stands. */
  lemma {:induction false} EmptyFieldsAreRefused(es: seq<Worktree>, i: nat)
    requires i < |es|
    ensures Valid(es) ==> |es[i].path| > 0 && |es[i].repo| > 0 && (es[i].name.Some? ==> |es[i].name.value| > 0)
  {
  }

  // --- Every command keeps the schema's demands ------------------------------------

  lemma {:induction false} ClearedIsDefaultFree(es: seq<Worktree>)
    ensures forall i :: 0 <= i < |es| ==> !IsDefault(ClearDefaults(es)[i]) && ClearDefaults(es)[i].name == es[i].name
    ensures Valid(es) ==> Valid(ClearDefaults(es))
  {
  }

  lemma {:induction false} WithoutOneKeeps(es: seq<Worktree>, k: nat)
    requires Valid(es) && k < |es|
    ensures Valid(es[..k] + es[k + 1..])
  {
  }

  lemma {:induction false} AddedKeeps(rest: seq<Worktree>, e: Worktree)
    requires Valid(rest) && FieldsOk(e) && e.name.Some?
    requires forall i :: 0 <= i < |rest| ==> rest[i].name != e.name && !(IsDefault(e) && IsDefault(rest[i]))
    ensures Valid(rest + [e])
  {
  }

  lemma {:induction false} SetKeepsValid(es: seq<Worktree>, path: string, tag: string, asked: bool, norm: Normalizer)
    requires Valid(es) && path != "" && tag != ""
    ensures Valid(SetWorktree(es, path, tag, asked, norm))
  {
    var target := TargetOf(es, path, tag, norm);
    var rest := if target.Some? then es[..target.value] + es[target.value + 1..] else es;
    if target.Some? {
      WithoutOneKeeps(es, target.value);
      assert FieldsOk(es[target.value]);
    }
    ClearedIsDefaultFree(rest);
    forall i | 0 <= i < |rest| ensures rest[i].name != Some(tag) {
      if target.Some? {
        var j := if i < target.value then i else i + 1;
        assert rest[i] == es[j];
        assert !SameName(es[if j < target.value then j else target.value], es[if j < target.value then target.value else j]);
      }
    }
    var result := SetWorktree(es, path, tag, asked, norm);
    var updated := result[|rest|];
    AddedKeeps(if MakesDefault(es, tag, asked) then ClearDefaults(rest) else rest, updated);
  }

  /** The entry a command does not aim at keeps everything but, for a new default, its own default flag. */
  ghost predicate Spared(e: Worktree, next: Worktree, newDefault: bool) {
    next == if newDefault && IsDefault(e) then Cleared(e) else e
  }

  /** worktree.set ends with one entry under the label, at the given path and with what its target knew. */
  lemma {:induction false} SetMeans(es: seq<Worktree>, path: string, tag: string, asked: bool, norm: Normalizer)
    requires Valid(es) && path != "" && tag != ""
    ensures var target, result := TargetOf(es, path, tag, norm), SetWorktree(es, path, tag, asked, norm);
            var last := result[|result| - 1];
            && |result| == |es| + (if target.None? then 1 else 0)
            && last.name == Some(tag) && last.path == path && (IsDefault(last) <==> MakesDefault(es, tag, asked))
            && (target.Some? ==> last.repo == es[target.value].repo && last.details == es[target.value].details)
            && (target.None? ==> last.repo == path)
            && forall i :: 0 <= i < |result| - 1 ==> result[i].name != Some(tag)
  {
    SetKeepsValid(es, path, tag, asked, norm);
    var result := SetWorktree(es, path, tag, asked, norm);
    forall i | 0 <= i < |result| - 1 ensures result[i].name != Some(tag) {
      assert !SameName(result[i], result[|result| - 1]);
    }
  }

  /** What set aims at: the entry with the label, or else the first unlabelled one at the path. */
  lemma {:induction false} TargetIs(es: seq<Worktree>, path: string, tag: string, norm: Normalizer)
    ensures match TargetOf(es, path, tag, norm)
            case None => forall j :: 0 <= j < |es| ==>
              es[j].name != Some(tag) && (es[j].name.None? ==> norm(es[j].path) != norm(path))
            case Some(t) =>
              || es[t].name == Some(tag)
              || (&& (forall j :: 0 <= j < |es| ==> es[j].name != Some(tag))
                  && es[t].name.None? && norm(es[t].path) == norm(path)
                  && forall j :: 0 <= j < t ==> !(es[j].name.None? && norm(es[j].path) == norm(path)))
  {
    SweptIsFirst(es, path, norm, 0);
  }

  lemma {:induction false} SweptIsFirst(es: seq<Worktree>, path: string, norm: Normalizer, i: nat)
    ensures var r := SweptFrom(es, path, norm, i);
            r.Some? ==> forall j :: i <= j < r.value ==> !(es[j].name.None? && norm(es[j].path) == norm(path))
    decreases |es| - i
  {
    if i < |es| {
      SweptIsFirst(es, path, norm, i + 1);
    }
  }

  /** A label is on one entry only. */
  lemma {:induction false} OneEach(es: seq<Worktree>, i: nat, j: nat)
    requires NamesDistinct(es) && i < |es| && j < |es| && SameName(es[i], es[j]) && SameName(es[j], es[i])
    ensures i == j
  {
  }

  /**
   * The entry is the default afterwards exactly when that was asked for, or no other
   * label is registered, or its label was the default; then no other entry is, and
   * otherwise each is as it was.
   */
  lemma {:induction false} SetDefaultIff(
    es: seq<Worktree>, path: string, tag: string, asked: bool, norm: Normalizer)
    requires Valid(es) && path != "" && tag != ""
    ensures var result := SetWorktree(es, path, tag, asked, norm);
            var last := |result| - 1;
            && (result[last].flag == Some(true) <==>
                  || asked
                  || (forall i :: 0 <= i < |es| ==> es[i].name.None? || es[i].name == Some(tag))
                  || exists i :: 0 <= i < |es| && es[i].name == Some(tag) && es[i].flag == Some(true))
            && (result[last].flag == Some(true) ==> forall i :: 0 <= i < last ==> result[i].flag != Some(true))
            && (result[last].flag != Some(true) ==> forall i :: 0 <= i < last ==> result[i] in es)
  {
    SetKeepsValid(es, path, tag, asked, norm);
    var result := SetWorktree(es, path, tag, asked, norm);
    var last := |result| - 1;
    if i :| 0 <= i < |es| && es[i].name == Some(tag) && es[i].flag == Some(true) {
      var at := NamedFrom(es, tag, 0).value;
      OneEach(es, i, at);
    }
    assert forall i :: 0 <= i < last ==> !(IsDefault(result[i]) && IsDefault(result[last]));
  }

  /** The other entries stay in order. */
  lemma {:induction false} SetSpares(
    es: seq<Worktree>, path: string, tag: string, asked: bool, norm: Normalizer, i: nat)
    requires i < |es| && TargetOf(es, path, tag, norm) != Some(i)
    ensures var target, result := TargetOf(es, path, tag, norm), SetWorktree(es, path, tag, asked, norm);
            |result| >= |es| && Spared(es[i], result[if target.Some? && target.value < i then i - 1 else i], MakesDefault(es, tag, asked))
  {
    var target := TargetOf(es, path, tag, norm);
    var rest := if target.Some? then es[..target.value] + es[target.value + 1..] else es;
    assert rest[if target.Some? && target.value < i then i - 1 else i] == es[i];
  }

  /** worktree.set-default refuses an unknown label; otherwise the labelled entry alone is the default. */
  lemma {:induction false} SetDefaultMeans(es: seq<Worktree>, tag: string)
    requires Valid(es)
    ensures SetDefault(es, tag).None? <==> forall i :: 0 <= i < |es| ==> es[i].name != Some(tag)
    ensures SetDefault(es, tag).Some? ==>
      var next := SetDefault(es, tag).value;
      && |next| == |es| && DefaultCount(next) == 1
      && forall i :: 0 <= i < |es| ==>
           (IsDefault(next[i]) <==> es[i].name == Some(tag)) && Cleared(next[i]) == Cleared(es[i])
  {
    if SetDefault(es, tag).Some? {
      var next := SetDefault(es, tag).value;
      CountsDefaults(next);
      var at := NamedFrom(es, tag, 0).value;
      assert IsDefault(next[at]);
      forall i, j | 0 <= i < j < |next| ensures !(IsDefault(next[i]) && IsDefault(next[j])) {
        assert !SameName(es[i], es[j]);
      }
    }
  }

  /** The entry stands beside `other`: no shared label, no two defaults. */
  predicate Beside(e: Worktree, other: Worktree) {
    !SameName(e, other) && !(IsDefault(e) && IsDefault(other))
  }

  ghost predicate BesideAll(e: Worktree, es: seq<Worktree>) {
    forall x :: x in es ==> Beside(e, x)
  }

  lemma {:induction false} ValidConsIff(e: Worktree, rest: seq<Worktree>)
    ensures Valid([e] + rest) <==>
      && Valid(rest) && FieldsOk(e) && (IsDefault(e) ==> e.name.Some?)
      && BesideAll(e, rest)
  {
    var all := [e] + rest;
    assert all[0] == e && forall i :: 0 < i < |all| ==> all[i] == rest[i - 1];
    if Valid(all) {
      forall i | 0 <= i < |rest| ensures rest[i] == all[i + 1] && Beside(e, rest[i]) && FieldsOk(rest[i]) {
        assert !SameName(all[0], all[i + 1]);
      }
      assert AllFieldsOk(rest) && DefaultsNamed(rest);
      forall i, j | 0 <= i < j < |rest| ensures Beside(rest[i], rest[j]) {
        assert !SameName(all[i + 1], all[j + 1]);
      }
    } else if BesideAll(e, rest) {
      forall i | 0 <= i < |rest| ensures Beside(e, rest[i]) {
        assert rest[i] in rest;
      }
    }
  }

  lemma {:induction false} FilterKeepsValid(es: seq<Worktree>, keep: Worktree -> bool)
    requires Valid(es)
    ensures Valid(Filter(es, keep))
  {
    if es != [] {
      var rest := Filter(es[1..], keep);
      assert es == [es[0]] + es[1..];
      ValidConsIff(es[0], es[1..]);
      FilterKeepsValid(es[1..], keep);
      assert BesideAll(es[0], rest);
      if keep(es[0]) {
        ValidConsIff(es[0], rest);
      } else {
        assert Filter(es, keep) == rest;
      }
    }
  }

  lemma {:induction false} ExecuteKeepsValid(es: seq<Worktree>, c: Command, norm: Normalizer)
    requires Valid(es) && Accepted(c)
    ensures Valid(Execute(es, c, norm))
  {
    match c
    case Set(path, tag, asked) => SetKeepsValid(es, path, tag, asked, norm);
    case Default(tag) =>
    case Prune(keep) => FilterKeepsValid(es, keep);
    case Sweep(found) =>
  }

  /** Over every run of commands, names stay unique, defaults named, and at most one default. */
  lemma {:induction false} RunKeepsValid(es: seq<Worktree>, cs: seq<Command>, norm: Normalizer)
    requires Valid(es) && forall i :: 0 <= i < |cs| ==> Accepted(cs[i])
    ensures Valid(Run(es, cs, norm))
  {
    if cs != [] {
      RunKeepsValid(es, cs[..|cs| - 1], norm);
      ExecuteKeepsValid(Run(es, cs[..|cs| - 1], norm), cs[|cs| - 1], norm);
    }
  }

  // --- A default for every registered list ------------------------------------------

  ghost predicate HasNamed(es: seq<Worktree>) {
    exists i :: 0 <= i < |es| && es[i].name.Some?
  }

  ghost predicate HasDefault(es: seq<Worktree>) {
    exists i :: 0 <= i < |es| && IsDefault(es[i])
  }

  /** If anything is registered, something is the default; with Valid, exactly one thing. */
  ghost predicate Led(es: seq<Worktree>) {
    HasNamed(es) ==> HasDefault(es)
  }

  lemma {:induction false} SetLeads(es: seq<Worktree>, path: string, tag: string, asked: bool, norm: Normalizer)
    requires Valid(es) && Led(es)
    ensures HasDefault(SetWorktree(es, path, tag, asked, norm))
  {
    var result := SetWorktree(es, path, tag, asked, norm);
    if MakesDefault(es, tag, asked) {
      assert IsDefault(result[|result| - 1]);
    } else {
      var i :| 0 <= i < |es| && es[i].name.Some? && es[i].name != Some(tag);
      var d :| 0 <= d < |es| && IsDefault(es[d]);
      var target := TargetOf(es, path, tag, norm);
      assert target.Some? ==> d != target.value;
      assert result[if target.None? || d < target.value then d else d - 1] == es[d];
    }
  }

  /** Without prune, a list that has its default keeps exactly one through every run. */
  lemma {:induction false} RunKeepsLed(es: seq<Worktree>, cs: seq<Command>, norm: Normalizer)
    requires Valid(es) && Led(es) && forall i :: 0 <= i < |cs| ==> Accepted(cs[i]) && !cs[i].Prune?
    ensures Led(Run(es, cs, norm)) && Valid(Run(es, cs, norm))
    ensures HasDefault(es) ==> HasDefault(Run(es, cs, norm)) && DefaultCount(Run(es, cs, norm)) == 1
  {
    RunKeepsValid(es, cs, norm);
    CountsDefaults(Run(es, cs, norm));
    if cs != [] {
      RunKeepsLed(es, cs[..|cs| - 1], norm);
      var before := Run(es, cs[..|cs| - 1], norm);
      StepKeepsLed(before, cs[|cs| - 1], norm);
    }
  }

  lemma {:induction false} StepKeepsLed(es: seq<Worktree>, c: Command, norm: Normalizer)
    requires Valid(es) && Led(es) && Accepted(c) && !c.Prune?
    ensures Led(Execute(es, c, norm)) && (HasDefault(es) ==> HasDefault(Execute(es, c, norm)))
  {
    var next := Execute(es, c, norm);
    match c
    case Set(path, tag, asked) => SetLeads(es, path, tag, asked, norm);
    case Default(tag) =>
      var at := NamedFrom(es, tag, 0);
      if at.Some? {
        assert IsDefault(next[at.value]);
      }
    case Sweep(found) =>
      if d :| 0 <= d < |es| && IsDefault(es[d]) {
        assert IsDefault(next[d]);
      }
      forall i | |es| <= i < |next| ensures next[i].name.None? {
        assert next[i] == found[i - |es|];
      }
      assert forall i :: 0 <= i < |es| ==> next[i] == es[i];
    case _ =>
  }

  lemma {:induction false} NamedAfterPrune(es: seq<Worktree>, keep: Worktree -> bool)
    ensures HasNamed(Filter(es, keep)) <==> exists i :: 0 <= i < |es| && es[i].name.Some? && keep(es[i])
    ensures HasDefault(Filter(es, keep)) <==> exists i :: 0 <= i < |es| && IsDefault(es[i]) && keep(es[i])
  {
    var next := Filter(es, keep);
    forall i | 0 <= i < |next| ensures keep(next[i]) && exists j :: 0 <= j < |es| && es[j] == next[i] {
      assert next[i] in next;
    }
    forall j | 0 <= j < |es| && keep(es[j]) ensures exists i :: 0 <= i < |next| && next[i] == es[j] {
      assert es[j] in next;
    }
  }

  /** Pruning keeps a default for the registered exactly when it keeps the default, or no registered entry. */
  lemma {:induction false} PruneKeepsLedIff(es: seq<Worktree>, keep: Worktree -> bool)
    requires Valid(es) && Led(es)
    ensures Led(Filter(es, keep)) <==>
      (forall i :: 0 <= i < |es| && IsDefault(es[i]) ==> keep(es[i]))
      || (forall i :: 0 <= i < |es| && es[i].name.Some? ==> !keep(es[i]))
  {
    NamedAfterPrune(es, keep);
  }

  /** A default and another registered entry, of which only the second is kept: no default is left. */
  lemma {:induction false} PruningLosesTheDefault()
    ensures var es := [Worktree("/a", "/a", "", Some("main"), Some(true)), Worktree("/b", "/b", "", Some("side"), None)];
            Valid(es) && Led(es) && !Led(Filter(es, (e: Worktree) => e.path == "/b"))
  {
    var es := [Worktree("/a", "/a", "", Some("main"), Some(true)), Worktree("/b", "/b", "", Some("side"), None)];
    var keep := (e: Worktree) => e.path == "/b";
    assert IsDefault(es[0]) && !keep(es[0]);
    assert es[1].name.Some? && keep(es[1]);
    PruneKeepsLedIff(es, keep);
  }
}
