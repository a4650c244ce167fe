/**
 * The v3 to v4 migration: the brief's worktrees move into the list of
 * artifacts.yml (src/migrations/v3-to-v4-worktrees.ts).
 */
module WorktreeMerge {
  import opened Prelude
  import opened Worktrees

  /** One value of the brief's `worktrees` object; its keys are distinct. */
  datatype RawWorktree = RawWorktree(name: string, path: Option<string>, isDefault: bool)

  datatype Incoming = Incoming(name: string, path: string, isDefault: bool)

  predicate Usable(raw: RawWorktree) {
    raw.path.Some? && raw.path.value != ""
  }

  function ToEntriesSpec(raws: seq<RawWorktree>): seq<Incoming> {
    if raws == [] then []
    else
      var last := raws[|raws| - 1];
      ToEntriesSpec(raws[..|raws| - 1])
      + (if Usable(last) then [Incoming(last.name, last.path.value, last.isDefault)] else [])
  }

  method ToEntries(raws: seq<RawWorktree>) returns (entries: seq<Incoming>)
    ensures entries == ToEntriesSpec(raws)
  {
    entries := [];
    for i := 0 to |raws|
      invariant entries == ToEntriesSpec(raws[..i])
    {
      assert raws[..i + 1][..i] == raws[..i];
      var raw := raws[i];
      if raw.path.Some? && raw.path.value != "" {
        entries := entries + [Incoming(raw.name, raw.path.value, raw.isDefault)];
      }
    }
    assert raws[..|raws|] == raws;
  }

  function Labelled(e: Worktree, wt: Incoming): Worktree {
    e.(name := Some(wt.name), flag := if wt.isDefault then Some(true) else None)
  }

  function MergeOne(out: seq<Worktree>, wt: Incoming, norm: Normalizer): seq<Worktree> {
    var found := SweptFrom(out, wt.path, norm, 0);
    if found.Some? then out[found.value := Labelled(out[found.value], wt)]
    else out + [Labelled(Worktree(wt.path, wt.path, "", None, None), wt)]
  }

  function MergeAll(existing: seq<Worktree>, incoming: seq<Incoming>, norm: Normalizer): seq<Worktree> {
    if incoming == [] then existing
    else MergeOne(MergeAll(existing, incoming[..|incoming| - 1], norm), incoming[|incoming| - 1], norm)
  }

  predicate DefaultBefore(es: seq<Worktree>, i: nat)
    requires i <= |es|
  {
    exists j :: 0 <= j < i && IsDefault(es[j])
  }

  /** Only the first default stays one. */
  function FirstDefaultOnly(es: seq<Worktree>): (r: seq<Worktree>)
    ensures |r| == |es|
  {
    seq(|es|, i requires 0 <= i < |es| => if IsDefault(es[i]) && DefaultBefore(es, i) then Cleared(es[i]) else es[i])
  }

  function Merge(existing: seq<Worktree>, incoming: seq<Incoming>, norm: Normalizer): seq<Worktree> {
    FirstDefaultOnly(MergeAll(existing, incoming, norm))
  }

  /** mergeWorktrees: promotes or pushes for each entry, then keeps one default if there are more. */
  method MergeWorktrees(existing: seq<Worktree>, incoming: seq<Incoming>, norm: Normalizer) returns (out: seq<Worktree>)
    ensures out == Merge(existing, incoming, norm)
  {
    out := existing;
    for k := 0 to |incoming|
      invariant out == MergeAll(existing, incoming[..k], norm)
    {
      assert incoming[..k + 1][..k] == incoming[..k];
      var wt := incoming[k];
      var at := SweptFrom(out, wt.path, norm, 0);
      var target := if at.Some? then out[at.value] else Worktree(wt.path, wt.path, "", None, None);
      target := target.(name := Some(wt.name));
      target := target.(flag := if wt.isDefault then Some(true) else None);
      if at.Some? {
        out := out[at.value := target];
      } else {
        out := out + [target];
      }
    }
    assert incoming[..|incoming|] == incoming;
    CountsDefaults(out);
    if DefaultCount(out) > 1 {
      out := KeepFirstDefault(out);
    }
    assert DefaultCount(MergeAll(existing, incoming, norm)) <= 1 ==> out == FirstDefaultOnly(out);
  }

  method KeepFirstDefault(merged: seq<Worktree>) returns (out: seq<Worktree>)
    ensures out == FirstDefaultOnly(merged)
  {
    out := merged;
    var kept := false;
    for i := 0 to |merged|
      invariant |out| == |merged|
      invariant kept <==> DefaultBefore(merged, i)
      invariant forall j :: 0 <= j < i ==> out[j] == FirstDefaultOnly(merged)[j]
      invariant forall j :: i <= j < |merged| ==> out[j] == merged[j]
    {
      if IsDefault(out[i]) {
        if kept {
          out := out[i := Cleared(out[i])];
        }
        kept := true;
      }
    }
  }

  // --- What the merge keeps and adds --------------------------------------------------

  /** An entry of the list after some merging: its place and facts stay, a label stays once given. */
  ghost predicate Became(e: Worktree, next: Worktree) {
    && next.path == e.path && next.repo == e.repo && next.details == e.details
    && (e.name.Some? ==> next == e)
  }

  ghost predicate Grows(es: seq<Worktree>, next: seq<Worktree>) {
    |es| <= |next| && forall i :: 0 <= i < |es| ==> Became(es[i], next[i])
  }

  lemma {:induction false} MergeGrows(existing: seq<Worktree>, incoming: seq<Incoming>, k: nat, norm: Normalizer)
    requires k <= |incoming|
    ensures Grows(MergeAll(existing, incoming[..k], norm), MergeAll(existing, incoming, norm))
    decreases |incoming| - k
  {
    if k == |incoming| {
      assert incoming[..k] == incoming;
    } else {
      MergeGrows(existing, incoming, k + 1, norm);
      assert incoming[..k + 1][..k] == incoming[..k];
    }
  }

  /**
   * Every entry there before is there after, at its place; one that was registered is the same
   * but perhaps for a second default.
   */
  lemma {:induction false} MergeKeepsExisting(existing: seq<Worktree>, incoming: seq<Incoming>, norm: Normalizer)
    ensures var next := Merge(existing, incoming, norm);
      && |existing| <= |next|
      && forall i :: 0 <= i < |existing| ==>
           && next[i].path == existing[i].path && next[i].repo == existing[i].repo && next[i].details == existing[i].details
           && (existing[i].name.Some? ==> next[i] == existing[i] || (IsDefault(existing[i]) && next[i] == Cleared(existing[i])))
  {
    MergeGrows(existing, incoming, 0, norm);
    assert incoming[..0] == [];
  }

  /** Where entry k of the brief went: a place not labelled before, at its path. */
  lemma {:induction false} MergePlaces(
    existing: seq<Worktree>, incoming: seq<Incoming>, k: nat, norm: Normalizer)
    returns (at: nat)
    requires k < |incoming|
    ensures var before, next := MergeAll(existing, incoming[..k], norm), MergeAll(existing, incoming, norm);
            && at < |next| && next[at].name == Some(incoming[k].name)
            && norm(next[at].path) == norm(incoming[k].path)
            && (at < |before| ==> before[at].name.None?)
            && (at < |existing| ==> existing[at].name.None?)
            && next[at].flag == (if incoming[k].isDefault then Some(true) else None)
            && (at >= |existing| ==>
                  next[at].path == incoming[k].path && next[at].repo == incoming[k].path && next[at].details == "")
  {
    var before := MergeAll(existing, incoming[..k], norm);
    assert incoming[..k + 1][..k] == incoming[..k];
    MergeGrows(existing, incoming, k + 1, norm);
    MergeGrows(existing, incoming[..k], 0, norm);
    assert incoming[..k][..0] == [];
    AddedAreNamed(existing, incoming[..k], norm);
    var swept := SweptFrom(before, incoming[k].path, norm, 0);
    at := if swept.Some? then swept.value else |before|;
    var after := MergeAll(existing, incoming[..k + 1], norm);
    assert Became(after[at], MergeAll(existing, incoming, norm)[at]);
  }

  /** Every entry that was added has a label. */
  lemma {:induction false} AddedAreNamed(existing: seq<Worktree>, incoming: seq<Incoming>, norm: Normalizer)
    ensures var next := MergeAll(existing, incoming, norm);
            |next| >= |existing| && forall i :: |existing| <= i < |next| ==> next[i].name.Some?
  {
    if incoming != [] {
      AddedAreNamed(existing, incoming[..|incoming| - 1], norm);
    }
  }

  ghost predicate LabelsDistinct(incoming: seq<Incoming>) {
    forall i, j :: 0 <= i < j < |incoming| ==> incoming[i].name != incoming[j].name
  }

  /** The labels that are neither empty nor taken. */
  ghost predicate LabelsFree(existing: seq<Worktree>, incoming: seq<Incoming>) {
    forall k :: 0 <= k < |incoming| ==>
      incoming[k].name != "" && forall i :: 0 <= i < |existing| ==> existing[i].name != Some(incoming[k].name)
  }

  ghost predicate PathsGiven(incoming: seq<Incoming>) {
    forall k :: 0 <= k < |incoming| ==> incoming[k].path != ""
  }

  /** The labels in the list are those there before and the first k of the brief. */
  ghost predicate LabelsFrom(es: seq<Worktree>, existing: seq<Worktree>, incoming: seq<Incoming>, k: nat) {
    forall i :: 0 <= i < |es| && es[i].name.Some? ==>
      || (exists j :: 0 <= j < |existing| && existing[j].name == es[i].name)
      || (exists j :: 0 <= j < k && j < |incoming| && Some(incoming[j].name) == es[i].name)
  }

  lemma {:induction false} MergeNames(existing: seq<Worktree>, incoming: seq<Incoming>, k: nat, norm: Normalizer)
    requires NamesDistinct(existing) && LabelsDistinct(incoming) && LabelsFree(existing, incoming)
    requires k <= |incoming|
    ensures NamesDistinct(MergeAll(existing, incoming[..k], norm))
    ensures LabelsFrom(MergeAll(existing, incoming[..k], norm), existing, incoming, k)
  {
    if k > 0 {
      MergeNames(existing, incoming, k - 1, norm);
      assert incoming[..k][..k - 1] == incoming[..k - 1];
      var before := MergeAll(existing, incoming[..k - 1], norm);
      var wt := incoming[k - 1];
      forall i | 0 <= i < |before| ensures before[i].name != Some(wt.name) {
        if before[i].name.Some? {
          assert LabelsFrom(before, existing, incoming, k - 1);
        }
      }
      OneMoreLabel(before, wt, norm);
      LabelsGrow(before, existing, incoming, k, norm);
    }
  }

  lemma {:induction false} OneMoreLabel(before: seq<Worktree>, wt: Incoming, norm: Normalizer)
    requires NamesDistinct(before) && forall i :: 0 <= i < |before| ==> before[i].name != Some(wt.name)
    ensures NamesDistinct(MergeOne(before, wt, norm))
  {
  }

  lemma {:induction false} MergeFields(existing: seq<Worktree>, incoming: seq<Incoming>, k: nat, norm: Normalizer)
    requires AllFieldsOk(existing) && PathsGiven(incoming) && LabelsFree(existing, incoming) && k <= |incoming|
    ensures AllFieldsOk(MergeAll(existing, incoming[..k], norm))
  {
    if k > 0 {
      MergeFields(existing, incoming, k - 1, norm);
      assert incoming[..k][..k - 1] == incoming[..k - 1];
      var before := MergeAll(existing, incoming[..k - 1], norm);
      var at := SweptFrom(before, incoming[k - 1].path, norm, 0);
      assert at.Some? ==> FieldsOk(before[at.value]);
    }
  }

  lemma {:induction false} LabelsGrow(
    before: seq<Worktree>, existing: seq<Worktree>, incoming: seq<Incoming>, k: nat, norm: Normalizer)
    requires 0 < k <= |incoming| && LabelsFrom(before, existing, incoming, k - 1)
    ensures LabelsFrom(MergeOne(before, incoming[k - 1], norm), existing, incoming, k)
  {
    var next := MergeOne(before, incoming[k - 1], norm);
    forall i | 0 <= i < |next| && next[i].name.Some? && next[i].name != Some(incoming[k - 1].name)
      ensures i < |before| && before[i].name == next[i].name
    {
    }
  }

  /** The first default, if there is one, is labelled. */
  ghost predicate LeadNamed(es: seq<Worktree>) {
    forall i :: 0 <= i < |es| && IsDefault(es[i]) && !DefaultBefore(es, i) ==> es[i].name.Some?
  }

  lemma {:induction false} FirstDefaultIsSoundIff(es: seq<Worktree>)
    requires AllFieldsOk(es) && NamesDistinct(es)
    ensures Valid(FirstDefaultOnly(es)) <==> LeadNamed(es)
  {
    var next := FirstDefaultOnly(es);
    forall i | 0 <= i < |es| ensures IsDefault(next[i]) <==> IsDefault(es[i]) && !DefaultBefore(es, i) {
    }
  }

  /** What a valid merge tells of the list it started from. */
  lemma {:induction false} ValidMergeNeeds(existing: seq<Worktree>, incoming: seq<Incoming>, norm: Normalizer)
    requires Valid(Merge(existing, incoming, norm))
    ensures AllFieldsOk(existing) && NamesDistinct(existing) && LabelsFree(existing, incoming)
  {
    var next := Merge(existing, incoming, norm);
    MergeKeepsExisting(existing, incoming, norm);
    forall i | 0 <= i < |existing| ensures FieldsOk(existing[i]) {
      assert FieldsOk(next[i]);
    }
    forall i, j | 0 <= i < j < |existing| ensures !SameName(existing[i], existing[j]) {
      assert !SameName(next[i], next[j]);
    }
    if !LabelsFree(existing, incoming) {
      var k :| 0 <= k < |incoming| &&
        (incoming[k].name == "" || exists i :: 0 <= i < |existing| && existing[i].name == Some(incoming[k].name));
      TakenLabelBreaks(existing, incoming, k, norm);
    }
  }

  /**
   * From any list, the merge is valid exactly when the list has its fields and no
   * label twice, every label of the brief is non-empty and not registered yet, and
   * the first default among the merged entries, which is the one kept, is labelled.
   */
  lemma {:induction false} MergeIsValidIff(existing: seq<Worktree>, incoming: seq<Incoming>, norm: Normalizer)
    requires LabelsDistinct(incoming) && PathsGiven(incoming)
    ensures Valid(Merge(existing, incoming, norm)) <==>
            && AllFieldsOk(existing) && NamesDistinct(existing) && LabelsFree(existing, incoming)
            && LeadNamed(MergeAll(existing, incoming, norm))
  {
    assert incoming[..|incoming|] == incoming;
    if AllFieldsOk(existing) && NamesDistinct(existing) && LabelsFree(existing, incoming) {
      MergeFields(existing, incoming, |incoming|, norm);
      MergeNames(existing, incoming, |incoming|, norm);
      FirstDefaultIsSoundIff(MergeAll(existing, incoming, norm));
    } else if Valid(Merge(existing, incoming, norm)) {
      ValidMergeNeeds(existing, incoming, norm);
    }
  }

  lemma {:induction false} DefaultsStayNamed(existing: seq<Worktree>, incoming: seq<Incoming>, k: nat, norm: Normalizer)
    requires DefaultsNamed(existing) && k <= |incoming|
    ensures DefaultsNamed(MergeAll(existing, incoming[..k], norm))
  {
    if k > 0 {
      DefaultsStayNamed(existing, incoming, k - 1, norm);
      assert incoming[..k][..k - 1] == incoming[..k - 1];
    }
  }

  /** From a list the schema accepts, only a taken or empty label makes the merge invalid. */
  lemma {:induction false} ValidListMergesIff(existing: seq<Worktree>, incoming: seq<Incoming>, norm: Normalizer)
    requires Valid(existing) && LabelsDistinct(incoming) && PathsGiven(incoming)
    ensures Valid(Merge(existing, incoming, norm)) <==> LabelsFree(existing, incoming)
  {
    MergeIsValidIff(existing, incoming, norm);
    DefaultsStayNamed(existing, incoming, |incoming|, norm);
    assert incoming[..|incoming|] == incoming;
  }

  lemma {:induction false} TakenLabelBreaks(existing: seq<Worktree>, incoming: seq<Incoming>, k: nat, norm: Normalizer)
    requires k < |incoming|
    requires incoming[k].name == "" || exists i :: 0 <= i < |existing| && existing[i].name == Some(incoming[k].name)
    ensures !Valid(Merge(existing, incoming, norm))
  {
    var next := Merge(existing, incoming, norm);
    var at := MergePlaces(existing, incoming, k, norm);
    assert next[at].name == Some(incoming[k].name);
    if incoming[k].name == "" {
      assert !FieldsOk(next[at]);
    } else {
      var i :| 0 <= i < |existing| && existing[i].name == Some(incoming[k].name);
      MergeKeepsExisting(existing, incoming, norm);
      assert i != at && SameName(next[if i < at then i else at], next[if i < at then at else i]);
    }
  }

  /** With free labels, each label of the brief is on exactly one entry, at the brief's path. */
  lemma {:induction false} EachLabelOnce(
    existing: seq<Worktree>, incoming: seq<Incoming>, k: nat, norm: Normalizer)
    returns (at: nat)
    requires NamesDistinct(existing) && LabelsDistinct(incoming) && LabelsFree(existing, incoming)
    requires k < |incoming|
    ensures var next := Merge(existing, incoming, norm);
      && at < |next| && norm(next[at].path) == norm(incoming[k].path)
      && forall i :: 0 <= i < |next| ==> (next[i].name == Some(incoming[k].name) <==> i == at)
  {
    var next, merged := Merge(existing, incoming, norm), MergeAll(existing, incoming, norm);
    at := MergePlaces(existing, incoming, k, norm);
    MergeNames(existing, incoming, |incoming|, norm);
    assert incoming[..|incoming|] == incoming;
    forall i | 0 <= i < |next| && i != at ensures next[i].name != Some(incoming[k].name) {
      assert !SameName(merged[if i < at then i else at], merged[if i < at then at else i]);
    }
  }

  // --- The two files ----------------------------------------------------------------------

  /** One initiative: its artifacts list, and its brief's `worktrees` key. */
  datatype Store = Store(artifacts: seq<Worktree>, brief: Option<seq<RawWorktree>>)

  datatype Outcome = Done(store: Store) | Refused

  ghost predicate Accepts(existing: seq<Worktree>, incoming: seq<Incoming>, norm: Normalizer) {
    Valid(Merge(existing, incoming, norm))
  }

  /** The store after the artifacts are written and before the brief is; the schema may refuse the merge. */
  ghost function ArtifactsWritten(s: Store, norm: Normalizer): Outcome {
    if s.brief.None? then Done(s)
    else
      var incoming := ToEntriesSpec(s.brief.value);
      if incoming == [] then Done(s)
      else if Accepts(s.artifacts, incoming, norm) then Done(s.(artifacts := Merge(s.artifacts, incoming, norm)))
      else Refused
  }

  ghost function MigrateOne(s: Store, norm: Normalizer): Outcome {
    match ArtifactsWritten(s, norm)
    case Refused => Refused
    case Done(written) => Done(written.(brief := None))
  }

  ghost predicate KeysDistinct(raws: seq<RawWorktree>) {
    forall i, j :: 0 <= i < j < |raws| ==> raws[i].name != raws[j].name
  }

  lemma {:induction false} EntriesAre(raws: seq<RawWorktree>)
    requires KeysDistinct(raws)
    ensures LabelsDistinct(ToEntriesSpec(raws)) && PathsGiven(ToEntriesSpec(raws))
    ensures forall k :: 0 <= k < |ToEntriesSpec(raws)| ==> exists i :: 0 <= i < |raws| && raws[i].name == ToEntriesSpec(raws)[k].name
  {
    if raws != [] {
      EntriesAre(raws[..|raws| - 1]);
    }
  }

  ghost function HasPath(raws: seq<RawWorktree>): nat -> bool {
    (i: nat) => i < |raws| && raws[i].path.Some? && raws[i].path.value != ""
  }

  /** The entries are the values of the brief that have a path, in order, with label, path and default flag. */
  lemma {:induction false} EntriesHold(raws: seq<RawWorktree>, n: nat)
    requires n <= |raws|
    ensures var at, entries := Listing(n, HasPath(raws)), ToEntriesSpec(raws[..n]);
            && |entries| == |at|
            && forall k :: 0 <= k < |at| ==>
                 && entries[k].name == raws[at[k]].name && Some(entries[k].path) == raws[at[k]].path
                 && entries[k].isDefault == raws[at[k]].isDefault
  {
    if n > 0 {
      EntriesHold(raws, n - 1);
      assert raws[..n][..n - 1] == raws[..n - 1];
    }
  }

  /**
   * When the step goes through, each value of the brief with a path is registered: its
   * label is on one entry, at its path, and the default exactly if the brief said so
   * and no earlier entry is one. An entry made for it holds nothing else.
   */
  lemma {:induction false} EachValueMoves(s: Store, norm: Normalizer, i: nat) returns (at: nat)
    requires s.brief.Some? && KeysDistinct(s.brief.value) && MigrateOne(s, norm).Done?
    requires i < |s.brief.value| && HasPath(s.brief.value)(i)
    ensures var next, raw := MigrateOne(s, norm).store.artifacts, s.brief.value[i];
            && at < |next| && norm(next[at].path) == norm(raw.path.value)
            && (forall j :: 0 <= j < |next| ==> (next[j].name == Some(raw.name) <==> j == at))
            && (next[at].flag == Some(true) <==>
                  raw.isDefault && forall j :: 0 <= j < at ==> next[j].flag != Some(true))
            && (at >= |s.artifacts| ==>
                  next[at].path == raw.path.value && next[at].repo == raw.path.value && next[at].details == "")
  {
    var raws := s.brief.value;
    var incoming := ToEntriesSpec(raws);
    assert raws[..|raws|] == raws;
    EntriesHold(raws, |raws|);
    ListingIs(|raws|, HasPath(raws));
    var k :| 0 <= k < |incoming| && Listing(|raws|, HasPath(raws))[k] == i;
    at := MergePlaces(s.artifacts, incoming, k, norm);
    OneDefaultStays(s.artifacts, incoming, norm, at);
    var next := MigrateOne(s, norm).store.artifacts;
    forall j | 0 <= j < |next| && j != at ensures next[j].name != Some(raws[i].name) {
      assert !SameName(next[if j < at then j else at], next[if j < at then at else j]);
    }
  }

  /** Of the merged defaults the first stays. */
  lemma {:induction false} OneDefaultStays(
    existing: seq<Worktree>, incoming: seq<Incoming>, norm: Normalizer, at: nat)
    requires at < |MergeAll(existing, incoming, norm)|
    ensures var merged, next := MergeAll(existing, incoming, norm), Merge(existing, incoming, norm);
            && next[at].(flag := merged[at].flag) == merged[at]
            && (next[at].flag == Some(true) <==>
                  merged[at].flag == Some(true) && forall j :: 0 <= j < at ==> next[j].flag != Some(true))
  {
    var merged, next := MergeAll(existing, incoming, norm), Merge(existing, incoming, norm);
    if IsDefault(merged[at]) && DefaultBefore(merged, at) {
      FirstDefaultBefore(merged, at);
    }
  }

  lemma {:induction false} FirstDefaultBefore(merged: seq<Worktree>, at: nat)
    requires at <= |merged| && DefaultBefore(merged, at)
    ensures exists j :: 0 <= j < at && IsDefault(FirstDefaultOnly(merged)[j])
  {
    var j :| 0 <= j < at && IsDefault(merged[j]);
    if DefaultBefore(merged, j) {
      FirstDefaultBefore(merged, j);
    } else {
      assert IsDefault(FirstDefaultOnly(merged)[j]);
    }
  }

  /** Stopped between the two writes, the step can be run again exactly when the brief held nothing to move. */
  lemma {:induction false} StopBetweenIsFatalIff(s: Store, norm: Normalizer)
    requires s.brief.Some? && KeysDistinct(s.brief.value)
    requires ArtifactsWritten(s, norm).Done?
    ensures MigrateOne(ArtifactsWritten(s, norm).store, norm).Done? <==> ToEntriesSpec(s.brief.value) == []
  {
    var incoming := ToEntriesSpec(s.brief.value);
    EntriesAre(s.brief.value);
    if incoming != [] {
      var mid := ArtifactsWritten(s, norm).store;
      var at := MergePlaces(s.artifacts, incoming, 0, norm);
      assert mid.artifacts[at].name == Some(incoming[0].name);
      TakenLabelBreaks(mid.artifacts, incoming, 0, norm);
    }
  }

  /** An empty list, and one worktree in the brief. */
  function OneToMove(): Store {
    Store([], Some([RawWorktree("main", Some("/w"), true)]))
  }

  /** It moves, and after a stop between the writes it never moves again. */
  lemma {:induction false} OneToMoveIsStuck(norm: Normalizer)
    ensures var s := OneToMove();
            && MigrateOne(s, norm).Done? && ArtifactsWritten(s, norm).Done?
            && MigrateOne(ArtifactsWritten(s, norm).store, norm).Refused?
  {
    var s := OneToMove();
    var raws := s.brief.value;
    assert raws[..0] == [];
    assert ToEntriesSpec(raws) == [] + [Incoming("main", "/w", true)];
    EntriesAre(raws);
    ValidListMergesIff(s.artifacts, ToEntriesSpec(raws), norm);
    StopBetweenIsFatalIff(s, norm);
  }

  /**
   * The step as a whole goes through exactly when there is nothing to move, or the
   * merge is valid; run again after that, it changes nothing.
   */
  lemma {:induction false} StepSucceedsIff(s: Store, norm: Normalizer)
    requires s.brief.Some? ==> KeysDistinct(s.brief.value)
    ensures var incoming := ToEntriesSpec(s.brief.GetOr([]));
            MigrateOne(s, norm).Done? <==>
            || incoming == []
            || (&& AllFieldsOk(s.artifacts) && NamesDistinct(s.artifacts) && LabelsFree(s.artifacts, incoming)
                && LeadNamed(MergeAll(s.artifacts, incoming, norm)))
    ensures MigrateOne(s, norm).Done? ==>
              var next := MigrateOne(s, norm).store;
              && (Valid(s.artifacts) || ToEntriesSpec(s.brief.GetOr([])) != [] ==> Valid(next.artifacts))
              && MigrateOne(next, norm) == Done(next)
  {
    if s.brief.Some? {
      EntriesAre(s.brief.value);
      MergeIsValidIff(s.artifacts, ToEntriesSpec(s.brief.value), norm);
    }
  }

  /** ArtifactsSchema.parse on a worktree list. */
  method Parses(es: seq<Worktree>) returns (ok: bool)
    ensures ok <==> Valid(es)
  {
    var issues := Refine(es);
    NoIssuesIff(es);
    ok := issues == [];
    for i := 0 to |es|
      invariant ok <==> issues == [] && forall j :: 0 <= j < i ==> FieldsOk(es[j])
    {
      ok := ok && FieldsOk(es[i]);
    }
  }

  /** artifacts.yml and brief.md of one initiative. */
  class InitiativeFiles {
    var artifacts: seq<Worktree>
    var brief: Option<seq<RawWorktree>>
    /** The store between the two writes of the last migration. */
    ghost var between: Store

    constructor (s: Store)
      ensures Now() == s && between == s
    {
      artifacts, brief := s.artifacts, s.brief;
      between := s;
    }

    function Now(): Store
      reads this
    {
      Store(artifacts, brief)
    }

    /** Writes the artifacts first and the brief second; how many worktrees moved, None when the merge is refused. */
    method Migrate(norm: Normalizer) returns (moved: Option<nat>)
      modifies this
      ensures match MigrateOne(old(Now()), norm)
        case Done(next) =>
          && Now() == next && moved.Some? && Done(between) == ArtifactsWritten(old(Now()), norm)
          && moved.value == if old(brief).Some? then |ToEntriesSpec(old(brief).value)| else 0
        case Refused => Now() == old(Now()) && moved.None?
    {
      between := Now();
      if brief.None? {
        return Some(0);
      }
      var incoming := ToEntries(brief.value);
      if |incoming| > 0 {
        var merged := MergeWorktrees(artifacts, incoming, norm);
        var ok := Parses(merged);
        if !ok {
          return None;
        }
        artifacts := merged;
      }
      between := Now();
      brief := None;
      moved := Some(|incoming|);
    }
  }
}
