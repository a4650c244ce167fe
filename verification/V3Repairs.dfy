/**
 * Repairs of known malformed session files (src/migrations/v3-repairs.ts): planned against the
 * disk, applied later, safe to stop and repeat. All are planned before the first is applied, so
 * that planning ahead does what planning each in turn would do is a fact about files no two
 * repairs share.
 */
module V3Repairs {
  import opened Prelude

  /** A markdown file. `valid` says whether it passes the session schema once its track is adhoc. */
  datatype Doc = Doc(readable: bool, track: Option<string>, valid: bool, unknownKeys: Option<string>, rest: string)

  type Disk = map<string, Doc>

  datatype KnownRepair = Retrack(file: string) | Relocate(file: string, target: string)

  const KNOWN_REPAIRS: seq<KnownRepair> := [
    Retrack("demo-site/sessions/2026-05-20-1000-example-retrack.md"),
    Relocate("example-app/sessions/ARCHIVED-handoff.md", "example-app/sources/ARCHIVED-handoff.md")]

  predicate GoodTrack(track: Option<string>) {
    track.Some? && track.value in {"canonical", "sidecar", "adhoc"}
  }

  datatype RepairPlan = Skip(file: string) | WriteDoc(file: string, doc: Doc) | Rename(file: string, target: string)

  function PlanRepair(disk: Disk, repair: KnownRepair): RepairPlan {
    if repair.file !in disk then Skip(repair.file)
    else
      match repair
      case Retrack(file) =>
        var doc := disk[file];
        if !doc.readable || GoodTrack(doc.track) || !doc.valid then Skip(file)
        else WriteDoc(file, doc.(track := Some("adhoc"), unknownKeys := None))
      case Relocate(file, target) =>
        if target in disk then Skip(file) else Rename(file, target)
  }

  function ApplyRepair(disk: Disk, plan: RepairPlan): Disk {
    match plan
    case Skip(_) => disk
    case WriteDoc(file, doc) => disk[file := doc]
    case Rename(file, target) => if file in disk then (disk - {file})[target := disk[file]] else disk
  }

  /** planRepairs: every repair against the same disk. */
  method PlanRepairs(disk: Disk, repairs: seq<KnownRepair>) returns (plans: seq<RepairPlan>)
    ensures plans == Plans(disk, repairs)
  {
    plans := [];
    for i := 0 to |repairs|
      invariant |plans| == i && forall j :: 0 <= j < i ==> plans[j] == PlanRepair(disk, repairs[j])
    {
      plans := plans + [PlanRepair(disk, repairs[i])];
    }
  }

  function Plans(disk: Disk, repairs: seq<KnownRepair>): (r: seq<RepairPlan>)
    ensures |r| == |repairs|
  {
    seq(|repairs|, i requires 0 <= i < |repairs| => PlanRepair(disk, repairs[i]))
  }

  function ApplyAll(disk: Disk, plans: seq<RepairPlan>): Disk {
    if plans == [] then disk else ApplyRepair(ApplyAll(disk, plans[..|plans| - 1]), plans[|plans| - 1])
  }

  /** One repair after the other, each planned when its turn comes. */
  function OneByOne(disk: Disk, repairs: seq<KnownRepair>): Disk {
    if repairs == [] then disk
    else
      var before := OneByOne(disk, repairs[..|repairs| - 1]);
      ApplyRepair(before, PlanRepair(before, repairs[|repairs| - 1]))
  }

  function Touches(repair: KnownRepair): set<string> {
    match repair
    case Retrack(file) => {file}
    case Relocate(file, target) => {file, target}
  }

  /** No two repairs touch the same file, and none moves a file onto itself. */
  ghost predicate Separate(repairs: seq<KnownRepair>) {
    && (forall i, j :: 0 <= i < j < |repairs| ==> Touches(repairs[i]) !! Touches(repairs[j]))
    && (forall i :: 0 <= i < |repairs| && repairs[i].Relocate? ==> repairs[i].file != repairs[i].target)
  }

  lemma {:induction false} KnownRepairsAreSeparate()
    ensures Separate(KNOWN_REPAIRS)
  {
    assert |KNOWN_REPAIRS[0].file| == 53 && |KNOWN_REPAIRS[1].file| == 40 && |KNOWN_REPAIRS[1].target| == 39;
  }

  ghost predicate AgreeOn(one: Disk, two: Disk, files: set<string>) {
    forall f :: f in files ==> (f in one <==> f in two) && (f in one ==> one[f] == two[f])
  }

  lemma {:induction false} RepairIsLocal(one: Disk, two: Disk, repair: KnownRepair)
    requires AgreeOn(one, two, Touches(repair))
    ensures PlanRepair(one, repair) == PlanRepair(two, repair)
    ensures AgreeOn(ApplyRepair(one, PlanRepair(one, repair)), ApplyRepair(two, PlanRepair(two, repair)), Touches(repair))
  {
  }

  lemma {:induction false} RepairLeavesOthers(disk: Disk, repair: KnownRepair, files: set<string>)
    requires Touches(repair) !! files
    ensures AgreeOn(ApplyRepair(disk, PlanRepair(disk, repair)), disk, files)
  {
  }

  /** A repair done is not planned again. */
  lemma {:induction false} RepairSettles(disk: Disk, repair: KnownRepair)
    requires repair.Relocate? ==> repair.file != repair.target
    ensures var next := ApplyRepair(disk, PlanRepair(disk, repair));
            ApplyRepair(next, PlanRepair(next, repair)) == next
  {
  }

  /** What a repair is for, said of the files it touches before and after. */
  ghost predicate Repaired(disk: Disk, next: Disk, repair: KnownRepair) {
    match repair
    case Retrack(file) =>
      (file in next <==> file in disk) &&
      (file in disk ==>
         var doc, now := disk[file], next[file];
         if doc.readable && doc.valid
           && doc.track != Some("canonical") && doc.track != Some("sidecar") && doc.track != Some("adhoc")
         then now.track == Some("adhoc") && now.unknownKeys == None && now.rest == doc.rest
         else now == doc)
    case Relocate(file, target) =>
      if file in disk && target !in disk then file !in next && target in next && next[target] == disk[file]
      else AgreeOn(disk, next, {file, target})
  }

  lemma {:induction false} OneRepairGives(disk: Disk, repair: KnownRepair)
    requires repair.Relocate? ==> repair.file != repair.target
    ensures Repaired(disk, ApplyRepair(disk, PlanRepair(disk, repair)), repair)
  {
  }

  lemma {:induction false} RepairedElsewhere(disk: Disk, next: Disk, one: Disk, two: Disk, repair: KnownRepair)
    requires Repaired(disk, next, repair)
    requires AgreeOn(disk, one, Touches(repair)) && AgreeOn(next, two, Touches(repair))
    ensures Repaired(one, two, repair)
  {
  }

  /** After all repairs each has done what it is for, and no other file has changed. */
  lemma {:induction false} RepairsGive(disk: Disk, repairs: seq<KnownRepair>, i: nat)
    requires Separate(repairs) && i < |repairs|
    ensures Repaired(disk, OneByOne(disk, repairs), repairs[i])
  {
    var init, last := repairs[..|repairs| - 1], repairs[|repairs| - 1];
    var before := OneByOne(disk, init);
    assert repairs[..|repairs| - 1] == init;
    if i < |init| {
      assert init[i] == repairs[i];
      RepairsGive(disk, init, i);
      RepairLeavesOthers(before, last, Touches(repairs[i]));
      RepairedElsewhere(disk, before, disk, OneByOne(disk, repairs), repairs[i]);
    } else {
      EarlierLeaveLater(disk, repairs, i, Touches(last));
      OneRepairGives(before, last);
      RepairedElsewhere(before, OneByOne(disk, repairs), disk, OneByOne(disk, repairs), last);
    }
  }

  lemma {:induction false} OthersUntouched(disk: Disk, repairs: seq<KnownRepair>, files: set<string>)
    requires forall i :: 0 <= i < |repairs| ==> Touches(repairs[i]) !! files
    ensures AgreeOn(OneByOne(disk, repairs), disk, files)
  {
    EarlierLeaveLater(disk, repairs, |repairs|, files);
    assert repairs[..|repairs|] == repairs;
  }

  lemma {:induction false} EarlierLeaveLater(disk: Disk, repairs: seq<KnownRepair>, k: nat, files: set<string>)
    requires k <= |repairs| && forall i :: 0 <= i < k ==> Touches(repairs[i]) !! files
    ensures AgreeOn(OneByOne(disk, repairs[..k]), disk, files)
  {
    if k > 0 {
      assert repairs[..k][..k - 1] == repairs[..k - 1];
      EarlierLeaveLater(disk, repairs, k - 1, files);
      RepairLeavesOthers(OneByOne(disk, repairs[..k - 1]), repairs[k - 1], files);
    }
  }

  /** Planning all repairs first and applying them later does what planning each in turn does. */
  lemma {:induction false} PlanAheadIsSafe(disk: Disk, repairs: seq<KnownRepair>, k: nat)
    requires Separate(repairs) && k <= |repairs|
    ensures ApplyAll(disk, Plans(disk, repairs)[..k]) == OneByOne(disk, repairs[..k])
  {
    if k > 0 {
      PlanAheadIsSafe(disk, repairs, k - 1);
      assert Plans(disk, repairs)[..k][..k - 1] == Plans(disk, repairs)[..k - 1];
      assert repairs[..k][..k - 1] == repairs[..k - 1];
      EarlierLeaveLater(disk, repairs, k - 1, Touches(repairs[k - 1]));
      RepairIsLocal(OneByOne(disk, repairs[..k - 1]), disk, repairs[k - 1]);
    }
  }

  /** What a settled repair leaves is the same whether the others run before it or not. */
  ghost predicate Settled(disk: Disk, repair: KnownRepair) {
    ApplyRepair(disk, PlanRepair(disk, repair)) == disk
  }

  lemma {:induction false} SettledIsLocal(one: Disk, two: Disk, repair: KnownRepair)
    requires Settled(one, repair) && AgreeOn(one, two, Touches(repair))
    requires repair.Relocate? ==> repair.file != repair.target
    ensures Settled(two, repair)
  {
    RepairIsLocal(one, two, repair);
  }

  lemma {:induction false} PrefixIsSettled(disk: Disk, repairs: seq<KnownRepair>, k: nat, i: nat)
    requires Separate(repairs) && i < k <= |repairs|
    ensures Settled(OneByOne(disk, repairs[..k]), repairs[i])
  {
    assert repairs[..k][..k - 1] == repairs[..k - 1];
    var before := OneByOne(disk, repairs[..k - 1]);
    if i == k - 1 {
      RepairSettles(before, repairs[i]);
    } else {
      PrefixIsSettled(disk, repairs, k - 1, i);
      RepairLeavesOthers(before, repairs[k - 1], Touches(repairs[i]));
      SettledIsLocal(before, OneByOne(disk, repairs[..k]), repairs[i]);
    }
  }

  lemma {:induction false} RepeatsNothing(disk: Disk, repairs: seq<KnownRepair>, k: nat, i: nat)
    requires Separate(repairs) && i <= k <= |repairs|
    ensures OneByOne(OneByOne(disk, repairs[..k]), repairs[..i]) == OneByOne(disk, repairs[..k])
  {
    if i > 0 {
      assert repairs[..i][..i - 1] == repairs[..i - 1];
      RepeatsNothing(disk, repairs, k, i - 1);
      PrefixIsSettled(disk, repairs, k, i - 1);
    }
  }

  lemma {:induction false} PicksUp(disk: Disk, repairs: seq<KnownRepair>, k: nat, i: nat)
    requires Separate(repairs) && k <= i <= |repairs|
    ensures OneByOne(OneByOne(disk, repairs[..k]), repairs[..i]) == OneByOne(disk, repairs[..i])
    decreases i - k
  {
    if i == k {
      RepeatsNothing(disk, repairs, k, k);
    } else {
      assert repairs[..i][..i - 1] == repairs[..i - 1];
      PicksUp(disk, repairs, k, i - 1);
    }
  }

  /** Stopped after any k repairs, planned afresh and run to the end, the repairs give what one whole run gives. */
  lemma {:induction false} RepairsResume(disk: Disk, repairs: seq<KnownRepair>, k: nat)
    requires Separate(repairs) && k <= |repairs|
    ensures var left := ApplyAll(disk, Plans(disk, repairs)[..k]);
            ApplyAll(left, Plans(left, repairs)) == ApplyAll(disk, Plans(disk, repairs))
  {
    var left := ApplyAll(disk, Plans(disk, repairs)[..k]);
    PlanAheadIsSafe(disk, repairs, k);
    PlanAheadIsSafe(disk, repairs, |repairs|);
    PlanAheadIsSafe(left, repairs, |repairs|);
    assert Plans(disk, repairs)[..|repairs|] == Plans(disk, repairs);
    assert Plans(left, repairs)[..|repairs|] == Plans(left, repairs);
    PicksUp(disk, repairs, k, |repairs|);
  }
}
