/**
 * Open pull requests of tracked branches. One bulk list per repository, and a query of its own
 * for a branch the list cannot answer (src/bootstrap/prompt.ts).
 */
module BranchPrs {
  import opened Prelude

  const BULK_PR_LIMIT: nat := 200

  /** One entry of a `gh pr list` answer; a field of the wrong type reads as None. */
  datatype PrEntry = PrEntry(
    head: Option<string>, number: Option<int>, state: Option<string>, title: Option<string>, url: Option<string>,
    checks: Option<string>)

  datatype BranchPr = BranchPr(number: int, state: string, title: string, url: string, checks: Option<string>)

  function ToBranchPr(entry: PrEntry): Option<BranchPr> {
    if entry.number.None? || entry.state.None? || entry.title.None? || entry.url.None? then None
    else Some(BranchPr(entry.number.value, entry.state.value, entry.title.value, entry.url.value, entry.checks))
  }

  /** The open pull requests of every repository, newest first, and the calls that fail. */
  datatype GitHub = GitHub(
    prs: string -> seq<PrEntry>, bulkFails: string -> bool, headFails: (string, string) -> bool)

  function Take<T>(xs: seq<T>, n: nat): seq<T> {
    if n < |xs| then xs[..n] else xs
  }

  /** The newest entry with this head. */
  function FirstWithHead(entries: seq<PrEntry>, head: string): (r: Option<PrEntry>)
    ensures r.Some? ==> r.value in entries && r.value.head == Some(head)
    ensures r.None? <==> forall e :: e in entries ==> e.head != Some(head)
  {
    if entries == [] then None
    else if entries[0].head == Some(head) then Some(entries[0])
    else FirstWithHead(entries[1..], head)
  }

  /** gh pr list --repo: None when the call fails. */
  function BulkList(gh: GitHub, repo: string): Option<seq<PrEntry>> {
    if gh.bulkFails(repo) then None else Some(Take(gh.prs(repo), BULK_PR_LIMIT))
  }

  /** What a branch's own query shows when it is answered: its newest open pull request. */
  function OwnPr(gh: GitHub, repo: string, head: string): Option<BranchPr> {
    var first := FirstWithHead(gh.prs(repo), head);
    if first.Some? then ToBranchPr(first.value) else None
  }

  /** gh pr list --head: a failed call reads as no answer. */
  function FetchPrForHead(gh: GitHub, repo: string, head: string): Option<BranchPr> {
    if gh.headFails(repo, head) then None else OwnPr(gh, repo, head)
  }

  datatype RepoPrIndex = RepoPrIndex(byHead: map<string, PrEntry>, complete: bool)

  ghost predicate Indexes(byHead: map<string, PrEntry>, entries: seq<PrEntry>) {
    forall head :: FirstWithHead(entries, head) == if head in byHead then Some(byHead[head]) else None
  }

  lemma {:induction false} FirstConcat(xs: seq<PrEntry>, ys: seq<PrEntry>, head: string)
    ensures FirstWithHead(xs + ys, head) ==
      if FirstWithHead(xs, head).Some? then FirstWithHead(xs, head) else FirstWithHead(ys, head)
  {
    if xs == [] {
      assert xs + ys == ys;
    } else {
      assert (xs + ys)[1..] == xs[1..] + ys;
      FirstConcat(xs[1..], ys, head);
    }
  }

  /** One entry more: it is indexed if it is the first with its head. */
  lemma {:induction false} IndexNext(byHead: map<string, PrEntry>, init: seq<PrEntry>, entry: PrEntry)
    requires Indexes(byHead, init)
    ensures Indexes(
              if entry.head.Some? && entry.head.value !in byHead then byHead[entry.head.value := entry] else byHead,
              init + [entry])
  {
    forall h ensures FirstWithHead(init + [entry], h) ==
        if FirstWithHead(init, h).Some? then FirstWithHead(init, h)
        else if entry.head == Some(h) then Some(entry) else None
    {
      FirstConcat(init, [entry], h);
      assert [entry][1..] == [];
    }
  }

  /** The first entry per head; complete when the list was not cut off. */
  method ListRepoPrs(gh: GitHub, repo: string) returns (index: Option<RepoPrIndex>)
    ensures index.Some? <==> BulkList(gh, repo).Some?
    ensures index.Some? ==> Indexes(index.value.byHead, BulkList(gh, repo).value)
    ensures index.Some? ==> (index.value.complete <==> |BulkList(gh, repo).value| < BULK_PR_LIMIT)
  {
    var answer := BulkList(gh, repo);
    if answer.None? {
      return None;
    }
    var entries := answer.value;
    var byHead: map<string, PrEntry> := map[];
    for i := 0 to |entries|
      invariant Indexes(byHead, entries[..i])
    {
      assert entries[..i + 1] == entries[..i] + [entries[i]];
      IndexNext(byHead, entries[..i], entries[i]);
      var head := entries[i].head;
      if head.Some? && head.value !in byHead {
        byHead := byHead[head.value := entries[i]];
      }
    }
    assert entries[..|entries|] == entries;
    index := Some(RepoPrIndex(byHead, |entries| < BULK_PR_LIMIT));
  }

  /** A tracked branch, with the repository it resolves to. */
  datatype Branch = Branch(name: string, orgRepo: Option<string>)

  /** The bulk list answers for a head it holds, and for every head when it is not cut off. */
  predicate Answered(gh: GitHub, repo: string, head: string) {
    var answer := BulkList(gh, repo);
    answer.Some? && (|answer.value| < BULK_PR_LIMIT || FirstWithHead(answer.value, head).Some?)
  }

  /**
   * What the branch is shown with: its own pull request, but nothing when only its own query
   * could tell and that failed.
   */
  function Shown(gh: GitHub, b: Branch): Option<BranchPr> {
    match b.orgRepo
    case None => None
    case Some(repo) => if Answered(gh, repo, b.name) then OwnPr(gh, repo, b.name) else FetchPrForHead(gh, repo, b.name)
  }

  /** An answer from the list is the answer the branch's own query would give. */
  lemma {:induction false} ListTellsOwn(gh: GitHub, repo: string, head: string)
    requires Answered(gh, repo, head)
    ensures OwnPr(gh, repo, head) ==
      var first := FirstWithHead(BulkList(gh, repo).value, head);
      if first.Some? then ToBranchPr(first.value) else None
  {
    var all, listed := gh.prs(repo), BulkList(gh, repo).value;
    if |all| > BULK_PR_LIMIT {
      assert all == listed + all[BULK_PR_LIMIT..];
      FirstConcat(listed, all[BULK_PR_LIMIT..], head);
    }
  }

  /** Entry `k` is the newest of this head. */
  ghost predicate NewestOf(entries: seq<PrEntry>, head: string, k: nat) {
    k < |entries| && entries[k].head == Some(head) && forall j :: 0 <= j < k ==> entries[j].head != Some(head)
  }

  lemma {:induction false} FirstIsNewest(entries: seq<PrEntry>, head: string)
    ensures FirstWithHead(entries, head).Some? ==>
              exists k: nat :: NewestOf(entries, head, k) && entries[k] == FirstWithHead(entries, head).value
    ensures forall k: nat :: NewestOf(entries, head, k) ==> FirstWithHead(entries, head) == Some(entries[k])
  {
    if entries != [] {
      var rest := entries[1..];
      FirstIsNewest(rest, head);
      if entries[0].head == Some(head) {
        assert NewestOf(entries, head, 0);
      } else {
        assert forall j :: 0 < j < |entries| ==> entries[j] == rest[j - 1];
        if k: nat :| NewestOf(rest, head, k) && Some(rest[k]) == FirstWithHead(entries, head) {
          assert NewestOf(entries, head, k + 1) && entries[k + 1] == rest[k];
        }
        forall k: nat | NewestOf(entries, head, k) ensures FirstWithHead(entries, head) == Some(entries[k]) {
          assert NewestOf(rest, head, k - 1);
        }
      }
    }
  }

  /**
   * What a branch is shown with: number, state, title, address and checks of the
   * newest entry with its head. It is shown with nothing exactly when it has no
   * repository, no entry, an entry that lacks one of the first four, or a query of its
   * own that was needed and failed.
   */
  lemma {:induction false} ShownFields(gh: GitHub, b: Branch)
    ensures match Shown(gh, b)
            case Some(pr) =>
              && b.orgRepo.Some?
              && exists k: nat :: NewestOf(gh.prs(b.orgRepo.value), b.name, k) &&
                   var e := gh.prs(b.orgRepo.value)[k];
                   && e.number == Some(pr.number) && e.state == Some(pr.state) && e.title == Some(pr.title)
                   && e.url == Some(pr.url) && e.checks == pr.checks
            case None =>
              b.orgRepo.Some? ==>
                var repo := b.orgRepo.value;
                || (!Answered(gh, repo, b.name) && gh.headFails(repo, b.name))
                || forall k: nat :: NewestOf(gh.prs(repo), b.name, k) ==>
                     var e := gh.prs(repo)[k];
                     e.number.None? || e.state.None? || e.title.None? || e.url.None?
  {
    if b.orgRepo.Some? {
      FirstIsNewest(gh.prs(b.orgRepo.value), b.name);
    }
  }

  ghost predicate OneIndexPerRepo(branches: seq<Branch>, n: nat, calls: seq<string>)
    requires n <= |branches|
  {
    && Distinct(calls)
    && (forall repo :: repo in calls <==> exists i :: 0 <= i < n && branches[i].orgRepo == Some(repo))
  }

  /** Branch i needs a query of its own: its repository is known and the list cannot answer. */
  predicate Unanswered(gh: GitHub, branches: seq<Branch>, i: nat) {
    i < |branches| && branches[i].orgRepo.Some? && !Answered(gh, branches[i].orgRepo.value, branches[i].name)
  }

  /** The branch shows its own pull request unless its own query was needed and failed. */
  predicate AsOwnUnless(gh: GitHub, b: Branch, pr: Option<BranchPr>, queried: bool) {
    match b.orgRepo
    case None => pr == None && !queried
    case Some(repo) =>
      pr != OwnPr(gh, repo, b.name) <==> OwnPr(gh, repo, b.name).Some? && queried && gh.headFails(repo, b.name)
  }

  /** A branch is queried on its own exactly when the list of its repository failed, or came back full without it. */
  lemma {:induction false} QueriedIff(gh: GitHub, branches: seq<Branch>, i: nat, repo: string)
    requires i < |branches| && branches[i].orgRepo == Some(repo)
    ensures Unanswered(gh, branches, i) <==>
      gh.bulkFails(repo) ||
      (|gh.prs(repo)| >= 200 && forall k :: 0 <= k < 200 ==> gh.prs(repo)[k].head != Some(branches[i].name))
  {
    var prs := gh.prs(repo);
    assert forall k :: 0 <= k < |Take(prs, BULK_PR_LIMIT)| ==> Take(prs, BULK_PR_LIMIT)[k] == prs[k];
  }

  lemma {:induction false} ShownAsOwn(gh: GitHub, branches: seq<Branch>, i: nat)
    requires i < |branches|
    ensures AsOwnUnless(gh, branches[i], Shown(gh, branches[i]), Unanswered(gh, branches, i))
  {
  }

  /** One branch, given its repository's index. */
  method FetchOne(
    gh: GitHub, repo: string, name: string, index: Option<RepoPrIndex>)
    returns (pr: Option<BranchPr>, queried: bool)
    requires IndexFits(gh, repo, index)
    ensures pr == Shown(gh, Branch(name, Some(repo)))
    ensures queried <==> !Answered(gh, repo, name)
  {
    if index.Some? && name in index.value.byHead {
      ListTellsOwn(gh, repo, name);
      return ToBranchPr(index.value.byHead[name]), false;
    }
    if index.Some? && index.value.complete {
      ListTellsOwn(gh, repo, name);
      return None, false;
    }
    pr := FetchPrForHead(gh, repo, name);
    queried := true;
  }

  /** The first n branches are shown. */
  ghost predicate ShownUpTo(gh: GitHub, branches: seq<Branch>, n: nat, prs: seq<Option<BranchPr>>) {
    n <= |branches| && |prs| == n && forall j :: 0 <= j < n ==> prs[j] == Shown(gh, branches[j])
  }

  /** Of the first n branches, those were queried that a list left open. */
  ghost predicate QueriedUpTo(gh: GitHub, branches: seq<Branch>, n: nat, calls: seq<nat>) {
    Distinct(calls) && forall j: nat :: j in calls <==> j < n && Unanswered(gh, branches, j)
  }

  lemma {:induction false} ShowNext(
    gh: GitHub, branches: seq<Branch>, n: nat, prs: seq<Option<BranchPr>>, pr: Option<BranchPr>)
    requires ShownUpTo(gh, branches, n, prs) && n < |branches| && pr == Shown(gh, branches[n])
    ensures ShownUpTo(gh, branches, n + 1, prs + [pr])
  {
  }

  lemma {:induction false} QueryNext(gh: GitHub, branches: seq<Branch>, n: nat, calls: seq<nat>)
    requires QueriedUpTo(gh, branches, n, calls) && n < |branches|
    ensures QueriedUpTo(gh, branches, n + 1, if Unanswered(gh, branches, n) then calls + [n] else calls)
  {
    assert n !in calls;
  }

  lemma {:induction false} AllAsOwn(
    gh: GitHub, branches: seq<Branch>, prs: seq<Option<BranchPr>>, calls: seq<nat>)
    requires ShownUpTo(gh, branches, |branches|, prs) && QueriedUpTo(gh, branches, |branches|, calls)
    ensures forall i :: 0 <= i < |branches| ==> AsOwnUnless(gh, branches[i], prs[i], i in calls)
  {
    forall i | 0 <= i < |branches| ensures AsOwnUnless(gh, branches[i], prs[i], i in calls) {
      ShownAsOwn(gh, branches, i);
    }
  }

  /**
   * Lists each distinct repository once and queries only the branches a list
   * leaves open. A branch misses its own pull request exactly when it was
   * queried and that query failed.
   */
  method FetchBranchPrs(gh: GitHub, branches: seq<Branch>)
    returns (prs: seq<Option<BranchPr>>, bulkCalls: seq<string>, headCalls: seq<nat>)
    ensures |prs| == |branches|
    ensures forall i :: 0 <= i < |branches| ==> prs[i] == Shown(gh, branches[i])
    ensures forall i :: 0 <= i < |branches| ==> AsOwnUnless(gh, branches[i], prs[i], i in headCalls)
    ensures OneIndexPerRepo(branches, |branches|, bulkCalls)
    ensures Distinct(headCalls) && forall i: nat :: i in headCalls <==> i < |branches| && Unanswered(gh, branches, i)
  {
    var indexes;
    indexes, bulkCalls := ListAll(gh, branches);
    prs, headCalls := [], [];
    for i := 0 to |branches|
      invariant ShownUpTo(gh, branches, i, prs)
      invariant QueriedUpTo(gh, branches, i, headCalls)
    {
      ShownAndQueried(gh, branches, i, bulkCalls);
      QueryNext(gh, branches, i, headCalls);
      var pr: Option<BranchPr> := None;
      if branches[i].orgRepo.Some? {
        var repo := branches[i].orgRepo.value;
        var queried;
        pr, queried := FetchOne(gh, repo, branches[i].name, indexes[repo]);
        if queried {
          headCalls := headCalls + [i];
        }
      }
      ShowNext(gh, branches, i, prs, pr);
      prs := prs + [pr];
    }
    AllAsOwn(gh, branches, prs, headCalls);
  }

  /** What the loop needs to know of branch i. */
  lemma {:induction false} ShownAndQueried(gh: GitHub, branches: seq<Branch>, i: nat, calls: seq<string>)
    requires i < |branches| && OneIndexPerRepo(branches, |branches|, calls)
    ensures branches[i].orgRepo.None? ==> Shown(gh, branches[i]) == None && !Unanswered(gh, branches, i)
    ensures branches[i].orgRepo.Some? ==>
      && branches[i].orgRepo.value in calls
      && branches[i] == Branch(branches[i].name, Some(branches[i].orgRepo.value))
      && (Unanswered(gh, branches, i) <==> !Answered(gh, branches[i].orgRepo.value, branches[i].name))
  {
  }

  /** What is known of one repository after its bulk call. */
  ghost predicate IndexFits(gh: GitHub, repo: string, index: Option<RepoPrIndex>) {
    && (index.Some? <==> BulkList(gh, repo).Some?)
    && (index.Some? ==>
         && Indexes(index.value.byHead, BulkList(gh, repo).value)
         && (index.value.complete <==> |BulkList(gh, repo).value| < BULK_PR_LIMIT))
  }

  method ListAll(
    gh: GitHub, branches: seq<Branch>)
    returns (indexes: map<string, Option<RepoPrIndex>>, calls: seq<string>)
    ensures forall repo :: repo in indexes <==> repo in calls
    ensures forall repo :: repo in indexes ==> IndexFits(gh, repo, indexes[repo])
    ensures OneIndexPerRepo(branches, |branches|, calls)
  {
    indexes, calls := map[], [];
    for i := 0 to |branches|
      invariant forall repo :: repo in indexes <==> repo in calls
      invariant forall repo :: repo in indexes ==> IndexFits(gh, repo, indexes[repo])
      invariant OneIndexPerRepo(branches, i, calls)
    {
      var orgRepo := branches[i].orgRepo;
      if orgRepo.Some? && orgRepo.value !in indexes {
        var index := ListRepoPrs(gh, orgRepo.value);
        indexes := indexes[orgRepo.value := index];
        calls := calls + [orgRepo.value];
      }
    }
  }
}
