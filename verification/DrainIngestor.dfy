/**
 * The miner store and its ingestor: src/drain/store.ts, src/drain/ingestor.ts. The clusterer is a
 * package of its own; here it is any deterministic state machine with a snapshot that restores to
 * the state it was taken from.
 */
module DrainIngestor {
  /** [transcriptIndex, byteOffset, byteLength] */
  datatype Locator = Locator(transcript: nat, byteOffset: nat, byteLength: nat)

  datatype Blob = Blob(
    toolType: string, rawText: string, sessionId: string, timestamp: string, locator: Locator)

  datatype Occurrence = Occurrence(
    templateId: string, locator: Locator, sessionId: string, timestamp: string,
    extractedParams: map<string, string>)

  datatype Template = Template(
    templateId: string, toolType: string, maskedSignature: string, createdAt: string,
    occurrenceCount: nat, exemplarLocator: Locator)

  /** What the clusterer answers for one blob, and the state it is in afterwards. */
  datatype Clustered<S> = Clustered(
    templateId: string, maskedSignature: string, extractedParams: map<string, string>, next: S)

  datatype Clusterer<!S, !Snap> = Clusterer(
    cluster: (S, string, string) -> Clustered<S>,
    snapshot: S -> Snap,
    fromSnapshot: Snap -> S)

  ghost predicate Faithful<S(!new), Snap>(c: Clusterer<S, Snap>) {
    forall s :: c.fromSnapshot(c.snapshot(s)) == s
  }

  // --- The state the ingestor keeps, as a value -----------------------------

  /** Clusterer state, the templates Map in insertion order, and every occurrence so far. */
  datatype Core<S> = Core(tree: S, templates: seq<Template>, log: seq<Occurrence>)

  /** templates.yml, occurrences.jsonl and drain-trees.json. */
  datatype Disk<Snap> = Disk(templates: seq<Template>, log: seq<Occurrence>, trees: Snap)

  function DiskOf<S, Snap>(c: Clusterer<S, Snap>, core: Core<S>): Disk<Snap> {
    Disk(core.templates, core.log, c.snapshot(core.tree))
  }

  function Load<S, Snap>(c: Clusterer<S, Snap>, disk: Disk<Snap>): Core<S> {
    Core(c.fromSnapshot(disk.trees), disk.templates, disk.log)
  }

  /** The store after `n` of the three writes of a flush: log, templates, trees. */
  function FlushedTo<S, Snap>(c: Clusterer<S, Snap>, disk: Disk<Snap>, state: Core<S>, n: nat): Disk<Snap> {
    Disk(if n < 2 then disk.templates else state.templates,
         if n < 1 then disk.log else state.log,
         if n < 3 then disk.trees else c.snapshot(state.tree))
  }

  /** The log is written first, then the templates, then the trees; after all three the store has caught up. */
  lemma {:induction false} FlushOrder<S, Snap>(c: Clusterer<S, Snap>, disk: Disk<Snap>, state: Core<S>, n: nat)
    ensures var now := FlushedTo(c, disk, state, n);
            && (n == 0 ==> now == disk) && (n >= 3 ==> now == DiskOf(c, state))
            && (n == 1 ==> now == disk.(log := state.log))
            && (n == 2 ==> now == disk.(log := state.log, templates := state.templates))
  {
  }

  function IndexOf(templates: seq<Template>, id: string): (r: int)
    ensures -1 <= r < |templates|
    ensures r >= 0 ==> templates[r].templateId == id && forall i :: 0 <= i < r ==> templates[i].templateId != id
    ensures r < 0 ==> forall i :: 0 <= i < |templates| ==> templates[i].templateId != id
  {
    if templates == [] then -1
    else if templates[0].templateId == id then 0
    else
      var r := IndexOf(templates[1..], id);
      if r < 0 then -1 else r + 1
  }

  function OccurrenceOf<S>(b: Blob, result: Clustered<S>): Occurrence {
    Occurrence(result.templateId, b.locator, b.sessionId, b.timestamp, result.extractedParams)
  }

  /** templates.set(id, updated): a known id is bumped in place, a new template goes last. */
  function Bump(templates: seq<Template>, o: Occurrence, created: Template): (r: seq<Template>)
    ensures |templates| <= |r| <= |templates| + 1
  {
    var i := IndexOf(templates, o.templateId);
    if i >= 0 then templates[i := templates[i].(occurrenceCount := templates[i].occurrenceCount + 1)]
    else templates + [created]
  }

  function NewTemplate<S>(b: Blob, result: Clustered<S>): Template {
    Template(result.templateId, b.toolType, result.maskedSignature, b.timestamp, 1, b.locator)
  }

  function Ingest<S, Snap>(c: Clusterer<S, Snap>, core: Core<S>, b: Blob): Core<S> {
    var result := c.cluster(core.tree, b.toolType, b.rawText);
    Core(result.next, Bump(core.templates, OccurrenceOf(b, result), NewTemplate(b, result)), core.log + [OccurrenceOf(b, result)])
  }

  function IngestAll<S, Snap>(c: Clusterer<S, Snap>, core: Core<S>, blobs: seq<Blob>): Core<S>
    decreases |blobs|
  {
    if blobs == [] then core
    else Ingest(c, IngestAll(c, core, blobs[..|blobs| - 1]), blobs[|blobs| - 1])
  }

  lemma {:induction false} IngestAllAppend<S, Snap>(c: Clusterer<S, Snap>, core: Core<S>, xs: seq<Blob>, ys: seq<Blob>)
    ensures IngestAll(c, core, xs + ys) == IngestAll(c, IngestAll(c, core, xs), ys)
    decreases |ys|
  {
    if ys == [] {
      assert xs + ys == xs;
    } else {
      var init := ys[..|ys| - 1];
      assert (xs + ys)[..|xs + ys| - 1] == xs + init;
      IngestAllAppend(c, core, xs, init);
    }
  }

  /** A process that stops after `xs`, persists, restarts and goes on with `ys` loses nothing. */
  lemma {:induction false} RestartIsInvisible<S(!new), Snap>(
    c: Clusterer<S, Snap>, core: Core<S>, xs: seq<Blob>, ys: seq<Blob>)
    requires Faithful(c)
    ensures IngestAll(c, Load(c, DiskOf(c, IngestAll(c, core, xs))), ys) == IngestAll(c, core, xs + ys)
  {
    IngestAllAppend(c, core, xs, ys);
  }

  /** The store after one more pass feeds `blobs`. */
  function FedTo<S, Snap>(c: Clusterer<S, Snap>, disk: Disk<Snap>, blobs: seq<Blob>): Disk<Snap> {
    DiskOf(c, IngestAll(c, Load(c, disk), blobs))
  }

  lemma {:induction false} FedOn<S(!new), Snap>(c: Clusterer<S, Snap>, core: Core<S>, blobs: seq<Blob>)
    requires Faithful(c)
    ensures FedTo(c, DiskOf(c, core), blobs) == DiskOf(c, IngestAll(c, core, blobs))
  {
    assert Load(c, DiskOf(c, core)) == core;
  }

  // --- Templates are what the log says they are ------------------------------

  function Count(log: seq<Occurrence>, id: string): (n: nat)
    ensures n == 0 <==> forall i :: 0 <= i < |log| ==> log[i].templateId != id
  {
    if log == [] then 0
    else Count(log[..|log| - 1], id) + (if log[|log| - 1].templateId == id then 1 else 0)
  }

  /** Index of the first entry with this template id, |log| when there is none. */
  function First(log: seq<Occurrence>, id: string): (k: nat)
    ensures k <= |log|
    ensures k < |log| ==> log[k].templateId == id
    ensures forall i :: 0 <= i < k ==> log[i].templateId != id
  {
    if log == [] then 0
    else
      var k := First(log[..|log| - 1], id);
      if k < |log| - 1 then k
      else if log[|log| - 1].templateId == id then |log| - 1
      else |log|
  }

  /** One template agrees with the log: its count, and its exemplar and date from its first entry. */
  ghost predicate Backed(t: Template, log: seq<Occurrence>) {
    && t.occurrenceCount == Count(log, t.templateId)
    && First(log, t.templateId) < |log|
    && t.exemplarLocator == log[First(log, t.templateId)].locator
    && t.createdAt == log[First(log, t.templateId)].timestamp
  }

  ghost predicate AllBacked(templates: seq<Template>, log: seq<Occurrence>) {
    forall i :: 0 <= i < |templates| ==> Backed(templates[i], log)
  }

  ghost predicate InLogOrder(templates: seq<Template>, log: seq<Occurrence>) {
    forall i, j :: 0 <= i < j < |templates| ==>
      First(log, templates[i].templateId) < First(log, templates[j].templateId)
  }

  ghost predicate Covers(templates: seq<Template>, log: seq<Occurrence>) {
    forall k :: 0 <= k < |log| ==> IndexOf(templates, log[k].templateId) >= 0
  }

  /**
   * The template table is the summary of the log: each id that occurs has one
   * template, in order of first occurrence, and every template is backed.
   */
  ghost predicate Summarises(templates: seq<Template>, log: seq<Occurrence>) {
    AllBacked(templates, log) && InLogOrder(templates, log) && Covers(templates, log)
  }

  lemma {:induction false} CountFirstSnoc(log: seq<Occurrence>, o: Occurrence, id: string)
    ensures Count(log + [o], id) == Count(log, id) + (if o.templateId == id then 1 else 0)
    ensures First(log, id) < |log| ==> First(log + [o], id) == First(log, id)
    ensures First(log, id) == |log| && o.templateId == id ==> First(log + [o], id) == |log|
  {
    assert (log + [o])[..|log|] == log;
  }

  lemma {:induction false} BackedSnoc(t: Template, log: seq<Occurrence>, o: Occurrence)
    requires Backed(t, log)
    ensures Backed(Bumped(t, o), log + [o])
    ensures First(log + [o], t.templateId) == First(log, t.templateId)
  {
    CountFirstSnoc(log, o, t.templateId);
  }

  /** The update a known template gets, seen one template at a time. */
  function Bumped(t: Template, o: Occurrence): Template {
    if o.templateId == t.templateId then t.(occurrenceCount := t.occurrenceCount + 1) else t
  }

  lemma {:induction false} BumpAt(templates: seq<Template>, log: seq<Occurrence>, o: Occurrence, t: Template, i: nat)
    requires InLogOrder(templates, log) && i < |templates|
    ensures Bump(templates, o, t)[i] == Bumped(templates[i], o)
  {
    var at := IndexOf(templates, o.templateId);
    if at >= 0 {
      IdsDistinct(templates, log, i, at);
    }
  }

  lemma {:induction false} BumpKnown(templates: seq<Template>, log: seq<Occurrence>, o: Occurrence, t: Template, i: nat)
    requires AllBacked(templates, log) && InLogOrder(templates, log) && i < |templates|
    ensures var now := Bump(templates, o, t);
            now[i].templateId == templates[i].templateId && Backed(now[i], log + [o])
            && First(log + [o], now[i].templateId) == First(log, templates[i].templateId) < |log|
  {
    BumpAt(templates, log, o, t, i);
    assert Backed(templates[i], log);
    BackedSnoc(templates[i], log, o);
  }

  ghost predicate Created(t: Template, o: Occurrence) {
    && t.templateId == o.templateId && t.occurrenceCount == 1
    && t.exemplarLocator == o.locator && t.createdAt == o.timestamp
  }

  lemma {:induction false} BumpBacked(templates: seq<Template>, log: seq<Occurrence>, o: Occurrence, t: Template)
    requires Summarises(templates, log) && Created(t, o)
    ensures AllBacked(Bump(templates, o, t), log + [o])
  {
    var now := Bump(templates, o, t);
    forall i | 0 <= i < |now| ensures Backed(now[i], log + [o]) {
      if i < |templates| {
        BumpKnown(templates, log, o, t, i);
      } else {
        NewIsUnseen(templates, log, o);
        CountFirstSnoc(log, o, o.templateId);
      }
    }
  }

  lemma {:induction false} NewIsUnseen(templates: seq<Template>, log: seq<Occurrence>, o: Occurrence)
    requires Covers(templates, log) && IndexOf(templates, o.templateId) < 0
    ensures Count(log, o.templateId) == 0 && First(log, o.templateId) == |log|
  {
    assert forall k :: 0 <= k < |log| ==> log[k].templateId != o.templateId;
  }

  lemma {:induction false} BumpInLogOrder(templates: seq<Template>, log: seq<Occurrence>, o: Occurrence, t: Template)
    requires Summarises(templates, log) && Created(t, o)
    ensures InLogOrder(Bump(templates, o, t), log + [o])
  {
    var now := Bump(templates, o, t);
    forall i, j | 0 <= i < j < |now|
      ensures First(log + [o], now[i].templateId) < First(log + [o], now[j].templateId) {
      BumpKnown(templates, log, o, t, i);
      if j < |templates| {
        BumpKnown(templates, log, o, t, j);
      } else {
        NewIsUnseen(templates, log, o);
        CountFirstSnoc(log, o, o.templateId);
      }
    }
  }

  lemma {:induction false} BumpSummarises(templates: seq<Template>, log: seq<Occurrence>, o: Occurrence, t: Template)
    requires Summarises(templates, log) && Created(t, o)
    ensures Summarises(Bump(templates, o, t), log + [o])
  {
    BumpBacked(templates, log, o, t);
    BumpInLogOrder(templates, log, o, t);
    BumpCovers(templates, log, o, t);
  }

  lemma {:induction false} BumpCovers(templates: seq<Template>, log: seq<Occurrence>, o: Occurrence, t: Template)
    requires Covers(templates, log) && t.templateId == o.templateId
    ensures Covers(Bump(templates, o, t), log + [o])
  {
    var now := Bump(templates, o, t);
    forall k | 0 <= k < |log + [o]| ensures IndexOf(now, (log + [o])[k].templateId) >= 0 {
      var id := (log + [o])[k].templateId;
      var j := IndexOf(templates, id);
      if j >= 0 {
        assert now[j].templateId == id;
      } else {
        assert now[|templates|].templateId == id;
      }
    }
  }

  /** The invariant every ingested blob keeps, whatever the clusterer answers. */
  lemma {:induction false} IngestSummarises<S, Snap>(c: Clusterer<S, Snap>, core: Core<S>, b: Blob)
    requires Summarises(core.templates, core.log)
    ensures Summarises(Ingest(c, core, b).templates, Ingest(c, core, b).log)
  {
    var result := c.cluster(core.tree, b.toolType, b.rawText);
    BumpSummarises(core.templates, core.log, OccurrenceOf(b, result), NewTemplate(b, result));
  }

  lemma {:induction false} IdsDistinct(templates: seq<Template>, log: seq<Occurrence>, i: int, j: int)
    requires InLogOrder(templates, log) && 0 <= i < |templates| && j < |templates|
    ensures j >= 0 && templates[i].templateId == templates[j].templateId ==> i == j
  {
  }

  /** From an empty store, the templates are the summary of the log at every point of every run. */
  lemma {:induction false} RunSummarises<S, Snap>(c: Clusterer<S, Snap>, tree: S, blobs: seq<Blob>)
    ensures var core := IngestAll(c, Core(tree, [], []), blobs);
            Summarises(core.templates, core.log) && |core.log| == |blobs|
    decreases |blobs|
  {
    if blobs != [] {
      var init := blobs[..|blobs| - 1];
      RunSummarises(c, tree, init);
      IngestSummarises(c, IngestAll(c, Core(tree, [], []), init), blobs[|blobs| - 1]);
    }
  }

  /** The log entry of a blob names where and when it was read. */
  ghost predicate Traces(o: Occurrence, b: Blob) {
    o.locator == b.locator && o.sessionId == b.sessionId && o.timestamp == b.timestamp
  }

  /** From `at` on the log has an entry for each blob, in order. */
  ghost predicate LoggedAt(log: seq<Occurrence>, at: nat, blobs: seq<Blob>) {
    at + |blobs| <= |log| && forall k :: 0 <= k < |blobs| ==> Traces(log[at + k], blobs[k])
  }

  lemma {:induction false} StillLogged(log: seq<Occurrence>, later: seq<Occurrence>, at: nat, blobs: seq<Blob>)
    requires log <= later && LoggedAt(log, at, blobs)
    ensures LoggedAt(later, at, blobs)
  {
    forall k | 0 <= k < |blobs| ensures Traces(later[at + k], blobs[k]) {
      assert later[at + k] == log[at + k];
    }
  }

  lemma {:induction false} LoggedSnoc(log: seq<Occurrence>, o: Occurrence, at: nat, blobs: seq<Blob>)
    requires blobs != [] && |log| == at + |blobs| - 1
    requires LoggedAt(log, at, blobs[..|blobs| - 1]) && Traces(o, blobs[|blobs| - 1])
    ensures LoggedAt(log + [o], at, blobs)
  {
    StillLogged(log, log + [o], at, blobs[..|blobs| - 1]);
    forall k | 0 <= k < |blobs| ensures Traces((log + [o])[at + k], blobs[k]) {
      assert k < |blobs| - 1 ==> blobs[..|blobs| - 1][k] == blobs[k];
    }
  }

  /** The log grows by one entry per blob, in order: nothing is dropped, doubled or reordered. */
  lemma {:induction false} LogFollowsBlobs<S, Snap>(c: Clusterer<S, Snap>, core: Core<S>, blobs: seq<Blob>)
    ensures var log := IngestAll(c, core, blobs).log;
            |log| == |core.log| + |blobs| && core.log <= log && LoggedAt(log, |core.log|, blobs)
    decreases |blobs|
  {
    if blobs != [] {
      var init, last := blobs[..|blobs| - 1], blobs[|blobs| - 1];
      LogFollowsBlobs(c, core, init);
      var before := IngestAll(c, core, init);
      LogSnoc(c, before, last);
      var log := Ingest(c, before, last).log;
      assert log == before.log + [log[|before.log|]];
      LoggedSnoc(before.log, log[|before.log|], |core.log|, blobs);
    }
  }

  lemma {:induction false} LogSnoc<S, Snap>(c: Clusterer<S, Snap>, core: Core<S>, blob: Blob)
    ensures var log := Ingest(c, core, blob).log;
            |log| == |core.log| + 1 && log[..|core.log|] == core.log && Traces(log[|core.log|], blob)
  {
  }

  /** The clusterer after it was given these blobs in order. */
  function TreeAfter<S, Snap>(c: Clusterer<S, Snap>, tree: S, blobs: seq<Blob>): S
    decreases |blobs|
  {
    if blobs == [] then tree
    else
      var last := blobs[|blobs| - 1];
      c.cluster(TreeAfter(c, tree, blobs[..|blobs| - 1]), last.toolType, last.rawText).next
  }

  /** What it answers for blob `k`. */
  function AnswerTo<S, Snap>(c: Clusterer<S, Snap>, tree: S, blobs: seq<Blob>, k: nat): Clustered<S>
    requires k < |blobs|
  {
    c.cluster(TreeAfter(c, tree, blobs[..k]), blobs[k].toolType, blobs[k].rawText)
  }

  lemma {:induction false} TreeIs<S, Snap>(c: Clusterer<S, Snap>, core: Core<S>, blobs: seq<Blob>)
    ensures IngestAll(c, core, blobs).tree == TreeAfter(c, core.tree, blobs)
    decreases |blobs|
  {
    if blobs != [] {
      TreeIs(c, core, blobs[..|blobs| - 1]);
    }
  }

  ghost predicate Answers<S>(o: Occurrence, answer: Clustered<S>, b: Blob) {
    o.templateId == answer.templateId && o.extractedParams == answer.extractedParams && Traces(o, b)
  }

  lemma {:induction false} LastAnswer<S, Snap>(c: Clusterer<S, Snap>, core: Core<S>, blobs: seq<Blob>)
    requires blobs != []
    ensures var log := IngestAll(c, core, blobs).log;
            && |log| == |core.log| + |blobs|
            && log[..|log| - 1] == IngestAll(c, core, blobs[..|blobs| - 1]).log
            && Answers(log[|log| - 1], AnswerTo(c, core.tree, blobs, |blobs| - 1), blobs[|blobs| - 1])
  {
    var init := blobs[..|blobs| - 1];
    TreeIs(c, core, init);
    LogFollowsBlobs(c, core, init);
    LogSnoc(c, IngestAll(c, core, init), blobs[|blobs| - 1]);
  }

  /** Each log entry carries what the clusterer answered for its blob, after the blobs before it. */
  lemma {:induction false} LogIsAnswers<S, Snap>(c: Clusterer<S, Snap>, core: Core<S>, blobs: seq<Blob>, k: nat)
    requires k < |blobs|
    ensures var log := IngestAll(c, core, blobs).log;
            |log| == |core.log| + |blobs| && Answers(log[|core.log| + k], AnswerTo(c, core.tree, blobs, k), blobs[k])
    decreases |blobs|
  {
    LastAnswer(c, core, blobs);
    var init := blobs[..|blobs| - 1];
    if k < |init| {
      LogIsAnswers(c, core, init, k);
      assert init[..k] == blobs[..k];
    }
  }

  /** The template was made for blob `k`: its partition, and the signature answered then. */
  ghost predicate MadeFor<S, Snap>(c: Clusterer<S, Snap>, tree: S, blobs: seq<Blob>, t: Template, k: nat) {
    && k < |blobs| && t.toolType == blobs[k].toolType
    && t.maskedSignature == AnswerTo(c, tree, blobs, k).maskedSignature
  }

  lemma {:induction false} MadeForStill<S, Snap>(
    c: Clusterer<S, Snap>, tree: S, blobs: seq<Blob>, t: Template, k: nat)
    requires blobs != [] && MadeFor(c, tree, blobs[..|blobs| - 1], t, k)
    ensures MadeFor(c, tree, blobs, t, k)
  {
    assert blobs[..|blobs| - 1][..k] == blobs[..k];
  }

  /** What the last blob makes of templates and log. */
  lemma {:induction false} LastTemplates<S, Snap>(c: Clusterer<S, Snap>, tree: S, blobs: seq<Blob>)
    requires blobs != []
    ensures var n := |blobs| - 1;
            var before, after := IngestAll(c, Core(tree, [], []), blobs[..n]), IngestAll(c, Core(tree, [], []), blobs);
            var o := OccurrenceOf(blobs[n], AnswerTo(c, tree, blobs, n));
            && after.templates == Bump(before.templates, o, NewTemplate(blobs[n], AnswerTo(c, tree, blobs, n)))
            && after.log == before.log + [o]
  {
    TreeIs(c, Core(tree, [], []), blobs[..|blobs| - 1]);
  }

  /** One more blob: a template that was there stays as it was made, one that is added is made for it. */
  lemma {:induction false} OneMoreMade<S, Snap>(
    c: Clusterer<S, Snap>, tree: S, blobs: seq<Blob>, templates: seq<Template>, log: seq<Occurrence>, i: nat)
    requires blobs != [] && Summarises(templates, log) && |log| == |blobs| - 1
    requires i < |templates| ==>
               MadeFor(c, tree, blobs[..|blobs| - 1], templates[i], First(log, templates[i].templateId))
    ensures var n, answer := |blobs| - 1, AnswerTo(c, tree, blobs, |blobs| - 1);
            var o := OccurrenceOf(blobs[n], answer);
            var next := Bump(templates, o, NewTemplate(blobs[n], answer));
            i < |next| ==> MadeFor(c, tree, blobs, next[i], First(log + [o], next[i].templateId))
  {
    var n, answer := |blobs| - 1, AnswerTo(c, tree, blobs, |blobs| - 1);
    if i < |Bump(templates, OccurrenceOf(blobs[n], answer), NewTemplate(blobs[n], answer))| {
      BumpKeepsMade(templates, log, OccurrenceOf(blobs[n], answer), NewTemplate(blobs[n], answer), i);
      if i < |templates| {
        MadeForStill(c, tree, blobs, templates[i], First(log, templates[i].templateId));
      }
    }
  }

  /** Each template of a run from an empty store was made for the blob of its first log entry. */
  lemma {:induction false} TemplatesAreMade<S, Snap>(c: Clusterer<S, Snap>, tree: S, blobs: seq<Blob>, i: nat)
    requires i < |IngestAll(c, Core(tree, [], []), blobs).templates|
    ensures var core := IngestAll(c, Core(tree, [], []), blobs);
            MadeFor(c, tree, blobs, core.templates[i], First(core.log, core.templates[i].templateId))
    decreases |blobs|
  {
    var init := blobs[..|blobs| - 1];
    var before := IngestAll(c, Core(tree, [], []), init);
    RunSummarises(c, tree, init);
    LastTemplates(c, tree, blobs);
    if i < |before.templates| {
      TemplatesAreMade(c, tree, init, i);
    }
    OneMoreMade(c, tree, blobs, before.templates, before.log, i);
  }

  /** Bumping keeps what a template was made of, and its first entry; a template that is added is the one made. */
  lemma {:induction false} BumpKeepsMade(
    templates: seq<Template>, log: seq<Occurrence>, o: Occurrence, made: Template, i: nat)
    requires Summarises(templates, log) && i < |Bump(templates, o, made)| && made.templateId == o.templateId
    ensures var t := Bump(templates, o, made)[i];
            if i < |templates| then
              && t.toolType == templates[i].toolType && t.maskedSignature == templates[i].maskedSignature
              && First(log + [o], t.templateId) == First(log, templates[i].templateId)
            else t == made && First(log + [o], t.templateId) == |log|
  {
    if i < |templates| {
      BumpAt(templates, log, o, made, i);
      BumpKnown(templates, log, o, made, i);
    } else {
      NewIsUnseen(templates, log, o);
      CountFirstSnoc(log, o, o.templateId);
    }
  }

  /** A summary is determined by the log up to the clusterer's own two fields. */
  lemma {:induction false} SummaryIsUnique(a: seq<Template>, b: seq<Template>, log: seq<Occurrence>)
    requires Summarises(a, log) && Summarises(b, log)
    ensures |a| == |b|
    ensures forall i :: 0 <= i < |a| ==>
      a[i] == b[i].(toolType := a[i].toolType, maskedSignature := a[i].maskedSignature)
  {
    SameIds(a, b, log, 0);
  }

  /** The first n templates of the two tables have the same ids. */
  ghost predicate SameUpTo(a: seq<Template>, b: seq<Template>, n: nat) {
    n <= |a| && n <= |b| && forall i :: 0 <= i < n ==> a[i].templateId == b[i].templateId
  }

  lemma {:induction false} SameIds(a: seq<Template>, b: seq<Template>, log: seq<Occurrence>, n: nat)
    requires Summarises(a, log) && Summarises(b, log) && SameUpTo(a, b, n)
    ensures |a| == |b| && SameUpTo(a, b, |a|)
    decreases |a| - n
  {
    if n < |a| {
      NextSame(a, b, log, n);
      SameIds(a, b, log, n + 1);
    } else if n < |b| {
      NextId(b, a, log, n);
    }
  }

  lemma {:induction false} NextSame(a: seq<Template>, b: seq<Template>, log: seq<Occurrence>, n: nat)
    requires Summarises(a, log) && Summarises(b, log) && SameUpTo(a, b, n) && n < |a|
    ensures SameUpTo(a, b, n + 1)
  {
    NextId(a, b, log, n);
    NextId(b, a, log, n);
    SameFirst(a[n], b[n], log);
  }

  lemma {:induction false} SameFirst(t: Template, u: Template, log: seq<Occurrence>)
    requires Backed(t, log) && Backed(u, log) && First(log, t.templateId) == First(log, u.templateId)
    ensures t.templateId == u.templateId
  {
    assert log[First(log, t.templateId)].templateId == t.templateId;
  }

  /** Past a common prefix, the other table's next template is no later than this one's. */
  lemma {:induction false} NextId(a: seq<Template>, b: seq<Template>, log: seq<Occurrence>, n: nat)
    requires Summarises(a, log) && Summarises(b, log) && SameUpTo(a, b, n) && n < |a|
    ensures n < |b| && First(log, b[n].templateId) <= First(log, a[n].templateId)
  {
    assert Backed(a[n], log);
    var k := First(log, a[n].templateId);
    var j := IndexOf(b, log[k].templateId);
    assert b[j].templateId == a[n].templateId;
    if j < n {
      assert a[j].templateId == a[n].templateId;
      IdsDistinct(a, log, j, n);
    }
  }

  // --- The store and the ingestor as objects ----------------------------------

  class MinerStore<Snap> {
    var templates: seq<Template>
    var occurrences: seq<Occurrence>
    var trees: Snap

    constructor (empty: Snap)
      ensures templates == [] && occurrences == [] && trees == empty
    {
      templates, occurrences, trees := [], [], empty;
    }

    function Contents(): Disk<Snap>
      reads this
    {
      Disk(templates, occurrences, trees)
    }

    method AppendOccurrences(more: seq<Occurrence>)
      modifies this`occurrences
      ensures occurrences == old(occurrences) + more
    {
      if |more| == 0 {
        return;
      }
      occurrences := occurrences + more;
    }

    method SaveTemplates(all: seq<Template>)
      modifies this`templates
      ensures templates == all
    {
      templates := all;
    }

    method SaveTreeSnapshots(snapshot: Snap)
      modifies this`trees
      ensures trees == snapshot
    {
      trees := snapshot;
    }
  }

  class MinerIngestor<S, Snap> {
    const clusterer: Clusterer<S, Snap>
    const store: MinerStore<Snap>
    const buffered: bool
    var tree: S
    var templates: seq<Template>
    var pending: seq<Occurrence>

    /** What the ingestor knows: everything on disk plus everything held back. */
    ghost function State(): Core<S>
      reads this, store
    {
      Core(tree, templates, store.occurrences + pending)
    }

    /** Unbuffered, the disk is never behind. */
    ghost predicate Current()
      reads this, store
    {
      pending == [] && store.Contents() == DiskOf(clusterer, State())
    }

    constructor Create(clusterer: Clusterer<S, Snap>, store: MinerStore<Snap>, buffered: bool)
      ensures this.clusterer == clusterer && this.store == store && this.buffered == buffered
      ensures pending == [] && State() == Load(clusterer, store.Contents())
    {
      this.clusterer, this.store, this.buffered := clusterer, store, buffered;
      tree := clusterer.fromSnapshot(store.trees);
      templates := store.templates;
      pending := [];
    }

    /** Writes the templates, then the trees; `between` is the store after the first write. */
    method PersistTemplates() returns (ghost between: Disk<Snap>)
      modifies store`templates, store`trees
      ensures store.templates == templates && store.trees == clusterer.snapshot(tree)
      ensures between == old(store.Contents()).(templates := templates)
    {
      store.SaveTemplates(templates);
      between := store.Contents();
      store.SaveTreeSnapshots(clusterer.snapshot(tree));
    }

    method IngestBlob(b: Blob) returns (templateId: string, isNewTemplate: bool)
      requires !buffered ==> pending == []
      modifies this, store
      ensures State() == Ingest(clusterer, old(State()), b)
      ensures buffered ==> store.Contents() == old(store.Contents())
      ensures !buffered ==> Current()
      ensures templateId == State().log[|State().log| - 1].templateId
      ensures isNewTemplate <==> IndexOf(old(templates), templateId) < 0
    {
      var result := clusterer.cluster(tree, b.toolType, b.rawText);
      tree := result.next;
      templateId := result.templateId;
      var existing := IndexOf(templates, templateId);
      isNewTemplate := existing < 0;
      var occurrence := OccurrenceOf(b, result);
      if buffered {
        pending := pending + [occurrence];
      } else {
        store.AppendOccurrences([occurrence]);
      }
      templates := Bump(templates, occurrence, NewTemplate(b, result));
      assert State().log == old(State().log) + [occurrence];
      if !buffered {
        var _ := PersistTemplates();
      }
    }

    /** `trail` is the store before the flush and after each of its writes. */
    method Flush() returns (ghost trail: seq<Disk<Snap>>)
      modifies this`pending, store
      ensures buffered ==>
                |trail| == 4 && forall n :: 0 <= n < 4 ==>
                  trail[n] == FlushedTo(clusterer, old(store.Contents()), old(State()), n)
      ensures State() == old(State())
      ensures buffered ==> Current()
      ensures !buffered ==> store.Contents() == old(store.Contents()) && pending == old(pending)
    {
      trail := [store.Contents()];
      if !buffered {
        return;
      }
      store.AppendOccurrences(pending);
      trail := trail + [store.Contents()];
      pending := [];
      assert State().log == old(State().log);
      ghost var between := PersistTemplates();
      trail := trail + [between, store.Contents()];
    }
  }

  /** One ingestor over a list of blobs, flushed at the end; `buffered` leaves no trace on disk. */
  method IngestRun<S, Snap>(c: Clusterer<S, Snap>, store: MinerStore<Snap>, buffered: bool, blobs: seq<Blob>)
    modifies store
    ensures blobs != [] || buffered ==>
              store.Contents() == DiskOf(c, IngestAll(c, Load(c, old(store.Contents())), blobs))
    ensures blobs == [] && !buffered ==> store.Contents() == old(store.Contents())
  {
    var ingestor := new MinerIngestor<S, Snap>.Create(c, store, buffered);
    ghost var start := Load(c, store.Contents());
    for i := 0 to |blobs|
      invariant fresh(ingestor) && ingestor.store == store && ingestor.clusterer == c
      invariant ingestor.buffered == buffered
      invariant ingestor.State() == IngestAll(c, start, blobs[..i])
      invariant !buffered ==> ingestor.pending == [] && (i > 0 ==> ingestor.Current())
      invariant i == 0 ==> store.Contents() == old(store.Contents())
    {
      var _, _ := ingestor.IngestBlob(blobs[i]);
      assert blobs[..i + 1][..i] == blobs[..i];
    }
    assert blobs[..|blobs|] == blobs;
    var _ := ingestor.Flush();
  }
}
