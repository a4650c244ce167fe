/** A flush that was stopped. */
module DrainFlush {
  // src/drain/ingestor.ts: flush writes the log, then the templates, then the trees; a stop in between
  // leaves a store that the next pass loads as it is.

  import opened Prelude
  import opened DrainIngestor

  // --- The counts of a summary add up to the log ------------------------------------

  function Total(templates: seq<Template>): nat {
    if templates == [] then 0 else templates[0].occurrenceCount + Total(templates[1..])
  }

  /** How often the templates' ids occur in the log, all together. */
  function Occurrences(templates: seq<Template>, log: seq<Occurrence>): nat {
    if templates == [] then 0 else Count(log, templates[0].templateId) + Occurrences(templates[1..], log)
  }

  function Matches(templates: seq<Template>, id: string): nat {
    if templates == [] then 0 else (if templates[0].templateId == id then 1 else 0) + Matches(templates[1..], id)
  }

  ghost predicate DistinctIds(templates: seq<Template>) {
    forall i, j :: 0 <= i < j < |templates| ==> templates[i].templateId != templates[j].templateId
  }

  lemma {:induction false} MatchesOne(templates: seq<Template>, id: string)
    requires DistinctIds(templates)
    ensures Matches(templates, id) == if IndexOf(templates, id) >= 0 then 1 else 0
  {
    if templates != [] {
      MatchesOne(templates[1..], id);
      assert forall k :: 0 < k < |templates| ==> templates[k] == templates[1..][k - 1];
      if templates[0].templateId == id {
        assert IndexOf(templates[1..], id) < 0;
      }
    }
  }

  lemma {:induction false} OccurrencesSnoc(templates: seq<Template>, log: seq<Occurrence>, o: Occurrence)
    ensures Occurrences(templates, log + [o]) == Occurrences(templates, log) + Matches(templates, o.templateId)
  {
    if templates != [] {
      CountFirstSnoc(log, o, templates[0].templateId);
      OccurrencesSnoc(templates[1..], log, o);
    }
  }

  lemma {:induction false} NoOccurrences(templates: seq<Template>)
    ensures Occurrences(templates, []) == 0
  {
    if templates != [] {
      NoOccurrences(templates[1..]);
    }
  }

  lemma {:induction false} EachOccursOnce(templates: seq<Template>, log: seq<Occurrence>)
    requires DistinctIds(templates) && Covers(templates, log)
    ensures Occurrences(templates, log) == |log|
    decreases |log|
  {
    if log == [] {
      NoOccurrences(templates);
    } else {
      var init, last := log[..|log| - 1], log[|log| - 1];
      assert init + [last] == log;
      assert Covers(templates, init) by {
        assert forall k :: 0 <= k < |init| ==> init[k] == log[k];
      }
      EachOccursOnce(templates, init);
      OccurrencesSnoc(templates, init, last);
      MatchesOne(templates, last.templateId);
    }
  }

  lemma {:induction false} BackedTotal(templates: seq<Template>, log: seq<Occurrence>)
    requires AllBacked(templates, log)
    ensures Total(templates) == Occurrences(templates, log)
  {
    if templates != [] {
      assert forall k :: 0 <= k < |templates| - 1 ==> templates[1..][k] == templates[k + 1];
      BackedTotal(templates[1..], log);
    }
  }

  /** The counts of a summary add up to the length of the log. */
  lemma {:induction false} SummaryTotal(templates: seq<Template>, log: seq<Occurrence>)
    requires Summarises(templates, log)
    ensures Total(templates) == |log|
  {
    forall i, j | 0 <= i < j < |templates| ensures templates[i].templateId != templates[j].templateId {
      IdsDistinct(templates, log, i, j);
    }
    BackedTotal(templates, log);
    EachOccursOnce(templates, log);
  }

  // --- Whatever is fed later ------------------------------------------------------------

  lemma {:induction false} TotalUpdate(templates: seq<Template>, i: nat, t: Template)
    requires i < |templates|
    ensures Total(templates[i := t]) + templates[i].occurrenceCount == Total(templates) + t.occurrenceCount
  {
    if i == 0 {
      assert templates[0 := t][1..] == templates[1..];
    } else {
      assert templates[i := t][1..] == templates[1..][i - 1 := t];
      TotalUpdate(templates[1..], i - 1, t);
    }
  }

  lemma {:induction false} TotalSnoc(templates: seq<Template>, t: Template)
    ensures Total(templates + [t]) == Total(templates) + t.occurrenceCount
  {
    if templates == [] {
      assert [t][1..] == [];
    } else {
      assert (templates + [t])[1..] == templates[1..] + [t];
      TotalSnoc(templates[1..], t);
    }
  }

  lemma {:induction false} BumpTotal(templates: seq<Template>, o: Occurrence, created: Template)
    requires created.occurrenceCount == 1
    ensures Total(Bump(templates, o, created)) == Total(templates) + 1
  {
    var i := IndexOf(templates, o.templateId);
    if i >= 0 {
      TotalUpdate(templates, i, templates[i].(occurrenceCount := templates[i].occurrenceCount + 1));
    } else {
      TotalSnoc(templates, created);
    }
  }

  /** Each blob adds one to the counts, and one to the log. */
  lemma {:induction false} IngestTotal<S, Snap>(c: Clusterer<S, Snap>, core: Core<S>, blobs: seq<Blob>)
    ensures Total(IngestAll(c, core, blobs).templates) == Total(core.templates) + |blobs|
    decreases |blobs|
  {
    if blobs != [] {
      var before, last := IngestAll(c, core, blobs[..|blobs| - 1]), blobs[|blobs| - 1];
      IngestTotal(c, core, blobs[..|blobs| - 1]);
      var result := c.cluster(before.tree, last.toolType, last.rawText);
      BumpTotal(before.templates, OccurrenceOf(last, result), NewTemplate(last, result));
    }
  }

  lemma {:induction false} IngestAllSummarises<S, Snap>(c: Clusterer<S, Snap>, core: Core<S>, blobs: seq<Blob>)
    requires Summarises(core.templates, core.log)
    ensures Summarises(IngestAll(c, core, blobs).templates, IngestAll(c, core, blobs).log)
    decreases |blobs|
  {
    if blobs != [] {
      var init := blobs[..|blobs| - 1];
      IngestAllSummarises(c, core, init);
      IngestSummarises(c, IngestAll(c, core, init), blobs[|blobs| - 1]);
    }
  }

  // --- The stop -----------------------------------------------------------------------------

  /** The store that a pass over `blobs` leaves when its flush stops after `n` writes. */
  function Stopped<S, Snap>(c: Clusterer<S, Snap>, core: Core<S>, blobs: seq<Blob>, n: nat): Disk<Snap> {
    FlushedTo(c, DiskOf(c, core), IngestAll(c, core, blobs), n)
  }

  /** How far the counts fall short of the log. */
  lemma {:induction false} StoppedTotals<S, Snap>(
    c: Clusterer<S, Snap>, core: Core<S>, blobs: seq<Blob>, n: nat, later: seq<Blob>)
    requires Summarises(core.templates, core.log)
    ensures var end := FedTo(c, Stopped(c, core, blobs, n), later);
            Total(end.templates) + (if n == 1 then |blobs| else 0) == |end.log|
  {
    var stopped := Stopped(c, core, blobs, n);
    SummaryTotal(core.templates, core.log);
    IngestTotal(c, core, blobs);
    LogFollowsBlobs(c, core, blobs);
    IngestTotal(c, Load(c, stopped), later);
    LogFollowsBlobs(c, Load(c, stopped), later);
  }

  /**
   * A flush that stops after any number of its writes, and whatever is fed by later
   * passes: the templates are again the summary of the log exactly unless the stop was
   * between log and templates with something to log. Then the counts stay short by
   * what was logged there.
   */
  lemma {:induction false} StoppedFlushCountsIff<S, Snap>(
    c: Clusterer<S, Snap>, core: Core<S>, blobs: seq<Blob>, n: nat, later: seq<Blob>)
    requires Summarises(core.templates, core.log)
    ensures var end := FedTo(c, Stopped(c, core, blobs, n), later);
            && (Summarises(end.templates, end.log) <==> n != 1 || blobs == [])
            && Total(end.templates) + (if n == 1 then |blobs| else 0) == |end.log|
  {
    var stopped := Stopped(c, core, blobs, n);
    var end := FedTo(c, stopped, later);
    StoppedTotals(c, core, blobs, n, later);
    if Summarises(end.templates, end.log) {
      SummaryTotal(end.templates, end.log);
    }
    if n != 1 || blobs == [] {
      IngestAllSummarises(c, core, blobs);
      assert Summarises(stopped.templates, stopped.log);
      IngestAllSummarises(c, Load(c, stopped), later);
    }
  }
}
