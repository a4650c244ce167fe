/** What resuming promises. */
module DrainConvergence {
  // However an append-only corpus is read in passes, each transcript feeds the blobs one straight
  // read of its prefix gives, and the store is the one that single read leaves
  // (src/drain/transcript-reader.ts). Where `exact` is set no pending id was ever forgotten and the
  // ids carried are those of the straight read too; otherwise only generic ones were, and what is
  // carried resolves every id to the same partition.

  import opened Prelude
  import opened DrainBlobs
  import opened DrainIngestor
  import opened DrainReader
  import opened DrainTable
  import opened DrainTrim

  // --- Which blobs came from which transcript ---------------------------------

  /** The blobs of transcript `i`, in order. */
  function OfTranscript(fed: seq<Blob>, i: nat): seq<Blob> {
    if fed == [] then []
    else
      var last := fed[|fed| - 1];
      OfTranscript(fed[..|fed| - 1], i) + (if last.locator.transcript == i then [last] else [])
  }

  lemma {:induction false} OfTranscriptAppend(xs: seq<Blob>, ys: seq<Blob>, i: nat)
    ensures OfTranscript(xs + ys, i) == OfTranscript(xs, i) + OfTranscript(ys, i)
    decreases |ys|
  {
    if ys == [] {
      assert xs + ys == xs;
    } else {
      assert (xs + ys)[..|xs + ys| - 1] == xs + ys[..|ys| - 1];
      OfTranscriptAppend(xs, ys[..|ys| - 1], i);
    }
  }

  lemma {:induction false} OfTranscriptAllFrom(blobs: seq<Blob>, i: nat, j: nat)
    requires AllFrom(blobs, i)
    ensures OfTranscript(blobs, j) == if j == i then blobs else []
  {
    if blobs != [] {
      OfTranscriptAllFrom(blobs[..|blobs| - 1], i, j);
    }
  }

  lemma {:induction false} OfTranscriptNew(fed: seq<Blob>, i: nat)
    requires forall k :: 0 <= k < |fed| ==> fed[k].locator.transcript < i
    ensures OfTranscript(fed, i) == []
  {
    if fed != [] {
      OfTranscriptNew(fed[..|fed| - 1], i);
    }
  }

  // --- The invariant ------------------------------------------------------------

  /** The entry and the blobs fed so far are what one read of the prefix below the watermark gives. */
  ghost predicate Faithfully(
    lx: Lexer, exact: bool, i: nat, entry: TranscriptState, file: Bytes, fed: seq<Blob>) {
    && entry.lastByteOffset <= |file|
    && History(lx, i, file, entry.lastByteOffset).blobs == OfTranscript(fed, i)
    && History(lx, i, file, entry.lastByteOffset).offset == entry.lastByteOffset
    && Alike(exact, entry.pendingToolNames, History(lx, i, file, entry.lastByteOffset).names)
    && (entry.prefixHash.Some? ==> entry.prefixHash.value == lx.hash(file[..entry.lastByteOffset]))
  }

  ghost predicate Inv(lx: Lexer, exact: bool, corpus: Corpus, table: seq<TranscriptState>, fed: seq<Blob>) {
    && PathsDistinct(table)
    && InTable(fed, |table|)
    && forall i :: 0 <= i < |table| ==> Faithfully(lx, exact, i, table[i], BytesOf(corpus, table[i].path), fed)
  }

  // --- Growth ---------------------------------------------------------------------

  lemma {:induction false} GrowKeeps(
    lx: Lexer, exact: bool, corpus: Corpus, table: seq<TranscriptState>, fed: seq<Blob>, path: string, more: Bytes)
    requires Inv(lx, exact, corpus, table, fed)
    ensures Inv(lx, exact, Grow(corpus, path, more), table, fed)
  {
    forall i | 0 <= i < |table|
      ensures Faithfully(lx, exact, i, table[i], BytesOf(Grow(corpus, path, more), table[i].path), fed)
    {
      var file, mark := BytesOf(corpus, table[i].path), table[i].lastByteOffset;
      assert Faithfully(lx, exact, i, table[i], file, fed);
      if table[i].path == path {
        assert (file + more)[..mark] == file[..mark];
      }
    }
  }

  // --- One visit --------------------------------------------------------------------

  lemma {:induction false} NewEntryIsFaithful(
    lx: Lexer, exact: bool, n: nat, path: string, file: Bytes, fed: seq<Blob>)
    requires InTable(fed, n)
    ensures Faithfully(lx, exact, n, NewEntry(path), file, fed)
  {
    OfTranscriptNew(fed, n);
    NothingAfter(lx, n, file, 0, []);
    assert file[..0] == [];
  }

  /** Making room for a path on first sight. */
  lemma {:induction false} WithPathKeeps(
    lx: Lexer, exact: bool, corpus: Corpus, table: seq<TranscriptState>, fed: seq<Blob>, path: string)
    requires Inv(lx, exact, corpus, table, fed)
    ensures Inv(lx, exact, corpus, WithPath(table, path), fed)
  {
    if FindPath(table, path) == |table| {
      var next := table + [NewEntry(path)];
      NewEntryIsFaithful(lx, exact, |table|, path, BytesOf(corpus, path), fed);
      forall i | 0 <= i < |next|
        ensures Faithfully(lx, exact, i, next[i], BytesOf(corpus, next[i].path), fed) {
        if i < |table| {
          assert Faithfully(lx, exact, i, table[i], BytesOf(corpus, table[i].path), fed);
        }
      }
    }
  }

  /** Reading on from a faithful entry feeds what the straight read feeds there, trimming aside. */
  lemma {:induction false} ReadsOn(
    lx: Lexer, exact: bool, i: nat, entry: TranscriptState, file: Bytes, fed: seq<Blob>, options: Options)
    requires Faithfully(lx, exact, i, entry, file, fed)
    ensures var p := ReadEntry(lx, i, entry, file, entry.lastByteOffset, entry.pendingToolNames, options).1;
            var whole := History(lx, i, file, p.offset);
            && AllFrom(p.blobs, i)
            && whole.blobs == OfTranscript(fed + p.blobs, i) && whole.offset == p.offset
            && Alike(exact, p.names, whole.names)
  {
    var mark := entry.lastByteOffset;
    var p := ReadEntry(lx, i, entry, file, mark, entry.pendingToolNames, options).1;
    var before := History(lx, i, file, mark);
    ChunkFrom(lx, i, file, mark, options.chunkBytes, mark, entry.pendingToolNames);
    ChunkReadsPrefix(lx, i, file, mark, options.chunkBytes, mark, entry.pendingToolNames);
    ReadOn(lx, i, file, mark, p.offset, 0, []);
    AlikeRead(lx, exact, i, file[..p.offset], mark, entry.pendingToolNames, before.names);
    OfTranscriptAppend(fed, p.blobs, i);
    OfTranscriptAllFrom(p.blobs, i, i);
  }

  /** Resuming: the watermark moves to where the chunk stopped, and history with it. */
  lemma {:induction false} ResumeKeeps(
    lx: Lexer, exact: bool, i: nat, entry: TranscriptState, file: Bytes, fed: seq<Blob>, options: Options)
    requires Faithfully(lx, exact, i, entry, file, fed)
    requires Harmless(exact, EntryDrops(lx, i, entry, file, options))
    ensures var (updated, p) :=
              ReadEntry(lx, i, entry, file, entry.lastByteOffset, entry.pendingToolNames, options);
            && AllFrom(p.blobs, i)
            && Faithfully(lx, exact, i, updated, file, fed + p.blobs)
  {
    var p := ReadEntry(lx, i, entry, file, entry.lastByteOffset, entry.pendingToolNames, options).1;
    ReadsOn(lx, exact, i, entry, file, fed, options);
    AlikeTrimmed(exact, p.names, History(lx, i, file, p.offset).names);
  }

  /** The names dropped where reading on from an entry stops. */
  function EntryDrops(lx: Lexer, i: nat, entry: TranscriptState, file: Bytes, options: Options): ToolMap
    requires entry.lastByteOffset <= |file|
  {
    Dropped(ReadEntry(lx, i, entry, file, entry.lastByteOffset, entry.pendingToolNames, options).1.names)
  }

  lemma {:induction false} FedElsewhere(
    lx: Lexer, exact: bool, j: nat, entry: TranscriptState, file: Bytes, fed: seq<Blob>, blobs: seq<Blob>, i: nat)
    requires Faithfully(lx, exact, j, entry, file, fed) && AllFrom(blobs, i) && i != j
    ensures Faithfully(lx, exact, j, entry, file, fed + blobs)
  {
    OfTranscriptAppend(fed, blobs, j);
    OfTranscriptAllFrom(blobs, i, j);
  }

  /** An append-only transcript that agrees with its entry never looks rewritten. */
  lemma {:induction false} NeverRewritten(
    lx: Lexer, exact: bool, i: nat, entry: TranscriptState, file: Bytes, fed: seq<Blob>, verify: bool)
    requires Faithfully(lx, exact, i, entry, file, fed)
    ensures ResumeAt(lx, entry, Some(file), verify) ==
            if |file| == entry.lastByteOffset then Unchanged else Resume(entry.lastByteOffset)
  {
  }

  lemma {:induction false} VisitKeeps(
    lx: Lexer, exact: bool, corpus: Corpus, options: Options, table: seq<TranscriptState>, fed: seq<Blob>, path: string)
    requires Inv(lx, exact, corpus, table, fed) && !options.full
    requires Harmless(exact, Visit(lx, corpus, options, table, path).dropped)
    ensures var v := Visit(lx, corpus, options, table, path);
            Inv(lx, exact, corpus, v.table, fed + v.blobs)
  {
    var v := Visit(lx, corpus, options, table, path);
    var i, known := FindPath(table, path), WithPath(table, path);
    WithPathKeeps(lx, exact, corpus, table, fed, path);
    assert fed + [] == fed;
    if path in corpus {
      var file := corpus[path];
      assert BytesOf(corpus, known[i].path) == file;
      NeverRewritten(lx, exact, i, known[i], file, fed, options.verifyHashes);
      if |file| != known[i].lastByteOffset {
        ResumeKeeps(lx, exact, i, known[i], file, fed, options);
        UpdateKeeps(lx, exact, corpus, known, fed, i, v.table[i], v.blobs);
      }
    }
  }

  lemma {:induction false} UpdateKeeps(
    lx: Lexer, exact: bool, corpus: Corpus, known: seq<TranscriptState>, fed: seq<Blob>, i: nat, updated: TranscriptState,
    blobs: seq<Blob>)
    requires Inv(lx, exact, corpus, known, fed) && i < |known| && AllFrom(blobs, i) && updated.path == known[i].path
    requires Faithfully(lx, exact, i, updated, BytesOf(corpus, known[i].path), fed + blobs)
    ensures Inv(lx, exact, corpus, known[i := updated], fed + blobs)
  {
    forall j | 0 <= j < |known|
      ensures Faithfully(lx, exact, j, known[i := updated][j], BytesOf(corpus, known[j].path), fed + blobs)
    {
      if j != i {
        FedElsewhere(lx, exact, j, known[j], BytesOf(corpus, known[j].path), fed, blobs, i);
      }
    }
  }

  lemma {:induction false} VisitNextKeeps(
    lx: Lexer, exact: bool, corpus: Corpus, options: Options, before: Visits, fed: seq<Blob>, path: string)
    requires Inv(lx, exact, corpus, before.table, fed + before.blobs) && !options.full
    requires Harmless(exact, Visit(lx, corpus, options, before.table, path).dropped)
    ensures var v := Then(before, Visit(lx, corpus, options, before.table, path));
            Inv(lx, exact, corpus, v.table, fed + v.blobs)
  {
    var last := Visit(lx, corpus, options, before.table, path);
    VisitKeeps(lx, exact, corpus, options, before.table, fed + before.blobs, path);
    ConcatAssoc(fed, before.blobs, last.blobs);
  }

  lemma {:induction false} VisitAllKeeps(
    lx: Lexer, exact: bool, corpus: Corpus, options: Options, table: seq<TranscriptState>, fed: seq<Blob>, paths: seq<string>)
    requires Inv(lx, exact, corpus, table, fed) && !options.full
    requires Harmless(exact, VisitAll(lx, corpus, options, table, paths).dropped)
    ensures var v := VisitAll(lx, corpus, options, table, paths);
            Inv(lx, exact, corpus, v.table, fed + v.blobs)
    decreases |paths|
  {
    if paths == [] {
      assert fed + [] == fed;
    } else {
      var init := paths[..|paths| - 1];
      HarmlessParts(exact, VisitAll(lx, corpus, options, table, init).dropped,
        Visit(lx, corpus, options, VisitAll(lx, corpus, options, table, init).table, paths[|paths| - 1]).dropped);
      VisitAllKeeps(lx, exact, corpus, options, table, fed, init);
      VisitNextKeeps(lx, exact, corpus, options, VisitAll(lx, corpus, options, table, init), fed, paths[|paths| - 1]);
    }
  }

  // --- Runs ---------------------------------------------------------------------------

  /** Files only grow, no pass is a full one, and none forgets a pending id that could be missed. */
  ghost predicate Resuming(lx: Lexer, exact: bool, events: seq<Event>) {
    && NonFull(events)
    && forall k :: 0 <= k < |events| ==>
         !events[k].Replace? && !events[k].Remove? && Harmless(exact, DroppedAt(lx, events, k))
  }

  /** The pending names the pass at `k` drops. */
  function DroppedAt(lx: Lexer, events: seq<Event>, k: nat): ToolMap
    requires k < |events|
  {
    var before := Run(lx, EMPTY, events[..k]);
    match events[k]
    case Ingest(options, discovered) => Pass(lx, before.corpus, options, before.table, discovered).dropped
    case _ => []
  }

  lemma {:induction false} RunKeeps(lx: Lexer, exact: bool, events: seq<Event>)
    requires Resuming(lx, exact, events)
    ensures var s := Run(lx, EMPTY, events);
            Inv(lx, exact, s.corpus, s.table, s.fed)
    decreases |events|
  {
    if events != [] {
      var n := |events| - 1;
      var init := events[..n];
      ResumingInit(lx, exact, events);
      RunKeeps(lx, exact, init);
      var s := Run(lx, EMPTY, init);
      assert Harmless(exact, DroppedAt(lx, events, n));
      match events[n] {
        case Append(path, more) => GrowKeeps(lx, exact, s.corpus, s.table, s.fed, path, more);
        case Ingest(options, discovered) =>
          VisitAllKeeps(lx, exact, s.corpus, options, s.table, s.fed, Visiting(options, discovered));
        case _ =>
      }
    }
  }

  lemma {:induction false} ResumingInit(lx: Lexer, exact: bool, events: seq<Event>)
    requires events != [] && Resuming(lx, exact, events)
    ensures Resuming(lx, exact, events[..|events| - 1])
  {
    var init := events[..|events| - 1];
    forall k | 0 <= k < |init|
      ensures !init[k].Replace? && !init[k].Remove? && Harmless(exact, DroppedAt(lx, init, k))
    {
      assert init[k] == events[k] && init[..k] == events[..k];
      assert Harmless(exact, DroppedAt(lx, events, k));
    }
  }

  // --- Which forgetting is harmless -----------------------------------------------------

  /** What was fed and what resuming feeds are together what one read of the file feeds. */
  ghost predicate ResumesAsOne(lx: Lexer, i: nat, entry: TranscriptState, file: Bytes, fed: seq<Blob>)
    requires entry.lastByteOffset <= |file|
  {
    OfTranscript(fed, i) + ReadAll(lx, i, file, entry.lastByteOffset, entry.pendingToolNames).blobs ==
    ReadAll(lx, i, file, 0, []).blobs
  }

  lemma {:induction false} ResumesAsOneIff(
    lx: Lexer, i: nat, entry: TranscriptState, done: Bytes, more: Bytes, fed: seq<Blob>)
    requires |done| == entry.lastByteOffset
    requires ReadAll(lx, i, done, 0, []).blobs == OfTranscript(fed, i) && ReadAll(lx, i, done, 0, []).offset == |done|
    ensures ResumesAsOne(lx, i, entry, done + more, fed) <==>
            ReadAll(lx, i, done + more, |done|, entry.pendingToolNames).blobs ==
            ReadAll(lx, i, done + more, |done|, ReadAll(lx, i, done, 0, []).names).blobs
  {
    var file, before := done + more, ReadAll(lx, i, done, 0, []);
    assert file[..|done|] == done && file[..|file|] == file;
    ReadOn(lx, i, file, |done|, |file|, 0, []);
    var xs := ReadAll(lx, i, file, |done|, entry.pendingToolNames).blobs;
    var ys := ReadAll(lx, i, file, |done|, before.names).blobs;
    assert (before.blobs + xs)[|before.blobs|..] == xs && (before.blobs + ys)[|before.blobs|..] == ys;
  }

  /**
   * A visit forgets harmlessly exactly when, however the transcript goes on from
   * the watermark, resuming there still reads as one read of it all.
   */
  lemma {:induction false} ForgettingIsHarmlessIff(
    lx: Lexer, i: nat, entry: TranscriptState, file: Bytes, fed: seq<Blob>, options: Options)
    requires Faithfully(lx, false, i, entry, file, fed) && CanWrite(lx)
    ensures var (updated, p) :=
              ReadEntry(lx, i, entry, file, entry.lastByteOffset, entry.pendingToolNames, options);
            AllGeneric(Dropped(p.names)) <==>
            forall more: Bytes :: ResumesAsOne(lx, i, updated, file[..updated.lastByteOffset] + more, fed + p.blobs)
  {
    var (updated, p) := ReadEntry(lx, i, entry, file, entry.lastByteOffset, entry.pendingToolNames, options);
    var done := file[..updated.lastByteOffset];
    var whole := ReadAll(lx, i, done, 0, []);
    ReadsOn(lx, false, i, entry, file, fed, options);
    assert whole.blobs == OfTranscript(fed + p.blobs, i) && whole.offset == |done|;
    TrimKeepsTypesIff(p.names);
    DroppedThenTrim(p.names);
    SameTypesThrough(updated.pendingToolNames, p.names, whole.names);
    if SameTypes(updated.pendingToolNames, whole.names) {
      forall more: Bytes ensures ResumesAsOne(lx, i, updated, done + more, fed + p.blobs) {
        SameRead(lx, i, done + more, |done|, updated.pendingToolNames, whole.names);
        ResumesAsOneIff(lx, i, updated, done, more, fed + p.blobs);
      }
    } else {
      var more := LineTellsApart(lx, i, done, updated.pendingToolNames, whole.names);
      ResumesAsOneIff(lx, i, updated, done, more, fed + p.blobs);
      assert !ResumesAsOne(lx, i, updated, done + more, fed + p.blobs);
    }
  }

  lemma {:induction false} SameTypesThrough(a: ToolMap, b: ToolMap, c: ToolMap)
    requires SameTypes(b, c)
    ensures SameTypes(a, b) <==> SameTypes(a, c)
  {
    assert forall id :: TypeIn(b, id) == TypeIn(c, id);
    if SameTypes(a, b) {
      assert forall id :: TypeIn(a, id) == TypeIn(b, id);
    }
    if SameTypes(a, c) {
      assert forall id :: TypeIn(a, id) == TypeIn(c, id);
    }
  }

  // --- Catching up ----------------------------------------------------------------------

  ghost predicate CaughtUp(entry: TranscriptState, file: Bytes) {
    entry.lastByteOffset <= |file| && NextLine(file, entry.lastByteOffset).None?
  }

  lemma {:induction false} UnlimitedReadsOut(
    lx: Lexer, index: nat, file: Bytes, start: nat, at: nat, names: ToolMap)
    requires start <= at <= |file|
    ensures NextLine(file, ReadChunk(lx, index, file, start, None, at, names).offset).None?
    decreases |file| - at
  {
    match NextLine(file, at) {
      case None =>
      case Some(line) =>
        var one := ReadLine(lx, index, line, names);
        UnlimitedReadsOut(lx, index, file, start, one.offset, one.names);
    }
  }

  /** A pass without a chunk limit leaves each transcript it visits read to its last completed line. */
  lemma {:induction false} UnlimitedVisitCatchesUp(
    lx: Lexer, exact: bool, corpus: Corpus, options: Options, table: seq<TranscriptState>, fed: seq<Blob>, path: string)
    requires Inv(lx, exact, corpus, table, fed) && !options.full && options.chunkBytes.None? && path in corpus
    ensures CaughtUp(Visit(lx, corpus, options, table, path).table[FindPath(table, path)], corpus[path])
  {
    var i, known, file := FindPath(table, path), WithPath(table, path), corpus[path];
    WithPathKeeps(lx, exact, corpus, table, fed, path);
    NeverRewritten(lx, exact, i, known[i], file, fed, options.verifyHashes);
    var mark := known[i].lastByteOffset;
    if |file| == mark {
      assert NewlineFrom(file, mark) == mark;
    } else {
      UnlimitedReadsOut(lx, i, file, mark, mark, known[i].pendingToolNames);
    }
  }

  /**
   * Each transcript, however its reading was cut into passes and however the
   * passes interleaved: the watermark is on a line boundary, and blobs and
   * pending ids are those of one read up to it; once caught up, of the file.
   */
  lemma {:induction false} EachTranscriptReadsAsOne(lx: Lexer, exact: bool, events: seq<Event>, i: nat)
    requires Resuming(lx, exact, events) && i < |Run(lx, EMPTY, events).table|
    ensures var s := Run(lx, EMPTY, events);
            var entry, file := s.table[i], BytesOf(s.corpus, s.table[i].path);
            && entry.lastByteOffset <= |file| && OnBoundary(file, entry.lastByteOffset)
            && ReadsAs(lx, exact, i, entry, file[..entry.lastByteOffset], OfTranscript(s.fed, i))
            && (CaughtUp(entry, file) ==> ReadsAs(lx, exact, i, entry, file, OfTranscript(s.fed, i)))
  {
    RunKeeps(lx, exact, events);
    var s := Run(lx, EMPTY, events);
    var entry, file := s.table[i], BytesOf(s.corpus, s.table[i].path);
    assert Faithfully(lx, exact, i, entry, file, s.fed);
    ReadsToBoundary(lx, i, file, entry.lastByteOffset, 0, []);
    if CaughtUp(entry, file) {
      HistoryIsWhole(lx, i, file, entry.lastByteOffset);
    }
  }

  /** One read of `bytes` feeds these blobs and ends at the entry's watermark with its pending ids. */
  ghost predicate ReadsAs(
    lx: Lexer, exact: bool, i: nat, entry: TranscriptState, bytes: Bytes, blobs: seq<Blob>) {
    var whole := ReadAll(lx, i, bytes, 0, []);
    && whole.blobs == blobs && whole.offset == entry.lastByteOffset
    && Alike(exact, entry.pendingToolNames, whole.names)
  }

  lemma {:induction false} HistoryIsWhole(lx: Lexer, i: nat, file: Bytes, mark: nat)
    requires mark <= |file| && NextLine(file, mark).None? && History(lx, i, file, mark).offset == mark
    ensures ReadAll(lx, i, file, 0, []) == History(lx, i, file, mark)
  {
    var h := History(lx, i, file, mark);
    assert file[..|file|] == file;
    ReadOn(lx, i, file, mark, |file|, 0, []);
    assert ReadAll(lx, i, file, mark, h.names) == Progress([], h.names, mark);
    assert Join(h, Progress([], h.names, mark)) == h;
  }

  // --- The store ---------------------------------------------------------------------------

  /** What the passes of a run leave on disk, each loading what the one before it saved. */
  function DiskAfter<S, Snap>(lx: Lexer, c: Clusterer<S, Snap>, empty: Disk<Snap>, events: seq<Event>): Disk<Snap>
    decreases |events|
  {
    if events == [] then empty
    else
      var before := DiskAfter(lx, c, empty, events[..|events| - 1]);
      match events[|events| - 1]
      case Ingest(options, discovered) =>
        var s := Run(lx, EMPTY, events[..|events| - 1]);
        DiskOf(c, IngestAll(c, Load(c, before), Pass(lx, s.corpus, options, s.table, discovered).blobs))
      case _ => before
  }

  lemma {:induction false} DiskIsOneIngest<S(!new), Snap>(
    lx: Lexer, c: Clusterer<S, Snap>, tree: S, events: seq<Event>)
    requires Faithful(c)
    ensures DiskAfter(lx, c, DiskOf(c, Core(tree, [], [])), events) ==
            DiskOf(c, IngestAll(c, Core(tree, [], []), Run(lx, EMPTY, events).fed))
    decreases |events|
  {
    if events != [] {
      var init := events[..|events| - 1];
      DiskIsOneIngest(lx, c, tree, init);
      var s := Run(lx, EMPTY, init);
      match events[|events| - 1] {
        case Ingest(options, discovered) =>
          RestartIsInvisible(c, Core(tree, [], []), s.fed, Pass(lx, s.corpus, options, s.table, discovered).blobs);
        case _ =>
      }
    }
  }

  lemma {:induction false} OnlyTranscript(fed: seq<Blob>)
    requires InTable(fed, 1)
    ensures OfTranscript(fed, 0) == fed
  {
    if fed != [] {
      OnlyTranscript(fed[..|fed| - 1]);
    }
  }

  /** The table holds one transcript, read to its last completed line. */
  ghost predicate Settled(s: System, path: string) {
    |s.table| == 1 && s.table[0].path == path && CaughtUp(s.table[0], BytesOf(s.corpus, path))
  }

  /**
   * Two runs over one append-only transcript that end with the same file, both
   * caught up, feed the same blobs and leave the same store and watermark; one of
   * them may be a single pass. Where neither forgot an id the entries agree in all
   * but the hash, which only verifying passes keep.
   */
  lemma {:induction false} ChunkingConverges<S(!new), Snap>(
    lx: Lexer, exact: bool, c: Clusterer<S, Snap>, tree: S, path: string, xs: seq<Event>, ys: seq<Event>)
    requires Faithful(c)
    requires Resuming(lx, exact, xs) && Resuming(lx, exact, ys)
    requires Settled(Run(lx, EMPTY, xs), path) && Settled(Run(lx, EMPTY, ys), path)
    requires BytesOf(Run(lx, EMPTY, xs).corpus, path) == BytesOf(Run(lx, EMPTY, ys).corpus, path)
    ensures Run(lx, EMPTY, xs).fed == Run(lx, EMPTY, ys).fed
    ensures var x, y := Run(lx, EMPTY, xs).table[0], Run(lx, EMPTY, ys).table[0];
            && x.lastByteOffset == y.lastByteOffset
            && SameTypes(x.pendingToolNames, y.pendingToolNames)
            && (exact ==> x == y.(prefixHash := x.prefixHash))
    ensures var empty := DiskOf(c, Core(tree, [], []));
            DiskAfter(lx, c, empty, xs) == DiskAfter(lx, c, empty, ys)
  {
    SettledIsWhole(lx, exact, path, xs);
    SettledIsWhole(lx, exact, path, ys);
    var x, y := Run(lx, EMPTY, xs).table[0], Run(lx, EMPTY, ys).table[0];
    AlikeBoth(exact, x.pendingToolNames, y.pendingToolNames,
      ReadAll(lx, 0, BytesOf(Run(lx, EMPTY, xs).corpus, path), 0, []).names);
    DiskIsOneIngest(lx, c, tree, xs);
    DiskIsOneIngest(lx, c, tree, ys);
  }

  lemma {:induction false} AlikeBoth(exact: bool, a: ToolMap, b: ToolMap, whole: ToolMap)
    requires Alike(exact, a, whole) && Alike(exact, b, whole)
    ensures SameTypes(a, b) && (exact ==> a == b)
  {
    if !exact {
      forall id ensures TypeIn(a, id) == TypeIn(b, id) {
        assert TypeIn(a, id) == TypeIn(whole, id) == TypeIn(b, id);
      }
    }
  }

  lemma {:induction false} SettledIsWhole(lx: Lexer, exact: bool, path: string, events: seq<Event>)
    requires Resuming(lx, exact, events) && Settled(Run(lx, EMPTY, events), path)
    ensures var s := Run(lx, EMPTY, events);
            ReadsAs(lx, exact, 0, s.table[0], BytesOf(s.corpus, path), s.fed)
  {
    RunKeeps(lx, exact, events);
    EachTranscriptReadsAsOne(lx, exact, events, 0);
    OnlyTranscript(Run(lx, EMPTY, events).fed);
  }

  /** Every pass moves on: a visited transcript with an unread completed line gets a later watermark. */
  lemma {:induction false} PassesProgress(
    lx: Lexer, exact: bool, corpus: Corpus, options: Options, table: seq<TranscriptState>, fed: seq<Blob>, path: string)
    requires Inv(lx, exact, corpus, table, fed) && !options.full && FindPath(table, path) < |table| && path in corpus
    ensures var entry := table[FindPath(table, path)];
            var after := Visit(lx, corpus, options, table, path).table[FindPath(table, path)];
            if CaughtUp(entry, corpus[path]) then after.lastByteOffset == entry.lastByteOffset
            else after.lastByteOffset > entry.lastByteOffset
  {
    var i := FindPath(table, path);
    NeverRewritten(lx, exact, i, table[i], corpus[path], fed, options.verifyHashes);
    if |corpus[path]| == table[i].lastByteOffset {
      assert NewlineFrom(corpus[path], |corpus[path]|) == |corpus[path]|;
    }
  }
}
