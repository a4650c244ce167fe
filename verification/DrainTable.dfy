/** The transcript table over whole runs. */
module DrainTable {
  // src/drain/reader-state.ts, src/drain/transcript-reader.ts: whatever happens to the transcripts
  // between the passes (they grow, are rewritten, shrink or go), stored locators keep naming the
  // file they were read from, and a watermark stays a line boundary of the file it was set in.

  import opened Prelude
  import opened DrainBlobs
  import opened DrainIngestor
  import opened DrainReader

  // --- Runs ---------------------------------------------------------------------------

  datatype Event =
    | Append(path: string, more: Bytes)
    | Replace(path: string, bytes: Bytes)
    | Remove(path: string)
    | Ingest(options: Options, discovered: seq<string>)

  /** Files, reader state, and everything fed to the ingestor since the store was empty. */
  datatype System = System(corpus: Corpus, table: seq<TranscriptState>, fed: seq<Blob>)

  const EMPTY: System := System(map[], [], [])

  function BytesOf(corpus: Corpus, path: string): Bytes {
    if path in corpus then corpus[path] else []
  }

  function Grow(corpus: Corpus, path: string, more: Bytes): Corpus {
    corpus[path := BytesOf(corpus, path) + more]
  }

  function Step(lx: Lexer, s: System, e: Event): System {
    match e
    case Append(path, more) => s.(corpus := Grow(s.corpus, path, more))
    case Replace(path, bytes) => s.(corpus := s.corpus[path := bytes])
    case Remove(path) => s.(corpus := s.corpus - {path})
    case Ingest(options, discovered) =>
      var pass := Pass(lx, s.corpus, options, s.table, discovered);
      System(s.corpus, pass.table, s.fed + pass.blobs)
  }

  /** What happens to the files: one grows, is replaced or goes; the others, the table and what was fed stay. */
  lemma {:induction false} FilesMove(lx: Lexer, s: System, e: Event, path: string)
    requires !e.Ingest?
    ensures var now := Step(lx, s, e);
            && now.table == s.table && now.fed == s.fed
            && (path != e.path ==> FileOf(now.corpus, path) == FileOf(s.corpus, path))
            && (path == e.path ==>
                  && (e.Append? ==> BytesOf(s.corpus, path) <= BytesOf(now.corpus, path) && path in now.corpus)
                  && (e.Replace? ==> FileOf(now.corpus, path) == Some(e.bytes))
                  && (e.Remove? ==> FileOf(now.corpus, path) == None))
  {
  }

  function Run(lx: Lexer, s: System, events: seq<Event>): System
    decreases |events|
  {
    if events == [] then s else Step(lx, Run(lx, s, events[..|events| - 1]), events[|events| - 1])
  }

  lemma {:induction false} RunSnoc(lx: Lexer, s: System, events: seq<Event>, k: nat)
    requires k < |events|
    ensures Run(lx, s, events[..k + 1]) == Step(lx, Run(lx, s, events[..k]), events[k])
  {
    assert events[..k + 1][..k] == events[..k];
  }

  /** No pass of the run is a full one. */
  ghost predicate NonFull(events: seq<Event>) {
    forall k :: 0 <= k < |events| && events[k].Ingest? ==> !events[k].options.full
  }

  // --- Names -----------------------------------------------------------------------------

  function Paths(table: seq<TranscriptState>): seq<string> {
    seq(|table|, i requires 0 <= i < |table| => table[i].path)
  }

  ghost predicate PathsDistinct(table: seq<TranscriptState>) {
    forall i, j :: 0 <= i < j < |table| ==> table[i].path != table[j].path
  }

  ghost predicate InTable(fed: seq<Blob>, n: nat) {
    forall k :: 0 <= k < |fed| ==> fed[k].locator.transcript < n
  }

  ghost predicate AllFrom(blobs: seq<Blob>, i: nat) {
    forall k :: 0 <= k < |blobs| ==> blobs[k].locator.transcript == i
  }

  lemma {:induction false} EligibleFrom(found: seq<Extracted>, locator: Locator)
    ensures AllFrom(EligibleBlobs(found, locator), locator.transcript)
  {
    if found != [] {
      EligibleFrom(found[1..], locator);
    }
  }

  lemma {:induction false} ChunkFrom(
    lx: Lexer, index: nat, file: Bytes, start: nat, chunk: Option<nat>, at: nat, names: ToolMap)
    requires start <= at <= |file|
    ensures AllFrom(ReadChunk(lx, index, file, start, chunk, at, names).blobs, index)
    decreases |file| - at
  {
    match NextLine(file, at) {
      case None =>
      case Some(line) =>
        var one := ReadLine(lx, index, line, names);
        match lx.parse(line.text) {
          case Parsed(record) =>
            EligibleFrom(Extract(record, PutAll(names, ToolUses(record.blocks)), lx.signal).found,
              Locator(index, line.byteOffset, line.byteLength));
          case _ =>
        }
        ChunkFrom(lx, index, file, start, chunk, one.offset, one.names);
    }
  }

  ghost predicate Rewinds(lx: Lexer, entry: TranscriptState, corpus: Corpus, options: Options) {
    ResumeAt(lx, entry, FileOf(corpus, entry.path), options.verifyHashes).Rewritten?
  }

  /**
   * Whatever happened to the files, a visit keeps every index naming its path,
   * feeds blobs only under the visited path's index, and moves a watermark back
   * only where the resume point said the file was rewritten.
   */
  lemma {:induction false} VisitNamesStay(
    lx: Lexer, corpus: Corpus, options: Options, table: seq<TranscriptState>, path: string)
    requires PathsDistinct(table)
    ensures var v := Visit(lx, corpus, options, table, path);
            && PathsDistinct(v.table) && Paths(table) <= Paths(v.table)
            && AllFrom(v.blobs, FindPath(table, path))
            && FindPath(table, path) < |v.table| && v.table[FindPath(table, path)].path == path
            && forall i :: 0 <= i < |table| && v.table[i].lastByteOffset < table[i].lastByteOffset && !options.full ==>
                 table[i].path == path && Rewinds(lx, table[i], corpus, options)
  {
    var i, known := FindPath(table, path), WithPath(table, path);
    var point := PointAt(lx, corpus, options, table, path);
    if point.Resume? {
      ChunkFrom(lx, i, corpus[path], point.start, options.chunkBytes, point.start, known[i].pendingToolNames);
    } else if point.Rewritten? {
      ChunkFrom(lx, i, corpus[path], 0, options.chunkBytes, 0, []);
    }
  }

  /** The blobs of a pass name visited paths, and no index changes its path. */
  lemma {:induction false} PassOnlyGrows(
    lx: Lexer, corpus: Corpus, options: Options, table: seq<TranscriptState>, paths: seq<string>)
    requires PathsDistinct(table)
    ensures var v := VisitAll(lx, corpus, options, table, paths);
            && PathsDistinct(v.table) && Paths(table) <= Paths(v.table)
            && InTable(v.blobs, |v.table|)
            && forall k :: 0 <= k < |v.blobs| ==> v.table[v.blobs[k].locator.transcript].path in paths
    decreases |paths|
  {
    if paths != [] {
      var init := paths[..|paths| - 1];
      PassOnlyGrows(lx, corpus, options, table, init);
      var before := VisitAll(lx, corpus, options, table, init);
      VisitNamesStay(lx, corpus, options, before.table, paths[|paths| - 1]);
      var v := VisitAll(lx, corpus, options, table, paths);
      forall k | 0 <= k < |v.blobs|
        ensures v.blobs[k].locator.transcript < |v.table|
        ensures v.table[v.blobs[k].locator.transcript].path in paths
      {
        if k < |before.blobs| {
          var t := before.blobs[k].locator.transcript;
          assert Paths(before.table)[t] == Paths(v.table)[t];
        }
      }
    }
  }

  /** Distinct paths, and every blob fed so far under one of their indexes. */
  ghost predicate Named(s: System) {
    PathsDistinct(s.table) && InTable(s.fed, |s.table|)
  }

  lemma {:induction false} StepKeepsNames(lx: Lexer, s: System, e: Event)
    requires Named(s) && (e.Ingest? ==> !e.options.full)
    ensures var t := Step(lx, s, e);
            Named(t) && Paths(s.table) <= Paths(t.table) && s.fed <= t.fed
  {
    if e.Ingest? {
      PassOnlyGrows(lx, s.corpus, e.options, s.table, Visiting(e.options, e.discovered));
      var t := Step(lx, s, e);
      assert |Paths(s.table)| <= |Paths(t.table)|;
    }
  }

  lemma {:induction false} RunKeepsNames(lx: Lexer, events: seq<Event>)
    requires NonFull(events)
    ensures Named(Run(lx, EMPTY, events))
    decreases |events|
  {
    if events != [] {
      RunKeepsNames(lx, events[..|events| - 1]);
      StepKeepsNames(lx, Run(lx, EMPTY, events[..|events| - 1]), events[|events| - 1]);
    }
  }

  /**
   * Over every run of non-full passes, whatever happens to the files in between:
   * the table and the blobs of an earlier point are prefixes of the later ones
   * by path, and every blob fed by then still names the path it named.
   */
  lemma {:induction false} TableOnlyGrows(lx: Lexer, events: seq<Event>, k: nat)
    requires NonFull(events) && k <= |events|
    ensures var s, t := Run(lx, EMPTY, events[..k]), Run(lx, EMPTY, events);
            && PathsDistinct(t.table) && Paths(s.table) <= Paths(t.table) && s.fed <= t.fed
            && forall b :: 0 <= b < |s.fed| ==>
                 && s.fed[b].locator.transcript < |s.table| <= |t.table|
                 && t.table[t.fed[b].locator.transcript].path == s.table[s.fed[b].locator.transcript].path
    decreases |events|
  {
    var s, t := Run(lx, EMPTY, events[..k]), Run(lx, EMPTY, events);
    RunKeepsNames(lx, events[..k]);
    if k == |events| {
      assert events[..k] == events;
    } else {
      var init := events[..|events| - 1];
      assert init[..k] == events[..k];
      TableOnlyGrows(lx, init, k);
      RunKeepsNames(lx, init);
      StepKeepsNames(lx, Run(lx, EMPTY, init), events[|events| - 1]);
    }
    assert |Paths(s.table)| <= |Paths(t.table)|;
    forall b | 0 <= b < |s.fed|
      ensures t.table[t.fed[b].locator.transcript].path == s.table[s.fed[b].locator.transcript].path {
      var i := s.fed[b].locator.transcript;
      assert Paths(s.table)[i] == Paths(t.table)[i] && t.fed[b] == s.fed[b];
    }
  }

  // --- The order of first sight ---------------------------------------------------------------

  /** The paths known after more visits, in order of first sight. */
  function Sighted(known: seq<string>, paths: seq<string>): (r: seq<string>)
    ensures known <= r
    decreases |paths|
  {
    if paths == [] then known
    else
      var before := Sighted(known, paths[..|paths| - 1]);
      if paths[|paths| - 1] in before then before else before + [paths[|paths| - 1]]
  }

  lemma {:induction false} VisitSights(
    lx: Lexer, corpus: Corpus, options: Options, table: seq<TranscriptState>, path: string)
    ensures Paths(Visit(lx, corpus, options, table, path).table) ==
            if path in Paths(table) then Paths(table) else Paths(table) + [path]
  {
    var i := FindPath(table, path);
    if i < |table| {
      assert Paths(table)[i] == path;
    } else {
      assert forall j :: 0 <= j < |table| ==> Paths(table)[j] == table[j].path;
    }
  }

  /** Which path an index names is decided by the order of first sight alone. */
  lemma {:induction false} PathsAreSighted(
    lx: Lexer, corpus: Corpus, options: Options, table: seq<TranscriptState>, paths: seq<string>)
    ensures Paths(VisitAll(lx, corpus, options, table, paths).table) == Sighted(Paths(table), paths)
    decreases |paths|
  {
    if paths != [] {
      var init := paths[..|paths| - 1];
      PathsAreSighted(lx, corpus, options, table, init);
      VisitSights(lx, corpus, options, VisitAll(lx, corpus, options, table, init).table, paths[|paths| - 1]);
    }
  }

  // --- When a watermark falls ------------------------------------------------------------

  /** A visit moves no watermark back but a rewritten one, and leaves its own entry fitting the file. */
  lemma {:induction false} VisitFits(
    lx: Lexer, corpus: Corpus, options: Options, table: seq<TranscriptState>, path: string, i: nat)
    requires PathsDistinct(table) && !options.full && i < |table|
    ensures var after := Visit(lx, corpus, options, table, path).table[i];
            && after.path == table[i].path
            && (!Rewinds(lx, table[i], corpus, options) ==>
                  after.lastByteOffset >= table[i].lastByteOffset && !Rewinds(lx, after, corpus, options))
            && (table[i].path == path ==> !Rewinds(lx, after, corpus, options))
  {
    var at, known := FindPath(table, path), WithPath(table, path);
    if table[i].path == path {
      assert at == i && known == table;
    }
  }

  lemma {:induction false} PassFits(
    lx: Lexer, corpus: Corpus, options: Options, table: seq<TranscriptState>, paths: seq<string>, i: nat)
    requires PathsDistinct(table) && !options.full && i < |table|
    ensures var v := VisitAll(lx, corpus, options, table, paths);
            && |table| <= |v.table| && PathsDistinct(v.table)
            && v.table[i].path == table[i].path
            && (!Rewinds(lx, table[i], corpus, options) ==>
                  v.table[i].lastByteOffset >= table[i].lastByteOffset && !Rewinds(lx, v.table[i], corpus, options))
            && (table[i].path in paths ==> !Rewinds(lx, v.table[i], corpus, options))
            && (table[i].path !in paths ==> v.table[i] == table[i])
    decreases |paths|
  {
    if paths != [] {
      var init, last := paths[..|paths| - 1], paths[|paths| - 1];
      PassFits(lx, corpus, options, table, init, i);
      var before := VisitAll(lx, corpus, options, table, init);
      VisitFits(lx, corpus, options, before.table, last, i);
      VisitNamesStay(lx, corpus, options, before.table, last);
    }
  }

  /** The path of the entry is visited by the pass `e`. */
  predicate Visits(e: Event, path: string) {
    e.Ingest? && path in Visiting(e.options, e.discovered)
  }

  /**
   * At any step of any run, a watermark falls only where a pass visits the path
   * and its resume point says rewritten; and it does fall wherever a pass visits a
   * file that is now shorter than the watermark.
   */
  lemma {:induction false} FallsOnlyOnRewrite(lx: Lexer, events: seq<Event>, k: nat, i: nat)
    requires NonFull(events) && k < |events| && i < |Run(lx, EMPTY, events[..k]).table|
    ensures var s, t := Run(lx, EMPTY, events[..k]), Run(lx, EMPTY, events[..k + 1]);
            && i < |t.table|
            && (t.table[i].lastByteOffset < s.table[i].lastByteOffset ==>
                  Visits(events[k], s.table[i].path) && Rewinds(lx, s.table[i], s.corpus, events[k].options))
            && (Visits(events[k], s.table[i].path) && s.table[i].path in s.corpus
                && |s.corpus[s.table[i].path]| < s.table[i].lastByteOffset ==>
                  t.table[i].lastByteOffset < s.table[i].lastByteOffset)
  {
    RunSnoc(lx, EMPTY, events, k);
    RunKeepsNames(lx, events[..k]);
    var s := Run(lx, EMPTY, events[..k]);
    if events[k].Ingest? {
      var e := events[k];
      PassFits(lx, s.corpus, e.options, s.table, Visiting(e.options, e.discovered), i);
    }
  }

  // --- Watermarks are line boundaries --------------------------------------------------------

  /** Reading from `at` may stop at `stop`: after a newline, or where it began if no line ends after that. */
  ghost predicate StopsWell(file: Bytes, at: nat, stop: nat)
    requires at <= |file|
  {
    if NextLine(file, at).Some? then at < stop <= |file| && file[stop - 1] == NEWLINE else stop == at
  }

  lemma {:induction false} ChunkUnfolds(
    lx: Lexer, index: nat, file: Bytes, start: nat, chunk: Option<nat>, at: nat, names: ToolMap)
    requires start <= at <= |file|
    ensures ReadChunk(lx, index, file, start, chunk, at, names).offset ==
            match NextLine(file, at)
            case None => at
            case Some(line) =>
              if chunk.Some? && NextOffset(line) - start >= chunk.value then NextOffset(line)
              else ReadChunk(lx, index, file, start, chunk, NextOffset(line),
                             ReadLine(lx, index, line, names).names).offset
  {
  }

  lemma {:induction false} LineStopsWell(file: Bytes, at: nat, line: Line, stop: nat)
    requires at <= |file| && NextLine(file, at) == Some(line)
    requires stop == NextOffset(line) || StopsWell(file, NextOffset(line), stop)
    ensures StopsWell(file, at, stop)
  {
  }

  /** A chunk that reads anything stops at a boundary. */
  lemma {:induction false} ChunkToBoundary(
    lx: Lexer, index: nat, file: Bytes, start: nat, chunk: Option<nat>, at: nat, names: ToolMap)
    requires start <= at <= |file|
    ensures StopsWell(file, at, ReadChunk(lx, index, file, start, chunk, at, names).offset)
    decreases |file| - at
  {
    ChunkUnfolds(lx, index, file, start, chunk, at, names);
    var next := NextLine(file, at);
    if next.Some? {
      var line := next.value;
      ChunkToBoundary(lx, index, file, start, chunk, NextOffset(line), ReadLine(lx, index, line, names).names);
      LineStopsWell(file, at, line, ReadChunk(lx, index, file, start, chunk, at, names).offset);
    }
  }

  ghost predicate Bounded(entry: TranscriptState, corpus: Corpus) {
    OnBoundary(BytesOf(corpus, entry.path), entry.lastByteOffset)
  }

  /** What reading `file` from `mark` on leaves is a boundary unless `mark` is none and no line ends after it. */
  lemma {:induction false} ReadBoundsIff(lx: Lexer, i: nat, entry: TranscriptState, file: Bytes, options: Options)
    requires entry.lastByteOffset <= |file|
    ensures var mark := entry.lastByteOffset;
            var after := ReadEntry(lx, i, entry, file, mark, entry.pendingToolNames, options).0;
            OnBoundary(file, after.lastByteOffset) <==> OnBoundary(file, mark) || NewlineFrom(file, mark) < |file|
  {
    var mark := entry.lastByteOffset;
    ChunkToBoundary(lx, i, file, mark, options.chunkBytes, mark, entry.pendingToolNames);
  }

  /**
   * After a visit of an existing file the watermark is a boundary of it, unless
   * the file was replaced by one at least as long that was not found out, whose
   * byte before the watermark is no newline and which has none after it.
   */
  lemma {:induction false} VisitBoundsIff(
    lx: Lexer, corpus: Corpus, options: Options, table: seq<TranscriptState>, path: string)
    requires PathsDistinct(table) && !options.full && path in corpus
    ensures var entry, file := WithPath(table, path)[FindPath(table, path)], corpus[path];
            var mark := entry.lastByteOffset;
            OnBoundary(file, Visit(lx, corpus, options, table, path).table[FindPath(table, path)].lastByteOffset) <==>
            !(0 < mark <= |file| && !Rewinds(lx, entry, corpus, options) && !EndsALine(file, mark))
  {
    var i, entry, file := FindPath(table, path), WithPath(table, path)[FindPath(table, path)], corpus[path];
    VisitedMark(lx, corpus, options, table, path);
    if Rewinds(lx, entry, corpus, options) {
      ChunkToBoundary(lx, i, file, 0, options.chunkBytes, 0, []);
    } else if |file| > entry.lastByteOffset {
      ReadBoundsIff(lx, i, entry, file, options);
    }
  }

  /** Where a visit of an existing file leaves the watermark. */
  lemma {:induction false} VisitedMark(
    lx: Lexer, corpus: Corpus, options: Options, table: seq<TranscriptState>, path: string)
    requires PathsDistinct(table) && !options.full && path in corpus
    ensures var i, entry, file := FindPath(table, path), WithPath(table, path)[FindPath(table, path)], corpus[path];
            var mark := entry.lastByteOffset;
            Visit(lx, corpus, options, table, path).table[i].lastByteOffset ==
            if Rewinds(lx, entry, corpus, options) then ReadChunk(lx, i, file, 0, options.chunkBytes, 0, []).offset
            else if |file| <= mark then mark
            else ReadEntry(lx, i, entry, file, mark, entry.pendingToolNames, options).0.lastByteOffset
  {
  }

  /** A line of `file` ends at `mark`, or later. */
  ghost predicate EndsALine(file: Bytes, mark: nat)
    requires 0 < mark <= |file|
  {
    file[mark - 1] == NEWLINE || NewlineFrom(file, mark) < |file|
  }

  /** The watermark was set in the file as it is now, or is where it was. */
  ghost predicate SetOrKept(entry: TranscriptState, corpus: Corpus, table: seq<TranscriptState>, i: nat) {
    Bounded(entry, corpus) || (i < |table| && entry.lastByteOffset == table[i].lastByteOffset)
  }

  lemma {:induction false} ReadSetsOrKeeps(
    lx: Lexer, i: nat, entry: TranscriptState, file: Bytes, start: nat, names: ToolMap, options: Options)
    requires start <= |file|
    ensures var mark := ReadEntry(lx, i, entry, file, start, names, options).0.lastByteOffset;
            OnBoundary(file, mark) || mark == start
  {
    ChunkToBoundary(lx, i, file, start, options.chunkBytes, start, names);
  }

  /**
   * After a read, a file is found rewritten exactly when it is shorter than the
   * watermark, or both visits check hashes and what the first one read has another.
   */
  lemma {:induction false} RewriteNoticedIff(
    lx: Lexer, i: nat, entry: TranscriptState, file: Bytes, start: nat, names: ToolMap, first: Options,
    later: Bytes, second: Options)
    requires start <= |file| && !second.full
    ensures var read := ReadEntry(lx, i, entry, file, start, names, first).0;
            && read.lastByteOffset <= |file|
            && (PointFor(lx, read, Some(later), second).Rewritten? <==>
                  || |later| < read.lastByteOffset
                  || (first.verifyHashes && second.verifyHashes
                      && lx.hash(later[..read.lastByteOffset]) != lx.hash(file[..read.lastByteOffset])))
  {
  }

  lemma {:induction false} VisitSetsOrKeeps(
    lx: Lexer, corpus: Corpus, options: Options, table: seq<TranscriptState>, path: string, j: nat)
    requires PathsDistinct(table) && !options.full && j < |Visit(lx, corpus, options, table, path).table|
    ensures SetOrKept(Visit(lx, corpus, options, table, path).table[j], corpus, table, j)
  {
    var i, known := FindPath(table, path), WithPath(table, path);
    var point := PointAt(lx, corpus, options, table, path);
    if j != i {
      assert j < |table| && known[j] == table[j];
    } else if point.Resume? {
      ReadSetsOrKeeps(lx, i, known[i], corpus[path], point.start, known[i].pendingToolNames, options);
    } else if point.Rewritten? {
      ReadSetsOrKeeps(lx, i, known[i], corpus[path], 0, [], options);
    }
  }

  lemma {:induction false} PassSetsOrKeeps(
    lx: Lexer, corpus: Corpus, options: Options, table: seq<TranscriptState>, paths: seq<string>, j: nat)
    requires PathsDistinct(table) && !options.full && j < |VisitAll(lx, corpus, options, table, paths).table|
    ensures SetOrKept(VisitAll(lx, corpus, options, table, paths).table[j], corpus, table, j)
    decreases |paths|
  {
    if paths != [] {
      var init, last := paths[..|paths| - 1], paths[|paths| - 1];
      var before, v := VisitAll(lx, corpus, options, table, init), VisitAll(lx, corpus, options, table, paths);
      PassOnlyGrows(lx, corpus, options, table, init);
      VisitSetsOrKeeps(lx, corpus, options, before.table, last, j);
      VisitNamesStay(lx, corpus, options, before.table, last);
      if j < |before.table| {
        PassSetsOrKeeps(lx, corpus, options, table, init, j);
        assert Paths(before.table)[j] == Paths(v.table)[j];
      }
    }
  }

  lemma {:induction false} StepSetsOrKeeps(lx: Lexer, s: System, e: Event, i: nat)
    requires Named(s) && (e.Ingest? ==> !e.options.full) && i < |Step(lx, s, e).table|
    ensures SetOrKept(Step(lx, s, e).table[i], Step(lx, s, e).corpus, s.table, i)
  {
    if e.Ingest? {
      PassSetsOrKeeps(lx, s.corpus, e.options, s.table, Visiting(e.options, e.discovered), i);
    }
  }

  function At(lx: Lexer, events: seq<Event>, k: nat): System
    requires k <= |events|
  {
    Run(lx, EMPTY, events[..k])
  }

  /** At point `k` entry `i` is there and has this path and watermark. */
  ghost predicate Marked(lx: Lexer, events: seq<Event>, k: nat, i: nat, path: string, mark: nat)
    requires k <= |events|
  {
    var table := At(lx, events, k).table;
    i < |table| && table[i].path == path && table[i].lastByteOffset == mark
  }

  /** Entry `i` has had this watermark since point `k`, where it was a boundary of its file. */
  ghost predicate SetAt(lx: Lexer, events: seq<Event>, k: nat, i: nat, path: string, mark: nat) {
    && k <= |events|
    && OnBoundary(BytesOf(At(lx, events, k).corpus, path), mark)
    && forall j :: k <= j <= |events| ==> Marked(lx, events, j, i, path, mark)
  }

  lemma {:induction false} MarkedInit(
    lx: Lexer, events: seq<Event>, n: nat, k: nat, i: nat, path: string, mark: nat)
    requires k <= n <= |events| && SetAt(lx, events[..n], k, i, path, mark)
    ensures OnBoundary(BytesOf(At(lx, events, k).corpus, path), mark)
    ensures forall j :: k <= j <= n ==> Marked(lx, events, j, i, path, mark)
  {
    assert events[..n][..k] == events[..k];
    forall j | k <= j <= n ensures Marked(lx, events, j, i, path, mark) {
      assert Marked(lx, events[..n], j, i, path, mark);
      assert events[..n][..j] == events[..j];
    }
  }

  lemma {:induction false} SetStays(lx: Lexer, events: seq<Event>, k: nat, i: nat, path: string, mark: nat)
    requires events != [] && SetAt(lx, events[..|events| - 1], k, i, path, mark)
    requires Marked(lx, events, |events|, i, path, mark)
    ensures SetAt(lx, events, k, i, path, mark)
  {
    MarkedInit(lx, events, |events| - 1, k, i, path, mark);
  }

  /** The last event set the watermark in the file as it is, or left it as it was. */
  lemma {:induction false} LastSetOrKept(lx: Lexer, events: seq<Event>, i: nat)
    requires events != [] && NonFull(events) && i < |Run(lx, EMPTY, events).table|
    ensures var s, before := Run(lx, EMPTY, events), Run(lx, EMPTY, events[..|events| - 1]);
            Bounded(s.table[i], s.corpus) ||
            (i < |before.table| && before.table[i].path == s.table[i].path
             && before.table[i].lastByteOffset == s.table[i].lastByteOffset)
  {
    var n := |events| - 1;
    var before, s, e := Run(lx, EMPTY, events[..n]), Run(lx, EMPTY, events), events[n];
    RunKeepsNames(lx, events[..n]);
    StepSetsOrKeeps(lx, before, e, i);
    StepKeepsNames(lx, before, e);
    if i < |before.table| {
      assert Paths(before.table)[i] == Paths(s.table)[i];
    }
  }

  /** Over every run of non-full passes, each watermark was a line boundary of the file it was set in. */
  lemma {:induction false} WatermarksWereBoundaries(lx: Lexer, events: seq<Event>, i: nat) returns (k: nat)
    requires NonFull(events) && i < |Run(lx, EMPTY, events).table|
    ensures var entry := Run(lx, EMPTY, events).table[i];
            SetAt(lx, events, k, i, entry.path, entry.lastByteOffset)
    decreases |events|
  {
    assert events[..|events|] == events;
    var s := Run(lx, EMPTY, events);
    k := |events|;
    if !Bounded(s.table[i], s.corpus) {
      LastSetOrKept(lx, events, i);
      k := WatermarksWereBoundaries(lx, events[..|events| - 1], i);
      SetStays(lx, events, k, i, s.table[i].path, s.table[i].lastByteOffset);
    }
  }

  /** The event replaces or removes the file at `path`. */
  predicate Rewrites(e: Event, path: string) {
    (e.Replace? || e.Remove?) && e.path == path
  }

  lemma {:induction false} AppendKeepsBoundary(lx: Lexer, s: System, e: Event, path: string, mark: nat)
    requires OnBoundary(BytesOf(s.corpus, path), mark) && !Rewrites(e, path)
    ensures OnBoundary(BytesOf(Step(lx, s, e).corpus, path), mark)
  {
  }

  /** A watermark that is no boundary of the present file was set before some rewrite of that file. */
  lemma {:induction false} OnlyRewritesUnbound(
    lx: Lexer, events: seq<Event>, n: nat, k: nat, i: nat, path: string, mark: nat)
    requires k <= n <= |events| && SetAt(lx, events, k, i, path, mark)
    requires NotRewritten(events, k, n, path)
    ensures OnBoundary(BytesOf(At(lx, events, n).corpus, path), mark)
  {
    AppendsKeepBoundary(lx, events, n, k, path, mark);
  }

  /** None of the events from k to n rewrites the file at `path`. */
  ghost predicate NotRewritten(events: seq<Event>, k: nat, n: nat, path: string)
    requires k <= n <= |events|
  {
    forall j :: k <= j < n ==> !Rewrites(events[j], path)
  }

  lemma {:induction false} AppendsKeepBoundary(lx: Lexer, events: seq<Event>, n: nat, k: nat, path: string, mark: nat)
    requires k <= n <= |events| && OnBoundary(BytesOf(At(lx, events, k).corpus, path), mark)
    requires NotRewritten(events, k, n, path)
    ensures OnBoundary(BytesOf(At(lx, events, n).corpus, path), mark)
    decreases n
  {
    if n > k {
      AppendsKeepBoundary(lx, events, n - 1, k, path, mark);
      RunSnoc(lx, EMPTY, events, n - 1);
      AppendKeepsBoundary(lx, At(lx, events, n - 1), events[n - 1], path, mark);
    }
  }

  const ALL: Options := Options(None, false, None, false)

  lemma {:induction false} OneVisit(lx: Lexer, s: System)
    ensures var t := Step(lx, s, Ingest(ALL, ["t"]));
            t.corpus == s.corpus && t.table == Visit(lx, s.corpus, ALL, s.table, "t").table
  {
    assert ["t"][..0] == [];
  }

  lemma {:induction false} ReadsOneLine(lx: Lexer, names: ToolMap)
    ensures ReadChunk(lx, 0, [65, 10], 0, None, 0, names).offset == 2
  {
    var file: Bytes := [65, 10];
    assert NewlineFrom(file, 0) == 1 && NewlineFrom(file, 2) == 2;
    var one := ReadLine(lx, 0, Line(0, 1, file[0..1]), names);
    assert one.offset == 2;
    assert ReadChunk(lx, 0, file, 0, None, 2, one.names).offset == 2;
  }

  /** One transcript, read up to its second byte. */
  ghost predicate ReadToTwo(table: seq<TranscriptState>) {
    |table| == 1 && table[0].path == "t" && table[0].lastByteOffset == 2
  }

  lemma {:induction false} FirstVisit(lx: Lexer)
    ensures ReadToTwo(Visit(lx, map["t" := [65, 10]], ALL, [], "t").table)
  {
    assert WithPath([], "t") == [NewEntry("t")];
    ReadsOneLine(lx, []);
  }

  lemma {:induction false} SecondVisit(lx: Lexer, table: seq<TranscriptState>)
    requires ReadToTwo(table)
    ensures ReadToTwo(Visit(lx, map["t" := [66, 67, 68]], ALL, table, "t").table)
  {
    var file: Bytes := [66, 67, 68];
    assert FindPath(table, "t") == 0;
    assert NewlineFrom(file, 3) == 3 && NewlineFrom(file, 2) == 3;
    assert ReadChunk(lx, 0, file, 2, None, 2, table[0].pendingToolNames).offset == 2;
  }

  /**
   * A transcript of one line is read, replaced by a longer one without a newline,
   * and visited again: no pass notices, and the watermark sits in the middle of a line.
   */
  lemma {:induction false} HiddenRewriteUnbounds(lx: Lexer)
    ensures var visit := Ingest(ALL, ["t"]);
            var before := Step(lx, Step(lx, EMPTY, Append("t", [65, 10])), visit);
            var s := Step(lx, Step(lx, before, Replace("t", [66, 67, 68])), visit);
            ReadToTwo(s.table) && !Bounded(s.table[0], s.corpus)
  {
    var visit := Ingest(ALL, ["t"]);
    var written := Step(lx, EMPTY, Append("t", [65, 10]));
    var line: Bytes := [65, 10];
    assert [] + line == line;
    assert written.corpus == map["t" := [65, 10]];
    OneVisit(lx, written);
    FirstVisit(lx);
    var replaced := Step(lx, Step(lx, written, visit), Replace("t", [66, 67, 68]));
    assert replaced.corpus == map["t" := [66, 67, 68]];
    OneVisit(lx, replaced);
    SecondVisit(lx, replaced.table);
  }
}
