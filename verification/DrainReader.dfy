/**
 * Incremental reading of transcripts: src/drain/transcript-reader.ts, src/drain/reader-state.ts:
 * a byte watermark per append-only transcript, the pending tool names persisted with it, and one
 * ingest pass over the corpus. JSON parsing, the error-signal screen, the prefix hash and the
 * clusterer are parameters; lines, watermarks and resume points are bytes.
 */
module DrainReader {
  import opened Prelude
  import opened DrainBlobs
  import opened DrainIngestor

  newtype byte = x: int | 0 <= x < 256

  type Bytes = seq<byte>

  const NEWLINE: byte := 10

  // --- Completed lines -----------------------------------------------------

  /** A line without its newline, and where it sits in the file. */
  datatype Line = Line(byteOffset: nat, byteLength: nat, text: Bytes)

  function NextOffset(line: Line): nat {
    line.byteOffset + line.byteLength + 1
  }

  function NewlineFrom(file: Bytes, at: nat): (r: nat)
    requires at <= |file|
    ensures at <= r <= |file|
    ensures r < |file| ==> file[r] == NEWLINE
    ensures forall i :: at <= i < r ==> file[i] != NEWLINE
    decreases |file| - at
  {
    if at == |file| || file[at] == NEWLINE then at else NewlineFrom(file, at + 1)
  }

  /** The next completed line; a trailing partial line is withheld. */
  function NextLine(file: Bytes, at: nat): (r: Option<Line>)
    requires at <= |file|
    ensures r.Some? ==> at < NextOffset(r.value) <= |file|
  {
    var end := NewlineFrom(file, at);
    if end < |file| then Some(Line(at, end - at, file[at..end])) else None
  }

  ghost predicate OnBoundary(file: Bytes, at: nat) {
    at == 0 || (at <= |file| && file[at - 1] == NEWLINE)
  }

  lemma {:induction false} LineInPrefix(file: Bytes, at: nat, end: nat)
    requires at <= end <= |file|
    ensures NextLine(file[..end], at) ==
            if NextLine(file, at).Some? && NextOffset(NextLine(file, at).value) <= end then NextLine(file, at) else None
  {
    var e := NewlineFrom(file, at);
    var e' := NewlineFrom(file[..end], at);
    if e < end {
      assert file[..end][e] == NEWLINE;
      assert e' == e;
      assert file[..end][at..e] == file[at..e];
    } else {
      assert e' == end;
    }
  }

  // --- Reading one transcript -------------------------------------------------

  datatype ParsedLine = Malformed | NotAnObject | Parsed(record: Record)

  datatype Lexer = Lexer(parse: Bytes -> ParsedLine, signal: Signal, hash: Bytes -> string)

  function EligibleOne(e: Extracted, locator: Locator): seq<Blob> {
    if e.eligible then [Blob(e.toolType, e.rawText, e.sessionId, e.timestamp, locator)] else []
  }

  function EligibleBlobs(found: seq<Extracted>, locator: Locator): seq<Blob> {
    if found == [] then []
    else EligibleOne(found[0], locator) + EligibleBlobs(found[1..], locator)
  }

  datatype Progress = Progress(blobs: seq<Blob>, names: ToolMap, offset: nat)

  /** One line: its own tool uses are recorded first, then its results consume theirs. */
  function ReadLine(lx: Lexer, index: nat, line: Line, names: ToolMap): Progress {
    match lx.parse(line.text)
    case Parsed(record) =>
      var scan := Extract(record, PutAll(names, ToolUses(record.blocks)), lx.signal);
      Progress(EligibleBlobs(scan.found, Locator(index, line.byteOffset, line.byteLength)), scan.names, NextOffset(line))
    case _ => Progress([], names, NextOffset(line))
  }

  function Join(a: Progress, b: Progress): Progress {
    Progress(a.blobs + b.blobs, b.names, b.offset)
  }

  /** The reference: every completed line from `at` on, in one go. */
  function ReadAll(lx: Lexer, index: nat, file: Bytes, at: nat, names: ToolMap): (r: Progress)
    requires at <= |file|
    ensures at <= r.offset <= |file|
    decreases |file| - at
  {
    match NextLine(file, at)
    case None => Progress([], names, at)
    case Some(line) =>
      var one := ReadLine(lx, index, line, names);
      Join(one, ReadAll(lx, index, file, one.offset, one.names))
  }

  /** The same, stopping once `chunk` new bytes past `start` have been read. */
  function ReadChunk(lx: Lexer, index: nat, file: Bytes, start: nat, chunk: Option<nat>, at: nat, names: ToolMap)
    : (r: Progress)
    requires start <= at <= |file|
    ensures at <= r.offset <= |file|
    ensures r.offset > at <==> NextLine(file, at).Some?
    decreases |file| - at
  {
    match NextLine(file, at)
    case None => Progress([], names, at)
    case Some(line) =>
      var one := ReadLine(lx, index, line, names);
      if chunk.Some? && one.offset - start >= chunk.value then one
      else Join(one, ReadChunk(lx, index, file, start, chunk, one.offset, one.names))
  }

  /** What reading the first `mark` bytes in one go gives. */
  function History(lx: Lexer, index: nat, file: Bytes, mark: nat): Progress
    requires mark <= |file|
  {
    ReadAll(lx, index, file[..mark], 0, [])
  }

  /** A chunk reads exactly the completed lines of the prefix it stops at. */
  lemma {:induction false} ChunkReadsPrefix(
    lx: Lexer, index: nat, file: Bytes, start: nat, chunk: Option<nat>, at: nat, names: ToolMap)
    requires start <= at <= |file|
    ensures var p := ReadChunk(lx, index, file, start, chunk, at, names);
            ReadAll(lx, index, file[..p.offset], at, names) == p
    decreases |file| - at
  {
    var p := ReadChunk(lx, index, file, start, chunk, at, names);
    LineInPrefix(file, at, p.offset);
    match NextLine(file, at) {
      case None =>
      case Some(line) =>
        var one := ReadLine(lx, index, line, names);
        if chunk.Some? && one.offset - start >= chunk.value {
          NothingAfter(lx, index, file, p.offset, one.names);
          assert Join(one, Progress([], one.names, one.offset)) == one;
        } else {
          ChunkReadsPrefix(lx, index, file, start, chunk, one.offset, one.names);
        }
    }
  }

  lemma {:induction false} NothingAfter(lx: Lexer, index: nat, file: Bytes, end: nat, names: ToolMap)
    requires end <= |file|
    ensures ReadAll(lx, index, file[..end], end, names) == Progress([], names, end)
  {
    assert NewlineFrom(file[..end], end) == end;
  }

  lemma {:induction false} JoinAssoc(a: Progress, b: Progress, c: Progress)
    ensures Join(Join(a, b), c) == Join(a, Join(b, c))
  {
    assert (a.blobs + b.blobs) + c.blobs == a.blobs + (b.blobs + c.blobs);
  }

  /** Reading to `mark` and going on from there is reading straight through. */
  lemma {:induction false} ReadOn(lx: Lexer, index: nat, file: Bytes, mark: nat, end: nat, at: nat, names: ToolMap)
    requires at <= mark <= end <= |file|
    requires ReadAll(lx, index, file[..mark], at, names).offset == mark
    ensures var before := ReadAll(lx, index, file[..mark], at, names);
            ReadAll(lx, index, file[..end], at, names) ==
            Join(before, ReadAll(lx, index, file[..end], mark, before.names))
    decreases mark - at
  {
    LineInPrefix(file, at, mark);
    LineInPrefix(file, at, end);
    match NextLine(file[..mark], at) {
      case None =>
        var rest := ReadAll(lx, index, file[..end], mark, names);
        assert Join(Progress([], names, mark), rest) == rest;
      case Some(line) =>
        var one := ReadLine(lx, index, line, names);
        ReadOn(lx, index, file, mark, end, one.offset, one.names);
        var before := ReadAll(lx, index, file[..mark], one.offset, one.names);
        JoinAssoc(one, before, ReadAll(lx, index, file[..end], mark, before.names));
    }
  }

  /** The watermark is where a whole read of the prefix ends exactly when it is a line boundary. */
  lemma {:induction false} ReadsToBoundary(lx: Lexer, index: nat, file: Bytes, mark: nat, at: nat, names: ToolMap)
    requires at <= mark <= |file| && OnBoundary(file, at)
    ensures ReadAll(lx, index, file[..mark], at, names).offset == mark <==> OnBoundary(file, mark)
    decreases mark - at
  {
    LineInPrefix(file, at, mark);
    match NextLine(file[..mark], at) {
      case None =>
        if at < mark {
          assert NewlineFrom(file[..mark], at) == mark;
          assert file[..mark][mark - 1] == file[mark - 1];
        }
      case Some(line) =>
        assert file[NextOffset(line) - 1] == NEWLINE;
        ReadsToBoundary(lx, index, file, mark, NextOffset(line), ReadLine(lx, index, line, names).names);
    }
  }

  // --- The reader state ---------------------------------------------------------

  datatype TranscriptState = TranscriptState(
    path: string, lastByteOffset: nat, prefixHash: Option<string>, pendingToolNames: ToolMap)

  function FindPath(table: seq<TranscriptState>, path: string): (r: nat)
    ensures r <= |table|
    ensures r < |table| ==> table[r].path == path
    ensures forall i :: 0 <= i < r ==> table[i].path != path
  {
    if table == [] || table[0].path == path then 0 else FindPath(table[1..], path) + 1
  }

  function NewEntry(path: string): TranscriptState {
    TranscriptState(path, 0, None, [])
  }

  /** The table with `path` in it; new paths are only ever appended. */
  function WithPath(table: seq<TranscriptState>, path: string): (r: seq<TranscriptState>)
    ensures FindPath(table, path) < |r| && r[FindPath(table, path)].path == path
    ensures table <= r && |r| <= |table| + 1
  {
    if FindPath(table, path) < |table| then table else table + [NewEntry(path)]
  }

  class ReaderState {
    var transcripts: seq<TranscriptState>

    constructor ()
      ensures transcripts == []
    {
      transcripts := [];
    }

    method TranscriptIndexFor(path: string) returns (index: nat)
      modifies this
      ensures index == FindPath(old(transcripts), path)
      ensures transcripts == WithPath(old(transcripts), path)
    {
      index := 0;
      while index < |transcripts|
        invariant index <= |transcripts|
        invariant forall i :: 0 <= i < index ==> transcripts[i].path != path
      {
        if transcripts[index].path == path {
          return;
        }
        index := index + 1;
      }
      transcripts := transcripts + [NewEntry(path)];
    }
  }

  datatype ResumePoint = Missing | Rewritten | Unchanged | Resume(start: nat)

  /** Where the locator package says to resume: a shorter file is always a rewrite, a changed prefix only when asked. */
  function ResumeAt(lx: Lexer, entry: TranscriptState, file: Option<Bytes>, verifyHash: bool): (r: ResumePoint)
    ensures r.Resume? ==> file.Some? && r.start == entry.lastByteOffset <= |file.value|
    ensures r.Rewritten? ==> file.Some?
  {
    match file
    case None => Missing
    case Some(f) =>
      var mark := entry.lastByteOffset;
      if |f| < mark then Rewritten
      else if verifyHash && entry.prefixHash.Some? && lx.hash(f[..mark]) != entry.prefixHash.value then Rewritten
      else if |f| == mark then Unchanged
      else Resume(mark)
  }

  datatype Options = Options(limit: Option<nat>, full: bool, chunkBytes: Option<nat>, verifyHashes: bool)

  type Corpus = map<string, Bytes>

  function FileOf(corpus: Corpus, path: string): Option<Bytes> {
    if path in corpus then Some(corpus[path]) else None
  }

  // --- One pass as a value ------------------------------------------------------

  /** The table after some visits, the blobs they fed in order, and the pending names they dropped. */
  datatype Visits = Visits(table: seq<TranscriptState>, blobs: seq<Blob>, dropped: ToolMap)

  function PointFor(lx: Lexer, entry: TranscriptState, file: Option<Bytes>, options: Options): ResumePoint {
    ResumeAt(lx, if options.full then NewEntry("") else entry, file, options.verifyHashes)
  }

  function ReadEntry(
    lx: Lexer, index: nat, entry: TranscriptState, file: Bytes, start: nat, names: ToolMap, options: Options)
    : (TranscriptState, Progress)
    requires start <= |file|
  {
    var p := ReadChunk(lx, index, file, start, options.chunkBytes, start, names);
    var hash := if options.verifyHashes then Some(lx.hash(file[..p.offset])) else None;
    (TranscriptState(entry.path, p.offset, hash, Trim(p.names)), p)
  }

  /** Where a visit of `path` resumes. */
  function PointAt(lx: Lexer, corpus: Corpus, options: Options, table: seq<TranscriptState>, path: string)
    : (r: ResumePoint)
    ensures !r.Missing? ==> path in corpus
    ensures r.Resume? ==> r.start <= |corpus[path]|
  {
    PointFor(lx, WithPath(table, path)[FindPath(table, path)], FileOf(corpus, path), options)
  }

  function Visit(lx: Lexer, corpus: Corpus, options: Options, table: seq<TranscriptState>, path: string): (r: Visits)
    ensures |table| <= |r.table| <= |table| + 1
  {
    var i := FindPath(table, path);
    var known := WithPath(table, path);
    var point := PointAt(lx, corpus, options, table, path);
    if point.Missing? || point.Unchanged? then Visits(known, [], [])
    else
      var start := if point.Resume? then point.start else 0;
      var names := if point.Resume? then known[i].pendingToolNames else [];
      var (entry, p) := ReadEntry(lx, i, known[i], corpus[path], start, names, options);
      Visits(known[i := entry], p.blobs, Dropped(p.names))
  }

  function Then(before: Visits, last: Visits): Visits {
    Visits(last.table, before.blobs + last.blobs, before.dropped + last.dropped)
  }

  function VisitAll(
    lx: Lexer, corpus: Corpus, options: Options, table: seq<TranscriptState>, paths: seq<string>): Visits
    decreases |paths|
  {
    if paths == [] then Visits(table, [], [])
    else
      var before := VisitAll(lx, corpus, options, table, paths[..|paths| - 1]);
      Then(before, Visit(lx, corpus, options, before.table, paths[|paths| - 1]))
  }

  lemma {:induction false} VisitAllSnoc(
    lx: Lexer, corpus: Corpus, options: Options, table: seq<TranscriptState>, paths: seq<string>, i: nat)
    requires i < |paths|
    ensures var before := VisitAll(lx, corpus, options, table, paths[..i]);
            VisitAll(lx, corpus, options, table, paths[..i + 1]) ==
            Then(before, Visit(lx, corpus, options, before.table, paths[i]))
  {
    assert paths[..i + 1][..i] == paths[..i];
  }

  /** The resume points of some visits, in order. */
  function Points(
    lx: Lexer, corpus: Corpus, options: Options, table: seq<TranscriptState>, paths: seq<string>): seq<ResumePoint>
    decreases |paths|
  {
    if paths == [] then []
    else
      var init := paths[..|paths| - 1];
      Points(lx, corpus, options, table, init) +
      [PointAt(lx, corpus, options, VisitAll(lx, corpus, options, table, init).table, paths[|paths| - 1])]
  }

  lemma {:induction false} PointsSnoc(
    lx: Lexer, corpus: Corpus, options: Options, table: seq<TranscriptState>, paths: seq<string>, i: nat)
    requires i < |paths|
    ensures Points(lx, corpus, options, table, paths[..i + 1]) ==
            Points(lx, corpus, options, table, paths[..i]) +
            [PointAt(lx, corpus, options, VisitAll(lx, corpus, options, table, paths[..i]).table, paths[i])]
  {
    assert paths[..i + 1][..i] == paths[..i];
  }

  function Visiting(options: Options, discovered: seq<string>): seq<string> {
    if options.limit.Some? && options.limit.value < |discovered| then discovered[..options.limit.value] else discovered
  }

  function Pass(
    lx: Lexer, corpus: Corpus, options: Options, table: seq<TranscriptState>, discovered: seq<string>): Visits {
    VisitAll(lx, corpus, options, if options.full then [] else table, Visiting(options, discovered))
  }

  // --- The pass as the reader runs it ---------------------------------------------

  method IngestFound<S, Snap>(blob: Extracted, locator: Locator, ingestor: MinerIngestor<S, Snap>)
    returns (screened: bool)
    requires ingestor.buffered
    modifies ingestor, ingestor.store
    ensures ingestor.State() ==
            IngestAll(ingestor.clusterer, old(ingestor.State()), EligibleOne(blob, locator))
    ensures screened <==> EligibleOne(blob, locator) == []
    ensures ingestor.store.Contents() == old(ingestor.store.Contents())
  {
    if !blob.eligible {
      return true;
    }
    var b := Blob(blob.toolType, blob.rawText, blob.sessionId, blob.timestamp, locator);
    var _, _ := ingestor.IngestBlob(b);
    assert [b][..0] == [];
    return false;
  }

  method IngestLine<S, Snap>(
    lx: Lexer, record: Record, locator: Locator, toolNames: ToolNames, ingestor: MinerIngestor<S, Snap>)
    requires ingestor.buffered
    modifies toolNames, ingestor, ingestor.store
    ensures toolNames.entries == Extract(record, old(toolNames.entries), lx.signal).names
    ensures ingestor.State() ==
            IngestAll(ingestor.clusterer, old(ingestor.State()),
                      EligibleBlobs(Extract(record, old(toolNames.entries), lx.signal).found, locator))
    ensures ingestor.store.Contents() == old(ingestor.store.Contents())
  {
    var found := ExtractBlobs(record, toolNames, lx.signal);
    IngestEligible(found, locator, ingestor);
  }

  method IngestEligible<S, Snap>(found: seq<Extracted>, locator: Locator, ingestor: MinerIngestor<S, Snap>)
    requires ingestor.buffered
    modifies ingestor, ingestor.store
    ensures ingestor.State() ==
            IngestAll(ingestor.clusterer, old(ingestor.State()), EligibleBlobs(found, locator))
    ensures ingestor.store.Contents() == old(ingestor.store.Contents())
  {
    ghost var start := ingestor.State();
    for i := 0 to |found|
      invariant ingestor.State() == IngestAll(ingestor.clusterer, start, EligibleBlobs(found[..i], locator))
      invariant ingestor.store.Contents() == old(ingestor.store.Contents())
    {
      EligibleSnoc(found, i, locator);
      IngestAllAppend(ingestor.clusterer, start, EligibleBlobs(found[..i], locator), EligibleOne(found[i], locator));
      var _ := IngestFound(found[i], locator, ingestor);
    }
    assert found[..|found|] == found;
  }

  lemma {:induction false} EligibleAppend(xs: seq<Extracted>, ys: seq<Extracted>, locator: Locator)
    ensures EligibleBlobs(xs + ys, locator) == EligibleBlobs(xs, locator) + EligibleBlobs(ys, locator)
  {
    if xs == [] {
      assert xs + ys == ys;
    } else {
      assert (xs + ys)[1..] == xs[1..] + ys;
      EligibleAppend(xs[1..], ys, locator);
    }
  }

  lemma {:induction false} EligibleSnoc(found: seq<Extracted>, i: nat, locator: Locator)
    requires i < |found|
    ensures EligibleBlobs(found[..i + 1], locator) == EligibleBlobs(found[..i], locator) + EligibleOne(found[i], locator)
  {
    assert found[..i + 1] == found[..i] + [found[i]];
    EligibleAppend(found[..i], [found[i]], locator);
    assert EligibleBlobs([found[i]], locator) == EligibleOne(found[i], locator) + EligibleBlobs([], locator);
  }

  method ReadParsedLine<S, Snap>(
    lx: Lexer, index: nat, line: Line, toolNames: ToolNames, ingestor: MinerIngestor<S, Snap>)
    requires ingestor.buffered
    modifies toolNames, ingestor, ingestor.store
    ensures var one := ReadLine(lx, index, line, old(toolNames.entries));
            && toolNames.entries == one.names
            && ingestor.State() == IngestAll(ingestor.clusterer, old(ingestor.State()), one.blobs)
    ensures ingestor.store.Contents() == old(ingestor.store.Contents())
  {
    match lx.parse(line.text) {
      case Parsed(record) =>
        var pairs := CollectToolUses(record);
        toolNames.entries := PutAll(toolNames.entries, pairs);
        IngestLine(lx, record, Locator(index, line.byteOffset, line.byteLength), toolNames, ingestor);
      case _ =>
    }
  }

  method ReadTranscript<S, Snap>(
    lx: Lexer, index: nat, entry: TranscriptState, file: Bytes, start: nat, names: ToolMap, options: Options,
    ingestor: MinerIngestor<S, Snap>)
    returns (updated: TranscriptState)
    requires start <= |file| && ingestor.buffered
    modifies ingestor, ingestor.store
    ensures var (e, p) := ReadEntry(lx, index, entry, file, start, names, options);
            updated == e && ingestor.State() == IngestAll(ingestor.clusterer, old(ingestor.State()), p.blobs)
    ensures ingestor.store.Contents() == old(ingestor.store.Contents())
  {
    var toolNames := new ToolNames(names);
    var offset := start;
    ghost var c := ingestor.clusterer;
    ghost var rest := ReadChunk(lx, index, file, start, options.chunkBytes, start, names);
    ghost var all, target := rest, IngestAll(c, ingestor.State(), rest.blobs);
    var stop := false;
    while !stop && NextLine(file, offset).Some?
      invariant fresh(toolNames) && start <= offset <= |file|
      invariant rest == if stop then Progress([], toolNames.entries, offset)
                        else ReadChunk(lx, index, file, start, options.chunkBytes, offset, toolNames.entries)
      invariant rest.names == all.names && rest.offset == all.offset
      invariant IngestAll(c, ingestor.State(), rest.blobs) == target
      invariant ingestor.store.Contents() == old(ingestor.store.Contents())
      decreases |file| - offset
    {
      var line := NextLine(file, offset).value;
      ghost var one := ReadLine(lx, index, line, toolNames.entries);
      offset := NextOffset(line);
      stop := options.chunkBytes.Some? && offset - start >= options.chunkBytes.value;
      ghost var later := if stop then Progress([], one.names, offset)
                         else ReadChunk(lx, index, file, start, options.chunkBytes, offset, one.names);
      assert rest == Join(one, later);
      IngestAllAppend(c, ingestor.State(), one.blobs, later.blobs);
      ReadParsedLine(lx, index, line, toolNames, ingestor);
      rest := later;
    }
    var hash := if options.verifyHashes then Some(lx.hash(file[..offset])) else None;
    updated := TranscriptState(entry.path, offset, hash, Trim(toolNames.entries));
  }

  datatype Summary = Summary(scanned: nat, upToDate: nat, rewound: nat, missing: nat)

  function Tally(sum: Summary, point: ResumePoint): Summary {
    match point
    case Missing => sum.(missing := sum.missing + 1)
    case Unchanged => sum.(upToDate := sum.upToDate + 1)
    case Rewritten => sum.(rewound := sum.rewound + 1, scanned := sum.scanned + 1)
    case Resume(_) => sum.(scanned := sum.scanned + 1)
  }

  /** The number of points of one kind. */
  function CountWhere(points: seq<ResumePoint>, kind: ResumePoint -> bool): nat {
    if points == [] then 0
    else CountWhere(points[..|points| - 1], kind) + (if kind(points[|points| - 1]) then 1 else 0)
  }

  /** The places of the points of one kind. */
  ghost function OfKind(points: seq<ResumePoint>, kind: ResumePoint -> bool): set<nat> {
    set i: nat | i < |points| && kind(points[i])
  }

  lemma {:induction false} OfKindSnoc(init: seq<ResumePoint>, last: ResumePoint, kind: ResumePoint -> bool)
    ensures OfKind(init + [last], kind) == OfKind(init, kind) + (if kind(last) then {|init|} else {})
  {
  }

  /** Counting is counting places. */
  lemma {:induction false} CountIsNumber(points: seq<ResumePoint>, kind: ResumePoint -> bool)
    ensures CountWhere(points, kind) == |OfKind(points, kind)|
  {
    if points != [] {
      var init, last := points[..|points| - 1], points[|points| - 1];
      assert points == init + [last];
      CountIsNumber(init, kind);
      OfKindSnoc(init, last, kind);
      assert |init| !in OfKind(init, kind);
    }
  }

  /** Each number of the summary counts the visits it is named for. */
  ghost predicate Counts(sum: Summary, points: seq<ResumePoint>) {
    && sum.missing == CountWhere(points, (p: ResumePoint) => p.Missing?)
    && sum.upToDate == CountWhere(points, (p: ResumePoint) => p.Unchanged?)
    && sum.rewound == CountWhere(points, (p: ResumePoint) => p.Rewritten?)
    && sum.scanned == CountWhere(points, (p: ResumePoint) => p.Rewritten? || p.Resume?)
  }

  lemma {:induction false} CountsSnoc(sum: Summary, points: seq<ResumePoint>, point: ResumePoint)
    requires Counts(sum, points)
    ensures Counts(Tally(sum, point), points + [point])
  {
    assert (points + [point])[..|points|] == points;
  }

  method VisitTranscript<S, Snap>(
    lx: Lexer, corpus: Corpus, options: Options, path: string, reader: ReaderState,
    ingestor: MinerIngestor<S, Snap>)
    returns (point: ResumePoint)
    requires ingestor.buffered
    modifies reader, ingestor, ingestor.store
    ensures point == PointAt(lx, corpus, options, old(reader.transcripts), path)
    ensures var v := Visit(lx, corpus, options, old(reader.transcripts), path);
            && reader.transcripts == v.table
            && ingestor.State() == IngestAll(ingestor.clusterer, old(ingestor.State()), v.blobs)
    ensures ingestor.store.Contents() == old(ingestor.store.Contents())
  {
    var i := reader.TranscriptIndexFor(path);
    var entry := reader.transcripts[i];
    var file := FileOf(corpus, path);
    point := PointFor(lx, entry, file, options);
    if point.Missing? || point.Unchanged? {
      return;
    }
    var start := if point.Resume? then point.start else 0;
    var names := if point.Resume? then entry.pendingToolNames else [];
    var updated := ReadTranscript(lx, i, entry, file.value, start, names, options, ingestor);
    reader.transcripts := reader.transcripts[i := updated];
  }

  /**
   * One ingest pass: the table and the store end as the pass over their old contents says.
   * `trail` is the store before the flush at its end and after each of the flush's writes.
   */
  method RunDrainIngest<S, Snap>(
    lx: Lexer, c: Clusterer<S, Snap>, corpus: Corpus, options: Options, discovered: seq<string>,
    reader: ReaderState, store: MinerStore<Snap>)
    returns (summary: Summary, ghost trail: seq<Disk<Snap>>)
    modifies reader, store
    ensures var pass := Pass(lx, corpus, options, old(reader.transcripts), discovered);
            && reader.transcripts == pass.table
            && store.Contents() == DiskOf(c, IngestAll(c, Load(c, old(store.Contents())), pass.blobs))
            && |trail| == 4 && forall n :: 0 <= n < 4 ==>
                 trail[n] == FlushedTo(c, old(store.Contents()),
                                       IngestAll(c, Load(c, old(store.Contents())), pass.blobs), n)
    ensures var table := if options.full then [] else old(reader.transcripts);
            Counts(summary, Points(lx, corpus, options, table, Visiting(options, discovered)))
  {
    var visiting := Visiting(options, discovered);
    if options.full {
      reader.transcripts := [];
    }
    ghost var table, start := reader.transcripts, Load(c, store.Contents());
    ghost var done := VisitAll(lx, corpus, options, table, visiting[..0]);
    var ingestor := new MinerIngestor<S, Snap>.Create(c, store, true);
    summary := Summary(0, 0, 0, 0);
    for i := 0 to |visiting|
      invariant fresh(ingestor) && ingestor.buffered && ingestor.clusterer == c && ingestor.store == store
      invariant done == VisitAll(lx, corpus, options, table, visiting[..i])
      invariant reader.transcripts == done.table
      invariant ingestor.State() == IngestAll(c, start, done.blobs)
      invariant store.Contents() == old(store.Contents())
      invariant Counts(summary, Points(lx, corpus, options, table, visiting[..i]))
    {
      VisitAllSnoc(lx, corpus, options, table, visiting, i);
      PointsSnoc(lx, corpus, options, table, visiting, i);
      CountsSnoc(summary, Points(lx, corpus, options, table, visiting[..i]),
        PointAt(lx, corpus, options, done.table, visiting[i]));
      ghost var v := Visit(lx, corpus, options, done.table, visiting[i]);
      IngestAllAppend(c, start, done.blobs, v.blobs);
      var point := VisitTranscript(lx, corpus, options, visiting[i], reader, ingestor);
      done := Then(done, v);
      summary := Tally(summary, point);
    }
    assert visiting[..|visiting|] == visiting;
    trail := ingestor.Flush();
  }
}
