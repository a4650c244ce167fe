/** A pass that was not saved. */
module DrainUnsaved {
  // src/drain/transcript-reader.ts: a stop between the flush of the store and the save of the reader
  // state, and the pass that is then run from the old table, over the files as they are by then.

  import opened Prelude
  import opened DrainBlobs
  import opened DrainIngestor
  import opened DrainReader
  import opened DrainTable
  import opened DrainTrim
  import opened DrainConvergence

  // --- What a pass makes of one path ----------------------------------------------

  /** The entry a path is first visited with. */
  function EntryOf(table: seq<TranscriptState>, path: string): TranscriptState {
    var i := FindPath(table, path);
    if i < |table| then table[i] else NewEntry(path)
  }

  /** What one visit makes of an entry: the entry after it, and the blobs fed. */
  function VisitEntry(lx: Lexer, i: nat, entry: TranscriptState, file: Option<Bytes>, options: Options)
    : (TranscriptState, seq<Blob>)
  {
    match PointFor(lx, entry, file, options)
    case Missing => (entry, [])
    case Unchanged => (entry, [])
    case Rewritten =>
      var (e, p) := ReadEntry(lx, i, entry, file.value, 0, [], options); (e, p.blobs)
    case Resume(start) =>
      var (e, p) := ReadEntry(lx, i, entry, file.value, start, entry.pendingToolNames, options); (e, p.blobs)
  }

  lemma {:induction false} VisitIs(
    lx: Lexer, corpus: Corpus, options: Options, table: seq<TranscriptState>, path: string)
    ensures var i := FindPath(table, path);
            var one := VisitEntry(lx, i, EntryOf(table, path), FileOf(corpus, path), options);
            var v := Visit(lx, corpus, options, table, path);
            v.table == WithPath(table, path)[i := one.0] && v.blobs == one.1
  {
    var i, known := FindPath(table, path), WithPath(table, path);
    assert known[i] == EntryOf(table, path);
    assert known[i := known[i]] == known;
  }

  lemma {:induction false} FindIs(table: seq<TranscriptState>, path: string, i: nat)
    requires PathsDistinct(table) && i < |table| && table[i].path == path
    ensures FindPath(table, path) == i
  {
  }

  /** Where the path is after some visits, with its entry and its blobs. */
  ghost predicate VisitedOnce(
    lx: Lexer, corpus: Corpus, options: Options, table: seq<TranscriptState>, path: string, v: Visits) {
    var i := FindPath(v.table, path);
    i < |v.table| &&
    (v.table[i], OfTranscript(v.blobs, i)) ==
      VisitEntry(lx, i, EntryOf(table, path), FileOf(corpus, path), options)
  }

  ghost predicate NotYet(table: seq<TranscriptState>, path: string, v: Visits) {
    EntryOf(v.table, path) == EntryOf(table, path) && OfTranscript(v.blobs, FindPath(v.table, path)) == []
  }

  lemma {:induction false} OwnVisit(
    lx: Lexer, corpus: Corpus, options: Options, table: seq<TranscriptState>, before: Visits, path: string)
    requires PathsDistinct(before.table) && NotYet(table, path, before)
    ensures VisitedOnce(lx, corpus, options, table, path,
              Then(before, Visit(lx, corpus, options, before.table, path)))
  {
    var i, last := FindPath(before.table, path), Visit(lx, corpus, options, before.table, path);
    VisitIs(lx, corpus, options, before.table, path);
    VisitNamesStay(lx, corpus, options, before.table, path);
    FindIs(last.table, path, i);
    OfTranscriptAppend(before.blobs, last.blobs, i);
    OfTranscriptAllFrom(last.blobs, i, i);
    assert [] + last.blobs == last.blobs;
  }

  /** A visit of another path leaves this one as it was. */
  lemma {:induction false} OtherVisit(
    lx: Lexer, corpus: Corpus, options: Options, before: Visits, other: string, path: string)
    requires PathsDistinct(before.table) && InTable(before.blobs, |before.table|) && other != path
    ensures var v := Then(before, Visit(lx, corpus, options, before.table, other));
            && EntryOf(v.table, path) == EntryOf(before.table, path)
            && (FindPath(before.table, path) < |before.table| ==>
                  FindPath(v.table, path) == FindPath(before.table, path)
                  && OfTranscript(v.blobs, FindPath(v.table, path)) ==
                     OfTranscript(before.blobs, FindPath(v.table, path)))
            && (FindPath(before.table, path) == |before.table| ==>
                  FindPath(v.table, path) == |v.table| && OfTranscript(v.blobs, FindPath(v.table, path)) == [])
  {
    var i, j := FindPath(before.table, path), FindPath(before.table, other);
    var last := Visit(lx, corpus, options, before.table, other);
    VisitIs(lx, corpus, options, before.table, other);
    VisitNamesStay(lx, corpus, options, before.table, other);
    if i < |before.table| {
      assert last.table[i] == before.table[i];
      FindIs(last.table, path, i);
      OfTranscriptAppend(before.blobs, last.blobs, i);
      OfTranscriptAllFrom(last.blobs, j, i);
      assert OfTranscript(before.blobs, i) + [] == OfTranscript(before.blobs, i);
    } else {
      assert forall k :: 0 <= k < |last.table| ==> last.table[k].path != path;
      OfTranscriptNew(before.blobs + last.blobs, |last.table|);
    }
  }

  lemma {:induction false} PassAtPath(
    lx: Lexer, corpus: Corpus, options: Options, table: seq<TranscriptState>, paths: seq<string>, path: string)
    requires PathsDistinct(table) && Distinct(paths)
    ensures var v := VisitAll(lx, corpus, options, table, paths);
            if path in paths then VisitedOnce(lx, corpus, options, table, path, v) else NotYet(table, path, v)
    decreases |paths|
  {
    if paths != [] {
      var init, last := paths[..|paths| - 1], paths[|paths| - 1];
      assert path in paths <==> path in init || path == last;
      assert last !in init;
      PassAtPath(lx, corpus, options, table, init, path);
      PassOnlyGrows(lx, corpus, options, table, init);
      var before := VisitAll(lx, corpus, options, table, init);
      if path == last {
        OwnVisit(lx, corpus, options, table, before, path);
      } else {
        OtherVisit(lx, corpus, options, before, last, path);
      }
    }
  }

  // --- When a pass feeds nothing ------------------------------------------------------

  /** Where a chunk stops: it depends on the newlines alone. */
  function ChunkStop(file: Bytes, start: nat, chunk: Option<nat>, at: nat): (r: nat)
    requires start <= at <= |file|
    ensures at <= r <= |file|
    decreases |file| - at
  {
    match NextLine(file, at)
    case None => at
    case Some(line) =>
      if chunk.Some? && NextOffset(line) - start >= chunk.value then NextOffset(line)
      else ChunkStop(file, start, chunk, NextOffset(line))
  }

  lemma {:induction false} ChunkStopsThere(
    lx: Lexer, index: nat, file: Bytes, start: nat, chunk: Option<nat>, at: nat, names: ToolMap)
    requires start <= at <= |file|
    ensures ReadChunk(lx, index, file, start, chunk, at, names).offset == ChunkStop(file, start, chunk, at)
    decreases |file| - at
  {
    ChunkUnfolds(lx, index, file, start, chunk, at, names);
    match NextLine(file, at) {
      case None =>
      case Some(line) =>
        ChunkStopsThere(lx, index, file, start, chunk, NextOffset(line), ReadLine(lx, index, line, names).names);
    }
  }

  /** The line holds a result worth keeping, given the tool names pending before it. */
  predicate LineFeeds(lx: Lexer, line: Line, names: ToolMap) {
    match lx.parse(line.text)
    case Parsed(record) =>
      var found := Extract(record, PutAll(names, ToolUses(record.blocks)), lx.signal).found;
      exists k :: 0 <= k < |found| && found[k].eligible
    case _ => false
  }

  /** Reading from `start` comes to a completed line at `at`, and that line feeds something. */
  predicate FeedsAt(lx: Lexer, file: Bytes, start: nat, at: nat, names: ToolMap) {
    && start <= at <= |file| && NextLine(file, at).Some?
    && var before := ReadAll(lx, 0, file[..at], start, names);
       before.offset == at && LineFeeds(lx, NextLine(file, at).value, before.names)
  }

  lemma {:induction false} EligibleIff(found: seq<Extracted>, locator: Locator)
    ensures EligibleBlobs(found, locator) == [] <==> !exists k :: 0 <= k < |found| && found[k].eligible
  {
    if found != [] {
      EligibleIff(found[1..], locator);
      assert forall k :: 0 < k < |found| ==> found[k] == found[1..][k - 1];
      assert forall k :: 0 <= k < |found| - 1 ==> found[1..][k] == found[k + 1];
    }
  }

  lemma {:induction false} LineFeedsIff(lx: Lexer, index: nat, line: Line, names: ToolMap)
    ensures ReadLine(lx, index, line, names).blobs != [] <==> LineFeeds(lx, line, names)
  {
    match lx.parse(line.text) {
      case Parsed(record) =>
        EligibleIff(Extract(record, PutAll(names, ToolUses(record.blocks)), lx.signal).found,
          Locator(index, line.byteOffset, line.byteLength));
      case _ =>
    }
  }

  /** The line at `start` is the first one read from there. */
  lemma {:induction false} FeedsAtStart(lx: Lexer, file: Bytes, start: nat, line: Line, names: ToolMap)
    requires start <= |file| && NextLine(file, start) == Some(line)
    ensures FeedsAt(lx, file, start, start, names) <==> LineFeeds(lx, line, names)
  {
    NothingAfter(lx, 0, file, start, names);
  }

  /** Any later line is one read from the second line on. */
  lemma {:induction false} FeedsLater(lx: Lexer, file: Bytes, start: nat, line: Line, at: nat, names: ToolMap)
    requires start < at <= |file| && NextLine(file, start) == Some(line)
    ensures FeedsAt(lx, file, start, at, names) <==>
            FeedsAt(lx, file, NextOffset(line), at, ReadLine(lx, 0, line, names).names)
  {
    LineInPrefix(file, start, at);
    if at < NextOffset(line) {
      assert NextLine(file[..at], start) == None;
    } else {
      var one := ReadLine(lx, 0, line, names);
      assert ReadAll(lx, 0, file[..at], start, names) == Join(one, ReadAll(lx, 0, file[..at], one.offset, one.names));
    }
  }

  /** A read of all completed lines feeds nothing exactly when none of them feeds anything. */
  lemma {:induction false} ReadFeedsIff(lx: Lexer, file: Bytes, start: nat, names: ToolMap)
    requires start <= |file|
    ensures ReadAll(lx, 0, file, start, names).blobs != [] <==> exists at: nat :: FeedsAt(lx, file, start, at, names)
    decreases |file| - start
  {
    match NextLine(file, start) {
      case None =>
        forall at: nat | start <= at <= |file| ensures !FeedsAt(lx, file, start, at, names) {
          LineInPrefix(file, start, at);
        }
      case Some(line) =>
        var one := ReadLine(lx, 0, line, names);
        ReadFeedsIff(lx, file, one.offset, one.names);
        LineFeedsIff(lx, 0, line, names);
        FeedsAtStart(lx, file, start, line, names);
        forall at: nat | start < at <= |file|
          ensures FeedsAt(lx, file, start, at, names) <==> FeedsAt(lx, file, one.offset, at, one.names) {
          FeedsLater(lx, file, start, line, at, names);
        }
    }
  }

  /** The same blobs under another index. */
  function Moved(blobs: seq<Blob>, j: nat): (r: seq<Blob>)
    ensures |r| == |blobs|
  {
    seq(|blobs|, k requires 0 <= k < |blobs| => blobs[k].(locator := blobs[k].locator.(transcript := j)))
  }

  lemma {:induction false} MovedAppend(xs: seq<Blob>, ys: seq<Blob>, j: nat)
    ensures Moved(xs + ys, j) == Moved(xs, j) + Moved(ys, j)
  {
  }

  lemma {:induction false} EligibleMoved(found: seq<Extracted>, locator: Locator, j: nat)
    ensures EligibleBlobs(found, locator.(transcript := j)) == Moved(EligibleBlobs(found, locator), j)
  {
    if found != [] {
      EligibleMoved(found[1..], locator, j);
      MovedAppend(EligibleOne(found[0], locator), EligibleBlobs(found[1..], locator), j);
      assert EligibleOne(found[0], locator.(transcript := j)) == Moved(EligibleOne(found[0], locator), j);
    }
  }

  lemma {:induction false} LineMoved(lx: Lexer, i: nat, j: nat, line: Line, names: ToolMap)
    ensures var x, y := ReadLine(lx, i, line, names), ReadLine(lx, j, line, names);
            y == x.(blobs := Moved(x.blobs, j))
  {
    match lx.parse(line.text) {
      case Parsed(record) =>
        EligibleMoved(Extract(record, PutAll(names, ToolUses(record.blocks)), lx.signal).found,
          Locator(i, line.byteOffset, line.byteLength), j);
      case _ =>
    }
  }

  /** The index a transcript is read under goes into the locators and nowhere else. */
  lemma {:induction false} ReadMoved(lx: Lexer, i: nat, j: nat, file: Bytes, at: nat, names: ToolMap)
    requires at <= |file|
    ensures var x, y := ReadAll(lx, i, file, at, names), ReadAll(lx, j, file, at, names);
            y == x.(blobs := Moved(x.blobs, j))
    decreases |file| - at
  {
    match NextLine(file, at) {
      case None =>
      case Some(line) =>
        LineMoved(lx, i, j, line, names);
        var one := ReadLine(lx, i, line, names);
        ReadMoved(lx, i, j, file, one.offset, one.names);
        MovedAppend(one.blobs, ReadAll(lx, i, file, one.offset, one.names).blobs, j);
    }
  }

  /** Between the resume point and the chunk stop of this path there is a result worth keeping. */
  ghost predicate PathFeeds(lx: Lexer, corpus: Corpus, options: Options, entry: TranscriptState, path: string) {
    match PointFor(lx, entry, FileOf(corpus, path), options)
    case Missing => false
    case Unchanged => false
    case Rewritten => ChunkFeeds(lx, corpus[path], 0, options, [])
    case Resume(start) => ChunkFeeds(lx, corpus[path], start, options, entry.pendingToolNames)
  }

  ghost predicate ChunkFeeds(lx: Lexer, file: Bytes, start: nat, options: Options, names: ToolMap)
    requires start <= |file|
  {
    exists at: nat :: FeedsAt(lx, file[..ChunkStop(file, start, options.chunkBytes, start)], start, at, names)
  }

  lemma {:induction false} EntryFeedsIff(
    lx: Lexer, i: nat, entry: TranscriptState, file: Bytes, start: nat, options: Options, names: ToolMap)
    requires start <= |file|
    ensures ReadEntry(lx, i, entry, file, start, names, options).1.blobs != [] <==>
            ChunkFeeds(lx, file, start, options, names)
  {
    var p := ReadEntry(lx, i, entry, file, start, names, options).1;
    var stop := ChunkStop(file, start, options.chunkBytes, start);
    ChunkStopsThere(lx, i, file, start, options.chunkBytes, start, names);
    ChunkReadsPrefix(lx, i, file, start, options.chunkBytes, start, names);
    ReadMoved(lx, i, 0, file[..stop], start, names);
    ReadFeedsIff(lx, file[..stop], start, names);
  }

  lemma {:induction false} VisitFeedsIff(
    lx: Lexer, corpus: Corpus, options: Options, i: nat, entry: TranscriptState, path: string)
    ensures VisitEntry(lx, i, entry, FileOf(corpus, path), options).1 != [] <==>
            PathFeeds(lx, corpus, options, entry, path)
  {
    match PointFor(lx, entry, FileOf(corpus, path), options) {
      case Rewritten => EntryFeedsIff(lx, i, entry, corpus[path], 0, options, []);
      case Resume(start) => EntryFeedsIff(lx, i, entry, corpus[path], start, options, entry.pendingToolNames);
      case _ =>
    }
  }

  ghost predicate FedUnder(blobs: seq<Blob>, i: nat) {
    exists k :: 0 <= k < |blobs| && blobs[k].locator.transcript == i
  }

  lemma {:induction false} FedUnderIff(blobs: seq<Blob>, i: nat)
    ensures FedUnder(blobs, i) <==> OfTranscript(blobs, i) != []
  {
    if blobs != [] {
      var init := blobs[..|blobs| - 1];
      FedUnderIff(init, i);
      assert forall k :: 0 <= k < |init| ==> init[k] == blobs[k];
    }
  }

  /** A pass over distinct paths feeds blobs under a path's index exactly when that path has something to feed. */
  lemma {:induction false} PathFeedsIff(
    lx: Lexer, corpus: Corpus, options: Options, table: seq<TranscriptState>, paths: seq<string>, path: string)
    requires PathsDistinct(table) && Distinct(paths) && path in paths
    ensures var v := VisitAll(lx, corpus, options, table, paths);
            && FindPath(v.table, path) < |v.table|
            && (FedUnder(v.blobs, FindPath(v.table, path)) <==>
                  PathFeeds(lx, corpus, options, EntryOf(table, path), path))
  {
    var v := VisitAll(lx, corpus, options, table, paths);
    PassAtPath(lx, corpus, options, table, paths, path);
    VisitFeedsIff(lx, corpus, options, FindPath(v.table, path), EntryOf(table, path), path);
    FedUnderIff(v.blobs, FindPath(v.table, path));
  }

  /** A pass feeds nothing exactly when no visited file has anything to feed between resume point and chunk stop. */
  lemma {:induction false} PassFeedsIff(
    lx: Lexer, corpus: Corpus, options: Options, table: seq<TranscriptState>, paths: seq<string>)
    requires PathsDistinct(table) && Distinct(paths)
    ensures VisitAll(lx, corpus, options, table, paths).blobs != [] <==>
            exists path :: path in paths && PathFeeds(lx, corpus, options, EntryOf(table, path), path)
  {
    var v := VisitAll(lx, corpus, options, table, paths);
    PassOnlyGrows(lx, corpus, options, table, paths);
    if v.blobs != [] {
      var i := v.blobs[0].locator.transcript;
      var path := v.table[i].path;
      FindIs(v.table, path, i);
      PathFeedsIff(lx, corpus, options, table, paths, path);
    }
    if path :| path in paths && PathFeeds(lx, corpus, options, EntryOf(table, path), path) {
      PathFeedsIff(lx, corpus, options, table, paths, path);
    }
  }

  // --- The pass that is run again ---------------------------------------------------

  /** Resuming from the same entry, a read that gets further feeds first what the shorter one fed. */
  lemma {:induction false} FurtherReadRepeats(
    lx: Lexer, i: nat, entry: TranscriptState, file: Bytes, more: Bytes, first: Options, second: Options)
    requires entry.lastByteOffset <= |file|
    ensures var mark, names := entry.lastByteOffset, entry.pendingToolNames;
            var p := ReadEntry(lx, i, entry, file, mark, names, first).1;
            var q := ReadEntry(lx, i, entry, file + more, mark, names, second).1;
            p.offset <= q.offset ==> p.blobs <= q.blobs
  {
    var mark, names, grown := entry.lastByteOffset, entry.pendingToolNames, file + more;
    var p := ReadEntry(lx, i, entry, file, mark, names, first).1;
    var q := ReadEntry(lx, i, entry, grown, mark, names, second).1;
    ChunkReadsPrefix(lx, i, file, mark, first.chunkBytes, mark, names);
    ChunkReadsPrefix(lx, i, grown, mark, second.chunkBytes, mark, names);
    if p.offset <= q.offset {
      assert grown[..p.offset] == file[..p.offset];
      ReadOn(lx, i, grown, p.offset, q.offset, mark, names);
    }
  }

  /** Two visits of one entry that agrees with both files: the one that gets further starts with the other's blobs. */
  lemma {:induction false} VisitRepeats(
    lx: Lexer, entry: TranscriptState, was: Option<Bytes>, now: Option<Bytes>, first: Options, second: Options,
    i: nat, j: nat)
    requires !first.full && !second.full && Grew(was, now)
    requires Follows(lx, entry, was, first) && Follows(lx, entry, now, second)
    ensures var p, q := VisitEntry(lx, i, entry, was, first), VisitEntry(lx, j, entry, now, second);
            p.0.lastByteOffset <= q.0.lastByteOffset ==> Moved(p.1, j) <= q.1
  {
    var p, q := VisitEntry(lx, i, entry, was, first), VisitEntry(lx, j, entry, now, second);
    if p.1 != [] {
      var mark, names, file := entry.lastByteOffset, entry.pendingToolNames, was.value;
      var p' := ReadEntry(lx, j, entry, file, mark, names, first).1;
      EntryMoved(lx, i, j, entry, file, mark, names, first);
      if p.0.lastByteOffset <= q.0.lastByteOffset && PointFor(lx, entry, now, second).Resume? {
        assert file + now.value[|file|..] == now.value;
        FurtherReadRepeats(lx, j, entry, file, now.value[|file|..], first, second);
      }
    }
  }

  /** The file is there still, and starts with what it was. */
  ghost predicate Grew(was: Option<Bytes>, now: Option<Bytes>) {
    was.Some? ==> now.Some? && was.value <= now.value
  }

  /** The entry's watermark lies in the file, and the file is not taken for a rewritten one. */
  ghost predicate Follows(lx: Lexer, entry: TranscriptState, file: Option<Bytes>, options: Options) {
    file.Some? ==> entry.lastByteOffset <= |file.value| && !PointFor(lx, entry, file, options).Rewritten?
  }

  lemma {:induction false} EntryMoved(
    lx: Lexer, i: nat, j: nat, entry: TranscriptState, file: Bytes, start: nat, names: ToolMap, options: Options)
    requires start <= |file|
    ensures var p := ReadEntry(lx, i, entry, file, start, names, options);
            var q := ReadEntry(lx, j, entry, file, start, names, options);
            q.0 == p.0 && q.1.blobs == Moved(p.1.blobs, j) && q.1.offset == p.1.offset
  {
    ChunkReadsPrefix(lx, i, file, start, options.chunkBytes, start, names);
    ChunkReadsPrefix(lx, j, file, start, options.chunkBytes, start, names);
    ChunkStopsThere(lx, i, file, start, options.chunkBytes, start, names);
    ChunkStopsThere(lx, j, file, start, options.chunkBytes, start, names);
    ReadMoved(lx, i, j, file[..ChunkStop(file, start, options.chunkBytes, start)], start, names);
  }

  /** Without a chunk limit the second visit gets at least as far. */
  lemma {:induction false} UnlimitedGetsFurther(
    lx: Lexer, entry: TranscriptState, was: Option<Bytes>, now: Option<Bytes>, first: Options, second: Options,
    i: nat, j: nat)
    requires !first.full && !second.full && Grew(was, now) && second.chunkBytes.None?
    requires Follows(lx, entry, was, first) && Follows(lx, entry, now, second)
    ensures VisitEntry(lx, i, entry, was, first).0.lastByteOffset <=
            VisitEntry(lx, j, entry, now, second).0.lastByteOffset
  {
    if PointFor(lx, entry, was, first).Resume? {
      var mark, names, file, grown := entry.lastByteOffset, entry.pendingToolNames, was.value, now.value;
      var stop := ReadEntry(lx, i, entry, file, mark, names, first).1.offset;
      var end := ReadEntry(lx, j, entry, grown, mark, names, second).1.offset;
      ChunkToBoundary(lx, i, file, mark, first.chunkBytes, mark, names);
      UnlimitedReadsOut(lx, j, grown, mark, mark, names);
      if end < stop {
        assert grown[stop - 1] == file[stop - 1] == NEWLINE;
      }
    } else if PointFor(lx, entry, now, second).Resume? {
      assert entry.lastByteOffset <= VisitEntry(lx, j, entry, now, second).0.lastByteOffset;
    }
  }

  /** Every file is there still, and starts with what it was. */
  ghost predicate AllGrew(was: Corpus, now: Corpus) {
    forall path :: Grew(FileOf(was, path), FileOf(now, path))
  }

  lemma {:induction false} EntryFollows(
    lx: Lexer, exact: bool, was: Corpus, now: Corpus, options: Options, table: seq<TranscriptState>, fed: seq<Blob>,
    path: string)
    requires Inv(lx, exact, was, table, fed) && AllGrew(was, now) && !options.full
    ensures Follows(lx, EntryOf(table, path), FileOf(now, path), options)
  {
    var i, entry := FindPath(table, path), EntryOf(table, path);
    assert Grew(FileOf(was, path), FileOf(now, path));
    if i < |table| && path in now {
      assert Faithfully(lx, exact, i, entry, BytesOf(was, path), fed);
      assert now[path][..entry.lastByteOffset] == BytesOf(was, path)[..entry.lastByteOffset];
    }
  }

  /**
   * After a pass that was not saved, a second one over files that may have grown, with
   * its own options and list of paths: of each path both visit, it feeds first what the
   * first pass fed of it, under the index the path has now, if it gets as far; and
   * without a chunk limit it does.
   */
  lemma {:induction false} UnsavedPassRepeats(
    lx: Lexer, exact: bool, table: seq<TranscriptState>, fed: seq<Blob>, was: Corpus, first: Options, xs: seq<string>,
    now: Corpus, second: Options, ys: seq<string>, path: string)
    requires Inv(lx, exact, was, table, fed) && AllGrew(was, now) && !first.full && !second.full
    requires Distinct(xs) && Distinct(ys) && path in xs && path in ys
    ensures var a, b := VisitAll(lx, was, first, table, xs), VisitAll(lx, now, second, table, ys);
            var i, j := FindPath(a.table, path), FindPath(b.table, path);
            && i < |a.table| && j < |b.table|
            && (a.table[i].lastByteOffset <= b.table[j].lastByteOffset ==>
                  Moved(OfTranscript(a.blobs, i), j) <= OfTranscript(b.blobs, j))
            && (second.chunkBytes.None? ==> a.table[i].lastByteOffset <= b.table[j].lastByteOffset)
  {
    var a, b := VisitAll(lx, was, first, table, xs), VisitAll(lx, now, second, table, ys);
    var i, j := FindPath(a.table, path), FindPath(b.table, path);
    var entry := EntryOf(table, path);
    PassAtPath(lx, was, first, table, xs, path);
    PassAtPath(lx, now, second, table, ys, path);
    EntryFollows(lx, exact, was, was, first, table, fed, path);
    EntryFollows(lx, exact, was, now, second, table, fed, path);
    assert Grew(FileOf(was, path), FileOf(now, path));
    VisitRepeats(lx, entry, FileOf(was, path), FileOf(now, path), first, second, i, j);
    if second.chunkBytes.None? {
      UnlimitedGetsFurther(lx, entry, FileOf(was, path), FileOf(now, path), first, second, i, j);
    }
  }

  // --- The store after it ----------------------------------------------------------------

  /** The log grew by the first blobs and then by the others, in order. */
  ghost predicate LoggedBoth(
    before: seq<Occurrence>, once: seq<Occurrence>, after: seq<Occurrence>, p: seq<Blob>, q: seq<Blob>) {
    && |after| == |before| + |p| + |q| && before <= once <= after
    && LoggedAt(after, |before|, p) && LoggedAt(after, |before| + |p|, q)
  }

  lemma {:induction false} LogsOfBoth<S, Snap>(c: Clusterer<S, Snap>, core: Core<S>, p: seq<Blob>, q: seq<Blob>)
    ensures var once := IngestAll(c, core, p);
            LoggedBoth(core.log, once.log, IngestAll(c, once, q).log, p, q)
  {
    var once := IngestAll(c, core, p);
    LogFollowsBlobs(c, core, p);
    LogFollowsBlobs(c, once, q);
    LogsJoin(core.log, once.log, IngestAll(c, once, q).log, p, q);
  }

  lemma {:induction false} LogsJoin(
    before: seq<Occurrence>, once: seq<Occurrence>, after: seq<Occurrence>, p: seq<Blob>, q: seq<Blob>)
    requires |once| == |before| + |p| && before <= once && LoggedAt(once, |before|, p)
    requires |after| == |once| + |q| && once <= after && LoggedAt(after, |once|, q)
    ensures LoggedBoth(before, once, after, p, q)
  {
    StillLogged(once, after, |before|, p);
  }

  /** Feeding `p` before `q` leaves the store that `q` alone leaves only when there was no `p`. */
  lemma {:induction false} SameStoreIff<S, Snap>(c: Clusterer<S, Snap>, core: Core<S>, p: seq<Blob>, q: seq<Blob>)
    ensures DiskOf(c, IngestAll(c, IngestAll(c, core, p), q)) == DiskOf(c, IngestAll(c, core, q)) <==> p == []
  {
    LogFollowsBlobs(c, core, p);
    LogFollowsBlobs(c, core, q);
    LogFollowsBlobs(c, IngestAll(c, core, p), q);
  }

  lemma {:induction false} FedBefore<S(!new), Snap>(c: Clusterer<S, Snap>, core: Core<S>, p: seq<Blob>, q: seq<Blob>)
    requires Faithful(c)
    ensures var disk := DiskOf(c, core);
            var once, after := FedTo(c, disk, p), FedTo(c, FedTo(c, disk, p), q);
            LoggedBoth(disk.log, once.log, after.log, p, q) && (after == FedTo(c, disk, q) <==> p == [])
  {
    LogsOfBoth(c, core, p, q);
    SameStoreIff(c, core, p, q);
    FedOn(c, core, p);
    FedOn(c, core, q);
    FedOn(c, IngestAll(c, core, p), q);
  }

  /** Some visited file has something to feed between its resume point and its chunk stop. */
  ghost predicate SomethingToFeed(
    lx: Lexer, corpus: Corpus, options: Options, table: seq<TranscriptState>, paths: seq<string>) {
    exists path :: path in paths && PathFeeds(lx, corpus, options, EntryOf(table, path), path)
  }

  /**
   * A pass that flushes and stops before the reader state is saved, and the next one
   * from the old table: the blobs of both are logged, in order, and the store is the one
   * the second alone would leave exactly when the first had nothing to feed.
   */
  lemma {:induction false} UnsavedPassDoubles<S(!new), Snap>(
    lx: Lexer, c: Clusterer<S, Snap>, core: Core<S>, table: seq<TranscriptState>,
    was: Corpus, first: Options, xs: seq<string>, now: Corpus, second: Options, ys: seq<string>)
    requires Faithful(c) && PathsDistinct(table) && Distinct(Visiting(first, xs))
    ensures var disk := DiskOf(c, core);
            var p, q := Pass(lx, was, first, table, xs).blobs, Pass(lx, now, second, table, ys).blobs;
            var once, after := FedTo(c, disk, p), FedTo(c, FedTo(c, disk, p), q);
            && LoggedBoth(disk.log, once.log, after.log, p, q)
            && (after == FedTo(c, disk, q) <==>
                  !SomethingToFeed(lx, was, first, if first.full then [] else table, Visiting(first, xs)))
  {
    FedBefore(c, core, Pass(lx, was, first, table, xs).blobs, Pass(lx, now, second, table, ys).blobs);
    PassFeedsIff(lx, was, first, if first.full then [] else table, Visiting(first, xs));
  }

  /** The templates count the repeated blobs like any others: they are the summary of the log. */
  lemma {:induction false} UnsavedPassCounts<S(!new), Snap>(
    c: Clusterer<S, Snap>, tree: S, fed: seq<Blob>, p: seq<Blob>, q: seq<Blob>)
    requires Faithful(c)
    ensures var after := FedTo(c, FedTo(c, DiskOf(c, IngestAll(c, Core(tree, [], []), fed)), p), q);
            Summarises(after.templates, after.log)
  {
    RestartIsInvisible(c, Core(tree, [], []), fed, p);
    RestartIsInvisible(c, Core(tree, [], []), fed + p, q);
    RunSummarises(c, tree, fed + p + q);
  }

  // --- The names of its blobs --------------------------------------------------------------

  /** The paths the pass starts from: a full one from none. */
  function Known(options: Options, table: seq<TranscriptState>): seq<string> {
    if options.full then [] else Paths(table)
  }

  /** The paths of the table after the pass, in order. */
  function SightedBy(options: Options, table: seq<TranscriptState>, discovered: seq<string>): seq<string> {
    Sighted(Known(options, table), Visiting(options, discovered))
  }

  lemma {:induction false} PassSights(
    lx: Lexer, corpus: Corpus, options: Options, table: seq<TranscriptState>, discovered: seq<string>)
    requires PathsDistinct(table)
    ensures var v := Pass(lx, corpus, options, table, discovered);
            && Paths(v.table) == SightedBy(options, table, discovered)
            && PathsDistinct(v.table) && InTable(v.blobs, |v.table|)
  {
    var start := if options.full then [] else table;
    PathsAreSighted(lx, corpus, options, start, Visiting(options, discovered));
    PassOnlyGrows(lx, corpus, options, start, Visiting(options, discovered));
  }

  /** The blob's index names the same path in both tables. */
  ghost predicate StillNames(b: Blob, a: seq<TranscriptState>, later: seq<TranscriptState>) {
    var i := b.locator.transcript;
    i < |a| && i < |later| && later[i].path == a[i].path
  }

  ghost predicate SamePathAt(xs: seq<string>, ys: seq<string>, i: nat) {
    i < |xs| && i < |ys| && xs[i] == ys[i]
  }

  /**
   * A pass that flushed its blobs and stopped before its table was saved, and the next
   * one from the old table, over whatever files and with whatever options: the whole
   * table keeps its names exactly when the paths sighted first are the same, and the
   * blobs keep theirs exactly when that holds at each new index one was fed under.
   */
  lemma {:induction false} UnsavedNamesStayIff(
    lx: Lexer, table: seq<TranscriptState>, was: Corpus, first: Options, xs: seq<string>,
    now: Corpus, second: Options, ys: seq<string>)
    requires PathsDistinct(table)
    ensures var a, b := Pass(lx, was, first, table, xs), Pass(lx, now, second, table, ys);
            var x, y := SightedBy(first, table, xs), SightedBy(second, table, ys);
            && (Paths(a.table) <= Paths(b.table) <==> x <= y)
            && ((forall k :: 0 <= k < |a.blobs| ==> StillNames(a.blobs[k], a.table, b.table)) <==>
                forall i: nat :: FedUnder(a.blobs, i) && !(i < |Known(first, table)| && i < |Known(second, table)|) ==>
                  SamePathAt(x, y, i))
  {
    var a, b := Pass(lx, was, first, table, xs), Pass(lx, now, second, table, ys);
    var x, y := SightedBy(first, table, xs), SightedBy(second, table, ys);
    PassSights(lx, was, first, table, xs);
    PassSights(lx, now, second, table, ys);
    forall k | 0 <= k < |a.blobs|
      ensures StillNames(a.blobs[k], a.table, b.table) <==> SamePathAt(x, y, a.blobs[k].locator.transcript)
    {
      var i := a.blobs[k].locator.transcript;
      assert Paths(a.table)[i] == a.table[i].path;
      assert i < |b.table| ==> Paths(b.table)[i] == b.table[i].path;
    }
    OldIndexesAgree(first, second, table, xs, ys);
  }

  lemma {:induction false} OldIndexesAgree(
    first: Options, second: Options, table: seq<TranscriptState>, xs: seq<string>, ys: seq<string>)
    ensures forall i: nat :: i < |Known(first, table)| && i < |Known(second, table)| ==>
              SamePathAt(SightedBy(first, table, xs), SightedBy(second, table, ys), i)
  {
  }

  /** Where the path is in the list, its length if nowhere. */
  function Place(paths: seq<string>, path: string): (r: nat)
    ensures r <= |paths| && (r < |paths| <==> path in paths)
    ensures r < |paths| ==> paths[r] == path
    ensures forall i :: 0 <= i < r ==> paths[i] != path
  {
    if paths == [] || paths[0] == path then 0 else 1 + Place(paths[1..], path)
  }

  lemma {:induction false} PlaceIs(table: seq<TranscriptState>, path: string)
    ensures Place(Paths(table), path) == FindPath(table, path)
  {
    var i, k := FindPath(table, path), Place(Paths(table), path);
    assert forall j :: 0 <= j < |table| ==> Paths(table)[j] == table[j].path;
    assert i < |table| ==> Paths(table)[i] == path;
  }

  /** All blobs under this index still name the path they named. */
  ghost predicate PathStays(blobs: seq<Blob>, i: nat, a: seq<TranscriptState>, later: seq<TranscriptState>) {
    forall k :: 0 <= k < |blobs| && blobs[k].locator.transcript == i ==> StillNames(blobs[k], a, later)
  }

  /**
   * The blobs of one path keep naming it exactly when it had nothing to feed, or has
   * its place again in the order of first sight.
   */
  lemma {:induction false} UnsavedPathStaysIff(
    lx: Lexer, table: seq<TranscriptState>, was: Corpus, first: Options, xs: seq<string>,
    now: Corpus, second: Options, ys: seq<string>, path: string)
    requires PathsDistinct(table) && Distinct(Visiting(first, xs)) && path in Visiting(first, xs)
    ensures var a, b := Pass(lx, was, first, table, xs), Pass(lx, now, second, table, ys);
            var x, y := SightedBy(first, table, xs), SightedBy(second, table, ys);
            && FindPath(a.table, path) == Place(x, path) < |x|
            && (PathStays(a.blobs, Place(x, path), a.table, b.table) <==>
                (PathFeeds(lx, was, first, EntryOf(if first.full then [] else table, path), path) ==>
                  Place(y, path) == Place(x, path) < |y|))
  {
    var a, b := Pass(lx, was, first, table, xs), Pass(lx, now, second, table, ys);
    PassSights(lx, was, first, table, xs);
    PassSights(lx, now, second, table, ys);
    PlaceIs(a.table, path);
    PlaceIs(b.table, path);
    PathFeedsIff(lx, was, first, if first.full then [] else table, Visiting(first, xs), path);
    StaysIff(a.blobs, a.table, b.table, path);
  }

  lemma {:induction false} StaysIff(
    blobs: seq<Blob>, a: seq<TranscriptState>, later: seq<TranscriptState>, path: string)
    requires PathsDistinct(later) && FindPath(a, path) < |a|
    ensures PathStays(blobs, FindPath(a, path), a, later) <==>
            (FedUnder(blobs, FindPath(a, path)) ==> FindPath(later, path) == FindPath(a, path) < |later|)
  {
    var i := FindPath(a, path);
    if i < |later| && later[i].path == path {
      FindIs(later, path, i);
    }
    if FedUnder(blobs, i) {
      var k :| 0 <= k < |blobs| && blobs[k].locator.transcript == i;
      assert StillNames(blobs[k], a, later) <==> FindPath(later, path) == i < |later|;
    }
  }

  lemma {:induction false} UnlimitedIsAll(lx: Lexer, i: nat, file: Bytes, start: nat, at: nat, names: ToolMap)
    requires start <= at <= |file|
    ensures ReadChunk(lx, i, file, start, None, at, names) == ReadAll(lx, i, file, at, names)
    decreases |file| - at
  {
    match NextLine(file, at) {
      case None =>
      case Some(line) =>
        var one := ReadLine(lx, i, line, names);
        UnlimitedIsAll(lx, i, file, start, one.offset, one.names);
    }
  }

  lemma {:induction false} OneProbe(lx: Lexer, text: Bytes, path: string)
    requires WrittenAs(lx, Probe("x"), text)
    ensures Visit(lx, map[path := text + [NEWLINE]], ALL, [], path).blobs ==
            [Blob(TypeIn([], "x"), "E", "s", "t", Locator(0, 0, |text|))]
  {
    var file := text + [NEWLINE];
    assert [] + text + [NEWLINE] == file;
    ProbeReads(lx, 0, [], "x", text, []);
    UnlimitedIsAll(lx, 0, file, 0, 0, []);
    VisitIs(lx, map[path := file], ALL, [], path);
    assert PointFor(lx, NewEntry(path), Some(file), ALL) == Resume(0);
  }

  /**
   * A pass reads one failed result from "b", logs it under index 0, and is not saved;
   * by the next one there is a file "a", which is sighted first and takes that index.
   */
  lemma {:induction false} UnsavedIndexIsTaken(lx: Lexer, text: Bytes)
    requires WrittenAs(lx, Probe("x"), text)
    ensures var file := text + [NEWLINE];
            var a := Pass(lx, map["b" := file], ALL, [], ["b"]);
            var b := Pass(lx, map["b" := file, "a" := file], ALL, [], ["a", "b"]);
            && Paths(a.table) == ["b"] && Paths(b.table) == ["a", "b"]
            && |a.blobs| == 1 && a.blobs[0].locator == Locator(0, 0, |text|)
            && !StillNames(a.blobs[0], a.table, b.table)
  {
    var file := text + [NEWLINE];
    var a := Pass(lx, map["b" := file], ALL, [], ["b"]);
    var b := Pass(lx, map["b" := file, "a" := file], ALL, [], ["a", "b"]);
    OneProbe(lx, text, "b");
    FirstVisitIsAll(lx, map["b" := file], "b");
    PassSights(lx, map["b" := file], ALL, [], ["b"]);
    PassSights(lx, map["b" := file, "a" := file], ALL, [], ["a", "b"]);
    FirstSights();
    assert Paths(a.table)[0] == a.table[0].path && Paths(b.table)[0] == b.table[0].path;
  }

  lemma {:induction false} FirstVisitIsAll(lx: Lexer, corpus: Corpus, path: string)
    ensures Pass(lx, corpus, ALL, [], [path]).blobs == Visit(lx, corpus, ALL, [], path).blobs
  {
    assert [path][..0] == [];
    assert VisitAll(lx, corpus, ALL, [], [path][..0]) == Visits([], [], []);
    var one := Visit(lx, corpus, ALL, [], path);
    assert [] + one.blobs == one.blobs;
  }

  lemma {:induction false} FirstSights()
    ensures SightedBy(ALL, [], ["b"]) == ["b"] && SightedBy(ALL, [], ["a", "b"]) == ["a", "b"]
  {
    assert ["b"][..0] == [] && ["a", "b"][..1] == ["a"] && ["a"][..0] == [];
    assert [] + ["a"] == ["a"] && [] + ["b"] == ["b"] && ["a"] + ["b"] == ["a", "b"];
  }
}
