/** Which pending ids may be forgotten. */
module DrainTrim {
  // What a transcript feeds depends on the pending map only through the partition each id resolves
  // to, so trimming the map (src/drain/reader-state.ts) shows in a later read, however much later,
  // exactly when an id of a non-generic partition was dropped.

  import opened Prelude
  import opened DrainBlobs
  import opened DrainIngestor
  import opened DrainReader

  // --- Maps alike in their partitions read alike ----------------------------------

  lemma {:induction false} SameExtract(record: Record, a: ToolMap, b: ToolMap, signal: Signal)
    requires Proper(a) && Proper(b) && SameTypes(a, b)
    ensures var x, y := Extract(record, a, signal), Extract(record, b, signal);
            x.found == y.found && Proper(x.names) && Proper(y.names) && SameTypes(x.names, y.names)
  {
    if Str(record.sessionId).Some? && Str(record.timestamp).Some? {
      SameTypesScan(record, record.blocks, a, b, signal);
    }
  }

  lemma {:induction false} SameLine(lx: Lexer, index: nat, line: Line, a: ToolMap, b: ToolMap)
    requires Proper(a) && Proper(b) && SameTypes(a, b)
    ensures var x, y := ReadLine(lx, index, line, a), ReadLine(lx, index, line, b);
            && x.blobs == y.blobs && x.offset == y.offset
            && Proper(x.names) && Proper(y.names) && SameTypes(x.names, y.names)
  {
    match lx.parse(line.text) {
      case Parsed(record) =>
        var pairs := ToolUses(record.blocks);
        ToolUseIds(record.blocks);
        SetKeepsSame(a, b, pairs);
        SameExtract(record, PutAll(a, pairs), PutAll(b, pairs), lx.signal);
      case _ =>
    }
  }

  /** Everything read from here on is the same, and so is what is pending at its end. */
  lemma {:induction false} SameRead(lx: Lexer, index: nat, file: Bytes, at: nat, a: ToolMap, b: ToolMap)
    requires at <= |file|
    requires Proper(a) && Proper(b) && SameTypes(a, b)
    ensures var x, y := ReadAll(lx, index, file, at, a), ReadAll(lx, index, file, at, b);
            && x.blobs == y.blobs && x.offset == y.offset
            && Proper(x.names) && Proper(y.names) && SameTypes(x.names, y.names)
    decreases |file| - at
  {
    match NextLine(file, at) {
      case None =>
      case Some(line) =>
        SameLine(lx, index, line, a, b);
        var one := ReadLine(lx, index, line, a);
        SameRead(lx, index, file, one.offset, one.names, ReadLine(lx, index, line, b).names);
    }
  }

  // --- Exactly when a trim can be seen ------------------------------------------------

  /** Whatever file is read from whatever offset, the two maps feed the same blobs. */
  ghost predicate SameReadings(lx: Lexer, a: ToolMap, b: ToolMap) {
    forall index: nat, file: Bytes, at: nat :: at <= |file| ==>
      ReadAll(lx, index, file, at, a).blobs == ReadAll(lx, index, file, at, b).blobs
  }

  ghost predicate WrittenAs(lx: Lexer, record: Record, text: Bytes) {
    NEWLINE !in text && lx.parse(text) == Parsed(record)
  }

  /** An error result can be written for any id. */
  ghost predicate CanWrite(lx: Lexer) {
    forall id: string :: id != "" ==> exists text :: WrittenAs(lx, Probe(id), text)
  }

  lemma {:induction false} OneLine(done: Bytes, text: Bytes, i: nat)
    requires NEWLINE !in text && i <= |text|
    ensures NewlineFrom(done + text + [NEWLINE], |done| + i) == |done| + |text|
    decreases |text| - i
  {
    if i < |text| {
      assert (done + text + [NEWLINE])[|done| + i] == text[i];
      OneLine(done, text, i + 1);
    }
  }

  /** An error result written after `done` tells what its id resolves to. */
  lemma {:induction false} ProbeReads(lx: Lexer, i: nat, done: Bytes, id: string, text: Bytes, m: ToolMap)
    requires id != "" && WrittenAs(lx, Probe(id), text)
    ensures ReadAll(lx, i, done + text + [NEWLINE], |done|, m).blobs ==
            [Blob(TypeIn(m, id), "E", "s", "t", Locator(i, |done|, |text|))]
  {
    var file := done + text + [NEWLINE];
    OneLine(done, text, 0);
    assert file[|done|..|done| + |text|] == text;
    var line := Line(|done|, |text|, text);
    assert NextLine(file, |done|) == Some(line);
    ProbeShowsType(id, m, lx.signal);
    assert PutAll(m, []) == m;
    var scan := Extract(Probe(id), m, lx.signal);
    assert scan.found[1..] == [];
    var locator := Locator(i, |done|, |text|);
    var blobs := EligibleBlobs(scan.found, locator);
    assert blobs == EligibleOne(scan.found[0], locator) + EligibleBlobs([], locator);
    var one := ReadLine(lx, i, line, m);
    assert one.blobs == blobs;
    assert one.offset == |file| && NewlineFrom(file, |file|) == |file|;
    assert ReadAll(lx, i, file, one.offset, one.names).blobs == [];
  }

  /** Maps that resolve some id to other partitions are told apart by one line. */
  lemma {:induction false} LineTellsApart(lx: Lexer, i: nat, done: Bytes, a: ToolMap, b: ToolMap) returns (more: Bytes)
    requires Proper(a) && Proper(b) && CanWrite(lx) && !SameTypes(a, b)
    ensures ReadAll(lx, i, done + more, |done|, a).blobs != ReadAll(lx, i, done + more, |done|, b).blobs
  {
    var id :| TypeIn(a, id) != TypeIn(b, id);
    NoEmptyId(a);
    NoEmptyId(b);
    var text :| WrittenAs(lx, Probe(id), text);
    ProbeReads(lx, i, done, id, text, a);
    ProbeReads(lx, i, done, id, text, b);
    more := text + [NEWLINE];
    assert done + more == done + text + [NEWLINE];
    assert ReadAll(lx, i, done + more, |done|, a).blobs[0] != ReadAll(lx, i, done + more, |done|, b).blobs[0];
  }

  lemma {:induction false} SameReadingsIff(lx: Lexer, a: ToolMap, b: ToolMap)
    requires Proper(a) && Proper(b) && CanWrite(lx)
    ensures SameReadings(lx, a, b) <==> SameTypes(a, b)
  {
    if SameTypes(a, b) {
      forall index: nat, file: Bytes, at: nat | at <= |file|
        ensures ReadAll(lx, index, file, at, a).blobs == ReadAll(lx, index, file, at, b).blobs {
        SameRead(lx, index, file, at, a, b);
      }
    } else {
      var more := LineTellsApart(lx, 0, [], a, b);
    }
  }

  lemma {:induction false} NoEmptyId(m: ToolMap)
    requires Proper(m)
    ensures Lookup(m, "") == None
  {
    if m != [] {
      NoEmptyId(m[1..]);
    }
  }

  /**
   * Trimming changes no blob of any later reading exactly when each dropped id
   * belonged to a tool of the generic partition; in particular whenever at most
   * 256 ids are pending.
   */
  lemma {:induction false} TrimIsInvisibleIff(lx: Lexer, m: ToolMap)
    requires Proper(m) && CanWrite(lx)
    ensures SameReadings(lx, Trim(m), m) <==> AllGeneric(Dropped(m))
  {
    DroppedThenTrim(m);
    SameReadingsIff(lx, Trim(m), m);
    TrimKeepsTypesIff(m);
  }

  function Repeated(n: nat): string {
    seq(n, _ => 'a')
  }

  /** A pending Read followed by `n` pending tools of other kinds. */
  function ReadThenOthers(n: nat): ToolMap
    decreases n
  {
    if n == 0 then [("r", "Read")] else ReadThenOthers(n - 1) + [(Repeated(n), "Task")]
  }

  lemma {:induction false} ReadThenOthersIs(n: nat)
    ensures var m := ReadThenOthers(n);
            && |m| == n + 1 && m[0] == ("r", "Read") && Proper(m)
            && forall id :: id in Ids(m) ==> id == "r" || |id| <= n
  {
    if n > 0 {
      ReadThenOthersIs(n - 1);
      var id := Repeated(n);
      assert |id| == n && id[0] == 'a';
      assert "r"[0] == 'r' && id != "r" && id !in Ids(ReadThenOthers(n - 1));
      ProperSnoc(ReadThenOthers(n - 1), id, "Task");
    }
  }

  lemma {:induction false} ProperSnoc(m: ToolMap, id: string, name: string)
    requires Proper(m) && id != "" && id !in Ids(m)
    ensures Proper(m + [(id, name)]) && Ids(m + [(id, name)]) == Ids(m) + {id}
  {
    if m != [] {
      assert (m + [(id, name)])[1..] == m[1..] + [(id, name)];
      ProperSnoc(m[1..], id, name);
    }
  }

  /** A Read that 256 later calls overtake is forgotten, and its late result feeds another partition. */
  lemma {:induction false} TrimForgetsARead(lx: Lexer)
    requires CanWrite(lx)
    ensures !SameReadings(lx, Trim(ReadThenOthers(MAX_PENDING_TOOL_NAMES)), ReadThenOthers(MAX_PENDING_TOOL_NAMES))
  {
    var m := ReadThenOthers(MAX_PENDING_TOOL_NAMES);
    ReadThenOthersIs(MAX_PENDING_TOOL_NAMES);
    TrimIsInvisibleIff(lx, m);
    assert Dropped(m)[0] == ("r", "Read");
  }

  // --- How closely a carried map must follow --------------------------------------

  /** Equal, or where generic ids may have been forgotten, alike in every partition. */
  ghost predicate Alike(exact: bool, a: ToolMap, b: ToolMap) {
    Proper(a) && Proper(b) && (if exact then a == b else SameTypes(a, b))
  }

  /** What may be dropped without being missed: nothing, or only generic ids. */
  ghost predicate Harmless(exact: bool, dropped: ToolMap) {
    if exact then dropped == [] else AllGeneric(dropped)
  }

  lemma {:induction false} AlikeRead(lx: Lexer, exact: bool, index: nat, file: Bytes, at: nat, a: ToolMap, b: ToolMap)
    requires at <= |file| && Alike(exact, a, b)
    ensures var x, y := ReadAll(lx, index, file, at, a), ReadAll(lx, index, file, at, b);
            x.blobs == y.blobs && x.offset == y.offset && Alike(exact, x.names, y.names)
  {
    SameRead(lx, index, file, at, a, b);
  }

  lemma {:induction false} AlikeTrimmed(exact: bool, a: ToolMap, b: ToolMap)
    requires Alike(exact, a, b) && Harmless(exact, Dropped(a))
    ensures Alike(exact, Trim(a), b)
  {
    DroppedThenTrim(a);
    TrimKeepsTypesIff(a);
    if !exact {
      forall id ensures TypeIn(Trim(a), id) == TypeIn(b, id) {
        assert TypeIn(Trim(a), id) == TypeIn(a, id) == TypeIn(b, id);
      }
    }
  }

  lemma {:induction false} HarmlessParts(exact: bool, a: ToolMap, b: ToolMap)
    ensures Harmless(exact, a + b) <==> Harmless(exact, a) && Harmless(exact, b)
  {
    if AllGeneric(a + b) {
      assert forall i :: 0 <= i < |b| ==> b[i] == (a + b)[|a| + i];
      assert forall i :: 0 <= i < |a| ==> a[i] == (a + b)[i];
    }
  }
}
