/** What a tool result yields. */
module DrainResults {
  // src/drain/blob-extract.ts and partition.ts, said of the fields of a record: which results give a
  // blob, with which text, partition and eligibility, and what becomes of the pending ids.

  import opened Prelude
  import opened DrainBlobs
  import opened DrainIngestor
  import opened DrainReader

  // --- The text of one result ------------------------------------------------------

  ghost function IsThere(parts: seq<Option<string>>): nat -> bool {
    (i: nat) => i < |parts| && parts[i].Some? && parts[i].value != ""
  }

  /** The parts among the first `n` that are there and not empty, in order. */
  ghost function Picked(parts: seq<Option<string>>, n: nat): (r: seq<string>) {
    var at := Listing(n, IsThere(parts));
    seq(|at|, k requires 0 <= k < |at| => parts[at[k]].value)
  }

  /** Where piece `k` begins when one character stands between each piece and the next. */
  ghost function StartOf(pieces: seq<string>, k: nat): nat
    requires k <= |pieces|
  {
    if k == 0 then 0 else StartOf(pieces, k - 1) + |pieces[k - 1]| + 1
  }

  /** The text is the pieces in order, a newline between each and the next, and nothing else. */
  ghost predicate LaidOut(text: string, pieces: seq<string>) {
    && |text| == (if pieces == [] then 0 else StartOf(pieces, |pieces| - 1) + |pieces[|pieces| - 1]|)
    && PiecesStand(text, pieces) && NewlinesStand(text, pieces)
  }

  ghost predicate PiecesStand(text: string, pieces: seq<string>) {
    forall k :: 0 <= k < |pieces| ==> StandsAt(text, pieces[k], StartOf(pieces, k))
  }

  ghost predicate NewlinesStand(text: string, pieces: seq<string>) {
    forall k :: 0 < k < |pieces| ==> StandsAt(text, "\n", StartOf(pieces, k) - 1)
  }

  ghost predicate StandsAt(text: string, piece: string, at: int) {
    0 <= at && at + |piece| <= |text| && text[at..at + |piece|] == piece
  }

  /** The text of a failed result: its string, or its parts that are not empty, a newline between them. */
  ghost predicate ErrorText(content: Content, text: string) {
    match content
    case Text(t) => text == t
    case Parts(parts) => LaidOut(text, Picked(parts, |parts|))
    case NoContent => text == ""
  }

  /** Nothing but white space in it. */
  ghost predicate ErrorIsBlank(content: Content) {
    match content
    case Text(t) => IsBlank(t)
    case Parts(parts) => forall i :: 0 <= i < |parts| && parts[i].Some? ==> IsBlank(parts[i].value)
    case NoContent => true
  }

  /** The text of a command: the stream that is not blank, or both with a newline between them. */
  ghost predicate CommandText(command: Option<Command>, text: string) {
    command.Some? &&
    var c := command.value;
    && (!IsBlank(c.stdout) && IsBlank(c.stderr) ==> text == c.stdout)
    && (IsBlank(c.stdout) && !IsBlank(c.stderr) ==> text == c.stderr)
    && (!IsBlank(c.stdout) && !IsBlank(c.stderr) ==> text == c.stdout + "\n" + c.stderr)
  }

  ghost predicate CommandIsBlank(command: Option<Command>) {
    command.None? || (IsBlank(command.value.stdout) && IsBlank(command.value.stderr))
  }

  /** The result says nothing. */
  ghost predicate Silent(record: Record, block: Block)
    requires block.ToolResult?
  {
    if block.isError then ErrorIsBlank(block.content) else CommandIsBlank(record.command)
  }

  /** The tool whose result it is. */
  ghost predicate PartitionOf(name: Option<string>, partition: string) {
    && (partition == "Bash" <==> name == Some("Bash"))
    && (partition == "Read" <==> name == Some("Read"))
    && (partition == "Edit" <==> name == Some("Edit") || name == Some("MultiEdit"))
    && (partition in {"Bash", "Read", "Edit", "generic"})
  }

  /** The blob of a result of the tool `name`. */
  ghost predicate BlobIs(record: Record, block: Block, name: Option<string>, signal: Signal, b: Extracted)
    requires block.ToolResult?
  {
    && (if block.isError then ErrorText(block.content, b.rawText) else CommandText(record.command, b.rawText))
    && PartitionOf(name, b.toolType)
    && (b.eligible <==> block.isError || signal(b.toolType, b.rawText))
    && record.sessionId == Some(b.sessionId) && record.timestamp == Some(b.timestamp)
  }

  lemma {:induction false} BlankParts(a: string, b: string)
    ensures IsBlank(a + b) <==> IsBlank(a) && IsBlank(b)
  {
    var all := a + b;
    if IsBlank(all) {
      assert forall i :: 0 <= i < |a| ==> a[i] == all[i];
      assert forall i :: 0 <= i < |b| ==> b[i] == all[|a| + i];
    }
  }

  lemma {:induction false} NewlineIsBlank()
    ensures IsBlank("\n")
  {
    assert "\n"[0] in BLANKS by {
      assert BLANKS[2] == '\n';
    }
  }

  lemma {:induction false} TwoLines(a: string, b: string)
    ensures IsBlank(a + "\n" + b) <==> IsBlank(a) && IsBlank(b)
  {
    NewlineIsBlank();
    BlankParts(a, "\n");
    BlankParts(a + "\n", b);
  }

  lemma {:induction false} JoinIsBlank(parts: seq<string>)
    ensures IsBlank(JoinLines(parts)) <==> forall i :: 0 <= i < |parts| ==> IsBlank(parts[i])
  {
    if |parts| > 1 {
      JoinIsBlank(parts[1..]);
      TwoLines(parts[0], JoinLines(parts[1..]));
      assert forall i :: 0 < i < |parts| ==> parts[i] == parts[1..][i - 1];
    }
  }

  lemma {:induction false} StillStands(text: string, more: string, piece: string, at: int)
    requires StandsAt(text, piece, at)
    ensures StandsAt(text + more, piece, at)
  {
    assert (text + more)[at..at + |piece|] == text[at..at + |piece|];
  }

  lemma {:induction false} StandsLast(text: string, piece: string)
    ensures StandsAt(text + piece, piece, |text|)
  {
    assert (text + piece)[|text|..|text| + |piece|] == piece;
  }

  lemma {:induction false} StartsStay(pieces: seq<string>, last: string, k: nat)
    requires k <= |pieces|
    ensures StartOf(pieces + [last], k) == StartOf(pieces, k)
  {
    if k > 0 {
      StartsStay(pieces, last, k - 1);
    }
  }

  /** Something at `at` in the text is there still once a line is added. */
  lemma {:induction false} StandsBefore(text: string, last: string, piece: string, at: int)
    requires StandsAt(text, piece, at)
    ensures StandsAt(text + "\n" + last, piece, at)
  {
    StillStands(text, "\n", piece, at);
    StillStands(text + "\n", last, piece, at);
  }

  lemma {:induction false} PieceStands(text: string, pieces: seq<string>, last: string, k: nat)
    requires LaidOut(text, pieces) && pieces != [] && k <= |pieces|
    ensures StandsAt(text + "\n" + last, (pieces + [last])[k], StartOf(pieces + [last], k))
  {
    StartsStay(pieces, last, k);
    StartsStay(pieces, last, |pieces| - 1);
    if k < |pieces| {
      StandsBefore(text, last, pieces[k], StartOf(pieces, k));
    } else {
      StandsLast(text + "\n", last);
    }
  }

  lemma {:induction false} NewlineStands(text: string, pieces: seq<string>, last: string, k: nat)
    requires 0 < k <= |pieces| && |text| == StartOf(pieces, |pieces|) - 1
    requires k < |pieces| ==> StandsAt(text, "\n", StartOf(pieces, k) - 1)
    ensures StandsAt(text + "\n" + last, "\n", StartOf(pieces + [last], k) - 1)
  {
    StartsStay(pieces, last, k);
    if k < |pieces| {
      StandsBefore(text, last, "\n", StartOf(pieces, k) - 1);
    } else {
      StandsLast(text, "\n");
      StillStands(text + "\n", last, "\n", |text|);
    }
  }

  lemma {:induction false} OneMoreStands(text: string, pieces: seq<string>, last: string)
    requires LaidOut(text, pieces) && pieces != []
    ensures PiecesStand(text + "\n" + last, pieces + [last])
  {
    forall k | 0 <= k < |pieces + [last]|
      ensures StandsAt(text + "\n" + last, (pieces + [last])[k], StartOf(pieces + [last], k))
    {
      PieceStands(text, pieces, last, k);
    }
  }

  lemma {:induction false} OneMoreNewline(text: string, pieces: seq<string>, last: string)
    requires LaidOut(text, pieces) && pieces != []
    ensures NewlinesStand(text + "\n" + last, pieces + [last])
  {
    forall k | 0 < k < |pieces + [last]| ensures StandsAt(text + "\n" + last, "\n", StartOf(pieces + [last], k) - 1) {
      NewlineStands(text, pieces, last, k);
    }
  }

  lemma {:induction false} OneMorePiece(text: string, pieces: seq<string>, last: string)
    requires LaidOut(text, pieces) && pieces != []
    ensures LaidOut(text + "\n" + last, pieces + [last])
  {
    OneMoreStands(text, pieces, last);
    OneMoreNewline(text, pieces, last);
    StartsStay(pieces, last, |pieces|);
  }

  lemma {:induction false} JoinSnoc(pieces: seq<string>, last: string)
    requires pieces != []
    ensures JoinLines(pieces + [last]) == JoinLines(pieces) + "\n" + last
  {
    assert (pieces + [last])[1..] == pieces[1..] + [last];
    if |pieces| > 1 {
      JoinSnoc(pieces[1..], last);
      ConcatAssoc(pieces[0] + "\n", JoinLines(pieces[1..]), "\n" + last);
    }
  }

  lemma {:induction false} JoinIsLaidOut(pieces: seq<string>)
    ensures LaidOut(JoinLines(pieces), pieces)
  {
    if |pieces| == 1 {
      StandsLast("", pieces[0]);
      assert "" + pieces[0] == pieces[0];
    } else if |pieces| > 1 {
      var init, last := pieces[..|pieces| - 1], pieces[|pieces| - 1];
      assert init + [last] == pieces;
      JoinIsLaidOut(init);
      JoinSnoc(init, last);
      OneMorePiece(JoinLines(init), init, last);
    }
  }

  lemma {:induction false} NonEmptySnoc(parts: seq<Option<string>>, last: Option<string>)
    ensures NonEmpty(parts + [last]) == NonEmpty(parts) + (if Str(last).Some? then [last.value] else [])
  {
    if parts == [] {
      assert [last][1..] == [];
    } else {
      assert (parts + [last])[1..] == parts[1..] + [last];
      NonEmptySnoc(parts[1..], last);
      ConcatAssoc(if Str(parts[0]).Some? then [parts[0].value] else [], NonEmpty(parts[1..]),
        if Str(last).Some? then [last.value] else []);
    }
  }

  lemma {:induction false} NonEmptyIsPicked(parts: seq<Option<string>>, n: nat)
    requires n <= |parts|
    ensures NonEmpty(parts[..n]) == Picked(parts, n)
  {
    if n > 0 {
      NonEmptyIsPicked(parts, n - 1);
      assert parts[..n] == parts[..n - 1] + [parts[n - 1]];
      NonEmptySnoc(parts[..n - 1], parts[n - 1]);
    }
  }

  lemma {:induction false} ErrorTextIs(content: Content)
    ensures ErrorText(content, ToolResultText(content))
    ensures IsBlank(ToolResultText(content)) <==> ErrorIsBlank(content)
  {
    match content {
      case Parts(parts) =>
        assert parts[..|parts|] == parts;
        NonEmptyIsPicked(parts, |parts|);
        JoinIsLaidOut(NonEmpty(parts));
        JoinIsBlank(NonEmpty(parts));
        PickedBlank(parts);
      case _ =>
    }
  }

  lemma {:induction false} PickedBlank(parts: seq<Option<string>>)
    ensures (forall k :: 0 <= k < |Picked(parts, |parts|)| ==> IsBlank(Picked(parts, |parts|)[k])) <==>
            forall i :: 0 <= i < |parts| && parts[i].Some? ==> IsBlank(parts[i].value)
  {
    var at := Listing(|parts|, IsThere(parts));
    ListingIs(|parts|, IsThere(parts));
    if forall k :: 0 <= k < |at| ==> IsBlank(Picked(parts, |parts|)[k]) {
      forall i | 0 <= i < |parts| && parts[i].Some? ensures IsBlank(parts[i].value) {
        if parts[i].value != "" {
          assert i in at;
          var k :| 0 <= k < |at| && at[k] == i;
          assert IsBlank(Picked(parts, |parts|)[k]);
        }
      }
    }
  }

  lemma {:induction false} CommandTextIs(command: Option<Command>)
    ensures IsBlank(CommandOutput(command).GetOr("")) <==> CommandIsBlank(command)
    ensures !CommandIsBlank(command) ==> CommandText(command, CommandOutput(command).GetOr(""))
  {
    if command.Some? {
      var c := command.value;
      TwoLines(c.stdout, c.stderr);
      assert [c.stdout] + [c.stderr] == [c.stdout, c.stderr] && [c.stdout, c.stderr][1..] == [c.stderr];
      assert JoinLines([c.stdout, c.stderr]) == c.stdout + "\n" + c.stderr;
    }
  }

  // --- One result -----------------------------------------------------------------------

  /** The tool name pending for the id of the block. */
  ghost function NameFor(names: ToolMap, block: Block): Option<string>
    requires block.ToolResult?
  {
    if block.toolUseId.GetOr("") == "" then None else Lookup(names, block.toolUseId.value)
  }

  lemma {:induction false} NameIs(names: ToolMap, block: Block)
    requires block.ToolResult?
    ensures NameFor(names, block) == (if Str(block.toolUseId).Some? then Lookup(names, block.toolUseId.value) else None)
  {
  }

  lemma {:induction false} TypeIs(name: Option<string>)
    ensures PartitionOf(name, ToolTypeFor(name.GetOr("")))
  {
  }

  /** The text the source takes is blank exactly when the result says nothing, and is its text otherwise. */
  lemma {:induction false} TextIs(record: Record, block: Block)
    requires block.ToolResult?
    ensures var text := if block.isError then ToolResultText(block.content) else CommandOutput(record.command).GetOr("");
            && (IsBlank(text) <==> Silent(record, block))
            && (!Silent(record, block) ==>
                  if block.isError then ErrorText(block.content, text) else CommandText(record.command, text))
  {
    if block.isError {
      ErrorTextIs(block.content);
    } else {
      CommandTextIs(record.command);
    }
  }

  /** A result gives one blob, its own, exactly when it says something. */
  lemma {:induction false} ResultGives(record: Record, block: Block, names: ToolMap, signal: Signal)
    requires Str(record.sessionId).Some? && Str(record.timestamp).Some? && block.ToolResult?
    ensures var found := ScanOne(record, block, names, signal).found;
            if Silent(record, block) then found == []
            else |found| == 1 && BlobIs(record, block, NameFor(names, block), signal, found[0])
  {
    TextIs(record, block);
    NameIs(names, block);
    TypeIs(NameFor(names, block));
  }

  // --- A whole record ---------------------------------------------------------------------

  /** A result of `id` among the first `n` blocks. */
  ghost predicate ResultBefore(blocks: seq<Block>, n: nat, id: string) {
    exists i :: 0 <= i < n && i < |blocks| && blocks[i].ToolResult? && blocks[i].toolUseId == Some(id)
  }

  /** The tool name for block `n`: pending before the record, and not taken by an earlier result of it. */
  ghost function NameAt(names: ToolMap, blocks: seq<Block>, n: nat): Option<string>
    requires n < |blocks| && blocks[n].ToolResult?
  {
    var id := blocks[n].toolUseId.GetOr("");
    if id == "" || ResultBefore(blocks, n, id) then None else Lookup(names, id)
  }

  lemma {:induction false} ResultNext(blocks: seq<Block>, n: nat, id: string)
    requires n < |blocks|
    ensures ResultBefore(blocks, n + 1, id) <==>
            ResultBefore(blocks, n, id) || (blocks[n].ToolResult? && blocks[n].toolUseId == Some(id))
  {
  }

  lemma {:induction false} PendingNext(record: Record, block: Block, names: ToolMap, signal: Signal, id: string)
    requires Str(record.sessionId).Some? && Str(record.timestamp).Some? && id != ""
    ensures Lookup(ScanOne(record, block, names, signal).names, id) ==
            if block.ToolResult? && block.toolUseId == Some(id) then None else Lookup(names, id)
  {
    if block.ToolResult? && Str(block.toolUseId).Some? {
      LookupAfter(names, block.toolUseId.value, "", id);
    }
  }

  /** What is pending after the first `n` blocks: every id but those a result of them named. */
  lemma {:induction false} PendingAfter(record: Record, n: nat, names: ToolMap, signal: Signal, id: string)
    requires Str(record.sessionId).Some? && Str(record.timestamp).Some? && n <= |record.blocks| && id != ""
    ensures Lookup(ScanBlocks(record, record.blocks[..n], names, signal).names, id) ==
            if ResultBefore(record.blocks, n, id) then None else Lookup(names, id)
  {
    if n > 0 {
      PendingAfter(record, n - 1, names, signal, id);
      assert record.blocks[..n][..n - 1] == record.blocks[..n - 1];
      ResultNext(record.blocks, n - 1, id);
      PendingNext(record, record.blocks[n - 1], ScanBlocks(record, record.blocks[..n - 1], names, signal).names, signal, id);
    }
  }

  /** Block `i` is a result and says something. */
  ghost function Speaks(record: Record): nat -> bool {
    (i: nat) => i < |record.blocks| && record.blocks[i].ToolResult? && !Silent(record, record.blocks[i])
  }

  /** One blob, its own, for each result among the first `n` blocks that says something, in order. */
  ghost predicate BlobsOf(record: Record, n: nat, names: ToolMap, signal: Signal, found: seq<Extracted>) {
    var at := Listing(n, Speaks(record));
    && |found| == |at|
    && forall k :: 0 <= k < |at| ==>
         BlobIs(record, record.blocks[at[k]], NameAt(names, record.blocks, at[k]), signal, found[k])
  }

  lemma {:induction false} ScanGives(record: Record, n: nat, names: ToolMap, signal: Signal)
    requires Str(record.sessionId).Some? && Str(record.timestamp).Some? && n <= |record.blocks|
    ensures BlobsOf(record, n, names, signal, ScanBlocks(record, record.blocks[..n], names, signal).found)
  {
    if n > 0 {
      ScanGives(record, n - 1, names, signal);
      assert record.blocks[..n][..n - 1] == record.blocks[..n - 1];
      BlockGives(record, n - 1, names, ScanBlocks(record, record.blocks[..n - 1], names, signal).names, signal);
    }
  }

  /** What block `n` adds, given what is pending by then. */
  lemma {:induction false} BlockGives(record: Record, n: nat, names: ToolMap, now: ToolMap, signal: Signal)
    requires Str(record.sessionId).Some? && Str(record.timestamp).Some? && n < |record.blocks|
    requires now == ScanBlocks(record, record.blocks[..n], names, signal).names
    ensures var found := ScanOne(record, record.blocks[n], now, signal).found;
            if Speaks(record)(n)
            then |found| == 1
                 && BlobIs(record, record.blocks[n], NameAt(names, record.blocks, n), signal, found[0])
            else found == []
  {
    var block := record.blocks[n];
    if block.ToolResult? {
      ResultGives(record, block, now, signal);
      if block.toolUseId.GetOr("") != "" {
        PendingAfter(record, n, names, signal, block.toolUseId.value);
      }
    }
  }

  /**
   * A record without session or time gives nothing and leaves the map. Any other gives
   * one blob for each of its results that say something, in order, and takes out of the
   * map every id that one of its results names.
   */
  lemma {:induction false} RecordGives(record: Record, names: ToolMap, signal: Signal)
    ensures var scan := Extract(record, names, signal);
            if record.sessionId.GetOr("") == "" || record.timestamp.GetOr("") == ""
            then scan == Scan([], names)
            else
              && BlobsOf(record, |record.blocks|, names, signal, scan.found)
              && forall id :: id != "" ==>
                   Lookup(scan.names, id) ==
                   if ResultBefore(record.blocks, |record.blocks|, id) then None else Lookup(names, id)
  {
    if Str(record.sessionId).Some? && Str(record.timestamp).Some? {
      assert record.blocks[..|record.blocks|] == record.blocks;
      ScanGives(record, |record.blocks|, names, signal);
      forall id | id != ""
        ensures Lookup(Extract(record, names, signal).names, id) ==
                if ResultBefore(record.blocks, |record.blocks|, id) then None else Lookup(names, id)
      {
        PendingAfter(record, |record.blocks|, names, signal, id);
      }
    }
  }

  // --- One line ---------------------------------------------------------------------------

  /** Block `i` declares a tool call of `id`. */
  ghost predicate Declares(blocks: seq<Block>, i: nat, id: string) {
    && i < |blocks| && blocks[i].ToolUse? && blocks[i].id == Some(id)
    && blocks[i].name.Some? && blocks[i].name.value != ""
  }

  /** The name the last of the first `n` blocks to declare the id gives it, or else the one pending. */
  ghost function Declared(blocks: seq<Block>, n: nat, names: ToolMap, id: string): Option<string>
    requires n <= |blocks|
  {
    if n == 0 then Lookup(names, id)
    else if Declares(blocks, n - 1, id) then blocks[n - 1].name
    else Declared(blocks, n - 1, names, id)
  }

  lemma {:induction false} PutAllSnoc(m: ToolMap, pairs: seq<(string, string)>, last: (string, string))
    ensures PutAll(m, pairs + [last]) == Put(PutAll(m, pairs), last.0, last.1)
    decreases |pairs|
  {
    if pairs == [] {
      assert [last][1..] == [];
    } else {
      assert (pairs + [last])[1..] == pairs[1..] + [last];
      PutAllSnoc(Put(m, pairs[0].0, pairs[0].1), pairs[1..], last);
    }
  }

  /** What one block puts into the map. */
  lemma {:induction false} OneDeclared(m: ToolMap, blocks: seq<Block>, i: nat, id: string)
    requires i < |blocks| && id != ""
    ensures Lookup(PutAll(m, ToolUseOf(blocks[i])), id) ==
            if Declares(blocks, i, id) then blocks[i].name else Lookup(m, id)
  {
    var use := ToolUseOf(blocks[i]);
    if use != [] {
      assert use[1..] == [];
      LookupAfter(m, use[0].0, use[0].1, id);
    }
  }

  lemma {:induction false} PutOn(m: ToolMap, pairs: seq<(string, string)>, use: seq<(string, string)>)
    requires |use| <= 1
    ensures PutAll(m, pairs + use) == PutAll(PutAll(m, pairs), use)
  {
    if use == [] {
      assert pairs + use == pairs;
    } else {
      assert use == [use[0]] && use[1..] == [];
      PutAllSnoc(m, pairs, use[0]);
    }
  }

  lemma {:induction false} DeclaredName(blocks: seq<Block>, n: nat, names: ToolMap, id: string)
    requires n <= |blocks| && id != ""
    ensures Lookup(PutAll(names, ToolUses(blocks[..n])), id) == Declared(blocks, n, names, id)
  {
    if n > 0 {
      var init := blocks[..n - 1];
      assert blocks[..n][..n - 1] == init;
      DeclaredName(blocks, n - 1, names, id);
      PutOn(names, ToolUses(init), ToolUseOf(blocks[n - 1]));
      OneDeclared(PutAll(names, ToolUses(init)), blocks, n - 1, id);
    }
  }

  ghost function IsEligible(found: seq<Extracted>): nat -> bool {
    (i: nat) => i < |found| && found[i].eligible
  }

  /** The eligible ones among the first `n`, in order, with the locator of their line. */
  ghost predicate EligibleOf(found: seq<Extracted>, n: nat, locator: Locator, blobs: seq<Blob>) {
    var at := Listing(n, IsEligible(found));
    && |blobs| == |at|
    && forall k :: 0 <= k < |at| ==>
         var e := found[at[k]];
         && blobs[k].toolType == e.toolType && blobs[k].rawText == e.rawText
         && blobs[k].sessionId == e.sessionId && blobs[k].timestamp == e.timestamp
         && blobs[k].locator == locator
  }

  lemma {:induction false} EligibleGives(found: seq<Extracted>, n: nat, locator: Locator)
    requires n <= |found|
    ensures EligibleOf(found, n, locator, EligibleBlobs(found[..n], locator))
  {
    if n > 0 {
      EligibleGives(found, n - 1, locator);
      EligibleSnoc(found, n - 1, locator);
    }
  }

  /**
   * A line that is a record: the tool calls it declares are pending before its results
   * are looked at, and each result worth keeping is fed, in order, with the locator of
   * the line. Any other line feeds nothing and leaves what is pending.
   */
  lemma {:induction false} LineGives(lx: Lexer, index: nat, line: Line, names: ToolMap)
    returns (pending: ToolMap, found: seq<Extracted>)
    ensures var one := ReadLine(lx, index, line, names);
            && one.offset == line.byteOffset + line.byteLength + 1
            && (if !lx.parse(line.text).Parsed? then one.blobs == [] && one.names == names
                else
                  var record := lx.parse(line.text).record;
                  && EligibleOf(found, |found|, Locator(index, line.byteOffset, line.byteLength), one.blobs)
                  && (forall id :: id != "" ==>
                       Lookup(pending, id) == Declared(record.blocks, |record.blocks|, names, id))
                  && (if record.sessionId.GetOr("") == "" || record.timestamp.GetOr("") == "" then found == []
                      else BlobsOf(record, |record.blocks|, pending, lx.signal, found)))
  {
    pending, found := names, [];
    match lx.parse(line.text) {
      case Parsed(record) =>
        pending := PutAll(names, ToolUses(record.blocks));
        found := Extract(record, pending, lx.signal).found;
        assert record.blocks[..|record.blocks|] == record.blocks && found[..|found|] == found;
        forall id | id != "" ensures Lookup(pending, id) == Declared(record.blocks, |record.blocks|, names, id) {
          DeclaredName(record.blocks, |record.blocks|, names, id);
        }
        RecordGives(record, pending, lx.signal);
        EligibleGives(found, |found|, Locator(index, line.byteOffset, line.byteLength));
      case _ =>
    }
  }
}
