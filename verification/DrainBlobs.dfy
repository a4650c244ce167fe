/** Tool-result blobs of a transcript record. */
module DrainBlobs {
  // The projection of one record (src/drain/blob-extract.ts, src/drain/partition.ts) and the map of
  // tool_use ids still waiting for their result, which is the only state carried from one line to
  // the next (src/drain/reader-state.ts).

  import opened Prelude

  // --- Pending tool names ------------------------------------------------

  /** A JavaScript Map<string, string>: pairs in insertion order, keys distinct. */
  type ToolMap = seq<(string, string)>

  const MAX_PENDING_TOOL_NAMES: nat := 256

  function Lookup(m: ToolMap, id: string): Option<string> {
    if m == [] then None
    else if m[0].0 == id then Some(m[0].1)
    else Lookup(m[1..], id)
  }

  /** Map.set: an existing key keeps its place, a new one goes last. */
  function Put(m: ToolMap, id: string, name: string): (r: ToolMap)
    ensures |m| <= |r| <= |m| + 1
  {
    if m == [] then [(id, name)]
    else if m[0].0 == id then [(id, name)] + m[1..]
    else [m[0]] + Put(m[1..], id, name)
  }

  function PutAll(m: ToolMap, pairs: seq<(string, string)>): ToolMap
    decreases |pairs|
  {
    if pairs == [] then m else PutAll(Put(m, pairs[0].0, pairs[0].1), pairs[1..])
  }

  function Delete(m: ToolMap, id: string): (r: ToolMap)
    ensures |r| <= |m|
  {
    if m == [] then []
    else if m[0].0 == id then Delete(m[1..], id)
    else [m[0]] + Delete(m[1..], id)
  }

  /** trimPendingToolNames: all but the newest 256 insertions are dropped. */
  function Trim(m: ToolMap): (r: ToolMap)
    ensures |r| <= MAX_PENDING_TOOL_NAMES
    ensures |m| <= MAX_PENDING_TOOL_NAMES ==> r == m
  {
    if |m| <= MAX_PENDING_TOOL_NAMES then m else m[|m| - MAX_PENDING_TOOL_NAMES..]
  }

  /** Set and delete act on lookups as a map's do; the order of the pairs never shows. */
  lemma {:induction false} LookupAfter(m: ToolMap, id: string, name: string, other: string)
    ensures Lookup(Put(m, id, name), other) == if other == id then Some(name) else Lookup(m, other)
    ensures Lookup(Delete(m, id), other) == if other == id then None else Lookup(m, other)
  {
    if m != [] {
      LookupAfter(m[1..], id, name, other);
      assert ([m[0]] + Put(m[1..], id, name))[1..] == Put(m[1..], id, name);
      assert ([(id, name)] + m[1..])[1..] == m[1..];
      assert ([m[0]] + Delete(m[1..], id))[1..] == Delete(m[1..], id);
    }
  }

  ghost function Ids(m: ToolMap): set<string> {
    if m == [] then {} else {m[0].0} + Ids(m[1..])
  }

  /** What is pending is keyed by distinct, non-empty ids. */
  ghost predicate Proper(m: ToolMap) {
    m == [] || (m[0].0 != "" && m[0].0 !in Ids(m[1..]) && Proper(m[1..]))
  }

  lemma {:induction false} SetKeepsProper(m: ToolMap, id: string, name: string)
    requires Proper(m) && id != ""
    ensures Proper(Put(m, id, name)) && Ids(Put(m, id, name)) == Ids(m) + {id}
  {
    if m != [] {
      assert ([(id, name)] + m[1..])[1..] == m[1..];
      assert ([m[0]] + Put(m[1..], id, name))[1..] == Put(m[1..], id, name);
      SetKeepsProper(m[1..], id, name);
    }
  }

  lemma {:induction false} DeleteKeepsProper(m: ToolMap, id: string)
    requires Proper(m)
    ensures Proper(Delete(m, id)) && Ids(Delete(m, id)) <= Ids(m)
  {
    if m != [] {
      assert ([m[0]] + Delete(m[1..], id))[1..] == Delete(m[1..], id);
      DeleteKeepsProper(m[1..], id);
    }
  }

  // --- Blobs --------------------------------------------------------------

  datatype Content = Text(text: string) | Parts(parts: seq<Option<string>>) | NoContent

  /** One element of `message.content`; an Option is None where the field is missing or no string. */
  datatype Block =
    | ToolUse(id: Option<string>, name: Option<string>)
    | ToolResult(toolUseId: Option<string>, isError: bool, content: Content)
    | OtherBlock

  /** `toolUseResult`, with a missing or non-string stream read as "". */
  datatype Command = Command(stdout: string, stderr: string)

  datatype Record = Record(
    sessionId: Option<string>,
    timestamp: Option<string>,
    blocks: seq<Block>,
    command: Option<Command>)

  datatype Extracted = Extracted(
    toolType: string, rawText: string, sessionId: string, timestamp: string, eligible: bool)

  /** hasErrorSignal(toolType, text), which lives in the clustering package. */
  type Signal = (string, string) -> bool

  /** A string field that is present and non-empty. */
  function Str(field: Option<string>): (r: Option<string>)
    ensures r.Some? ==> r == field && |r.value| > 0
  {
    if field.Some? && |field.value| > 0 then field else None
  }

  function JoinLines(parts: seq<string>): string {
    if parts == [] then ""
    else if |parts| == 1 then parts[0]
    else parts[0] + "\n" + JoinLines(parts[1..])
  }

  function NonEmpty(parts: seq<Option<string>>): seq<string> {
    if parts == [] then []
    else (match Str(parts[0]) case Some(t) => [t] case None => []) + NonEmpty(parts[1..])
  }

  function ToolResultText(content: Content): string {
    match content
    case Text(t) => t
    case Parts(ps) => JoinLines(NonEmpty(ps))
    case NoContent => ""
  }

  function CommandOutput(command: Option<Command>): Option<string> {
    match command
    case None => None
    case Some(c) =>
      var text := JoinLines((if IsBlank(c.stdout) then [] else [c.stdout]) +
                            (if IsBlank(c.stderr) then [] else [c.stderr]));
      if |text| > 0 then Some(text) else None
  }

  function ToolTypeFor(toolName: string): string {
    if toolName == "Bash" then "Bash"
    else if toolName == "Read" then "Read"
    else if toolName == "Edit" || toolName == "MultiEdit" then "Edit"
    else "generic"
  }

  function ToolUseOf(block: Block): seq<(string, string)> {
    match block
    case ToolUse(id, name) => if Str(id).Some? && Str(name).Some? then [(id.value, name.value)] else []
    case _ => []
  }

  /** The id -> name pairs the blocks declare, in order. */
  function ToolUses(blocks: seq<Block>): seq<(string, string)> {
    if blocks == [] then []
    else ToolUses(blocks[..|blocks| - 1]) + ToolUseOf(blocks[|blocks| - 1])
  }

  method CollectToolUses(record: Record) returns (pairs: seq<(string, string)>)
    ensures pairs == ToolUses(record.blocks)
  {
    pairs := [];
    for i := 0 to |record.blocks|
      invariant pairs == ToolUses(record.blocks[..i])
    {
      assert record.blocks[..i + 1][..i] == record.blocks[..i];
      match record.blocks[i] {
        case ToolUse(id, name) =>
          if Str(id).Some? && Str(name).Some? {
            pairs := pairs + [(id.value, name.value)];
          }
        case _ =>
      }
    }
    assert record.blocks[..|record.blocks|] == record.blocks;
  }

  /** The blob of one tool_result block, given the tool name its id resolved to. */
  function BlobOf(record: Record, isError: bool, content: Content, toolName: Option<string>, signal: Signal)
    : (r: Option<Extracted>)
    requires Str(record.sessionId).Some? && Str(record.timestamp).Some?
    ensures r.Some? ==> !IsBlank(r.value.rawText) && r.value.toolType == ToolTypeFor(toolName.GetOr(""))
    ensures r.Some? && isError ==> r.value.eligible
  {
    var rawText := if isError then ToolResultText(content) else CommandOutput(record.command).GetOr("");
    if IsBlank(rawText) then None
    else
      var toolType := ToolTypeFor(toolName.GetOr(""));
      Some(Extracted(toolType, rawText, record.sessionId.value, record.timestamp.value,
                     isError || signal(toolType, rawText)))
  }

  datatype Scan = Scan(found: seq<Extracted>, names: ToolMap)

  /** One block: a result looks its id up, consumes it, and may give a blob. */
  function ScanOne(record: Record, block: Block, names: ToolMap, signal: Signal): (r: Scan)
    requires Str(record.sessionId).Some? && Str(record.timestamp).Some?
    ensures |r.names| <= |names|
  {
    match block
    case ToolResult(toolUseId, isError, content) =>
      var id := Str(toolUseId);
      var toolName := if id.Some? then Lookup(names, id.value) else None;
      var blob := BlobOf(record, isError, content, toolName, signal);
      Scan(if blob.Some? then [blob.value] else [],
           if id.Some? then Delete(names, id.value) else names)
    case _ => Scan([], names)
  }

  /** Left to right over the blocks. */
  function ScanBlocks(record: Record, blocks: seq<Block>, names: ToolMap, signal: Signal): (r: Scan)
    requires Str(record.sessionId).Some? && Str(record.timestamp).Some?
    ensures |r.names| <= |names|
    decreases |blocks|
  {
    if blocks == [] then Scan([], names)
    else
      var before := ScanBlocks(record, blocks[..|blocks| - 1], names, signal);
      var last := ScanOne(record, blocks[|blocks| - 1], before.names, signal);
      Scan(before.found + last.found, last.names)
  }

  function Extract(record: Record, names: ToolMap, signal: Signal): (r: Scan)
    ensures |r.names| <= |names|
  {
    if Str(record.sessionId).None? || Str(record.timestamp).None? then Scan([], names)
    else ScanBlocks(record, record.blocks, names, signal)
  }

  /** The map that extractBlobs is passed and deletes from. */
  class ToolNames {
    var entries: ToolMap

    constructor (initial: ToolMap)
      ensures entries == initial
    {
      entries := initial;
    }

    method Set(id: string, name: string)
      modifies this
      ensures entries == Put(old(entries), id, name)
    {
      entries := Put(entries, id, name);
    }
  }

  method ExtractOne(record: Record, block: Block, toolNames: ToolNames, signal: Signal)
    returns (found: seq<Extracted>)
    requires Str(record.sessionId).Some? && Str(record.timestamp).Some?
    modifies toolNames
    ensures Scan(found, toolNames.entries) == ScanOne(record, block, old(toolNames.entries), signal)
  {
    found := [];
    match block {
      case ToolResult(toolUseId, isError, content) =>
        var id := Str(toolUseId);
        var toolName := None;
        if id.Some? {
          toolName := Lookup(toolNames.entries, id.value);
          toolNames.entries := Delete(toolNames.entries, id.value);
        }
        var blob := BlobOf(record, isError, content, toolName, signal);
        if blob.Some? {
          found := [blob.value];
        }
      case _ =>
    }
  }

  method ExtractBlobs(record: Record, toolNames: ToolNames, signal: Signal) returns (found: seq<Extracted>)
    modifies toolNames
    ensures Scan(found, toolNames.entries) == Extract(record, old(toolNames.entries), signal)
  {
    found := [];
    if Str(record.sessionId).None? || Str(record.timestamp).None? {
      return;
    }
    for i := 0 to |record.blocks|
      invariant Scan(found, toolNames.entries) ==
                ScanBlocks(record, record.blocks[..i], old(toolNames.entries), signal)
    {
      assert record.blocks[..i + 1][..i] == record.blocks[..i];
      var more := ExtractOne(record, record.blocks[i], toolNames, signal);
      found := found + more;
    }
    assert record.blocks[..|record.blocks|] == record.blocks;
  }

  // --- What a pending map is read for ----------------------------------------

  /** Two maps that give every result the same partition. */
  ghost predicate SameTypes(a: ToolMap, b: ToolMap) {
    forall id :: TypeIn(a, id) == TypeIn(b, id)
  }

  function TypeIn(m: ToolMap, id: string): string {
    ToolTypeFor(Lookup(m, id).GetOr(""))
  }

  lemma {:induction false} SetKeepsSame(a: ToolMap, b: ToolMap, pairs: seq<(string, string)>)
    requires Proper(a) && Proper(b) && SameTypes(a, b)
    requires forall k :: 0 <= k < |pairs| ==> pairs[k].0 != ""
    ensures Proper(PutAll(a, pairs)) && Proper(PutAll(b, pairs)) && SameTypes(PutAll(a, pairs), PutAll(b, pairs))
    decreases |pairs|
  {
    if pairs != [] {
      var (id, name) := pairs[0];
      SetKeepsProper(a, id, name);
      SetKeepsProper(b, id, name);
      forall other ensures TypeIn(Put(a, id, name), other) == TypeIn(Put(b, id, name), other) {
        LookupAfter(a, id, name, other);
        LookupAfter(b, id, name, other);
        assert TypeIn(a, other) == TypeIn(b, other);
      }
      SetKeepsSame(Put(a, id, name), Put(b, id, name), pairs[1..]);
    }
  }

  lemma {:induction false} ToolUseIds(blocks: seq<Block>)
    ensures forall k :: 0 <= k < |ToolUses(blocks)| ==> ToolUses(blocks)[k].0 != ""
  {
    if blocks != [] {
      ToolUseIds(blocks[..|blocks| - 1]);
    }
  }

  lemma {:induction false} SameTypesOne(record: Record, block: Block, a: ToolMap, b: ToolMap, signal: Signal)
    requires Str(record.sessionId).Some? && Str(record.timestamp).Some?
    requires Proper(a) && Proper(b) && SameTypes(a, b)
    ensures var x, y := ScanOne(record, block, a, signal), ScanOne(record, block, b, signal);
            x.found == y.found && Proper(x.names) && Proper(y.names) && SameTypes(x.names, y.names)
  {
    if block.ToolResult? && Str(block.toolUseId).Some? {
      var id := block.toolUseId.value;
      DeleteKeepsProper(a, id);
      DeleteKeepsProper(b, id);
      forall other ensures TypeIn(Delete(a, id), other) == TypeIn(Delete(b, id), other) {
        LookupAfter(a, id, "", other);
        LookupAfter(b, id, "", other);
        assert TypeIn(a, other) == TypeIn(b, other);
      }
      assert TypeIn(a, id) == TypeIn(b, id);
    }
  }

  lemma {:induction false} SameTypesScan(record: Record, blocks: seq<Block>, a: ToolMap, b: ToolMap, signal: Signal)
    requires Str(record.sessionId).Some? && Str(record.timestamp).Some?
    requires Proper(a) && Proper(b) && SameTypes(a, b)
    ensures var x, y := ScanBlocks(record, blocks, a, signal), ScanBlocks(record, blocks, b, signal);
            x.found == y.found && Proper(x.names) && Proper(y.names) && SameTypes(x.names, y.names)
    decreases |blocks|
  {
    if blocks != [] {
      var init := blocks[..|blocks| - 1];
      SameTypesScan(record, init, a, b, signal);
      SameTypesOne(record, blocks[|blocks| - 1],
        ScanBlocks(record, init, a, signal).names, ScanBlocks(record, init, b, signal).names, signal);
    }
  }

  // --- What trimming takes away ------------------------------------------------

  lemma {:induction false} LookupFinds(m: ToolMap, id: string)
    ensures Lookup(m, id).Some? <==> id in Ids(m)
  {
    if m != [] {
      LookupFinds(m[1..], id);
    }
  }

  /** The two halves of a cut map are searched in turn. */
  lemma {:induction false} LookupCut(a: ToolMap, b: ToolMap, id: string)
    ensures Lookup(a + b, id) == if Lookup(a, id).Some? then Lookup(a, id) else Lookup(b, id)
  {
    if a == [] {
      assert a + b == b;
    } else {
      assert (a + b)[1..] == a[1..] + b;
      LookupCut(a[1..], b, id);
    }
  }

  lemma {:induction false} LookupAt(m: ToolMap, i: nat)
    requires Proper(m) && i < |m|
    ensures m[i].0 in Ids(m) && Lookup(m, m[i].0) == Some(m[i].1)
  {
    if i > 0 {
      LookupAt(m[1..], i - 1);
    }
  }

  lemma {:induction false} ProperCut(a: ToolMap, b: ToolMap)
    requires Proper(a + b)
    ensures Proper(a) && Proper(b) && Ids(a) !! Ids(b) && Ids(a + b) == Ids(a) + Ids(b)
  {
    if a == [] {
      assert a + b == b;
    } else {
      assert (a + b)[1..] == a[1..] + b;
      ProperCut(a[1..], b);
    }
  }

  /** The names trimming drops. */
  function Dropped(m: ToolMap): ToolMap {
    if |m| <= MAX_PENDING_TOOL_NAMES then [] else m[..|m| - MAX_PENDING_TOOL_NAMES]
  }

  predicate AllGeneric(m: ToolMap) {
    forall i :: 0 <= i < |m| ==> ToolTypeFor(m[i].1) == "generic"
  }

  lemma {:induction false} GenericLookup(m: ToolMap, id: string)
    requires AllGeneric(m)
    ensures TypeIn(m, id) == "generic"
  {
    if m != [] && m[0].0 == id {
      assert ToolTypeFor(m[0].1) == "generic";
    } else if m != [] {
      assert forall i :: 0 <= i < |m[1..]| ==> m[1..][i] == m[i + 1];
      GenericLookup(m[1..], id);
    }
  }

  lemma {:induction false} DroppedThenTrim(m: ToolMap)
    requires Proper(m)
    ensures m == Dropped(m) + Trim(m)
    ensures Proper(Dropped(m)) && Proper(Trim(m)) && Ids(Dropped(m)) !! Ids(Trim(m))
  {
    assert m == Dropped(m) + Trim(m);
    ProperCut(Dropped(m), Trim(m));
  }

  /** Trimming leaves every result its partition exactly when each dropped id belonged to the generic one. */
  lemma {:induction false} TrimKeepsTypesIff(m: ToolMap)
    requires Proper(m)
    ensures SameTypes(Trim(m), m) <==> AllGeneric(Dropped(m))
  {
    var gone, kept := Dropped(m), Trim(m);
    DroppedThenTrim(m);
    if AllGeneric(gone) {
      forall id ensures TypeIn(kept, id) == TypeIn(m, id) {
        LookupCut(gone, kept, id);
        GenericLookup(gone, id);
        LookupFinds(gone, id);
        LookupFinds(kept, id);
      }
    } else {
      var i :| 0 <= i < |gone| && ToolTypeFor(gone[i].1) != "generic";
      LookupAt(gone, i);
      LookupCut(gone, kept, gone[i].0);
      LookupFinds(kept, gone[i].0);
      assert TypeIn(kept, gone[i].0) != TypeIn(m, gone[i].0);
    }
  }

  // --- A record that shows what an id resolves to --------------------------------

  /** An is_error result naming `id`: always extracted, its partition read off the pending map. */
  function Probe(id: string): Record {
    Record(Some("s"), Some("t"), [ToolResult(Some(id), true, Text("E"))], None)
  }

  lemma {:induction false} ProbeShowsType(id: string, m: ToolMap, signal: Signal)
    requires id != ""
    ensures ToolUses(Probe(id).blocks) == []
    ensures Extract(Probe(id), m, signal).found == [Extracted(TypeIn(m, id), "E", "s", "t", true)]
  {
    var record := Probe(id);
    assert !IsBlank("E") by {
      assert !IsBlankChar("E"[0]);
    }
    assert record.blocks[..0] == [];
    assert ScanBlocks(record, record.blocks[..0], m, signal) == Scan([], m);
    assert ToolUses(record.blocks[..0]) == [];
  }
}
