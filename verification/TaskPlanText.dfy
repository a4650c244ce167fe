/** What the lines of a plan say. */
module TaskPlanText {
  // src/commands/_task-apply-plan.ts: parsing undoes printing, and nothing that is not the print of an
  // op, but for white space around a tag, parses to it.

  import opened Prelude
  import opened TaskOps
  import opened TaskApply
  import opened TaskApplyRuns
  import opened TaskPlan

  // --- Trimming ----------------------------------------------------------------------

  predicate Trimmed(text: string) {
    text == "" || (!IsBlankChar(text[0]) && !IsBlankChar(text[|text| - 1]))
  }

  lemma {:induction false} TrimLeftIs(text: string) returns (pre: string)
    ensures IsBlank(pre) && text == pre + TrimLeft(text)
    ensures TrimLeft(text) == "" || !IsBlankChar(TrimLeft(text)[0])
  {
    if text != "" && IsBlankChar(text[0]) {
      var rest := TrimLeftIs(text[1..]);
      pre := [text[0]] + rest;
      assert text == [text[0]] + text[1..];
    } else {
      pre := "";
    }
  }

  lemma {:induction false} TrimRightIs(text: string) returns (post: string)
    ensures IsBlank(post) && text == TrimRight(text) + post
    ensures TrimRight(text) == "" || !IsBlankChar(TrimRight(text)[|TrimRight(text)| - 1])
  {
    if text != "" && IsBlankChar(text[|text| - 1]) {
      var init, last := text[..|text| - 1], text[|text| - 1];
      var rest := TrimRightIs(init);
      post := rest + [last];
      assert text == init + [last];
      ConcatAssoc(TrimRight(init), rest, [last]);
      assert TrimRight(text) == TrimRight(init);
    } else {
      post := "";
    }
  }

  /** Taking white space off the right leaves the left end, unless it takes all. */
  lemma {:induction false} LeftEndStays(text: string, rest: string, post: string)
    requires text == rest + post && rest != ""
    ensures text != "" && text[0] == rest[0]
  {
  }

  /** Trimming takes white space off both ends, and all of it. */
  lemma {:induction false} TrimIs(text: string) returns (pre: string, post: string)
    ensures var t := TrimRight(TrimLeft(text));
            IsBlank(pre) && IsBlank(post) && Trimmed(t) && text == pre + t + post
  {
    pre := TrimLeftIs(text);
    var left := TrimLeft(text);
    post := TrimRightIs(left);
    var t := TrimRight(left);
    ConcatAssoc(pre, t, post);
    if t != "" {
      LeftEndStays(left, t, post);
    }
  }

  lemma {:induction false} TrimLeftOff(pre: string, text: string)
    requires IsBlank(pre) && text != "" && !IsBlankChar(text[0])
    ensures TrimLeft(pre + text) == text
  {
    if pre == "" {
      assert pre + text == text;
    } else {
      assert (pre + text)[1..] == pre[1..] + text;
      TrimLeftOff(pre[1..], text);
    }
  }

  lemma {:induction false} TrimRightOff(text: string, post: string)
    requires IsBlank(post) && text != "" && !IsBlankChar(text[|text| - 1])
    ensures TrimRight(text + post) == text
  {
    if post == "" {
      assert text + post == text;
    } else {
      assert (text + post)[..|text + post| - 1] == text + post[..|post| - 1];
      TrimRightOff(text, post[..|post| - 1]);
    }
  }

  lemma {:induction false} TrimOff(pre: string, text: string, post: string)
    requires IsBlank(pre) && IsBlank(post) && text != "" && Trimmed(text)
    ensures TrimRight(TrimLeft(pre + text + post)) == text
  {
    ConcatAssoc(pre, text, post);
    assert (text + post)[0] == text[0];
    TrimLeftOff(pre, text + post);
    TrimRightOff(text, post);
  }

  // --- One op --------------------------------------------------------------------------

  /** The ops a plan can ask for. */
  predicate Writable(op: Op, idOk: string -> bool) {
    match op
    case AddTag(tag) => tag != "" && ',' !in tag && Trimmed(tag)
    case RemoveTag(tag) => tag != "" && ',' !in tag && Trimmed(tag)
    case AppendNote(line) => !IsBlank(line) && '\n' !in line && '\r' !in line
    case SetParent(ref) => idOk(ref)
    case AddDep(ref) => idOk(ref)
    case Done => true
  }

  function Print(op: Op): RawOp {
    match op
    case AddTag(tag) => OneKey("add_tag", Str(tag))
    case RemoveTag(tag) => OneKey("remove_tag", Str(tag))
    case AppendNote(line) => OneKey("append", Str(line))
    case SetParent(ref) => OneKey("set_parent", Str(ref))
    case AddDep(ref) => OneKey("add_dep", Str(ref))
    case Done => OneKey("done", True)
  }

  /** The raw op is the print of the op, but for white space around a tag. */
  ghost predicate Says(raw: RawOp, op: Op) {
    match op
    case AddTag(tag) => raw.OneKey? && raw.key == "add_tag" && raw.value.Str? && Pads(raw.value.text, tag)
    case RemoveTag(tag) => raw.OneKey? && raw.key == "remove_tag" && raw.value.Str? && Pads(raw.value.text, tag)
    case _ => raw == Print(op)
  }

  ghost predicate Pads(text: string, tag: string) {
    exists pre, post :: IsBlank(pre) && IsBlank(post) && text == pre + tag + post
  }

  lemma {:induction false} PadsIff(text: string, tag: string)
    requires tag != "" && Trimmed(tag)
    ensures Pads(text, tag) <==> TrimRight(TrimLeft(text)) == tag
  {
    if pre, post :| IsBlank(pre) && IsBlank(post) && text == pre + tag + post {
      TrimOff(pre, tag, post);
    }
    var pre, post := TrimIs(text);
  }

  lemma {:induction false} TrimmedTag(text: string)
    ensures Trimmed(TrimRight(TrimLeft(text)))
  {
    var pre, post := TrimIs(text);
  }

  ghost predicate TagKey(raw: RawOp) {
    raw.OneKey? && (raw.key == "add_tag" || raw.key == "remove_tag")
  }

  /** A raw op about a tag parses to an op exactly when the op is one a plan can ask for and the raw op says it. */
  lemma {:induction false} TagParsesIff(raw: RawOp, op: Op, idOk: string -> bool)
    requires TagKey(raw)
    ensures ParseOp(raw, idOk) == Some(op) <==> Writable(op, idOk) && Says(raw, op)
  {
    if raw.value.Str? {
      TrimmedTag(raw.value.text);
      if (op.AddTag? || op.RemoveTag?) && op.tag != "" && Trimmed(op.tag) {
        PadsIff(raw.value.text, op.tag);
      }
    }
  }

  lemma {:induction false} OtherParsesIff(raw: RawOp, op: Op, idOk: string -> bool)
    requires !TagKey(raw)
    ensures ParseOp(raw, idOk) == Some(op) <==> Writable(op, idOk) && Says(raw, op)
  {
  }

  /** A raw op parses to an op exactly when the op is one a plan can ask for and the raw op says it. */
  lemma {:induction false} ParsesIff(raw: RawOp, op: Op, idOk: string -> bool)
    ensures ParseOp(raw, idOk) == Some(op) <==> Writable(op, idOk) && Says(raw, op)
  {
    if TagKey(raw) {
      TagParsesIff(raw, op, idOk);
    } else {
      OtherParsesIff(raw, op, idOk);
    }
  }

  /** Parsing undoes printing. */
  lemma {:induction false} PrintParses(op: Op, idOk: string -> bool)
    requires Writable(op, idOk)
    ensures ParseOp(Print(op), idOk) == Some(op)
  {
    ParsesIff(Print(op), op, idOk);
    if op.AddTag? || op.RemoveTag? {
      assert op.tag == "" + op.tag + "";
      assert Pads(op.tag, op.tag);
    }
  }

  // --- One line -----------------------------------------------------------------------------

  ghost predicate AllSay(raws: seq<RawOp>, ops: seq<Op>, idOk: string -> bool) {
    |raws| == |ops| && forall i :: 0 <= i < |ops| ==> Writable(ops[i], idOk) && Says(raws[i], ops[i])
  }

  lemma {:induction false} OpsParseIff(raws: seq<RawOp>, ops: seq<Op>, idOk: string -> bool)
    ensures ParseOps(raws, idOk) == Some(ops) <==> AllSay(raws, ops, idOk)
  {
    if raws != [] && |raws| == |ops| {
      var n := |raws| - 1;
      OpsParseIff(raws[..n], ops[..n], idOk);
      ParsesIff(raws[n], ops[n], idOk);
      AllSaySnoc(raws, ops, idOk);
      assert ops == ops[..n] + [ops[n]];
      SnocIs(raws, ops, idOk);
    }
  }

  lemma {:induction false} AllSaySnoc(raws: seq<RawOp>, ops: seq<Op>, idOk: string -> bool)
    requires raws != [] && |raws| == |ops|
    ensures var n := |raws| - 1;
            AllSay(raws, ops, idOk) <==>
            AllSay(raws[..n], ops[..n], idOk) && Writable(ops[n], idOk) && Says(raws[n], ops[n])
  {
    var n := |raws| - 1;
    assert forall i :: 0 <= i < n ==> raws[..n][i] == raws[i] && ops[..n][i] == ops[i];
  }

  lemma {:induction false} SnocIs(raws: seq<RawOp>, ops: seq<Op>, idOk: string -> bool)
    requires raws != [] && |raws| == |ops|
    ensures var n := |raws| - 1;
            ParseOps(raws, idOk) == Some(ops) <==>
            ParseOps(raws[..n], idOk) == Some(ops[..n]) && ParseOp(raws[n], idOk) == Some(ops[n])
  {
    var n := |raws| - 1;
    var init, last := ParseOps(raws[..n], idOk), ParseOp(raws[n], idOk);
    assert ops == ops[..n] + [ops[n]];
    if init.Some? && last.Some? {
      assert (init.value + [last.value])[..n] == init.value;
      assert (init.value + [last.value])[n] == last.value;
    }
  }

  /** Why a line fails, if it does. */
  ghost predicate Fails(raw: RawLine, rules: Rules, why: string) {
    match raw
    case Object(slug, id, raws, _) =>
      if !rules.slugOk(slug) then why == "Invalid slug"
      else if !rules.idOk(id) then why == "Invalid task id"
      else if raws.None? then why == "ops must be an array"
      else why == "bad op" && forall ops :: !AllSay(raws.value, ops, rules.idOk)
    case NotObject => why == "Plan line must be a JSON object"
    case _ => why == "Invalid JSON"
  }

  /** What a line that is not blank gives: its ops if it says any, or one reason why not; its target if it names one. */
  lemma {:induction false} LineGives(raw: RawLine, index: nat, rules: Rules)
    ensures var e := ParseLine(raw, index, rules);
            && e.index == index
            && e.slug == (if raw.Object? then raw.slug else "") && e.id == (if raw.Object? then raw.id else "")
            && (if e.error.None?
                then raw.Object? && rules.slugOk(raw.slug) && rules.idOk(raw.id) && raw.ops.Some?
                     && AllSay(raw.ops.value, e.ops, rules.idOk)
                else e.ops == [] && Fails(raw, rules, e.error.value))
  {
    if raw.Object? && raw.ops.Some? {
      if ParseOps(raw.ops.value, rules.idOk).Some? {
        OpsParseIff(raw.ops.value, ParseOps(raw.ops.value, rules.idOk).value, rules.idOk);
      } else {
        forall ops ensures !AllSay(raw.ops.value, ops, rules.idOk) {
          OpsParseIff(raw.ops.value, ops, rules.idOk);
        }
      }
    }
  }

  // --- The plan ---------------------------------------------------------------------------------

  ghost function Speaking(lines: seq<RawLine>): nat -> bool {
    (i: nat) => i < |lines| && !lines[i].Blank?
  }

  /** The entries are those of the lines that are not blank, in order, numbered from 0. */
  lemma {:induction false} EntriesAre(lines: seq<RawLine>, n: nat, rules: Rules)
    requires n <= |lines|
    ensures var at, entries := Listing(n, Speaking(lines)), Entries(lines[..n], rules);
            |entries| == |at| && forall k :: 0 <= k < |at| ==> entries[k] == ParseLine(lines[at[k]], k, rules)
  {
    if n > 0 {
      EntriesAre(lines, n - 1, rules);
      assert lines[..n][..n - 1] == lines[..n - 1];
    }
  }

  function PrintAll(ops: seq<Op>): (r: seq<RawOp>)
    ensures |r| == |ops| && forall i :: 0 <= i < |ops| ==> r[i] == Print(ops[i])
  {
    if ops == [] then [] else PrintAll(ops[..|ops| - 1]) + [Print(ops[|ops| - 1])]
  }

  function PrintLine(e: PlanEntry): RawLine {
    Object(e.slug, e.id, Some(PrintAll(e.ops)), LINE_KEYS)
  }

  ghost predicate WritableLine(e: PlanEntry, rules: Rules) {
    && e.error.None? && rules.slugOk(e.slug) && rules.idOk(e.id)
    && forall i :: 0 <= i < |e.ops| ==> Writable(e.ops[i], rules.idOk)
  }

  /** A printed line is read back. */
  lemma {:induction false} LineReadsBack(e: PlanEntry, rules: Rules)
    requires WritableLine(e, rules)
    ensures ParseLine(PrintLine(e), e.index, rules) == e
  {
    forall i | 0 <= i < |e.ops| ensures Says(PrintAll(e.ops)[i], e.ops[i]) {
      PrintParses(e.ops[i], rules.idOk);
      ParsesIff(Print(e.ops[i]), e.ops[i], rules.idOk);
    }
    OpsParseIff(PrintAll(e.ops), e.ops, rules.idOk);
  }

  function PrintPlan(entries: seq<PlanEntry>): (r: seq<RawLine>)
    ensures |r| == |entries|
  {
    if entries == [] then [] else PrintPlan(entries[..|entries| - 1]) + [PrintLine(entries[|entries| - 1])]
  }

  /** A printed plan is read back. */
  lemma {:induction false} PlanReadsBack(entries: seq<PlanEntry>, rules: Rules)
    requires forall k :: 0 <= k < |entries| ==> entries[k].index == k && WritableLine(entries[k], rules)
    ensures Entries(PrintPlan(entries), rules) == entries
  {
    if entries != [] {
      var init, last := entries[..|entries| - 1], entries[|entries| - 1];
      assert init + [last] == entries;
      PlanReadsBack(init, rules);
      LineReadsBack(last, rules);
      assert PrintPlan(entries)[..|init|] == PrintPlan(init);
    }
  }
}
