/**
 * The line-by-line scan of a language-model reply inside `process_response`.
 * The reply is cut at '\n'; each line is stripped of whitespace; blank lines
 * are skipped; a line that starts with one of the four bracketed tags sets a
 * field, and once an `[Информация:` line has been seen every later untagged
 * line is collected as more information. A tagged line whose extraction
 * raises (it has no ": ") is skipped and leaves the state as it was.
 */
module ReplyParser {
  import opened Wrappers
  import opened PyStr

  /** The initial `result["type"]`. */
  const Undetermined := "не определено"
  /** The initial `result["workshop"]` and `result["unit"]`. */
  const NotAvailable := "н/д"

  const TypePrefix := "[Тип:"
  const WorkshopPrefix := "[Цех:"
  const UnitPrefix := "[Агрегат:"
  const InfoPrefix := "[Информация:"

  /** The separator `split(': ')` cuts at. */
  const FieldSeparator := ": "
  /** The separator the reply is cut into lines at. */
  const LineSeparator := "\n"
  /** `strip(' ]')`, applied to every extracted value. */
  const ValueTrim: set<char> := {' ', ']'}
  /** `strip(' []')`, applied to a continuation line of the information block. */
  const ContinuationTrim: set<char> := {' ', '[', ']'}
  /** The character `replace('"', '')` removes from workshop and unit. */
  const Quote := '"'

  datatype Tag = TypeTag | WorkshopTag | UnitTag | InfoTag

  /**
   * The loop state of `process_response`: the three fields of `result`,
   * the `current_info` list and the `info_block` flag.
   */
  datatype ParseState = ParseState(kind: string, workshop: string, unit: string, info: seq<string>, infoBlock: bool)

  const Initial := ParseState(Undetermined, NotAvailable, NotAvailable, [], false)

  /** The tag a stripped line starts with, tested in the order of the `if`/`elif` chain. */
  function TagOf(line: string): Option<Tag> {
    if StartsWith(line, TypePrefix) then Some(TypeTag)
    else if StartsWith(line, WorkshopPrefix) then Some(WorkshopTag)
    else if StartsWith(line, UnitPrefix) then Some(UnitTag)
    else if StartsWith(line, InfoPrefix) then Some(InfoTag)
    else None
  }

  /** `line.split(': ')[1]`; `None` where the list has a single element and indexing raises IndexError. */
  function SecondField(line: string): (r: Option<string>)
    ensures r.Some? <==> Contains(line, FieldSeparator)
  {
    SplitCutsIffContains(line, FieldSeparator);
    var parts := Split(line, FieldSeparator);
    if |parts| < 2 then None else Some(parts[1])
  }

  /** `line.split(': ', 1)[1]`; `None` where indexing raises IndexError. */
  function AfterSeparator(line: string): (r: Option<string>)
    ensures r.Some? <==> Contains(line, FieldSeparator)
    ensures r.Some? ==> IndexOf(line, FieldSeparator).Some? &&
                        r.value == line[IndexOf(line, FieldSeparator).value + |FieldSeparator|..]
  {
    SplitCutsIffContains(line, FieldSeparator);
    IndexOfSpec(line, FieldSeparator);
    var parts := SplitOnce(line, FieldSeparator);
    if |parts| < 2 then None else Some(parts[1])
  }

  /** What one line of the reply amounts to, once it is stripped and its tag examined. */
  datatype Line =
    | Blank                           // empty after `strip()`: `continue`
    | Malformed                       // tagged, but the extraction raised IndexError: logged and skipped
    | Tagged(tag: Tag, value: string) // a tagged line and the value extracted from it
    | Untagged(text: string)          // no recognised tag: the line with ' []' stripped from its ends

  /** `replace('"', '')`, applied to the workshop and unit values but not to the type. */
  function Clean(tag: Tag, v: string): string {
    if tag == TypeTag || tag == InfoTag then v else RemoveChar(v, Quote)
  }

  /**
   * The extraction for a line that starts with `tag`: the information line
   * keeps everything after its first ": ", the other three take the piece
   * between the first and second ": ".
   */
  function Extract(line: string, tag: Tag): Line {
    var field := if tag == InfoTag then AfterSeparator(line) else SecondField(line);
    match field
    case None => Malformed
    case Some(v) => Tagged(tag, Clean(tag, Strip(v, ValueTrim)))
  }

  /** The string work of one iteration: strip, recognise the tag, extract the value. */
  function Classify(raw: string): Line {
    var line := Strip(raw, Whitespace);
    if line == [] then Blank
    else
      match TagOf(line)
      case None => Untagged(Strip(line, ContinuationTrim))
      case Some(tag) => Extract(line, tag)
  }

  /** The state change of one iteration. */
  function Apply(st: ParseState, line: Line): ParseState {
    match line
    case Blank => st
    case Malformed => st
    case Tagged(TypeTag, v) => st.(kind := v)
    case Tagged(WorkshopTag, v) => st.(workshop := v)
    case Tagged(UnitTag, v) => st.(unit := v)
    case Tagged(InfoTag, v) => st.(info := st.info + [v], infoBlock := true)
    case Untagged(v) => if st.infoBlock then st.(info := st.info + [v]) else st
  }

  /** One iteration of the loop, on a raw (unstripped) line. */
  function Step(st: ParseState, raw: string): ParseState {
    Apply(st, Classify(raw))
  }

  /** Every line of the reply, classified. */
  function Classified(lines: seq<string>): (ls: seq<Line>)
    ensures |ls| == |lines|
  {
    seq(|lines|, j requires 0 <= j < |lines| => Classify(lines[j]))
  }

  /** The state after the loop has applied `ls`, in order, to the initial state. */
  function Run(ls: seq<Line>): ParseState
    decreases |ls|
  {
    if ls == [] then Initial else Apply(Run(ls[..|ls| - 1]), ls[|ls| - 1])
  }

  /** The state after the loop has run over `lines`. */
  function Scan(lines: seq<string>): ParseState {
    Run(Classified(lines))
  }

  /** The state after the loop over `model_response.split('\n')`. */
  function Parse(reply: string): ParseState {
    Scan(Split(reply, LineSeparator))
  }

  /**
   * One iteration of the loop of `process_response` (lines 99-118) on the
   * state it carries; `return next` with `next == st` is the `continue` of a
   * blank line and the logged-and-skipped IndexError of a malformed one.
   */
  method ProcessLine(st: ParseState, raw: string) returns (next: ParseState)
    ensures next == Step(st, raw)
  {
    next := st;
    var line := Strip(raw, Whitespace);
    if line == [] {
      return;
    }
    if StartsWith(line, TypePrefix) {
      assert Classify(raw) == Extract(line, TypeTag);
      var parts := Split(line, FieldSeparator);
      if |parts| < 2 {
        return;  // IndexError
      }
      next := st.(kind := Strip(parts[1], ValueTrim));
    } else if StartsWith(line, WorkshopPrefix) {
      assert Classify(raw) == Extract(line, WorkshopTag);
      var parts := Split(line, FieldSeparator);
      if |parts| < 2 {
        return;
      }
      next := st.(workshop := RemoveChar(Strip(parts[1], ValueTrim), Quote));
    } else if StartsWith(line, UnitPrefix) {
      assert Classify(raw) == Extract(line, UnitTag);
      var parts := Split(line, FieldSeparator);
      if |parts| < 2 {
        return;
      }
      next := st.(unit := RemoveChar(Strip(parts[1], ValueTrim), Quote));
    } else if StartsWith(line, InfoPrefix) {
      assert Classify(raw) == Extract(line, InfoTag);
      var parts := SplitOnce(line, FieldSeparator);
      if |parts| < 2 {
        return;
      }
      next := st.(info := st.info + [Strip(parts[1], ValueTrim)], infoBlock := true);
    } else if st.infoBlock {
      next := st.(info := st.info + [Strip(line, ContinuationTrim)]);
    }
  }

  /** The loop of `process_response`, lines 89-118. */
  method ParseResponse(reply: string) returns (st: ParseState)
    ensures st == Parse(reply)
  {
    st := Initial;
    var lines := Split(reply, LineSeparator);
    for i := 0 to |lines|
      invariant st == Scan(lines[..i])
    {
      ScanOneMore(lines, i);
      st := ProcessLine(st, lines[i]);
    }
    assert lines[..|lines|] == lines;
  }

  // ---------------------------------------------------------------------------
  // Line classification used by the lemmas

  /** After stripping, the line starts with `tag` and has the ": " the extraction needs. */
  predicate WellFormed(raw: string, tag: Tag) {
    var line := Strip(raw, Whitespace);
    TagOf(line) == Some(tag) && Contains(line, FieldSeparator)
  }

  /** Some line of `lines` is a well-formed line of `tag`. */
  predicate HasLine(lines: seq<string>, tag: Tag) {
    exists k :: 0 <= k < |lines| && WellFormed(lines[k], tag)
  }

  /** No line of `lines`, once stripped, starts with a recognised tag. */
  predicate NoTaggedLine(lines: seq<string>) {
    forall k :: 0 <= k < |lines| ==> TagOf(Strip(lines[k], Whitespace)).None?
  }

  /** The loop skips the line: blank, or tagged without ": " (the extraction raises). */
  predicate Skipped(raw: string) {
    var line := Strip(raw, Whitespace);
    line == [] || (TagOf(line).Some? && !Contains(line, FieldSeparator))
  }

  /** The field of the state a tag other than the information tag writes. */
  function Field(st: ParseState, tag: Tag): string
    requires tag != InfoTag
  {
    match tag
    case TypeTag => st.kind
    case WorkshopTag => st.workshop
    case UnitTag => st.unit
  }

  /**
   * The value a well-formed field line carries: the text between its first and
   * second ": " with spaces and ']' stripped from both ends, and for workshop
   * and unit every '"' removed as well.
   */
  function FieldValue(raw: string, tag: Tag): string
    requires tag != InfoTag && WellFormed(raw, tag)
  {
    var line := Strip(raw, Whitespace);
    Clean(tag, Strip(SecondField(line).value, ValueTrim))
  }

  /** What a line adds to `current_info` once the information block is on. */
  function Contribution(raw: string): seq<string> {
    var line := Strip(raw, Whitespace);
    if line == [] then []
    else
      match TagOf(line)
      case Some(InfoTag) =>
        (match IndexOf(line, FieldSeparator)
         case Some(i) => [Strip(line[i + |FieldSeparator|..], ValueTrim)]
         case None => [])
      case Some(_) => []
      case None => [Strip(line, ContinuationTrim)]
  }

  /** The contributions of `lines`, in order. */
  function Contributions(lines: seq<string>): seq<string>
    decreases |lines|
  {
    if lines == [] then [] else Contributions(lines[..|lines| - 1]) + Contribution(lines[|lines| - 1])
  }

  // ---------------------------------------------------------------------------
  // One line

  /** The four tag prefixes are mutually exclusive, so the order of the `elif` chain does not matter. */
  lemma TagsExclusive(line: string)
    ensures !(StartsWith(line, TypePrefix) && StartsWith(line, WorkshopPrefix))
    ensures !(StartsWith(line, TypePrefix) && StartsWith(line, UnitPrefix))
    ensures !(StartsWith(line, TypePrefix) && StartsWith(line, InfoPrefix))
    ensures !(StartsWith(line, WorkshopPrefix) && StartsWith(line, UnitPrefix))
    ensures !(StartsWith(line, WorkshopPrefix) && StartsWith(line, InfoPrefix))
    ensures !(StartsWith(line, UnitPrefix) && StartsWith(line, InfoPrefix))
  {
    if |line| >= 2 {
      assert TypePrefix[1] != WorkshopPrefix[1] && TypePrefix[1] != UnitPrefix[1] && TypePrefix[1] != InfoPrefix[1];
      assert WorkshopPrefix[1] != UnitPrefix[1] && WorkshopPrefix[1] != InfoPrefix[1] && UnitPrefix[1] != InfoPrefix[1];
    }
  }

  /** Which kind of line `Classify` reports, in terms of the stripped line. */
  lemma ClassifyKinds(raw: string)
    ensures var line := Strip(raw, Whitespace);
            && (Classify(raw).Blank? <==> line == [])
            && (Classify(raw).Malformed? <==> line != [] && TagOf(line).Some? && !Contains(line, FieldSeparator))
            && (Classify(raw).Untagged? <==> line != [] && TagOf(line).None?)
            && (Classify(raw).Tagged? <==> line != [] && TagOf(line).Some? && Contains(line, FieldSeparator))
            && (Classify(raw).Tagged? ==> TagOf(line) == Some(Classify(raw).tag))
  {
    var line := Strip(raw, Whitespace);
    if line != [] && TagOf(line).Some? {
      assert Classify(raw) == Extract(line, TagOf(line).value);
    }
  }

  /** A line is classified as carrying `tag` exactly when it is a well-formed line of that tag. */
  lemma ClassifyTagged(raw: string, tag: Tag)
    ensures (Classify(raw).Tagged? && Classify(raw).tag == tag) <==> WellFormed(raw, tag)
  {
    ClassifyKinds(raw);
  }

  /** A blank line, and a tagged line without ": ", leave the state as it was. */
  lemma SkippedLineKeepsState(st: ParseState, raw: string)
    requires Skipped(raw)
    ensures Step(st, raw) == st
  {
    var line := Strip(raw, Whitespace);
    if line != [] {
    }
  }

  /**
   * A well-formed `[Тип:`, `[Цех:` or `[Агрегат:` line overwrites its field
   * with the line's value and changes nothing else.
   */
  lemma FieldLineSetsField(st: ParseState, raw: string, tag: Tag)
    requires tag != InfoTag && WellFormed(raw, tag)
    ensures var r := Step(st, raw);
            && Field(r, tag) == FieldValue(raw, tag)
            && r.info == st.info && r.infoBlock == st.infoBlock
            && (forall t :: t != InfoTag && t != tag ==> Field(r, t) == Field(st, t))
  {
    var line := Strip(raw, Whitespace);
    var v := FieldValue(raw, tag);
    assert Classify(raw) == Extract(line, tag);
    assert Extract(line, tag) == Tagged(tag, v);
    assert Step(st, raw) == Apply(st, Tagged(tag, v));
  }

  /**
   * A well-formed `[Информация:` line appends everything after its first ": "
   * (later ": " included), with spaces and ']' stripped from both ends, and
   * switches the information block on.
   */
  lemma InfoLineStartsBlock(st: ParseState, raw: string)
    requires WellFormed(raw, InfoTag)
    ensures IndexOf(Strip(raw, Whitespace), FieldSeparator).Some?
    ensures var line := Strip(raw, Whitespace);
            var i := IndexOf(line, FieldSeparator).value;
            Step(st, raw) == st.(info := st.info + [Strip(line[i + |FieldSeparator|..], ValueTrim)], infoBlock := true)
  {
    var line := Strip(raw, Whitespace);
    IndexOfSpec(line, FieldSeparator);
    var v := Strip(AfterSeparator(line).value, ValueTrim);
    assert Classify(raw) == Extract(line, InfoTag);
    assert Extract(line, InfoTag) == Tagged(InfoTag, v);
    assert Step(st, raw) == Apply(st, Tagged(InfoTag, v));
  }

  /**
   * A non-blank line without a recognised tag is appended, with spaces and
   * brackets stripped from its ends, when the information block is on, and is
   * discarded otherwise.
   */
  lemma UntaggedLine(st: ParseState, raw: string)
    requires Strip(raw, Whitespace) != [] && TagOf(Strip(raw, Whitespace)).None?
    ensures st.infoBlock ==> Step(st, raw) == st.(info := st.info + [Strip(Strip(raw, Whitespace), ContinuationTrim)])
    ensures !st.infoBlock ==> Step(st, raw) == st
  {
    var line := Strip(raw, Whitespace);
    var v := Strip(line, ContinuationTrim);
    assert Classify(raw) == Untagged(v);
    assert Step(st, raw) == Apply(st, Untagged(v));
  }

  /** A line that is not a well-formed line of `tag` leaves that field alone. */
  lemma OtherLineKeepsField(st: ParseState, raw: string, tag: Tag)
    requires tag != InfoTag && !WellFormed(raw, tag)
    ensures Field(Step(st, raw), tag) == Field(st, tag)
  {
    ClassifyTagged(raw, tag);
  }

  /** The contribution of a line is the value `Classify` gives an information or untagged line. */
  lemma ContributionOfLine(raw: string)
    ensures Contribution(raw) == match Classify(raw)
                                 case Tagged(InfoTag, v) => [v]
                                 case Untagged(v) => [v]
                                 case _ => []
  {
    var line := Strip(raw, Whitespace);
    ClassifyKinds(raw);
    IndexOfSpec(line, FieldSeparator);
    if line != [] && TagOf(line) == Some(InfoTag) && Contains(line, FieldSeparator) {
      assert Classify(raw) == Extract(line, InfoTag);
    }
  }

  /** Once the information block is on, each line adds its contribution, and the block stays on. */
  lemma StepInBlock(st: ParseState, raw: string)
    requires st.infoBlock
    ensures Step(st, raw).infoBlock
    ensures Step(st, raw).info == st.info + Contribution(raw)
  {
    ContributionOfLine(raw);
  }

  /** Before the information block, only a well-formed `[Информация:` line touches `current_info` or the flag. */
  lemma StepBeforeBlock(st: ParseState, raw: string)
    requires !st.infoBlock
    ensures Step(st, raw).infoBlock == WellFormed(raw, InfoTag)
    ensures !WellFormed(raw, InfoTag) ==> Step(st, raw).info == st.info
    ensures WellFormed(raw, InfoTag) ==> Step(st, raw).info == st.info + Contribution(raw)
  {
    ContributionOfLine(raw);
    ClassifyTagged(raw, InfoTag);
  }

  // ---------------------------------------------------------------------------
  // A whole reply, first on classified lines

  /** `l` is a line that carries `tag`. */
  predicate Carries(l: Line, tag: Tag) {
    l.Tagged? && l.tag == tag
  }

  /** Without tagged lines the state stays initial: untagged lines before the block are discarded. */
  lemma {:induction false} RunWithoutTags(ls: seq<Line>)
    requires forall k :: 0 <= k < |ls| ==> !ls[k].Tagged?
    ensures Run(ls) == Initial
    decreases |ls|
  {
    if ls != [] {
      var init := ls[..|ls| - 1];
      assert forall k :: 0 <= k < |init| ==> init[k] == ls[k];
      RunWithoutTags(init);
    }
  }

  /** The last line that carries a field's tag decides the field. */
  lemma {:induction false} RunLastCarrierWins(ls: seq<Line>, tag: Tag, k: nat)
    requires tag != InfoTag
    requires k < |ls| && Carries(ls[k], tag)
    requires forall j :: k < j < |ls| ==> !Carries(ls[j], tag)
    ensures Field(Run(ls), tag) == ls[k].value
    decreases |ls|
  {
    var n := |ls| - 1;
    var init := ls[..n];
    if k < n {
      assert forall j :: k < j < |init| ==> init[j] == ls[j];
      RunLastCarrierWins(init, tag, k);
    }
  }

  /** Without a line that carries its tag, a field keeps its initial value. */
  lemma {:induction false} RunWithoutCarrier(ls: seq<Line>, tag: Tag)
    requires tag != InfoTag
    requires forall j :: 0 <= j < |ls| ==> !Carries(ls[j], tag)
    ensures Field(Run(ls), tag) == Field(Initial, tag)
    decreases |ls|
  {
    if ls != [] {
      var init := ls[..|ls| - 1];
      assert forall j :: 0 <= j < |init| ==> init[j] == ls[j];
      RunWithoutCarrier(init, tag);
    }
  }

  /** The block is on exactly when some line carries the information tag, and then information was collected. */
  lemma {:induction false} RunInfoBlock(ls: seq<Line>)
    ensures Run(ls).infoBlock <==> exists k :: 0 <= k < |ls| && Carries(ls[k], InfoTag)
    ensures Run(ls).info != [] <==> Run(ls).infoBlock
    decreases |ls|
  {
    if ls != [] {
      var n := |ls| - 1;
      var init := ls[..n];
      RunInfoBlock(init);
      assert forall j :: 0 <= j < |init| ==> init[j] == ls[j];
      if Run(init).infoBlock {
        var k :| 0 <= k < |init| && Carries(init[k], InfoTag);
        assert Carries(ls[k], InfoTag);
      }
    }
  }

  /** What a classified line adds to `current_info` once the block is on. */
  function Collected(l: Line): seq<string> {
    match l
    case Tagged(InfoTag, v) => [v]
    case Untagged(v) => [v]
    case _ => []
  }

  function CollectedAll(ls: seq<Line>): seq<string>
    decreases |ls|
  {
    if ls == [] then [] else CollectedAll(ls[..|ls| - 1]) + Collected(ls[|ls| - 1])
  }

  /** Once the block is on, a classified line adds what it carries and the block stays on. */
  lemma ApplyInBlock(st: ParseState, l: Line)
    requires st.infoBlock
    ensures Apply(st, l).infoBlock && Apply(st, l).info == st.info + Collected(l)
  {
  }

  /** From the first information line on, every line adds what it carries. */
  lemma {:induction false} RunCollectsFromFirstInfo(ls: seq<Line>, k: nat)
    requires k < |ls| && Carries(ls[k], InfoTag)
    requires forall j :: 0 <= j < k ==> !Carries(ls[j], InfoTag)
    ensures Run(ls).info == CollectedAll(ls[k..])
    decreases |ls|
  {
    var n := |ls| - 1;
    var init := ls[..n];
    var before := Run(init);
    assert Run(ls) == Apply(before, ls[n]);
    if k == n {
      assert before.info == [] && !before.infoBlock by {
        assert forall j :: 0 <= j < |init| ==> !Carries(init[j], InfoTag);
        RunInfoBlock(init);
      }
      assert ls[k..] == [ls[n]];
      assert CollectedAll(ls[k..]) == CollectedAll([]) + Collected(ls[n]);
    } else {
      assert forall j :: 0 <= j < k ==> !Carries(init[j], InfoTag);
      assert Carries(init[k], InfoTag);
      RunCollectsFromFirstInfo(init, k);
      assert before.infoBlock by { RunInfoBlock(init); }
      ApplyInBlock(before, ls[n]);
      assert CollectedAll(ls[k..]) == CollectedAll(init[k..]) + Collected(ls[n]) by {
        assert ls[k..][..|ls[k..]| - 1] == init[k..];
      }
    }
  }

  /** A blank or malformed line is as if it were not there. */
  lemma {:induction false} RunSkipsInert(before: seq<Line>, l: Line, after: seq<Line>)
    requires l.Blank? || l.Malformed?
    ensures Run(before + [l] + after) == Run(before + after)
    decreases |after|
  {
    if after == [] {
      assert before + [l] + after == before + [l];
      assert (before + [l])[..|before|] == before;
      assert before + after == before;
    } else {
      var n := |after| - 1;
      RunSkipsInert(before, l, after[..n]);
      var with, without := before + [l] + after, before + after;
      assert with[..|with| - 1] == before + [l] + after[..n];
      assert without[..|without| - 1] == before + after[..n];
    }
  }

  // ---------------------------------------------------------------------------
  // A whole reply, on its raw lines

  lemma ClassifiedConcat(a: seq<string>, b: seq<string>)
    ensures Classified(a + b) == Classified(a) + Classified(b)
  {
    var l, r := Classified(a + b), Classified(a) + Classified(b);
    forall j | 0 <= j < |l|
      ensures l[j] == r[j]
    {
      if j < |a| {
        assert (a + b)[j] == a[j];
      } else {
        assert (a + b)[j] == b[j - |a|];
      }
    }
  }

  lemma ClassifiedSuffix(lines: seq<string>, k: nat)
    requires k <= |lines|
    ensures Classified(lines[k..]) == Classified(lines)[k..]
  {
    assert lines == lines[..k] + lines[k..];
    ClassifiedConcat(lines[..k], lines[k..]);
  }

  /** One more line of the loop applies that line's classification. */
  lemma ScanOneMore(lines: seq<string>, i: nat)
    requires i < |lines|
    ensures Scan(lines[..i + 1]) == Step(Scan(lines[..i]), lines[i])
  {
    var ls := Classified(lines[..i + 1]);
    assert ls[..i] == Classified(lines[..i]);
  }

  /** A reply with no recognised tag leaves every field at its sentinel and collects no information. */
  lemma NoTagKeepsInitial(lines: seq<string>)
    requires NoTaggedLine(lines)
    ensures Scan(lines) == Initial
  {
    var ls := Classified(lines);
    forall k | 0 <= k < |ls|
      ensures !ls[k].Tagged?
    {
      ClassifyKinds(lines[k]);
    }
    RunWithoutTags(ls);
  }

  /** The last well-formed line of a field's tag decides the field; earlier ones are overwritten. */
  lemma LastFieldLineWins(lines: seq<string>, tag: Tag, k: nat)
    requires tag != InfoTag
    requires k < |lines| && WellFormed(lines[k], tag)
    requires forall j :: k < j < |lines| ==> !WellFormed(lines[j], tag)
    ensures Field(Scan(lines), tag) == FieldValue(lines[k], tag)
  {
    var ls := Classified(lines);
    forall j | k < j < |ls|
      ensures !Carries(ls[j], tag)
    {
      ClassifyTagged(lines[j], tag);
    }
    FieldLineSetsField(Initial, lines[k], tag);
    RunLastCarrierWins(ls, tag, k);
  }

  /** Without any well-formed line of its tag, a field keeps its sentinel. */
  lemma FieldWithoutLineKeepsSentinel(lines: seq<string>, tag: Tag)
    requires tag != InfoTag
    requires forall j :: 0 <= j < |lines| ==> !WellFormed(lines[j], tag)
    ensures Field(Scan(lines), tag) == Field(Initial, tag)
  {
    var ls := Classified(lines);
    forall j | 0 <= j < |ls|
      ensures !Carries(ls[j], tag)
    {
      ClassifyTagged(lines[j], tag);
    }
    RunWithoutCarrier(ls, tag);
  }

  /**
   * The information block is on exactly when some line is a well-formed
   * `[Информация:` line, and `current_info` is non-empty exactly then.
   */
  lemma InfoBlockIffInfoLine(lines: seq<string>)
    ensures Scan(lines).infoBlock <==> exists k :: 0 <= k < |lines| && WellFormed(lines[k], InfoTag)
    ensures Scan(lines).info != [] <==> Scan(lines).infoBlock
  {
    var ls := Classified(lines);
    forall j | 0 <= j < |ls|
      ensures Carries(ls[j], InfoTag) <==> WellFormed(lines[j], InfoTag)
    {
      ClassifyTagged(lines[j], InfoTag);
    }
    RunInfoBlock(ls);
  }

  /** The contributions of lines, in order, are what their classifications collect. */
  lemma {:induction false} ContributionsCollected(lines: seq<string>)
    ensures Contributions(lines) == CollectedAll(Classified(lines))
    decreases |lines|
  {
    if lines != [] {
      var n := |lines| - 1;
      ContributionsCollected(lines[..n]);
      ContributionOfLine(lines[n]);
      assert Classified(lines)[..n] == Classified(lines[..n]);
    }
  }

  /**
   * `current_info` holds the contributions of the lines from the first
   * well-formed `[Информация:` line on; untagged lines before it are discarded.
   */
  lemma InfoFromFirstInfoLine(lines: seq<string>, k: nat)
    requires k < |lines| && WellFormed(lines[k], InfoTag)
    requires forall j :: 0 <= j < k ==> !WellFormed(lines[j], InfoTag)
    ensures Scan(lines).info == Contributions(lines[k..])
  {
    var ls := Classified(lines);
    forall j | 0 <= j <= k
      ensures Carries(ls[j], InfoTag) <==> WellFormed(lines[j], InfoTag)
    {
      ClassifyTagged(lines[j], InfoTag);
    }
    RunCollectsFromFirstInfo(ls, k);
    ContributionsCollected(lines[k..]);
    ClassifiedSuffix(lines, k);
  }

  /** A skipped line is as if it were not there: the lines after it are processed as before. */
  lemma SkippedLineIsInert(before: seq<string>, raw: string, after: seq<string>)
    requires Skipped(raw)
    ensures Scan(before + [raw] + after) == Scan(before + after)
  {
    ClassifyKinds(raw);
    ClassifiedConcat(before + [raw], after);
    ClassifiedConcat(before, [raw]);
    ClassifiedConcat(before, after);
    assert Classified([raw]) == [Classify(raw)];
    RunSkipsInert(Classified(before), Classify(raw), Classified(after));
  }
}
