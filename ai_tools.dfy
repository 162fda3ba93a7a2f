/**
 * The language-model side of `ai_tools.py`: the prompt a worker's message is
 * wrapped in, the call of the model, and `process_response`, which reads the
 * model's bracketed reply, records the event it announces in the store and
 * returns a summary text.
 */
module AiTools {
  import opened Wrappers
  import opened PyStr
  import opened ReplyParser
  import opened Database

  // ---------------------------------------------------------------------------
  // The prompt

  /**
   * `PROMPT_TEMPLATE` up to its single `{input_text}` field, line by line:
   * the triple-quoted literal opens with a line break, so its first line is empty.
   */
  const PromptHeadLines: seq<string> := [
    "",
    "Анализируй производственные сообщения строго по следующим правилам:",
    "",
    "1. Определи тип события:",
    "- \"Начало простоя\" если оборудование остановлено",
    "- \"Устранение простоя\" если работа восстановлена",
    "- \"Появление ошибки\" если есть проблема для устранения",
    "",
    "2. Извлеки данные по шаблону:",
    "[Тип: тип_события]",
    "[Цех: номер_цеха]",
    "[Агрегат: идентификатор_агрегата]",
    "[Информация: дополнительный_текст] (ТОЛЬКО для ошибок)",
    "",
    "3. Правила извлечения:",
    "- Используй паттерны: \"цех X\", \"станок Y\", \"агрегат Z\"",
    "- Для ошибок извлекай всю доступную информацию после описания проблемы",
    "- Если данные не найдены → \"не указано\"",
    "",
    "Примеры ответов:",
    "[Тип: Появление ошибки]",
    "[Цех: 12]",
    "[Агрегат: ПА-05]",
    "[Информация: Гидравлическая утечка, требуется срочный ремонт]",
    "",
    "[Тип: Начало простоя]",
    "[Цех: 3]",
    "[Агрегат: ЛМ-789]",
    "",
    "Сообщение: "
  ]

  /** `PROMPT_TEMPLATE` up to its `{input_text}` field. */
  const PromptHead: string := Join(PromptHeadLines, LineSeparator)

  /** `PROMPT_TEMPLATE` after its `{input_text}` field. */
  const PromptTail: string := "\nОтвет:\n"

  /** `PROMPT_TEMPLATE.format(input_text=text)`: the template holds no other field, so the text is inserted verbatim. */
  function Prompt(text: string): (p: string)
    ensures |p| == |PromptHead| + |text| + |PromptTail|
    ensures p[..|PromptHead|] == PromptHead
    ensures p[|PromptHead|..|PromptHead| + |text|] == text
    ensures p[|PromptHead| + |text|..] == PromptTail
  {
    PromptHead + text + PromptTail
  }

  /** The worker's message, read back out of a prompt. */
  function MessageOf(p: string): string
    requires |p| >= |PromptHead| + |PromptTail|
  {
    p[|PromptHead|..|p| - |PromptTail|]
  }

  /** The message can be read back out of its prompt, so different messages give different prompts. */
  lemma PromptRoundTrip(text: string)
    ensures MessageOf(Prompt(text)) == text
  {
  }

  lemma PromptInjective(a: string, b: string)
    ensures Prompt(a) == Prompt(b) ==> a == b
  {
    if Prompt(a) == Prompt(b) {
      PromptRoundTrip(a);
      PromptRoundTrip(b);
    }
  }

  // ---------------------------------------------------------------------------
  // Calling the model

  /** The Python exceptions the modelled code can raise out of itself. */
  datatype PyError = KeyError(key: string) | NameError(name: string)

  /** What a Python call ends in: a returned text, or an exception propagated to the caller. */
  datatype Response = Returned(text: string) | Raised(error: PyError)

  /**
   * `analyze_production_message`. The model call is the parameter `complete`,
   * which yields `None` where `evaluate_model` raises. The except branch
   * formats a message naming `model`, a name defined nowhere in the module,
   * so it raises NameError before its `return` is reached.
   */
  function AnalyzeProductionMessage(text: string, complete: string -> Option<string>): (r: Response)
    ensures complete(Prompt(text)).Some? <==> r.Returned?
    ensures r.Returned? ==> r.text == complete(Prompt(text)).value
    ensures r.Raised? ==> r.error == NameError("model")
  {
    match complete(Prompt(text))
    case Some(message) => Returned(message)
    case None => Raised(NameError("model"))
  }

  // ---------------------------------------------------------------------------
  // Acting on the reply

  const ErrorType := "Появление ошибки"
  const StartType := "Начало простоя"
  const EndType := "Устранение простоя"

  /** `s` in double quotes, the form the model sometimes gives the type in. */
  function Quoted(s: string): string {
    [Quote] + s + [Quote]
  }

  /** The test of line 122: the error type, bare or quoted. */
  predicate IsErrorType(kind: string) {
    kind == Quoted(ErrorType) || kind == ErrorType
  }

  /** The test of line 124: the start type, bare or quoted. */
  predicate IsStartType(kind: string) {
    kind == Quoted(StartType) || kind == StartType
  }

  /** The test of line 126, which compares with the bare end type twice: the quoted form does not pass. */
  predicate IsEndType(kind: string) {
    kind == EndType || kind == EndType
  }

  /** What `process_response` does once the loop is over. */
  datatype Action =
    | ReportInfo    // `current_info` is non-empty: return the information summary, record nothing
    | ReportError   // error type without information: `result["info"]` raises KeyError
    | RecordStart   // `save_start_downtime`
    | RecordEnd     // `save_end_downtime`
    | ReportOnly    // any other type: return the event summary, record nothing

  /** The `if current_info` test and the `if`/`elif` chain of lines 119-127. */
  function Decide(st: ParseState): (a: Action)
    ensures a == ReportInfo <==> st.info != []
    ensures a == ReportError <==> st.info == [] && IsErrorType(st.kind)
    ensures a == RecordStart <==> st.info == [] && IsStartType(st.kind)
    ensures a == RecordEnd <==> st.info == [] && IsEndType(st.kind)
  {
    TypesDistinct(st.kind);
    if st.info != [] then ReportInfo
    else if IsErrorType(st.kind) then ReportError
    else if IsStartType(st.kind) then RecordStart
    else if IsEndType(st.kind) then RecordEnd
    else ReportOnly
  }

  /** The three event types are told apart: at most one branch of the chain can apply. */
  lemma TypesDistinct(kind: string)
    ensures !(IsErrorType(kind) && IsStartType(kind))
    ensures !(IsErrorType(kind) && IsEndType(kind))
    ensures !(IsStartType(kind) && IsEndType(kind))
  {
    if |kind| > 1 {
      assert ErrorType[0] != StartType[0] && ErrorType[0] != EndType[0] && StartType[0] != EndType[0];
      assert Quoted(ErrorType)[1] == ErrorType[0] && Quoted(StartType)[1] == StartType[0];
    }
  }

  /** `' '.join(current_info).strip()`. */
  function InfoText(info: seq<string>): string {
    Strip(Join(info, " "), Whitespace)
  }

  /** The f-string of line 121. */
  function InfoSummary(st: ParseState): string {
    "[Тип: " + st.kind + "]\n[Цех: " + st.workshop + "]\n\n[Агрегат: " + st.unit + "]\n[Информация: " + InfoText(st.info) + "]"
  }

  /** The f-string of line 128, with `time` the `%H:%M:%S` reading of the clock. */
  function EventSummary(st: ParseState, time: string): string {
    "[Тип: " + st.kind + "]\n[Цех: " + st.workshop + "]\n[Время: " + time + "]\n[Агрегат: " + st.unit + "]"
  }

  /** What `process_response` hands back to its caller for the parsed state `st`. */
  function Answer(st: ParseState, time: string): (r: Response)
    ensures r.Raised? <==> Decide(st) == ReportError
    ensures r.Raised? ==> r.error == KeyError("info")
    ensures Decide(st) == ReportInfo ==> r == Returned(InfoSummary(st))
    ensures Decide(st) != ReportInfo && Decide(st) != ReportError ==> r == Returned(EventSummary(st, time))
  {
    match Decide(st)
    case ReportInfo => Returned(InfoSummary(st))
    case ReportError => Raised(KeyError("info"))
    case _ => Returned(EventSummary(st, time))
  }

  /**
   * `process_response(model_response)` against the store. `today` and `time`
   * are the date and the `%H:%M:%S` time of the clock reading the call makes.
   */
  method ProcessResponse(store: Store, reply: string, today: string, time: string) returns (r: Response)
    requires store.Valid()
    modifies store
    ensures store.Valid()
    ensures var st := Parse(reply); r == Answer(st, time)
    ensures var st := Parse(reply);
            Decide(st) == RecordStart ==>
              store.downtimes == old(store.downtimes) + [Downtime(old(store.nextDowntimeId), st.workshop, st.unit, Timestamp(today, time), None)]
              && store.nextDowntimeId == old(store.nextDowntimeId) + 1
    ensures var st := Parse(reply);
            Decide(st) == RecordEnd ==>
              store.downtimes == CloseLatest(old(store.downtimes), st.workshop, st.unit, Timestamp(today, time)).rows
              && store.nextDowntimeId == old(store.nextDowntimeId)
    ensures var st := Parse(reply);
            Decide(st) != RecordStart && Decide(st) != RecordEnd ==>
              store.downtimes == old(store.downtimes) && store.nextDowntimeId == old(store.nextDowntimeId)
    ensures store.errors == old(store.errors) && store.nextErrorId == old(store.nextErrorId)
  {
    var st := ParseResponse(reply);
    if st.info != [] {
      var info := InfoText(st.info);
      return Returned("[Тип: " + st.kind + "]\n[Цех: " + st.workshop + "]\n\n[Агрегат: " + st.unit + "]\n[Информация: " + info + "]");
    }
    if IsErrorType(st.kind) {
      // The argument `result["info"]` is evaluated before `save_error_data` is
      // entered, and "info" was only stored on the early-return path above.
      return Raised(KeyError("info"));
    } else if IsStartType(st.kind) {
      store.SaveStartDowntime(st.workshop, st.unit, time, today);
    } else if IsEndType(st.kind) {
      var _ := store.SaveEndDowntime(st.workshop, st.unit, time, today);
    }
    r := Returned("[Тип: " + st.kind + "]\n[Цех: " + st.workshop + "]\n[Время: " + time + "]\n[Агрегат: " + st.unit + "]");
  }

  // ---------------------------------------------------------------------------
  // Properties of whole replies

  /** The undetermined type is none of the three event types. */
  lemma UndeterminedIsNoEvent()
    ensures !IsErrorType(Undetermined) && !IsStartType(Undetermined) && !IsEndType(Undetermined)
  {
    assert Undetermined[0] != ErrorType[0] && Undetermined[0] != StartType[0] && Undetermined[0] != EndType[0];
    assert Undetermined[0] != Quote;
  }

  /**
   * A reply in which no line carries a recognised tag records nothing and
   * answers with the sentinels `не определено` and `н/д`.
   */
  lemma NoTagReplyReportsSentinels(reply: string, time: string)
    requires NoTaggedLine(Split(reply, LineSeparator))
    ensures Decide(Parse(reply)) == ReportOnly
    ensures Answer(Parse(reply), time) ==
            Returned("[Тип: " + Undetermined + "]\n[Цех: " + NotAvailable + "]\n[Время: " + time + "]\n[Агрегат: " + NotAvailable + "]")
  {
    NoTagKeepsInitial(Split(reply, LineSeparator));
    assert Parse(reply) == Initial;
    UndeterminedIsNoEvent();
    assert Decide(Initial) == ReportOnly;
  }

  /**
   * The information summary is given exactly when the reply has a well-formed
   * `[Информация:` line, and then nothing is recorded, whatever the type.
   */
  lemma InfoSummaryIffInfoLine(reply: string)
    ensures Decide(Parse(reply)) == ReportInfo <==> HasLine(Split(reply, LineSeparator), InfoTag)
  {
    InfoBlockIffInfoLine(Split(reply, LineSeparator));
  }

  /**
   * The information of the summary is what the lines from the first
   * `[Информация:` line on contribute, joined by spaces and stripped.
   */
  lemma InfoSummaryText(reply: string, time: string, k: nat)
    requires var lines := Split(reply, LineSeparator);
             k < |lines| && WellFormed(lines[k], InfoTag) &&
             forall j :: 0 <= j < k ==> !WellFormed(lines[j], InfoTag)
    ensures var lines := Split(reply, LineSeparator);
            var st := Parse(reply);
            Answer(st, time) == Returned("[Тип: " + st.kind + "]\n[Цех: " + st.workshop + "]\n\n[Агрегат: " + st.unit
                                       + "]\n[Информация: " + Strip(Join(Contributions(lines[k..]), " "), Whitespace) + "]")
  {
    var lines := Split(reply, LineSeparator);
    assert Parse(reply) == Scan(lines);
    InfoFromFirstInfoLine(lines, k);
    InfoBlockIffInfoLine(lines);
  }

  /**
   * Without information, an error type raises KeyError('info') before
   * `save_error_data` is reached.
   */
  lemma ErrorWithoutInfoRaises(reply: string, time: string)
    requires !HasLine(Split(reply, LineSeparator), InfoTag)
    requires IsErrorType(Parse(reply).kind)
    ensures Answer(Parse(reply), time) == Raised(KeyError("info"))
  {
    InfoBlockIffInfoLine(Split(reply, LineSeparator));
  }

  /** The start type is acted on in both forms, the end type only bare. */
  lemma QuotedForms(st: ParseState)
    requires st.info == []
    ensures st.kind == StartType ==> Decide(st) == RecordStart
    ensures st.kind == Quoted(StartType) ==> Decide(st) == RecordStart
    ensures st.kind == EndType ==> Decide(st) == RecordEnd
    ensures st.kind == Quoted(EndType) ==> Decide(st) == ReportOnly
  {
    if st.kind == Quoted(EndType) {
      assert Quoted(EndType)[0] == Quote && ErrorType[0] != Quote && StartType[0] != Quote;
      assert Quoted(EndType)[1] == EndType[0] && Quoted(ErrorType)[1] == ErrorType[0] && Quoted(StartType)[1] == StartType[0];
    }
  }
}
