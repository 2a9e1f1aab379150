/** Machine translation of a new entry: `transByApi` tries the providers in a fixed order until
    one answers, and `transI18n` translates the source-language record into every other
    record. A provider call is the parameter `api`, which either throws or returns a result
    list (which may be missing). */
module Translate {
  import opened Wrappers
  import opened Values
  import opened Resolve

  datatype Provider = Google | Baidu | Youdao

  /** `const plans = [google, baidu, youdao]` */
  const Plans: seq<Provider> := [Google, Baidu, Youdao]

  /** What `await plan.translate({ text, from, to })` does: throws `err`, or resolves to a
      response whose `result` list may be absent. */
  datatype ApiOutcome = Threw(err: string) | Returned(result: Option<seq<string>>)

  type Api = (Provider, Value, string, string) -> ApiOutcome

  /** The index of the first provider that does not throw, `|plans|` when all throw. */
  function FirstAnswering(plans: seq<Provider>, text: Value, from: string, to: string, api: Api): (k: nat)
    ensures k <= |plans|
    ensures forall j :: 0 <= j < k ==> api(plans[j], text, from, to).Threw?
    ensures k < |plans| ==> api(plans[k], text, from, to).Returned?
    decreases |plans|
  {
    if plans == [] || api(plans[0], text, from, to).Returned? then 0
    else 1 + FirstAnswering(plans[1..], text, from, to, api)
  }

  /** The errors thrown by the first `k` providers, in order. */
  function ErrorsOf(plans: seq<Provider>, k: nat, text: Value, from: string, to: string, api: Api): (errors: seq<string>)
    requires k <= |plans| && forall j :: 0 <= j < k ==> api(plans[j], text, from, to).Threw?
    ensures |errors| == k && forall j :: 0 <= j < k ==> errors[j] == api(plans[j], text, from, to).err
  {
    if k == 0 then [] else ErrorsOf(plans, k - 1, text, from, to, api) + [api(plans[k - 1], text, from, to).err]
  }

  /** `res && res.result && res.result[0]` as a string, when it is truthy. */
  function Answer(o: ApiOutcome): Option<string> {
    if o.Returned? && o.result.Some? && |o.result.value| > 0 && o.result.value[0] != "" then Some(o.result.value[0])
    else None
  }

  /** What `transByApi` resolves to, or the error list it throws. */
  function TransByApiSpec(text: Value, from: string, to: string, api: Api): Result<string, seq<string>> {
    var k := FirstAnswering(Plans, text, from, to, api);
    var errors := ErrorsOf(Plans, k, text, from, to, api);
    if k < |Plans| && Answer(api(Plans[k], text, from, to)).Some? then Ok(Answer(api(Plans[k], text, from, to)).value)
    else Err(errors)
  }

  /** `transByApi({ text, from, to })`. */
  method TransByApi(text: Value, from: string, to: string, api: Api) returns (r: Result<string, seq<string>>)
    ensures r == TransByApiSpec(text, from, to, api)
  {
    var plans := Plans;
    var errors: seq<string> := [];
    var res: Option<ApiOutcome> := None;
    var i := 0;
    while i < |plans|
      invariant 0 <= i <= |plans|
      invariant forall j :: 0 <= j < i ==> api(plans[j], text, from, to).Threw?
      invariant errors == ErrorsOf(plans, i, text, from, to, api)
      invariant res.None?
    {
      var outcome := api(plans[i], text, from, to);
      if outcome.Returned? {
        res := Some(outcome);
        break;
      }
      errors := errors + [outcome.err];
      i := i + 1;
    }
    assert i == FirstAnswering(Plans, text, from, to, api) by {
      FirstAnsweringUnique(Plans, i, text, from, to, api);
    }
    var result := if res.Some? then Answer(res.value) else None;
    if result.None? {
      return Err(errors);
    }
    return Ok(result.value);
  }

  /** The first answering provider is determined by which providers throw. */
  lemma {:induction false} FirstAnsweringUnique(plans: seq<Provider>, i: nat, text: Value, from: string, to: string, api: Api)
    requires i <= |plans|
    requires forall j :: 0 <= j < i ==> api(plans[j], text, from, to).Threw?
    requires i < |plans| ==> api(plans[i], text, from, to).Returned?
    ensures FirstAnswering(plans, text, from, to, api) == i
    decreases i
  {
    if i > 0 {
      assert api(plans[0], text, from, to).Threw?;
      FirstAnsweringUnique(plans[1..], i - 1, text, from, to, api);
    }
  }

  // ---------------------------------------------------------------------------------------
  // transByApi properties

  /** The providers run in the order google, baidu, youdao, and the first one that does not throw
      decides, even when its result is empty: later providers are never consulted. */
  lemma FirstAnswerDecides(text: Value, from: string, to: string, api: Api, other: Api, k: nat)
    requires k < |Plans|
    requires forall j :: 0 <= j < k ==> other(Plans[j], text, from, to) == api(Plans[j], text, from, to)
    requires forall j :: 0 <= j < k ==> api(Plans[j], text, from, to).Threw?
    requires api(Plans[k], text, from, to).Returned? && other(Plans[k], text, from, to) == api(Plans[k], text, from, to)
    ensures TransByApiSpec(text, from, to, api) == TransByApiSpec(text, from, to, other)
  {
    FirstAnsweringUnique(Plans, k, text, from, to, api);
    FirstAnsweringUnique(Plans, k, text, from, to, other);
    var e1 := ErrorsOf(Plans, k, text, from, to, api);
    var e2 := ErrorsOf(Plans, k, text, from, to, other);
    assert e1 == e2;
  }

  /** The call throws exactly when the deciding provider's first result is missing or empty, or
      every provider threw; the error list holds the errors of the providers before it, in order. */
  lemma ThrowsErrors(text: Value, from: string, to: string, api: Api)
    ensures var k := FirstAnswering(Plans, text, from, to, api);
            var r := TransByApiSpec(text, from, to, api);
            (r.Err? <==> k == |Plans| || Answer(api(Plans[k], text, from, to)).None?)
            && (r.Err? ==> |r.error| == k && forall j :: 0 <= j < k ==> r.error[j] == api(Plans[j], text, from, to).err)
            && (r.Ok? ==> r.value != "")
  {
  }

  // ---------------------------------------------------------------------------------------
  // transI18n

  /** Why `transI18n` rejects: no record is in the source language (so `mainTrans.text` throws),
      or a translation threw its error list. */
  datatype TransError = NoSourceRecord | TranslationFailed(errors: seq<string>)

  /** `transData.find(item => item.lng === sourceLocale)`, as an index. */
  function MainIndex(records: seq<TransRecord>, sourceLocale: string): (m: Option<nat>)
    ensures m.None? <==> forall i :: 0 <= i < |records| ==> records[i].lng != sourceLocale
    ensures m.Some? ==> m.value < |records| && records[m.value].lng == sourceLocale
                        && forall i :: 0 <= i < m.value ==> records[i].lng != sourceLocale
    decreases |records|
  {
    if records == [] then None
    else if records[0].lng == sourceLocale then Some(0)
    else
      var m := MainIndex(records[1..], sourceLocale);
      assert forall i :: 1 <= i < |records| ==> records[i] == records[1..][i - 1];
      if m.None? then None else Some(m.value + 1)
  }

  /** The outcome of `transByApi` for the main record's text, by target language. */
  type Translation = string -> Result<string, seq<string>>

  /** One task of `transI18n`: the main record as it is, any other with its text replaced by the
      translation `tr` gives for its language. */
  function TransOne(records: seq<TransRecord>, i: nat, main: Option<nat>, tr: Translation): Result<TransRecord, TransError>
    requires i < |records|
  {
    if main == Some(i) then Ok(records[i])
    else if main.None? then Err(NoSourceRecord)
    else match tr(records[i].lng)
      case Ok(t) => Ok(records[i].(text := Str(t)))   // `|| transItem.text` never applies: the result is truthy
      case Err(es) => Err(TranslationFailed(es))
  }

  /** The tasks from index `i` on, joined as `Promise.all` joins them: every record, or the first
      failure. */
  function TransFrom(records: seq<TransRecord>, i: nat, main: Option<nat>, tr: Translation): Result<seq<TransRecord>, TransError>
    requires i <= |records|
    decreases |records| - i
  {
    if i == |records| then Ok([])
    else match TransOne(records, i, main, tr)
      case Err(e) => Err(e)
      case Ok(r) =>
        match TransFrom(records, i + 1, main, tr)
        case Err(e) => Err(e)
        case Ok(rest) => Ok([r] + rest)
  }

  /** `transByApi({ text: mainTrans.text, from: sourceLocale, to })` for every target `to`. */
  function MainTranslation(records: seq<TransRecord>, main: Option<nat>, sourceLocale: string, api: Api): Translation
    requires main.Some? ==> main.value < |records|
  {
    if main.None? then (to: string) => Err([])
    else
      var text := records[main.value].text;
      (to: string) => TransByApiSpec(text, sourceLocale, to, api)
  }

  /** `transI18n(transData)` with `Config.sourceLocale` passed in. */
  function TransI18n(records: seq<TransRecord>, sourceLocale: string, api: Api): Result<seq<TransRecord>, TransError> {
    var m := MainIndex(records, sourceLocale);
    TransFrom(records, 0, m, MainTranslation(records, m, sourceLocale, api))
  }

  /** What a successful task gives for record `r` at index `j`: its language, file and key
      fields kept; its text kept when it is the main record, else the translation into its
      language. */
  predicate TaskOk(out: TransRecord, r: TransRecord, j: nat, main: Option<nat>, tr: Translation) {
    out.(text := r.text) == r
    && (main == Some(j) ==> out == r)
    && (main != Some(j) ==> main.Some? && tr(r.lng).Ok? && out.text == Str(tr(r.lng).value))
  }

  /** On success every record keeps its place and its language, file and key fields; the main
      record keeps its text, and every other record gets the translation into its own language. */
  lemma {:induction false} TransFromOk(records: seq<TransRecord>, i: nat, main: Option<nat>, tr: Translation)
    requires i <= |records|
    requires TransFrom(records, i, main, tr).Ok?
    ensures var out := TransFrom(records, i, main, tr).value;
            |out| == |records| - i
            && forall k :: 0 <= k < |out| ==> TaskOk(out[k], records[i + k], i + k, main, tr)
    decreases |records| - i
  {
    if i < |records| {
      TransFromOk(records, i + 1, main, tr);
      var r := TransOne(records, i, main, tr).value;
      var rest := TransFrom(records, i + 1, main, tr).value;
      var out := TransFrom(records, i, main, tr).value;
      assert out == [r] + rest;
      assert TaskOk(r, records[i], i, main, tr);
      forall k | 0 <= k < |out| ensures TaskOk(out[k], records[i + k], i + k, main, tr) {
        if k > 0 {
          assert out[k] == rest[k - 1];
          assert records[i + k] == records[(i + 1) + (k - 1)];
        }
      }
    }
  }

  /** One failing task fails the batch from any earlier index on. */
  lemma {:induction false} TaskFailureFailsBatch(records: seq<TransRecord>, i: nat, j: nat, main: Option<nat>, tr: Translation)
    requires i <= j < |records|
    requires TransOne(records, j, main, tr).Err?
    ensures TransFrom(records, i, main, tr).Err?
    decreases j - i
  {
    if i < j {
      TaskFailureFailsBatch(records, i + 1, j, main, tr);
    }
  }

  /** A failed batch has a failing task. */
  lemma {:induction false} BatchFailureHasTask(records: seq<TransRecord>, i: nat, main: Option<nat>, tr: Translation)
    requires i <= |records|
    requires TransFrom(records, i, main, tr).Err?
    ensures exists j :: i <= j < |records| && TransOne(records, j, main, tr).Err?
    decreases |records| - i
  {
    if TransOne(records, i, main, tr).Ok? {
      BatchFailureHasTask(records, i + 1, main, tr);
    }
  }

  /** The batch fails exactly when some task fails. */
  lemma TransFromErr(records: seq<TransRecord>, i: nat, main: Option<nat>, tr: Translation)
    requires i <= |records|
    ensures TransFrom(records, i, main, tr).Err? <==> exists j :: i <= j < |records| && TransOne(records, j, main, tr).Err?
  {
    if TransFrom(records, i, main, tr).Err? {
      BatchFailureHasTask(records, i, main, tr);
    }
    forall j | i <= j < |records| && TransOne(records, j, main, tr).Err?
      ensures TransFrom(records, i, main, tr).Err?
    {
      TaskFailureFailsBatch(records, i, j, main, tr);
    }
  }

  /** Without a source-language record, every non-empty batch fails. */
  lemma NoSourceRecordFails(records: seq<TransRecord>, sourceLocale: string, api: Api)
    requires MainIndex(records, sourceLocale).None?
    ensures TransI18n(records, sourceLocale, api).Err? <==> records != []
  {
    var m := MainIndex(records, sourceLocale);
    if records != [] {
      TaskFailureFailsBatch(records, 0, 0, m, MainTranslation(records, m, sourceLocale, api));
    }
  }

  /** With a source-language record, the batch fails exactly when `transByApi` throws for the
      language of some other record. */
  lemma TransI18nFails(records: seq<TransRecord>, sourceLocale: string, api: Api)
    requires MainIndex(records, sourceLocale).Some?
    ensures var m := MainIndex(records, sourceLocale).value;
            TransI18n(records, sourceLocale, api).Err?
            <==> exists j :: 0 <= j < |records| && j != m && TransByApiSpec(records[m].text, sourceLocale, records[j].lng, api).Err?
  {
    var m := MainIndex(records, sourceLocale);
    var tr := MainTranslation(records, m, sourceLocale, api);
    TransFromErr(records, 0, m, tr);
    forall j | 0 <= j < |records|
      ensures TransOne(records, j, m, tr).Err? <==> j != m.value && tr(records[j].lng).Err?
    {
    }
    MainTranslationAt(records, m.value, sourceLocale, api);
  }

  /** `MainTranslation` is `transByApi` on the main record's text. */
  lemma MainTranslationAt(records: seq<TransRecord>, m: nat, sourceLocale: string, api: Api)
    requires m < |records|
    ensures forall to :: MainTranslation(records, Some(m), sourceLocale, api)(to) == TransByApiSpec(records[m].text, sourceLocale, to, api)
  {
  }

  /** A successful batch with main record `m`, from the first index on. */
  lemma TransFromAll(records: seq<TransRecord>, m: nat, tr: Translation)
    requires m < |records| && TransFrom(records, 0, Some(m), tr).Ok?
    ensures var out := TransFrom(records, 0, Some(m), tr).value;
            |out| == |records| && out[m] == records[m]
            && forall j :: 0 <= j < |records| && j != m ==>
                 tr(records[j].lng).Ok? && out[j] == records[j].(text := Str(tr(records[j].lng).value))
  {
    TransFromOk(records, 0, Some(m), tr);
    var out := TransFrom(records, 0, Some(m), tr).value;
    assert TaskOk(out[m], records[m], m, Some(m), tr);
    forall j | 0 <= j < |records| && j != m
      ensures tr(records[j].lng).Ok? && out[j] == records[j].(text := Str(tr(records[j].lng).value))
    {
      assert TaskOk(out[j], records[j], j, Some(m), tr);
    }
  }

  /** With a source-language record, a successful batch keeps the main record and gives every
      other record the translation of the main record's text into its language. */
  lemma TransI18nResult(records: seq<TransRecord>, sourceLocale: string, api: Api)
    requires MainIndex(records, sourceLocale).Some? && TransI18n(records, sourceLocale, api).Ok?
    ensures var m := MainIndex(records, sourceLocale).value;
            var out := TransI18n(records, sourceLocale, api).value;
            |out| == |records| && out[m] == records[m]
            && forall j :: 0 <= j < |records| && j != m ==>
                 TransByApiSpec(records[m].text, sourceLocale, records[j].lng, api).Ok?
                 && out[j] == records[j].(text := Str(TransByApiSpec(records[m].text, sourceLocale, records[j].lng, api).value))
  {
    var m := MainIndex(records, sourceLocale).value;
    var tr := MainTranslation(records, Some(m), sourceLocale, api);
    assert TransI18n(records, sourceLocale, api) == TransFrom(records, 0, Some(m), tr);
    TransFromAll(records, m, tr);
    MainTranslationAt(records, m, sourceLocale, api);
  }
}
