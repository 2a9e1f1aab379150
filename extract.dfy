/** The extract command (`core/commands/extract.ts`): translate the selected text into a key
    proposal, ask for the key, qualify a bare key in the DIR layout, check for a value it
    would overwrite, put the key's `$t` call over the selection, and, when the check passes,
    translate the text into every language and write all records in ADD mode. The user's
    answers, the provider calls and the random draws are parameters. */
module Extract {
  import opened Wrappers
  import opened Strings
  import opened Values
  import opened Utils
  import opened Locales
  import opened Cache
  import opened Resolve
  import opened Collision
  import opened Translate
  import opened Persist
  import opened Editor

  // ---------------------------------------------------------------------------------------
  // Key spelling

  /** `toCamelCase`: every `-` followed by a `\w` character becomes that character upper-cased. */
  function ToCamelCase(s: string): (r: string)
    ensures |r| <= |s|
    decreases |s|
  {
    if s == [] then ""
    else if |s| >= 2 && s[0] == '-' && IsWordChar(s[1]) then [UpperChar(s[1])] + ToCamelCase(s[2..])
    else [s[0]] + ToCamelCase(s[1..])
  }

  /** Text without a `-` is left as it is. */
  lemma {:induction false} CamelWithoutDash(s: string)
    requires '-' !in s
    ensures ToCamelCase(s) == s
    decreases |s|
  {
    if s != [] {
      assert '-' !in s[1..] by {
        forall i | 0 <= i < |s[1..]| ensures s[1..][i] != '-' { assert s[1..][i] == s[i + 1]; }
      }
      CamelWithoutDash(s[1..]);
      assert s == [s[0]] + s[1..];
    }
  }

  /** The first `-` before a `\w` character is dropped and that character upper-cased; the
      text before it is kept and the rest is converted the same way. */
  lemma {:induction false} CamelFirstDash(p: string, c: char, q: string)
    requires '-' !in p && IsWordChar(c)
    ensures ToCamelCase(p + ['-', c] + q) == p + [UpperChar(c)] + ToCamelCase(q)
    decreases |p|
  {
    var s := p + ['-', c] + q;
    if p == [] {
      assert s[2..] == q;
    } else {
      assert '-' !in p[1..] by {
        forall i | 0 <= i < |p[1..]| ensures p[1..][i] != '-' { assert p[1..][i] == p[i + 1]; }
      }
      CamelFirstDash(p[1..], c, q);
      assert s[0] == p[0] && s[1..] == p[1..] + ['-', c] + q;
      assert p == [p[0]] + p[1..];
    }
  }

  /** `toCamelCase` undoes `camelToKabeb` on names without a `-`. */
  lemma {:induction false} KebabRoundTrip(s: string)
    requires '-' !in s
    ensures ToCamelCase(CamelToKebab(s)) == s
    decreases |s|
  {
    if s != [] {
      assert '-' !in s[1..] by {
        forall i | 0 <= i < |s[1..]| ensures s[1..][i] != '-' { assert s[1..][i] == s[i + 1]; }
      }
      KebabRoundTrip(s[1..]);
      var k := CamelToKebab(s);
      if IsAsciiUpper(s[0]) {
        assert k == ['-', LowerChar(s[0])] + CamelToKebab(s[1..]);
        assert k[2..] == CamelToKebab(s[1..]);
      } else {
        assert k == [LowerChar(s[0])] + CamelToKebab(s[1..]);
        assert k[0] == s[0] && k[1..] == CamelToKebab(s[1..]);
      }
      assert s == [s[0]] + s[1..];
    }
  }

  /** The length of the run of `\s` characters at the head of `s`. */
  function SpaceRun(s: string): (k: nat)
    ensures k <= |s| && AllSpace(s[..k]) && (k < |s| ==> !IsSpace(s[k]))
    decreases |s|
  {
    if s == [] || !IsSpace(s[0]) then 0
    else
      var k := SpaceRun(s[1..]);
      assert s[..k + 1] == [s[0]] + s[1..][..k];
      k + 1
  }

  /** `s.replace(/\s+[a-z]?/g, m => m.trim().toUpperCase())`: every run of white space is
      dropped, and a lower-case ASCII letter right after it is upper-cased. */
  function JoinWords(s: string): (r: string)
    ensures forall i :: 0 <= i < |r| ==> !IsSpace(r[i])
    decreases |s|
  {
    if s == [] then ""
    else if IsSpace(s[0]) then
      var k := SpaceRun(s);
      var rest := s[k..];
      if rest != [] && IsAsciiLower(rest[0]) then [UpperChar(rest[0])] + JoinWords(rest[1..])
      else JoinWords(rest)
    else [s[0]] + JoinWords(s[1..])
  }

  /** A string without white space is left as it is. */
  lemma {:induction false} JoinWordsNoSpace(s: string)
    requires forall i :: 0 <= i < |s| ==> !IsSpace(s[i])
    ensures JoinWords(s) == s
    decreases |s|
  {
    if s != [] {
      JoinWordsNoSpace(s[1..]);
      assert s == [s[0]] + s[1..];
    }
  }

  /** The greedy `\s+` takes the whole run `ws` and stops before the first non-space. */
  lemma {:induction false} SpaceRunOf(ws: string, q: string)
    requires AllSpace(ws) && (q == [] || !IsSpace(q[0]))
    ensures SpaceRun(ws + q) == |ws|
    decreases |ws|
  {
    if ws != [] {
      SpaceRunOf(ws[1..], q);
      assert (ws + q)[1..] == ws[1..] + q;
    } else {
      assert ws + q == q;
    }
  }

  /** A lower-case letter right after a run of white space is upper-cased and the run dropped;
      the text before the run is kept as it is. */
  lemma {:induction false} JoinWordsCapitalises(p: string, ws: string, c: char, q: string)
    requires forall i :: 0 <= i < |p| ==> !IsSpace(p[i])
    requires |ws| > 0 && AllSpace(ws) && IsAsciiLower(c)
    ensures JoinWords(p + ws + [c] + q) == p + [UpperChar(c)] + JoinWords(q)
    decreases |p|
  {
    var s := p + ws + [c] + q;
    if p == [] {
      assert s == ws + ([c] + q);
      SpaceRunOf(ws, [c] + q);
      assert s[|ws|..] == [c] + q;
      assert ([c] + q)[1..] == q;
    } else {
      JoinWordsCapitalises(p[1..], ws, c, q);
      assert s[0] == p[0] && s[1..] == p[1..] + ws + [c] + q;
      assert p == [p[0]] + p[1..];
    }
  }

  /** A run of white space followed by anything but a lower-case letter is just dropped. */
  lemma {:induction false} JoinWordsDropsRun(p: string, ws: string, q: string)
    requires forall i :: 0 <= i < |p| ==> !IsSpace(p[i])
    requires |ws| > 0 && AllSpace(ws)
    requires q == [] || (!IsSpace(q[0]) && !IsAsciiLower(q[0]))
    ensures JoinWords(p + ws + q) == p + JoinWords(q)
    decreases |p|
  {
    var s := p + ws + q;
    if p == [] {
      assert s == ws + q;
      SpaceRunOf(ws, q);
      assert s[|ws|..] == q;
    } else {
      JoinWordsDropsRun(p[1..], ws, q);
      assert s[0] == p[0] && s[1..] == p[1..] + ws + q;
      assert p == [p[0]] + p[1..];
    }
  }

  /** The camel-cased translation the key proposal starts from. */
  function Camelise(t: string): string {
    JoinWords(LowerStr(t))
  }

  /** The index of the first character that is not an ASCII letter, or -1. */
  function FirstNonLetter(s: string): (k: int)
    ensures -1 <= k < |s|
    ensures k >= 0 ==> !IsAsciiLetter(s[k]) && forall j :: 0 <= j < k ==> IsAsciiLetter(s[j])
    ensures k == -1 ==> forall j :: 0 <= j < |s| ==> IsAsciiLetter(s[j])
    decreases |s|
  {
    if s == [] then -1
    else if !IsAsciiLetter(s[0]) then 0
    else
      var k := FirstNonLetter(s[1..]);
      assert forall j :: 1 <= j < |s| ==> s[j] == s[1..][j - 1];
      if k == -1 then -1 else k + 1
  }

  /** The recursive step of `DropFirstNonLetter`: a leading letter is kept in front of what
      the tail loses. */
  lemma DropCons(s: string, d: string)
    requires s != [] && IsAsciiLetter(s[0])
    requires FirstNonLetter(s[1..]) == -1 ==> d == s[1..]
    requires FirstNonLetter(s[1..]) >= 0 ==> d == s[1..][..FirstNonLetter(s[1..])] + s[1..][FirstNonLetter(s[1..]) + 1..]
    ensures FirstNonLetter(s) == -1 ==> [s[0]] + d == s
    ensures FirstNonLetter(s) >= 0 ==> [s[0]] + d == s[..FirstNonLetter(s)] + s[FirstNonLetter(s) + 1..]
  {
    FirstNonLetterCons(s);
    var k := FirstNonLetter(s[1..]);
    if k >= 0 {
      SliceCons(s, k);
    } else {
      assert s == [s[0]] + s[1..];
    }
  }

  lemma FirstNonLetterCons(s: string)
    requires s != [] && IsAsciiLetter(s[0])
    ensures FirstNonLetter(s) == if FirstNonLetter(s[1..]) == -1 then -1 else FirstNonLetter(s[1..]) + 1
  {
  }

  /** Dropping the character after a kept first one. */
  lemma SliceCons(s: string, k: nat)
    requires k + 1 < |s|
    ensures s[..k + 1] + s[k + 2..] == [s[0]] + (s[1..][..k] + s[1..][k + 1..])
  {
    assert s[..k + 1] == [s[0]] + s[1..][..k];
  }

  /** `s.replace(/[^a-zA-Z]/, '')`: the first character that is not an ASCII letter removed. */
  function DropFirstNonLetter(s: string): (r: string)
    ensures FirstNonLetter(s) == -1 ==> r == s
    ensures FirstNonLetter(s) >= 0 ==> r == s[..FirstNonLetter(s)] + s[FirstNonLetter(s) + 1..]
    decreases |s|
  {
    if s == [] then ""
    else if !IsAsciiLetter(s[0]) then s[1..]
    else
      var d := DropFirstNonLetter(s[1..]);
      DropCons(s, d);
      [s[0]] + d
  }

  /** `defaultKey`: `type.` and the camel-cased translation with its first non-letter dropped. */
  function DefaultKey(t: string): (key: string)
    ensures |key| >= 5 && key[..5] == "type."
  {
    "type." + DropFirstNonLetter(Camelise(t))
  }

  /** In the DIR layout a key without a dot goes under `common`. */
  function QualifyKey(item: I18nItem, key: string): (k: string)
    ensures item.structureType == Dir ==> '.' in k && (('.' in key) ==> k == key)
    ensures item.structureType == Dir && '.' !in key ==> k == "common." + key
    ensures item.structureType == File ==> k == key
  {
    if item.structureType == Dir && '.' !in key then
      assert ("common." + key)[6] == '.';
      "common." + key
    else key
  }

  // ---------------------------------------------------------------------------------------
  // The command

  /** The two answers the command asks for: the key (`None` when the input box is dismissed),
      proposed with the default key, and the overwrite confirmation. */
  datatype Prompts = Prompts(ask: string -> Option<string>, confirm: (string, Value) -> bool)

  /** What the writes need: a draw of `Math.random()` for every record, the file texts and the
      file system. */
  datatype Writer = Writer(draw: nat -> real, disk: map<string, string>, fs: Fs)

  ghost predicate ValidDraws(w: Writer) {
    forall i :: 0.0 <= w.draw(i) < 1.0
  }

  /** How `onExtract` ends. */
  datatype ExtractEnd =
    | KeyTranslationFailed(errors: seq<string>)   // `transByApi(text → '')` threw
    | Cancelled                                   // no key entered
    | CheckFailed                                 // `overrideCheck` threw
    | Declined                                    // the user refused to overwrite
    | NoMainRecord                                // `mainTrans` is undefined
    | TransI18nFailed(error: TransError)          // `transI18n` threw
    | WritesIssued(outcomes: seq<WriteOutcome>)   // `writeI18n` was called, not awaited

  /** The text put over the selection, if any, and how the command ended. */
  datatype ExtractResult = ExtractResult(edit: Option<string>, end: ExtractEnd)

  /** The records `transI18n` receives: the ADD-mode records with the main one's text set to
      the selected text. */
  function WithSourceText(records: seq<TransRecord>, m: nat, text: string): seq<TransRecord>
    requires m < |records|
  {
    records[m := records[m].(text := Str(text))]
  }

  function DrawsFor(w: Writer, n: nat): (rs: seq<real>)
    requires ValidDraws(w)
    ensures |rs| == n && Draws(rs)
  {
    seq(n, i requires 0 <= i < n => w.draw(i))
  }

  /** From `getI18n(key, ADD)` to the call of `writeI18n(transData, ADD)`. */
  function Submit(files: map<string, Value>, root: Root, common: Option<Root>, env: Env, sourceLocale: string, text: string,
                  key: string, api: Api, w: Writer): (ExtractEnd, map<string, Value>)
    requires ValidDraws(w)
  {
    var res := I18nOf(files, root, common, key, Add, env);
    match MainIndex(res.records, sourceLocale)
    case None => (NoMainRecord, res.files)
    case Some(m) =>
      match TransI18n(WithSourceText(res.records, m, text), sourceLocale, api)
      case Err(e) => (TransI18nFailed(e), res.files)
      case Ok(out) =>
        var run := WriteFrom(res.files, out, Add, DrawsFor(w, |out|), env.load, w.disk, w.fs);
        (WritesIssued(run.outcomes), run.files)
  }

  /** How the key prompt ends: the key translation threw, no key was entered, or the key as
      qualified for the layout. */
  datatype KeyChoice = KeyTransFailed(errors: seq<string>) | NoKey | Key(key: string)

  /** From `transByApi(text → '')` to the qualified key. */
  function ChooseKey(root: Root, sourceLocale: string, text: string, api: Api, ui: Prompts): KeyChoice {
    match TransByApiSpec(Str(text), sourceLocale, "", api)
    case Err(es) => KeyTransFailed(es)
    case Ok(t) =>
      // `|| text` never applies: a resolved translation is a non-empty string
      var answer := ui.ask(DefaultKey(t));
      if answer.None? || answer.value == "" then NoKey else Key(QualifyKey(root.item, answer.value))
  }

  /** From `overrideCheck(key)` on. */
  function AfterKey(files: map<string, Value>, root: Root, common: Option<Root>, env: Env, sourceLocale: string,
                    text: string, template: string, key: string, api: Api, ui: Prompts, w: Writer): (ExtractResult, map<string, Value>)
    requires ValidDraws(w)
  {
    var v := OverrideCheckSpec(key, CheckLookup(root, common, env), ui.confirm, files);
    match v.result
    case Err(_) => (ExtractResult(None, CheckFailed), v.files)
    case Ok(isOverride) =>
      if !isOverride then (ExtractResult(Some(KeyReplace(template, key)), Declined), v.files)
      else
        var s := Submit(v.files, root, common, env, sourceLocale, text, key, api, w);
        (ExtractResult(Some(KeyReplace(template, key)), s.0), s.1)
  }

  /** `onExtract({ filepath, text, keyReplace })` with `Config.sourceLocale` passed in and the
      template `keyReplace` closes over. */
  function OnExtractSpec(files: map<string, Value>, root: Root, common: Option<Root>, env: Env, sourceLocale: string,
                         text: string, template: string, api: Api, ui: Prompts, w: Writer): (ExtractResult, map<string, Value>)
    requires ValidDraws(w)
  {
    match ChooseKey(root, sourceLocale, text, api, ui)
    case KeyTransFailed(es) => (ExtractResult(None, KeyTranslationFailed(es)), files)
    case NoKey => (ExtractResult(None, Cancelled), files)
    case Key(key) => AfterKey(files, root, common, env, sourceLocale, text, template, key, api, ui, w)
  }

  /** The part of `onExtract` after the check passed. */
  method SubmitKey(cache: FileCache, root: Root, common: Option<Root>, env: Env, sourceLocale: string, text: string,
                   key: string, api: Api, w: Writer) returns (end: ExtractEnd)
    requires ValidDraws(w)
    modifies cache
    ensures (end, cache.files) == Submit(old(cache.files), root, common, env, sourceLocale, text, key, api, w)
  {
    var transData := GetI18n(cache, root, common, key, Add, env);
    var mainTrans := MainIndex(transData, sourceLocale);
    if mainTrans.None? {
      return NoMainRecord;          // `mainTrans.selectWriteI18nPath` throws
    }
    transData := WithSourceText(transData, mainTrans.value, text);
    var translated := TransI18n(transData, sourceLocale, api);
    if translated.Err? {
      return TransI18nFailed(translated.error);
    }
    var outcomes, _ := WriteI18n(cache, translated.value, Add, DrawsFor(w, |translated.value|), env.load, w.disk, w.fs);
    return WritesIssued(outcomes);
  }

  /** From `transByApi(text → '')` to the qualified key. */
  method PromptKey(root: Root, sourceLocale: string, text: string, api: Api, ui: Prompts) returns (c: KeyChoice)
    ensures c == ChooseKey(root, sourceLocale, text, api, ui)
  {
    var transParseKey := TransByApi(Str(text), sourceLocale, "", api);
    if transParseKey.Err? {
      return KeyTransFailed(transParseKey.error);
    }
    var defaultKey := DefaultKey(transParseKey.value);
    var key := ui.ask(defaultKey);
    if key.None? || key.value == "" {
      return NoKey;
    }
    return Key(QualifyKey(root.item, key.value));
  }

  /** From `overrideCheck(key)` on. */
  method CheckAndSubmit(cache: FileCache, root: Root, common: Option<Root>, env: Env, sourceLocale: string,
                        text: string, template: string, key: string, api: Api, ui: Prompts, w: Writer) returns (r: ExtractResult)
    requires ValidDraws(w)
    modifies cache
    ensures (r, cache.files) == AfterKey(old(cache.files), root, common, env, sourceLocale, text, template, key, api, ui, w)
  {
    var isOverride := OverrideCheck(cache, root, common, env, key, ui.confirm);
    if isOverride.Err? {
      return ExtractResult(None, CheckFailed);
    }
    var edit := Some(KeyReplace(template, key));
    if !isOverride.value {
      return ExtractResult(edit, Declined);
    }
    var end := SubmitKey(cache, root, common, env, sourceLocale, text, key, api, w);
    return ExtractResult(edit, end);
  }

  method OnExtract(cache: FileCache, root: Root, common: Option<Root>, env: Env, sourceLocale: string,
                   text: string, template: string, api: Api, ui: Prompts, w: Writer) returns (r: ExtractResult)
    requires ValidDraws(w)
    modifies cache
    ensures (r, cache.files) == OnExtractSpec(old(cache.files), root, common, env, sourceLocale, text, template, api, ui, w)
  {
    var key := PromptKey(root, sourceLocale, text, api, ui);
    match key
    case KeyTransFailed(es) => return ExtractResult(None, KeyTranslationFailed(es));
    case NoKey => return ExtractResult(None, Cancelled);
    case Key(k) => r := CheckAndSubmit(cache, root, common, env, sourceLocale, text, template, k, api, ui, w);
  }

  // ---------------------------------------------------------------------------------------
  // Properties of the command

  /** After the key: a check that throws leaves the selection alone, and the cache as the
      check's lookups left it. */
  lemma AfterKeyCheckThrew(files: map<string, Value>, root: Root, common: Option<Root>, env: Env, sourceLocale: string,
                           text: string, template: string, key: string, api: Api, ui: Prompts, w: Writer)
    requires ValidDraws(w)
    requires OverrideCheckSpec(key, CheckLookup(root, common, env), ui.confirm, files).result.Err?
    ensures AfterKey(files, root, common, env, sourceLocale, text, template, key, api, ui, w)
            == (ExtractResult(None, CheckFailed), OverrideCheckSpec(key, CheckLookup(root, common, env), ui.confirm, files).files)
  {
  }

  /** After the key: a refused overwrite still replaces the selection, and leaves the cache as
      the check's lookups left it. */
  lemma AfterKeyDeclined(files: map<string, Value>, root: Root, common: Option<Root>, env: Env, sourceLocale: string,
                         text: string, template: string, key: string, api: Api, ui: Prompts, w: Writer)
    requires ValidDraws(w)
    requires OverrideCheckSpec(key, CheckLookup(root, common, env), ui.confirm, files).result == Ok(false)
    ensures AfterKey(files, root, common, env, sourceLocale, text, template, key, api, ui, w)
            == (ExtractResult(Some(KeyReplace(template, key)), Declined), OverrideCheckSpec(key, CheckLookup(root, common, env), ui.confirm, files).files)
  {
  }

  /** After the key: a passed check replaces the selection and goes on to the writes, on the
      cache the check's lookups left. */
  lemma AfterKeySubmits(files: map<string, Value>, root: Root, common: Option<Root>, env: Env, sourceLocale: string,
                        text: string, template: string, key: string, api: Api, ui: Prompts, w: Writer)
    requires ValidDraws(w)
    requires OverrideCheckSpec(key, CheckLookup(root, common, env), ui.confirm, files).result == Ok(true)
    ensures var s := Submit(OverrideCheckSpec(key, CheckLookup(root, common, env), ui.confirm, files).files,
                            root, common, env, sourceLocale, text, key, api, w);
            AfterKey(files, root, common, env, sourceLocale, text, template, key, api, ui, w)
            == (ExtractResult(Some(KeyReplace(template, key)), s.0), s.1)
  {
  }

  /** The selection is replaced exactly when a key was entered and the overwrite check did not
      throw. A dismissed prompt or a failed key translation leaves everything as it was; a
      check that throws or is declined leaves in the cache only what its lookups loaded. */
  lemma EditIffChecked(files: map<string, Value>, root: Root, common: Option<Root>, env: Env, sourceLocale: string,
                       text: string, template: string, api: Api, ui: Prompts, w: Writer)
    requires ValidDraws(w)
    ensures var r := OnExtractSpec(files, root, common, env, sourceLocale, text, template, api, ui, w).0;
            var c := ChooseKey(root, sourceLocale, text, api, ui);
            (r.edit.Some? <==> c.Key? && OverrideCheckSpec(c.key, CheckLookup(root, common, env), ui.confirm, files).result.Ok?)
            && (r.edit.Some? ==> r.edit.value == KeyReplace(template, c.key))
    ensures OnExtractSpec(files, root, common, env, sourceLocale, text, template, api, ui, w).0.end.Cancelled?
            <==> ChooseKey(root, sourceLocale, text, api, ui).NoKey?
    ensures var o := OnExtractSpec(files, root, common, env, sourceLocale, text, template, api, ui, w);
            ((o.0.end.KeyTranslationFailed? || o.0.end.Cancelled?) ==> o.1 == files)
            && ((o.0.end.CheckFailed? || o.0.end.Declined?) ==> OnlyLoads(files, o.1, env.load))
  {
    EarlyEndingsCache(files, root, common, env, sourceLocale, text, template, api, ui, w);
    var c := ChooseKey(root, sourceLocale, text, api, ui);
    var o := OnExtractSpec(files, root, common, env, sourceLocale, text, template, api, ui, w);
    match c
    case KeyTransFailed(es) =>
      assert o == (ExtractResult(None, KeyTranslationFailed(es)), files);
    case NoKey =>
      assert o == (ExtractResult(None, Cancelled), files);
    case Key(key) =>
      assert o == AfterKey(files, root, common, env, sourceLocale, text, template, key, api, ui, w);
      AfterKeyEdits(files, root, common, env, sourceLocale, text, template, key, api, ui, w);
  }

  /** After the key: the selection is replaced exactly when the check did not throw, always by
      the key in the template, and the command does not end as cancelled. */
  lemma AfterKeyEdits(files: map<string, Value>, root: Root, common: Option<Root>, env: Env, sourceLocale: string,
                      text: string, template: string, key: string, api: Api, ui: Prompts, w: Writer)
    requires ValidDraws(w)
    ensures var r := AfterKey(files, root, common, env, sourceLocale, text, template, key, api, ui, w).0;
            (r.edit.Some? <==> OverrideCheckSpec(key, CheckLookup(root, common, env), ui.confirm, files).result.Ok?)
            && (r.edit.Some? ==> r.edit.value == KeyReplace(template, key))
            && !r.end.Cancelled?
  {
    var v := OverrideCheckSpec(key, CheckLookup(root, common, env), ui.confirm, files);
    if v.result.Err? {
      AfterKeyCheckThrew(files, root, common, env, sourceLocale, text, template, key, api, ui, w);
    } else if !v.result.value {
      AfterKeyDeclined(files, root, common, env, sourceLocale, text, template, key, api, ui, w);
    } else {
      AfterKeySubmits(files, root, common, env, sourceLocale, text, template, key, api, ui, w);
      SubmitEnds(v.files, root, common, env, sourceLocale, text, key, api, w);
    }
  }

  /** The endings before the writes: a dismissed prompt or a failed key translation leaves the
      cache as it was; a check that throws or is declined leaves the cache its lookups left,
      which holds only what they loaded. */
  lemma EarlyEndingsCache(files: map<string, Value>, root: Root, common: Option<Root>, env: Env, sourceLocale: string,
                          text: string, template: string, api: Api, ui: Prompts, w: Writer)
    requires ValidDraws(w)
    ensures var o := OnExtractSpec(files, root, common, env, sourceLocale, text, template, api, ui, w);
            ((o.0.end.KeyTranslationFailed? || o.0.end.Cancelled?) ==> o.1 == files)
            && ((o.0.end.CheckFailed? || o.0.end.Declined?) ==> OnlyLoads(files, o.1, env.load))
  {
    var c := ChooseKey(root, sourceLocale, text, api, ui);
    var o := OnExtractSpec(files, root, common, env, sourceLocale, text, template, api, ui, w);
    if c.Key? {
      var key := c.key;
      assert o == AfterKey(files, root, common, env, sourceLocale, text, template, key, api, ui, w);
      var v := OverrideCheckSpec(key, CheckLookup(root, common, env), ui.confirm, files);
      CheckOnlyLoads(key, root, common, env, ui.confirm, files);
      if v.result.Err? {
        AfterKeyCheckThrew(files, root, common, env, sourceLocale, text, template, key, api, ui, w);
      } else if !v.result.value {
        AfterKeyDeclined(files, root, common, env, sourceLocale, text, template, key, api, ui, w);
      } else {
        AfterKeySubmits(files, root, common, env, sourceLocale, text, template, key, api, ui, w);
        SubmitEnds(v.files, root, common, env, sourceLocale, text, key, api, w);
      }
    }
  }

  /** `Submit` ends only in the endings that come after the confirmation. */
  lemma SubmitEnds(files: map<string, Value>, root: Root, common: Option<Root>, env: Env, sourceLocale: string, text: string,
                   key: string, api: Api, w: Writer)
    requires ValidDraws(w)
    ensures var e := Submit(files, root, common, env, sourceLocale, text, key, api, w).0;
            e.NoMainRecord? || e.TransI18nFailed? || e.WritesIssued?
  {
  }

  /** In the DIR layout the key entered is the one looked up and written when it holds a dot,
      and is placed under `common` when it does not. */
  lemma DirKeyQualified(root: Root, sourceLocale: string, text: string, api: Api, ui: Prompts)
    requires root.item.structureType == Dir
    requires ChooseKey(root, sourceLocale, text, api, ui).Key?
    ensures var t := TransByApiSpec(Str(text), sourceLocale, "", api).value;
            var answer := ui.ask(DefaultKey(t)).value;
            var key := ChooseKey(root, sourceLocale, text, api, ui).key;
            '.' in key && answer != "" && (key == answer || key == "common." + answer)
  {
  }

  /** `transI18n` on the records with the selected text in the main one: the main record is
      kept with that text, and every other one gets its translation. */
  lemma SourceTextTranslated(records: seq<TransRecord>, m: nat, text: string, sourceLocale: string, api: Api)
    requires MainIndex(records, sourceLocale) == Some(m)
    requires TransI18n(WithSourceText(records, m, text), sourceLocale, api).Ok?
    ensures var out := TransI18n(WithSourceText(records, m, text), sourceLocale, api).value;
            |out| == |records| && out[m] == records[m].(text := Str(text))
            && forall j :: 0 <= j < |records| && j != m ==>
                 TransByApiSpec(Str(text), sourceLocale, records[j].lng, api).Ok?
                 && out[j] == records[j].(text := Str(TransByApiSpec(Str(text), sourceLocale, records[j].lng, api).value))
  {
    var recs := WithSourceText(records, m, text);
    assert MainIndex(recs, sourceLocale) == Some(m) by {
      assert forall i :: 0 <= i < |recs| ==> recs[i].lng == records[i].lng;
    }
    TransI18nResult(recs, sourceLocale, api);
    var out := TransI18n(recs, sourceLocale, api).value;
    assert recs[m].text == Str(text);
    forall j | 0 <= j < |records| && j != m
      ensures TransByApiSpec(Str(text), sourceLocale, records[j].lng, api).Ok?
      ensures out[j] == records[j].(text := Str(TransByApiSpec(Str(text), sourceLocale, records[j].lng, api).value))
    {
      assert recs[j] == records[j];
    }
  }

  /** When the writes are issued, every record is written in ADD mode, the source-language
      record with the selected text, and every other one with the translation of the selected
      text into its language. */
  lemma SubmitWritesTranslations(files: map<string, Value>, root: Root, common: Option<Root>, env: Env, sourceLocale: string,
                                 text: string, key: string, api: Api, w: Writer)
    requires ValidDraws(w)
    requires Submit(files, root, common, env, sourceLocale, text, key, api, w).0.WritesIssued?
    ensures var res := I18nOf(files, root, common, key, Add, env);
            var m := MainIndex(res.records, sourceLocale);
            var out := TransI18n(WithSourceText(res.records, m.value, text), sourceLocale, api);
            var run := WriteFrom(res.files, out.value, Add, DrawsFor(w, |out.value|), env.load, w.disk, w.fs);
            m.Some? && out.Ok? && |out.value| == |res.records|
            && Submit(files, root, common, env, sourceLocale, text, key, api, w).0.outcomes == run.outcomes
            && (forall i :: 0 <= i < |run.modes| ==> run.modes[i] == Add)
            && out.value[m.value] == res.records[m.value].(text := Str(text))
            && forall j :: 0 <= j < |res.records| && j != m.value ==>
                 TransByApiSpec(Str(text), sourceLocale, res.records[j].lng, api).Ok?
                 && out.value[j] == res.records[j].(text := Str(TransByApiSpec(Str(text), sourceLocale, res.records[j].lng, api).value))
  {
    var res := I18nOf(files, root, common, key, Add, env);
    var sub := Submit(files, root, common, env, sourceLocale, text, key, api, w);
    var mm := MainIndex(res.records, sourceLocale);
    var m := mm.value;
    var recs := WithSourceText(res.records, m, text);
    var tr := TransI18n(recs, sourceLocale, api);
    var out := tr.value;
    var run := WriteFrom(res.files, out, Add, DrawsFor(w, |out|), env.load, w.disk, w.fs);
    assert sub == (WritesIssued(run.outcomes), run.files);
    SourceTextTranslated(res.records, m, text, sourceLocale, api);
    ModeTurnsAdd(res.files, out, Add, DrawsFor(w, |out|), env.load, w.disk, w.fs);
  }
}
