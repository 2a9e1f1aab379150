/** The search command (`findI18n.ts`): read every language's index file afresh, walk the
    source language's tree for string leaves equal to the selected text, and offer each hit as
    a label `parentKey.name` that one of three `$t` templates is filled with. */
module Find {
  import opened Wrappers
  import opened Strings
  import opened Values
  import opened Locales
  import opened Cache
  import opened Resolve
  import opened Translate
  import opened Editor

  /** One entry of `findValue`'s result: the key of the object holding the leaf (not the
      whole path to it) and the leaf's own property name. */
  datatype Hit = Hit(keypath: string, keyName: string)

  /** The hits `findValue(v, keypath, text)` appends, in the order of `Object.entries`. */
  function Found(v: Value, keypath: string, text: string): seq<Hit>
    requires Entries(v).Some?
    decreases v, 1
  {
    FoundFrom(v, 0, keypath, text)
  }

  /** The hits from entry `i` of `v` on. */
  function FoundFrom(v: Value, i: nat, keypath: string, text: string): seq<Hit>
    requires Entries(v).Some? && i <= |Entries(v).value|
    decreases v, 0, |Entries(v).value| - i
  {
    var es := Entries(v).value;
    if i == |es| then []
    else
      var f := es[i];
      var here :=
        if IsObjectLike(f.value) then
          assert IsObjectLike(v);
          EntriesSmaller(v, i);
          Found(f.value, f.name, text)
        else if f.value == Str(text) then [Hit(keypath, f.name)]
        else [];
      here + FoundFrom(v, i + 1, keypath, text)
  }

  /** `findValue(i18nItems, keypath, text, result)`: walks the entries, recurses into every
      value that is `instanceof Object` with that entry's own key as the new key path, and
      pushes a hit for every other value strictly equal to `text`. */
  method FindValue(v: Value, keypath: string, text: string, result: seq<Hit>) returns (r: seq<Hit>)
    requires Entries(v).Some?
    ensures r == result + Found(v, keypath, text)
    decreases v, 1
  {
    var es := Entries(v).value;
    r := result;
    var i := 0;
    while i < |es|
      invariant 0 <= i <= |es|
      invariant result + Found(v, keypath, text) == r + FoundFrom(v, i, keypath, text)
    {
      r := VisitEntry(v, i, keypath, text, r);
      i := i + 1;
    }
  }

  /** The body of the `forEach` of `findValue` for entry `i` of `v`. */
  method VisitEntry(v: Value, i: nat, keypath: string, text: string, result: seq<Hit>) returns (r: seq<Hit>)
    requires Entries(v).Some? && i < |Entries(v).value|
    ensures r + FoundFrom(v, i + 1, keypath, text) == result + FoundFrom(v, i, keypath, text)
    decreases v, 0
  {
    var f := Entries(v).value[i];
    ghost var rest := FoundFrom(v, i + 1, keypath, text);
    r := result;
    if IsObjectLike(f.value) {
      assert IsObjectLike(v);
      EntriesSmaller(v, i);
      r := FindValue(f.value, f.name, text, r);
      assert r + rest == result + (Found(f.value, f.name, text) + rest);
    } else if f.value == Str(text) {
      r := r + [Hit(keypath, f.name)];
      assert r + rest == result + ([Hit(keypath, f.name)] + rest);
    }
  }

  // ---------------------------------------------------------------------------------------
  // A reference definition: flatten, then filter

  /** A value that is not an object, with the hit it would give. */
  datatype Leaf = Leaf(hit: Hit, value: Value)

  /** Every non-object value reachable through `Object.entries`, in walk order, each labelled
      with its parent's key and its own name. */
  function Leaves(v: Value, keypath: string): seq<Leaf>
    requires Entries(v).Some?
    decreases v, 1
  {
    LeavesFrom(v, 0, keypath)
  }

  function LeavesFrom(v: Value, i: nat, keypath: string): seq<Leaf>
    requires Entries(v).Some? && i <= |Entries(v).value|
    decreases v, 0, |Entries(v).value| - i
  {
    var es := Entries(v).value;
    if i == |es| then []
    else
      var f := es[i];
      (if IsObjectLike(f.value) then
         assert IsObjectLike(v);
         EntriesSmaller(v, i);
         Leaves(f.value, f.name)
       else [Leaf(Hit(keypath, f.name), f.value)])
      + LeavesFrom(v, i + 1, keypath)
  }

  /** The hits of the leaves that are the string `text`. */
  function Matching(ls: seq<Leaf>, text: string): (hs: seq<Hit>)
    ensures |hs| <= |ls|
    decreases |ls|
  {
    if ls == [] then []
    else (if ls[0].value == Str(text) then [ls[0].hit] else []) + Matching(ls[1..], text)
  }

  lemma {:induction false} MatchingAppend(a: seq<Leaf>, b: seq<Leaf>, text: string)
    ensures Matching(a + b, text) == Matching(a, text) + Matching(b, text)
    decreases |a|
  {
    if a == [] {
      assert a + b == b;
    } else {
      var head: seq<Hit> := if a[0].value == Str(text) then [a[0].hit] else [];
      assert (a + b)[0] == a[0] && (a + b)[1..] == a[1..] + b;
      assert Matching(a + b, text) == head + Matching(a[1..] + b, text);
      assert Matching(a, text) == head + Matching(a[1..], text);
      MatchingAppend(a[1..], b, text);
      assert head + (Matching(a[1..], text) + Matching(b, text)) == (head + Matching(a[1..], text)) + Matching(b, text);
    }
  }

  /** `findValue` reports exactly the string leaves equal to `text`, in walk order. */
  lemma {:induction false} FoundIsMatchingLeaves(v: Value, keypath: string, text: string)
    requires Entries(v).Some?
    ensures Found(v, keypath, text) == Matching(Leaves(v, keypath), text)
    decreases v, 1
  {
    FoundFromIsMatching(v, 0, keypath, text);
  }

  lemma {:induction false} FoundFromIsMatching(v: Value, i: nat, keypath: string, text: string)
    requires Entries(v).Some? && i <= |Entries(v).value|
    ensures FoundFrom(v, i, keypath, text) == Matching(LeavesFrom(v, i, keypath), text)
    decreases v, 0, |Entries(v).value| - i
  {
    var es := Entries(v).value;
    if i < |es| {
      var f := es[i];
      FoundFromIsMatching(v, i + 1, keypath, text);
      if IsObjectLike(f.value) {
        assert IsObjectLike(v);
        EntriesSmaller(v, i);
        FoundIsMatchingLeaves(f.value, f.name, text);
        MatchingAppend(Leaves(f.value, f.name), LeavesFrom(v, i + 1, keypath), text);
      } else {
        var l := Leaf(Hit(keypath, f.name), f.value);
        MatchingAppend([l], LeavesFrom(v, i + 1, keypath), text);
        assert Matching([l], text) == (if f.value == Str(text) then [Hit(keypath, f.name)] else []) by {
          assert [l][1..] == [];
        }
      }
    }
  }

  /** A leaf's key path is the key path passed in (for a leaf directly under `v`) or the name
      of one of the entries walked into: never a dotted path built from several of them. */
  lemma {:induction false} LeafKeypaths(v: Value, keypath: string, names: set<string>)
    requires Entries(v).Some? && keypath in names && EntryNamesIn(v, names)
    ensures forall j :: 0 <= j < |Leaves(v, keypath)| ==> Leaves(v, keypath)[j].hit.keypath in names
    decreases v, 1
  {
    LeafKeypathsFrom(v, 0, keypath, names);
  }

  lemma {:induction false} LeafKeypathsFrom(v: Value, i: nat, keypath: string, names: set<string>)
    requires Entries(v).Some? && i <= |Entries(v).value| && keypath in names && EntryNamesIn(v, names)
    ensures forall j :: 0 <= j < |LeavesFrom(v, i, keypath)| ==> LeavesFrom(v, i, keypath)[j].hit.keypath in names
    decreases v, 0, |Entries(v).value| - i
  {
    var es := Entries(v).value;
    if i < |es| {
      var f := es[i];
      LeafKeypathsFrom(v, i + 1, keypath, names);
      var rest := LeavesFrom(v, i + 1, keypath);
      if IsObjectLike(f.value) {
        assert IsObjectLike(v);
        EntriesSmaller(v, i);
        assert f.name in names && EntryNamesIn(f.value, names);
        LeafKeypaths(f.value, f.name, names);
        var here: seq<Leaf> := Leaves(f.value, f.name);
        assert LeavesFrom(v, i, keypath) == here + rest;
        forall j | 0 <= j < |here + rest| ensures (here + rest)[j].hit.keypath in names {
          if j < |here| { assert (here + rest)[j] == here[j]; } else { assert (here + rest)[j] == rest[j - |here|]; }
        }
      } else {
        var here: seq<Leaf> := [Leaf(Hit(keypath, f.name), f.value)];
        assert LeavesFrom(v, i, keypath) == here + rest;
        forall j | 0 <= j < |here + rest| ensures (here + rest)[j].hit.keypath in names {
          if j > 0 { assert (here + rest)[j] == rest[j - 1]; }
        }
      }
    }
  }

  /** Every entry name met on the walk belongs to `names`. */
  predicate EntryNamesIn(v: Value, names: set<string>)
    requires Entries(v).Some?
    decreases v
  {
    forall i :: 0 <= i < |Entries(v).value| ==>
      Entries(v).value[i].name in names
      && (IsObjectLike(Entries(v).value[i].value) ==> IsObjectLike(v) && EntryNamesInChild(v, i, names))
  }

  predicate EntryNamesInChild(v: Value, i: nat, names: set<string>)
    requires IsObjectLike(v) && i < |Entries(v).value|
    decreases v, 0
  {
    EntriesSmaller(v, i);
    var c := Entries(v).value[i].value;
    Entries(c).Some? && EntryNamesIn(c, names)
  }

  /** Three levels deep, the hit is `b.c`: the outermost key is lost. */
  lemma NestedHitKeepsOnlyParent(t: string)
    ensures Found(Obj([Field("a", Obj([Field("b", Obj([Field("c", Str(t))]))]))]), "", t) == [Hit("b", "c")]
  {
    var inner := Obj([Field("c", Str(t))]);
    var mid := Obj([Field("b", inner)]);
    var top := Obj([Field("a", mid)]);
    assert FoundFrom(inner, 1, "b", t) == [];
    assert Found(inner, "b", t) == [Hit("b", "c")];
    assert FoundFrom(mid, 1, "a", t) == [];
    assert Found(mid, "a", t) == [Hit("b", "c")];
    assert FoundFrom(top, 1, "", t) == [];
  }

  // ---------------------------------------------------------------------------------------
  // onFindI18n

  /** The quick-pick label of a hit, `${keypath}.${keyName}`. */
  function Label(h: Hit): string {
    h.keypath + "." + h.keyName
  }

  /** The tooltips of the three buttons on every item; the chosen one is the template. */
  const Tooltips: seq<string> := ["{{ $t('" + "{key}" + "') }}", "this.$t('" + "{key}" + "')", "$t('" + "{key}" + "')"]

  /** Why the command throws: no record is in the source language, or its text is `null`, where
      `Object.entries` throws. */
  datatype FindError = NoSourceRecord | NotEnumerable

  /** How the command ends: a throw, the "nothing found" message, or a quick pick of labels. */
  datatype FindOutcome = FindFailed(error: FindError) | NothingFound | Pick(labels: seq<string>)

  /** `onFindI18n` up to showing the quick pick, and the cache after it. */
  function OnFindSpec(files: map<string, Value>, root: Root, common: Option<Root>, sourceLocale: string, text: string, env: Env)
    : (FindOutcome, map<string, Value>)
  {
    var res := I18nOf(files, root, common, "", Find, env);
    (FindOutcomeOf(res.records, sourceLocale, text), res.files)
  }

  /** How the command ends once `getI18n` returned `records`. */
  function FindOutcomeOf(records: seq<TransRecord>, sourceLocale: string, text: string): FindOutcome {
    match MainIndex(records, sourceLocale)
    case None => FindFailed(FindError.NoSourceRecord)
    case Some(m) =>
      var t := records[m].text;
      if Entries(t).None? then FindFailed(NotEnumerable)
      else
        var hits := Found(t, "", text);
        if hits == [] then NothingFound
        else Pick(seq(|hits|, i requires 0 <= i < |hits| => Label(hits[i])))
  }

  /** `onFindI18n({ filepath, text, keyReplace })` with `Config.sourceLocale` passed in. */
  method OnFindI18n(cache: FileCache, root: Root, common: Option<Root>, sourceLocale: string, text: string, env: Env)
    returns (o: FindOutcome)
    modifies cache
    ensures (o, cache.files) == OnFindSpec(old(cache.files), root, common, sourceLocale, text, env)
  {
    var transData := GetI18n(cache, root, common, "", Find, env);
    var m := MainIndex(transData, sourceLocale);
    if m.None? {
      return FindFailed(FindError.NoSourceRecord);
    }
    var t := transData[m.value].text;
    if Entries(t).None? {
      return FindFailed(NotEnumerable);
    }
    var hits := FindValue(t, "", text, []);
    assert hits == Found(t, "", text);
    if |hits| <= 0 {
      return NothingFound;
    }
    var labels := Labels(hits);
    return Pick(labels);
  }

  /** `result.map(item => ({ label: `${item.keypath}.${item.keyName}`, … }))`. */
  method Labels(hits: seq<Hit>) returns (labels: seq<string>)
    ensures labels == seq(|hits|, i requires 0 <= i < |hits| => Label(hits[i]))
  {
    labels := [];
    var i := 0;
    while i < |hits|
      invariant 0 <= i <= |hits| && |labels| == i
      invariant forall j :: 0 <= j < i ==> labels[j] == Label(hits[j])
    {
      labels := labels + [Label(hits[i])];
      i := i + 1;
    }
  }

  /** The text put over the selection when button `button` of item `item` is pressed: the
      `keyReplace` the command received, applied to the tooltip and then to the label. */
  function Chosen(labels: seq<string>, item: nat, button: nat): string
    requires item < |labels| && button < |Tooltips|
  {
    KeyReplace(Tooltips[button], labels[item])
  }

  // ---------------------------------------------------------------------------------------
  // Properties of the command

  /** FIND mode reads past the cache, so what the command shows does not depend on the cache. */
  lemma {:induction false} FindIgnoresCacheState(files: map<string, Value>, other: map<string, Value>, item: I18nItem,
                                                  lngs: seq<Lng>, env: Env)
    ensures FileI18n(files, item, lngs, "", Find, env).records == FileI18n(other, item, lngs, "", Find, env).records
    decreases |lngs|
  {
    if lngs != [] {
      var s := RecordOf(files, item, lngs[0], "", Find, env);
      var s' := RecordOf(other, item, lngs[0], "", Find, env);
      assert s.record == s'.record;
      FindIgnoresCacheState(s.files, s'.files, item, lngs[1..], env);
    }
  }

  lemma OnFindIgnoresCache(files: map<string, Value>, other: map<string, Value>, root: Root, common: Option<Root>,
                           sourceLocale: string, text: string, env: Env)
    ensures OnFindSpec(files, root, common, sourceLocale, text, env).0 == OnFindSpec(other, root, common, sourceLocale, text, env).0
  {
    FindIgnoresCacheState(files, other, root.item, root.lngs, env);
    assert I18nOf(files, root, common, "", Find, env).records == I18nOf(other, root, common, "", Find, env).records;
  }

  /** The labels offered are, in walk order, those of the string leaves of the source
      language's tree equal to the selected text. */
  lemma PickedLabels(files: map<string, Value>, root: Root, common: Option<Root>, sourceLocale: string, text: string, env: Env)
    ensures var res := I18nOf(files, root, common, "", Find, env);
            var o := OnFindSpec(files, root, common, sourceLocale, text, env).0;
            o.Pick? ==>
              var m := MainIndex(res.records, sourceLocale).value;
              var hits := Matching(Leaves(res.records[m].text, ""), text);
              |o.labels| == |hits| > 0 && forall i :: 0 <= i < |hits| ==> o.labels[i] == Label(hits[i])
  {
    var res := I18nOf(files, root, common, "", Find, env);
    var m := MainIndex(res.records, sourceLocale);
    if m.Some? && Entries(res.records[m.value].text).Some? {
      FoundIsMatchingLeaves(res.records[m.value].text, "", text);
    }
  }

  /** Each button writes the label into its template. */
  lemma ChosenTexts(labels: seq<string>, item: nat)
    requires item < |labels|
    ensures Chosen(labels, item, 0) == "{{ $t('" + labels[item] + "') }}"
    ensures Chosen(labels, item, 1) == "this.$t('" + labels[item] + "')"
    ensures Chosen(labels, item, 2) == "$t('" + labels[item] + "')"
  {
    ReplaceAllOnce("{{ $t('", "{key}", "') }}", labels[item]);
    ReplaceAllOnce("this.$t('", "{key}", "')", labels[item]);
    ReplaceAllOnce("$t('", "{key}", "')", labels[item]);
  }
}
