/** `I18nItem.overrideCheck(keypath)`: before a key is added, look for a value it would
    overwrite, first at the key itself and then at each shorter dotted prefix, and ask before
    overwriting. Every lookup is a `getI18n(k)` call that reads through the file cache and
    leaves what it loaded there; the next lookup sees that cache. `lookup(files, k)` stands for
    the text of the first record such a call returns (`None` when there is no record, where the
    destructuring throws) and the cache after it. `confirm(k, t)` is the answer to the modal
    question naming `k` and `t`. */
module Collision {
  import opened Wrappers
  import opened Strings
  import opened Values
  import opened Locales
  import opened Cache
  import opened Resolve

  /** Why the check rejects: `getI18n` returned no record to destructure. */
  datatype CheckError = NoRecords

  /** A value already present under `key`. */
  datatype Conflict = Conflict(key: string, text: Value)

  /** One lookup: the first record's text, if any, and the cache afterwards. */
  datatype Looked = Looked(text: Option<Value>, files: map<string, Value>)

  /** How a scan ends, and the cache it leaves. */
  datatype Scan = Scan(result: Result<Option<Conflict>, CheckError>, files: map<string, Value>)

  /** How the check resolves, and the cache it leaves. */
  datatype Verdict = Verdict(result: Result<bool, CheckError>, files: map<string, Value>)

  /** `this.getI18n(keypath)[0].text` as `overrideCheck` uses it, `None` when there is no record. */
  function FirstText(records: seq<TransRecord>): Option<Value> {
    if records == [] then None else Some(records[0].text)
  }

  /** One lookup of `overrideCheck`: READ-mode `getI18n(k)` on the cache `files`. */
  function LookUpOf(files: map<string, Value>, root: Root, common: Option<Root>, env: Env, k: string): Looked {
    var r := I18nOf(files, root, common, k, Read, env);
    Looked(FirstText(r.records), r.files)
  }

  /** The lookups of `overrideCheck`, each on the cache the previous one left. */
  function CheckLookup(root: Root, common: Option<Root>, env: Env): (map<string, Value>, string) -> Looked {
    (files, k) => LookUpOf(files, root, common, env, k)
  }

  /** The values a prefix may hold without being reported: anything `typeof` calls an object
      (`null` included), `undefined`, and the string "undefined". */
  predicate Blocking(v: Value) {
    !(TypeofObject(v) || v.Undef? || v == Str("undefined"))
  }

  /** The prefix scan: with `n` segments of `parts` left, drop the last and test the join of the
      rest, down to the empty prefix. */
  function ScanFrom(parts: seq<string>, n: nat, lookup: (map<string, Value>, string) -> Looked, files: map<string, Value>): Scan
    requires n <= |parts|
    decreases n
  {
    if n == 0 then Scan(Ok(None), files)
    else
      var k := Join(parts[..n - 1], '.');
      var l := lookup(files, k);
      match l.text
      case None => Scan(Err(NoRecords), l.files)
      case Some(t) => if Blocking(t) then Scan(Ok(Some(Conflict(k, t))), l.files) else ScanFrom(parts, n - 1, lookup, l.files)
  }

  /** The conflict `overrideCheck` reports, if any: the key itself when its value is truthy and
      the key is not empty, else the longest blocking prefix. */
  function FindConflict(keypath: string, lookup: (map<string, Value>, string) -> Looked, files: map<string, Value>): Scan {
    var l := lookup(files, keypath);
    match l.text
    case None => Scan(Err(NoRecords), l.files)
    case Some(text) =>
      if Truthy(text) && keypath != "" then Scan(Ok(Some(Conflict(keypath, text))), l.files)
      else
        var parts := Split(keypath, '.');
        ScanFrom(parts, |parts|, lookup, l.files)
  }

  /** What `overrideCheck` resolves to: true without asking when there is no conflict (or only
      one at the empty prefix), otherwise the user's answer. */
  function OverrideCheckSpec(keypath: string, lookup: (map<string, Value>, string) -> Looked,
                             confirm: (string, Value) -> bool, files: map<string, Value>): Verdict
  {
    var c := FindConflict(keypath, lookup, files);
    match c.result
    case Err(e) => Verdict(Err(e), c.files)
    case Ok(x) => Verdict(if x.None? || x.value.key == "" then Ok(true) else Ok(confirm(x.value.key, x.value.text)), c.files)
  }

  /** `const [{ text }] = this.getI18n(k)`: the lookup on the cache object. */
  method LookUp(cache: FileCache, root: Root, common: Option<Root>, env: Env, k: string) returns (text: Option<Value>)
    modifies cache
    ensures Looked(text, cache.files) == CheckLookup(root, common, env)(old(cache.files), k)
  {
    var records := GetI18n(cache, root, common, k, Read, env);
    text := FirstText(records);
  }

  /** The `while (tempKeypath.length)` loop of `overrideCheck`: pop a segment, look the rest up,
      skip a non-blocking value, stop at a blocking one. */
  method ScanPrefixes(cache: FileCache, root: Root, common: Option<Root>, env: Env, parts: seq<string>)
    returns (r: Result<Option<Conflict>, CheckError>)
    modifies cache
    ensures Scan(r, cache.files) == ScanFrom(parts, |parts|, CheckLookup(root, common, env), old(cache.files))
  {
    var tempKeypath := parts;
    while |tempKeypath| > 0
      invariant |tempKeypath| <= |parts| && tempKeypath == parts[..|tempKeypath|]
      invariant ScanFrom(parts, |parts|, CheckLookup(root, common, env), old(cache.files))
                == ScanFrom(parts, |tempKeypath|, CheckLookup(root, common, env), cache.files)
      decreases |tempKeypath|
    {
      ghost var n := |tempKeypath|;
      tempKeypath := tempKeypath[..|tempKeypath| - 1];   // pop
      assert tempKeypath == parts[..n - 1];
      var tempOverrideKey := Join(tempKeypath, '.');
      var tempText := LookUp(cache, root, common, env, tempOverrideKey);
      if tempText.None? {
        return Err(NoRecords);
      }
      if TypeofObject(tempText.value) || tempText.value.Undef? || tempText.value == Str("undefined") {
        continue;
      }
      return Ok(Some(Conflict(tempOverrideKey, tempText.value)));
    }
    return Ok(None);
  }

  /** `overrideCheck(keypath)`. */
  method OverrideCheck(cache: FileCache, root: Root, common: Option<Root>, env: Env, keypath: string,
                       confirm: (string, Value) -> bool)
    returns (r: Result<bool, CheckError>)
    modifies cache
    ensures Verdict(r, cache.files) == OverrideCheckSpec(keypath, CheckLookup(root, common, env), confirm, old(cache.files))
  {
    var first := LookUp(cache, root, common, env, keypath);
    if first.None? {
      return Err(NoRecords);
    }
    var text := first.value;
    var overrideKey: Option<string> := if Truthy(text) then Some(keypath) else None;
    if overrideKey.None? || overrideKey.value == "" {
      var found := ScanPrefixes(cache, root, common, env, Split(keypath, '.'));
      if found.Err? {
        return Err(found.error);
      }
      if found.value.None? || found.value.value.key == "" {
        return Ok(true);
      }
      return Ok(confirm(found.value.value.key, found.value.value.text));
    }
    return Ok(confirm(overrideKey.value, text));
  }

  // ---------------------------------------------------------------------------------------
  // Properties

  /** The cache the `m`-segment prefix is looked up in, for `m < n`: each longer prefix has
      been looked up before it, in turn. */
  function CacheBefore(parts: seq<string>, n: nat, lookup: (map<string, Value>, string) -> Looked,
                       files: map<string, Value>, m: nat): map<string, Value>
    requires m < n <= |parts|
    decreases n
  {
    if m == n - 1 then files
    else CacheBefore(parts, n - 1, lookup, lookup(files, Join(parts[..n - 1], '.')).files, m)
  }

  /** The lookup of the `m`-segment prefix, made on the cache the longer lookups left. */
  function Probe(parts: seq<string>, n: nat, lookup: (map<string, Value>, string) -> Looked,
                 files: map<string, Value>, m: nat): Looked
    requires m < n <= |parts|
  {
    lookup(CacheBefore(parts, n, lookup, files, m), Join(parts[..m], '.'))
  }

  /** The `m`-segment prefix exists and does not block. */
  predicate Clears(parts: seq<string>, n: nat, lookup: (map<string, Value>, string) -> Looked,
                   files: map<string, Value>, m: nat)
    requires m < n <= |parts|
  {
    Probe(parts, n, lookup, files, m).text.Some? && !Blocking(Probe(parts, n, lookup, files, m).text.value)
  }

  /** `c` is the `m`-segment prefix with the blocking value found there, and every longer
      prefix cleared. */
  predicate LongestBlocking(parts: seq<string>, n: nat, lookup: (map<string, Value>, string) -> Looked,
                            files: map<string, Value>, c: Conflict, m: nat)
    requires m < n <= |parts|
  {
    c.key == Join(parts[..m], '.') && Probe(parts, n, lookup, files, m).text == Some(c.text) && Blocking(c.text)
    && forall m' :: m < m' < n ==> Clears(parts, n, lookup, files, m')
  }

  /** A prefix that is looked up before the `n-1`-segment one sees what that lookup left. */
  lemma ProbeShift(parts: seq<string>, n: nat, lookup: (map<string, Value>, string) -> Looked,
                   files: map<string, Value>, m: nat)
    requires m < n - 1 && n <= |parts|
    ensures Probe(parts, n, lookup, files, m)
            == Probe(parts, n - 1, lookup, lookup(files, Join(parts[..n - 1], '.')).files, m)
  {
  }

  /** A reported prefix conflict is the longest prefix (of fewer than all segments) whose value
      blocks; every longer prefix was looked up, in turn, and did not block. */
  lemma {:induction false} ScanFindsLongest(parts: seq<string>, n: nat, lookup: (map<string, Value>, string) -> Looked,
                                            files: map<string, Value>)
    requires n <= |parts|
    ensures var r := ScanFrom(parts, n, lookup, files).result;
            r.Ok? && r.value.Some? ==> exists m :: 0 <= m < n && LongestBlocking(parts, n, lookup, files, r.value.value, m)
    decreases n
  {
    if n > 0 {
      var l := lookup(files, Join(parts[..n - 1], '.'));
      var r := ScanFrom(parts, n, lookup, files).result;
      if l.text.Some? && !Blocking(l.text.value) {
        ScanFindsLongest(parts, n - 1, lookup, l.files);
        if r.Ok? && r.value.Some? {
          var m :| 0 <= m < n - 1 && LongestBlocking(parts, n - 1, lookup, l.files, r.value.value, m);
          ProbeShift(parts, n, lookup, files, m);
          forall m' | m < m' < n
            ensures Clears(parts, n, lookup, files, m')
          {
            if m' < n - 1 {
              assert Clears(parts, n - 1, lookup, l.files, m');
              ProbeShift(parts, n, lookup, files, m');
            }
          }
          assert LongestBlocking(parts, n, lookup, files, r.value.value, m);
        }
      } else if r.Ok? && r.value.Some? {
        assert LongestBlocking(parts, n, lookup, files, r.value.value, n - 1);
      }
    }
  }

  /** The scan finds nothing exactly when every prefix shorter than `n` segments exists and does
      not block, each looked up on the cache the longer ones left. */
  lemma {:induction false} ScanNone(parts: seq<string>, n: nat, lookup: (map<string, Value>, string) -> Looked,
                                    files: map<string, Value>)
    requires n <= |parts|
    ensures ScanFrom(parts, n, lookup, files).result == Ok(None)
            <==> forall m :: 0 <= m < n ==> Clears(parts, n, lookup, files, m)
    decreases n
  {
    if n > 0 {
      var l := lookup(files, Join(parts[..n - 1], '.'));
      ScanNone(parts, n - 1, lookup, l.files);
      forall m | 0 <= m < n - 1
        ensures Clears(parts, n, lookup, files, m) == Clears(parts, n - 1, lookup, l.files, m)
      {
        ProbeShift(parts, n, lookup, files, m);
      }
      assert Probe(parts, n, lookup, files, n - 1) == l;
      if forall m :: 0 <= m < n ==> Clears(parts, n, lookup, files, m) {
        assert Clears(parts, n, lookup, files, n - 1);
        var n1 := n - 1;
        forall m | 0 <= m < n1 ensures Clears(parts, n1, lookup, l.files, m) {
          assert Clears(parts, n, lookup, files, m);
        }
      }
    }
  }

  /** A truthy value at the (non-empty) key itself is the conflict; prefixes are then not
      consulted, and the cache is the one that first lookup left. */
  lemma WholeKeyFirst(keypath: string, lookup: (map<string, Value>, string) -> Looked,
                      other: (map<string, Value>, string) -> Looked, files: map<string, Value>)
    requires keypath != "" && lookup(files, keypath).text.Some? && Truthy(lookup(files, keypath).text.value)
    requires other(files, keypath) == lookup(files, keypath)
    ensures FindConflict(keypath, lookup, files) == FindConflict(keypath, other, files)
            == Scan(Ok(Some(Conflict(keypath, lookup(files, keypath).text.value))), lookup(files, keypath).files)
  {
  }

  /** Without a conflict, or with one only at the empty prefix, the check passes without asking:
      the answer does not depend on `confirm`. With one elsewhere, it is `confirm`'s answer about
      exactly that key and value. Either way the cache is the one the lookups left. */
  lemma NoConflictNoPrompt(keypath: string, lookup: (map<string, Value>, string) -> Looked, confirm: (string, Value) -> bool,
                           other: (string, Value) -> bool, files: map<string, Value>)
    requires FindConflict(keypath, lookup, files).result.Ok?
    ensures var c := FindConflict(keypath, lookup, files).result.value;
            (c.None? || c.value.key == "") ==>
              OverrideCheckSpec(keypath, lookup, confirm, files) == OverrideCheckSpec(keypath, lookup, other, files)
              == Verdict(Ok(true), FindConflict(keypath, lookup, files).files)
    ensures var c := FindConflict(keypath, lookup, files).result.value;
            (c.Some? && c.value.key != "") ==>
              OverrideCheckSpec(keypath, lookup, confirm, files) == Verdict(Ok(confirm(c.value.key, c.value.text)), FindConflict(keypath, lookup, files).files)
  {
  }

  /** The prefixes tested, longest first, are the key with its last 1, 2, … segments removed:
      for `a.b.c` these are `a.b`, `a` and the empty prefix. */
  lemma PrefixesOfKey(a: string, b: string, c: string)
    requires '.' !in a && '.' !in b && '.' !in c
    ensures var parts := Split(a + "." + b + "." + c, '.');
            parts == [a, b, c] && Join(parts[..2], '.') == a + "." + b && Join(parts[..1], '.') == a && Join(parts[..0], '.') == ""
  {
    assert a + "." + b + "." + c == a + ['.'] + (b + ['.'] + c);
    SplitPrefix(a, b + ['.'] + c, '.');
    SplitPrefix(b, c, '.');
    SplitWithoutSep(c, '.');
    var parts := Split(a + "." + b + "." + c, '.');
    assert parts[..2] == [a, b];
    assert parts[..1] == [a];
  }

  /** A lookup only reads: the cache gains nothing but loaded modules. */
  lemma LookUpOnlyLoads(files: map<string, Value>, root: Root, common: Option<Root>, env: Env, k: string)
    ensures OnlyLoads(files, LookUpOf(files, root, common, env, k).files, env.load)
  {
    I18nOfOnlyLoads(files, root, common, k, Read, env);
  }

  /** The prefix scan's lookups only read: the cache gains nothing but loaded modules. */
  lemma {:induction false} ScanOnlyLoads(parts: seq<string>, n: nat, root: Root, common: Option<Root>, env: Env,
                                         files: map<string, Value>)
    requires n <= |parts|
    ensures OnlyLoads(files, ScanFrom(parts, n, CheckLookup(root, common, env), files).files, env.load)
    decreases n
  {
    if n > 0 {
      var k := Join(parts[..n - 1], '.');
      var l := CheckLookup(root, common, env)(files, k);
      LookUpOnlyLoads(files, root, common, env, k);
      if l.text.Some? && !Blocking(l.text.value) {
        ScanOnlyLoads(parts, n - 1, root, common, env, l.files);
        OnlyLoadsTrans(files, l.files, ScanFrom(parts, n - 1, CheckLookup(root, common, env), l.files).files, env.load);
      }
    }
  }

  /** Whatever it resolves to, and whether or not it throws, `overrideCheck` leaves in the cache
      only what its `getI18n` calls loaded. */
  lemma CheckOnlyLoads(keypath: string, root: Root, common: Option<Root>, env: Env, confirm: (string, Value) -> bool,
                       files: map<string, Value>)
    ensures OnlyLoads(files, OverrideCheckSpec(keypath, CheckLookup(root, common, env), confirm, files).files, env.load)
  {
    var l := CheckLookup(root, common, env)(files, keypath);
    LookUpOnlyLoads(files, root, common, env, keypath);
    var parts := Split(keypath, '.');
    ScanOnlyLoads(parts, |parts|, root, common, env, l.files);
    OnlyLoadsTrans(files, l.files, ScanFrom(parts, |parts|, CheckLookup(root, common, env), l.files).files, env.load);
  }
}
