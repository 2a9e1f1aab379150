/** Key resolution in `I18nItem`: where a dotted key lives for every language of a locale root
    (`getFileI18n`), the fall-back to the common root (`getI18n`, `emptyTrans`), and the unused
    glob-based choice of a file (`parseFilepath`). What the file system says of a path and what
    a file loads to are parameters. */
module Resolve {
  import opened Wrappers
  import opened Strings
  import opened Values
  import opened Utils
  import opened Locales
  import opened Cache

  /** `ITransData` without its random `id`: the language entry's fields, `filepath` replaced by
      the file actually read, and the key, the key path inside that file and the value found. */
  datatype TransRecord = TransRecord(
    localepath: string, filepath: string, isDirectory: bool, originLng: string, lng: string,
    key: string, keypath: string, text: Value)

  /** What the environment answers: `lstatSync(p).isFile()` (false also where it throws), the
      loader, and the `filenameToKebabCase` setting. */
  datatype Env = Env(isFile: string -> bool, load: string -> LoadOutcome, filenameToKebabCase: bool)

  /** A locale root as `getFileI18n` uses it: the instance and its `lngs` at the time of the call. */
  datatype Root = Root(item: I18nItem, lngs: seq<Lng>)

  /** Where one language's value for a key is looked for first. `kebabName` is what the
      kebab-case fall-back puts before the extension: `undefined` in the FILE layout. */
  datatype Location = Location(filepath: string, keypath: string, useCache: bool, kebabName: string)

  /** The path and key-path computation at the head of the `lngs.map` callback in `getFileI18n`. */
  function Locate(item: I18nItem, lngFilepath: string, key: string, mode: MatchMode): Location {
    if item.structureType == Dir then
      var parts := Split(key, '.');
      var filename := parts[0];
      var target := if mode == Find then JoinPath(lngFilepath, "index" + item.fileExt)
                    else if filename != "" then JoinPath(lngFilepath, filename + "\\" + filename + item.fileExt)
                    else lngFilepath;
      Location(target, Join(parts[1..], '.'), mode != Find, CamelToKebab(filename))
    else
      // `useCache` stays undefined, so `readFile` bypasses the cache
      Location(lngFilepath, key, false, "undefined")
  }

  /** `keypath ? get(file, keypath) : file` */
  function TextAt(file: Value, keypath: string): Value {
    if keypath != "" then GetPath(file, keypath) else file
  }

  /** One language's file read, and the cache after it. */
  datatype Step = Step(record: TransRecord, files: map<string, Value>)

  /** The `lngs.map` callback of `getFileI18n` for one language entry: read the located file when
      it is a file (`{}` otherwise), and in READ mode with `filenameToKebabCase` set retry an
      empty result at the kebab-case name through the cache. */
  function RecordOf(files: map<string, Value>, item: I18nItem, l: Lng, key: string, mode: MatchMode, env: Env): Step {
    var loc := Locate(item, l.filepath, key, mode);
    var first := if env.isFile(loc.filepath) then ReadOf(files, loc.filepath, loc.useCache, env.load)
                 else ReadResult(Obj([]), false, files);
    var retry := IsEmpty(first.value) && env.filenameToKebabCase && mode == Read;
    var fp := if retry then JoinPath(l.filepath, loc.kebabName + item.fileExt) else loc.filepath;
    var r := if retry then ReadOf(first.files, fp, true, env.load) else first;
    Step(TransRecord(l.localepath, fp, l.isDirectory, l.originLng, l.lng, key, loc.keypath, TextAt(r.value, loc.keypath)), r.files)
  }

  /** The records of `getFileI18n`, one per language in order, and the cache after all reads. */
  datatype Resolved = Resolved(records: seq<TransRecord>, files: map<string, Value>)

  function FileI18n(files: map<string, Value>, item: I18nItem, lngs: seq<Lng>, key: string, mode: MatchMode, env: Env): (r: Resolved)
    ensures |r.records| == |lngs|
    decreases |lngs|
  {
    if lngs == [] then Resolved([], files)
    else
      var s := RecordOf(files, item, lngs[0], key, mode, env);
      var rest := FileI18n(s.files, item, lngs[1..], key, mode, env);
      Resolved([s.record] + rest.records, rest.files)
  }

  lemma FileI18nCons(files: map<string, Value>, item: I18nItem, lngs: seq<Lng>, key: string, mode: MatchMode, env: Env)
    requires lngs != []
    ensures var s := RecordOf(files, item, lngs[0], key, mode, env);
            var rest := FileI18n(s.files, item, lngs[1..], key, mode, env);
            FileI18n(files, item, lngs, key, mode, env) == Resolved([s.record] + rest.records, rest.files)
  {
  }

  /** The callback of `getFileI18n` on one language entry. */
  method RecordFor(cache: FileCache, item: I18nItem, l: Lng, key: string, mode: MatchMode, env: Env) returns (rec: TransRecord)
    modifies cache
    ensures Step(rec, cache.files) == RecordOf(old(cache.files), item, l, key, mode, env)
  {
    var loc := Locate(item, l.filepath, key, mode);
    var i18nFilepath := loc.filepath;
    var file: Value, shared: bool;
    if env.isFile(i18nFilepath) {
      file, shared := cache.ReadFile(i18nFilepath, loc.useCache, env.load);
    } else {
      file := Obj([]);
    }
    if IsEmpty(file) && env.filenameToKebabCase && mode == Read {
      i18nFilepath := JoinPath(l.filepath, loc.kebabName + item.fileExt);
      file, shared := cache.ReadFile(i18nFilepath, true, env.load);
    }
    rec := TransRecord(l.localepath, i18nFilepath, l.isDirectory, l.originLng, l.lng, key, loc.keypath, TextAt(file, loc.keypath));
  }

  /** `r` with `records` in front of its records. */
  function Prefixed(records: seq<TransRecord>, r: Resolved): Resolved {
    Resolved(records + r.records, r.files)
  }

  /** One turn of the loop of `getFileI18n`: the record read for entry `i` joins the prefix. */
  lemma FileI18nAdvance(files: map<string, Value>, files': map<string, Value>, item: I18nItem,
                        lngs: seq<Lng>, i: nat, key: string, mode: MatchMode, env: Env, records: seq<TransRecord>, rec: TransRecord)
    requires i < |lngs|
    requires Step(rec, files') == RecordOf(files, item, lngs[i], key, mode, env)
    ensures Prefixed(records, FileI18n(files, item, lngs[i..], key, mode, env))
            == Prefixed(records + [rec], FileI18n(files', item, lngs[i + 1..], key, mode, env))
  {
    var rest := FileI18n(files', item, lngs[i + 1..], key, mode, env);
    FileI18nCons(files, item, lngs[i..], key, mode, env);
    assert lngs[i..][1..] == lngs[i + 1..];
    assert lngs[i..][0] == lngs[i];
    assert records + ([rec] + rest.records) == (records + [rec]) + rest.records;
  }

  /** `getFileI18n(key, mode)`. */
  method GetFileI18n(cache: FileCache, root: Root, key: string, mode: MatchMode, env: Env) returns (records: seq<TransRecord>)
    modifies cache
    ensures Resolved(records, cache.files) == FileI18n(old(cache.files), root.item, root.lngs, key, mode, env)
  {
    records := [];
    var i := 0;
    ghost var whole := FileI18n(cache.files, root.item, root.lngs, key, mode, env);
    assert root.lngs[0..] == root.lngs;
    assert whole == Prefixed([], whole);
    while i < |root.lngs|
      invariant 0 <= i <= |root.lngs|
      invariant whole == Prefixed(records, FileI18n(cache.files, root.item, root.lngs[i..], key, mode, env))
    {
      ghost var before := cache.files;
      var rec := RecordFor(cache, root.item, root.lngs[i], key, mode, env);
      FileI18nAdvance(before, cache.files, root.item, root.lngs, i, key, mode, env, records, rec);
      records := records + [rec];
      i := i + 1;
    }
    assert root.lngs[i..] == [];
    assert records + [] == records;
  }

  /** `emptyTrans`: `transData.every(item => !item.text)`. */
  function EmptyTrans(records: seq<TransRecord>): (r: bool)
    ensures r <==> forall i :: 0 <= i < |records| ==> !Truthy(records[i].text)
    decreases |records|
  {
    if records == [] then true
    else
      var rest := EmptyTrans(records[1..]);
      assert forall i :: 1 <= i < |records| ==> records[i] == records[1..][i - 1];
      !Truthy(records[0].text) && rest
  }

  /** `getI18n(key, mode)`: the common root is consulted, in READ mode only, when it is
      configured and no record of this root found a truthy value. */
  function I18nOf(files: map<string, Value>, root: Root, common: Option<Root>, key: string, mode: MatchMode, env: Env): Resolved {
    var own := FileI18n(files, root.item, root.lngs, key, mode, env);
    if EmptyTrans(own.records) && common.Some? && mode == Read then
      FileI18n(own.files, common.value.item, common.value.lngs, key, mode, env)
    else own
  }

  /** `getI18n(key, mode)`; `common` is the instance `i18nFile` holds for
      `Config.i18nCommonPath`, `None` when that setting is empty. */
  method GetI18n(cache: FileCache, root: Root, common: Option<Root>, key: string, mode: MatchMode, env: Env)
    returns (records: seq<TransRecord>)
    modifies cache
    ensures Resolved(records, cache.files) == I18nOf(old(cache.files), root, common, key, mode, env)
  {
    records := GetFileI18n(cache, root, key, mode, env);
    if EmptyTrans(records) && common.Some? && mode == Read {
      records := GetFileI18n(cache, common.value, key, mode, env);
    }
  }

  // ---------------------------------------------------------------------------------------
  // Properties of the resolution

  /** FILE layout: the key is the key path, the language's own file is read, bypassing the cache. */
  lemma LocateFileLayout(item: I18nItem, lngFilepath: string, key: string, mode: MatchMode)
    requires item.structureType == File
    ensures var loc := Locate(item, lngFilepath, key, mode);
            loc.keypath == key && loc.filepath == lngFilepath && !loc.useCache
  {
  }

  /** DIR layout: the key is the file name, a '.', and the key path inside that file (or just a
      file name without '.', with an empty key path). */
  lemma {:induction false} LocateDirKey(item: I18nItem, lngFilepath: string, key: string, mode: MatchMode)
    requires item.structureType == Dir
    ensures var loc := Locate(item, lngFilepath, key, mode);
            var filename := Split(key, '.')[0];
            '.' !in filename
            && (('.' !in key && key == filename && loc.keypath == "")
                || ('.' in key && key == filename + "." + loc.keypath))
            && loc.kebabName == CamelToKebab(filename)
  {
    var parts := Split(key, '.');
    JoinSplit(key, '.');
    if |parts| == 1 {
      assert Join(parts, '.') == parts[0];
      assert parts[1..] == [];
    } else {
      JoinSplitAt(parts, 1, '.');
      assert parts[..1] == [parts[0]];
      assert key[|parts[0]|] == '.';
    }
  }

  /** DIR layout, FIND mode: the language directory's `index` file, read without the cache. */
  lemma LocateDirFind(item: I18nItem, lngFilepath: string, key: string)
    requires item.structureType == Dir
    ensures var loc := Locate(item, lngFilepath, key, Find);
            loc.filepath == JoinPath(lngFilepath, "index" + item.fileExt) && !loc.useCache
  {
  }

  /** DIR layout, other modes: `{filename}\{filename}{ext}` in the language directory (the
      directory itself for an empty file name), read through the cache. */
  lemma LocateDirOther(item: I18nItem, lngFilepath: string, key: string, mode: MatchMode)
    requires item.structureType == Dir && mode != Find
    ensures var loc := Locate(item, lngFilepath, key, mode);
            var filename := Split(key, '.')[0];
            loc.useCache
            && (filename != "" ==> loc.filepath == JoinPath(lngFilepath, filename + "\\" + filename + item.fileExt))
            && (filename == "" ==> loc.filepath == lngFilepath)
  {
  }

  /** A record carries its language entry's fields, the caller's key and the layout's key path. */
  predicate Follows(r: TransRecord, l: Lng, key: string, keypath: string) {
    r.lng == l.lng && r.originLng == l.originLng && r.localepath == l.localepath && r.isDirectory == l.isDirectory
    && r.key == key && r.keypath == keypath
  }

  lemma RecordOfFollows(files: map<string, Value>, item: I18nItem, l: Lng, key: string, mode: MatchMode, env: Env)
    ensures Follows(RecordOf(files, item, l, key, mode, env).record, l, key, Locate(item, l.filepath, key, mode).keypath)
  {
  }

  /** The records follow the language entries: same order, same language fields, the caller's
      key, and the key path of the layout. */
  lemma {:induction false} RecordsFollowLngs(files: map<string, Value>, item: I18nItem, lngs: seq<Lng>, key: string, mode: MatchMode, env: Env)
    ensures var rs := FileI18n(files, item, lngs, key, mode, env).records;
            forall i :: 0 <= i < |lngs| ==> Follows(rs[i], lngs[i], key, Locate(item, lngs[i].filepath, key, mode).keypath)
    decreases |lngs|
  {
    if lngs != [] {
      var s := RecordOf(files, item, lngs[0], key, mode, env);
      var tail := FileI18n(s.files, item, lngs[1..], key, mode, env).records;
      RecordsFollowLngs(s.files, item, lngs[1..], key, mode, env);
      var rs := FileI18n(files, item, lngs, key, mode, env).records;
      assert rs == [s.record] + tail;
      RecordOfFollows(files, item, lngs[0], key, mode, env);
      forall i | 1 <= i < |lngs| ensures rs[i] == tail[i - 1] && lngs[i] == lngs[1..][i - 1] {
      }
    }
  }

  /** Resolving a key only reads: the cache afterwards differs only by modules just loaded. */
  lemma RecordOfOnlyLoads(files: map<string, Value>, item: I18nItem, l: Lng, key: string, mode: MatchMode, env: Env)
    ensures OnlyLoads(files, RecordOf(files, item, l, key, mode, env).files, env.load)
  {
    var loc := Locate(item, l.filepath, key, mode);
    var first := if env.isFile(loc.filepath) then ReadOf(files, loc.filepath, loc.useCache, env.load)
                 else ReadResult(Obj([]), false, files);
    if env.isFile(loc.filepath) {
      ReadOnlyLoads(files, loc.filepath, loc.useCache, env.load);
    }
    var retry := IsEmpty(first.value) && env.filenameToKebabCase && mode == Read;
    if retry {
      var fp := JoinPath(l.filepath, loc.kebabName + item.fileExt);
      ReadOnlyLoads(first.files, fp, true, env.load);
      OnlyLoadsTrans(files, first.files, ReadOf(first.files, fp, true, env.load).files, env.load);
    }
  }

  lemma {:induction false} FileI18nOnlyLoads(files: map<string, Value>, item: I18nItem, lngs: seq<Lng>, key: string, mode: MatchMode, env: Env)
    ensures OnlyLoads(files, FileI18n(files, item, lngs, key, mode, env).files, env.load)
    decreases |lngs|
  {
    if lngs != [] {
      var s := RecordOf(files, item, lngs[0], key, mode, env);
      RecordOfOnlyLoads(files, item, lngs[0], key, mode, env);
      FileI18nOnlyLoads(s.files, item, lngs[1..], key, mode, env);
      OnlyLoadsTrans(files, s.files, FileI18n(s.files, item, lngs[1..], key, mode, env).files, env.load);
    }
  }

  /** `getI18n`, common fallback included, adds nothing to the cache but what it loaded. */
  lemma I18nOfOnlyLoads(files: map<string, Value>, root: Root, common: Option<Root>, key: string, mode: MatchMode, env: Env)
    ensures OnlyLoads(files, I18nOf(files, root, common, key, mode, env).files, env.load)
  {
    var own := FileI18n(files, root.item, root.lngs, key, mode, env);
    FileI18nOnlyLoads(files, root.item, root.lngs, key, mode, env);
    if EmptyTrans(own.records) && common.Some? && mode == Read {
      FileI18nOnlyLoads(own.files, common.value.item, common.value.lngs, key, mode, env);
      OnlyLoadsTrans(files, own.files, I18nOf(files, root, common, key, mode, env).files, env.load);
    }
  }

  /** The kebab-case retry happens only in READ mode with the setting on, and only after the
      first read came back empty; otherwise the record names the located file. */
  lemma KebabFallbackOnlyOnRead(files: map<string, Value>, item: I18nItem, l: Lng, key: string, mode: MatchMode, env: Env)
    ensures var loc := Locate(item, l.filepath, key, mode);
            var rec := RecordOf(files, item, l, key, mode, env).record;
            (mode != Read || !env.filenameToKebabCase) ==> rec.filepath == loc.filepath
  {
  }

  /** An empty key path gives the whole file as the record's text; a located path that is not a
      file gives `{}` there, and `undefined` under any non-empty key path, unless the kebab-case
      retry applies. */
  lemma TextOfMissingFile(files: map<string, Value>, item: I18nItem, l: Lng, key: string, mode: MatchMode, env: Env)
    requires !env.isFile(Locate(item, l.filepath, key, mode).filepath)
    requires mode != Read || !env.filenameToKebabCase
    ensures var loc := Locate(item, l.filepath, key, mode);
            var s := RecordOf(files, item, l, key, mode, env);
            s.files == files && s.record.text == (if loc.keypath == "" then Obj([]) else Undef)
  {
    var loc := Locate(item, l.filepath, key, mode);
    if loc.keypath != "" {
      var parts := Split(loc.keypath, '.');
      assert |parts| >= 1;
    }
  }

  /** FIND mode in the DIR layout reads the `index` file afresh: when it loads as an object, the
      record's text comes from that object, whatever the cache held. */
  lemma FindIgnoresCache(files: map<string, Value>, item: I18nItem, l: Lng, key: string, env: Env)
    requires item.structureType == Dir
    requires var fp := Locate(item, l.filepath, key, Find).filepath;
             env.isFile(fp) && env.load(fp).Loaded? && IsObjectLike(env.load(fp).value)
    ensures var loc := Locate(item, l.filepath, key, Find);
            RecordOf(files, item, l, key, Find, env).record.text == TextAt(env.load(loc.filepath).value, loc.keypath)
  {
  }

  /** The common root is consulted only in READ mode, only when configured, and only when every
      own record's text is falsy, which holds vacuously for a root without languages. */
  lemma CommonFallback(files: map<string, Value>, root: Root, common: Option<Root>, key: string, mode: MatchMode, env: Env)
    ensures var own := FileI18n(files, root.item, root.lngs, key, mode, env);
            var r := I18nOf(files, root, common, key, mode, env);
            (mode != Read || common.None? || exists i :: 0 <= i < |own.records| && Truthy(own.records[i].text)) ==> r == own
    ensures root.lngs == [] && common.Some? && mode == Read ==>
              I18nOf(files, root, common, key, mode, env) == FileI18n(files, common.value.item, common.value.lngs, key, mode, env)
  {
  }

  // ---------------------------------------------------------------------------------------
  // parseFilepath

  /** What `fg.sync(pattern, { onlyFiles: true })` does: the matched paths, or a throw. */
  datatype GlobOutcome = Matches(paths: seq<string>) | GlobFailed

  /** `Array.prototype.find` over strings. */
  function FindFirst(xs: seq<string>, p: string -> bool): (r: Option<string>)
    ensures r.None? <==> forall i :: 0 <= i < |xs| ==> !p(xs[i])
    ensures r.Some? ==> exists i :: 0 <= i < |xs| && xs[i] == r.value && p(xs[i]) && forall j :: 0 <= j < i ==> !p(xs[j])
    decreases |xs|
  {
    if xs == [] then None
    else if p(xs[0]) then Some(xs[0])
    else
      var r := FindFirst(xs[1..], p);
      assert forall i :: 1 <= i < |xs| ==> xs[i] == xs[1..][i - 1];
      r
  }

  /** `a || b` on an optional string: a missing or empty `a` gives `b`. */
  function OrElse(a: Option<string>, b: string): string {
    if a.Some? && a.value != "" then a.value else b
  }

  /** The glob pattern `parseFilepath` builds. */
  function GlobPattern(i18nFilepath: string, filename: string, ext: string): string {
    i18nFilepath + "\\" + filename + "/*" + ext
  }

  /** The `index` file `parseFilepath` falls back to. */
  function DefaultPath(i18nFilepath: string, filename: string, ext: string): string {
    JoinPath(i18nFilepath, (if filename != "" then filename + "\\" else "") + "index" + ext)
  }

  /** `parseFilepath(i18nFilepath, filename, mode)`; `getFileI18n` computes it and discards it. */
  function ParseFilepath(i18nFilepath: string, filename: string, mode: MatchMode, ext: string, glob: string -> GlobOutcome): string {
    var defaultPath := DefaultPath(i18nFilepath, filename, ext);
    match glob(GlobPattern(i18nFilepath, filename, ext))
    case GlobFailed => ""
    case Matches(result) =>
      if |result| <= 1 then OrElse(if result == [] then None else Some(result[0]), defaultPath)
      else if mode == Find then defaultPath
      else OrElse(FindFirst(result, item => Contains(item, filename + ext)),
                  OrElse(FindFirst(result, item => !Contains(item, "index" + ext)), i18nFilepath))
  }

  /** The choice is always the default `index` path, one of the glob's matches, the directory
      itself, or "" when the glob throws. */
  lemma ParseFilepathChoice(i18nFilepath: string, filename: string, mode: MatchMode, ext: string, glob: string -> GlobOutcome)
    ensures var r := ParseFilepath(i18nFilepath, filename, mode, ext, glob);
            var g := glob(GlobPattern(i18nFilepath, filename, ext));
            (g.GlobFailed? ==> r == "")
            && (g.Matches? ==> r == DefaultPath(i18nFilepath, filename, ext) || r == i18nFilepath
                               || exists i :: 0 <= i < |g.paths| && g.paths[i] == r && r != "")
            && (g.Matches? && |g.paths| > 1 && mode == Find ==> r == DefaultPath(i18nFilepath, filename, ext))
  {
  }

  /** Outside FIND mode with several matches, the first non-empty match naming `{filename}{ext}`
      wins. */
  lemma ParseFilepathPrefersFilename(i18nFilepath: string, filename: string, mode: MatchMode, ext: string,
                                     glob: string -> GlobOutcome, k: nat)
    requires glob(GlobPattern(i18nFilepath, filename, ext)).Matches?
    requires var ps := glob(GlobPattern(i18nFilepath, filename, ext)).paths;
             |ps| > 1 && mode != Find && k < |ps| && ps[k] != "" && Contains(ps[k], filename + ext)
             && forall j :: 0 <= j < k ==> !Contains(ps[j], filename + ext)
    ensures ParseFilepath(i18nFilepath, filename, mode, ext, glob) == glob(GlobPattern(i18nFilepath, filename, ext)).paths[k]
  {
    var ps := glob(GlobPattern(i18nFilepath, filename, ext)).paths;
    var f := FindFirst(ps, item => Contains(item, filename + ext));
    assert f.Some?;
    var i :| 0 <= i < |ps| && ps[i] == f.value && Contains(ps[i], filename + ext) && forall j :: 0 <= j < i ==> !Contains(ps[j], filename + ext);
    assert i == k;
  }
}
