/** The module-level `fileCache` of `I18nItem.ts`: parsed locale files keyed by path, filled by
    `readFile` and kept current by the file watcher. Loading a file (ts-node run in a child
    process) is the parameter `load`. */
module Cache {
  import opened Values
  import opened Locales

  /** What `load(filepath)` produces: the parsed module, or a throw. */
  datatype LoadOutcome = Loaded(value: Value) | LoadFailed

  /** The three watcher events `updateFile` is bound to. */
  datatype WatchEvent = Del | Change | Create

  /** The result of `readFile`: the value returned, whether it is the very object the cache now
      holds for that path (so that modifying it modifies the cache), and the cache afterwards. */
  datatype ReadResult = ReadResult(value: Value, shared: bool, files: map<string, Value>)

  /** `readFile(filepath)` without the cache: a loaded value is cached as it is and returned
      when `typeof` says object, `{}` otherwise; a failed load returns `{}` and caches nothing. */
  function ReadUncached(files: map<string, Value>, filepath: string, load: string -> LoadOutcome): (r: ReadResult)
    ensures TypeofObject(r.value)
    ensures r.shared ==> filepath in r.files && r.files[filepath] == r.value
    ensures load(filepath).Loaded? ==> filepath in r.files && r.files[filepath] == load(filepath).value
    ensures load(filepath).LoadFailed? ==> r.files == files
    ensures forall p :: p != filepath ==> (p in r.files <==> p in files) && (p in files ==> r.files[p] == files[p])
  {
    match load(filepath)
    case Loaded(d) => ReadResult(if TypeofObject(d) then d else Obj([]), TypeofObject(d), files[filepath := d])
    case LoadFailed => ReadResult(Obj([]), false, files)
  }

  /** `readFile(filepath, useCache)`: a truthy cached value is returned as it is. */
  function ReadOf(files: map<string, Value>, filepath: string, useCache: bool, load: string -> LoadOutcome): (r: ReadResult)
    ensures r.shared ==> filepath in r.files && r.files[filepath] == r.value
    ensures forall p :: p != filepath ==> (p in r.files <==> p in files) && (p in files ==> r.files[p] == files[p])
  {
    if useCache && filepath in files && Truthy(files[filepath]) then ReadResult(files[filepath], true, files)
    else ReadUncached(files, filepath, load)
  }

  /** The extensions `updateFile` reacts to. */
  const WatchedExts: set<string> := {".json", ".yml", ".js"}

  /** The cache after `updateFile(type, filepath)`. */
  function Updated(files: map<string, Value>, event: WatchEvent, filepath: string, load: string -> LoadOutcome)
    : map<string, Value>
  {
    if ParsedExt(filepath) !in WatchedExts then files
    else match event
      case Del => files - {filepath}
      case _ => var r := ReadUncached(files, filepath, load); r.files[filepath := r.value]
  }

  class FileCache {
    var files: map<string, Value>

    constructor()
      ensures files == map[]
    {
      files := map[];
    }

    /** `readFile(filepath, useCache)`. */
    method ReadFile(filepath: string, useCache: bool, load: string -> LoadOutcome) returns (value: Value, shared: bool)
      modifies this
      ensures ReadResult(value, shared, files) == ReadOf(old(files), filepath, useCache, load)
    {
      if useCache && filepath in files && Truthy(files[filepath]) {
        return files[filepath], true;
      }
      match load(filepath)
      case Loaded(d) =>
        files := files[filepath := d];
        if TypeofObject(d) {
          value, shared := d, true;
        } else {
          value, shared := Obj([]), false;
        }
      case LoadFailed =>
        value, shared := Obj([]), false;
    }

    /** The watcher's `updateFile(type, { fsPath: filepath })`. */
    method UpdateFile(event: WatchEvent, filepath: string, load: string -> LoadOutcome)
      modifies this
      ensures files == Updated(old(files), event, filepath, load)
    {
      if ParsedExt(filepath) !in WatchedExts {
        return;
      }
      match event
      case Del =>
        files := files - {filepath};
      case Change =>
        var v, _ := ReadFile(filepath, false, load);
        files := files[filepath := v];
      case Create =>
        var v, _ := ReadFile(filepath, false, load);
        files := files[filepath := v];
    }
  }

  /** A read that bypasses the cache, or finds nothing truthy there, returns an object (or
      `null`); only a truthy cached entry can come back as anything else. */
  lemma ReadReturnsObject(files: map<string, Value>, filepath: string, useCache: bool, load: string -> LoadOutcome)
    ensures !TypeofObject(ReadOf(files, filepath, useCache, load).value)
            ==> useCache && filepath in files && Truthy(files[filepath]) && files[filepath] == ReadOf(files, filepath, useCache, load).value
  {
  }

  /** Once a file has loaded as an object, a cached read returns that same object without loading
      again, whatever `load` would now produce, and leaves the cache as it is. */
  lemma CacheHit(files: map<string, Value>, filepath: string, load: string -> LoadOutcome, later: string -> LoadOutcome)
    requires load(filepath).Loaded? && IsObjectLike(load(filepath).value)
    ensures var first := ReadOf(files, filepath, false, load);
            ReadOf(first.files, filepath, true, later) == ReadResult(first.value, true, first.files)
  {
  }

  /** A failed load changes nothing in the cache and returns a fresh, unshared `{}`. */
  lemma FailedLoadKeepsCache(files: map<string, Value>, filepath: string, useCache: bool, load: string -> LoadOutcome)
    requires load(filepath).LoadFailed?
    requires !(useCache && filepath in files && Truthy(files[filepath]))
    ensures ReadOf(files, filepath, useCache, load) == ReadResult(Obj([]), false, files)
  {
  }

  /** After a change or create event on a watched file its cache entry is what an uncached read
      returns, so always an object (or `null`), `{}` when the load failed; a delete removes the
      entry; an unwatched extension changes nothing; other paths are never touched. */
  lemma UpdatedEntry(files: map<string, Value>, event: WatchEvent, filepath: string, load: string -> LoadOutcome)
    ensures var u := Updated(files, event, filepath, load);
            (ParsedExt(filepath) !in WatchedExts ==> u == files)
            && (ParsedExt(filepath) in WatchedExts && event.Del? ==> filepath !in u)
            && (ParsedExt(filepath) in WatchedExts && !event.Del? ==>
                  filepath in u && TypeofObject(u[filepath])
                  && (load(filepath).LoadFailed? ==> u[filepath] == Obj([]))
                  && (load(filepath).Loaded? && TypeofObject(load(filepath).value) ==> u[filepath] == load(filepath).value))
            && forall p :: p != filepath ==> (p in u <==> p in files) && (p in files ==> u[p] == files[p])
  {
  }
  /** Reading only ever adds to the cache: every entry of `before` is still there, and every
      entry that is new or different holds what `load` produced for its path. */
  ghost predicate OnlyLoads(before: map<string, Value>, after: map<string, Value>, load: string -> LoadOutcome) {
    (forall p :: p in before ==> p in after)
    && forall p :: p in after && (p !in before || after[p] != before[p]) ==> load(p) == Loaded(after[p])
  }

  /** `readFile` stores nothing but the module it loaded. */
  lemma ReadOnlyLoads(files: map<string, Value>, filepath: string, useCache: bool, load: string -> LoadOutcome)
    ensures OnlyLoads(files, ReadOf(files, filepath, useCache, load).files, load)
  {
  }

  /** Two stretches of reading are one. */
  lemma OnlyLoadsTrans(a: map<string, Value>, b: map<string, Value>, c: map<string, Value>, load: string -> LoadOutcome)
    requires OnlyLoads(a, b, load) && OnlyLoads(b, c, load)
    ensures OnlyLoads(a, c, load)
  {
    forall p | p in c && (p !in a || c[p] != a[p])
      ensures load(p) == Loaded(c[p])
    {
      if p in b && c[p] == b[p] {
        assert p !in a || b[p] != a[p];
      }
    }
  }
}
