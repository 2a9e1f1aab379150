/** Writing records back in `I18nItem`: `writeI18n`, which stores each record's value in the
    cached file object and rewrites the file's text in one pass, and `removeI18n`, which deletes
    a key from every language's cached object and file. The file texts are a map from path to
    text (`disk`), split into chunks by `tokenize` as the rewrite's regular expression splits
    them; whether writing a path fails is `writeFails`. */
module Persist {
  import opened Wrappers
  import opened Strings
  import opened Values
  import opened Locales
  import opened Cache
  import opened Rewriter
  import opened Resolve

  /** The file system as the two operations see it, besides the file texts. */
  datatype Fs = Fs(tokenize: string -> seq<Chunk>, writeFails: string -> bool)

  /** Draws of `Math.random()`, one per record. */
  predicate Draws(randoms: seq<real>) {
    forall i :: 0 <= i < |randoms| ==> 0.0 <= randoms[i] < 1.0
  }

  // ---------------------------------------------------------------------------------------
  // writeI18n

  /** How one record's promise settles: resolved after writing `data` to `filepath`, or
      rejected because `keypath in file` threw, `readFileSync` found no file, `dataStringify`
      threw on a text without pairs, or `fs.writeFile` reported an error. */
  datatype WriteOutcome =
    | Written(filepath: string, data: string)
    | InThrew
    | ReadFailed
    | StringifyThrew
    | WriteFailed

  /** What became of `keypath in file` in one step: skipped, because the `&&` stops at
      `mode !== MatchMode.ADD` in ADD mode; thrown, on a file that is not an object; or answered. */
  datatype Probe = Skipped | Threw | Answered(has: bool)

  /** One record's step: its outcome, what the `in` probe did, the shared `mode` after the
      step, and the cache after it. */
  datatype WriteStepResult = WriteStepResult(outcome: WriteOutcome, probe: Probe, mode: MatchMode, files: map<string, Value>)

  /** The body of one `new Promise` executor in `writeI18n`. */
  function WriteStep(files: map<string, Value>, r: TransRecord, mode: MatchMode, random: real, load: string -> LoadOutcome,
                     disk: map<string, string>, fs: Fs): WriteStepResult
    requires 0.0 <= random < 1.0
  {
    var rr := ReadOf(files, r.filepath, true, load);
    var probe := if mode == Add then Skipped
                 else match HasIn(rr.value, r.keypath) case None => Threw case Some(has) => Answered(has);
    if probe.Threw? then WriteStepResult(InThrew, Threw, mode, rr.files)
    else
      var m := if probe == Answered(false) then Add else mode;
      // `set(file, keypath, text)` changes the cache only when `file` is the cached object
      var files' := if rr.shared then rr.files[r.filepath := SetPath(rr.value, r.keypath, r.text)] else rr.files;
      var outcome :=
        if r.filepath !in disk then ReadFailed
        else match DataStringifySpec(fs.tokenize(disk[r.filepath]), r.keypath, false, r.text, m, random)
          case Err(_) => StringifyThrew
          case Ok(data) => if fs.writeFails(r.filepath) then WriteFailed else Written(r.filepath, data);
      WriteStepResult(outcome, probe, m, files')
  }

  /** All steps of `writeI18n` in record order: the outcomes, the probes and modes one per
      record, and the cache at the end. Every `dataStringify` reads the texts as they were when
      the call began: the writes are asynchronous and land after the last executor has run. */
  datatype WriteRun = WriteRun(outcomes: seq<WriteOutcome>, probes: seq<Probe>, modes: seq<MatchMode>, files: map<string, Value>)

  function WriteFrom(files: map<string, Value>, records: seq<TransRecord>, mode: MatchMode, randoms: seq<real>,
                     load: string -> LoadOutcome, disk: map<string, string>, fs: Fs): (w: WriteRun)
    requires |randoms| == |records| && Draws(randoms)
    ensures |w.outcomes| == |w.probes| == |w.modes| == |records|
    decreases |records|
  {
    if records == [] then WriteRun([], [], [], files)
    else
      var s := WriteStep(files, records[0], mode, randoms[0], load, disk, fs);
      var rest := WriteFrom(s.files, records[1..], s.mode, randoms[1..], load, disk, fs);
      WriteRun([s.outcome] + rest.outcomes, [s.probe] + rest.probes, [s.mode] + rest.modes, rest.files)
  }

  lemma WriteFromCons(files: map<string, Value>, records: seq<TransRecord>, mode: MatchMode, randoms: seq<real>,
                      load: string -> LoadOutcome, disk: map<string, string>, fs: Fs)
    requires |randoms| == |records| && Draws(randoms) && records != []
    ensures var s := WriteStep(files, records[0], mode, randoms[0], load, disk, fs);
            var rest := WriteFrom(s.files, records[1..], s.mode, randoms[1..], load, disk, fs);
            WriteFrom(files, records, mode, randoms, load, disk, fs)
            == WriteRun([s.outcome] + rest.outcomes, [s.probe] + rest.probes, [s.mode] + rest.modes, rest.files)
  {
  }

  /** `Promise.all(writePromise)` resolves exactly when every record's promise does. */
  predicate AllWritten(outcomes: seq<WriteOutcome>) {
    forall i :: 0 <= i < |outcomes| ==> outcomes[i].Written?
  }

  /** A run with the outcomes, probes and modes of earlier steps put in front. */
  function Prepended(outcomes: seq<WriteOutcome>, probes: seq<Probe>, modes: seq<MatchMode>, w: WriteRun): WriteRun {
    WriteRun(outcomes + w.outcomes, probes + w.probes, modes + w.modes, w.files)
  }

  lemma PrependedAppend(outcomes: seq<WriteOutcome>, probes: seq<Probe>, modes: seq<MatchMode>,
                        o: WriteOutcome, p: Probe, m: MatchMode, w: WriteRun)
    ensures Prepended(outcomes, probes, modes, WriteRun([o] + w.outcomes, [p] + w.probes, [m] + w.modes, w.files))
            == Prepended(outcomes + [o], probes + [p], modes + [m], w)
  {
    assert outcomes + ([o] + w.outcomes) == (outcomes + [o]) + w.outcomes;
    assert probes + ([p] + w.probes) == (probes + [p]) + w.probes;
    assert modes + ([m] + w.modes) == (modes + [m]) + w.modes;
  }

  lemma DrawsSuffix(randoms: seq<real>, i: nat)
    requires Draws(randoms) && i < |randoms|
    ensures Draws(randoms[i + 1..])
  {
    var t := randoms[i + 1..];
    forall k | 0 <= k < |t| ensures 0.0 <= t[k] < 1.0 { assert t[k] == randoms[i + 1 + k]; }
  }

  /** The loop of `writeI18n` after the step on record `i`. */
  lemma WriteLoopStep(before: map<string, Value>, records: seq<TransRecord>, randoms: seq<real>, i: nat, m: MatchMode,
                      o: WriteOutcome, p: Probe, m': MatchMode, after: map<string, Value>,
                      load: string -> LoadOutcome, disk: map<string, string>, fs: Fs)
    requires |randoms| == |records| && Draws(randoms) && i < |records|
    requires WriteStepResult(o, p, m', after) == WriteStep(before, records[i], m, randoms[i], load, disk, fs)
    ensures Draws(randoms[i + 1..])
    ensures var rest := WriteFrom(after, records[i + 1..], m', randoms[i + 1..], load, disk, fs);
            WriteFrom(before, records[i..], m, randoms[i..], load, disk, fs)
            == WriteRun([o] + rest.outcomes, [p] + rest.probes, [m'] + rest.modes, rest.files)
  {
    var t := randoms[i..];
    assert Draws(t) by {
      forall k | 0 <= k < |t| ensures 0.0 <= t[k] < 1.0 { assert t[k] == randoms[i + k]; }
    }
    WriteFromCons(before, records[i..], m, randoms[i..], load, disk, fs);
    DrawsSuffix(randoms, i);
    assert records[i..][1..] == records[i + 1..] && randoms[i..][1..] == randoms[i + 1..];
    assert records[i..][0] == records[i] && randoms[i..][0] == randoms[i];
  }

  /** One executor of `writeI18n`. */
  method WriteOne(cache: FileCache, r: TransRecord, mode: MatchMode, random: real, load: string -> LoadOutcome,
                  disk: map<string, string>, fs: Fs)
    returns (outcome: WriteOutcome, probe: Probe, mode': MatchMode)
    requires 0.0 <= random < 1.0
    modifies cache
    ensures WriteStepResult(outcome, probe, mode', cache.files) == WriteStep(old(cache.files), r, mode, random, load, disk, fs)
  {
    var file, shared := cache.ReadFile(r.filepath, true, load);
    if mode == Add {
      probe := Skipped;                               // `&&` stops before `keypath in file`
    } else {
      var has := HasIn(file, r.keypath);
      if has.None? {
        return InThrew, Threw, mode;
      }
      probe := Answered(has.value);
    }
    mode' := if probe == Answered(false) then Add else mode;
    if shared {
      cache.files := cache.files[r.filepath := SetPath(file, r.keypath, r.text)];   // `file` is the cached object
    }
    if r.filepath !in disk {
      return ReadFailed, probe, mode';
    }
    var data := DataStringify(fs.tokenize(disk[r.filepath]), r.keypath, false, r.text, mode', random);
    if data.Err? {
      outcome := StringifyThrew;
    } else if fs.writeFails(r.filepath) {
      outcome := WriteFailed;
    } else {
      outcome := Written(r.filepath, data.value);
    }
  }

  /** `writeI18n(transData, mode)`: `ok` is whether the returned promise resolves. */
  method WriteI18n(cache: FileCache, records: seq<TransRecord>, mode: MatchMode, randoms: seq<real>,
                   load: string -> LoadOutcome, disk: map<string, string>, fs: Fs)
    returns (outcomes: seq<WriteOutcome>, ok: bool)
    requires |randoms| == |records| && Draws(randoms)
    modifies cache
    ensures var w := WriteFrom(old(cache.files), records, mode, randoms, load, disk, fs);
            outcomes == w.outcomes && cache.files == w.files
    ensures ok <==> AllWritten(outcomes)
  {
    outcomes := [];
    ghost var probes: seq<Probe> := [];
    ghost var modes: seq<MatchMode> := [];
    ghost var start := cache.files;
    var m := mode;
    var i := 0;
    while i < |records|
      invariant 0 <= i <= |records| && Draws(randoms[i..])
      invariant WriteFrom(start, records, mode, randoms, load, disk, fs)
                == Prepended(outcomes, probes, modes, WriteFrom(cache.files, records[i..], m, randoms[i..], load, disk, fs))
    {
      ghost var before := cache.files;
      var o, p, m' := WriteOne(cache, records[i], m, randoms[i], load, disk, fs);
      WriteLoopStep(before, records, randoms, i, m, o, p, m', cache.files, load, disk, fs);
      PrependedAppend(outcomes, probes, modes, o, p, m', WriteFrom(cache.files, records[i + 1..], m', randoms[i + 1..], load, disk, fs));
      outcomes, probes, modes, m := outcomes + [o], probes + [p], modes + [m'], m';
      i := i + 1;
    }
    assert records[i..] == [] && randoms[i..] == [];
    assert outcomes + [] == outcomes && probes + [] == probes && modes + [] == modes;
    ok := AllResolve(outcomes);
  }

  /** Whether `Promise.all` over the settled promises resolves. */
  method AllResolve(outcomes: seq<WriteOutcome>) returns (ok: bool)
    ensures ok <==> AllWritten(outcomes)
  {
    ok := true;
    var j := 0;
    while j < |outcomes|
      invariant 0 <= j <= |outcomes|
      invariant ok <==> forall k :: 0 <= k < j ==> outcomes[k].Written?
    {
      ok := ok && outcomes[j].Written?;
      j := j + 1;
    }
  }

  // ---------------------------------------------------------------------------------------
  // Properties of writeI18n

  /** The mode is shared by all records and only ever switches to ADD: after record `i` it is
      ADD exactly when it started as ADD or `keypath in file` answered false for some record up
      to `i`, and otherwise it is still the mode the call began with. */
  predicate ModeTrace(modes: seq<MatchMode>, probes: seq<Probe>, mode: MatchMode)
    requires |modes| == |probes|
  {
    forall i :: 0 <= i < |modes| ==>
      (modes[i] == Add <==> mode == Add || exists j :: 0 <= j <= i && probes[j] == Answered(false))
      && (modes[i] == Add || modes[i] == mode)
  }

  /** A first step that keeps the rule extends a trace that keeps it from the mode it left. */
  lemma ModeTraceCons(m0: MatchMode, p0: Probe, modes: seq<MatchMode>, probes: seq<Probe>, mode: MatchMode)
    requires |modes| == |probes|
    requires (m0 == Add <==> mode == Add || p0 == Answered(false)) && (m0 == Add || m0 == mode)
    requires ModeTrace(modes, probes, m0)
    ensures ModeTrace([m0] + modes, [p0] + probes, mode)
  {
    var ms, ps := [m0] + modes, [p0] + probes;
    forall i | 0 <= i < |ms|
      ensures (ms[i] == Add <==> mode == Add || exists j :: 0 <= j <= i && ps[j] == Answered(false))
      ensures (ms[i] == Add || ms[i] == mode)
    {
      if i == 0 {
        if p0 == Answered(false) {
          assert ps[0] == Answered(false);
        }
      } else {
        assert ms[i] == modes[i - 1];
        if exists j :: 0 <= j <= i - 1 && probes[j] == Answered(false) {
          var j :| 0 <= j <= i - 1 && probes[j] == Answered(false);
          assert ps[j + 1] == probes[j];
        }
        if exists j :: 0 <= j <= i && ps[j] == Answered(false) {
          var j :| 0 <= j <= i && ps[j] == Answered(false);
          if j > 0 { assert probes[j - 1] == ps[j]; }
        }
        if p0 == Answered(false) {
          assert ps[0] == Answered(false);
        }
      }
    }
  }

  lemma {:induction false} ModeTurnsAdd(files: map<string, Value>, records: seq<TransRecord>, mode: MatchMode, randoms: seq<real>,
                                        load: string -> LoadOutcome, disk: map<string, string>, fs: Fs)
    requires |randoms| == |records| && Draws(randoms)
    ensures var w := WriteFrom(files, records, mode, randoms, load, disk, fs);
            ModeTrace(w.modes, w.probes, mode)
    decreases |records|
  {
    if records != [] {
      var s := WriteStep(files, records[0], mode, randoms[0], load, disk, fs);
      var rest := WriteFrom(s.files, records[1..], s.mode, randoms[1..], load, disk, fs);
      ModeTurnsAdd(s.files, records[1..], s.mode, randoms[1..], load, disk, fs);
      var w := WriteFrom(files, records, mode, randoms, load, disk, fs);
      assert w.modes == [s.mode] + rest.modes && w.probes == [s.probe] + rest.probes;
      ModeTraceCons(s.mode, s.probe, rest.modes, rest.probes, mode);
    }
  }

  /** A record whose file is already cached as an array-free object writes through to the
      cache: the cached object gets the value at its key path, so a later read of that path
      returns it, and the probe is `in` on that object. */
  lemma WriteThroughCache(files: map<string, Value>, r: TransRecord, mode: MatchMode, random: real, load: string -> LoadOutcome,
                          disk: map<string, string>, fs: Fs)
    requires 0.0 <= random < 1.0
    requires r.filepath in files && files[r.filepath].Obj? && ArrayFree(files[r.filepath])
    ensures var s := WriteStep(files, r, mode, random, load, disk, fs);
            var fields := files[r.filepath].fields;
            s.probe == (if mode == Add then Skipped else Answered(Lookup(fields, r.keypath).Some? || r.keypath in ObjectPrototypeNames))
            && s.files == files[r.filepath := SetPath(files[r.filepath], r.keypath, r.text)]
            && GetPath(s.files[r.filepath], r.keypath) == r.text
  {
    GetSet(files[r.filepath], Split(r.keypath, '.'), r.text);
  }

  /** When the file is neither cached truthily nor loadable, the value is set on a throwaway
      `{}`: the cache is left exactly as it was, and the step still rewrites the file's text. */
  lemma WriteToUnloadableFile(files: map<string, Value>, r: TransRecord, mode: MatchMode, random: real, load: string -> LoadOutcome,
                              disk: map<string, string>, fs: Fs)
    requires 0.0 <= random < 1.0
    requires load(r.filepath).LoadFailed? && !(r.filepath in files && Truthy(files[r.filepath]))
    ensures var s := WriteStep(files, r, mode, random, load, disk, fs);
            s.files == files && s.probe == (if mode == Add then Skipped else Answered(r.keypath in ObjectPrototypeNames))
            && (r.filepath in disk && PairCount(fs.tokenize(disk[r.filepath])) > 0 && !fs.writeFails(r.filepath) ==> s.outcome.Written?)
  {
  }

  /** In ADD mode `in` is never evaluated, so the step cannot throw there: whatever the cache
      holds or the load gives (`null`, a string, nothing), a file text with pairs is rewritten
      and written, and the mode stays ADD. */
  lemma WriteInAddModeSkipsProbe(files: map<string, Value>, r: TransRecord, random: real, load: string -> LoadOutcome,
                                 disk: map<string, string>, fs: Fs)
    requires 0.0 <= random < 1.0
    requires r.filepath in disk && PairCount(fs.tokenize(disk[r.filepath])) > 0 && !fs.writeFails(r.filepath)
    ensures var s := WriteStep(files, r, Add, random, load, disk, fs);
            s.probe == Skipped && s.mode == Add && s.outcome.Written? && s.outcome.filepath == r.filepath
  {
  }

  /** A key the cached object lacks switches the mode to ADD, and then a file text without the
      key gets exactly one new pair carrying it, in front of the pair the random draw picks. */
  lemma WriteAddsMissingKey(files: map<string, Value>, r: TransRecord, mode: MatchMode, random: real, load: string -> LoadOutcome,
                            disk: map<string, string>, fs: Fs)
    requires 0.0 <= random < 1.0
    requires r.filepath in files && files[r.filepath].Obj? && Lookup(files[r.filepath].fields, r.keypath).None?
    requires r.keypath !in ObjectPrototypeNames && '"' !in r.keypath
    requires r.filepath in disk && !fs.writeFails(r.filepath)
    requires var cs := fs.tokenize(disk[r.filepath]); WellFormed(cs) && PairCount(cs) > 0 && KeyCount(cs, r.keypath) == 0
    ensures var s := WriteStep(files, r, mode, random, load, disk, fs);
            var cs := fs.tokenize(disk[r.filepath]);
            s.mode == Add && s.outcome.Written?
            && exists j :: 0 <= j < |cs| && IsOtherPair(cs[j], r.keypath)
                           && s.outcome.data == RenderAll(cs[..j] + [NewPair(cs[j], r.keypath, AddText(r.text))] + cs[j..])
  {
    var cs := fs.tokenize(disk[r.filepath]);
    AddNewKey(cs, r.keypath, r.text, random);
    var j := NthOtherPair(cs, r.keypath, RandomStart(random, PairCount(cs)));
    assert IsOtherPair(cs[j], r.keypath);
  }

  /** Outside ADD mode, a key the cached object holds is edited in place: every pair carrying
      it in the file text gets the new value, and nothing else changes. */
  lemma WriteEditsPresentKey(files: map<string, Value>, r: TransRecord, mode: MatchMode, random: real, load: string -> LoadOutcome,
                             disk: map<string, string>, fs: Fs)
    requires 0.0 <= random < 1.0 && mode != Add
    requires r.filepath in files && files[r.filepath].Obj? && Lookup(files[r.filepath].fields, r.keypath).Some?
    requires r.filepath in disk && !fs.writeFails(r.filepath)
    requires var cs := fs.tokenize(disk[r.filepath]); WellFormed(cs) && PairCount(cs) > 0
    ensures var s := WriteStep(files, r, mode, random, load, disk, fs);
            s.mode == mode
            && s.outcome == Written(r.filepath, RenderAll(Edited(fs.tokenize(disk[r.filepath]), r.keypath, ToTemplate(r.text))))
  {
    var cs := fs.tokenize(disk[r.filepath]);
    EditReplacesValues(cs, r.keypath, r.text, mode, RandomStart(random, PairCount(cs)));
  }

  /** `writeI18n` touches the cache only at the paths of its records. */
  lemma {:induction false} WriteTouchesOnlyRecordFiles(files: map<string, Value>, records: seq<TransRecord>, mode: MatchMode,
                                                       randoms: seq<real>, load: string -> LoadOutcome, disk: map<string, string>, fs: Fs,
                                                       p: string)
    requires |randoms| == |records| && Draws(randoms)
    requires forall i :: 0 <= i < |records| ==> records[i].filepath != p
    ensures var w := WriteFrom(files, records, mode, randoms, load, disk, fs);
            (p in w.files <==> p in files) && (p in files ==> w.files[p] == files[p])
    decreases |records|
  {
    if records != [] {
      var s := WriteStep(files, records[0], mode, randoms[0], load, disk, fs);
      WriteTouchesOnlyRecordFiles(s.files, records[1..], s.mode, randoms[1..], load, disk, fs, p);
    }
  }

  // ---------------------------------------------------------------------------------------
  // removeI18n

  /** Why `removeI18n` stops: `delete file[keypath]` on a path the cache holds nothing (or
      `null`) for, a missing file, a text without pairs, or a failed `writeFileSync`. */
  datatype RemoveError =
    | NotCached(filepath: string)
    | FileUnreadable(filepath: string)
    | NoPairsIn(filepath: string)
    | WriteRejected(filepath: string)

  /** The cache, the file texts and how the loop ended. */
  datatype RemoveRun = RemoveRun(files: map<string, Value>, disk: map<string, string>, error: Option<RemoveError>)

  /** `delete file[keypath]`: removes the own property of that exact name from an object; on
      any other value it changes nothing. */
  function DeleteKey(v: Value, keypath: string): (d: Value)
    ensures v.Obj? ==> d.Obj? && Lookup(d.fields, keypath).None?
                       && forall m :: m != keypath ==> Lookup(d.fields, m) == Lookup(v.fields, m)
    ensures !v.Obj? ==> d == v
  {
    if v.Obj? then Obj(DeleteField(v.fields, keypath)) else v
  }

  /** The `forEach` callback of `removeI18n` on one record. */
  function RemoveStep(files: map<string, Value>, disk: map<string, string>, r: TransRecord, fs: Fs): RemoveRun {
    var fp := r.filepath;
    if fp !in files || files[fp].Undef? || files[fp].Null? then RemoveRun(files, disk, Some(NotCached(fp)))
    else
      var files' := files[fp := DeleteKey(files[fp], r.keypath)];
      if fp !in disk then RemoveRun(files', disk, Some(FileUnreadable(fp)))
      else match DataStringifySpec(fs.tokenize(disk[fp]), r.keypath, true, Undef, Write, 0.0)
        case Err(_) => RemoveRun(files', disk, Some(NoPairsIn(fp)))
        case Ok(data) => if fs.writeFails(fp) then RemoveRun(files', disk, Some(WriteRejected(fp)))
                         else RemoveRun(files', disk[fp := data], None)
  }

  /** The `forEach` loop: each write is synchronous, so later records see earlier writes; the
      first throw ends the loop and what was done before it stays done. */
  function RemoveFrom(files: map<string, Value>, disk: map<string, string>, records: seq<TransRecord>, fs: Fs): RemoveRun
    decreases |records|
  {
    if records == [] then RemoveRun(files, disk, None)
    else
      var s := RemoveStep(files, disk, records[0], fs);
      if s.error.Some? then s else RemoveFrom(s.files, s.disk, records[1..], fs)
  }

  /** `removeI18n(key)`: the records come from `getI18n(key)` in READ mode. */
  function RemoveSpec(files: map<string, Value>, disk: map<string, string>, root: Root, common: Option<Root>, key: string,
                      env: Env, fs: Fs): RemoveRun
  {
    var res := I18nOf(files, root, common, key, Read, env);
    RemoveFrom(res.files, disk, res.records, fs)
  }

  /** The callback on one record. */
  method RemoveOne(cache: FileCache, disk: map<string, string>, r: TransRecord, fs: Fs)
    returns (disk': map<string, string>, error: Option<RemoveError>)
    modifies cache
    ensures RemoveRun(cache.files, disk', error) == RemoveStep(old(cache.files), disk, r, fs)
  {
    var fp := r.filepath;
    disk' := disk;
    if fp !in cache.files || cache.files[fp].Undef? || cache.files[fp].Null? {
      return disk', Some(NotCached(fp));
    }
    cache.files := cache.files[fp := DeleteKey(cache.files[fp], r.keypath)];
    if fp !in disk {
      return disk', Some(FileUnreadable(fp));
    }
    var data := DataStringify(fs.tokenize(disk[fp]), r.keypath, true, Undef, Write, 0.0);
    if data.Err? {
      return disk', Some(NoPairsIn(fp));
    }
    if fs.writeFails(fp) {
      return disk', Some(WriteRejected(fp));
    }
    disk' := disk[fp := data.value];
    error := None;
  }

  method RemoveI18n(cache: FileCache, root: Root, common: Option<Root>, key: string, env: Env,
                    disk: map<string, string>, fs: Fs)
    returns (disk': map<string, string>, error: Option<RemoveError>)
    modifies cache
    ensures RemoveRun(cache.files, disk', error) == RemoveSpec(old(cache.files), disk, root, common, key, env, fs)
  {
    var records := GetI18n(cache, root, common, key, Read, env);
    ghost var start := cache.files;
    disk' := disk;
    error := None;
    var i := 0;
    while i < |records|
      invariant 0 <= i <= |records|
      invariant RemoveFrom(start, disk, records, fs) == RemoveFrom(cache.files, disk', records[i..], fs)
      invariant error.None?
    {
      ghost var before := cache.files;
      ghost var beforeDisk := disk';
      disk', error := RemoveOne(cache, disk', records[i], fs);
      assert records[i..][0] == records[i] && records[i..][1..] == records[i + 1..];
      if error.Some? {
        assert RemoveFrom(before, beforeDisk, records[i..], fs) == RemoveRun(cache.files, disk', error);
        return;
      }
      i := i + 1;
    }
    assert records[i..] == [];
  }

  // ---------------------------------------------------------------------------------------
  // Properties of removeI18n

  /** A record whose path is cached and whose file has pairs and can be written: the key is
      gone from the cached object, every pair carrying it is cut from the file text, and no
      other path changes in either. */
  lemma RemoveStepDeletes(files: map<string, Value>, disk: map<string, string>, r: TransRecord, fs: Fs)
    requires r.filepath in files && !files[r.filepath].Undef? && !files[r.filepath].Null?
    requires r.filepath in disk && PairCount(fs.tokenize(disk[r.filepath])) > 0 && !fs.writeFails(r.filepath)
    ensures var s := RemoveStep(files, disk, r, fs);
            s.error.None?
            && s.files == files[r.filepath := DeleteKey(files[r.filepath], r.keypath)]
            && s.disk == disk[r.filepath := RenderAll(Deleted(fs.tokenize(disk[r.filepath]), r.keypath))]
  {
    var cs := fs.tokenize(disk[r.filepath]);
    DeleteRemovesPairs(cs, r.keypath, Undef, Write, RandomStart(0.0, PairCount(cs)));
  }

  /** A throw leaves the key deleted from the cached object while the file text is unchanged
      when the text has no pairs or cannot be written, and nothing changed at all when the
      path was not cached. */
  lemma RemoveStepFails(files: map<string, Value>, disk: map<string, string>, r: TransRecord, fs: Fs)
    ensures var s := RemoveStep(files, disk, r, fs);
            s.error.Some? ==> s.disk == disk
                              && (s.error.value.NotCached? ==> s.files == files)
                              && (!s.error.value.NotCached? ==> s.files == files[r.filepath := DeleteKey(files[r.filepath], r.keypath)])
    ensures var s := RemoveStep(files, disk, r, fs);
            s.error.Some? <==> r.filepath !in files || files[r.filepath].Undef? || files[r.filepath].Null?
                               || r.filepath !in disk || PairCount(fs.tokenize(disk[r.filepath])) == 0 || fs.writeFails(r.filepath)
  {
  }

  /** Nothing outside the records' paths changes, in the cache or on disk. */
  lemma {:induction false} RemoveTouchesOnlyRecordFiles(files: map<string, Value>, disk: map<string, string>,
                                                        records: seq<TransRecord>, fs: Fs, p: string)
    requires forall i :: 0 <= i < |records| ==> records[i].filepath != p
    ensures var run := RemoveFrom(files, disk, records, fs);
            (p in run.files <==> p in files) && (p in files ==> run.files[p] == files[p])
            && (p in run.disk <==> p in disk) && (p in disk ==> run.disk[p] == disk[p])
    decreases |records|
  {
    if records != [] {
      var s := RemoveStep(files, disk, records[0], fs);
      if s.error.None? {
        RemoveTouchesOnlyRecordFiles(s.files, s.disk, records[1..], fs, p);
      }
    }
  }

  /** With one record per file and no throw, every file ends up as its original text with
      every pair carrying that record's key cut out, and every cached object without the key. */
  lemma {:induction false} RemoveAllDistinct(files: map<string, Value>, disk: map<string, string>, records: seq<TransRecord>, fs: Fs)
    requires forall i, j :: 0 <= i < j < |records| ==> records[i].filepath != records[j].filepath
    requires RemoveFrom(files, disk, records, fs).error.None?
    ensures var run := RemoveFrom(files, disk, records, fs);
            forall i :: 0 <= i < |records| ==>
              var fp := records[i].filepath;
              fp in disk && fp in files && fp in run.disk && fp in run.files
              && run.disk[fp] == RenderAll(Deleted(fs.tokenize(disk[fp]), records[i].keypath))
              && run.files[fp] == DeleteKey(files[fp], records[i].keypath)
    decreases |records|
  {
    if records != [] {
      var r := records[0];
      var s := RemoveStep(files, disk, r, fs);
      RemoveStepFails(files, disk, r, fs);
      RemoveStepDeletes(files, disk, r, fs);
      var rest := records[1..];
      assert forall i, j :: 0 <= i < j < |rest| ==> rest[i].filepath != rest[j].filepath by {
        forall i, j | 0 <= i < j < |rest| ensures rest[i].filepath != rest[j].filepath {
          assert rest[i] == records[i + 1] && rest[j] == records[j + 1];
        }
      }
      RemoveAllDistinct(s.files, s.disk, rest, fs);
      assert forall i :: 0 <= i < |rest| ==> rest[i].filepath != r.filepath by {
        forall i | 0 <= i < |rest| ensures rest[i].filepath != r.filepath { assert rest[i] == records[i + 1]; }
      }
      RemoveTouchesOnlyRecordFiles(s.files, s.disk, rest, fs, r.filepath);
      var run := RemoveFrom(files, disk, records, fs);
      forall i | 0 <= i < |records|
        ensures var fp := records[i].filepath;
                fp in disk && fp in files && fp in run.disk && fp in run.files
                && run.disk[fp] == RenderAll(Deleted(fs.tokenize(disk[fp]), records[i].keypath))
                && run.files[fp] == DeleteKey(files[fp], records[i].keypath)
      {
        if i > 0 {
          assert records[i] == rest[i - 1];
          assert records[i].filepath != r.filepath;
        }
      }
    }
  }
}
