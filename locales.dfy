/** The locale root as `I18nItem` sees it: the directory listing turned into language
    entries (`lngs`), the structure type fixed at construction, and the match modes. */
module Locales {
  import opened Wrappers
  import opened Strings
  import opened Utils

  /** `StructureType`: one directory per locale (DIR) or one file per locale (FILE). */
  datatype StructureType = Dir | File

  /** `MatchMode`: the caller's intent, threaded through resolution and rewriting. */
  datatype MatchMode = Read | Write | Add | Find

  /** One name returned by `readdirSync` for the locale root, with what `lstatSync` says of it. */
  datatype DirEntry = DirEntry(pathname: string, isDirectory: bool)

  /** `ILng`: one recognised language of a locale root. */
  datatype Lng = Lng(localepath: string, filepath: string, isDirectory: bool, originLng: string, lng: string)

  /** `I18nItem`: its fields are set once, in the constructor. */
  datatype I18nItem = I18nItem(localepath: string, structureType: StructureType, fileExt: string)

  /** `FILE_EXT.Js`, the extension every instance uses. */
  const JsExt: string := ".js"

  /** `path.join`/`path.resolve` of a directory and a name, without normalisation. */
  function JoinPath(dir: string, name: string): string {
    dir + "/" + name
  }

  /** `path.parse(base).name` for a base name: everything before the last '.', unless that dot
      is the first character or the name is "..". */
  function ParsedName(base: string): (name: string)
    ensures name <= base
    ensures '.' !in base ==> name == base
    ensures '/' !in base ==> name + ParsedExt(base) == base
  {
    var k := LastIndexOf(base, '.');
    var name := if k <= 0 || base == ".." then base else base[..k];
    assert '/' !in base ==> name + ParsedExt(base) == base by {
      if '/' !in base { ExtOfBaseName(base); }
    }
    name
  }

  /** On a name without '/', `ParsedExt` is what follows the name `ParsedName` keeps. */
  lemma ExtOfBaseName(base: string)
    requires '/' !in base
    ensures var k := LastIndexOf(base, '.');
      (if k <= 0 || base == ".." then base else base[..k]) + ParsedExt(base) == base
  {
    var k := LastIndexOf(base, '.');
    assert LastIndexOf(base, '/') == -1;
    assert base[-1 + 1..] == base;
    if !(k <= 0 || base == "..") {
      assert ParsedExt(base) == base[k..];
      assert base[..k] + base[k..] == base;
    }
  }

  /** `path.parse(p).ext`: the last '.' of the base name and what follows, or "". */
  function ParsedExt(p: string): (ext: string)
    ensures ext == "" || ext[0] == '.'
    ensures |ext| <= |p| && p[|p| - |ext|..] == ext
    ensures ext != "" ==> '.' !in ext[1..] && '/' !in ext
  {
    var slash := LastIndexOf(p, '/');
    var base := p[slash + 1..];
    assert '/' !in base by {
      if slash == -1 { assert base == p; }
    }
    var k := LastIndexOf(base, '.');
    if k <= 0 || base == ".." then ""
    else
      assert base[k..] == p[slash + 1 + k..];
      assert base[k..][1..] == base[k + 1..];
      assert forall i :: 0 <= i < |base[k..]| ==> base[k..][i] == base[k + i];
      base[k..]
  }

  /** The locale name an entry proposes: a directory's own name, a file's name without extension. */
  function OriginLng(e: DirEntry): string {
    if e.isDirectory then e.pathname else ParsedName(e.pathname)
  }

  /** The language entry a listing entry yields when its name normalises to `n`. */
  function EntryLng(localepath: string, e: DirEntry, n: string): Lng {
    Lng(localepath, JoinPath(localepath, e.pathname), e.isDirectory, OriginLng(e), n)
  }

  /** `!!lngItem.lng`: the name normalises, and not to the empty string. */
  predicate Recognised(table: AliasTable, name: string) {
    NormalizeLng(table, name).Some? && NormalizeLng(table, name).value != ""
  }

  /** `get lngs()` without its sort: every listing entry whose name normalises, in listing order. */
  function Lngs(localepath: string, listing: seq<DirEntry>, table: AliasTable): seq<Lng>
    decreases |listing|
  {
    if listing == [] then []
    else
      var e := listing[0];
      var rest := Lngs(localepath, listing[1..], table);
      if Recognised(table, OriginLng(e)) then [EntryLng(localepath, e, NormalizeLng(table, OriginLng(e)).value)] + rest
      else rest
  }

  /** `lngs` keeps exactly the entries whose name normalises, each with its normalised name. */
  lemma {:induction false} LngsExactly(localepath: string, listing: seq<DirEntry>, table: AliasTable, l: Lng)
    ensures l in Lngs(localepath, listing, table) <==>
            exists i :: 0 <= i < |listing| && Recognised(table, OriginLng(listing[i]))
                        && l == EntryLng(localepath, listing[i], NormalizeLng(table, OriginLng(listing[i])).value)
    decreases |listing|
  {
    if listing != [] {
      LngsExactly(localepath, listing[1..], table, l);
      assert forall i :: 1 <= i < |listing| ==> listing[i] == listing[1..][i - 1];
      var e := listing[0];
      var rest := Lngs(localepath, listing[1..], table);
      if Recognised(table, OriginLng(e)) {
        assert Lngs(localepath, listing, table) == [EntryLng(localepath, e, NormalizeLng(table, OriginLng(e)).value)] + rest;
      }
    }
  }

  /** No more entries than the listing, and every entry names a normalised language. */
  lemma {:induction false} LngsBound(localepath: string, listing: seq<DirEntry>, table: AliasTable)
    ensures |Lngs(localepath, listing, table)| <= |listing|
    ensures forall l :: l in Lngs(localepath, listing, table) ==> NormalizeLng(table, l.originLng) == Some(l.lng) && l.lng != ""
    decreases |listing|
  {
    if listing != [] {
      LngsBound(localepath, listing[1..], table);
    }
  }

  /** `setStructureType`: DIR when some language entry is a directory. */
  function StructureTypeOf(lngs: seq<Lng>): (t: StructureType)
    ensures t == Dir <==> exists i :: 0 <= i < |lngs| && lngs[i].isDirectory
    decreases |lngs|
  {
    if lngs == [] then File
    else if lngs[0].isDirectory then Dir
    else
      var t := StructureTypeOf(lngs[1..]);
      assert forall i :: 1 <= i < |lngs| ==> lngs[i] == lngs[1..][i - 1];
      t
  }

  /** A listing entry that is a directory whose name normalises. */
  predicate KeptDirectory(table: AliasTable, e: DirEntry) {
    e.isDirectory && Recognised(table, e.pathname)
  }

  /** The constructor of `I18nItem`: the structure type from the listing at that moment, and the
      `.js` extension (automatic detection of the extension is disabled in the source). */
  function NewI18nItem(localepath: string, listing: seq<DirEntry>, table: AliasTable): (item: I18nItem)
    ensures item.localepath == localepath && item.fileExt == JsExt
    ensures item.structureType == Dir <==> exists i :: 0 <= i < |listing| && KeptDirectory(table, listing[i])
  {
    DirectoryEntryKept(localepath, listing, table);
    I18nItem(localepath, StructureTypeOf(Lngs(localepath, listing, table)), JsExt)
  }

  /** Some language entry is a directory exactly when some directory of the listing normalises. */
  lemma {:induction false} DirectoryEntryKept(localepath: string, listing: seq<DirEntry>, table: AliasTable)
    ensures StructureTypeOf(Lngs(localepath, listing, table)) == Dir
            <==> exists i :: 0 <= i < |listing| && KeptDirectory(table, listing[i])
    decreases |listing|
  {
    if listing != [] {
      DirectoryEntryKept(localepath, listing[1..], table);
      var rest := Lngs(localepath, listing[1..], table);
      assert forall i :: 1 <= i < |listing| ==> listing[i] == listing[1..][i - 1];
      var e := listing[0];
      if Recognised(table, OriginLng(e)) {
        var all := [EntryLng(localepath, e, NormalizeLng(table, OriginLng(e)).value)] + rest;
        assert Lngs(localepath, listing, table) == all;
        assert all[1..] == rest;
      }
    }
  }
}
