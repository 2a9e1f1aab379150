/** The two static helpers of `Utils`: locale-name normalisation against an alias table and
    the camelCase to kebab-case conversion of file names. */
module Utils {
  import opened Wrappers
  import opened Strings

  /** One entry of the alias table: a plain locale name, or a canonical name with the list of
      names that stand for it. The table itself is supplied by the caller. */
  datatype AliasEntry = Plain(name: string) | Aliases(canonical: string, aliases: seq<string>)

  type AliasTable = seq<AliasEntry>

  /** The predicate `normalizeLng` hands to `find`: a plain entry matches case-insensitively,
      an alias entry by exact membership of its alias list. */
  predicate Matches(e: AliasEntry, lng: string) {
    match e
    case Plain(n) => UpperStr(lng) == UpperStr(n)
    case Aliases(_, names) => lng in names
  }

  /** The spelling an entry returns: the table's, never the caller's. */
  function Canonical(e: AliasEntry): string {
    match e
    case Plain(n) => n
    case Aliases(c, _) => c
  }

  /** Entry `i` is the one `find` returns: it matches and no earlier entry does. */
  predicate FirstMatchAt(table: AliasTable, lng: string, i: int) {
    0 <= i < |table| && Matches(table[i], lng) && forall j :: 0 <= j < i ==> !Matches(table[j], lng)
  }

  /** `Utils.normalizeLng`: the canonical name of the first matching table entry. The result
      is undefined when nothing matches, and also when `find` returns the falsy plain entry "". */
  function NormalizeLng(table: AliasTable, lng: string): (r: Option<string>)
    ensures r.None? <==> forall i :: FirstMatchAt(table, lng, i) ==> table[i] == Plain("")
    ensures r.Some? ==> exists i :: FirstMatchAt(table, lng, i) && table[i] != Plain("") && r.value == Canonical(table[i])
    ensures (forall i :: 0 <= i < |table| ==> !Matches(table[i], lng)) ==> r.None?
    decreases |table|
  {
    if table == [] then None
    else if Matches(table[0], lng) then
      assert FirstMatchAt(table, lng, 0);
      if table[0] == Plain("") then None else Some(Canonical(table[0]))
    else
      var r := NormalizeLng(table[1..], lng);
      assert forall i :: 1 <= i < |table| ==> (FirstMatchAt(table, lng, i) <==> FirstMatchAt(table[1..], lng, i - 1)) by {
        forall i | 1 <= i < |table|
          ensures FirstMatchAt(table, lng, i) <==> FirstMatchAt(table[1..], lng, i - 1)
        {
          assert table[i] == table[1..][i - 1];
          if FirstMatchAt(table[1..], lng, i - 1) {
            forall j | 0 <= j < i ensures !Matches(table[j], lng) {
              if j > 0 { assert table[j] == table[1..][j - 1]; }
            }
          }
          if FirstMatchAt(table, lng, i) {
            forall j | 0 <= j < i - 1 ensures !Matches(table[1..][j], lng) {
              assert table[1..][j] == table[j + 1];
            }
          }
        }
      }
      assert !FirstMatchAt(table, lng, 0);
      assert r.Some? ==> exists i :: FirstMatchAt(table, lng, i) && table[i] != Plain("") && r.value == Canonical(table[i]) by {
        if r.Some? {
          var k :| FirstMatchAt(table[1..], lng, k) && table[1..][k] != Plain("") && r.value == Canonical(table[1..][k]);
          assert FirstMatchAt(table, lng, k + 1) && table[k + 1] == table[1..][k];
        }
      }
      assert r.None? ==> forall i :: FirstMatchAt(table, lng, i) ==> table[i] == Plain("") by {
        if r.None? {
          forall i | FirstMatchAt(table, lng, i) ensures table[i] == Plain("") {
            assert FirstMatchAt(table[1..], lng, i - 1);
            assert table[i] == table[1..][i - 1];
          }
        }
      }
      r
  }

  /** With a first match that is not the plain entry "", the result is its canonical name. */
  lemma NormalizeLngFound(table: AliasTable, lng: string, i: int)
    requires FirstMatchAt(table, lng, i) && table[i] != Plain("")
    ensures NormalizeLng(table, lng) == Some(Canonical(table[i]))
  {
  }

  /** The number of ASCII capital letters in a string. */
  function UpperCount(s: string): nat {
    if s == [] then 0 else (if IsAsciiUpper(s[0]) then 1 else 0) + UpperCount(s[1..])
  }

  /** `Utils.camelToKabeb`: a '-' before every ASCII capital, then the whole string lower-cased. */
  function CamelToKebab(s: string): (r: string)
    ensures |r| == |s| + UpperCount(s)
    ensures forall i :: 0 <= i < |r| ==> !IsAsciiUpper(r[i])
    ensures UpperCount(s) == 0 ==> r == s
  {
    if s == [] then ""
    else if IsAsciiUpper(s[0]) then ['-', LowerChar(s[0])] + CamelToKebab(s[1..])
    else [LowerChar(s[0])] + CamelToKebab(s[1..])
  }
}
