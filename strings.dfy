/** JavaScript string primitives the extension relies on: the `\w` and `\s` character
    classes, ASCII case mapping, `split`/`join`, `indexOf`, `replace` with a string
    pattern (first occurrence) and with a global literal pattern, and number formatting. */
module Strings {
  import opened Wrappers

  /** `\w` of a JavaScript regular expression without the `u` flag. */
  predicate IsWordChar(c: char) {
    ('a' <= c <= 'z') || ('A' <= c <= 'Z') || ('0' <= c <= '9') || c == '_'
  }

  /** `\s`: the ECMAScript WhiteSpace and LineTerminator code points (also what `trim` removes). */
  predicate IsSpace(c: char) {
    c == ' ' || c == '\t' || c == '\n' || c == '\r' || c == '\U{000B}' || c == '\U{000C}'
    || c == '\U{00A0}' || c == '\U{1680}' || ('\U{2000}' <= c <= '\U{200A}')
    || c == '\U{2028}' || c == '\U{2029}' || c == '\U{202F}' || c == '\U{205F}'
    || c == '\U{3000}' || c == '\U{FEFF}'
  }

  predicate IsAsciiUpper(c: char) { 'A' <= c <= 'Z' }
  predicate IsAsciiLower(c: char) { 'a' <= c <= 'z' }
  predicate IsAsciiLetter(c: char) { IsAsciiUpper(c) || IsAsciiLower(c) }

  predicate AllSpace(s: string) { forall i :: 0 <= i < |s| ==> IsSpace(s[i]) }
  predicate AllWord(s: string) { forall i :: 0 <= i < |s| ==> IsWordChar(s[i]) }

  /** `toUpperCase` restricted to ASCII letters. */
  function UpperChar(c: char): (u: char)
    ensures IsAsciiLower(c) ==> IsAsciiUpper(u)
    ensures !IsAsciiLower(c) ==> u == c
  {
    if IsAsciiLower(c) then (c as int - 32) as char else c
  }

  /** `toLowerCase` restricted to ASCII letters. */
  function LowerChar(c: char): (l: char)
    ensures IsAsciiUpper(c) ==> IsAsciiLower(l) && UpperChar(l) == c
    ensures !IsAsciiUpper(c) ==> l == c
  {
    if IsAsciiUpper(c) then (c as int + 32) as char else c
  }

  function UpperStr(s: string): (u: string)
    ensures |u| == |s| && forall i :: 0 <= i < |s| ==> u[i] == UpperChar(s[i])
  {
    if s == [] then [] else [UpperChar(s[0])] + UpperStr(s[1..])
  }

  function LowerStr(s: string): (l: string)
    ensures |l| == |s| && forall i :: 0 <= i < |s| ==> l[i] == LowerChar(s[i])
  {
    if s == [] then [] else [LowerChar(s[0])] + LowerStr(s[1..])
  }

  /** `s.split(sep)` for a one-character separator: the text between separators, in order. */
  function Split(s: string, sep: char): (parts: seq<string>)
    ensures |parts| >= 1
    ensures forall i :: 0 <= i < |parts| ==> sep !in parts[i]
    decreases |s|
  {
    if s == [] then [""]
    else
      var rest := Split(s[1..], sep);
      if s[0] == sep then [""] + rest
      else [[s[0]] + rest[0]] + rest[1..]
  }

  /** `parts.join(sep)`. */
  function Join(parts: seq<string>, sep: char): string
    decreases |parts|
  {
    if parts == [] then ""
    else if |parts| == 1 then parts[0]
    else parts[0] + [sep] + Join(parts[1..], sep)
  }

  /** Joining the pieces of a split gives back the string. */
  lemma {:induction false} JoinSplit(s: string, sep: char)
    ensures Join(Split(s, sep), sep) == s
    decreases |s|
  {
    if s != [] {
      var rest := Split(s[1..], sep);
      JoinSplit(s[1..], sep);
      if s[0] == sep {
        assert Split(s, sep) == [""] + rest;
        assert ([""] + rest)[1..] == rest;
      } else {
        var parts := Split(s, sep);
        assert parts == [[s[0]] + rest[0]] + rest[1..];
        if |rest| > 1 {
          assert parts[1..] == rest[1..];
          assert Join(rest, sep) == rest[0] + [sep] + Join(rest[1..], sep);
        }
      }
    }
  }

  /** A string without the separator splits into itself alone. */
  lemma {:induction false} SplitWithoutSep(s: string, sep: char)
    requires sep !in s
    ensures Split(s, sep) == [s]
    decreases |s|
  {
    if s != [] {
      assert sep !in s[1..] by {
        forall i | 0 <= i < |s[1..]| ensures s[1..][i] != sep { assert s[1..][i] == s[i + 1]; }
      }
      SplitWithoutSep(s[1..], sep);
      assert [s[0]] + s[1..] == s;
    }
  }

  /** Splitting the join of separator-free pieces gives back the pieces. */
  lemma {:induction false} SplitJoin(parts: seq<string>, sep: char)
    requires |parts| >= 1
    requires forall i :: 0 <= i < |parts| ==> sep !in parts[i]
    ensures Split(Join(parts, sep), sep) == parts
    decreases |parts|
  {
    if |parts| == 1 {
      SplitWithoutSep(parts[0], sep);
    } else {
      SplitJoin(parts[1..], sep);
      SplitPrefix(parts[0], Join(parts[1..], sep), sep);
      assert [parts[0]] + parts[1..] == parts;
    }
  }

  /** Splitting `a + sep + b` where `a` holds no separator gives `a` followed by the pieces of `b`. */
  lemma {:induction false} SplitPrefix(a: string, b: string, sep: char)
    requires sep !in a
    ensures Split(a + [sep] + b, sep) == [a] + Split(b, sep)
    decreases |a|
  {
    var s := a + [sep] + b;
    if a == [] {
      assert s[1..] == b;
    } else {
      assert sep !in a[1..] by {
        forall i | 0 <= i < |a[1..]| ensures a[1..][i] != sep { assert a[1..][i] == a[i + 1]; }
      }
      SplitPrefix(a[1..], b, sep);
      assert s[1..] == a[1..] + [sep] + b;
      assert [a[0]] + a[1..] == a;
    }
  }

  /** The first `n` pieces joined, a separator, and the remaining pieces joined make the whole join. */
  lemma {:induction false} JoinSplitAt(parts: seq<string>, n: nat, sep: char)
    requires 0 < n < |parts|
    ensures Join(parts, sep) == Join(parts[..n], sep) + [sep] + Join(parts[n..], sep)
    decreases n
  {
    if n == 1 {
      assert parts[..1] == [parts[0]];
      assert parts[n..] == parts[1..];
    } else {
      JoinSplitAt(parts[1..], n - 1, sep);
      assert parts[1..][..n - 1] == parts[..n][1..];
      assert parts[1..][n - 1..] == parts[n..];
    }
  }

  /** `s.indexOf(pat)`: the first position where `pat` occurs in `s`, or -1. */
  function IndexOf(s: string, pat: string): (k: int)
    ensures -1 <= k <= |s|
    ensures k >= 0 ==> k + |pat| <= |s| && s[k..k + |pat|] == pat
    ensures k >= 0 ==> forall j :: 0 <= j < k ==> !(pat <= s[j..])
    ensures k == -1 ==> forall j :: 0 <= j <= |s| ==> !(pat <= s[j..])
    decreases |s|
  {
    if pat <= s then 0
    else if s == [] then -1
    else
      var k := IndexOf(s[1..], pat);
      assert forall j :: 1 <= j <= |s| ==> s[j..] == s[1..][j - 1..];
      if k == -1 then -1 else k + 1
  }

  /** `s.indexOf(pat) > -1`. */
  predicate Contains(s: string, pat: string) {
    IndexOf(s, pat) >= 0
  }

  /** `s.replace(pat, rep)` with a string pattern: only the first occurrence is replaced.
      (The `$` patterns of a replacement string are not interpreted.) */
  function ReplaceFirst(s: string, pat: string, rep: string): string
    decreases |s|
  {
    if pat <= s then rep + s[|pat|..]
    else if s == [] then s
    else [s[0]] + ReplaceFirst(s[1..], pat, rep)
  }

  /** The replacement happens at the position `indexOf` reports, and nowhere when it reports -1. */
  lemma {:induction false} ReplaceFirstAtIndex(s: string, pat: string, rep: string)
    ensures var k := IndexOf(s, pat);
            ReplaceFirst(s, pat, rep) == if k < 0 then s else s[..k] + rep + s[k + |pat|..]
    decreases |s|
  {
    if pat <= s {
      assert IndexOf(s, pat) == 0;
      assert s[..0] + rep == rep;
    } else if s == [] {
      assert IndexOf(s, pat) == -1;
    } else {
      ReplaceFirstAtIndex(s[1..], pat, rep);
      var k := IndexOf(s[1..], pat);
      assert IndexOf(s, pat) == if k == -1 then -1 else k + 1;
      if k >= 0 {
        SpliceCons(s, k, |pat|, rep);
      } else {
        assert s == [s[0]] + s[1..];
      }
    }
  }

  lemma SpliceCons(s: string, k: nat, n: nat, rep: string)
    requires s != [] && k + n <= |s| - 1
    ensures [s[0]] + (s[1..][..k] + rep + s[1..][k + n..]) == s[..k + 1] + rep + s[k + 1 + n..]
  {
    assert s[..k + 1] == [s[0]] + s[1..][..k];
    assert s[k + 1 + n..] == s[1..][k + n..];
  }

  /** When the pattern's first character does not occur in `a`, the first occurrence of the
      pattern in `a + pat + b` is the one right after `a`. */
  lemma {:induction false} ReplaceFirstAfter(a: string, pat: string, b: string, rep: string)
    requires |pat| > 0 && pat[0] !in a
    ensures ReplaceFirst(a + pat + b, pat, rep) == a + rep + b
    decreases |a|
  {
    var s := a + pat + b;
    if a == [] {
      assert s == pat + b;
      assert s[|pat|..] == b;
    } else {
      assert s[0] == a[0] != pat[0];
      assert s[1..] == a[1..] + pat + b;
      ReplaceFirstAfter(a[1..], pat, b, rep);
      assert a == [a[0]] + a[1..];
    }
  }

  /** `s.replace(/pat/g, rep)` for a literal, non-empty pattern: occurrences are replaced from
      left to right, each search resuming after the previous occurrence. (The `$` patterns of
      a replacement string are not interpreted.) */
  function ReplaceAll(s: string, pat: string, rep: string): string
    requires |pat| > 0
    decreases |s|
  {
    if s == [] then ""
    else if pat <= s then rep + ReplaceAll(s[|pat|..], pat, rep)
    else [s[0]] + ReplaceAll(s[1..], pat, rep)
  }

  /** A prefix in which no occurrence of the pattern starts is copied as it is. */
  lemma {:induction false} ReplaceAllSkip(p: string, s: string, pat: string, rep: string)
    requires |pat| > 0
    requires forall j :: 0 <= j < |p| ==> !(pat <= (p + s)[j..])
    ensures ReplaceAll(p + s, pat, rep) == p + ReplaceAll(s, pat, rep)
    decreases |p|
  {
    if p != [] {
      var t := p + s;
      assert !(pat <= t[0..]) && t[0..] == t;
      assert t[1..] == p[1..] + s;
      forall j | 0 <= j < |p[1..]| ensures !(pat <= (p[1..] + s)[j..]) {
        assert (p[1..] + s)[j..] == t[j + 1..];
      }
      ReplaceAllSkip(p[1..], s, pat, rep);
      assert p == [p[0]] + p[1..];
    } else {
      assert p + s == s;
    }
  }

  /** A string without the pattern's first character does not contain the pattern. */
  lemma AbsentFirstChar(s: string, pat: string)
    requires |pat| > 0 && pat[0] !in s
    ensures !Contains(s, pat)
  {
  }

  /** Exactly one occurrence, after a prefix without the pattern's second character (which
      differs from its first) and before a suffix without the pattern's first character. */
  lemma ReplaceAllOnce(p: string, pat: string, q: string, rep: string)
    requires |pat| >= 2 && pat[1] != pat[0] && pat[1] !in p && pat[0] !in q
    ensures ReplaceAll(p + pat + q, pat, rep) == p + rep + q
  {
    var t := p + (pat + q);
    forall j | 0 <= j < |p| ensures !(pat <= t[j..]) {
      if j + 1 < |p| {
        assert t[j..][1] == p[j + 1];
      } else {
        assert t[j..][1] == pat[0];
      }
    }
    assert p + pat + q == t;
    ReplaceAllSkip(p, pat + q, pat, rep);
    assert pat <= pat + q && (pat + q)[|pat|..] == q;
    AbsentFirstChar(q, pat);
    ReplaceAllAbsent(q, pat, rep);
    assert ReplaceAll(pat + q, pat, rep) == rep + q;
  }

  /** Replacing the pattern by itself leaves every string unchanged. */
  lemma {:induction false} ReplaceAllSelf(s: string, pat: string)
    requires |pat| > 0
    ensures ReplaceAll(s, pat, pat) == s
    decreases |s|
  {
    if s != [] {
      if pat <= s {
        ReplaceAllSelf(s[|pat|..], pat);
        assert s == pat + s[|pat|..];
      } else {
        ReplaceAllSelf(s[1..], pat);
        assert s == [s[0]] + s[1..];
      }
    }
  }

  /** A string in which the pattern does not occur is returned unchanged, whatever the replacement. */
  lemma {:induction false} ReplaceAllAbsent(s: string, pat: string, rep: string)
    requires |pat| > 0
    requires !Contains(s, pat)
    ensures ReplaceAll(s, pat, rep) == s
    decreases |s|
  {
    if s != [] {
      assert !(pat <= s[0..]);
      assert s[0..] == s;
      assert forall j :: 0 <= j <= |s[1..]| ==> s[1..][j..] == s[j + 1..];
      assert !Contains(s[1..], pat);
      ReplaceAllAbsent(s[1..], pat, rep);
      assert s == [s[0]] + s[1..];
    }
  }

  function DigitChar(d: nat): char
    requires d < 10
  {
    ('0' as int + d) as char
  }

  /** The decimal numeral of a natural number, as `String(n)` writes it. */
  function NatToString(n: nat): (s: string)
    ensures |s| >= 1
    ensures forall i :: 0 <= i < |s| ==> '0' <= s[i] <= '9'
    ensures |s| > 1 ==> s[0] != '0'
  {
    if n < 10 then [DigitChar(n)] else NatToString(n / 10) + [DigitChar(n % 10)]
  }

  /** The decimal numeral of an integer, with a leading '-' for negative numbers. */
  function IntToString(n: int): string {
    if n < 0 then "-" + NatToString(-n) else NatToString(n)
  }

  /** The value of a canonical decimal numeral (no sign, no leading zero): the array indices
      property names stand for. */
  function ParseIndex(s: string): (r: Option<nat>)
    ensures r.Some? ==> |s| >= 1 && (|s| > 1 ==> s[0] != '0')
  {
    if s == [] || (|s| > 1 && s[0] == '0') then None else DigitsValue(s)
  }

  function DigitsValue(s: string): Option<nat>
    decreases |s|
  {
    if s == [] then Some(0)
    else if !('0' <= s[|s| - 1] <= '9') then None
    else match DigitsValue(s[..|s| - 1])
      case None => None
      case Some(v) => Some(v * 10 + (s[|s| - 1] as int - '0' as int))
  }

  /** Array index keys read back as the numbers they were written from. */
  lemma {:induction false} ParseNatToString(n: nat)
    ensures ParseIndex(NatToString(n)) == Some(n)
  {
    DigitsNatToString(n);
  }

  lemma {:induction false} DigitsNatToString(n: nat)
    ensures DigitsValue(NatToString(n)) == Some(n)
  {
    var s := NatToString(n);
    if n < 10 {
      assert s[..|s| - 1] == [];
    } else {
      DigitsNatToString(n / 10);
      assert s[..|s| - 1] == NatToString(n / 10);
    }
  }

  /** The position of the last occurrence of `c` in `s`, or -1. */
  function LastIndexOf(s: string, c: char): (k: int)
    ensures -1 <= k < |s|
    ensures k >= 0 ==> s[k] == c && c !in s[k + 1..]
    ensures k == -1 ==> c !in s
    decreases |s|
  {
    if s == [] then -1
    else
      var k := LastIndexOf(s[1..], c);
      assert k >= 0 ==> s[k + 2..] == s[1..][k + 1..];
      assert s == [s[0]] + s[1..];
      if k >= 0 then k + 1 else if s[0] == c then 0 else -1
  }
}
