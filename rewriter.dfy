/** `I18nItem.dataStringify`: the one-pass rewrite of a locale file's text. The text is given as
    the regular expression `/\s*(\w+):\s*(\"[^"]*\")(,)?/gm` splits it: spans the expression
    skips, and matched `key: "value",` pairs. Each pair is handed to a replace callback that
    blanks it (delete), swaps its quoted value (edit), or, in ADD mode, puts a new pair in front
    of it when a countdown started at a random pair index reaches zero. */
module Rewriter {
  import opened Wrappers
  import opened Strings
  import opened Values
  import opened Locales

  datatype Chunk =
    | Other(text: string)
    // leading `\s*`, the `(\w+)` key, the `\s*` after the colon, the text between the
    // quotes of `(\"[^"]*\")`, and whether `(,)?` matched
    | Pair(ws: string, key: string, sep: string, value: string, comma: bool)

  datatype RewriteError = NoPairs   // `data.match(reg)` is null, so reading `.length` throws

  function Quote(v: string): string { "\"" + v + "\"" }

  function CommaText(comma: bool): string { if comma then "," else "" }

  /** The source text of a chunk; for a pair, the text the expression matched. */
  function Render(c: Chunk): string {
    match c
    case Other(t) => t
    case Pair(ws, key, sep, value, comma) => ws + key + ":" + sep + Quote(value) + CommaText(comma)
  }

  function RenderAll(cs: seq<Chunk>): string
    decreases |cs|
  {
    if cs == [] then "" else Render(cs[0]) + RenderAll(cs[1..])
  }

  /** A pair as the expression can match it. */
  predicate WellFormedPair(c: Chunk) {
    c.Pair? && AllSpace(c.ws) && |c.key| > 0 && AllWord(c.key) && AllSpace(c.sep) && '"' !in c.value
  }

  predicate WellFormed(cs: seq<Chunk>) {
    forall i :: 0 <= i < |cs| && cs[i].Pair? ==> WellFormedPair(cs[i])
  }

  /** The number of chunks satisfying `f`. */
  function Count(cs: seq<Chunk>, f: Chunk -> bool): nat
    decreases |cs|
  {
    if cs == [] then 0 else (if f(cs[0]) then 1 else 0) + Count(cs[1..], f)
  }

  lemma {:induction false} CountAppend(a: seq<Chunk>, b: seq<Chunk>, f: Chunk -> bool)
    ensures Count(a + b, f) == Count(a, f) + Count(b, f)
    decreases |a|
  {
    if a != [] {
      assert (a + b)[0] == a[0];
      assert (a + b)[1..] == a[1..] + b;
      CountAppend(a[1..], b, f);
    } else {
      assert a + b == b;
    }
  }

  predicate IsPair(c: Chunk) { c.Pair? }

  /** A pair carrying the key being written. */
  predicate IsKeyPair(c: Chunk, keypath: string) { c.Pair? && c.key == keypath }

  /** A pair carrying some other key: only these advance the countdown. */
  predicate IsOtherPair(c: Chunk, keypath: string) { c.Pair? && c.key != keypath }

  /** `data.match(reg).length` when there is a match. */
  function PairCount(cs: seq<Chunk>): nat { Count(cs, IsPair) }

  function KeyCount(cs: seq<Chunk>, keypath: string): nat { Count(cs, c => IsKeyPair(c, keypath)) }

  function OtherPairCount(cs: seq<Chunk>, keypath: string): nat { Count(cs, c => IsOtherPair(c, keypath)) }

  /** `${text || ''}`: the value an added pair receives. */
  function AddText(text: Value): string {
    if Truthy(text) then ToTemplate(text) else ""
  }

  /** The replace callback on one matched pair: the string it returns and the counter after it. */
  function Replacement(p: Chunk, keypath: string, isDel: bool, text: Value, mode: MatchMode, counter: int): (string, int)
    requires p.Pair?
  {
    var matched := Render(p);
    var p2 := Quote(p.value);
    if p.key == keypath then
      (if isDel then "" else ReplaceFirst(matched, p2, Quote(ToTemplate(text))), counter)
    else if mode == Add && counter == 0 then
      var itemStr := ReplaceFirst(ReplaceFirst(matched, p.key, keypath), p2, Quote(AddText(text))) + CommaText(!p.comma);
      (itemStr + matched, counter - 1)
    else
      (matched, counter - 1)
  }

  /** `data.replace(reg, callback)`: every chunk's output, the counter threaded left to right. */
  function ReplaceChunks(cs: seq<Chunk>, keypath: string, isDel: bool, text: Value, mode: MatchMode, counter: int): string
    decreases |cs|
  {
    if cs == [] then ""
    else if cs[0].Other? then cs[0].text + ReplaceChunks(cs[1..], keypath, isDel, text, mode, counter)
    else
      var r := Replacement(cs[0], keypath, isDel, text, mode, counter);
      r.0 + ReplaceChunks(cs[1..], keypath, isDel, text, mode, r.1)
  }

  /** `Math.floor(Math.random() * n)` for a draw `random` in [0, 1). */
  function RandomStart(random: real, n: nat): (r: int)
    requires 0.0 <= random < 1.0
    ensures n > 0 ==> 0 <= r < n
  {
    if n == 0 then 0
    else
      assert random * (n as real) < 1.0 * (n as real);
      (random * n as real).Floor
  }

  /** What `dataStringify` returns for a file whose text splits into `cs`. */
  function DataStringifySpec(cs: seq<Chunk>, keypath: string, isDel: bool, text: Value, mode: MatchMode, random: real)
    : Result<string, RewriteError>
    requires 0.0 <= random < 1.0
  {
    var n := PairCount(cs);
    if n == 0 then Err(NoPairs) else Ok(ReplaceChunks(cs, keypath, isDel, text, mode, RandomStart(random, n)))
  }

  /** `dataStringify(filepath, keypath, isDel, text, mode)` on the file's text, with the draw
      of `Math.random()` passed in. */
  method DataStringify(chunks: seq<Chunk>, keypath: string, isDel: bool, text: Value, mode: MatchMode, random: real)
    returns (data: Result<string, RewriteError>)
    requires 0.0 <= random < 1.0
    ensures data == DataStringifySpec(chunks, keypath, isDel, text, mode, random)
    ensures data.Err? <==> PairCount(chunks) == 0
  {
    var propsLength := PairCount(chunks);
    if propsLength == 0 {
      return Err(NoPairs);
    }
    var randomNum: int := RandomStart(random, propsLength);
    var out := "";
    var i := 0;
    while i < |chunks|
      invariant 0 <= i <= |chunks|
      invariant out + ReplaceChunks(chunks[i..], keypath, isDel, text, mode, randomNum)
                == ReplaceChunks(chunks, keypath, isDel, text, mode, RandomStart(random, propsLength))
    {
      var c := chunks[i];
      ghost var before := randomNum;
      var piece: string;
      if c.Other? {
        piece := c.text;        // text between matches is copied
      } else {
        var out1 := Replacement(c, keypath, isDel, text, mode, randomNum);   // the callback
        piece, randomNum := out1.0, out1.1;
      }
      StringifyAdvance(chunks, i, keypath, isDel, text, mode, before, out, piece, randomNum);
      out := out + piece;
      i := i + 1;
    }
    assert chunks[i..] == [];
    assert out + "" == out;
    return Ok(out);
  }

  /** One turn of the loop of `dataStringify`: the piece for chunk `i` joins the output. */
  lemma StringifyAdvance(chunks: seq<Chunk>, i: nat, keypath: string, isDel: bool, text: Value, mode: MatchMode, counter: int,
                         out: string, piece: string, next: int)
    requires i < |chunks|
    requires chunks[i].Other? ==> piece == chunks[i].text && next == counter
    requires chunks[i].Pair? ==> piece == Replacement(chunks[i], keypath, isDel, text, mode, counter).0
                                 && next == Replacement(chunks[i], keypath, isDel, text, mode, counter).1
    ensures out + ReplaceChunks(chunks[i..], keypath, isDel, text, mode, counter)
            == (out + piece) + ReplaceChunks(chunks[i + 1..], keypath, isDel, text, mode, next)
  {
    var cs := chunks[i..];
    assert cs[0] == chunks[i] && cs[1..] == chunks[i + 1..];
    ReplaceChunksStep(cs, keypath, isDel, text, mode, counter);
  }

  /** One step of the pass: the first chunk's output, then the rest with the updated counter. */
  lemma ReplaceChunksStep(cs: seq<Chunk>, keypath: string, isDel: bool, text: Value, mode: MatchMode, counter: int)
    requires cs != []
    ensures cs[0].Other? ==> ReplaceChunks(cs, keypath, isDel, text, mode, counter)
                             == cs[0].text + ReplaceChunks(cs[1..], keypath, isDel, text, mode, counter)
    ensures cs[0].Pair? ==> ReplaceChunks(cs, keypath, isDel, text, mode, counter)
                            == Replacement(cs[0], keypath, isDel, text, mode, counter).0
                               + ReplaceChunks(cs[1..], keypath, isDel, text, mode, Replacement(cs[0], keypath, isDel, text, mode, counter).1)
  {
  }

  // ---------------------------------------------------------------------------------------
  // Reference rewrites at the level of chunks

  /** Every pair carrying `keypath` taken out, whole; everything else in its order. */
  function Deleted(cs: seq<Chunk>, keypath: string): seq<Chunk>
    decreases |cs|
  {
    if cs == [] then []
    else if IsKeyPair(cs[0], keypath) then Deleted(cs[1..], keypath)
    else [cs[0]] + Deleted(cs[1..], keypath)
  }

  /** A chunk with its value swapped when it is a pair carrying `keypath`. */
  function EditOne(c: Chunk, keypath: string, v: string): Chunk {
    if IsKeyPair(c, keypath) then c.(value := v) else c
  }

  /** Every pair carrying `keypath` with its value swapped; nothing else touched. */
  function Edited(cs: seq<Chunk>, keypath: string, v: string): (r: seq<Chunk>)
    ensures |r| == |cs| && forall i :: 0 <= i < |cs| ==> r[i] == EditOne(cs[i], keypath, v)
    decreases |cs|
  {
    if cs == [] then [] else [EditOne(cs[0], keypath, v)] + Edited(cs[1..], keypath, v)
  }

  /** The pair inserted in front of `anchor`: the anchor's whitespace, the new key and value,
      and always a trailing comma. */
  function NewPair(anchor: Chunk, keypath: string, v: string): Chunk
    requires anchor.Pair?
  {
    Pair(anchor.ws, keypath, anchor.sep, v, true)
  }

  /** The position of the r-th pair (from 0) whose key is not `keypath`. */
  function NthOtherPair(cs: seq<Chunk>, keypath: string, r: nat): (j: nat)
    requires r < OtherPairCount(cs, keypath)
    ensures j < |cs| && IsOtherPair(cs[j], keypath)
    decreases |cs|
  {
    if IsOtherPair(cs[0], keypath) then (if r == 0 then 0 else 1 + NthOtherPair(cs[1..], keypath, r - 1))
    else 1 + NthOtherPair(cs[1..], keypath, r)
  }

  /** The ADD rewrite: pairs carrying `keypath` edited, and one new pair in front of the
      `counter`-th other pair when there is one. */
  function Added(cs: seq<Chunk>, keypath: string, editV: string, addV: string, counter: int): seq<Chunk> {
    var e := Edited(cs, keypath, editV);
    if 0 <= counter < OtherPairCount(cs, keypath) then
      var j := NthOtherPair(cs, keypath, counter);
      e[..j] + [NewPair(cs[j], keypath, addV)] + e[j..]
    else e
  }

  // ---------------------------------------------------------------------------------------
  // The callback on one pair, as text

  lemma NoQuoteBeforeValue(ws: string, key: string, sep: string)
    requires AllSpace(ws) && AllSpace(sep) && '"' !in key
    ensures '"' !in ws + key + ":" + sep
  {
    var a := ws + key + ":" + sep;
    forall i | 0 <= i < |a| ensures a[i] != '"' {
      if i < |ws| { assert a[i] == ws[i]; }
      else if i < |ws| + |key| { assert a[i] == key[i - |ws|]; }
      else if i > |ws| + |key| { assert a[i] == sep[i - |ws| - |key| - 1]; }
    }
  }

  /** Edit: the value literal is the first quoted text of the match, so only it changes. */
  lemma EditPairText(p: Chunk, v: string)
    requires WellFormedPair(p)
    ensures ReplaceFirst(Render(p), Quote(p.value), Quote(v)) == Render(p.(value := v))
  {
    assert '"' !in p.key by {
      forall i | 0 <= i < |p.key| ensures p.key[i] != '"' { assert IsWordChar(p.key[i]); }
    }
    NoQuoteBeforeValue(p.ws, p.key, p.sep);
    var a := p.ws + p.key + ":" + p.sep;
    assert Render(p) == a + Quote(p.value) + CommaText(p.comma);
    ReplaceFirstAfter(a, Quote(p.value), CommaText(p.comma), Quote(v));
  }

  /** The text of a pair up to its value literal, with key `key`. */
  function Head(p: Chunk, key: string): string
    requires p.Pair?
  {
    p.ws + key + ":" + p.sep
  }

  /** No `\w` character is white space. */
  lemma WordNotInSpace(ws: string, c: char)
    requires AllSpace(ws) && IsWordChar(c)
    ensures c !in ws
  {
    forall i | 0 <= i < |ws| ensures ws[i] != c { assert IsSpace(ws[i]); }
  }

  /** Renaming the first occurrence of the key renames the pair's own key. */
  lemma RenameKeyText(p: Chunk, keypath: string)
    requires WellFormedPair(p)
    ensures ReplaceFirst(Render(p), p.key, keypath) == Head(p, keypath) + Quote(p.value) + CommaText(p.comma)
  {
    var tail := ":" + p.sep + Quote(p.value) + CommaText(p.comma);
    assert Render(p) == p.ws + p.key + tail;
    WordNotInSpace(p.ws, p.key[0]);
    ReplaceFirstAfter(p.ws, p.key, tail, keypath);
    assert p.ws + keypath + tail == Head(p, keypath) + Quote(p.value) + CommaText(p.comma);
  }

  /** Replacing the first occurrence of the value literal after the renamed key replaces the
      pair's own value. */
  lemma RequoteValueText(p: Chunk, keypath: string, v: string)
    requires WellFormedPair(p) && '"' !in keypath
    ensures ReplaceFirst(Head(p, keypath) + Quote(p.value) + CommaText(p.comma), Quote(p.value), Quote(v))
            == Head(p, keypath) + Quote(v) + CommaText(p.comma)
  {
    NoQuoteBeforeValue(p.ws, keypath, p.sep);
    ReplaceFirstAfter(Head(p, keypath), Quote(p.value), CommaText(p.comma), Quote(v));
  }

  /** Add: renaming the first occurrence of the key and of the value literal in the anchor's
      text, plus a comma when the anchor has none, spells exactly the new pair. */
  lemma AddPairText(p: Chunk, keypath: string, v: string)
    requires WellFormedPair(p) && '"' !in keypath
    ensures ReplaceFirst(ReplaceFirst(Render(p), p.key, keypath), Quote(p.value), Quote(v)) + CommaText(!p.comma)
            == Render(NewPair(p, keypath, v))
  {
    RenameKeyText(p, keypath);
    RequoteValueText(p, keypath, v);
    assert CommaText(p.comma) + CommaText(!p.comma) == ",";
  }

  // ---------------------------------------------------------------------------------------
  // The whole pass against the reference rewrites

  /** Delete (outside ADD mode): every pair carrying `keypath` disappears whole (its leading
      whitespace, key, value and comma); all other text and pairs are unchanged. */
  lemma {:induction false} DeleteRemovesPairs(cs: seq<Chunk>, keypath: string, text: Value, mode: MatchMode, counter: int)
    requires mode != Add
    ensures ReplaceChunks(cs, keypath, true, text, mode, counter) == RenderAll(Deleted(cs, keypath))
    decreases |cs|
  {
    if cs != [] {
      var next := if IsKeyPair(cs[0], keypath) || cs[0].Other? then counter else counter - 1;
      DeleteRemovesPairs(cs[1..], keypath, text, mode, next);
      if !IsKeyPair(cs[0], keypath) {
        assert ([cs[0]] + Deleted(cs[1..], keypath))[1..] == Deleted(cs[1..], keypath);
      }
    }
  }

  /** Edit (outside ADD mode): the result is the text with every pair carrying `keypath` given
      the value `"${text}"`, each such pair keeping its whitespace, key and comma. */
  lemma {:induction false} EditReplacesValues(cs: seq<Chunk>, keypath: string, text: Value, mode: MatchMode, counter: int)
    requires WellFormed(cs) && mode != Add
    ensures ReplaceChunks(cs, keypath, false, text, mode, counter) == RenderAll(Edited(cs, keypath, ToTemplate(text)))
    decreases |cs|
  {
    if cs != [] {
      var v := ToTemplate(text);
      var next := if IsKeyPair(cs[0], keypath) || cs[0].Other? then counter else counter - 1;
      assert WellFormed(cs[1..]) by {
        forall i | 0 <= i < |cs[1..]| && cs[1..][i].Pair? ensures WellFormedPair(cs[1..][i]) { assert cs[1..][i] == cs[i + 1]; }
      }
      EditReplacesValues(cs[1..], keypath, text, mode, next);
      if IsKeyPair(cs[0], keypath) { EditPairText(cs[0], v); }
      assert Edited(cs, keypath, v)[1..] == Edited(cs[1..], keypath, v);
    }
  }

  /** The countdown at zero on a pair with another key: the new pair goes first. */
  lemma AddedAtHead(cs: seq<Chunk>, keypath: string, editV: string, addV: string)
    requires cs != [] && IsOtherPair(cs[0], keypath)
    ensures Added(cs, keypath, editV, addV, 0) == [NewPair(cs[0], keypath, addV)] + ([cs[0]] + Edited(cs[1..], keypath, editV))
  {
    var e := Edited(cs, keypath, editV);
    OtherPairCountCons(cs, keypath);
    assert NthOtherPair(cs, keypath, 0) == 0;
    assert e == [cs[0]] + Edited(cs[1..], keypath, editV);
    assert e[..0] + [NewPair(cs[0], keypath, addV)] + e[0..] == [NewPair(cs[0], keypath, addV)] + e;
  }

  lemma RenderAllCons(x: Chunk, rest: seq<Chunk>)
    ensures RenderAll([x] + rest) == Render(x) + RenderAll(rest)
  {
    assert ([x] + rest)[1..] == rest;
  }

  lemma OtherPairCountCons(cs: seq<Chunk>, keypath: string)
    requires cs != []
    ensures OtherPairCount(cs, keypath) == (if IsOtherPair(cs[0], keypath) then 1 else 0) + OtherPairCount(cs[1..], keypath)
  {
  }

  /** Past the first chunk the position of the r-th other pair shifts by one. */
  lemma NthOtherPairCons(cs: seq<Chunk>, keypath: string, r: nat)
    requires cs != [] && r < OtherPairCount(cs, keypath) && !(IsOtherPair(cs[0], keypath) && r == 0)
    ensures var r' := if IsOtherPair(cs[0], keypath) then r - 1 else r;
            0 <= r' < OtherPairCount(cs[1..], keypath) && NthOtherPair(cs, keypath, r) == 1 + NthOtherPair(cs[1..], keypath, r')
  {
    OtherPairCountCons(cs, keypath);
  }

  /** Otherwise the first chunk (edited if it carries `keypath`) stays first and the countdown
      moves on only past a pair with another key. */
  lemma AddedCons(cs: seq<Chunk>, keypath: string, editV: string, addV: string, counter: int)
    requires cs != [] && !(IsOtherPair(cs[0], keypath) && counter == 0)
    ensures Added(cs, keypath, editV, addV, counter)
            == [EditOne(cs[0], keypath, editV)]
               + Added(cs[1..], keypath, editV, addV, if IsOtherPair(cs[0], keypath) then counter - 1 else counter)
  {
    var tail := cs[1..];
    var next := if IsOtherPair(cs[0], keypath) then counter - 1 else counter;
    var e := Edited(cs, keypath, editV);
    var et := Edited(tail, keypath, editV);
    assert e == [EditOne(cs[0], keypath, editV)] + et;
    OtherPairCountCons(cs, keypath);
    if 0 <= counter < OtherPairCount(cs, keypath) {
      NthOtherPairCons(cs, keypath, counter);
      var j := NthOtherPair(cs, keypath, counter);
      var j' := NthOtherPair(tail, keypath, next);
      assert cs[j] == tail[j'];
      AddedSplit(e[0], et, j', NewPair(tail[j'], keypath, addV));
    }
  }

  lemma AddedSplit(x: Chunk, et: seq<Chunk>, j': nat, np: Chunk)
    requires j' <= |et|
    ensures var e := [x] + et;
            e[..j' + 1] + [np] + e[j' + 1..] == [x] + (et[..j'] + [np] + et[j'..])
  {
    var e := [x] + et;
    assert e[..j' + 1] == [x] + et[..j'];
    assert e[j' + 1..] == et[j'..];
  }

  /** Add: pairs carrying `keypath` are edited as above, and one new pair goes in front of the
      `counter`-th pair among those whose key is not `keypath`, counting from 0; pairs carrying
      `keypath` do not advance the countdown. */
  lemma {:induction false} AddInsertsOnce(cs: seq<Chunk>, keypath: string, text: Value, counter: int)
    requires WellFormed(cs) && '"' !in keypath
    ensures ReplaceChunks(cs, keypath, false, text, Add, counter)
            == RenderAll(Added(cs, keypath, ToTemplate(text), AddText(text), counter))
    decreases |cs|
  {
    if cs != [] {
      var v, w := ToTemplate(text), AddText(text);
      var c0 := cs[0];
      var tail := cs[1..];
      assert WellFormed(tail) by {
        forall i | 0 <= i < |tail| && tail[i].Pair? ensures WellFormedPair(tail[i]) { assert tail[i] == cs[i + 1]; }
      }
      if IsOtherPair(c0, keypath) && counter == 0 {
        AddInsertsOnce(tail, keypath, text, -1);
        assert Added(tail, keypath, ToTemplate(text), AddText(text), -1) == Edited(tail, keypath, ToTemplate(text));
        AddStepInsert(cs, keypath, text);
      } else {
        var next := if IsOtherPair(c0, keypath) then counter - 1 else counter;
        AddInsertsOnce(tail, keypath, text, next);
        AddStepKeep(cs, keypath, text, counter);
      }
    }
  }

  /** The inductive step of `AddInsertsOnce` where the new pair goes in front of the first chunk. */
  lemma AddStepInsert(cs: seq<Chunk>, keypath: string, text: Value)
    requires cs != [] && IsOtherPair(cs[0], keypath) && WellFormedPair(cs[0]) && '"' !in keypath
    requires ReplaceChunks(cs[1..], keypath, false, text, Add, -1) == RenderAll(Edited(cs[1..], keypath, ToTemplate(text)))
    ensures ReplaceChunks(cs, keypath, false, text, Add, 0)
            == RenderAll(Added(cs, keypath, ToTemplate(text), AddText(text), 0))
  {
    var v, w := ToTemplate(text), AddText(text);
    var c0, tail := cs[0], cs[1..];
    var et := Edited(tail, keypath, v);
    var np := NewPair(c0, keypath, w);
    InsertStepText(cs, keypath, text);
    AddedAtHead(cs, keypath, v, w);
    RenderAllCons(np, [c0] + et);
    RenderAllCons(c0, et);
  }

  /** The pass over a text whose first chunk receives the new pair. */
  lemma InsertStepText(cs: seq<Chunk>, keypath: string, text: Value)
    requires cs != [] && IsOtherPair(cs[0], keypath) && WellFormedPair(cs[0]) && '"' !in keypath
    ensures ReplaceChunks(cs, keypath, false, text, Add, 0)
            == Render(NewPair(cs[0], keypath, AddText(text))) + Render(cs[0]) + ReplaceChunks(cs[1..], keypath, false, text, Add, -1)
  {
    ReplaceChunksStep(cs, keypath, false, text, Add, 0);
    InsertReplacement(cs[0], keypath, text);
  }

  /** The callback at countdown zero on a pair with another key returns the new pair's text
      followed by the matched text. */
  lemma InsertReplacement(p: Chunk, keypath: string, text: Value)
    requires IsOtherPair(p, keypath) && WellFormedPair(p) && '"' !in keypath
    ensures Replacement(p, keypath, false, text, Add, 0) == (Render(NewPair(p, keypath, AddText(text))) + Render(p), -1)
  {
    AddPairText(p, keypath, AddText(text));
  }

  /** The inductive step of `AddInsertsOnce` where the first chunk is copied or edited. */
  lemma AddStepKeep(cs: seq<Chunk>, keypath: string, text: Value, counter: int)
    requires cs != [] && !(IsOtherPair(cs[0], keypath) && counter == 0) && '"' !in keypath
    requires cs[0].Pair? ==> WellFormedPair(cs[0])
    requires var next := if IsOtherPair(cs[0], keypath) then counter - 1 else counter;
             ReplaceChunks(cs[1..], keypath, false, text, Add, next)
             == RenderAll(Added(cs[1..], keypath, ToTemplate(text), AddText(text), next))
    ensures ReplaceChunks(cs, keypath, false, text, Add, counter)
            == RenderAll(Added(cs, keypath, ToTemplate(text), AddText(text), counter))
  {
    var v, w := ToTemplate(text), AddText(text);
    var c0, tail := cs[0], cs[1..];
    var next := if IsOtherPair(c0, keypath) then counter - 1 else counter;
    var rest := Added(tail, keypath, v, w, next);
    ReplaceChunksStep(cs, keypath, false, text, Add, counter);
    if IsKeyPair(c0, keypath) {
      EditPairText(c0, v);
      assert Replacement(c0, keypath, false, text, Add, counter) == (Render(EditOne(c0, keypath, v)), counter);
    } else if c0.Pair? {
      assert Replacement(c0, keypath, false, text, Add, counter) == (Render(c0), counter - 1);
    }
    AddedCons(cs, keypath, v, w, counter);
    RenderAllCons(EditOne(c0, keypath, v), rest);
  }

  // ---------------------------------------------------------------------------------------
  // Counting pairs

  lemma {:induction false} EditedCounts(cs: seq<Chunk>, keypath: string, v: string)
    ensures PairCount(Edited(cs, keypath, v)) == PairCount(cs)
    ensures KeyCount(Edited(cs, keypath, v), keypath) == KeyCount(cs, keypath)
    ensures OtherPairCount(Edited(cs, keypath, v), keypath) == OtherPairCount(cs, keypath)
    decreases |cs|
  {
    if cs != [] {
      EditedCounts(cs[1..], keypath, v);
      assert Edited(cs, keypath, v)[1..] == Edited(cs[1..], keypath, v);
    }
  }

  /** With no pair carrying `keypath`, an edit leaves the text exactly as it was. */
  lemma {:induction false} EditWithoutMatch(cs: seq<Chunk>, keypath: string, v: string)
    requires KeyCount(cs, keypath) == 0
    ensures Edited(cs, keypath, v) == cs
    decreases |cs|
  {
    if cs != [] {
      EditWithoutMatch(cs[1..], keypath, v);
      assert cs == [cs[0]] + cs[1..];
    }
  }

  /** Pairs are the ones carrying `keypath` and the others. */
  lemma {:induction false} PairsSplit(cs: seq<Chunk>, keypath: string)
    ensures PairCount(cs) == KeyCount(cs, keypath) + OtherPairCount(cs, keypath)
    decreases |cs|
  {
    if cs != [] { PairsSplit(cs[1..], keypath); }
  }

  /** ADD inserts at most one pair: exactly one when the countdown start is below the number of
      pairs not carrying `keypath`, none otherwise; that pair carries `keypath`, so a file that
      already held the key ends up holding it twice. */
  lemma AddedCounts(cs: seq<Chunk>, keypath: string, editV: string, addV: string, counter: int)
    ensures var inserted := if 0 <= counter < OtherPairCount(cs, keypath) then 1 else 0;
            PairCount(Added(cs, keypath, editV, addV, counter)) == PairCount(cs) + inserted
            && KeyCount(Added(cs, keypath, editV, addV, counter), keypath) == KeyCount(cs, keypath) + inserted
  {
    var e := Edited(cs, keypath, editV);
    EditedCounts(cs, keypath, editV);
    if 0 <= counter < OtherPairCount(cs, keypath) {
      var j := NthOtherPair(cs, keypath, counter);
      var np := NewPair(cs[j], keypath, addV);
      assert e == e[..j] + e[j..];
      CountAppend(e[..j] + [np], e[j..], IsPair);
      CountAppend(e[..j], [np], IsPair);
      CountAppend(e[..j], e[j..], IsPair);
      var isKey := c => IsKeyPair(c, keypath);
      CountAppend(e[..j] + [np], e[j..], isKey);
      CountAppend(e[..j], [np], isKey);
      CountAppend(e[..j], e[j..], isKey);
    }
  }

  /** Delete keeps the pairs not carrying `keypath` and no others. */
  lemma {:induction false} DeletedCounts(cs: seq<Chunk>, keypath: string)
    ensures PairCount(Deleted(cs, keypath)) == OtherPairCount(cs, keypath)
    ensures KeyCount(Deleted(cs, keypath), keypath) == 0
    ensures KeyCount(cs, keypath) == 0 ==> Deleted(cs, keypath) == cs
    decreases |cs|
  {
    if cs != [] {
      DeletedCounts(cs[1..], keypath);
      if !IsKeyPair(cs[0], keypath) {
        assert ([cs[0]] + Deleted(cs[1..], keypath))[1..] == Deleted(cs[1..], keypath);
      }
      assert cs == [cs[0]] + cs[1..];
    }
  }

  // ---------------------------------------------------------------------------------------
  // dataStringify as a whole

  /** A text in which the expression matches nothing makes `dataStringify` throw, in every mode. */
  lemma NoPairsThrows(cs: seq<Chunk>, keypath: string, isDel: bool, text: Value, mode: MatchMode, random: real)
    requires 0.0 <= random < 1.0 && PairCount(cs) == 0
    ensures DataStringifySpec(cs, keypath, isDel, text, mode, random) == Err(NoPairs)
  {
  }

  /** Adding a key the file does not hold inserts exactly one new pair carrying it, whatever
      pair index is drawn, and changes nothing else. */
  lemma AddNewKey(cs: seq<Chunk>, keypath: string, text: Value, random: real)
    requires 0.0 <= random < 1.0 && WellFormed(cs) && '"' !in keypath
    requires PairCount(cs) > 0 && KeyCount(cs, keypath) == 0
    ensures var r := RandomStart(random, PairCount(cs));
            0 <= r < OtherPairCount(cs, keypath)
            && DataStringifySpec(cs, keypath, false, text, Add, random)
               == Ok(RenderAll(cs[..NthOtherPair(cs, keypath, r)] + [NewPair(cs[NthOtherPair(cs, keypath, r)], keypath, AddText(text))]
                               + cs[NthOtherPair(cs, keypath, r)..]))
            && PairCount(Added(cs, keypath, ToTemplate(text), AddText(text), r)) == PairCount(cs) + 1
  {
    var r := RandomStart(random, PairCount(cs));
    PairsSplit(cs, keypath);
    AddInsertsOnce(cs, keypath, text, r);
    EditWithoutMatch(cs, keypath, ToTemplate(text));
    AddedCounts(cs, keypath, ToTemplate(text), AddText(text), r);
  }
}
