/**
 Reading Rust without a parser: comments and literals are blanked out of a text with every offset and
 newline kept, so that a later reader can look at the code alone and report positions in the original.
 */
module RustText {
  import opened Bytes

  datatype Kind = Comment | RawString | QuotedString | CharLiteral

  /** A comment or literal, as the kind it is and the offset just past it. */
  datatype Token = Token(kind: Kind, end: nat)

  // ---------------------------------------------------------------- finding and matching

  predicate OccursAt(text: string, pattern: string, i: nat) {
    i + |pattern| <= |text| && text[i..i + |pattern|] == pattern
  }

  /** The first occurrence at or after an offset. */
  function Find(text: string, pattern: string, from: nat): (r: Option<nat>)
    ensures r.Some? ==> from <= r.value && OccursAt(text, pattern, r.value)
    ensures forall k :: from <= k < (if r.Some? then r.value else |text|) ==> !OccursAt(text, pattern, k)
    decreases |text| - from
  {
    if OccursAt(text, pattern, from) then Some(from)
    else if from >= |text| then None
    else Find(text, pattern, from + 1)
  }

  /** Just past the first occurrence, or the end of the text. */
  function Past(text: string, pattern: string, from: nat): (end: nat)
    ensures from + |pattern| <= end <= |text| || end == |text|
  {
    var j := Find(text, pattern, from);
    if j.Some? then j.value + |pattern| else |text|
  }

  function Hashes(text: string, i: nat): (n: nat)
    ensures i <= |text| ==> i + n <= |text|
    ensures forall k :: i <= k < i + n && k < |text| ==> text[k] == '#'
    decreases |text| - i
  {
    if i < |text| && text[i] == '#' then 1 + Hashes(text, i + 1) else 0
  }

  /** The number of `#` in an opening `r##"`, where one starts here. */
  function RawOpening(text: string, i: nat): (r: Option<nat>)
    requires i < |text|
    ensures r.Some? ==> text[i] == 'r' && i + 1 + r.value < |text| && text[i + 1 + r.value] == '"'
    ensures r.Some? ==> forall k :: i < k < i + 1 + r.value ==> text[k] == '#'
  {
    var n := Hashes(text, i + 1);
    if text[i] == 'r' && i + 1 + n < |text| && text[i + 1 + n] == '"' then Some(n) else None
  }

  function RawClosing(hashes: nat): string {
    ['"'] + seq(hashes, _ => '#')
  }

  /** Just past a quoted string's closing mark, a backslash taking the character after it along. */
  function StringEnd(text: string, j: nat): (end: nat)
    requires j <= |text|
    ensures j <= end <= |text| && (j < |text| ==> j < end)
    decreases |text| - j
  {
    if j >= |text| then |text|
    else if text[j] == '\\' then if j + 2 <= |text| then StringEnd(text, j + 2) else |text|
    else if text[j] == '"' then j + 1
    else StringEnd(text, j + 1)
  }

  /** Just past a char literal, which a lifetime is not: a lifetime's name is followed by no mark. */
  function CharEnd(text: string, i: nat): (r: Option<nat>)
    requires i < |text|
    ensures r.Some? ==> text[i] == '\'' && i + 3 <= r.value <= |text|
  {
    if text[i] != '\'' || i + 2 >= |text| then None
    else if text[i + 1] == '\\' then
      if i + 3 < |text| && text[i + 2] != '\n' && text[i + 3] == '\'' then Some(i + 4) else None
    else if text[i + 1] != '\'' && text[i + 2] == '\'' then Some(i + 3)
    else None
  }

  // ------------------------------------------------------------------------ specification

  predicate Opens(text: string, i: nat, second: char)
    requires i < |text|
  {
    text[i] == '/' && i + 1 < |text| && text[i + 1] == second
  }

  /** The comment or literal that starts at an offset, if one does. */
  function TokenAt(text: string, i: nat): (t: Option<Token>)
    requires i < |text|
    ensures t.Some? ==> i < t.value.end <= |text| && (i + 1 < |text| ==> i + 2 <= t.value.end)
    ensures t.Some? ==> text[i] in ['/', 'r', '"', '\'']
  {
    if Opens(text, i, '/') then
      var j := Find(text, "\n", i);
      if j.Some? then assert text[j.value..j.value + 1] == "\n"; Some(Token(Comment, j.value))
      else Some(Token(Comment, |text|))
    else if Opens(text, i, '*') then Some(Token(Comment, Past(text, "*/", i + 2)))
    else if RawOpening(text, i).Some? then
      var n := RawOpening(text, i).value;
      Some(Token(RawString, Past(text, RawClosing(n), i + n + 2)))
    else if text[i] == '"' then Some(Token(QuotedString, StringEnd(text, i + 1)))
    else if CharEnd(text, i).Some? then Some(Token(CharLiteral, CharEnd(text, i).value))
    else None
  }

  /** `keep` spares quoted strings, and them alone. */
  predicate Blanked(kind: Kind, keep: bool) {
    !(keep && kind.QuotedString?)
  }

  /** Which characters, from an offset the reader stops at, belong to something it blanks. */
  function Mask(text: string, i: nat, keep: bool): (m: seq<bool>)
    requires i <= |text|
    ensures |m| == |text| - i
    decreases |text| - i
  {
    if i == |text| then []
    else
      match TokenAt(text, i)
      case None => [false] + Mask(text, i + 1, keep)
      case Some(t) => seq(t.end - i, _ => Blanked(t.kind, keep)) + Mask(text, t.end, keep)
  }

  function Shown(c: char, masked: bool): char {
    if masked && c != '\n' then ' ' else c
  }

  function Stripped(text: string, keep: bool): (r: string)
    ensures |r| == |text|
  {
    var m := Mask(text, 0, keep);
    seq(|text|, k requires 0 <= k < |text| => Shown(text[k], m[k]))
  }

  /** An offset the reader stops at. */
  predicate Visits(text: string, i: nat, keep: bool)
    requires i <= |text|
  {
    Mask(text, 0, keep)[i..] == Mask(text, i, keep)
  }

  // ------------------------------------------------------------------------------ method

  /** A text with one run of it blanked, newlines kept. */
  function WithBlank(s: string, a: nat, b: nat): (r: string)
    ensures |r| == |s|
  {
    seq(|s|, k requires 0 <= k < |s| => Shown(s[k], a <= k < b))
  }

  method Blank(out: array<char>, a: nat, b: nat)
    modifies out
    ensures out[..] == WithBlank(old(out[..]), a, b)
  {
    var k := a;
    while k < b && k < out.Length
      invariant a <= k
      invariant forall q :: 0 <= q < out.Length ==> out[q] == Shown(old(out[q]), a <= q < b && q < k)
    {
      if out[k] != '\n' {
        out[k] := ' ';
      }
      k := k + 1;
    }
  }

  /** Everything before `i` is as it will be shown, and everything from `i` on as it was given. */
  ghost predicate Reached(text: string, i: nat, keep: bool, out: string)
    requires i <= |text|
  {
    && |out| == |text|
    && Visits(text, i, keep)
    && (forall k :: 0 <= k < |text| ==> out[k] == if k < i then Stripped(text, keep)[k] else text[k])
  }

  lemma Begin(text: string, keep: bool)
    ensures Reached(text, 0, keep, text)
  {
    var m := Mask(text, 0, keep);
    assert m[0..] == m;
  }

  lemma Finished(text: string, keep: bool, out: string)
    requires Reached(text, |text|, keep, out)
    ensures out == Stripped(text, keep)
  {
  }

  /** The mask of a token the reader stops at, and where it stops next. */
  lemma MaskOfToken(text: string, i: nat, keep: bool)
    requires i < |text| && Visits(text, i, keep)
    ensures TokenAt(text, i).None? ==> !Mask(text, 0, keep)[i] && Visits(text, i + 1, keep)
    ensures TokenAt(text, i).Some? ==>
              var t := TokenAt(text, i).value;
              && Visits(text, t.end, keep)
              && forall k :: i <= k < t.end ==> Mask(text, 0, keep)[k] == Blanked(t.kind, keep)
  {
    hide TokenAt;
    var m := Mask(text, 0, keep);
    match TokenAt(text, i) {
      case None =>
        assert m[i..][0] == m[i] && m[i..][1..] == m[i + 1..];
      case Some(t) =>
        var n := t.end - i;
        assert m[i..][n..] == m[t.end..];
        forall k | i <= k < t.end
          ensures m[k] == Blanked(t.kind, keep)
        {
          assert m[k] == m[i..][k - i];
        }
    }
  }

  lemma OverToken(text: string, i: nat, keep: bool, before: string, after: string)
    requires i < |text| && TokenAt(text, i).Some? && Reached(text, i, keep, before)
    requires var t := TokenAt(text, i).value;
             after == if Blanked(t.kind, keep) then WithBlank(before, i, t.end) else before
    ensures Reached(text, TokenAt(text, i).value.end, keep, after)
  {
    hide TokenAt, Mask, Visits;
    MaskOfToken(text, i, keep);
    var t, m := TokenAt(text, i).value, Mask(text, 0, keep);
    forall k | i <= k < t.end
      ensures after[k] == Stripped(text, keep)[k]
    {
      assert m[k] == Blanked(t.kind, keep) && before[k] == text[k];
    }
  }

  lemma OverOne(text: string, i: nat, keep: bool, out: string)
    requires i < |text| && TokenAt(text, i).None? && Reached(text, i, keep, out)
    ensures Reached(text, i + 1, keep, out)
  {
    hide TokenAt, Mask;
    MaskOfToken(text, i, keep);
  }

  /** The offset the scan for a closing mark stops at: one past the end after a backslash that ends the text. */
  method FindStringEnd(text: string, from: nat) returns (j: nat)
    requires from <= |text|
    ensures from <= j && (if j <= |text| then j else |text|) == StringEnd(text, from)
  {
    var n := |text|;
    j := from;
    while j < n
      invariant from <= j <= n + 1
      invariant StringEnd(text, from) == if j <= n then StringEnd(text, j) else n
      decreases n - j
    {
      if text[j] == '\\' {
        j := j + 2;
        continue;
      }
      if text[j] == '"' {
        j := j + 1;
        break;
      }
      j := j + 1;
    }
  }

  lemma BlankToEnd(s: string, a: nat, b: nat)
    requires b >= |s|
    ensures WithBlank(s, a, b) == WithBlank(s, a, |s|)
  {
  }

  method StripNoncode(text: string, keepStrings: bool) returns (r: string)
    ensures r == Stripped(text, keepStrings)
  {
    hide Find, Hashes, StringEnd, Past, RawClosing, RawOpening, CharEnd, Reached, Stripped, Mask, WithBlank;
    var n := |text|;
    var out := new char[n](k requires 0 <= k < n => text[k]);
    var i := 0;
    Begin(text, keepStrings);
    assert out[..] == text;
    while i < n
      invariant out.Length == n
      invariant Reached(text, if i < n then i else n, keepStrings, out[..])
      decreases n - i
    {
      ghost var before := out[..];
      var c := text[i];
      if c == '/' && i + 1 < n && text[i + 1] == '/' {
        var found := Find(text, "\n", i);
        var j := if found.None? then n else found.value;
        Blank(out, i, j);
        OverToken(text, i, keepStrings, before, out[..]);
        i := j;
        continue;
      }
      if c == '/' && i + 1 < n && text[i + 1] == '*' {
        var j := Past(text, "*/", i + 2);
        Blank(out, i, j);
        OverToken(text, i, keepStrings, before, out[..]);
        i := j;
        continue;
      }
      if c == 'r' {
        var hashes := RawOpening(text, i);
        if hashes.Some? {
          var j := Past(text, RawClosing(hashes.value), i + hashes.value + 2);
          Blank(out, i, j);
          OverToken(text, i, keepStrings, before, out[..]);
          i := j;
          continue;
        }
      }
      if c == '"' {
        var j := FindStringEnd(text, i + 1);
        if !keepStrings {
          Blank(out, i, j);
          if j > n {
            BlankToEnd(before, i, j);
          }
        }
        OverToken(text, i, keepStrings, before, out[..]);
        i := j;
        continue;
      }
      if c == '\'' {
        var end := CharEnd(text, i);
        if end.Some? {
          Blank(out, i, end.value);
          OverToken(text, i, keepStrings, before, out[..]);
          i := end.value;
          continue;
        }
      }
      OverOne(text, i, keepStrings, before);
      i := i + 1;
    }
    r := out[..];
    Finished(text, keepStrings, r);
  }
}
