/**
 What the blanking does at each offset the reader stops at, said of the text alone: where each kind of comment
 or literal begins and ends, what becomes of it, and where the reader stops next. It starts at offset 0, and
 one of the lemmas below applies wherever it stops, so together they say what becomes of every character.
 */
module RustTextShapes {
  import opened Bytes
  import opened RustText
  import opened RustTextLaws

  // ------------------------------------------------------------------------ said of the text

  /** A stretch of the text shows as nothing but spaces, its newlines kept. */
  ghost predicate AllBlank(text: string, keep: bool, a: nat, b: nat) {
    && a <= b <= |text|
    && forall k :: a <= k < b ==> Stripped(text, keep)[k] == if text[k] == '\n' then '\n' else ' '
  }

  /** A stretch of the text shows as it was. */
  ghost predicate AllKept(text: string, keep: bool, a: nat, b: nat) {
    a <= b <= |text| && forall k :: a <= k < b ==> Stripped(text, keep)[k] == text[k]
  }

  predicate HasAt(text: string, i: nat, mark: string) {
    i + |mark| <= |text| && text[i..i + |mark|] == mark
  }

  /** `r`, so many `#`, and a quotation mark. */
  predicate RawOpens(text: string, i: nat, hashes: nat) {
    && i + hashes + 1 < |text| && text[i] == 'r' && text[i + hashes + 1] == '"'
    && forall k :: i < k <= i + hashes ==> text[k] == '#'
  }

  /** A quotation mark and as many `#`. */
  predicate RawCloses(text: string, e: nat, hashes: nat) {
    && e + hashes < |text| && text[e] == '"'
    && forall k :: e < k <= e + hashes ==> text[k] == '#'
  }

  /** How many backslashes stand in a row just before an offset, counting back to a string's opening mark. */
  function Backslashes(text: string, open: nat, k: nat): nat
    requires k <= |text|
    decreases k
  {
    if k > open + 1 && text[k - 1] == '\\' then 1 + Backslashes(text, open, k - 1) else 0
  }

  /** A quotation mark that no backslash of the string before it takes. */
  predicate Closes(text: string, open: nat, e: nat)
    requires e < |text|
  {
    text[e] == '"' && Backslashes(text, open, e) % 2 == 0
  }

  /** A mark, one character that is neither a mark nor a backslash, and a mark. */
  predicate PlainChar(text: string, i: nat) {
    i + 2 < |text| && text[i] == '\'' && text[i + 1] != '\'' && text[i + 1] != '\\' && text[i + 2] == '\''
  }

  /** A mark, a backslash and the character it takes, which is not a newline, and a mark. */
  predicate EscapedChar(text: string, i: nat) {
    i + 3 < |text| && text[i] == '\'' && text[i + 1] == '\\' && text[i + 2] != '\n' && text[i + 3] == '\''
  }

  // -------------------------------------------------------------------------- how it is found

  /** What the reader makes of a token, seen in what it shows. */
  lemma Seen(text: string, keep: bool, i: nat)
    requires i < |text| && Visits(text, i, keep) && TokenAt(text, i).Some?
    ensures var t := TokenAt(text, i).value;
            && Visits(text, t.end, keep)
            && if keep && t.kind.QuotedString? then AllKept(text, keep, i, t.end) else AllBlank(text, keep, i, t.end)
  {
    hide TokenAt, Visits, Mask;
    MaskOfToken(text, i, keep);
  }

  lemma {:induction false} FindIs(text: string, pattern: string, from: nat, e: nat)
    requires from <= e && HasAt(text, e, pattern) && forall k :: from <= k < e ==> !HasAt(text, k, pattern)
    ensures Find(text, pattern, from) == Some(e)
    decreases e - from
  {
    assert HasAt(text, from, pattern) <==> OccursAt(text, pattern, from);
    if from < e {
      FindIs(text, pattern, from + 1, e);
    }
  }

  lemma {:induction false} FindNone(text: string, pattern: string, from: nat)
    requires pattern != [] && forall k :: from <= k < |text| ==> !HasAt(text, k, pattern)
    ensures Find(text, pattern, from) == None
    decreases |text| - from
  {
    if from < |text| {
      assert !HasAt(text, from, pattern);
      FindNone(text, pattern, from + 1);
    }
  }

  // --------------------------------------------------------------------------------- comments

  /** `//` runs to the newline, where the reader stops next, or to the end of the text. */
  lemma LineComment(text: string, keep: bool, i: nat, e: nat)
    requires i < |text| && Visits(text, i, keep) && HasAt(text, i, "//")
    requires i <= e <= |text| && (forall k :: i <= k < e ==> text[k] != '\n') && (e < |text| ==> text[e] == '\n')
    ensures AllBlank(text, keep, i, e) && Visits(text, e, keep)
  {
    hide Visits, Mask, Find;
    SlashAt(text, i);
    if e < |text| {
      assert text[e..e + 1] == "\n";
      forall k | i <= k < e
        ensures !HasAt(text, k, "\n")
      {
        assert text[k] == text[k..k + 1][0];
      }
      FindIs(text, "\n", i, e);
    } else {
      forall k | i <= k < |text|
        ensures !HasAt(text, k, "\n")
      {
        assert text[k] == text[k..k + 1][0];
      }
      FindNone(text, "\n", i);
    }
    Seen(text, keep, i);
  }

  lemma SlashAt(text: string, i: nat)
    requires i < |text|
    ensures HasAt(text, i, "//") <==> Opens(text, i, '/')
    ensures HasAt(text, i, "/*") <==> Opens(text, i, '*')
  {
    if i + 2 <= |text| {
      var two := text[i..i + 2];
      assert two[0] == text[i] && two[1] == text[i + 1];
    }
  }

  /** A block comment runs through the first closing mark past its opening one; they do not nest. */
  lemma BlockComment(text: string, keep: bool, i: nat, e: nat)
    requires i < |text| && Visits(text, i, keep) && HasAt(text, i, "/*")
    requires i + 2 <= e && HasAt(text, e, "*/") && forall k :: i + 2 <= k < e ==> !HasAt(text, k, "*/")
    ensures AllBlank(text, keep, i, e + 2) && Visits(text, e + 2, keep)
  {
    hide Visits, Mask, Find;
    SlashAt(text, i);
    FindIs(text, "*/", i + 2, e);
    Seen(text, keep, i);
  }

  /** With no closing mark it runs to the end of the text. */
  lemma OpenBlockComment(text: string, keep: bool, i: nat)
    requires i < |text| && Visits(text, i, keep) && HasAt(text, i, "/*")
    requires forall k :: i + 2 <= k < |text| ==> !HasAt(text, k, "*/")
    ensures AllBlank(text, keep, i, |text|)
  {
    hide Visits, Mask, Find;
    SlashAt(text, i);
    FindNone(text, "*/", i + 2);
    Seen(text, keep, i);
  }

  // ------------------------------------------------------------------------------ raw strings

  lemma RawAt(text: string, i: nat, hashes: nat)
    requires i < |text| && RawOpens(text, i, hashes)
    ensures RawOpening(text, i) == Some(hashes)
  {
    HashesAre(text, i + 1, hashes);
  }

  lemma RawFound(text: string, i: nat)
    requires i < |text|
    ensures RawOpening(text, i).Some? ==> RawOpens(text, i, RawOpening(text, i).value)
  {
  }

  lemma RawCloseIs(text: string, e: nat, hashes: nat)
    ensures HasAt(text, e, RawClosing(hashes)) <==> RawCloses(text, e, hashes)
  {
    var mark := RawClosing(hashes);
    if e + hashes < |text| {
      var part := text[e..e + hashes + 1];
      assert forall k :: 0 <= k < |part| ==> part[k] == text[e + k];
      if RawCloses(text, e, hashes) {
        assert part == mark;
      } else if part == mark {
        assert part[0] == mark[0] == '"';
        assert forall k :: e < k <= e + hashes ==> text[k] == part[k - e] == mark[k - e] == '#';
      }
    }
  }

  /** A raw string runs through the first quotation mark with as many `#` after it as opened it, blanked either way. */
  lemma RawStringLiteral(text: string, keep: bool, i: nat, hashes: nat, e: nat)
    requires i < |text| && Visits(text, i, keep) && RawOpens(text, i, hashes)
    requires i + hashes + 2 <= e && RawCloses(text, e, hashes)
    requires forall k :: i + hashes + 2 <= k < e ==> !RawCloses(text, k, hashes)
    ensures AllBlank(text, keep, i, e + hashes + 1) && Visits(text, e + hashes + 1, keep)
  {
    hide Visits, Mask, Find, RawOpening, RawCloses;
    RawAt(text, i, hashes);
    RawCloseIs(text, e, hashes);
    forall k | i + hashes + 2 <= k < e
      ensures !HasAt(text, k, RawClosing(hashes))
    {
      RawCloseIs(text, k, hashes);
    }
    FindIs(text, RawClosing(hashes), i + hashes + 2, e);
    Seen(text, keep, i);
  }

  lemma OpenRawString(text: string, keep: bool, i: nat, hashes: nat)
    requires i < |text| && Visits(text, i, keep) && RawOpens(text, i, hashes)
    requires forall k :: i + hashes + 2 <= k < |text| ==> !RawCloses(text, k, hashes)
    ensures AllBlank(text, keep, i, |text|)
  {
    hide Visits, Mask, Find, RawOpening, RawCloses;
    RawAt(text, i, hashes);
    forall k | i + hashes + 2 <= k < |text|
      ensures !HasAt(text, k, RawClosing(hashes))
    {
      RawCloseIs(text, k, hashes);
    }
    FindNone(text, RawClosing(hashes), i + hashes + 2);
    Seen(text, keep, i);
  }

  // --------------------------------------------------------------------------- quoted strings

  /** The scan for the closing mark stops only where an even number of backslashes stands before it. */
  lemma {:induction false} StringEndIs(text: string, open: nat, j: nat, e: nat)
    requires open < j <= e < |text| && Backslashes(text, open, j) % 2 == 0
    requires Closes(text, open, e) && forall k :: j <= k < e ==> !Closes(text, open, k)
    ensures StringEnd(text, j) == e + 1
    decreases e - j
  {
    if text[j] == '\\' {
      assert Backslashes(text, open, j + 1) == 1 + Backslashes(text, open, j);
      assert j + 2 <= e;
      StringEndIs(text, open, j + 2, e);
    } else if j < e {
      assert !Closes(text, open, j);
      StringEndIs(text, open, j + 1, e);
    }
  }

  lemma {:induction false} StringEndNone(text: string, open: nat, j: nat)
    requires open < j <= |text| && Backslashes(text, open, j) % 2 == 0
    requires forall k :: j <= k < |text| ==> !Closes(text, open, k)
    ensures StringEnd(text, j) == |text|
    decreases |text| - j
  {
    if j < |text| {
      assert !Closes(text, open, j);
      if text[j] == '\\' {
        assert Backslashes(text, open, j + 1) == 1 + Backslashes(text, open, j);
        if j + 2 <= |text| {
          StringEndNone(text, open, j + 2);
        }
      } else {
        StringEndNone(text, open, j + 1);
      }
    }
  }

  /** A quoted string runs through its first quotation mark that no backslash takes; the keeping mode spares it. */
  lemma QuotedStringLiteral(text: string, keep: bool, i: nat, e: nat)
    requires i < |text| && Visits(text, i, keep) && text[i] == '"'
    requires i < e < |text| && Closes(text, i, e) && forall k :: i < k < e ==> !Closes(text, i, k)
    ensures if keep then AllKept(text, keep, i, e + 1) else AllBlank(text, keep, i, e + 1)
    ensures Visits(text, e + 1, keep)
  {
    hide Visits, Mask, Find, StringEnd, Closes;
    StringEndIs(text, i, i + 1, e);
    Seen(text, keep, i);
  }

  lemma OpenQuotedString(text: string, keep: bool, i: nat)
    requires i < |text| && Visits(text, i, keep) && text[i] == '"'
    requires forall k :: i < k < |text| ==> !Closes(text, i, k)
    ensures if keep then AllKept(text, keep, i, |text|) else AllBlank(text, keep, i, |text|)
  {
    hide Visits, Mask, Find, StringEnd, Closes;
    StringEndNone(text, i, i + 1);
    Seen(text, keep, i);
  }

  // ----------------------------------------------------------------------- char literals, code

  /** A char literal is blanked in either mode, plain or escaped. */
  lemma CharLiteralBlanked(text: string, keep: bool, i: nat)
    requires i < |text| && Visits(text, i, keep) && (PlainChar(text, i) || EscapedChar(text, i))
    ensures var e := if PlainChar(text, i) then i + 3 else i + 4;
            AllBlank(text, keep, i, e) && Visits(text, e, keep)
  {
    hide Visits, Mask, Find;
    Seen(text, keep, i);
  }

  /** Everything else is code, a lifetime's mark among it: it shows as it is and the reader goes on by one. */
  lemma CodeShown(text: string, keep: bool, i: nat)
    requires i < |text| && Visits(text, i, keep)
    requires !HasAt(text, i, "//") && !HasAt(text, i, "/*") && text[i] != '"'
    requires !PlainChar(text, i) && !EscapedChar(text, i) && forall hashes :: !RawOpens(text, i, hashes)
    ensures Stripped(text, keep)[i] == text[i] && Visits(text, i + 1, keep)
  {
    hide Visits, Mask, Find, Hashes, Stripped;
    SlashAt(text, i);
    RawFound(text, i);
    CodeKept(text, keep, i);
  }

  /** The reader starts at the beginning. */
  lemma StartsAtZero(text: string, keep: bool)
    ensures Visits(text, 0, keep)
  {
    var m := Mask(text, 0, keep);
    assert m[0..] == m;
  }
}
