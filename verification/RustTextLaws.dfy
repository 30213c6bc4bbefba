/** What blanking keeps, what it removes, and that doing it twice is doing it once. */
module RustTextLaws {
  import opened Bytes
  import opened RustText

  /** No length, offset or newline moves: every character is the original's or a space in its place. */
  lemma OffsetsKept(text: string, keep: bool, k: nat)
    requires k < |text|
    ensures |Stripped(text, keep)| == |text|
    ensures Stripped(text, keep)[k] == text[k] || Stripped(text, keep)[k] == ' '
    ensures Stripped(text, keep)[k] == '\n' <==> text[k] == '\n'
  {
  }

  /** A comment or literal the reader stops at leaves nothing but spaces and newlines, unless it is a string spared. */
  lemma TokensBlanked(text: string, keep: bool, i: nat, k: nat)
    requires i < |text| && Visits(text, i, keep) && TokenAt(text, i).Some?
    requires i <= k < TokenAt(text, i).value.end
    ensures var out := Stripped(text, keep)[k];
            if Blanked(TokenAt(text, i).value.kind, keep) then out == ' ' || out == '\n' else out == text[k]
    ensures Visits(text, TokenAt(text, i).value.end, keep)
  {
    hide TokenAt, Visits, Mask;
    MaskOfToken(text, i, keep);
  }

  /** The keeping mode keeps a comment or literal the reader stops at exactly when it is a quoted string. */
  lemma KeptExactly(text: string, i: nat)
    requires i < |text| && Visits(text, i, true) && TokenAt(text, i).Some?
    ensures var t := TokenAt(text, i).value;
            Stripped(text, true)[i..t.end] == text[i..t.end] <==> t.kind.QuotedString?
  {
    hide TokenAt, Visits, Mask, Stripped;
    var t, out := TokenAt(text, i).value, Stripped(text, true);
    if t.kind.QuotedString? {
      forall k | i <= k < t.end
        ensures out[k] == text[k]
      {
        TokensBlanked(text, true, i, k);
      }
    } else {
      TokensBlanked(text, true, i, i);
      assert out[i..t.end][0] == out[i] && text[i..t.end][0] == text[i];
    }
  }

  /** A raw string is a literal the keeping mode does not keep: `r"a"` comes back as four spaces. */
  lemma RawStringNotKept()
    ensures Stripped("r\"a\"", true) == "    "
  {
    var text := "r\"a\"";
    assert text[0] == 'r' && text[1] == '"' && text[2] == 'a' && text[3] == '"';
    assert Hashes(text, 1) == 0;
    assert RawClosing(0) == "\"";
    assert !OccursAt(text, "\"", 2) by { assert text[2..3][0] == 'a'; }
    assert OccursAt(text, "\"", 3) by { assert text[3..4] == "\""; }
    assert Find(text, "\"", 3) == Some(3);
    assert Find(text, "\"", 2) == Find(text, "\"", 3);
    assert TokenAt(text, 0) == Some(Token(RawString, 4));
    var m := Mask(text, 0, true);
    assert m[0..] == m;
    forall k | 0 <= k < 4
      ensures Stripped(text, true)[k] == ' '
    {
      TokensBlanked(text, true, 0, k);
    }
  }

  /** Code is left alone: outside every comment and literal a character shows as it was. */
  lemma CodeKept(text: string, keep: bool, i: nat)
    requires i < |text| && Visits(text, i, keep) && TokenAt(text, i).None?
    ensures Stripped(text, keep)[i] == text[i] && Visits(text, i + 1, keep)
  {
    hide TokenAt, Visits, Mask;
    MaskOfToken(text, i, keep);
  }

  // ------------------------------------------------------------------- the mask's shape

  /** A blanked run is never one character with more text after it. */
  lemma {:induction false} NoIsland(text: string, keep: bool, i: nat, q: nat)
    requires i <= q && q + 1 < |text|
    requires Mask(text, i, keep)[q - i] && (q > i ==> !Mask(text, i, keep)[q - i - 1])
    ensures Mask(text, i, keep)[q - i + 1]
    decreases |text| - i
  {
    hide TokenAt;
    var next := if TokenAt(text, i).None? then i + 1 else TokenAt(text, i).value.end;
    if next <= q {
      NoIsland(text, keep, next, q);
    }
  }

  /** Beyond an offset the reader stops at, an unmasked neighbour unmasks whatever stands between it and another. */
  lemma Between(text: string, keep: bool, i: nat)
    requires i + 2 < |text| && Visits(text, i, keep)
    ensures var m := Mask(text, 0, keep); !m[i] && !m[i + 2] ==> !m[i + 1]
    ensures var m := Mask(text, 0, keep); i + 3 < |text| && !m[i + 1] && !m[i + 3] ==> !m[i + 2]
  {
    hide TokenAt, Mask;
    var m := Mask(text, 0, keep);
    assert forall k :: i <= k < |text| ==> m[k] == m[i..][k - i];
    if m[i + 1] && !m[i] {
      NoIsland(text, keep, i, i + 1);
    }
    if i + 3 < |text| && m[i + 2] && !m[i + 1] {
      NoIsland(text, keep, i, i + 2);
    }
  }

  /** What shows as anything but a space or newline was not masked, and is what was there. */
  lemma ShownIsThere(text: string, keep: bool, k: nat)
    requires k < |text| && Stripped(text, keep)[k] != ' ' && Stripped(text, keep)[k] != '\n'
    ensures !Mask(text, 0, keep)[k] && Stripped(text, keep)[k] == text[k]
  {
    hide Mask;
  }

  // -------------------------------------------------------------------- stripping again

  /** Where the reader found code, it finds code again. */
  lemma CodeStaysCode(text: string, keep: bool, i: nat)
    requires i < |text| && Visits(text, i, keep) && TokenAt(text, i).None?
    ensures TokenAt(Stripped(text, keep), i).None?
  {
    hide Stripped, Visits, Mask, Find, StringEnd, Past, RawClosing, RawOpening, CharEnd, Hashes;
    var out := Stripped(text, keep);
    CodeKept(text, keep, i);
    if i + 1 < |text| && (out[i + 1] == '/' || out[i + 1] == '*') {
      ShownIsThere(text, keep, i + 1);
    }
    NoRawAgain(text, keep, i);
    NoCharAgain(text, keep, i);
  }

  lemma NoRawAgain(text: string, keep: bool, i: nat)
    requires i < |text| && RawOpening(text, i).None?
    ensures RawOpening(Stripped(text, keep), i).None?
  {
    hide Stripped, Hashes, Mask;
    var out := Stripped(text, keep);
    var again := RawOpening(out, i);
    if again.Some? {
      var n := again.value;
      forall k | i <= k < i + n + 2
        ensures text[k] == out[k]
      {
        ShownIsThere(text, keep, k);
      }
      HashesAre(text, i + 1, n);
    }
  }

  lemma {:induction false} HashesAre(text: string, i: nat, n: nat)
    requires i + n < |text| && text[i + n] != '#' && forall k :: i <= k < i + n ==> text[k] == '#'
    ensures Hashes(text, i) == n
    decreases n
  {
    if n > 0 {
      HashesAre(text, i + 1, n - 1);
    }
  }

  lemma NoCharAgain(text: string, keep: bool, i: nat)
    requires i < |text| && Visits(text, i, keep) && CharEnd(text, i).None?
    ensures CharEnd(Stripped(text, keep), i).None?
  {
    hide Stripped, Mask, Visits;
    var out, m := Stripped(text, keep), Mask(text, 0, keep);
    if CharEnd(out, i).Some? {
      Between(text, keep, i);
      ShownIsThere(text, keep, i);
      var last := CharEnd(out, i).value - 1;
      ShownIsThere(text, keep, last);
      if out[i + 1] == '\\' {
        ShownIsThere(text, keep, i + 1);
        Unmasked(text, keep, i + 2);
      } else {
        Unmasked(text, keep, i + 1);
      }
    }
  }

  lemma Unmasked(text: string, keep: bool, k: nat)
    requires k < |text| && !Mask(text, 0, keep)[k]
    ensures Stripped(text, keep)[k] == text[k]
  {
  }

  /** A string that was spared reads as the same string again. */
  lemma {:induction false} SameString(text: string, out: string, j: nat)
    requires j <= |text| == |out|
    requires forall k :: j <= k < StringEnd(text, j) ==> out[k] == text[k]
    ensures StringEnd(out, j) == StringEnd(text, j)
    decreases |text| - j
  {
    if j < |text| {
      var next := if text[j] == '\\' then j + 2 else j + 1;
      assert out[j] == text[j];
      if text[j] != '"' && next <= |text| {
        SameString(text, out, next);
      }
    }
  }

  /** A run of spaces and newlines masks nothing. */
  lemma {:induction false} BlankRun(out: string, keep: bool, i: nat, j: nat)
    requires i <= j <= |out|
    requires forall k :: i <= k < j ==> out[k] == ' ' || out[k] == '\n'
    ensures Mask(out, i, keep) == seq(j - i, _ => false) + Mask(out, j, keep)
    decreases j - i
  {
    hide TokenAt;
    if i < j {
      BlankRun(out, keep, i + 1, j);
      assert out[i] == ' ' || out[i] == '\n';
      assert [false] + seq(j - i - 1, _ => false) == seq(j - i, _ => false);
    }
  }

  /** From any offset the first reading stopped at, the second masks nothing. */
  lemma {:induction false} NothingLeft(text: string, keep: bool, i: nat)
    requires i <= |text| && Visits(text, i, keep)
    ensures forall k :: 0 <= k < |text| - i ==> !Mask(Stripped(text, keep), i, keep)[k]
    decreases |text| - i
  {
    hide TokenAt, Visits, Stripped;
    var out := Stripped(text, keep);
    if i < |text| {
      var t := TokenAt(text, i);
      if t.None? {
        CodeKept(text, keep, i);
        CodeStaysCode(text, keep, i);
        NothingLeft(text, keep, i + 1);
      } else {
        TokensBlanked(text, keep, i, i);
        NothingLeft(text, keep, t.value.end);
        if Blanked(t.value.kind, keep) {
          forall k | i <= k < t.value.end
            ensures out[k] == ' ' || out[k] == '\n'
          {
            TokensBlanked(text, keep, i, k);
          }
          BlankRun(out, keep, i, t.value.end);
        } else {
          SparedAgain(text, keep, i);
        }
      }
    }
  }

  lemma SparedAgain(text: string, keep: bool, i: nat)
    requires i < |text| && Visits(text, i, keep) && TokenAt(text, i).Some?
    requires !Blanked(TokenAt(text, i).value.kind, keep)
    ensures TokenAt(Stripped(text, keep), i) == TokenAt(text, i)
  {
    hide Stripped, Visits, Mask, Find, StringEnd, Past, RawClosing, CharEnd, Hashes;
    var out, end := Stripped(text, keep), TokenAt(text, i).value.end;
    forall k | i <= k < end
      ensures out[k] == text[k]
    {
      TokensBlanked(text, keep, i, k);
    }
    assert text[i] == '"' && end == StringEnd(text, i + 1) by { TokensBlanked(text, keep, i, i); }
    SameString(text, out, i + 1);
  }

  /** In either mode, blanking what has been blanked changes nothing. */
  lemma Idempotent(text: string, keep: bool)
    ensures Stripped(Stripped(text, keep), keep) == Stripped(text, keep)
  {
    var out, m := Stripped(text, keep), Mask(text, 0, keep);
    assert m[0..] == m;
    NothingLeft(text, keep, 0);
    forall k | 0 <= k < |out|
      ensures Stripped(out, keep)[k] == out[k]
    {
      assert !Mask(out, 0, keep)[k];
    }
  }

  /** With strings blanked too, nothing that could open a comment or literal is left at any offset. */
  lemma NothingOpensAnywhere(text: string, i: nat)
    requires i < |text|
    ensures TokenAt(Stripped(text, false), i).None?
    ensures Stripped(text, false)[i] != '"'
  {
    hide TokenAt, Stripped;
    var m := Mask(text, 0, false);
    assert m[0..] == m;
    NothingLeft(text, false, 0);
    AllCode(Stripped(text, false), 0, i);
    QuoteOpens(Stripped(text, false), i);
  }

  lemma {:induction false} AllCode(out: string, i: nat, j: nat)
    requires i <= j < |out| && forall k :: 0 <= k < |out| - i ==> !Mask(out, i, false)[k]
    ensures TokenAt(out, j).None?
    decreases j - i
  {
    hide TokenAt;
    var m := Mask(out, i, false);
    assert !m[0];
    if i < j {
      assert m[1..] == Mask(out, i + 1, false);
      AllCode(out, i + 1, j);
    }
  }

  lemma QuoteOpens(out: string, i: nat)
    requires i < |out| && TokenAt(out, i).None?
    ensures out[i] != '"'
  {
  }
}
