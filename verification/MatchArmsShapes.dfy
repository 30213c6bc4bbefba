/** The bracket counts, the keyword and the start of a `match` body, said of the text alone. */
module MatchArmsShapes {
  import opened Bytes
  import opened MatchArms
  import opened MatchArmsLaws

  /** How many characters of a slice are one of these. */
  function Count(code: string, a: nat, b: nat, these: string): nat
    requires a <= b <= |code|
    decreases b - a
  {
    if a == b then 0 else Count(code, a, b - 1, these) + if code[b - 1] in these then 1 else 0
  }

  /** The depth is what it is called: brackets of all three kinds opened, less those closed. */
  lemma {:induction false} DepthCounts(code: string, a: nat, b: nat)
    requires a <= b <= |code|
    ensures Depth(code, a, b) == Count(code, a, b, "([{") - Count(code, a, b, ")]}")
    decreases b - a
  {
    if a < b {
      DepthCounts(code, a, b - 1);
      BracketIs(code[b - 1]);
    }
  }

  lemma BracketIs(c: char)
    ensures IsOpen(c) <==> c in "([{"
    ensures IsClose(c) <==> c in ")]}"
    ensures Delta(c) == (if c in "([{" then 1 else 0) - (if c in ")]}" then 1 else 0)
  {
  }

  // ------------------------------------------------------------------------ where a body starts

  /** Parentheses and square brackets opened, less those closed; braces do not count. */
  function Parens(code: string, a: nat, b: nat): int
    requires a <= b <= |code|
  {
    Count(code, a, b, "([") - Count(code, a, b, ")]")
  }

  /** The first brace outside parentheses and brackets, with no semicolon outside them before it. */
  predicate OpensBody(code: string, from: nat, i: nat)
    ensures OpensBody(code, from, i) ==> i < |code|
  {
    && from <= i < |code| && code[i] == '{' && Parens(code, from, i) == 0
    && forall k :: from <= k < i && Parens(code, from, k) == 0 ==> code[k] != '{' && code[k] != ';'
  }

  /** The scan for a body finds exactly that brace, and none where there is no such brace. */
  lemma BodyStartExactly(code: string, from: nat, i: nat)
    requires from <= |code|
    ensures BodyStart(code, from, 0) == Some(i) <==> OpensBody(code, from, i)
  {
    hide BodyStart, Parens;
    NoParens(code, from);
    BodyStartFrom(code, from, from, i);
  }

  lemma NoBodyStart(code: string, from: nat)
    requires from <= |code|
    ensures BodyStart(code, from, 0) == None <==> forall i: nat :: !OpensBody(code, from, i)
  {
    hide BodyStart, OpensBody;
    forall i: nat
      ensures BodyStart(code, from, 0) == Some(i) <==> OpensBody(code, from, i)
    {
      BodyStartExactly(code, from, i);
    }
  }

  lemma NoParens(code: string, a: nat)
    requires a <= |code|
    ensures Parens(code, a, a) == 0
  {
  }

  lemma ParensStep(code: string, a: nat, k: nat)
    requires a <= k < |code|
    ensures Parens(code, a, k + 1) ==
            Parens(code, a, k) + if code[k] == '{' || code[k] == '}' then 0 else Delta(code[k])
  {
  }

  lemma {:induction false} BodyStartFrom(code: string, from: nat, at: nat, i: nat)
    requires from <= at <= |code|
    requires forall k :: from <= k < at && Parens(code, from, k) == 0 ==> code[k] != '{' && code[k] != ';'
    ensures BodyStart(code, at, Parens(code, from, at)) == Some(i) <==> OpensBody(code, from, i)
    decreases |code| - at
  {
    hide Parens;
    if at < |code| {
      ParensStep(code, from, at);
      if !(Parens(code, from, at) == 0 && (code[at] == '{' || code[at] == ';')) {
        BodyStartFrom(code, from, at + 1, i);
      }
    }
  }

  // ------------------------------------------------------------------------------ the keyword

  const LOWER := "abcdefghijklmnopqrstuvwxyz"
  const UPPER := "ABCDEFGHIJKLMNOPQRSTUVWXYZ"
  const DIGITS := "0123456789"

  lemma LowerIs(c: char)
    ensures 'a' <= c <= 'z' <==> c in LOWER
  {
  }

  lemma UpperIs(c: char)
    ensures 'A' <= c <= 'Z' <==> c in UPPER
  {
  }

  lemma DigitIs(c: char)
    ensures '0' <= c <= '9' <==> c in DIGITS
  {
  }

  predicate Word(c: char, wide: char -> bool) {
    c in LOWER || c in UPPER || c in DIGITS || c == '_' || (c as int >= 128 && wide(c))
  }

  /** The five letters, with no word character on either side. */
  predicate Keyword(code: string, i: nat, wide: char -> bool) {
    && i + 5 <= |code| && code[i..i + 5] == "match"
    && (i > 0 ==> !Word(code[i - 1], wide)) && (i + 5 < |code| ==> !Word(code[i + 5], wide))
  }

  lemma KeywordIs(code: string, i: nat, wide: char -> bool)
    ensures KeywordAt(code, i, wide) <==> Keyword(code, i, wide)
  {
    hide IsWord, Word;
    if 0 < i <= |code| {
      WordIs(code[i - 1], wide);
    }
    if i + 5 < |code| {
      WordIs(code[i + 5], wide);
    }
  }

  lemma WordIs(c: char, wide: char -> bool)
    ensures IsWord(c, wide) <==> Word(c, wide)
  {
    LowerIs(c);
    UpperIs(c);
    DigitIs(c);
  }

  /** A body that a brace opens after an offset, ended where the scan for the brace's close ends. */
  predicate BodyAfter(code: string, from: nat, b: Body) {
    OpensBody(code, from, b.start) && b.end == Balanced(code, b.start) - 1
  }

  /** A body is reported exactly for each brace that opens one after a keyword. */
  lemma BodiesExactly(code: string, wide: char -> bool, b: Body)
    ensures b in MatchBodies(code, wide) <==>
            exists at: nat :: Keyword(code, at, wide) && BodyAfter(code, at + 5, b)
  {
    hide Keyword, KeywordAt, BodyAfter, BodiesOf;
    var ends := KeywordEnds(code, 0, wide);
    BodiesAre(code, ends, b);
    if b in MatchBodies(code, wide) {
      var k :| 0 <= k < |ends| && BodyAfter(code, ends[k], b);
      if ends[k] < 5 {
        KeywordsLater(code, 0, wide, ends[k]);
      }
      KeywordsExact(code, 0, wide, ends[k] - 5);
      KeywordIs(code, ends[k] - 5, wide);
      assert Keyword(code, ends[k] - 5, wide) && BodyAfter(code, ends[k] - 5 + 5, b);
    } else {
      forall at: nat | Keyword(code, at, wide)
        ensures !BodyAfter(code, at + 5, b)
      {
        KeywordIs(code, at, wide);
        KeywordsExact(code, 0, wide, at);
        var k :| 0 <= k < |ends| && ends[k] == at + 5;
      }
    }
  }

  lemma {:induction false} BodiesAre(code: string, ends: seq<nat>, b: Body)
    requires forall k :: 0 <= k < |ends| ==> ends[k] <= |code|
    ensures b in BodiesOf(code, ends) <==> exists k :: 0 <= k < |ends| && BodyAfter(code, ends[k], b)
    decreases |ends|
  {
    hide BodyAfter, BodyStart, Balanced;
    if ends != [] {
      var last := |ends| - 1;
      BodiesAre(code, ends[..last], b);
      LastBody(code, ends[last], b);
      assert forall k :: 0 <= k < last ==> ends[..last][k] == ends[k];
    }
  }

  lemma LastBody(code: string, from: nat, b: Body)
    requires from <= |code|
    ensures var at := BodyStart(code, from, 0);
            BodyAfter(code, from, b) <==> at.Some? && b == Body(at.value, Balanced(code, at.value) - 1)
  {
    hide OpensBody, BodyStart, Balanced;
    BodyStartExactly(code, from, b.start);
  }
}
