/** Match arms are well nested: once a body's closing bracket is found, no arm of it is looked for beyond. */
module MatchArmsLaws {
  import opened Bytes
  import opened MatchArms

  /** A closing bracket at `k` that brings the depth since `start` back to zero. */
  predicate Closes(code: string, start: nat, k: nat)
    requires start <= k < |code|
  {
    IsClose(code[k]) && Depth(code, start, k + 1) == 0
  }

  /** `end` is the first bracket that closes what `start` began. */
  ghost predicate ClosedBy(code: string, start: nat, end: nat) {
    && start < end < |code|
    && IsOpen(code[start])
    && Closes(code, start, end)
    && forall k :: start <= k < end ==> !Closes(code, start, k)
  }

  /** A slice that closes every bracket it opens and no other. */
  ghost predicate Nested(code: string, a: nat, b: nat) {
    && a <= b <= |code|
    && Depth(code, a, b) == 0
    && forall k :: a <= k <= b ==> Depth(code, a, k) >= 0
  }

  // ---------------------------------------------------------------------- counting brackets

  lemma {:induction false} DepthSplit(code: string, a: nat, b: nat, c: nat)
    requires a <= b <= c <= |code|
    ensures Depth(code, a, c) == Depth(code, a, b) + Depth(code, b, c)
    decreases c - b
  {
    if b < c {
      DepthSplit(code, a, b, c - 1);
    }
  }

  lemma {:induction false} FlatDepth(code: string, a: nat, b: nat)
    requires a <= b <= |code| && forall k :: a <= k < b ==> Delta(code[k]) == 0
    ensures Depth(code, a, b) == 0
    decreases b - a
  {
    if a < b {
      FlatDepth(code, a, b - 1);
    }
  }

  /** What the scan answers: just past the first closing bracket that matches, or the end of the text if none does. */
  lemma {:induction false} BalancedFinds(code: string, start: nat, i: nat)
    requires start <= i <= |code| && forall k :: start <= k < i ==> !Closes(code, start, k)
    ensures var e := BalancedFrom(code, i, Depth(code, start, i));
            && i <= e <= |code|
            && (forall k :: start <= k < e - 1 ==> !Closes(code, start, k))
            && ((i < e && Closes(code, start, e - 1))
                || (e == |code| && forall k :: start <= k < e ==> !Closes(code, start, k)))
    decreases |code| - i
  {
    if i < |code| {
      assert Depth(code, start, i + 1) == Depth(code, start, i) + Delta(code[i]);
      if !Closes(code, start, i) {
        BalancedFinds(code, start, i + 1);
      }
    }
  }

  lemma BalancedIs(code: string, start: nat)
    requires start < |code| && IsOpen(code[start])
    ensures var e := Balanced(code, start);
            && start < e <= |code|
            && (ClosedBy(code, start, e - 1)
                || (e == |code| && forall k :: start <= k < e ==> !Closes(code, start, k)))
  {
    BalancedFinds(code, start, start);
    assert Depth(code, start, start + 1) == Depth(code, start, start) + Delta(code[start]);
    assert !Closes(code, start, start);
  }

  /** Until what an opening bracket began is closed, the depth stays above zero. */
  lemma {:induction false} OpenUntilClosed(code: string, start: nat, k: nat)
    requires start < k <= |code| && IsOpen(code[start])
    requires forall q :: start <= q < k ==> !Closes(code, start, q)
    ensures Depth(code, start, k) >= 1
    decreases k
  {
    assert Depth(code, start, k) == Depth(code, start, k - 1) + Delta(code[k - 1]);
    if k - 1 > start {
      OpenUntilClosed(code, start, k - 1);
      assert !Closes(code, start, k - 1);
    }
  }

  lemma Inside(code: string, start: nat, end: nat, k: nat)
    requires ClosedBy(code, start, end) && start < k <= end
    ensures Depth(code, start, k) >= 1
    ensures Depth(code, start, end) == 1
  {
    OpenUntilClosed(code, start, k);
    assert Depth(code, start, end + 1) == Depth(code, start, end) + Delta(code[end]);
  }

  /** A bracket opened inside a closed body is closed inside it: the inner scan never runs past the outer close. */
  lemma InnerCloses(code: string, start: nat, end: nat, i: nat)
    requires ClosedBy(code, start, end) && start < i < end && IsOpen(code[i])
    ensures i < Balanced(code, i) <= end && ClosedBy(code, i, Balanced(code, i) - 1)
    ensures Depth(code, start, Balanced(code, i)) == Depth(code, start, i)
  {
    hide Depth, Balanced;
    var e := Balanced(code, i);
    BalancedIs(code, i);
    Inside(code, start, end, i);
    if e > end {
      OpenUntilClosed(code, i, end);
      DepthSplit(code, start, i, end);
    }
    DepthSplit(code, start, i, e);
  }

  /** A slice of a closed body that starts and ends at the body's own depth is nested. */
  lemma LevelSlice(code: string, start: nat, end: nat, a: nat, b: nat)
    requires ClosedBy(code, start, end) && start < a <= b <= end
    requires Depth(code, start, a) == 1 && Depth(code, start, b) == 1
    ensures Nested(code, a, b)
  {
    hide Depth;
    forall k | a <= k <= b
      ensures Depth(code, a, k) >= 0
    {
      Inside(code, start, end, k);
      DepthSplit(code, start, a, k);
    }
    DepthSplit(code, start, a, b);
  }

  // --------------------------------------------------------------------------- the scans

  /** An arrow is found exactly where the first one outside brackets stands. */
  lemma {:induction false} ArrowFinds(code: string, from: nat, i: nat, end: nat)
    requires from <= i <= |code| && end <= |code|
    requires forall k :: from <= k < i ==> !(ArrowAt(code, k) && Depth(code, from, k) == 0)
    ensures var r := ArrowFrom(code, i, end, Depth(code, from, i));
            && (r.Some? ==> Depth(code, from, r.value) == 0)
            && forall k :: from <= k < (if r.Some? then r.value else end) ==>
                 !(ArrowAt(code, k) && Depth(code, from, k) == 0)
    decreases |code| - i
  {
    if i < end && !(ArrowAt(code, i) && Depth(code, from, i) == 0) {
      assert Depth(code, from, i + 1) == Depth(code, from, i) + Delta(code[i]);
      ArrowFinds(code, from, i + 1, end);
    }
  }

  lemma {:induction false} CommaFinds(code: string, from: nat, i: nat, end: nat)
    requires from <= i <= end <= |code|
    requires forall k :: from <= k < i ==> !(code[k] == ',' && Depth(code, from, k) == 0)
    ensures var j := CommaFrom(code, i, end, Depth(code, from, i));
            && i <= j <= end && (j < end ==> code[j] == ',' && Depth(code, from, j) == 0)
            && forall k :: from <= k < j ==> !(code[k] == ',' && Depth(code, from, k) == 0)
    decreases |code| - i
  {
    if i < end && !(code[i] == ',' && Depth(code, from, i) == 0) {
      assert Depth(code, from, i + 1) == Depth(code, from, i) + Delta(code[i]);
      CommaFinds(code, from, i + 1, end);
    }
  }

  // ------------------------------------------------------------------------- arms in a body

  /** The two characters of an arrow. */
  predicate Arrow(code: string, k: nat) {
    k + 2 <= |code| && code[k..k + 2] == "=>"
  }

  lemma ArrowIs(code: string, k: nat)
    requires k < |code|
    ensures ArrowAt(code, k) <==> Arrow(code, k)
  {
    if k + 2 <= |code| {
      var two := code[k..k + 2];
      assert two[0] == code[k] && two[1] == code[k + 1];
    }
  }

  /** No `=>` outside brackets in a slice. */
  ghost predicate NoArrow(code: string, a: nat, b: nat) {
    a <= b <= |code| && forall k :: a <= k < b ==> !(Arrow(code, k) && Depth(code, a, k) == 0)
  }

  /** Nothing but blanks, tabs and line ends, and commas where those are skipped too. */
  ghost predicate AllSpacing(code: string, a: nat, b: nat, commas: bool) {
    a <= b <= |code| && forall k :: a <= k < b ==> code[k] in " \t\r\n" || (commas && code[k] == ',')
  }

  lemma SpacingIs(c: char, commas: bool)
    ensures Spacing(c, commas) <==> c in " \t\r\n" || (commas && c == ',')
  {
  }

  /** A whole arm inside a body: a nested pattern with no arrow of its own, the arrow, and a nested body. */
  ghost predicate ArmInside(code: string, s: Span, end: nat) {
    && s.pattern <= s.arrow && s.arrow + 2 <= s.body <= s.end <= end <= |code|
    && code[s.pattern] !in " \t\r\n,"
    && Arrow(code, s.arrow) && NoArrow(code, s.pattern, s.arrow) && Nested(code, s.pattern, s.arrow)
    && AllSpacing(code, s.arrow + 2, s.body, false)
    && (s.body < end ==> code[s.body] !in " \t\r\n")
    && Nested(code, s.body, s.end)
    && (s.body < end && code[s.body] == '{' ==> ClosedBy(code, s.body, s.end - 1))
    && (s.body < end && code[s.body] != '{' ==>
          && (s.end == end || code[s.end] == ',')
          && forall k :: s.body <= k < s.end ==> !(code[k] == ',' && Depth(code, s.body, k) == 0))
  }

  /** From `from` on a body is spacing, an arm, spacing, an arm and so on, then a rest without an arrow. */
  ghost predicate Laid(code: string, from: nat, spans: seq<Span>, end: nat)
    decreases |spans|
  {
    if spans == [] then
      exists p :: from <= p <= end <= |code| && AllSpacing(code, from, p, true) && NoArrow(code, p, end)
    else
      && from <= spans[0].pattern <= end
      && AllSpacing(code, from, spans[0].pattern, true)
      && ArmInside(code, spans[0], end)
      && Laid(code, spans[0].end, spans[1..], end)
  }

  lemma SkipDepth(code: string, start: nat, i: nat, end: nat, commas: bool)
    requires start <= i <= end <= |code|
    ensures Depth(code, start, Skip(code, i, end, commas)) == Depth(code, start, i)
    ensures AllSpacing(code, i, Skip(code, i, end, commas), commas)
    ensures var j := Skip(code, i, end, commas);
            j < end ==> code[j] !in " \t\r\n" && (commas ==> code[j] != ',')
  {
    hide Depth, Skip;
    var j := Skip(code, i, end, commas);
    forall k | i <= k < j
      ensures code[k] in " \t\r\n" || (commas && code[k] == ',')
    {
      SpacingIs(code[k], commas);
    }
    if j < end {
      SpacingIs(code[j], commas);
    }
    FlatDepth(code, i, j);
    DepthSplit(code, start, i, j);
  }

  lemma ArmNested(code: string, start: nat, end: nat, i: nat)
    requires ClosedBy(code, start, end) && start < i <= end < |code| && Depth(code, start, i) == 1
    ensures var p, arm := Skip(code, i, end, true), NextArm(code, i, end);
            && i <= p <= end && AllSpacing(code, i, p, true)
            && if arm.None? then NoArrow(code, p, end)
               else arm.value.pattern == p && ArmInside(code, arm.value, end) && Depth(code, start, arm.value.end) == 1
  {
    hide Depth, Skip, Balanced, ArrowFrom, CommaFrom, ClosedBy, Nested;
    var p := Skip(code, i, end, true);
    SkipDepth(code, start, i, end, true);
    var arrow := ArrowFrom(code, p, end, 0);
    ArrowScan(code, p, end);
    if arrow.Some? {
      var a := arrow.value;
      DepthSplit(code, start, p, a);
      AfterArrow(code, start, end, a);
      var b := Skip(code, a + 2, end, false);
      SkipDepth(code, start, a + 2, end, false);
      BodyNested(code, start, end, b);
      LevelSlice(code, start, end, p, a);
      LevelSlice(code, start, end, b, BodyEnd(code, b, end));
    }
  }

  lemma ArrowScan(code: string, p: nat, end: nat)
    requires p <= end <= |code|
    ensures var r := ArrowFrom(code, p, end, 0);
            if r.None? then NoArrow(code, p, end)
            else
              && p <= r.value < end && Arrow(code, r.value)
              && Depth(code, p, r.value) == 0 && NoArrow(code, p, r.value)
  {
    hide ArrowFrom, ArrowAt, Arrow;
    var r := ArrowFrom(code, p, end, 0);
    ArrowFinds(code, p, p, end);
    forall k | p <= k < end
      ensures ArrowAt(code, k) <==> Arrow(code, k)
    {
      ArrowIs(code, k);
    }
  }

  /** An arrow at the body's own depth leaves room for both its characters before the close. */
  lemma AfterArrow(code: string, start: nat, end: nat, a: nat)
    requires ClosedBy(code, start, end) && start < a < end && Arrow(code, a) && Depth(code, start, a) == 1
    ensures a + 2 <= end && Depth(code, start, a + 2) == 1
  {
    ArrowIs(code, a);
    assert Depth(code, start, a + 1) == Depth(code, start, a) + Delta(code[a]);
    assert Depth(code, start, a + 2) == Depth(code, start, a + 1) + Delta(code[a + 1]);
  }

  lemma BodyNested(code: string, start: nat, end: nat, b: nat)
    requires ClosedBy(code, start, end) && start < b <= end && Depth(code, start, b) == 1
    ensures var e := BodyEnd(code, b, end);
            && b <= e <= end && Depth(code, start, e) == 1
            && (b < end && code[b] == '{' ==> ClosedBy(code, b, e - 1))
            && (b < end && code[b] != '{' ==>
                  && (e == end || code[e] == ',')
                  && forall k :: b <= k < e ==> !(code[k] == ',' && Depth(code, b, k) == 0))
  {
    hide Balanced, CommaFrom;
    Inside(code, start, end, end);
    if b < end && code[b] == '{' {
      InnerCloses(code, start, end, b);
    } else {
      CommaFinds(code, b, b, end);
      DepthSplit(code, start, b, BodyEnd(code, b, end));
    }
  }

  lemma {:induction false} ArmsLaid(code: string, start: nat, end: nat, i: nat)
    requires ClosedBy(code, start, end) && start < i <= end < |code| && Depth(code, start, i) == 1
    ensures Laid(code, i, Spans(code, i, end), end)
    decreases |code| - i
  {
    hide Depth, Skip, NextArm, ArmInside, ClosedBy, AllSpacing, NoArrow;
    var arm := NextArm(code, i, end);
    ArmNested(code, start, end, i);
    if arm.Some? {
      EndsLater(code, arm.value, end);
      ArmsLaid(code, start, end, arm.value.end);
      var more := Spans(code, arm.value.end, end);
      assert ([arm.value] + more)[1..] == more;
    }
  }

  lemma EndsLater(code: string, s: Span, end: nat)
    requires ArmInside(code, s, end)
    ensures s.pattern < s.end <= end
  {
  }

  /** The arms of a closed body, from just past its opening bracket, account for all of it. */
  lemma ArmsAreLaid(code: string, start: nat, end: nat)
    requires ClosedBy(code, start, end)
    ensures Laid(code, start + 1, Spans(code, start + 1, end), end)
  {
    Inside(code, start, end, end);
    assert Depth(code, start, start + 1) == Depth(code, start, start) + Delta(code[start]);
    ArmsLaid(code, start, end, start + 1);
  }

  /** Arms lie inside the body, in order, and never overlap. */
  lemma {:induction false} InOrder(code: string, from: nat, spans: seq<Span>, end: nat, k: nat, l: nat)
    requires Laid(code, from, spans, end) && k <= l < |spans|
    ensures from <= spans[k].pattern && spans[l].end <= end
    ensures ArmInside(code, spans[k], end)
    ensures k < l ==> spans[k].end <= spans[l].pattern
    decreases |spans|
  {
    hide ArmInside, AllSpacing, NoArrow;
    EndsLater(code, spans[0], end);
    if k > 0 {
      InOrder(code, spans[0].end, spans[1..], end, k - 1, l - 1);
    } else if l > 0 {
      InOrder(code, spans[0].end, spans[1..], end, 0, l - 1);
      InOrder(code, spans[0].end, spans[1..], end, l - 1, l - 1);
    }
  }

  lemma {:induction false} ArmAt(code: string, spans: seq<Span>, k: nat)
    requires k < |spans| && forall q :: 0 <= q < |spans| ==> Within(code, spans[q])
    ensures var s := spans[k];
            Within(code, s) && ArmsOf(code, spans)[k] == Arm(code[s.pattern..s.arrow], code[s.body..s.end], s.pattern)
  {
    assert Within(code, spans[k]);
    if k > 0 {
      ArmAt(code, spans[1..], k - 1);
    }
  }

  /** Everything reported of a closed body is a slice of that body, and a slice later than the one before. */
  lemma ArmsWellNested(code: string, start: nat, end: nat, k: nat, l: nat)
    requires ClosedBy(code, start, end) && k <= l < |Spans(code, start + 1, end)|
    ensures var spans := Spans(code, start + 1, end); var s := spans[k];
            && ArmsIn(code, start + 1, end)[k] == Arm(code[s.pattern..s.arrow], code[s.body..s.end], s.pattern)
            && start < s.pattern && spans[l].end <= end && ArmInside(code, s, end)
            && (k < l ==> s.end <= spans[l].pattern)
  {
    hide ArmInside, Spans, Laid;
    ArmsAreLaid(code, start, end);
    InOrder(code, start + 1, Spans(code, start + 1, end), end, k, l);
    ArmAt(code, Spans(code, start + 1, end), k);
  }

  // ------------------------------------------------------------------------- match bodies

  /** Exactly the keywords are found, each once: two of them cannot overlap. */
  lemma {:induction false} KeywordsExact(code: string, i: nat, wide: char -> bool, at: nat)
    requires i <= at
    ensures at + 5 in KeywordEnds(code, i, wide) <==> KeywordAt(code, at, wide)
    decreases |code| - i
  {
    hide IsWord;
    if i < |code| {
      if !KeywordAt(code, i, wide) {
        if i < at {
          KeywordsExact(code, i + 1, wide, at);
        } else {
          KeywordsLater(code, i + 1, wide, i + 5);
        }
      } else if at >= i + 5 {
        KeywordsExact(code, i + 5, wide, at);
      } else {
        KeywordsLater(code, i + 5, wide, at + 5);
        if i < at {
          NoOverlap(code, i, wide, at);
        }
      }
    }
  }

  lemma NoOverlap(code: string, i: nat, wide: char -> bool, at: nat)
    requires KeywordAt(code, i, wide) && i < at < i + 5
    ensures !KeywordAt(code, at, wide)
  {
    hide IsWord;
    assert code[at] == code[i..i + 5][at - i] == "match"[at - i] != 'm';
    if at + 5 <= |code| {
      assert code[at..at + 5][0] == code[at];
    }
  }

  lemma {:induction false} KeywordsLater(code: string, i: nat, wide: char -> bool, x: nat)
    requires x < i + 5
    ensures x !in KeywordEnds(code, i, wide)
    decreases |code| - i
  {
    hide KeywordAt;
    if i < |code| {
      if i + 5 <= |code| {
        KeywordsLater(code, i + 5, wide, x);
      }
      KeywordsLater(code, i + 1, wide, x);
    }
  }

  /** Every body starts at a brace, and ends at the brace that closes it or at the text's last character. */
  lemma {:induction false} BodiesClosed(code: string, ends: seq<nat>, b: Body)
    requires forall k :: 0 <= k < |ends| ==> ends[k] <= |code|
    requires b in BodiesOf(code, ends)
    ensures b.start < |code| && code[b.start] == '{'
    ensures ClosedBy(code, b.start, b.end)
            || (b.end == |code| - 1 && forall k :: b.start <= k < |code| ==> !Closes(code, b.start, k))
    decreases |ends|
  {
    hide BodyStart, Balanced, ClosedBy, Closes;
    var last := |ends| - 1;
    var at := BodyStart(code, ends[last], 0);
    if b in BodiesOf(code, ends[..last]) {
      BodiesClosed(code, ends[..last], b);
    } else {
      assert at.Some? && b == Body(at.value, Balanced(code, at.value) - 1);
      BalancedIs(code, at.value);
    }
  }

  // ---------------------------------------------------------------------- unclosed bodies

  /** An arm whose brace is not closed before `end`, or whose arrow is the last thing in the text. */
  ghost predicate LeavesOpen(code: string, s: Span, end: nat)
    requires Within(code, s) && end <= |code|
  {
    || s.arrow + 2 == |code|
    || (s.body < end && code[s.body] == '{' && forall k :: s.body <= k < end ==> !Closes(code, s.body, k))
  }

  /** With the end one short of the text's, an arm reaches past it exactly when it is left open. */
  lemma ArmOverruns(code: string, i: nat, end: nat)
    requires i <= |code| && end == |code| - 1
    ensures var arm := NextArm(code, i, end);
            arm.Some? ==> Within(code, arm.value) && (arm.value.end > end <==> LeavesOpen(code, arm.value, end))
  {
    hide Skip, ArrowFrom, Depth;
    var arm := NextArm(code, i, end);
    if arm.Some? {
      var b := arm.value.body;
      if b < end && code[b] == '{' {
        BalancedIs(code, b);
      }
    }
  }

  /** Only the last arm can reach past the end: the scan stops there. */
  lemma {:induction false} LastArmOverruns(code: string, i: nat, end: nat)
    requires i <= |code| && end == |code| - 1
    ensures var spans := Spans(code, i, end);
            (exists k :: 0 <= k < |spans| && spans[k].end > end) <==>
            spans != [] && LeavesOpen(code, spans[|spans| - 1], end)
    decreases |code| - i
  {
    hide NextArm, LeavesOpen;
    var arm, spans := NextArm(code, i, end), Spans(code, i, end);
    if arm.Some? {
      ArmOverruns(code, i, end);
      var more := Spans(code, arm.value.end, end);
      assert spans == [arm.value] + more;
      LastArmOverruns(code, arm.value.end, end);
      if arm.value.end > end {
        NothingPast(code, arm.value.end, end);
        assert spans[0].end > end;
      } else if more == [] {
        assert spans[|spans| - 1] == arm.value;
      } else {
        assert spans[|spans| - 1] == more[|more| - 1];
        assert forall k :: 0 <= k < |more| ==> spans[k + 1] == more[k];
      }
    }
  }

  lemma NothingPast(code: string, i: nat, end: nat)
    requires end <= i <= |code|
    ensures Spans(code, i, end) == []
  {
  }

  /**
   Exactly when an arm of a `match` body reaches past the body: the body has no closing bracket, and its
   last arm is left open by a brace not closed before the text's last character or by ending at its arrow.
   */
  lemma BodyOverruns(code: string, wide: char -> bool, b: Body)
    requires b in MatchBodies(code, wide)
    ensures b.start < |code| && b.end < |code|
    ensures var spans := Spans(code, b.start + 1, b.end);
            (exists k :: 0 <= k < |spans| && spans[k].end > b.end) <==>
            !ClosedBy(code, b.start, b.end) && spans != [] && LeavesOpen(code, spans[|spans| - 1], b.end)
  {
    hide Spans, LeavesOpen, BodiesOf;
    BodiesClosed(code, KeywordEnds(code, 0, wide), b);
    var spans := Spans(code, b.start + 1, b.end);
    if ClosedBy(code, b.start, b.end) {
      forall k | 0 <= k < |spans|
        ensures spans[k].end <= b.end
      {
        ArmsWellNested(code, b.start, b.end, k, k);
      }
    } else {
      LastArmOverruns(code, b.start + 1, b.end);
    }
  }

  lemma {:induction false} NoKeyword(code: string, i: nat, wide: char -> bool)
    requires forall k :: i <= k < |code| ==> code[k] != 'm'
    ensures KeywordEnds(code, i, wide) == []
    decreases |code| - i
  {
    if i < |code| {
      if i + 5 <= |code| {
        assert code[i..i + 5][0] == code[i] != "match"[0];
      }
      NoKeyword(code, i + 1, wide);
    }
  }

  /** A text cut short inside an arm: its one body is said to end at offset 12, and its one arm ends at 13. */
  lemma UnclosedOverruns(wide: char -> bool)
    ensures MatchBodies("match x{a=>{ ", wide) == [Body(7, 12)]
    ensures ArmsIn("match x{a=>{ ", 8, 12) == [Arm("a", "{ ", 8)]
  {
    hide KeywordEnds, KeywordAt, BodyStart, Balanced, Spans;
    var code := "match x{a=>{ ";
    assert |code| == 13;
    CutKeyword(code, wide);
    CutBody(code);
    CutArm(code);
    var ends := KeywordEnds(code, 0, wide);
    assert ends == [5] && ends[..0] == [];
    assert BodiesOf(code, ends) == [] + [Body(7, 12)];
    var s := Span(8, 9, 11, 13);
    assert Spans(code, 8, 12) == [s];
    assert code[8..9] == "a" && code[11..13] == "{ ";
    assert [s][1..] == [];
  }

  lemma CutKeyword(code: string, wide: char -> bool)
    requires code == "match x{a=>{ "
    ensures KeywordEnds(code, 0, wide) == [5]
  {
    assert code[0..5] == "match";
    assert code[5] == ' ';
    NoKeyword(code, 5, wide);
  }

  lemma CutBody(code: string)
    requires code == "match x{a=>{ "
    ensures BodyStart(code, 5, 0) == Some(7) && Balanced(code, 7) == 13 && Balanced(code, 11) == 13
  {
    assert code[5] == ' ' && code[6] == 'x' && code[7] == '{' && code[8] == 'a' && code[9] == '=';
    assert code[10] == '>' && code[11] == '{' && code[12] == ' ';
    assert BodyStart(code, 6, 0) == BodyStart(code, 7, 0) == Some(7);
    assert forall depth: int :: BalancedFrom(code, 12, depth) == 13;
    assert BalancedFrom(code, 11, 0) == BalancedFrom(code, 12, 1);
    assert BalancedFrom(code, 11, 1) == BalancedFrom(code, 12, 2);
    assert BalancedFrom(code, 9, 1) == BalancedFrom(code, 10, 1) == BalancedFrom(code, 11, 1);
    assert BalancedFrom(code, 7, 0) == BalancedFrom(code, 8, 1) == BalancedFrom(code, 9, 1);
  }

  lemma CutArm(code: string)
    requires code == "match x{a=>{ "
    ensures Spans(code, 8, 12) == [Span(8, 9, 11, 13)]
  {
    hide Balanced;
    CutBody(code);
    assert code[8] == 'a' && code[9] == '=' && code[10] == '>' && code[11] == '{';
    assert Skip(code, 8, 12, true) == 8 && Skip(code, 11, 12, false) == 11;
    assert ArrowFrom(code, 8, 12, 0) == ArrowFrom(code, 9, 12, 0) == Some(9);
    assert NextArm(code, 8, 12) == Some(Span(8, 9, 11, 13));
    NothingPast(code, 13, 12);
  }
}

