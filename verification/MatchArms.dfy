/** Finding the `match` expressions of a blanked text, and the arms of each, by counting brackets. */
module MatchArms {
  import opened Bytes
  import opened RustText

  predicate IsOpen(c: char) {
    c == '(' || c == '[' || c == '{'
  }

  predicate IsClose(c: char) {
    c == ')' || c == ']' || c == '}'
  }

  function Delta(c: char): int {
    if IsOpen(c) then 1 else if IsClose(c) then -1 else 0
  }

  /** How many more brackets `code[a..b]` opens than it closes. */
  function Depth(code: string, a: nat, b: nat): int
    requires a <= b <= |code|
    decreases b - a
  {
    if a == b then 0 else Depth(code, a, b - 1) + Delta(code[b - 1])
  }

  predicate ArrowAt(code: string, i: nat)
    requires i < |code|
  {
    code[i] == '=' && i + 1 < |code| && code[i + 1] == '>'
  }

  // ------------------------------------------------------------------------ specification

  /** Past the first bracket that brings the depth back to zero, or the end of the text. */
  function BalancedFrom(code: string, i: nat, depth: int): (end: nat)
    requires i <= |code|
    ensures i <= end <= |code| && (i < |code| ==> i < end)
    decreases |code| - i
  {
    if i == |code| then i
    else if IsClose(code[i]) && depth == 1 then i + 1
    else BalancedFrom(code, i + 1, depth + Delta(code[i]))
  }

  function Balanced(code: string, start: nat): nat
    requires start <= |code|
  {
    BalancedFrom(code, start, 0)
  }

  predicate Spacing(c: char, commas: bool) {
    c == ' ' || c == '\t' || c == '\r' || c == '\n' || (commas && c == ',')
  }

  function Skip(code: string, i: nat, end: nat, commas: bool): (j: nat)
    requires i <= |code| && end <= |code|
    ensures i <= j <= |code| && (i <= end ==> j <= end) && (j < end ==> !Spacing(code[j], commas))
    ensures forall k :: i <= k < j ==> Spacing(code[k], commas)
    decreases |code| - i
  {
    if i < end && Spacing(code[i], commas) then Skip(code, i + 1, end, commas) else i
  }

  /** The first `=>` outside every bracket opened since the scan began. */
  function ArrowFrom(code: string, i: nat, end: nat, depth: int): (r: Option<nat>)
    requires i <= |code| && end <= |code|
    ensures r.Some? ==> i <= r.value < end && ArrowAt(code, r.value)
    decreases |code| - i
  {
    if i >= end then None
    else if ArrowAt(code, i) && depth == 0 then Some(i)
    else ArrowFrom(code, i + 1, end, depth + Delta(code[i]))
  }

  /** The first comma outside every bracket opened since the scan began, or the end. */
  function CommaFrom(code: string, i: nat, end: nat, depth: int): (j: nat)
    requires i <= |code| && end <= |code|
    ensures i <= j <= |code| && (i <= end ==> j <= end)
    decreases |code| - i
  {
    if i >= end || (code[i] == ',' && depth == 0) then i
    else CommaFrom(code, i + 1, end, depth + Delta(code[i]))
  }

  /** One arm, as offsets: its pattern, its arrow, and its body. */
  datatype Span = Span(pattern: nat, arrow: nat, body: nat, end: nat)

  function BodyEnd(code: string, body: nat, end: nat): (e: nat)
    requires body <= |code| && end <= |code|
    ensures body <= e <= |code|
  {
    if body < end && code[body] == '{' then Balanced(code, body) else CommaFrom(code, body, end, 0)
  }

  /** The arm that starts at or after `i`, if an arrow follows before the end. */
  function NextArm(code: string, i: nat, end: nat): (r: Option<Span>)
    requires i <= |code| && end <= |code|
    ensures r.Some? ==> i <= r.value.pattern <= r.value.arrow
    ensures r.Some? ==> r.value.arrow + 2 <= r.value.body <= r.value.end <= |code|
  {
    var p := Skip(code, i, end, true);
    match ArrowFrom(code, p, end, 0)
    case None => None
    case Some(a) =>
      var b := Skip(code, a + 2, end, false);
      Some(Span(p, a, b, BodyEnd(code, b, end)))
  }

  function Spans(code: string, i: nat, end: nat): (spans: seq<Span>)
    requires i <= |code| && end <= |code|
    ensures forall k :: 0 <= k < |spans| ==> Within(code, spans[k])
    decreases |code| - i
  {
    var arm := NextArm(code, i, end);
    if arm.None? then [] else [arm.value] + Spans(code, arm.value.end, end)
  }

  /** An arm as the reader reports it: two slices of the text, and where the first one starts. */
  datatype Arm = Arm(pattern: string, body: string, offset: nat)

  predicate Within(code: string, s: Span) {
    s.pattern <= s.arrow <= |code| && s.body <= s.end <= |code|
  }

  function ArmsOf(code: string, spans: seq<Span>): (arms: seq<Arm>)
    requires forall k :: 0 <= k < |spans| ==> Within(code, spans[k])
    ensures |arms| == |spans|
  {
    if spans == [] then []
    else
      var s := spans[0];
      assert Within(code, s);
      [Arm(code[s.pattern..s.arrow], code[s.body..s.end], s.pattern)] + ArmsOf(code, spans[1..])
  }

  function ArmsIn(code: string, i: nat, end: nat): seq<Arm>
    requires i <= |code| && end <= |code|
  {
    ArmsOf(code, Spans(code, i, end))
  }

  // ------------------------------------------------------------------------- match bodies

  predicate IsWord(c: char, wide: char -> bool) {
    'a' <= c <= 'z' || 'A' <= c <= 'Z' || '0' <= c <= '9' || c == '_' || (c as int >= 128 && wide(c))
  }

  /** The keyword, standing as a word of its own. */
  predicate KeywordAt(code: string, i: nat, wide: char -> bool) {
    && OccursAt(code, "match", i)
    && (i > 0 ==> !IsWord(code[i - 1], wide))
    && (i + 5 < |code| ==> !IsWord(code[i + 5], wide))
  }

  /** Just past every `match` keyword, in order. */
  function KeywordEnds(code: string, i: nat, wide: char -> bool): (ends: seq<nat>)
    ensures forall k :: 0 <= k < |ends| ==> ends[k] <= |code|
    decreases |code| - i
  {
    if i >= |code| then []
    else if KeywordAt(code, i, wide) then [i + 5] + KeywordEnds(code, i + 5, wide)
    else KeywordEnds(code, i + 1, wide)
  }

  /** The brace that opens a `match` body: the first outside parentheses and brackets, before any semicolon there. */
  function BodyStart(code: string, i: nat, depth: int): (r: Option<nat>)
    requires i <= |code|
    ensures r.Some? ==> i <= r.value < |code| && code[r.value] == '{'
    decreases |code| - i
  {
    if i == |code| then None
    else if code[i] == '{' && depth == 0 then Some(i)
    else if code[i] == ';' && depth == 0 then None
    else BodyStart(code, i + 1, depth + if code[i] == '{' || code[i] == '}' then 0 else Delta(code[i]))
  }

  datatype Body = Body(start: nat, end: nat)

  /** The bodies of the `match` expressions whose keywords end at these offsets. */
  function BodiesOf(code: string, ends: seq<nat>): seq<Body>
    requires forall k :: 0 <= k < |ends| ==> ends[k] <= |code|
  {
    if ends == [] then []
    else
      var last := |ends| - 1;
      BodiesOf(code, ends[..last])
      + match BodyStart(code, ends[last], 0)
        case None => []
        case Some(i) => [Body(i, Balanced(code, i) - 1)]
  }

  function MatchBodies(code: string, wide: char -> bool): seq<Body> {
    BodiesOf(code, KeywordEnds(code, 0, wide))
  }

  // ------------------------------------------------------------------------------ methods

  method FindBalanced(code: string, start: nat) returns (end: nat)
    requires start <= |code|
    ensures end == Balanced(code, start)
  {
    var depth, i, n := 0, start, |code|;
    while i < n
      invariant i <= n && BalancedFrom(code, start, 0) == BalancedFrom(code, i, depth)
    {
      if IsOpen(code[i]) {
        depth := depth + 1;
      } else if IsClose(code[i]) {
        depth := depth - 1;
        if depth == 0 {
          return i + 1;
        }
      }
      i := i + 1;
    }
    return n;
  }

  method FindBodyStart(code: string, from: nat) returns (r: Option<nat>)
    requires from <= |code|
    ensures r == BodyStart(code, from, 0)
  {
    var i, depth, n := from, 0, |code|;
    while i < n
      invariant from <= i <= n && BodyStart(code, from, 0) == BodyStart(code, i, depth)
    {
      var c := code[i];
      if c == '(' || c == '[' {
        depth := depth + 1;
      } else if c == ')' || c == ']' {
        depth := depth - 1;
      } else if c == '{' && depth == 0 {
        return Some(i);
      } else if c == ';' && depth == 0 {
        return None;
      }
      i := i + 1;
    }
    return None;
  }

  method FindMatchBodies(code: string, wide: char -> bool) returns (bodies: seq<Body>)
    ensures bodies == MatchBodies(code, wide)
  {
    hide BodyStart, BalancedFrom, KeywordAt;
    var ends := KeywordEnds(code, 0, wide);
    bodies := [];
    for m := 0 to |ends|
      invariant bodies == BodiesOf(code, ends[..m])
    {
      assert ends[..m + 1][..m] == ends[..m];
      var i := FindBodyStart(code, ends[m]);
      if i.None? {
        continue;
      }
      var end := FindBalanced(code, i.value);
      if end <= i.value {
        continue;
      }
      bodies := bodies + [Body(i.value, end - 1)];
    }
    assert ends[..|ends|] == ends;
  }

  method SkipSpacing(code: string, from: nat, end: nat, commas: bool) returns (i: nat)
    requires from <= |code| && end <= |code|
    ensures i == Skip(code, from, end, commas)
  {
    i := from;
    while i < end && Spacing(code[i], commas)
      invariant from <= i <= |code| && Skip(code, from, end, commas) == Skip(code, i, end, commas)
    {
      i := i + 1;
    }
  }

  method FindArrow(code: string, from: nat, end: nat) returns (arrow: Option<nat>)
    requires from <= |code| && end <= |code|
    ensures arrow == ArrowFrom(code, from, end, 0)
  {
    var i, depth := from, 0;
    while i < end
      invariant from <= i <= |code| && ArrowFrom(code, from, end, 0) == ArrowFrom(code, i, end, depth)
    {
      var c := code[i];
      if IsOpen(c) {
        depth := depth + 1;
      } else if IsClose(c) {
        depth := depth - 1;
      } else if c == '=' && depth == 0 && i + 1 < |code| && code[i + 1] == '>' {
        return Some(i);
      }
      i := i + 1;
    }
    return None;
  }

  method FindComma(code: string, from: nat, end: nat) returns (i: nat)
    requires from <= |code| && end <= |code|
    ensures i == CommaFrom(code, from, end, 0)
  {
    var depth := 0;
    i := from;
    while i < end
      invariant from <= i <= |code| && CommaFrom(code, from, end, 0) == CommaFrom(code, i, end, depth)
    {
      var c := code[i];
      if IsOpen(c) {
        depth := depth + 1;
      } else if IsClose(c) {
        depth := depth - 1;
      } else if c == ',' && depth == 0 {
        break;
      }
      i := i + 1;
    }
  }

  method Arms(code: string, start: nat, end: nat) returns (out: seq<Arm>)
    requires start < |code| && end <= |code|
    ensures out == ArmsIn(code, start + 1, end)
  {
    hide Skip, ArrowFrom, CommaFrom, Balanced, BalancedFrom, ArmsIn, Spacing;
    var i := start + 1;
    out := [];
    while i < end
      invariant i <= |code| && ArmsIn(code, start + 1, end) == out + ArmsIn(code, i, end)
      decreases |code| - i
    {
      ghost var from := i;
      i := SkipSpacing(code, i, end, true);
      if i >= end {
        NoMoreArms(code, from, i, end);
        break;
      }
      var patStart := i;
      var arrow := FindArrow(code, i, end);
      if arrow.None? {
        NoMoreArms(code, from, i, end);
        break;
      }
      var pattern := code[patStart..arrow.value];
      var bodyStart := SkipSpacing(code, arrow.value + 2, end, false);
      if bodyStart < end && code[bodyStart] == '{' {
        i := FindBalanced(code, bodyStart);
      } else {
        i := FindComma(code, bodyStart, end);
      }
      OneMoreArm(code, from, end, Span(patStart, arrow.value, bodyStart, i), out);
      out := out + [Arm(pattern, code[bodyStart..i], patStart)];
    }
    if i >= end {
      NoMoreArms(code, i, i, end);
    }
  }

  lemma OneMoreArm(code: string, i: nat, end: nat, s: Span, out: seq<Arm>)
    requires i <= |code| && end <= |code| && NextArm(code, i, end) == Some(s)
    ensures out + ArmsIn(code, i, end) ==
            out + [Arm(code[s.pattern..s.arrow], code[s.body..s.end], s.pattern)] + ArmsIn(code, s.end, end)
  {
    hide NextArm;
    var more := Spans(code, s.end, end);
    assert Spans(code, i, end) == [s] + more;
    assert ([s] + more)[1..] == more;
  }

  lemma NoMoreArms(code: string, i: nat, p: nat, end: nat)
    requires i <= |code| && end <= |code|
    requires i >= end || (p == Skip(code, i, end, true) && (p >= end || ArrowFrom(code, p, end, 0).None?))
    ensures ArmsIn(code, i, end) == []
  {
  }
}
