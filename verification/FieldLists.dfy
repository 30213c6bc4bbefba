/** Runs of variable-length integers: what a range's fields become on the wire, and how they are read back. */
module FieldLists {
  import opened Bytes
  import opened VarInt
  import opened VarIntLaws
  import opened VarIntCodec

  function Fields(c: Codec, fs: seq<u64>): seq<byte> {
    if fs == [] then [] else Encoding(c, fs[0]) + Fields(c, fs[1..])
  }

  /** Every field is one the codec can carry there and back. */
  predicate Fit(c: Codec, fs: seq<u64>) {
    forall i :: 0 <= i < |fs| ==> fs[i] <= MaxValue(c)
  }

  /** Exactly `n` integers off the front. */
  function ReadN(c: Codec, n: nat, s: seq<byte>): (p: Parsed<seq<u64>, VarIntError>)
    ensures p.result.Ok? ==> |p.result.value| == n
  {
    if n == 0 then Parsed(Ok([]), s)
    else
      var first := Decoding(c, s);
      match first.result
      case Err(e) => Parsed(Err(e), first.rest)
      case Ok(v) =>
        var more := ReadN(c, n - 1, first.rest);
        match more.result
        case Err(e) => Parsed(Err(e), more.rest)
        case Ok(vs) => Parsed(Ok([v] + vs), more.rest)
  }

  /** Why a value is not a run of at most so many integers. */
  datatype RunFault = TooMany | RunsPast

  /** Integers until the bytes run out, and no more than `room` of them. */
  function ReadAll(c: Codec, room: nat, s: seq<byte>): (r: Result<seq<u64>, RunFault>)
    ensures r.Ok? ==> |r.value| <= room
  {
    if s == [] then Ok([])
    else if room == 0 then Err(TooMany)
    else
      var first := Decoding(c, s);
      match first.result
      case Err(_) => Err(RunsPast)
      case Ok(v) =>
        var more := ReadAll(c, room - 1, first.rest);
        match more
        case Err(e) => Err(e)
        case Ok(vs) => Ok([v] + vs)
  }

  // ------------------------------------------------------------------------------ laws

  /** What each field reads back as. */
  function KeptAll(c: Codec, fs: seq<u64>): (r: seq<u64>)
    ensures r == fs <==> Fit(c, fs)
  {
    if fs == [] then []
    else
      var r := [Kept(c, fs[0])] + KeptAll(c, fs[1..]);
      assert fs == [fs[0]] + fs[1..];
      assert Fit(c, fs) <==> fs[0] <= MaxValue(c) && Fit(c, fs[1..]) by { FitSplit(c, fs); }
      assert r == fs <==> Kept(c, fs[0]) == fs[0] && KeptAll(c, fs[1..]) == fs[1..];
      r
  }

  lemma {:induction false} KeptJoin(c: Codec, fs: seq<u64>, v: u64)
    requires Fit(c, fs)
    ensures KeptAll(c, fs + [v]) == fs + [Kept(c, v)]
  {
    if fs != [] {
      FitSplit(c, fs);
      assert (fs + [v])[1..] == fs[1..] + [v];
      KeptJoin(c, fs[1..], v);
    }
  }

  lemma FitSplit(c: Codec, fs: seq<u64>)
    requires fs != []
    ensures Fit(c, fs) <==> fs[0] <= MaxValue(c) && Fit(c, fs[1..])
  {
    if fs[0] <= MaxValue(c) && Fit(c, fs[1..]) {
      assert forall i :: 0 < i < |fs| ==> fs[i] == fs[1..][i - 1];
    }
  }

  /** Only the QUIC encoding has values it cannot carry. */
  lemma AllFit(c: Codec, fs: seq<u64>)
    requires !c.Quic?
    ensures Fit(c, fs)
  {
  }

  lemma {:induction false} FieldsRead(c: Codec, fs: seq<u64>, tail: seq<byte>)
    ensures ReadN(c, |fs|, Fields(c, fs) + tail) == Parsed(Ok(KeptAll(c, fs)), tail)
  {
    hide Decoding, Encoding, EncodedLen, Kept;
    if fs == [] {
      assert Fields(c, fs) + tail == tail;
    } else {
      var more := Fields(c, fs[1..]) + tail;
      assert Fields(c, fs) + tail == Encoding(c, fs[0]) + more;
      EncodingReads(c, fs[0], more);
      FieldsRead(c, fs[1..], tail);
    }
  }

  /** A run of fields survives the wire exactly when each of them fits. */
  lemma FieldsRoundTrip(c: Codec, fs: seq<u64>, tail: seq<byte>)
    ensures ReadN(c, |fs|, Fields(c, fs) + tail) == Parsed(Ok(fs), tail) <==> Fit(c, fs)
  {
    FieldsRead(c, fs, tail);
  }

  lemma {:induction false} FieldsJoin(c: Codec, a: seq<u64>, b: seq<u64>)
    ensures Fields(c, a + b) == Fields(c, a) + Fields(c, b)
  {
    hide Encoding;
    if a == [] {
      assert a + b == b;
    } else {
      assert (a + b)[1..] == a[1..] + b;
      FieldsJoin(c, a[1..], b);
    }
  }

  /** A short run, written out. */
  lemma FieldsWritten(c: Codec, fs: seq<u64>)
    ensures |fs| == 2 ==> Fields(c, fs) == Encoding(c, fs[0]) + Encoding(c, fs[1])
    ensures |fs| == 3 ==> Fields(c, fs) == Encoding(c, fs[0]) + Encoding(c, fs[1]) + Encoding(c, fs[2])
    ensures |fs| == 4 ==>
              Fields(c, fs) == Encoding(c, fs[0]) + Encoding(c, fs[1]) + Encoding(c, fs[2]) + Encoding(c, fs[3])
    ensures |fs| == 5 ==>
              Fields(c, fs) ==
              Encoding(c, fs[0]) + Encoding(c, fs[1]) + Encoding(c, fs[2]) + Encoding(c, fs[3]) + Encoding(c, fs[4])
  {
    hide Encoding, EncodedLen, Fields;
    OneMoreField(c, fs, 0);
    assert fs[..|fs|] == fs;
    if |fs| <= 5 {
      for i := 0 to |fs|
        invariant i >= 1 ==> Fields(c, fs[..1]) == Encoding(c, fs[0])
        invariant i >= 2 ==> Fields(c, fs[..2]) == Encoding(c, fs[0]) + Encoding(c, fs[1])
        invariant i >= 3 ==> Fields(c, fs[..3]) == Encoding(c, fs[0]) + Encoding(c, fs[1]) + Encoding(c, fs[2])
        invariant i >= 4 ==>
                    Fields(c, fs[..4]) ==
                    Encoding(c, fs[0]) + Encoding(c, fs[1]) + Encoding(c, fs[2]) + Encoding(c, fs[3])
        invariant i >= 5 ==>
                    Fields(c, fs[..5]) ==
                    Encoding(c, fs[0]) + Encoding(c, fs[1]) + Encoding(c, fs[2])
                    + Encoding(c, fs[3]) + Encoding(c, fs[4])
      {
        OneMoreField(c, fs, i);
      }
    }
  }

  /** Reading to the end recovers the run exactly when there is room for it. */
  lemma {:induction false} AllRead(c: Codec, room: nat, fs: seq<u64>)
    requires Fit(c, fs)
    ensures ReadAll(c, room, Fields(c, fs)) == if |fs| <= room then Ok(fs) else Err(TooMany)
  {
    hide Decoding, Encoding, EncodedLen, Kept;
    if fs != [] && room > 0 {
      FitSplit(c, fs);
      EncodingReads(c, fs[0], Fields(c, fs[1..]));
      FitKept(c, fs[0]);
      AllRead(c, room - 1, fs[1..]);
      assert fs == [fs[0]] + fs[1..];
    }
    if fs != [] {
      NotEmpty(c, fs[0]);
    }
  }

  lemma FitKept(c: Codec, v: u64)
    requires v <= MaxValue(c)
    ensures Kept(c, v) == v
  {
  }

  lemma NotEmpty(c: Codec, v: u64)
    ensures |Encoding(c, v)| > 0
  {
  }

  /** A run read to its end re-encodes to no more bytes, and to as many only when they are the same bytes. */
  lemma {:induction false} AllShortest(c: Codec, room: nat, s: seq<byte>)
    requires ReadAll(c, room, s).Ok?
    ensures var e := Fields(c, ReadAll(c, room, s).value); |e| <= |s| && (|e| == |s| <==> e == s)
    ensures Fit(c, ReadAll(c, room, s).value)
  {
    hide Decoding, Encoding, EncodedLen, LenOf, Kept;
    if s != [] {
      var first := Decoding(c, s);
      var vs := ReadAll(c, room - 1, first.rest).value;
      AllShortest(c, room - 1, first.rest);
      ShortestFirst(c, s);
      FitSplit(c, [first.result.value] + vs);
      assert ([first.result.value] + vs)[1..] == vs;
      var n := |s| - |first.rest|;
      assert s == s[..n] + first.rest;
    }
  }

  lemma ShortestFirst(c: Codec, s: seq<byte>)
    requires Decoding(c, s).result.Ok?
    ensures var d := Decoding(c, s); var n := |s| - |d.rest|; var e := Encoding(c, d.result.value);
            && 0 < n <= |s| && d.rest == s[n..] && d.result.value <= MaxValue(c)
            && |e| <= n && (|e| == n <==> e == s[..n])
  {
    DecodedRange(c, s);
    ShortestEncoding(c, s);
  }

  // ------------------------------------------------------------------ one integer at a time

  /** The bytes open with these integers, in any spelling the codec reads, and end with these bytes. */
  predicate Spells(c: Codec, s: seq<byte>, fs: seq<u64>, rest: seq<byte>)
    decreases |fs|
  {
    if fs == [] then s == rest
    else Decoding(c, s).result == Ok(fs[0]) && Spells(c, Decoding(c, s).rest, fs[1..], rest)
  }

  lemma SpellsOne(c: Codec, s: seq<byte>, v: u64, rest: seq<byte>)
    ensures Spells(c, s, [v], rest) <==> Decoding(c, s) == Parsed(Ok(v), rest)
  {
    hide Decoding;
    assert [v][1..] == [];
  }

  lemma SpellsMore(c: Codec, s: seq<byte>, v: u64, fs: seq<u64>, rest: seq<byte>)
    ensures Spells(c, s, [v] + fs, rest) <==>
            Decoding(c, s).result == Ok(v) && Spells(c, Decoding(c, s).rest, fs, rest)
  {
    hide Decoding;
    assert ([v] + fs)[1..] == fs;
  }

  /** What reading so many integers answers is what the bytes spell. */
  lemma {:induction false} SpellsIsRead(c: Codec, s: seq<byte>, fs: seq<u64>, rest: seq<byte>)
    ensures ReadN(c, |fs|, s) == Parsed(Ok(fs), rest) <==> Spells(c, s, fs, rest)
    decreases |fs|
  {
    hide Decoding;
    if fs != [] {
      var first := Decoding(c, s);
      SpellsIsRead(c, first.rest, fs[1..], rest);
      var more := ReadN(c, |fs| - 1, first.rest);
      if first.result.Ok? && more.result.Ok? {
        var all := [first.result.value] + more.result.value;
        assert all == fs <==> first.result.value == fs[0] && more.result.value == fs[1..] by {
          assert all[0] == first.result.value && all[1..] == more.result.value;
          assert fs == [fs[0]] + fs[1..];
        }
      }
    }
  }

  // ---------------------------------------------------------------------------- streaming

  /** A run read, or refused for good, is so whatever follows. */
  lemma {:induction false} FieldsStable(c: Codec, n: nat, s: seq<byte>, t: seq<byte>)
    requires ReadN(c, n, s).result != Err(UnexpectedEnd)
    ensures ReadN(c, n, s + t) == Parsed(ReadN(c, n, s).result, ReadN(c, n, s).rest + t)
    decreases n
  {
    hide Decoding;
    if n > 0 {
      DecodingStable(c, s, t);
      if Decoding(c, s).result.Ok? {
        FieldsStable(c, n - 1, Decoding(c, s).rest, t);
      }
    }
  }

  /** Bytes that complete a run from wherever it stopped: finish the broken integer, then zeros. */
  function FieldsCompletion(c: Codec, n: nat, s: seq<byte>): seq<byte> {
    if n == 0 then []
    else if Decoding(c, s).result.Ok? then FieldsCompletion(c, n - 1, Decoding(c, s).rest)
    else Padding(c, s) + Zeros(n - 1)
  }

  lemma {:induction false} ZerosRead(c: Codec, n: nat)
    ensures ReadN(c, n, Zeros(n)).result.Ok?
  {
    hide Decoding;
    if n > 0 {
      ZeroRead(c, Zeros(n - 1));
      assert Zeros(n) == [0] + Zeros(n - 1);
      ZerosRead(c, n - 1);
    }
  }

  lemma ZeroRead(c: Codec, t: seq<byte>)
    ensures Decoding(c, [0] + t).result.Ok? && Decoding(c, [0] + t).rest == t
  {
    assert ([0] + t)[..1] == [0] && ([0] + t)[1..] == t;
  }

  lemma {:induction false} FieldsComplete(c: Codec, n: nat, s: seq<byte>)
    requires ReadN(c, n, s).result == Err(UnexpectedEnd)
    ensures ReadN(c, n, s + FieldsCompletion(c, n, s)).result.Ok?
    decreases n
  {
    hide Decoding, Padding;
    var t := FieldsCompletion(c, n, s);
    if Decoding(c, s).result.Ok? {
      DecodingStable(c, s, t);
      FieldsComplete(c, n - 1, Decoding(c, s).rest);
    } else {
      var pad, zs := Padding(c, s), Zeros(n - 1);
      PaddingCompletes(c, s);
      DecodingStable(c, s + pad, zs);
      assert s + (pad + zs) == s + pad + zs && [] + zs == zs;
      ZerosRead(c, n - 1);
    }
  }

  /** A run that stopped short can be completed exactly when it ran out of bytes. */
  lemma FieldsStreaming(c: Codec, n: nat, s: seq<byte>)
    requires ReadN(c, n, s).result.Err?
    ensures ReadN(c, n, s).result.error == UnexpectedEnd <==> exists t :: ReadN(c, n, s + t).result.Ok?
  {
    hide ReadN;
    if ReadN(c, n, s).result.error == UnexpectedEnd {
      FieldsComplete(c, n, s);
    } else {
      forall t
        ensures ReadN(c, n, s + t).result.Err?
      {
        FieldsStable(c, n, s, t);
      }
    }
  }

  // --------------------------------------------------------------------------- methods

  method WriteInt(c: Codec, v: u64, buf: BufMut)
    modifies buf
    ensures buf.data == old(buf.data) + Encoding(c, v)
  {
    if c.Quic? {
      EncodeQuic(v, buf);
    } else {
      EncodeMoqt(v, buf, SevenByte(c));
    }
  }

  method WriteFields(c: Codec, fs: seq<u64>, buf: BufMut)
    modifies buf
    ensures buf.data == old(buf.data) + Fields(c, fs)
  {
    hide Encoding, EncodedLen, Fields;
    ghost var start := buf.data;
    OneMoreField(c, fs, 0);
    for i := 0 to |fs|
      invariant buf.data == start + Fields(c, fs[..i])
    {
      WriteInt(c, fs[i], buf);
      OneMoreField(c, fs, i);
    }
    assert fs[..|fs|] == fs;
  }

  lemma OneMoreField(c: Codec, fs: seq<u64>, i: nat)
    requires i <= |fs|
    ensures Fields(c, fs[..0]) == []
    ensures i < |fs| ==> Fields(c, fs[..i + 1]) == Fields(c, fs[..i]) + Encoding(c, fs[i])
  {
    hide Encoding, EncodedLen;
    if i < |fs| {
      FieldsJoin(c, fs[..i], [fs[i]]);
      assert fs[..i + 1] == fs[..i] + [fs[i]];
      assert Fields(c, [fs[i]]) == Encoding(c, fs[i]) + Fields(c, []);
    }
  }
}
