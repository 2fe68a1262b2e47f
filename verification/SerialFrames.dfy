/** The serial frame parser: what it counts does not depend on how the bytes arrive. */
module SerialFrames {
  import opened Basics

  const START1: Byte := 0x94
  const START2: Byte := 0xC3
  const HEADER_LEN: nat := 4

  predicate AtMarker(s: seq<Byte>, i: nat) {
    i + 1 < |s| && s[i] == START1 && s[i + 1] == START2
  }

  function PayloadLen(s: seq<Byte>): nat
    requires |s| >= HEADER_LEN
  {
    0x100 * (s[2] as int) + s[3] as int
  }

  /** The payloads in a whole stream, read in one pass: skip to a marker, take the frame, go on. */
  function Payloads(s: seq<Byte>): seq<seq<Byte>> {
    if |s| < HEADER_LEN then []
    else if !AtMarker(s, 0) then Payloads(s[1..])
    else
      var total := HEADER_LEN + PayloadLen(s);
      if |s| < total then [] else [s[HEADER_LEN..total]] + Payloads(s[total..])
  }

  function TotalBytes(payloads: seq<seq<Byte>>): nat {
    if |payloads| == 0 then 0 else |payloads[0]| + TotalBytes(payloads[1..])
  }

  function Join(chunks: seq<seq<Byte>>): seq<Byte> {
    if |chunks| == 0 then [] else chunks[0] + Join(chunks[1..])
  }

  lemma {:induction false} TotalAppend(a: seq<seq<Byte>>, p: seq<Byte>)
    ensures TotalBytes(a + [p]) == TotalBytes(a) + |p|
  {
    if |a| > 0 {
      TotalAppend(a[1..], p);
      assert (a + [p])[1..] == a[1..] + [p];
    } else {
      assert (a + [p])[1..] == [];
    }
  }

  // ---------------------------------------------------------------- parsing what has arrived

  /** Bytes at which no marker begins can be dropped, whatever comes next. */
  lemma {:induction false} SkipBytes(buf: seq<Byte>, n: nat, future: seq<Byte>)
    requires (n == 0 || n < |buf|) && forall i :: 0 <= i < n ==> !AtMarker(buf, i)
    ensures Payloads(buf + future) == Payloads(buf[n..] + future)
  {
    if n == 0 {
      assert buf[0..] == buf;
    } else {
      var s := buf + future;
      assert !AtMarker(buf, 0) && s[1..] == buf[1..] + future;
      if |s| < HEADER_LEN { ShortIsEmpty(s[1..]); }
      forall i | 0 <= i < n - 1 ensures !AtMarker(buf[1..], i) {
        assert !AtMarker(buf, i + 1);
      }
      SkipBytes(buf[1..], n - 1, future);
      assert buf[1..][n - 1..] == buf[n..];
    }
  }

  lemma {:induction false} ShortIsEmpty(s: seq<Byte>)
    requires |s| < HEADER_LEN
    ensures Payloads(s) == []
  {
  }

  lemma {:induction false} TakeFrame(buf: seq<Byte>, future: seq<Byte>)
    requires |buf| >= HEADER_LEN && AtMarker(buf, 0) && |buf| >= HEADER_LEN + PayloadLen(buf)
    ensures var total := HEADER_LEN + PayloadLen(buf);
      Payloads(buf + future) == [buf[HEADER_LEN..total]] + Payloads(buf[total..] + future)
  {
    var total := HEADER_LEN + PayloadLen(buf);
    assert (buf + future)[total..] == buf[total..] + future;
    assert (buf + future)[HEADER_LEN..total] == buf[HEADER_LEN..total];
  }

  /** The index of the first marker, or the length. */
  method FindMarker(buf: seq<Byte>) returns (idx: nat)
    requires |buf| >= 1
    ensures idx == |buf| || AtMarker(buf, idx)
    ensures forall i :: 0 <= i < idx && i + 1 < |buf| ==> !AtMarker(buf, i)
  {
    for i := 0 to |buf| - 1
      invariant forall j :: 0 <= j < i ==> !AtMarker(buf, j)
    {
      if buf[i] == START1 && buf[i + 1] == START2 { return i; }
    }
    idx := |buf|;
  }

  /** Drop what precedes the first marker and take the frame there, if it is complete. */
  method NextFrame(buf: seq<Byte>, ghost future: seq<Byte>) returns (found: bool, payload: seq<Byte>, rest: seq<Byte>)
    requires |buf| >= HEADER_LEN
    ensures found ==> |rest| < |buf| && Payloads(buf + future) == [payload] + Payloads(rest + future)
    ensures !found ==> Payloads(buf + future) == Payloads(rest + future) && Payloads(rest) == []
  {
    found, payload := false, [];
    var idx := FindMarker(buf);
    if idx == |buf| {
      SkipBytes(buf, |buf| - 1, future);
      rest := buf[|buf| - 1..];   // the last byte may be the first of a marker
      return;
    }
    SkipBytes(buf, idx, future);
    rest := buf[idx..];
    if |rest| < HEADER_LEN { return; }
    var totalLen := HEADER_LEN + PayloadLen(rest);
    if |rest| < totalLen { return; }
    TakeFrame(rest, future);
    found, payload, rest := true, rest[HEADER_LEN..totalLen], rest[totalLen..];
  }

  /** Take every complete frame out of the buffer. Whatever arrives later, what has been taken and
      what is left in the buffer together stand for everything received. */
  method ParseFrames(buf: seq<Byte>, ghost future: seq<Byte>)
    returns (rest: seq<Byte>, frames: nat, totalPayload: nat, ghost taken: seq<seq<Byte>>)
    ensures frames == |taken| && totalPayload == TotalBytes(taken)
    ensures Payloads(buf + future) == taken + Payloads(rest + future)
    ensures Payloads(rest) == []
  {
    rest, frames, totalPayload, taken := buf, 0, 0, [];
    while |rest| >= HEADER_LEN
      invariant frames == |taken| && totalPayload == TotalBytes(taken)
      invariant Payloads(buf + future) == taken + Payloads(rest + future)
      decreases |rest|
    {
      var found, payload, left := NextFrame(rest, future);
      rest := left;
      if !found { break; }
      TotalAppend(taken, payload);
      ghost var later := Payloads(rest + future);
      assert taken + ([payload] + later) == (taken + [payload]) + later;
      taken := taken + [payload];
      frames, totalPayload := frames + 1, totalPayload + |payload|;
    }
  }

  lemma {:induction false} JoinSplit(chunks: seq<seq<Byte>>, i: nat)
    requires i < |chunks|
    ensures Join(chunks[i..]) == chunks[i] + Join(chunks[i + 1..])
  {
    assert chunks[i..][1..] == chunks[i + 1..];
  }

  /** However the stream is cut into chunks, the parser counts the frames and the payload bytes of
      the whole stream. */
  method ReadFrames(chunks: seq<seq<Byte>>) returns (frames: nat, totalPayload: nat)
    ensures frames == |Payloads(Join(chunks))| && totalPayload == TotalBytes(Payloads(Join(chunks)))
  {
    var buf: seq<Byte> := [];
    ghost var taken: seq<seq<Byte>> := [];
    frames, totalPayload := 0, 0;
    hide Payloads;
    ShortIsEmpty([]);
    assert chunks[0..] == chunks && buf + Join(chunks) == Join(chunks);
    for k := 0 to |chunks|
      invariant frames == |taken| && totalPayload == TotalBytes(taken) && Payloads(buf) == []
      invariant Payloads(Join(chunks)) == taken + Payloads(buf + Join(chunks[k..]))
    {
      JoinSplit(chunks, k);
      assert buf + (chunks[k] + Join(chunks[k + 1..])) == (buf + chunks[k]) + Join(chunks[k + 1..]);
      ghost var more;
      var n, bytes;
      buf, n, bytes, more := ParseFrames(buf + chunks[k], Join(chunks[k + 1..]));
      TotalJoin(taken, more);
      ghost var left := Payloads(buf + Join(chunks[k + 1..]));
      assert taken + (more + left) == (taken + more) + left;
      taken := taken + more;
      frames, totalPayload := frames + n, totalPayload + bytes;
    }
    assert buf + Join(chunks[|chunks|..]) == buf && taken + [] == taken;
  }

  lemma {:induction false} TotalJoin(a: seq<seq<Byte>>, b: seq<seq<Byte>>)
    ensures TotalBytes(a + b) == TotalBytes(a) + TotalBytes(b)
  {
    if |a| == 0 {
      assert a + b == b;
    } else {
      TotalJoin(a[1..], b);
      assert (a + b)[1..] == a[1..] + b;
    }
  }

  // ---------------------------------------------------------------- well-formed streams

  predicate FitsFrame(payload: seq<Byte>) {
    |payload| < 0x1_0000
  }

  function Frame(payload: seq<Byte>): (f: seq<Byte>)
    requires FitsFrame(payload)
    ensures |f| == HEADER_LEN + |payload| && AtMarker(f, 0) && PayloadLen(f) == |payload| && f[HEADER_LEN..] == payload
  {
    [START1, START2, |payload| / 0x100, |payload| % 0x100] + payload
  }

  /** Noise in front of each frame, and the frame. */
  function Stream(noise: seq<seq<Byte>>, payloads: seq<seq<Byte>>): seq<Byte>
    requires |noise| == |payloads| && forall p :: p in payloads ==> FitsFrame(p)
  {
    if |payloads| == 0 then [] else noise[0] + (Frame(payloads[0]) + Stream(noise[1..], payloads[1..]))
  }

  predicate NoMarker(noise: seq<Byte>) {
    forall i :: 0 <= i < |noise| ==> !AtMarker(noise, i)
  }

  /** A stream of well-formed frames, with any noise between them that contains no marker, decodes to
      exactly its payloads, whatever the payloads contain: also where noise ends with the first byte of a
      marker, since a frame does not begin with the second. */
  lemma {:induction false} StreamDecodes(noise: seq<seq<Byte>>, payloads: seq<seq<Byte>>)
    requires |noise| == |payloads| && (forall p :: p in payloads ==> FitsFrame(p)) && forall n :: n in noise ==> NoMarker(n)
    ensures Payloads(Stream(noise, payloads)) == payloads
  {
    if |payloads| > 0 {
      var rest := Stream(noise[1..], payloads[1..]);
      SkipNoise(noise[0], Frame(payloads[0]) + rest);
      TakeFrame(Frame(payloads[0]), rest);
      StreamDecodes(noise[1..], payloads[1..]);
      var f := Frame(payloads[0]);
      assert f[HEADER_LEN..|f|] == f[HEADER_LEN..] && f[|f|..] + rest == rest;
      assert payloads == [payloads[0]] + payloads[1..];
    }
  }

  lemma {:induction false} SkipNoise(noise: seq<Byte>, s: seq<Byte>)
    requires NoMarker(noise) && |s| >= HEADER_LEN && AtMarker(s, 0)
    ensures Payloads(noise + s) == Payloads(s)
  {
    if |noise| == 0 {
      assert noise + s == s;
    } else {
      var all, rest := noise + s, noise[1..];
      assert all[1..] == rest + s;
      assert !AtMarker(noise, 0) && !AtMarker(all, 0);
      forall i | 0 <= i < |rest| ensures !AtMarker(rest, i) {
        assert !AtMarker(noise, i + 1);
      }
      SkipNoise(rest, s);
    }
  }
}
