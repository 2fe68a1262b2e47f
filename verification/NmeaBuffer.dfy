/** The NMEA accumulation buffer: a fixed buffer shifted in place, read with C string functions, and
    the sentences popped from it. */
module NmeaBuffer {
  import opened Basics

  const NBUF: nat := 512
  const DOLLAR: Byte := 0x24
  const CR: Byte := 0x0D
  const LF: Byte := 0x0A
  const FILLER: Byte := 0xFF   // sent by the receiver when idle

  // ---------------------------------------------------------------- specification on values

  /** What strchr finds from `i`: the first `c` before any NUL, or the length. */
  function IndexFrom(s: seq<Byte>, c: Byte, i: nat): (k: nat)
    requires c != 0 && i <= |s|
    ensures i <= k <= |s| && (k < |s| ==> s[k] == c)
    decreases |s| - i
  {
    if i == |s| then i
    else if s[i] == c then i
    else if s[i] == 0 then |s|
    else IndexFrom(s, c, i + 1)
  }

  /** A full buffer is cut down to its next sentence start, or emptied. */
  function MadeRoom(c: seq<Byte>): (r: seq<Byte>)
    requires |c| > 0
    ensures |r| < |c|
  {
    c[IndexFrom(c, DOLLAR, 1)..]
  }

  function Appended(c: seq<Byte>, b: Byte): seq<Byte> {
    if b == FILLER then c
    else (if |c| >= NBUF - 1 then MadeRoom(c) else c) + [b]
  }

  function AppendedAll(c: seq<Byte>, raw: seq<Byte>): seq<Byte> {
    if |raw| == 0 then c else Appended(AppendedAll(c, raw[..|raw| - 1]), raw[|raw| - 1])
  }

  /** What stands between '$' and the line feed, up to a carriage return. */
  function Sentence(c: seq<Byte>, start: nat, end: nat): seq<Byte>
    requires start < end < |c|
  {
    c[start + 1..Min(IndexFrom(c, CR, start + 1), end)]
  }

  function Clip(s: seq<Byte>, maxLen: nat): seq<Byte>
    requires maxLen > 0
  {
    s[..Min(|s|, maxLen - 1)]
  }

  datatype Popped = Popped(found: bool, sentence: seq<Byte>, rest: seq<Byte>)

  /** The three outcomes, from where the searches end. */
  function PopWith(c: seq<Byte>, start: nat, end: nat): Popped
    requires start <= |c| && start <= end <= |c| && (end < |c| ==> start < end)
  {
    if start == |c| then Popped(false, [], [])
    else if end == |c| then Popped(false, [], c[start..])
    else Popped(true, Sentence(c, start, end), c[end + 1..])
  }

  function Pop(c: seq<Byte>): (p: Popped)
    ensures |p.rest| <= |c| && (p.found ==> |p.rest| < |c|)
  {
    var start := IndexFrom(c, DOLLAR, 0);
    PopWith(c, start, IndexFrom(c, LF, start))
  }

  // ---------------------------------------------------------------- what a stream says

  /** Every sentence in `c`, popped one after the other. */
  function Sentences(c: seq<Byte>): seq<seq<Byte>> {
    var p := Pop(c);
    if p.found then [p.sentence] + Sentences(p.rest) else []
  }

  /** What popping until nothing is found leaves. */
  function Rest(c: seq<Byte>): (r: seq<Byte>)
    ensures |r| <= |c|
  {
    var p := Pop(c);
    if p.found then Rest(p.rest) else p.rest
  }

  /** `out` is the sentences, each clipped to the output buffer. */
  predicate Clipped(out: seq<seq<Byte>>, ss: seq<seq<Byte>>, maxLen: nat)
    requires maxLen > 0
  {
    |out| == |ss| && forall i :: 0 <= i < |ss| ==> out[i] == Clip(ss[i], maxLen)
  }

  lemma {:induction false} ClippedJoin(a: seq<seq<Byte>>, p: seq<seq<Byte>>, b: seq<seq<Byte>>, q: seq<seq<Byte>>, maxLen: nat)
    requires maxLen > 0 && Clipped(a, p, maxLen) && Clipped(b, q, maxLen)
    ensures Clipped(a + b, p + q, maxLen)
  {
  }

  /** Append a chunk, pop until nothing is found, and so on. */
  function Run(c: seq<Byte>, chunks: seq<seq<Byte>>): seq<seq<Byte>>
    decreases |chunks|
  {
    if |chunks| == 0 then []
    else
      var full := AppendedAll(c, chunks[0]);
      Sentences(full) + Run(Rest(full), chunks[1..])
  }

  lemma {:induction false} RunFrom(c: seq<Byte>, chunks: seq<seq<Byte>>, i: nat, before: seq<seq<Byte>>)
    requires i < |chunks|
    ensures var full := AppendedAll(c, chunks[i]);
      before + Run(c, chunks[i..]) == (before + Sentences(full)) + Run(Rest(full), chunks[i + 1..])
  {
    hide Pop, AppendedAll;
    var full := AppendedAll(c, chunks[i]);
    assert chunks[i..][1..] == chunks[i + 1..];
    assert Run(c, chunks[i..]) == Sentences(full) + Run(Rest(full), chunks[i + 1..]);
  }

  // ---------------------------------------------------------------- the buffer

  class GnssBuffer {
    const nbuf: array<Byte>
    var nlen: nat

    ghost predicate Valid()
      reads this, nbuf
    {
      nbuf.Length == NBUF && nlen < NBUF && nbuf[nlen] == 0
    }

    ghost function Content(): seq<Byte>
      requires Valid()
      reads this, nbuf
    {
      nbuf[..nlen]
    }

    constructor ()
      ensures Valid() && fresh(nbuf) && Content() == []
    {
      nbuf := new Byte[NBUF](_ => 0);
      nlen := 0;
    }

    /** strchr from `from`; the length when there is none. */
    method StrChr(from: nat, c: Byte) returns (i: nat)
      requires Valid() && from <= nlen && c != 0
      ensures i == IndexFrom(Content(), c, from)
    {
      i := from;
      while nbuf[i] != 0 && nbuf[i] != c
        invariant from <= i <= nlen && IndexFrom(Content(), c, from) == IndexFrom(Content(), c, i)
        decreases nlen - i
      {
        i := i + 1;
      }
      if nbuf[i] == 0 { i := nlen; }
    }

    /** Move the content from `from` on to the front, terminator included. */
    method Shift(from: nat)
      requires Valid() && from <= nlen
      modifies this`nlen, nbuf
      ensures Valid() && Content() == old(Content())[from..]
    {
      ghost var was := nbuf[..];
      var n := nlen - from;
      for j := 0 to n + 1
        invariant forall k {:trigger nbuf[k]} :: 0 <= k < NBUF ==> nbuf[k] == if k < j then was[from + k] else was[k]
      {
        nbuf[j] := nbuf[from + j];
      }
      nlen := n;
      assert nbuf[..n] == was[from..from + n] == was[..from + n][from..];
    }

    method Clear()
      requires Valid()
      modifies this`nlen, nbuf
      ensures Valid() && Content() == []
    {
      nlen := 0;
      nbuf[0] := 0;
    }

    /** Discard content up to the next '$', or all of it. */
    method MakeRoom()
      requires Valid() && nlen > 0
      modifies this`nlen, nbuf
      ensures Valid() && Content() == MadeRoom(old(Content()))
    {
      var next := StrChr(1, DOLLAR);
      if next < nlen { Shift(next); } else { Clear(); }
    }

    method AppendByte(b: Byte)
      requires Valid()
      modifies this`nlen, nbuf
      ensures Valid() && Content() == Appended(old(Content()), b)
    {
      hide IndexFrom, MadeRoom;
      if b == FILLER { return; }
      if nlen >= NBUF - 1 { MakeRoom(); }
      nbuf[nlen] := b;
      nlen := nlen + 1;
      nbuf[nlen] := 0;
    }

    method Append(raw: seq<Byte>)
      requires Valid()
      modifies this`nlen, nbuf
      ensures Valid() && Content() == AppendedAll(old(Content()), raw)
    {
      for i := 0 to |raw|
        invariant Valid() && Content() == AppendedAll(old(Content()), raw[..i])
      {
        assert raw[..i + 1][..i] == raw[..i];
        AppendByte(raw[i]);
      }
      assert raw[..|raw|] == raw;
    }

    /** Copy the C string that ends at `upto`, clipped to the output buffer. */
    method CopyOut(from: nat, upto: nat, maxLen: nat) returns (out: seq<Byte>)
      requires from <= upto < nbuf.Length && maxLen > 0
      requires nbuf[upto] == 0 && forall k :: from <= k < upto ==> nbuf[k] != 0
      ensures out == Clip(nbuf[from..upto], maxLen)
    {
      out := [];
      var i := from;
      while nbuf[i] != 0 && |out| < maxLen - 1
        invariant from <= i <= upto && |out| <= maxLen - 1 && out == nbuf[from..i]
        decreases upto - i
      {
        out := out + [nbuf[i]];
        i := i + 1;
      }
    }

    /** Terminate the sentence at its line feed, then at a carriage return, and copy it out. `c` is the
        content before. */
    method TakeSentence(start: nat, end: nat, maxLen: nat, ghost c: seq<Byte>) returns (out: seq<Byte>)
      requires nbuf.Length == NBUF && start < end < |c| < NBUF && maxLen > 0
      requires forall k :: 0 <= k < |c| ==> nbuf[k] == c[k]
      requires forall k :: start < k < end ==> c[k] != 0
      modifies nbuf
      ensures out == Clip(Sentence(c, start, end), maxLen)
      ensures forall k :: end < k < NBUF ==> nbuf[k] == old(nbuf[k])
    {
      nbuf[end] := 0;
      var cr := start + 1;
      while nbuf[cr] != 0 && nbuf[cr] != CR
        invariant start < cr <= end && IndexFrom(c, CR, start + 1) == IndexFrom(c, CR, cr)
        invariant forall k :: start < k < end ==> nbuf[k] == c[k]
        decreases end - cr
      {
        cr := cr + 1;
      }
      if nbuf[cr] == CR { nbuf[cr] := 0; }
      assert Sentence(c, start, end) == c[start + 1..cr];
      assert forall k :: start < k < cr ==> nbuf[k] == c[k];
      out := CopyOut(start + 1, cr, maxLen);
      assert nbuf[start + 1..cr] == c[start + 1..cr];
    }

    /** Take the next complete sentence, if there is one; drop what precedes its start. */
    method PopSentence(maxLen: nat) returns (found: bool, out: seq<Byte>)
      requires Valid() && maxLen > 0
      modifies this`nlen, nbuf
      ensures var p := Pop(old(Content()));
        && Valid() && Content() == p.rest && found == p.found
        && (found ==> out == Clip(p.sentence, maxLen))
    {
      ghost var c := Content();
      found, out := false, [];
      var start := StrChr(0, DOLLAR);
      if start == nlen {
        Clear();
        return;
      }
      var end := StrChr(start, LF);
      if end == nlen {
        if start != 0 { Shift(start); }
        return;
      }
      NoNulBefore(c, LF, start);
      out := TakeSentence(start, end, maxLen, c);
      found := true;
      assert Content()[end + 1..] == c[end + 1..];
      Shift(end + 1);
    }

    /** Pop until nothing is found. */
    method PopAll(maxLen: nat) returns (out: seq<seq<Byte>>)
      requires Valid() && maxLen > 0
      modifies this`nlen, nbuf
      ensures Valid() && Content() == Rest(old(Content())) && Clipped(out, Sentences(old(Content())), maxLen)
    {
      hide Pop;
      out := [];
      ghost var c, popped: seq<seq<Byte>> := Content(), [];
      ghost var all, rest := Sentences(c), Rest(c);
      var found, sentence := PopSentence(maxLen);
      while found
        invariant Valid() && Content() == Pop(c).rest && found == Pop(c).found
        invariant found ==> sentence == Clip(Pop(c).sentence, maxLen)
        invariant rest == Rest(c) && all == popped + Sentences(c)
        invariant Clipped(out, popped, maxLen)
        decreases |c|
      {
        assert popped + Sentences(c) == (popped + [Pop(c).sentence]) + Sentences(Pop(c).rest);
        out, popped := out + [sentence], popped + [Pop(c).sentence];
        c := Pop(c).rest;
        found, sentence := PopSentence(maxLen);
      }
      assert popped + Sentences(c) == popped;
    }

    /** One turn of the polling loop: append what was read, then pop every complete sentence. */
    method Feed(raw: seq<Byte>, maxLen: nat, ghost c: seq<Byte>) returns (out: seq<seq<Byte>>)
      requires Valid() && maxLen > 0 && c == Content()
      modifies this`nlen, nbuf
      ensures Valid() && Content() == Rest(AppendedAll(c, raw)) && Clipped(out, Sentences(AppendedAll(c, raw)), maxLen)
    {
      Append(raw);
      out := PopAll(maxLen);
    }

    method Receive(chunks: seq<seq<Byte>>, maxLen: nat) returns (out: seq<seq<Byte>>)
      requires Valid() && maxLen > 0
      modifies this`nlen, nbuf
      ensures Valid() && Clipped(out, Run(old(Content()), chunks), maxLen)
    {
      hide Pop, AppendedAll;
      ghost var c, popped: seq<seq<Byte>> := Content(), [];
      ghost var all := Run(c, chunks);
      out := [];
      assert chunks[0..] == chunks;
      for i := 0 to |chunks|
        invariant Valid() && c == Content() && all == popped + Run(c, chunks[i..])
        invariant Clipped(out, popped, maxLen)
      {
        RunFrom(c, chunks, i, popped);
        ghost var full := AppendedAll(c, chunks[i]);
        var sentences := Feed(chunks[i], maxLen, c);
        ClippedJoin(out, popped, sentences, Sentences(full), maxLen);
        out, popped, c := out + sentences, popped + Sentences(full), Rest(full);
      }
    }
  }

  // ---------------------------------------------------------------- searching a longer string

  lemma {:induction false} NoNulBefore(s: seq<Byte>, c: Byte, i: nat)
    requires c != 0 && i <= |s|
    ensures IndexFrom(s, c, i) < |s| ==> forall k :: i <= k < IndexFrom(s, c, i) ==> s[k] != c && s[k] != 0
    ensures 0 !in s && IndexFrom(s, c, i) == |s| ==> forall k :: i <= k < |s| ==> s[k] != c
    decreases |s| - i
  {
    if i < |s| && s[i] != c && s[i] != 0 { NoNulBefore(s, c, i + 1); }
  }

  lemma {:induction false} IndexAppend(a: seq<Byte>, b: seq<Byte>, c: Byte, i: nat)
    requires c != 0 && 0 !in a && i <= |a|
    ensures IndexFrom(a + b, c, i) == if IndexFrom(a, c, i) < |a| then IndexFrom(a, c, i) else IndexFrom(a + b, c, |a|)
    decreases |a| - i
  {
    if i < |a| && a[i] != c { IndexAppend(a, b, c, i + 1); }
  }

  lemma {:induction false} IndexShift(a: seq<Byte>, b: seq<Byte>, c: Byte, i: nat)
    requires c != 0 && i <= |b|
    ensures IndexFrom(a + b, c, |a| + i) == |a| + IndexFrom(b, c, i)
    decreases |b| - i
  {
    if i < |b| && b[i] != c && b[i] != 0 { IndexShift(a, b, c, i + 1); }
  }

  lemma {:induction false} ShiftSlice(x: seq<Byte>, s: seq<Byte>, i: nat, j: nat)
    requires i <= j <= |s|
    ensures (x + s)[|x| + i..|x| + j] == s[i..j] && (x + s)[|x| + i..] == s[i..] && (x + s)[|x| + j..] == s[j..]
  {
  }

  /** The sentence at a '$' is the same one behind any other bytes. */
  lemma {:induction false} SentenceShift(x: seq<Byte>, s: seq<Byte>, start: nat, end: nat)
    requires start < end < |s|
    ensures Sentence(x + s, |x| + start, |x| + end) == Sentence(s, start, end)
  {
    IndexShift(x, s, CR, start + 1);
    ShiftSlice(x, s, start + 1, Min(IndexFrom(s, CR, start + 1), end));
  }

  lemma {:induction false} PopWithShift(x: seq<Byte>, s: seq<Byte>, start: nat, end: nat)
    requires start <= |s| && start <= end <= |s| && (end < |s| ==> start < end)
    ensures PopWith(x + s, |x| + start, |x| + end) == PopWith(s, start, end)
  {
    ShiftSlice(x, s, start, end);
    if end < |s| {
      SentenceShift(x, s, start, end);
      ShiftSlice(x, s, start, end + 1);
    }
  }

  /** What stands before the first '$' plays no part. */
  lemma {:induction false} PopSkips(x: seq<Byte>, s: seq<Byte>)
    requires 0 !in x && DOLLAR !in x
    ensures Pop(x + s) == Pop(s)
  {
    hide PopWith;
    var start := IndexFrom(s, DOLLAR, 0);
    var end := IndexFrom(s, LF, start);
    NoDollarAhead(x, s);
    IndexShift(x, s, LF, start);
    PopWithShift(x, s, start, end);
    PopIs(s, start, end);
    PopIs(x + s, |x| + start, |x| + end);
  }

  lemma {:induction false} PopIs(c: seq<Byte>, start: nat, end: nat)
    requires start <= |c| && start == IndexFrom(c, DOLLAR, 0) && end == IndexFrom(c, LF, start)
    ensures Pop(c) == PopWith(c, start, end)
  {
  }

  lemma {:induction false} NoDollarAhead(x: seq<Byte>, s: seq<Byte>)
    requires 0 !in x && DOLLAR !in x
    ensures IndexFrom(x + s, DOLLAR, 0) == |x| + IndexFrom(s, DOLLAR, 0)
  {
    IndexAppend(x, s, DOLLAR, 0);
    IndexShift(x, s, DOLLAR, 0);
  }

  /** A sentence found stays the next sentence when more bytes follow. */
  lemma {:induction false} FoundIsFinal(c: seq<Byte>, t: seq<Byte>)
    requires 0 !in c && Pop(c).found
    ensures Pop(c + t) == Popped(true, Pop(c).sentence, Pop(c).rest + t)
  {
    var start := IndexFrom(c, DOLLAR, 0);
    var end := IndexFrom(c, LF, start);
    IndexAppend(c, t, DOLLAR, 0);
    IndexAppend(c, t, LF, start);
    IndexAppend(c, t, CR, start + 1);
    var cr := Min(IndexFrom(c, CR, start + 1), end);
    assert (c + t)[start + 1..cr] == c[start + 1..cr];
    assert (c + t)[end + 1..] == c[end + 1..] + t;
  }

  /** What is dropped when nothing is found could not have begun a sentence. */
  lemma {:induction false} DroppedIsNoise(c: seq<Byte>, t: seq<Byte>)
    requires 0 !in c && !Pop(c).found
    ensures Pop(c + t) == Pop(Pop(c).rest + t)
  {
    var start := IndexFrom(c, DOLLAR, 0);
    NoNulBefore(c, DOLLAR, 0);
    assert c + t == c[..start] + (c[start..] + t);
    assert start == |c| ==> c[start..] == [];
    PopSkips(c[..start], c[start..] + t);
  }

  /** Popping what has arrived and then reading on is reading everything at once. */
  lemma {:induction false} DrainThenMore(c: seq<Byte>, t: seq<Byte>)
    requires 0 !in c
    ensures Sentences(c + t) == Sentences(c) + Sentences(Rest(c) + t)
    decreases |c|
  {
    hide Pop, Unfinished, Suffix;
    var p := Pop(c);
    ReadOn(c, p);
    if p.found {
      FoundIsFinal(c, t);
      ReadOn(c + t, Popped(true, p.sentence, p.rest + t));
      PopLeaves(c);
      DrainThenMore(p.rest, t);
      var later := Sentences(Rest(p.rest) + t);
      assert [p.sentence] + (Sentences(p.rest) + later) == ([p.sentence] + Sentences(p.rest)) + later;
    } else {
      DroppedIsNoise(c, t);
      ReadOn(c + t, Pop(c + t));
      ReadOn(p.rest + t, Pop(c + t));
      assert [] + Sentences(p.rest + t) == Sentences(p.rest + t);
    }
  }

  lemma {:induction false} ReadOn(c: seq<Byte>, p: Popped)
    requires p == Pop(c)
    ensures Sentences(c) == if p.found then [p.sentence] + Sentences(p.rest) else []
    ensures Rest(c) == if p.found then Rest(p.rest) else p.rest
  {
    hide Pop;
  }

  // ---------------------------------------------------------------- what is left unread

  /** `c` is an end of `s`. */
  predicate Suffix(c: seq<Byte>, s: seq<Byte>) {
    |c| <= |s| && c == s[|s| - |c|..]
  }

  lemma {:induction false} SuffixTrans(a: seq<Byte>, b: seq<Byte>, c: seq<Byte>)
    requires Suffix(a, b) && Suffix(b, c)
    ensures Suffix(a, c)
  {
  }

  lemma {:induction false} SuffixAppend(a: seq<Byte>, b: seq<Byte>, u: seq<Byte>)
    requires Suffix(a, b)
    ensures Suffix(a + u, b + u)
  {
  }

  /** An unfinished sentence, or nothing. */
  ghost predicate Unfinished(r: seq<Byte>, c: seq<Byte>) {
    Suffix(r, c) && LF !in r && !Pop(r).found
  }

  lemma {:induction false} PopLeaves(c: seq<Byte>)
    requires 0 !in c
    ensures Suffix(Pop(c).rest, c)
    ensures !Pop(c).found ==> Unfinished(Pop(c).rest, c)
  {
    var start := IndexFrom(c, DOLLAR, 0);
    if start < |c| {
      NoNulBefore(c, LF, start);
      if !Pop(c).found {
        assert forall k :: 0 <= k < |c[start..]| ==> c[start..][k] == c[start + k];
        NoNulBefore(c[start..], LF, 0);
      }
    }
  }

  lemma {:induction false} RestIsUnfinished(c: seq<Byte>)
    requires 0 !in c
    ensures Unfinished(Rest(c), c)
    decreases |c|
  {
    PopLeaves(c);
    if Pop(c).found {
      RestIsUnfinished(Pop(c).rest);
      SuffixTrans(Rest(c), Pop(c).rest, c);
    }
  }

  // ---------------------------------------------------------------- independence of the chunks

  /** The bytes that are not filler. */
  function Useful(raw: seq<Byte>): (u: seq<Byte>)
    ensures |u| <= |raw| && (0 !in raw ==> 0 !in u)
  {
    if |raw| == 0 then []
    else Useful(raw[..|raw| - 1]) + if raw[|raw| - 1] == FILLER then [] else [raw[|raw| - 1]]
  }

  function Join(chunks: seq<seq<Byte>>): seq<Byte> {
    if |chunks| == 0 then [] else chunks[0] + Join(chunks[1..])
  }

  lemma {:induction false} UsefulAppend(a: seq<Byte>, b: seq<Byte>)
    ensures Useful(a + b) == Useful(a) + Useful(b)
  {
    if |b| == 0 {
      assert a + b == a;
    } else {
      UsefulAppend(a, b[..|b| - 1]);
      assert (a + b)[..|a + b| - 1] == a + b[..|b| - 1];
    }
  }

  lemma {:induction false} UsefulStep(c: seq<Byte>, chunks: seq<seq<Byte>>)
    requires |chunks| > 0
    ensures c + Useful(Join(chunks)) == c + Useful(chunks[0]) + Useful(Join(chunks[1..]))
  {
    UsefulAppend(chunks[0], Join(chunks[1..]));
  }

  lemma {:induction false} AppendedFits(c: seq<Byte>, raw: seq<Byte>)
    requires |c| + |Useful(raw)| <= NBUF - 1
    ensures AppendedAll(c, raw) == c + Useful(raw)
  {
    if |raw| > 0 { AppendedFits(c, raw[..|raw| - 1]); }
  }

  /** No chunk overflows the buffer when it is appended. */
  predicate Fits(c: seq<Byte>, chunks: seq<seq<Byte>>)
    decreases |chunks|
  {
    |chunks| > 0 ==>
      && |c| + |Useful(chunks[0])| <= NBUF - 1
      && Fits(Rest(c + Useful(chunks[0])), chunks[1..])
  }

  lemma {:induction false} RunStep(c: seq<Byte>, chunks: seq<seq<Byte>>, later: seq<Byte>)
    requires |chunks| > 0 && |c| + |Useful(chunks[0])| <= NBUF - 1 && 0 !in c && 0 !in chunks[0]
    requires Run(Rest(c + Useful(chunks[0])), chunks[1..]) == Sentences(Rest(c + Useful(chunks[0])) + later)
    ensures Run(c, chunks) == Sentences(c + Useful(chunks[0]) + later)
  {
    hide Pop, Useful;
    AppendedFits(c, chunks[0]);
    DrainThenMore(c + Useful(chunks[0]), later);
  }

  lemma {:induction false} NothingToRead(c: seq<Byte>)
    requires !Pop(c).found
    ensures Sentences(c + Useful(Join([]))) == []
  {
    assert c + Useful(Join([])) == c;
  }

  /** As long as the buffer does not overflow and no NUL arrives, the sentences popped are those of
      the whole stream without its filler: they do not depend on how it was cut into chunks. */
  lemma {:induction false} ChunksDoNotMatter(c: seq<Byte>, chunks: seq<seq<Byte>>)
    requires !Pop(c).found && 0 !in c && (forall chunk :: chunk in chunks ==> 0 !in chunk) && Fits(c, chunks)
    ensures Run(c, chunks) == Sentences(c + Useful(Join(chunks)))
    decreases |chunks|
  {
    hide Pop, Useful, Sentences;
    if |chunks| == 0 {
      NothingToRead(c);
    } else {
      RestIsUnfinished(c + Useful(chunks[0]));
      ChunksDoNotMatter(Rest(c + Useful(chunks[0])), chunks[1..]);
      RunStep(c, chunks, Useful(Join(chunks[1..])));
      UsefulStep(c, chunks);
    }
  }

  // ---------------------------------------------------------------- when the buffer does not overflow

  /** No stretch of the stream longer than `n` is without a line feed. */
  predicate ShortLines(s: seq<Byte>, n: nat) {
    forall i, j :: 0 <= i && i + n < j <= |s| ==> LF in s[i..j]
  }

  /** The unfinished end of what was received is no longer than a line. */
  lemma {:induction false} UnfinishedIsShort(done: seq<Byte>, c: seq<Byte>, later: seq<Byte>, n: nat)
    requires Suffix(c, done) && LF !in c && ShortLines(done + later, n)
    ensures |c| <= n
  {
    var s := done + later;
    assert c == s[|done| - |c|..|done|];
  }

  /** Lines of at most `n` bytes, read `m` bytes at a time, fit when `n + m` do: `done` is what was
      received so far, `c` its unfinished end. */
  lemma {:induction false} ShortLinesFit(done: seq<Byte>, c: seq<Byte>, chunks: seq<seq<Byte>>, n: nat, m: nat)
    requires Unfinished(c, done) && 0 !in done
    requires forall chunk :: chunk in chunks ==> |chunk| <= m && 0 !in chunk
    requires ShortLines(done + Useful(Join(chunks)), n) && n + m <= NBUF - 1
    ensures Fits(c, chunks)
    decreases |chunks|
  {
    hide Pop, ShortLines;
    if |chunks| > 0 {
      var u := Useful(chunks[0]);
      UnfinishedIsShort(done, c, Useful(Join(chunks)), n);
      UsefulStep(done, chunks);
      SuffixAppend(c, done, u);
      RestIsUnfinished(c + u);
      SuffixTrans(Rest(c + u), c + u, done + u);
      ShortLinesFit(done + u, Rest(c + u), chunks[1..], n, m);
    }
  }

  /** So a receiver of short lines, reading small chunks, pops every sentence sent. */
  lemma {:induction false} ShortLinesAreReceived(chunks: seq<seq<Byte>>, n: nat, m: nat)
    requires forall chunk :: chunk in chunks ==> |chunk| <= m && 0 !in chunk
    requires ShortLines(Useful(Join(chunks)), n) && n + m <= NBUF - 1
    ensures Run([], chunks) == Sentences(Useful(Join(chunks)))
  {
    assert [] + Useful(Join(chunks)) == Useful(Join(chunks));
    ShortLinesFit([], [], chunks, n, m);
    ChunksDoNotMatter([], chunks);
  }
}
