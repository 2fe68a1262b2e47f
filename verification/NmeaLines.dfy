/** Sentences as a receiver of them writes them, and what the polling loop makes of such a stream. */
module NmeaLines {
  import opened Basics
  import opened NmeaBuffer

  /** Bytes that start no sentence, then '$', the sentence, perhaps a carriage return, and a line feed. */
  datatype Line = Line(noise: seq<Byte>, body: seq<Byte>, cr: bool)

  predicate LineOk(l: Line) {
    DOLLAR !in l.noise && 0 !in l.noise && 0 !in l.body && CR !in l.body && LF !in l.body
  }

  function Ending(cr: bool): seq<Byte> {
    if cr then [CR, LF] else [LF]
  }

  function Sent(l: Line): seq<Byte> {
    l.noise + [DOLLAR] + l.body + Ending(l.cr)
  }

  /** The lines one after the other, then an unfinished one. */
  function Wire(lines: seq<Line>, tail: seq<Byte>): seq<Byte> {
    if |lines| == 0 then tail else Sent(lines[0]) + Wire(lines[1..], tail)
  }

  function Bodies(lines: seq<Line>): (r: seq<seq<Byte>>)
    ensures |r| == |lines|
  {
    seq(|lines|, i requires 0 <= i < |lines| => lines[i].body)
  }

  // ---------------------------------------------------------------- reading a line back

  lemma {:induction false} IndexIs(s: seq<Byte>, c: Byte, i: nat, k: nat)
    requires c != 0 && i <= k < |s| && s[k] == c && forall j :: i <= j < k ==> s[j] != c && s[j] != 0
    ensures IndexFrom(s, c, i) == k
    decreases k - i
  {
    if i < k { IndexIs(s, c, i + 1, k); }
  }

  lemma {:induction false} IndexIsLater(s: seq<Byte>, c: Byte, i: nat, k: nat)
    requires c != 0 && i <= k <= |s| && forall j :: i <= j < k ==> s[j] != c
    ensures IndexFrom(s, c, i) >= k
    decreases k - i
  {
    if i < k { IndexIsLater(s, c, i + 1, k); }
  }

  /** Where the parts of the first line stand. */
  lemma {:induction false} LineStands(l: Line, rest: seq<Byte>)
    ensures var s, a := Sent(l) + rest, |l.noise|;
      var b := a + 1 + |l.body|;
      var e := if l.cr then b + 1 else b;
      && |Sent(l)| == e + 1 && |s| >= e + 1 && s[a] == DOLLAR && s[e] == LF && (l.cr ==> s[b] == CR)
      && (forall j :: 0 <= j < a ==> s[j] == l.noise[j]) && (forall j :: a < j < b ==> s[j] == l.body[j - a - 1])
      && s[a + 1..b] == l.body && s[e + 1..] == rest
  {
  }

  /** The first pop takes the first line's sentence and leaves the rest. */
  lemma {:induction false} PopsLine(l: Line, rest: seq<Byte>)
    requires LineOk(l)
    ensures Pop(Sent(l) + rest) == Popped(true, l.body, rest)
  {
    hide Sent;
    var s, a := Sent(l) + rest, |l.noise|;
    var b := a + 1 + |l.body|;
    var e := if l.cr then b + 1 else b;
    LineStands(l, rest);
    IndexIs(s, DOLLAR, 0, a);
    forall j | a <= j < e ensures s[j] != LF && s[j] != 0 {
      if a < j < b { assert s[j] == l.body[j - a - 1]; }
    }
    IndexIs(s, LF, a, e);
    forall j | a < j < b ensures s[j] != CR && s[j] != 0 { assert s[j] == l.body[j - a - 1]; }
    if l.cr { IndexIs(s, CR, a + 1, b); } else { IndexIsLater(s, CR, a + 1, b); }
  }

  /** Sentences come out as they were written, whatever stands between them, with or without carriage returns. */
  lemma {:induction false} WireIsRead(lines: seq<Line>, tail: seq<Byte>)
    requires (forall l :: l in lines ==> LineOk(l)) && LF !in tail
    ensures Sentences(Wire(lines, tail)) == Bodies(lines)
  {
    hide Sent, LineOk;
    if |lines| > 0 {
      PopsLine(lines[0], Wire(lines[1..], tail));
      WireIsRead(lines[1..], tail);
      assert Bodies(lines) == [lines[0].body] + Bodies(lines[1..]);
    }
  }

  // ---------------------------------------------------------------- the polling loop

  lemma {:induction false} WireIsShort(lines: seq<Line>, tail: seq<Byte>, n: nat)
    requires |tail| <= n && forall l :: l in lines ==> |Sent(l)| <= n
    ensures ShortLines(Wire(lines, tail), n)
  {
    if |lines| > 0 {
      var first, rest := Sent(lines[0]), Wire(lines[1..], tail);
      var s, k := first + rest, |first|;
      WireIsShort(lines[1..], tail, n);
      LineStands(lines[0], rest);
      forall i, j | 0 <= i && i + n < j <= |s| ensures LF in s[i..j] {
        if i < k {
          assert s[i..j][k - 1 - i] == LF;
        } else {
          assert s[i..j] == rest[i - k..j - k];
        }
      }
    }
  }

  /** From an empty buffer, sentences written in lines of at most `n` bytes and read `m` bytes at a time, with idle
      filler anywhere, are all delivered, in order and as they were written, when `n + m` is at most 511. */
  lemma {:induction false} LinesAreDelivered(lines: seq<Line>, tail: seq<Byte>, chunks: seq<seq<Byte>>, n: nat, m: nat)
    requires (forall l :: l in lines ==> LineOk(l) && |Sent(l)| <= n) && LF !in tail && |tail| <= n
    requires Useful(Join(chunks)) == Wire(lines, tail) && n + m <= 511
    requires forall chunk :: chunk in chunks ==> |chunk| <= m && 0 !in chunk
    ensures Run([], chunks) == Bodies(lines)
  {
    hide LineOk, ShortLines, Run, Wire;
    WireIsShort(lines, tail, n);
    ShortLinesAreReceived(chunks, n, m);
    WireIsRead(lines, tail);
  }

  // ---------------------------------------------------------------- overflow

  /** What a full buffer is cut down to: it loses its first byte and everything up to the next '$', or all. */
  lemma {:induction false} RoomIsMade(c: seq<Byte>, k: nat)
    requires 0 < |c| && 1 <= k <= |c| && 0 !in c
    ensures MadeRoom(c) == c[k..] <==> DOLLAR !in c[1..k] && (k < |c| ==> c[k] == DOLLAR)
  {
    var p := IndexFrom(c, DOLLAR, 1);
    if DOLLAR !in c[1..k] {
      forall j | 1 <= j < k ensures c[j] != DOLLAR { assert c[1..k][j - 1] == c[j]; }
      IndexIsLater(c, DOLLAR, 1, k);
      if k < |c| && c[k] == DOLLAR { IndexIs(c, DOLLAR, 1, k); }
    }
    if MadeRoom(c) == c[k..] {
      assert p == k by { assert |c[p..]| == |c| - p; }
      NotBefore(c, DOLLAR, 1);
    }
  }

  lemma {:induction false} NotBefore(s: seq<Byte>, c: Byte, i: nat)
    requires c != 0 && i <= |s| && 0 !in s
    ensures forall j :: i <= j < IndexFrom(s, c, i) ==> s[j] != c
    decreases |s| - i
  {
    if i < |s| && s[i] != c { NotBefore(s, c, i + 1); }
  }
}
