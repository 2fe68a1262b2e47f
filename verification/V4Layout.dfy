/** The layout of a v4 file byte by byte, as its format is documented: where each number of a record and of the
    header stands, and how wide it is. */
module V4Layout {
  import opened Basics
  import opened Bytes
  import opened Composition
  import opened WordIndex
  import opened V4Blob
  import opened V4File
  import opened V4Readers

  function Number16(lo: Byte, hi: Byte): nat {
    lo as nat + 256 * (hi as nat)
  }

  function Number32(b0: Byte, b1: Byte, b2: Byte, b3: Byte): nat {
    b0 as nat + 256 * (b1 as nat) + 65536 * (b2 as nat) + 16777216 * (b3 as nat)
  }

  /** A frequency in 16 bits. */
  function Saturated(freq: nat): nat {
    if freq > 65535 then 65535 else freq
  }

  // ---------------------------------------------------------------- characters

  /** Where the `k`th reading of a character's record starts: after the length byte, the text and the count of
      readings, each earlier one having a length byte, its keys, perhaps a position byte, a tone and a frequency. */
  function ReadingStart(c: CharEntry, hasPos: bool, k: nat): nat
    requires k <= |c.readings|
  {
    if k == 0 then 2 + |c.utf8|
    else ReadingStart(c, hasPos, k - 1) + |c.readings[k - 1].keys| + if hasPos then 5 else 4
  }

  /** The bytes of one reading at `o`. */
  predicate ReadingBytes(b: seq<Byte>, o: nat, r: Reading, hasPos: bool) {
    var n := |r.keys|;
    var t := o + 1 + n + if hasPos then 1 else 0;
    && t + 3 <= |b| && b[o] as nat == n && b[o + 1..o + 1 + n] == r.keys
    && (hasPos ==> b[o + 1 + n] == r.posPacked)
    && b[t] == r.tone && Number16(b[t + 1], b[t + 2]) == Saturated(r.freq)
  }

  lemma {:induction false} ReadingLaid(b: seq<Byte>, o: nat, r: Reading, hasPos: bool)
    requires |r.keys| < 0x100 && At(b, o, EncReading(r, hasPos))
    ensures ReadingBytes(b, o, r, hasPos) && |EncReading(r, hasPos)| == |r.keys| + if hasPos then 5 else 4
  {
    ReadingRoundTrip(b, o, r, hasPos);
  }

  lemma {:induction false} ReadingsLaid(b: seq<Byte>, o: nat, rs: seq<Reading>, hasPos: bool, k: nat)
    requires (forall r :: r in rs ==> |r.keys| < 0x100) && At(b, o, EncReadings(rs, hasPos)) && k < |rs|
    ensures var s := o + |EncReadings(rs[..k], hasPos)|;
      ReadingBytes(b, s, rs[k], hasPos)
      && |EncReadings(rs[..k + 1], hasPos)| == |EncReadings(rs[..k], hasPos)| + |rs[k].keys| + if hasPos then 5 else 4
  {
    hide ReadingBytes, EncReading;
    var n := |rs| - 1;
    AtSplit(b, o, EncReadings(rs[..n], hasPos), EncReading(rs[n], hasPos));
    if k == n {
      assert rs[..n + 1] == rs;
      ReadingLaid(b, o + |EncReadings(rs[..n], hasPos)|, rs[n], hasPos);
    } else {
      ReadingsLaid(b, o, rs[..n], hasPos, k);
      assert rs[..n][..k] == rs[..k] && rs[..n][..k + 1] == rs[..k + 1];
    }
  }

  lemma {:induction false} StartsAre(c: CharEntry, hasPos: bool, k: nat)
    requires CharFits(c) && k <= |c.readings|
    ensures ReadingStart(c, hasPos, k) == 2 + |c.utf8| + |EncReadings(c.readings[..k], hasPos)|
  {
    hide EncReading;
    if k > 0 {
      StartsAre(c, hasPos, k - 1);
      var b := EncReadings(c.readings, hasPos);
      ReadingsLaid(b, 0, c.readings, hasPos, k - 1);
    }
  }

  /** A character's record: length, UTF-8, number of readings, then the readings. */
  lemma {:induction false} CharBytes(c: CharEntry, hasPos: bool)
    requires CharFits(c)
    ensures var b, n := EncChar(c, hasPos), |c.utf8|;
      && |b| == ReadingStart(c, hasPos, |c.readings|)
      && |b| >= n + 2 && b[0] as nat == n && b[1..1 + n] == c.utf8 && b[1 + n] as nat == |c.readings|
      && forall k :: 0 <= k < |c.readings| ==> ReadingBytes(b, ReadingStart(c, hasPos, k), c.readings[k], hasPos)
  {
    hide ReadingBytes, EncReading;
    var b, head := EncChar(c, hasPos), [|c.utf8|] + c.utf8 + [|c.readings|];
    AtSplit(b, 0, head, EncReadings(c.readings, hasPos));
    StartsAre(c, hasPos, |c.readings|);
    assert c.readings[..|c.readings|] == c.readings;
    forall k | 0 <= k < |c.readings| ensures ReadingBytes(b, ReadingStart(c, hasPos, k), c.readings[k], hasPos) {
      StartsAre(c, hasPos, k);
      ReadingsLaid(b, |head|, c.readings, hasPos, k);
    }
  }

  // ---------------------------------------------------------------- words

  /** Whether the record of a word needs its reading indices. */
  predicate Indexed(w: Word) {
    exists i :: 0 <= i < |w.readingIdxs| && w.readingIdxs[i] != 0
  }

  lemma {:induction false} WordParts(w: Word)
    requires WordFits(w)
    ensures var b, n, has := EncWord(w), |w.charIds|, Indexed(w);
      && |b| == 4 + 2 * n + (if has then n else 0) && At(b, 4, Enc16s(w.charIds))
      && b[0] as nat == n && b[1] == (if has then 1 else 0) && Number16(b[2], b[3]) == Saturated(w.freq)
      && (has ==> b[4 + 2 * n..] == w.readingIdxs)
  {
    hide Enc16s, At;
    var b, n, has := EncWord(w), |w.charIds|, HasOverrides(w);
    var head: seq<Byte> := [n, if has then 1 else 0];
    var freq, ids, tail := Enc16(Min(w.freq, 0xFFFF)), Enc16s(w.charIds), if has then w.readingIdxs else [];
    assert b == head + freq + ids + tail;
    AtSplit(b, 0, head + freq + ids, tail);
    AtSplit(b, 0, head + freq, ids);
    AtSplit(b, 0, head, freq);
    Load16At(b, 2, Min(w.freq, 0xFFFF));
    assert At(b, 0, b) by { Whole(b); }
    if has { assert b[4 + 2 * n..] == w.readingIdxs; }
  }

  lemma {:induction false} Whole(b: seq<Byte>)
    ensures At(b, 0, b)
  {
  }

  /** A word's record: number of characters, a flag saying whether reading indices follow, frequency, character
      ids, and the indices when one of them is not 0. */
  lemma {:induction false} WordBytes(w: Word)
    requires WordFits(w)
    ensures var b, n, has := EncWord(w), |w.charIds|, Indexed(w);
      && |b| == 4 + 2 * n + (if has then n else 0)
      && b[0] as nat == n && b[1] == (if has then 1 else 0) && Number16(b[2], b[3]) == Saturated(w.freq)
      && (forall i :: 0 <= i < n ==> Number16(b[4 + 2 * i], b[5 + 2 * i]) == w.charIds[i])
      && (has ==> b[4 + 2 * n..] == w.readingIdxs)
  {
    hide EncWord, Indexed, At;
    var b := EncWord(w);
    WordParts(w);
    forall i | 0 <= i < |w.charIds| ensures Number16(b[4 + 2 * i], b[5 + 2 * i]) == w.charIds[i] {
      Enc16sAt(b, 4, w.charIds, i);
    }
  }

  // ---------------------------------------------------------------- the header

  function NumberAt(b: seq<Byte>, o: nat): nat
    requires o + 4 <= |b|
  {
    Number32(b[o], b[o + 1], b[o + 2], b[o + 3])
  }

  /** The header: magic, version, flags, the two counts, where each section starts, the length of the file; the
      sections stand where it says. */
  lemma {:induction false} HeaderBytes(p: Parts)
    requires FileFits(p)
    ensures var f := File(p);
      && |f| >= 64 && f[..4] == [0x4D, 0x49, 0x45, 0x34] && f[4..8] == [4, 0, 1, 0]
      && NumberAt(f, 8) == |p.chars| && NumberAt(f, 12) == |p.flat| && NumberAt(f, 32) == |f|
      && NumberAt(f, 16) == 64 && At(f, 64, CharSection(p)) && At(f, NumberAt(f, 20), WordSection(p))
      && At(f, NumberAt(f, 24), FirstSection(p)) && At(f, NumberAt(f, 28), KeySection(p))
      && At(f, NumberAt(f, 36), Enc32s(CharOffsets(p))) && At(f, NumberAt(f, 40), Enc32s(WordOffsets(p)))
      && At(f, NumberAt(f, 44), PrefixSection(p))
  {
    hide File, CharSection, WordSection, FirstSection, KeySection, PrefixSection, CharOffsets, WordOffsets, At, FileFits;
    var f := File(p);
    SectionsStand(p);
    HeaderNumbersFit(p);
    HeaderFields(f, HeaderNumbers(p));
    Fields(f, HeaderNumbers(p));
  }

  lemma {:induction false} Fields(f: seq<Byte>, ns: seq<nat>)
    requires |f| >= 64 && Load16(f, 4) == 4 && Load16(f, 6) == 1
    requires |ns| == 14 && forall i :: 0 <= i < 14 ==> Load32(f, 8 + 4 * i) == ns[i]
    ensures f[4..8] == [4, 0, 1, 0]
    ensures NumberAt(f, 8) == ns[0] && NumberAt(f, 12) == ns[1] && NumberAt(f, 16) == ns[2] && NumberAt(f, 20) == ns[3]
    ensures NumberAt(f, 24) == ns[4] && NumberAt(f, 28) == ns[5] && NumberAt(f, 32) == ns[6] && NumberAt(f, 36) == ns[7]
    ensures NumberAt(f, 40) == ns[8] && NumberAt(f, 44) == ns[9]
  {
  }

  /** The word section begins with the number of words and the first id of each of the eight groups. */
  lemma {:induction false} GroupBytes(p: Parts, g: nat)
    requires FileFits(p) && g < 8
    ensures var b := WordSection(p);
      |b| >= 64 && NumberAt(b, 8 * g) == p.groups[g].count && NumberAt(b, 8 * g + 4) == p.groups[g].start
  {
    var b := WordSection(p);
    AtSplit(b, 0, EncGroups(p.groups), Flatten(EncWords(p.flat)));
    GroupsHeld(b, 0, p.groups, g);
  }
}
