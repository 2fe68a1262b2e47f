/** The v4 file: the compiler's byte writer, the firmware's offset-based reader and the
    sequential checker's reader. What is written is what both readers give back. */
module V4Blob {
  import opened Basics
  import opened Bytes
  import opened Composition
  import opened WordIndex
  import opened IndexedSearch

  // ---------------------------------------------------------------- character records

  predicate CharFits(c: CharEntry) {
    |c.utf8| < 0x100 && |c.readings| < 0x100 && forall r :: r in c.readings ==> |r.keys| < 0x100
  }

  function EncReading(r: Reading, hasPos: bool): seq<Byte>
    requires |r.keys| < 0x100
  {
    [|r.keys|] + r.keys + (if hasPos then [r.posPacked] else []) + [r.tone] + Enc16(Min(r.freq, 0xFFFF))
  }

  function EncReadings(rs: seq<Reading>, hasPos: bool): seq<Byte>
    requires forall r :: r in rs ==> |r.keys| < 0x100
  {
    if |rs| == 0 then [] else EncReadings(rs[..|rs| - 1], hasPos) + EncReading(rs[|rs| - 1], hasPos)
  }

  function EncChar(c: CharEntry, hasPos: bool): seq<Byte>
    requires CharFits(c)
  {
    [|c.utf8|] + c.utf8 + [|c.readings|] + EncReadings(c.readings, hasPos)
  }

  function EncChars(chars: seq<CharEntry>, hasPos: bool): (r: seq<seq<Byte>>)
    requires forall c :: c in chars ==> CharFits(c)
    ensures |r| == |chars|
  {
    seq(|chars|, i requires 0 <= i < |chars| => EncChar(chars[i], hasPos))
  }

  /** `offsets` are where the records start, and the end. */
  ghost predicate Laid(buf: seq<Byte>, offsets: seq<nat>, base: nat, records: seq<seq<Byte>>) {
    && buf == Flatten(records)
    && |offsets| == |records| + 1
    && forall i :: 0 <= i <= |records| ==> offsets[i] == base + Offset(records, i)
  }

  method SerializeReading(r: Reading, hasPos: bool) returns (buf: seq<Byte>)
    requires |r.keys| < 0x100
    ensures buf == EncReading(r, hasPos)
  {
    buf := [|r.keys|] + r.keys;
    if hasPos { buf := buf + [r.posPacked]; }
    buf := buf + [r.tone] + Enc16(Min(r.freq, 0xFFFF));
  }

  method SerializeChar(c: CharEntry, hasPos: bool) returns (buf: seq<Byte>)
    requires CharFits(c)
    ensures buf == EncChar(c, hasPos)
  {
    hide EncReading;
    buf := [|c.utf8|] + c.utf8 + [|c.readings|];
    ghost var head := buf;
    for i := 0 to |c.readings|
      invariant buf == head + EncReadings(c.readings[..i], hasPos)
    {
      assert c.readings[..i + 1][..i] == c.readings[..i];
      assert c.readings[i] in c.readings;
      var rec := SerializeReading(c.readings[i], hasPos);
      buf := buf + rec;
    }
    assert c.readings[..|c.readings|] == c.readings;
  }

  method SerializeCharTable(chars: seq<CharEntry>, hasPos: bool) returns (buf: seq<Byte>, offsets: seq<nat>)
    requires forall c :: c in chars ==> CharFits(c)
    ensures Laid(buf, offsets, 0, EncChars(chars, hasPos))
  {
    buf, offsets := [], [];
    ghost var records := EncChars(chars, hasPos);
    for i := 0 to |chars|
      invariant buf == Flatten(records[..i]) && |offsets| == i
      invariant forall j :: 0 <= j < i ==> offsets[j] == Offset(records, j)
    {
      OffsetStep(records, i);
      offsets := offsets + [|buf|];
      var rec := SerializeChar(chars[i], hasPos);
      buf := buf + rec;
    }
    assert records[..|records|] == records;
    offsets := offsets + [|buf|];
  }

  // ---------------------------------------------------------------- word records

  predicate WordFits(w: Word) {
    |w.charIds| == |w.readingIdxs| < 0x100 && forall i :: 0 <= i < |w.charIds| ==> w.charIds[i] < 0x1_0000
  }

  function Enc16s(ns: seq<nat>): (b: seq<Byte>)
    requires forall i :: 0 <= i < |ns| ==> ns[i] < 0x1_0000
    ensures |b| == 2 * |ns|
  {
    if |ns| == 0 then [] else Enc16s(ns[..|ns| - 1]) + Enc16(ns[|ns| - 1])
  }

  function Enc32s(ns: seq<nat>): (b: seq<Byte>)
    requires forall i :: 0 <= i < |ns| ==> ns[i] < 0x1_0000_0000
    ensures |b| == 4 * |ns|
  {
    if |ns| == 0 then [] else Enc32s(ns[..|ns| - 1]) + Enc32(ns[|ns| - 1])
  }

  predicate HasOverrides(w: Word) {
    exists i :: 0 <= i < |w.readingIdxs| && w.readingIdxs[i] != 0
  }

  function EncWord(w: Word): seq<Byte>
    requires WordFits(w)
  {
    [|w.charIds|, if HasOverrides(w) then 1 else 0] + Enc16(Min(w.freq, 0xFFFF)) + Enc16s(w.charIds)
    + if HasOverrides(w) then w.readingIdxs else []
  }

  function EncWords(words: seq<Word>): (r: seq<seq<Byte>>)
    requires forall w :: w in words ==> WordFits(w)
    ensures |r| == |words|
  {
    seq(|words|, i requires 0 <= i < |words| => EncWord(words[i]))
  }

  predicate GroupsFit(groups: seq<Group>) {
    forall i :: 0 <= i < |groups| ==> groups[i].count < 0x1_0000_0000 && groups[i].start < 0x1_0000_0000
  }

  function EncGroups(groups: seq<Group>): (b: seq<Byte>)
    requires GroupsFit(groups)
    ensures |b| == 8 * |groups|
  {
    if |groups| == 0 then []
    else
      var g := groups[|groups| - 1];
      EncGroups(groups[..|groups| - 1]) + (Enc32(g.count) + Enc32(g.start))
  }

  method SerializeWord(w: Word) returns (buf: seq<Byte>)
    requires WordFits(w)
    ensures buf == EncWord(w)
  {
    var has := HasOverrides(w);
    buf := [|w.charIds|, if has then 1 else 0] + Enc16(Min(w.freq, 0xFFFF));
    ghost var head := buf;
    for i := 0 to |w.charIds|
      invariant buf == head + Enc16s(w.charIds[..i])
    {
      assert w.charIds[..i + 1][..i] == w.charIds[..i];
      buf := buf + Enc16(w.charIds[i]);
    }
    assert w.charIds[..|w.charIds|] == w.charIds;
    ghost var mid := buf;
    if has {
      for i := 0 to |w.readingIdxs|
        invariant buf == mid + w.readingIdxs[..i]
      {
        buf := buf + [w.readingIdxs[i]];
      }
      assert w.readingIdxs[..|w.readingIdxs|] == w.readingIdxs;
    }
  }

  /** Group headers first; the word offsets count from the start of the section. */
  method SerializeWordTable(flat: seq<Word>, groups: seq<Group>)
    returns (buf: seq<Byte>, offsets: seq<nat>, ghost records: seq<Byte>)
    requires |groups| == MAX_GROUP && GroupsFit(groups) && forall w :: w in flat ==> WordFits(w)
    ensures buf == EncGroups(groups) + records
    ensures Laid(records, offsets, 8 * MAX_GROUP, EncWords(flat))
  {
    buf := [];
    for b := 0 to MAX_GROUP
      invariant buf == EncGroups(groups[..b])
    {
      assert groups[..b + 1][..b] == groups[..b];
      buf := buf + (Enc32(groups[b].count) + Enc32(groups[b].start));
    }
    assert groups[..MAX_GROUP] == groups;
    var more;
    more, offsets := SerializeWordRecords(flat, |buf|);
    records := more;
    buf := buf + more;
  }

  method SerializeWordRecords(flat: seq<Word>, base: nat) returns (buf: seq<Byte>, offsets: seq<nat>)
    requires forall w :: w in flat ==> WordFits(w)
    ensures Laid(buf, offsets, base, EncWords(flat))
  {
    buf, offsets := [], [];
    ghost var records := EncWords(flat);
    for i := 0 to |flat|
      invariant buf == Flatten(records[..i]) && |offsets| == i
      invariant forall j :: 0 <= j < i ==> offsets[j] == base + Offset(records, j)
    {
      OffsetStep(records, i);
      offsets := offsets + [base + |buf|];
      var rec := SerializeWord(flat[i]);
      buf := buf + rec;
    }
    assert records[..|records|] == records;
    offsets := offsets + [base + |buf|];
  }

  method EncodeNumbers32(ns: seq<nat>) returns (buf: seq<Byte>)
    requires forall i :: 0 <= i < |ns| ==> ns[i] < 0x1_0000_0000
    ensures buf == Enc32s(ns)
  {
    buf := [];
    for i := 0 to |ns|
      invariant buf == Enc32s(ns[..i])
    {
      assert ns[..i + 1][..i] == ns[..i];
      buf := buf + Enc32(ns[i]);
    }
    assert ns[..|ns|] == ns;
  }

  method EncodeNumbers16(ns: seq<nat>) returns (buf: seq<Byte>)
    requires forall i :: 0 <= i < |ns| ==> ns[i] < 0x1_0000
    ensures buf == Enc16s(ns)
  {
    buf := [];
    for i := 0 to |ns|
      invariant buf == Enc16s(ns[..i])
    {
      assert ns[..i + 1][..i] == ns[..i];
      buf := buf + Enc16(ns[i]);
    }
    assert ns[..|ns|] == ns;
  }

  // ---------------------------------------------------------------- reading a record at an offset

  datatype Parsed<T> = Parsed(value: T, next: nat)

  /** One reading record at `o`; None when it runs past the end. */
  function ReadReading(b: seq<Byte>, o: nat, hasPos: bool): Option<Parsed<Reading>> {
    if o >= |b| then None
    else
      var klen := b[o];
      var p := o + 1 + klen;
      var q := if hasPos then p + 1 else p;
      if q + 3 > |b| then None
      else Some(Parsed(Reading(b[o + 1..p], if hasPos then b[p] else 0, b[q], Load16(b, q + 1)), q + 3))
  }

  /** `n` reading records, one after the other. */
  function ReadReadings(b: seq<Byte>, o: nat, n: nat, hasPos: bool): Option<Parsed<seq<Reading>>> {
    if n == 0 then Some(Parsed([], o))
    else
      match ReadReadings(b, o, n - 1, hasPos)
      case None => None
      case Some(rest) =>
        match ReadReading(b, rest.next, hasPos)
        case None => None
        case Some(r) => Some(Parsed(rest.value + [r.value], r.next))
  }

  function ReadChar(b: seq<Byte>, o: nat, hasPos: bool): Option<Parsed<CharEntry>> {
    if o >= |b| || o + 1 + b[o] >= |b| then None
    else
      var p := o + 1 + b[o];
      match ReadReadings(b, p + 1, b[p], hasPos)
      case None => None
      case Some(rs) => Some(Parsed(CharEntry(b[o + 1..p], rs.value), rs.next))
  }

  function ReadWord(b: seq<Byte>, o: nat): Option<Parsed<WordView>> {
    if o + 4 > |b| || o + 4 + 2 * (b[o] as int) > |b| then None
    else
      var n: nat := b[o];
      var p := o + 4 + 2 * n;
      var ids := seq(n, i requires 0 <= i < n => Load16(b, o + 4 + 2 * i));
      if b[o + 1] % 2 == 0 then Some(Parsed(WordView(ids, None, Load16(b, o + 2)), p))
      else if p + n > |b| then None
      else Some(Parsed(WordView(ids, Some(b[p..p + n]), Load16(b, o + 2)), p + n))
  }

  // ---------------------------------------------------------------- records read back

  /** What a file with or without position bytes keeps of a reading. */
  function Kept(r: Reading, hasPos: bool): Reading {
    Reading(r.keys, if hasPos then r.posPacked else 0, r.tone, Min(r.freq, 0xFFFF))
  }

  function KeptAll(rs: seq<Reading>, hasPos: bool): (k: seq<Reading>)
    ensures |k| == |rs|
  {
    seq(|rs|, i requires 0 <= i < |rs| => Kept(rs[i], hasPos))
  }

  function KeptChar(c: CharEntry, hasPos: bool): CharEntry {
    CharEntry(c.utf8, KeptAll(c.readings, hasPos))
  }

  lemma {:induction false} ReadingRoundTrip(b: seq<Byte>, o: nat, r: Reading, hasPos: bool)
    requires |r.keys| < 0x100 && At(b, o, EncReading(r, hasPos))
    ensures ReadReading(b, o, hasPos) == Some(Parsed(Kept(r, hasPos), o + |EncReading(r, hasPos)|))
  {
    var posPart := if hasPos then [r.posPacked] else [];
    var p1 := [|r.keys|] + r.keys;
    var p2 := p1 + posPart;
    var p3 := p2 + [r.tone];
    AtSplit(b, o, p3, Enc16(Min(r.freq, 0xFFFF)));
    AtSplit(b, o, p2, [r.tone]);
    AtSplit(b, o, p1, posPart);
    AtSplit(b, o, [|r.keys|], r.keys);
    assert b[o + 0] == [|r.keys|][0];
    AtSlice(b, o + 1, r.keys);
    assert b[o + |p2| + 0] == [r.tone][0];
    if hasPos { assert b[o + |p1| + 0] == posPart[0]; }
    Load16At(b, o + |p3|, Min(r.freq, 0xFFFF));
  }

  lemma {:induction false} ReadingsRoundTrip(b: seq<Byte>, o: nat, rs: seq<Reading>, hasPos: bool)
    requires (forall r :: r in rs ==> |r.keys| < 0x100) && At(b, o, EncReadings(rs, hasPos))
    ensures ReadReadings(b, o, |rs|, hasPos) == Some(Parsed(KeptAll(rs, hasPos), o + |EncReadings(rs, hasPos)|))
  {
    hide ReadReading, EncReading;
    if |rs| > 0 {
      var t, r := rs[..|rs| - 1], rs[|rs| - 1];
      AtSplit(b, o, EncReadings(t, hasPos), EncReading(r, hasPos));
      ReadingsRoundTrip(b, o, t, hasPos);
      ReadingRoundTrip(b, o + |EncReadings(t, hasPos)|, r, hasPos);
      assert KeptAll(rs, hasPos) == KeptAll(t, hasPos) + [Kept(r, hasPos)];
    }
  }

  lemma {:induction false} CharHeadAt(b: seq<Byte>, o: nat, utf8: seq<Byte>, n: Byte)
    requires |utf8| < 0x100 && At(b, o, [|utf8|] + utf8 + [n])
    ensures o + |utf8| + 2 <= |b| && b[o] == |utf8| && b[o + 1 + |utf8|] == n && b[o + 1..o + 1 + |utf8|] == utf8
  {
    AtSplit(b, o, [|utf8|] + utf8, [n]);
    AtSplit(b, o, [|utf8|], utf8);
    assert b[o + 0] == [|utf8|][0] && b[o + 1 + |utf8| + 0] == [n][0];
    AtSlice(b, o + 1, utf8);
  }

  lemma {:induction false} CharRoundTrip(b: seq<Byte>, o: nat, c: CharEntry, hasPos: bool)
    requires CharFits(c) && At(b, o, EncChar(c, hasPos))
    ensures ReadChar(b, o, hasPos) == Some(Parsed(KeptChar(c, hasPos), o + |EncChar(c, hasPos)|))
  {
    hide ReadReadings, EncReadings;
    AtSplit(b, o, [|c.utf8|] + c.utf8 + [|c.readings|], EncReadings(c.readings, hasPos));
    CharHeadAt(b, o, c.utf8, |c.readings|);
    ReadingsRoundTrip(b, o + |c.utf8| + 2, c.readings, hasPos);
  }

  lemma {:induction false} Enc16sAt(b: seq<Byte>, o: nat, ns: seq<nat>, i: nat)
    requires (forall k :: 0 <= k < |ns| ==> ns[k] < 0x1_0000) && i < |ns| && At(b, o, Enc16s(ns))
    ensures o + 2 * i + 2 <= |b| && Load16(b, o + 2 * i) == ns[i]
  {
    var n := |ns| - 1;
    AtSplit(b, o, Enc16s(ns[..n]), Enc16(ns[n]));
    if i < n { Enc16sAt(b, o, ns[..n], i); } else { Load16At(b, o + 2 * n, ns[n]); }
  }

  lemma {:induction false} Enc32sAt(b: seq<Byte>, o: nat, ns: seq<nat>, i: nat)
    requires (forall k :: 0 <= k < |ns| ==> ns[k] < 0x1_0000_0000) && i < |ns| && At(b, o, Enc32s(ns))
    ensures o + 4 * i + 4 <= |b| && Load32(b, o + 4 * i) == ns[i]
  {
    var n := |ns| - 1;
    AtSplit(b, o, Enc32s(ns[..n]), Enc32(ns[n]));
    if i < n { Enc32sAt(b, o, ns[..n], i); } else { Load32At(b, o + 4 * n, ns[n]); }
  }

  lemma {:induction false} WordRoundTrip(b: seq<Byte>, o: nat, w: Word)
    requires WordFits(w) && At(b, o, EncWord(w))
    ensures ReadWord(b, o) == Some(Parsed(Stored(w), o + |EncWord(w)|))
  {
    var n, has := |w.charIds|, HasOverrides(w);
    var tail := if has then w.readingIdxs else [];
    var p1: seq<Byte> := [n, if has then 1 else 0];
    var p2 := p1 + Enc16(Min(w.freq, 0xFFFF));
    var p3 := p2 + Enc16s(w.charIds);
    AtSplit(b, o, p3, tail);
    AtSplit(b, o, p2, Enc16s(w.charIds));
    AtSplit(b, o, p1, Enc16(Min(w.freq, 0xFFFF)));
    assert b[o + 0] == p1[0] && b[o + 1] == p1[1];
    Load16At(b, o + 2, Min(w.freq, 0xFFFF));
    forall i | 0 <= i < n ensures Load16(b, o + 4 + 2 * i) == w.charIds[i] {
      Enc16sAt(b, o + 4, w.charIds, i);
    }
    assert seq(n, i requires 0 <= i < n => Load16(b, o + 4 + 2 * i)) == w.charIds;
    AtSlice(b, o + |p3|, tail);
  }
}
