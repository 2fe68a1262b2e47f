/** The two readers of a v4 file: by header and offset arrays, as the firmware does, and front to
    back, as the checker script does. Both give back what the compiler wrote. */
module V4Readers {
  import opened Basics
  import opened Bytes
  import opened Composition
  import opened WordIndex
  import opened IndexedSearch
  import opened V4Blob
  import opened V4File

  datatype Header = Header(
    hasPos: bool, charCount: nat, wordCount: nat, charOff: nat, wordOff: nat, firstOff: nat, keyOff: nat,
    charOffsOff: nat, wordOffsOff: nat, prefixOff: nat, prefixCount: nat, groups: seq<Group>)

  // ---------------------------------------------------------------- the header

  predicate HeaderOk(b: seq<Byte>) {
    && |b| >= MIN_HEADER
    && b[..4] == MAGIC && Load16(b, 4) == VERSION
    && Load32(b, 0x10) < |b| && Load32(b, 0x14) < |b| && Load32(b, 0x18) < |b| && Load32(b, 0x1C) < |b|
    && Load32(b, 0x24) < |b| && Load32(b, 0x28) < |b|
    && Load32(b, 0x14) + 8 * MAX_GROUP <= |b|
  }

  /** The prefix table is used only if it lies inside the buffer. */
  function PrefixCount(b: seq<Byte>, off: nat): nat {
    if off != 0 && off + 4 <= |b| && off + 4 + 8 * Load32(b, off) <= |b| then Load32(b, off) else 0
  }

  function HeaderOf(b: seq<Byte>): Header
    requires HeaderOk(b)
  {
    Header(Load16(b, 6) % 2 != 0, Load32(b, 8), Load32(b, 12), Load32(b, 0x10), Load32(b, 0x14), Load32(b, 0x18),
           Load32(b, 0x1C), Load32(b, 0x24), Load32(b, 0x28), Load32(b, 0x2C), PrefixCount(b, Load32(b, 0x2C)),
           GroupsAt(b, Load32(b, 0x14)))
  }

  function GroupsAt(b: seq<Byte>, o: nat): (g: seq<Group>)
    requires o + 8 * MAX_GROUP <= |b|
    ensures |g| == MAX_GROUP
  {
    seq(MAX_GROUP, g requires 0 <= g < MAX_GROUP => Group(Load32(b, o + 8 * g), Load32(b, o + 8 * g + 4)))
  }

  method ParseHeader(b: seq<Byte>) returns (r: Option<Header>)
    ensures r == if HeaderOk(b) then Some(HeaderOf(b)) else None
  {
    if |b| < MIN_HEADER || b[..4] != MAGIC { return None; }
    if Load16(b, 4) != VERSION { return None; }
    var charOff, wordOff, firstOff, keyOff := Load32(b, 0x10), Load32(b, 0x14), Load32(b, 0x18), Load32(b, 0x1C);
    var charOffsOff, wordOffsOff, prefixOff := Load32(b, 0x24), Load32(b, 0x28), Load32(b, 0x2C);
    if charOff >= |b| || wordOff >= |b| || firstOff >= |b| || keyOff >= |b| || charOffsOff >= |b| || wordOffsOff >= |b| {
      return None;
    }
    if wordOff + 8 * MAX_GROUP > |b| { return None; }   // the original would read past the buffer
    var prefixCount := 0;
    if prefixOff != 0 && prefixOff + 4 <= |b| {
      var cnt: nat := Load32(b, prefixOff);
      if prefixOff + 4 + 8 * cnt <= |b| { prefixCount := cnt; }
    }
    var groups: seq<Group> := [];
    for g := 0 to MAX_GROUP
      invariant groups == GroupsAt(b, wordOff)[..g]
    {
      assert GroupsAt(b, wordOff)[..g + 1] == GroupsAt(b, wordOff)[..g] + [GroupsAt(b, wordOff)[g]];
      groups := groups + [Group(Load32(b, wordOff + 8 * g), Load32(b, wordOff + 8 * g + 4))];
    }
    assert groups == GroupsAt(b, wordOff);
    r := Some(Header(Load16(b, 6) % 2 != 0, Load32(b, 8), Load32(b, 12), charOff, wordOff, firstOff, keyOff,
                     charOffsOff, wordOffsOff, prefixOff, prefixCount, groups));
  }

  // ---------------------------------------------------------------- offset-based access

  /** Where the record of a character is. */
  function CharAt(b: seq<Byte>, h: Header, cid: nat): Option<Parsed<CharEntry>> {
    var slot := h.charOffsOff + 4 * cid;
    if slot + 4 > |b| then None else ReadChar(b, h.charOff + Load32(b, slot), h.hasPos)
  }

  function WordAt(b: seq<Byte>, h: Header, wid: nat): Option<Parsed<WordView>> {
    var slot := h.wordOffsOff + 4 * wid;
    if slot + 4 > |b| then None else ReadWord(b, h.wordOff + Load32(b, slot))
  }

  lemma {:induction false} ReadingsPrefix(b: seq<Byte>, o: nat, n: nat, m: nat, hasPos: bool)
    requires m < n && ReadReadings(b, o, n, hasPos).Some?
    ensures var all := ReadReadings(b, o, n, hasPos).value.value;
      && |all| == n && ReadReadings(b, o, m, hasPos).Some?
      && var one := ReadReading(b, ReadReadings(b, o, m, hasPos).value.next, hasPos);
         one.Some? && all[m] == one.value.value
         && ReadReadings(b, o, m + 1, hasPos).Some? && ReadReadings(b, o, m + 1, hasPos).value.next == one.value.next
    decreases n
  {
    ReadingsLength(b, o, n - 1, hasPos);
    if m < n - 1 { ReadingsPrefix(b, o, n - 1, m, hasPos); }
  }

  lemma {:induction false} ReadingsLength(b: seq<Byte>, o: nat, n: nat, hasPos: bool)
    requires ReadReadings(b, o, n, hasPos).Some?
    ensures |ReadReadings(b, o, n, hasPos).value.value| == n
  {
    if n > 0 { ReadingsLength(b, o, n - 1, hasPos); }
  }

  datatype ReadingView = ReadingView(keys: seq<Byte>, tone: Byte, posPacked: Byte)

  /** The reading record at `p`, and where the next one starts. */
  method StepReading(b: seq<Byte>, p: nat, hasPos: bool) returns (view: ReadingView, next: nat)
    requires ReadReading(b, p, hasPos).Some?
    ensures var r := ReadReading(b, p, hasPos).value;
      view == ReadingView(r.value.keys, r.value.tone, r.value.posPacked) && next == r.next
  {
    var klen := b[p];
    var kbytes := b[p + 1..p + 1 + klen];
    next := p + 1 + klen;
    var posPacked := 0;
    if hasPos {
      posPacked := b[next];
      next := next + 1;
    }
    view := ReadingView(kbytes, b[next], posPacked);
    next := next + 3;
  }

  /** Walk the reading records from `start` up to the one asked for. */
  method WalkReadings(b: seq<Byte>, start: nat, ridx: nat, hasPos: bool, ghost rs: seq<Reading>) returns (view: ReadingView)
    requires ridx < |rs| && ReadReadings(b, start, |rs|, hasPos).Some? && ReadReadings(b, start, |rs|, hasPos).value.value == rs
    ensures view == ReadingView(rs[ridx].keys, rs[ridx].tone, rs[ridx].posPacked)
  {
    var p := start;
    for r := 0 to ridx
      invariant ReadReadings(b, start, r, hasPos).Some? && p == ReadReadings(b, start, r, hasPos).value.next
    {
      ReadingsPrefix(b, start, |rs|, r, hasPos);
      view, p := StepReading(b, p, hasPos);
    }
    ReadingsPrefix(b, start, |rs|, ridx, hasPos);
    view, p := StepReading(b, p, hasPos);
  }

  /** Find a character's reading; None when there is no such reading. */
  method GetReading(b: seq<Byte>, h: Header, cid: nat, ridx: nat) returns (view: Option<ReadingView>)
    requires CharAt(b, h, cid).Some?
    ensures var rs := CharAt(b, h, cid).value.value.readings;
      view == if ridx < |rs| then Some(ReadingView(rs[ridx].keys, rs[ridx].tone, rs[ridx].posPacked)) else None
  {
    var p := h.charOff + Load32(b, h.charOffsOff + 4 * cid);
    p := p + 1 + b[p];
    var rcount := b[p];
    ReadingsLength(b, p + 1, rcount, h.hasPos);
    if ridx >= rcount { return None; }
    var found := WalkReadings(b, p + 1, ridx, h.hasPos, ReadReadings(b, p + 1, rcount, h.hasPos).value.value);
    view := Some(found);
  }

  // ---------------------------------------------------------------- the offset-based reader serves the tables

  /** Every access of the firmware's reader returns what the image holds. */
  ghost predicate Serves(b: seq<Byte>, h: Header, image: Image) {
    && h.charCount == |image.table.chars| && h.wordCount == |image.words|
    && h.hasPos == image.table.hasPos && h.groups == image.groups
    && ServesChars(b, h, image.table.chars) && ServesWords(b, h, image.words)
    && Holds32(b, h.keyOff, image.keyOffsets) && Holds16(b, h.keyOff + 4 * |image.keyOffsets|, image.keyCids)
    && Holds32(b, h.firstOff, image.firstOffsets) && Holds32(b, h.firstOff + 4 * |image.firstOffsets|, image.firstWids)
  }

  ghost predicate ServesChars(b: seq<Byte>, h: Header, chars: seq<CharEntry>) {
    forall cid :: 0 <= cid < |chars| ==> CharAt(b, h, cid).Some? && CharAt(b, h, cid).value.value == chars[cid]
  }

  ghost predicate ServesWords(b: seq<Byte>, h: Header, words: seq<WordView>) {
    forall wid :: 0 <= wid < |words| ==> WordAt(b, h, wid).Some? && WordAt(b, h, wid).value.value == words[wid]
  }

  ghost predicate Holds32(b: seq<Byte>, o: nat, ns: seq<nat>) {
    forall i :: 0 <= i < |ns| ==> o + 4 * i + 4 <= |b| && Load32(b, o + 4 * i) == ns[i]
  }

  ghost predicate Holds16(b: seq<Byte>, o: nat, ns: seq<nat>) {
    forall i :: 0 <= i < |ns| ==> o + 2 * i + 2 <= |b| && Load16(b, o + 2 * i) == ns[i]
  }

  function ImageOf(p: Parts): Image {
    Image(CharTable(StoredChars(p.chars), true), StoredWords(p.flat),
          p.groups, p.keyOffsets, p.keyCids, p.firstOffsets, p.firstWids)
  }

  lemma {:induction false} Enc32sHeld(b: seq<Byte>, o: nat, ns: seq<nat>)
    requires Below(ns, 0x1_0000_0000) && At(b, o, Enc32s(ns))
    ensures Holds32(b, o, ns)
  {
    forall i | 0 <= i < |ns| ensures o + 4 * i + 4 <= |b| && Load32(b, o + 4 * i) == ns[i] {
      Enc32sAt(b, o, ns, i);
    }
  }

  lemma {:induction false} Enc16sHeld(b: seq<Byte>, o: nat, ns: seq<nat>)
    requires Below(ns, 0x1_0000) && At(b, o, Enc16s(ns))
    ensures Holds16(b, o, ns)
  {
    forall i | 0 <= i < |ns| ensures o + 2 * i + 2 <= |b| && Load16(b, o + 2 * i) == ns[i] {
      Enc16sAt(b, o, ns, i);
    }
  }

  /** A record of a list laid out back to back stands at its offset. */
  lemma {:induction false} RecordAt(b: seq<Byte>, o: nat, records: seq<seq<Byte>>, i: nat)
    requires i < |records| && At(b, o, Flatten(records))
    ensures At(b, o + Offset(records, i), records[i])
  {
    FlattenSlice(records, i);
    var s := Offset(records, i);
    forall k | 0 <= k < |records[i]| ensures b[o + s + k] == records[i][k] {
      assert records[i][k] == Flatten(records)[s..Offset(records, i + 1)][k] == Flatten(records)[s + k];
      assert b[o + (s + k)] == Flatten(records)[s + k];
    }
  }

  lemma {:induction false} GroupsHeld(b: seq<Byte>, o: nat, groups: seq<Group>, g: nat)
    requires GroupsFit(groups) && At(b, o, EncGroups(groups)) && g < |groups|
    ensures o + 8 * g + 8 <= |b|
    ensures Load32(b, o + 8 * g) == groups[g].count && Load32(b, o + 8 * g + 4) == groups[g].start
  {
    var n := |groups| - 1;
    AtSplit(b, o, EncGroups(groups[..n]), Enc32(groups[n].count) + Enc32(groups[n].start));
    if g < n {
      GroupsHeld(b, o, groups[..n], g);
    } else {
      AtSplit(b, o + 8 * n, Enc32(groups[n].count), Enc32(groups[n].start));
      Load32At(b, o + 8 * n, groups[n].count);
      Load32At(b, o + 8 * n + 4, groups[n].start);
    }
  }

  // ---------------------------------------------------------------- a written file, read by offsets

  lemma {:induction false} GroupsServed(f: seq<Byte>, p: Parts, l: Layout)
    requires FileFits(p) && Stands(f, p, l)
    ensures l.words + 8 * MAX_GROUP <= |f| && GroupsAt(f, l.words) == p.groups
  {
    AtSplit(f, l.words, EncGroups(p.groups), Flatten(EncWords(p.flat)));
    forall g | 0 <= g < MAX_GROUP ensures GroupsAt(f, l.words)[g] == p.groups[g] {
      GroupsHeld(f, l.words, p.groups, g);
    }
  }

  lemma {:induction false} PrefixServed(f: seq<Byte>, p: Parts, l: Layout)
    requires FileFits(p) && Stands(f, p, l) && l.prefix > 0
    ensures PrefixCount(f, l.prefix) == |p.prefixes|
  {
    AtSplit(f, l.prefix, Enc32(|p.prefixes|), Enc64s(p.prefixes));
    Load32At(f, l.prefix, |p.prefixes|);
  }

  lemma {:induction false} Enc64sAt(b: seq<Byte>, o: nat, ns: seq<nat>, i: nat)
    requires Below(ns, 0x100_0000_0000) && i < |ns| && At(b, o, Enc64s(ns))
    ensures o + 8 * i + 8 <= |b| && Load32(b, o + 8 * i) + 0x1_0000_0000 * Load32(b, o + 8 * i + 4) == ns[i]
  {
    var n := |ns| - 1;
    var lo, hi := Enc32(ns[n] % 0x1_0000_0000), Enc32(ns[n] / 0x1_0000_0000);
    AtSplit(b, o, Enc64s(ns[..n]), lo + hi);
    if i < n {
      Enc64sAt(b, o, ns[..n], i);
    } else {
      AtSplit(b, o + 8 * n, lo, hi);
      Load32At(b, o + 8 * n, ns[n] % 0x1_0000_0000);
      Load32At(b, o + 8 * n + 4, ns[n] / 0x1_0000_0000);
    }
  }

  /** The syllable-prefix table, read where the header says, entry by entry. */
  lemma {:induction false} PrefixesServe(p: Parts, i: nat)
    requires FileFits(p) && HeaderOk(File(p)) && i < |p.prefixes|
    ensures var f, h := File(p), HeaderOf(File(p));
      && h.prefixCount == |p.prefixes| && h.prefixOff + 4 + 8 * i + 8 <= |f|
      && Load32(f, h.prefixOff + 4 + 8 * i) + 0x1_0000_0000 * Load32(f, h.prefixOff + 4 + 8 * i + 4) == p.prefixes[i]
  {
    hide File;
    HeaderRoundTrip(p);
    SectionsStand(p);
    AtSplit(File(p), LayoutOf(p).prefix, Enc32(|p.prefixes|), Enc64s(p.prefixes));
    Enc64sAt(File(p), LayoutOf(p).prefix + 4, p.prefixes, i);
  }

  lemma {:induction false} HeaderFields(f: seq<Byte>, ns: seq<nat>)
    requires |ns| == 14 && Below(ns, 0x1_0000_0000)
    requires At(f, 0, MAGIC + Enc16(VERSION) + Enc16(1) + Enc32s(ns))
    ensures |f| >= HEADER_SIZE && f[..4] == MAGIC && Load16(f, 4) == VERSION && Load16(f, 6) == 1
    ensures forall i :: 0 <= i < 14 ==> Load32(f, 8 + 4 * i) == ns[i]
  {
    AtSplit(f, 0, MAGIC + Enc16(VERSION) + Enc16(1), Enc32s(ns));
    AtSplit(f, 0, MAGIC + Enc16(VERSION), Enc16(1));
    AtSplit(f, 0, MAGIC, Enc16(VERSION));
    AtSlice(f, 0, MAGIC);
    Load16At(f, 4, VERSION);
    Load16At(f, 6, 1);
    Enc32sHeld(f, 8, ns);
  }

  /** The header a file of this layout is expected to decode to. */
  function HeaderFor(p: Parts, l: Layout): Header {
    Header(true, |p.chars|, |p.flat|, l.chars, l.words, l.first, l.key, l.charOffs, l.wordOffs,
           l.prefix, |p.prefixes|, p.groups)
  }

  lemma {:induction false} HeaderServed(f: seq<Byte>, p: Parts, l: Layout, ns: seq<nat>)
    requires FileFits(p) && Stands(f, p, l) && l.prefix > 0
    requires |ns| == 14 && Below(ns, 0x1_0000_0000)
    requires At(f, 0, MAGIC + Enc16(VERSION) + Enc16(1) + Enc32s(ns))
    requires ns[0] == |p.chars| && ns[1] == |p.flat|
    requires ns[2] == l.chars < |f| && ns[3] == l.words < |f| && ns[4] == l.first < |f| && ns[5] == l.key < |f|
    requires ns[7] == l.charOffs < |f| && ns[8] == l.wordOffs < |f| && ns[9] == l.prefix
    ensures HeaderOk(f) && HeaderOf(f) == HeaderFor(p, l)
  {
    HeaderFields(f, ns);
    GroupsServed(f, p, l);
    PrefixServed(f, p, l);
    assert Load32(f, 8 + 4 * 0) == ns[0] && Load32(f, 8 + 4 * 1) == ns[1];
    assert Load32(f, 8 + 4 * 2) == ns[2] && Load32(f, 8 + 4 * 3) == ns[3];
    assert Load32(f, 8 + 4 * 4) == ns[4] && Load32(f, 8 + 4 * 5) == ns[5];
    assert Load32(f, 8 + 4 * 7) == ns[7] && Load32(f, 8 + 4 * 8) == ns[8] && Load32(f, 8 + 4 * 9) == ns[9];
  }

  /** The header of a written file is accepted and names the sections. */
  lemma {:induction false} HeaderRoundTrip(p: Parts)
    requires FileFits(p)
    ensures HeaderOk(File(p)) && HeaderOf(File(p)) == HeaderFor(p, LayoutOf(p))
  {
    hide File, CharSection, WordSection, FirstSection, KeySection;
    SectionsStand(p);
    HeaderNumbersFit(p);
    HeaderServed(File(p), p, LayoutOf(p), HeaderNumbers(p));
  }

  /** The offset array leads to each record. */
  lemma {:induction false} RecordFound(f: seq<Byte>, base: nat, shift: nat, offsAt: nat, offsets: seq<nat>,
                                       records: seq<seq<Byte>>, i: nat)
    requires i < |records| && |offsets| == |records| + 1 && Below(offsets, 0x1_0000_0000)
    requires forall j :: 0 <= j <= |records| ==> offsets[j] == shift + Offset(records, j)
    requires At(f, offsAt, Enc32s(offsets)) && At(f, base + shift, Flatten(records))
    ensures offsAt + 4 * i + 4 <= |f| && Load32(f, offsAt + 4 * i) == offsets[i]
    ensures At(f, base + offsets[i], records[i]) && offsets[i + 1] == offsets[i] + |records[i]|
  {
    Enc32sAt(f, offsAt, offsets, i);
    RecordAt(f, base + shift, records, i);
    FlattenSlice(records, i);
  }

  lemma {:induction false} CharServed(f: seq<Byte>, p: Parts, l: Layout, cid: nat)
    requires FileFits(p) && Stands(f, p, l) && cid < |p.chars|
    ensures CharAt(f, HeaderFor(p, l), cid)
      == Some(Parsed(KeptChar(p.chars[cid], true), l.chars + CharOffsets(p)[cid + 1]))
  {
    CharRecordAt(f, p, l, cid);
    assert p.chars[cid] in p.chars;
    CharRoundTrip(f, l.chars + CharOffsets(p)[cid], p.chars[cid], true);
  }

  lemma {:induction false} CharRecordAt(f: seq<Byte>, p: Parts, l: Layout, cid: nat)
    requires FileFits(p) && Stands(f, p, l) && cid < |p.chars|
    ensures l.charOffs + 4 * cid + 4 <= |f| && Load32(f, l.charOffs + 4 * cid) == CharOffsets(p)[cid]
    ensures p.chars[cid] in p.chars && At(f, l.chars + CharOffsets(p)[cid], EncChar(p.chars[cid], true))
    ensures CharOffsets(p)[cid + 1] == CharOffsets(p)[cid] + |EncChar(p.chars[cid], true)|
  {
    hide EncChar;
    RecordFound(f, l.chars, 0, l.charOffs, CharOffsets(p), EncChars(p.chars, true), cid);
  }

  lemma {:induction false} WordAtIs(b: seq<Byte>, h: Header, wid: nat, offset: nat, r: Option<Parsed<WordView>>)
    requires h.wordOffsOff + 4 * wid + 4 <= |b| && Load32(b, h.wordOffsOff + 4 * wid) == offset
    requires ReadWord(b, h.wordOff + offset) == r
    ensures WordAt(b, h, wid) == r
  {
  }

  lemma {:induction false} WordServed(f: seq<Byte>, p: Parts, l: Layout, wid: nat)
    requires FileFits(p) && Stands(f, p, l) && wid < |p.flat|
    ensures WordAt(f, HeaderFor(p, l), wid) == Some(Parsed(Stored(p.flat[wid]), l.words + WordOffsets(p)[wid + 1]))
  {
    hide ReadWord, EncWord, Stored;
    WordRecordAt(f, p, l, wid);
    WordRoundTrip(f, l.words + WordOffsets(p)[wid], p.flat[wid]);
    WordAtIs(f, HeaderFor(p, l), wid, WordOffsets(p)[wid], ReadWord(f, l.words + WordOffsets(p)[wid]));
  }

  lemma {:induction false} WordRecordAt(f: seq<Byte>, p: Parts, l: Layout, wid: nat)
    requires FileFits(p) && Stands(f, p, l) && wid < |p.flat|
    ensures l.wordOffs + 4 * wid + 4 <= |f| && Load32(f, l.wordOffs + 4 * wid) == WordOffsets(p)[wid]
    ensures p.flat[wid] in p.flat && At(f, l.words + WordOffsets(p)[wid], EncWord(p.flat[wid]))
    ensures WordOffsets(p)[wid + 1] == WordOffsets(p)[wid] + |EncWord(p.flat[wid])|
  {
    AtSplit(f, l.words, EncGroups(p.groups), Flatten(EncWords(p.flat)));
    RecordFound(f, l.words, 8 * MAX_GROUP, l.wordOffs, WordOffsets(p), EncWords(p.flat), wid);
  }

  lemma {:induction false} KeptIsStored(chars: seq<CharEntry>, cid: nat)
    requires cid < |chars|
    ensures KeptChar(chars[cid], true) == StoredChars(chars)[cid]
  {
    assert KeptAll(chars[cid].readings, true) == StoredChars(chars)[cid].readings;
  }

  /** Offsets, then data, as both inverted indexes are stored. */
  lemma {:induction false} KeyIndexServed(f: seq<Byte>, o: nat, offsets: seq<nat>, data: seq<nat>)
    requires Below(offsets, 0x1_0000_0000) && Below(data, 0x1_0000) && At(f, o, Enc32s(offsets) + Enc16s(data))
    ensures At(f, o, Enc32s(offsets)) && At(f, o + 4 * |offsets|, Enc16s(data))
    ensures Holds32(f, o, offsets) && Holds16(f, o + 4 * |offsets|, data)
  {
    AtSplit(f, o, Enc32s(offsets), Enc16s(data));
    Enc32sHeld(f, o, offsets);
    Enc16sHeld(f, o + 4 * |offsets|, data);
  }

  lemma {:induction false} FirstIndexServed(f: seq<Byte>, o: nat, offsets: seq<nat>, data: seq<nat>)
    requires Below(offsets, 0x1_0000_0000) && Below(data, 0x1_0000_0000) && At(f, o, Enc32s(offsets) + Enc32s(data))
    ensures At(f, o, Enc32s(offsets)) && At(f, o + 4 * |offsets|, Enc32s(data))
    ensures Holds32(f, o, offsets) && Holds32(f, o + 4 * |offsets|, data)
  {
    AtSplit(f, o, Enc32s(offsets), Enc32s(data));
    Enc32sHeld(f, o, offsets);
    Enc32sHeld(f, o + 4 * |offsets|, data);
  }

  lemma {:induction false} CharsServed(f: seq<Byte>, p: Parts, l: Layout)
    requires FileFits(p) && Stands(f, p, l)
    ensures ServesChars(f, HeaderFor(p, l), StoredChars(p.chars))
  {
    forall cid | 0 <= cid < |p.chars|
      ensures CharAt(f, HeaderFor(p, l), cid).Some? && CharAt(f, HeaderFor(p, l), cid).value.value == StoredChars(p.chars)[cid]
    {
      CharServed(f, p, l, cid);
      KeptIsStored(p.chars, cid);
    }
  }

  lemma {:induction false} WordsServed(f: seq<Byte>, p: Parts, l: Layout)
    requires FileFits(p) && Stands(f, p, l)
    ensures ServesWords(f, HeaderFor(p, l), StoredWords(p.flat))
  {
    forall wid | 0 <= wid < |p.flat|
      ensures WordAt(f, HeaderFor(p, l), wid).Some? && WordAt(f, HeaderFor(p, l), wid).value.value == StoredWords(p.flat)[wid]
    {
      WordServed(f, p, l, wid);
    }
  }

  lemma {:induction false} LayoutServes(f: seq<Byte>, p: Parts, l: Layout)
    requires FileFits(p) && Stands(f, p, l)
    ensures Serves(f, HeaderFor(p, l), ImageOf(p))
  {
    CharsServed(f, p, l);
    WordsServed(f, p, l);
    KeyIndexServed(f, l.key, p.keyOffsets, p.keyCids);
    FirstIndexServed(f, l.first, p.firstOffsets, p.firstWids);
  }

  /** Through the header and the offset arrays, the firmware's reader gets back every character,
      reading and word, and both indexes: the image the search is proved about. */
  lemma {:induction false} FileServesImage(p: Parts)
    requires FileFits(p)
    ensures HeaderOk(File(p)) && Serves(File(p), HeaderOf(File(p)), ImageOf(p))
  {
    HeaderRoundTrip(p);
    SectionsStand(p);
    LayoutServes(File(p), p, LayoutOf(p));
  }

  // ---------------------------------------------------------------- front to back

  /** What the checker script returns: the tables, and each index as its list per character or key. */
  datatype Dump = Dump(hasPos: bool, chars: seq<CharEntry>, groups: seq<Group>, words: seq<Word>,
                       firstLists: seq<seq<nat>>, keyLists: seq<seq<nat>>)

  /** `n` records, one after the other. */
  function Many<T>(read: nat -> Option<Parsed<T>>, o: nat, n: nat): Option<Parsed<seq<T>>> {
    if n == 0 then Some(Parsed([], o))
    else
      match Many(read, o, n - 1)
      case None => None
      case Some(rest) =>
        match read(rest.next)
        case None => None
        case Some(one) => Some(Parsed(rest.value + [one.value], one.next))
  }

  ghost predicate Progress<T>(read: nat -> Option<Parsed<T>>, o: nat, n: nat, values: seq<T>, next: nat) {
    Many(read, o, n) == Some(Parsed(values, next))
  }

  lemma {:induction false} ManyStep<T>(read: nat -> Option<Parsed<T>>, o: nat, n: nat, values: seq<T>, next: nat)
    requires Progress(read, o, n, values, next)
    ensures read(next).None? ==> Many(read, o, n + 1).None?
    ensures read(next).Some? ==> Progress(read, o, n + 1, values + [read(next).value.value], read(next).value.next)
  {
  }

  lemma {:induction false} ManyFails<T>(read: nat -> Option<Parsed<T>>, o: nat, m: nat, n: nat)
    requires m <= n && Many(read, o, m).None?
    ensures Many(read, o, n).None?
    decreases n
  {
    if m < n { ManyFails(read, o, m, n - 1); }
  }

  predicate RunsAt<T(==)>(read: nat -> Option<Parsed<T>>, base: nat, offsets: seq<nat>, values: seq<T>, i: nat)
    requires |offsets| == |values| + 1 && i < |values|
  {
    read(base + offsets[i]) == Some(Parsed(values[i], base + offsets[i + 1]))
  }

  /** The records of `values` stand at consecutive offsets. */
  predicate Run<T(==)>(read: nat -> Option<Parsed<T>>, base: nat, offsets: seq<nat>, values: seq<T>) {
    |offsets| == |values| + 1 && forall i :: 0 <= i < |values| ==> RunsAt(read, base, offsets, values, i)
  }

  /** Records that stand at consecutive offsets are read one after the other. */
  lemma {:induction false} ManyReadsAll<T>(read: nat -> Option<Parsed<T>>, base: nat, offsets: seq<nat>, values: seq<T>, n: nat)
    requires Run(read, base, offsets, values) && n <= |values|
    ensures Many(read, base + offsets[0], n) == Some(Parsed(values[..n], base + offsets[n]))
  {
    if n > 0 {
      ManyReadsAll(read, base, offsets, values, n - 1);
      assert RunsAt(read, base, offsets, values, n - 1);
      assert values[..n] == values[..n - 1] + [values[n - 1]];
    }
  }

  function CharReader(b: seq<Byte>, hasPos: bool): nat -> Option<Parsed<CharEntry>> {
    (o: nat) => ReadChar(b, o, hasPos)
  }

  /** The script fills omitted reading indices with zeros. */
  function Filled(w: WordView): Word {
    Word(w.charIds, if w.readingIdxs.Some? then w.readingIdxs.value else seq(|w.charIds|, _ => 0), w.freq)
  }

  function WordReader(b: seq<Byte>): nat -> Option<Parsed<Word>> {
    (o: nat) =>
      match ReadWord(b, o)
      case None => None
      case Some(w) => Some(Parsed(Filled(w.value), w.next))
  }

  function TotalCount(groups: seq<Group>): nat {
    if |groups| == 0 then 0 else TotalCount(groups[..|groups| - 1]) + groups[|groups| - 1].count
  }

  function Numbers32(b: seq<Byte>, o: nat, n: nat): (r: Option<seq<nat>>)
    ensures r.Some? ==> |r.value| == n
  {
    if o + 4 * n <= |b| then Some(seq(n, i requires 0 <= i < n => Load32(b, o + 4 * i))) else None
  }

  function Numbers16(b: seq<Byte>, o: nat, n: nat): (r: Option<seq<nat>>)
    ensures r.Some? ==> |r.value| == n
  {
    if o + 2 * n <= |b| then Some(seq(n, i requires 0 <= i < n => Load16(b, o + 2 * i))) else None
  }

  /** Python slicing: out-of-range bounds are clamped. */
  function PySlice(data: seq<nat>, s: nat, e: nat): seq<nat> {
    var hi := Min(e, |data|);
    if s < hi then data[s..hi] else []
  }

  function Slices(offsets: seq<nat>, data: seq<nat>): seq<seq<nat>>
    requires |offsets| > 0
  {
    seq(|offsets| - 1, i requires 0 <= i < |offsets| - 1 => PySlice(data, offsets[i], offsets[i + 1]))
  }

  /** Read `count` more records, each starting where the one before ended. */
  method ReadRecords<T>(read: nat -> Option<Parsed<T>>, o: nat, count: nat, values: seq<T>,
                        ghost off: nat, ghost before: nat, ghost total: nat) returns (r: Option<Parsed<seq<T>>>)
    requires Progress(read, off, before, values, o) && before + count <= total
    ensures r.None? ==> Many(read, off, total).None?
    ensures r.Some? ==> Progress(read, off, before + count, r.value.value, r.value.next)
  {
    var all, p := values, o;
    for n := 0 to count
      invariant Progress(read, off, before + n, all, p)
    {
      var one := read(p);
      ManyStep(read, off, before + n, all, p);
      if one.None? {
        ManyFails(read, off, before + n + 1, total);
        return None;
      }
      all, p := all + [one.value.value], one.value.next;
    }
    r := Some(Parsed(all, p));
  }

  /** The records of every group in turn. */
  method ReadWordTable(b: seq<Byte>, off: nat, groups: seq<Group>) returns (r: Option<seq<Word>>)
    ensures r == match Many(WordReader(b), off, TotalCount(groups)) case None => None case Some(p) => Some(p.value)
  {
    var words: seq<Word> := [];
    var o := off;
    var read := WordReader(b);
    for g := 0 to |groups|
      invariant Progress(read, off, TotalCount(groups[..g]), words, o)
    {
      assert groups[..g + 1][..g] == groups[..g];
      TotalCountGrows(groups, g + 1);
      var more := ReadRecords(read, o, groups[g].count, words, off, TotalCount(groups[..g]), TotalCount(groups));
      if more.None? { return None; }
      words, o := more.value.value, more.value.next;
    }
    assert groups[..|groups|] == groups;
    r := Some(words);
  }

  method ReadIndexes(b: seq<Byte>, firstOff: nat, nFirst: nat, keyOff: nat)
    returns (r: Option<(seq<seq<nat>>, seq<seq<nat>>)>)
    requires nFirst > 0
    ensures r == IndexDump(b, firstOff, nFirst, keyOff)
  {
    var firstOffsets := Numbers32(b, firstOff, nFirst);
    if firstOffsets.None? { return None; }
    var firstWids := Numbers32(b, firstOff + 4 * nFirst, firstOffsets.value[nFirst - 1]);
    if firstWids.None? { return None; }
    var keyOffsets := Numbers32(b, keyOff, KEY_SLOTS + 1);
    if keyOffsets.None? { return None; }
    var keyCids := Numbers16(b, keyOff + 4 * (KEY_SLOTS + 1), keyOffsets.value[KEY_SLOTS]);
    if keyCids.None? { return None; }
    r := Some((Slices(firstOffsets.value, firstWids.value), Slices(keyOffsets.value, keyCids.value)));
  }

  /** The checker's reader. None stands for the exceptions it raises. */
  method ReadV4(b: seq<Byte>) returns (r: Option<Dump>)
    ensures r == DumpOf(b)
  {
    if |b| < MIN_HEADER || b[..4] != MAGIC || Load16(b, 4) != VERSION { return None; }
    r := ReadSections(b, Load16(b, 6) % 2 != 0, Load32(b, 8), Load32(b, 12), Load32(b, 0x10), Load32(b, 0x14),
                      Load32(b, 0x18), Load32(b, 0x1C));
  }

  method ReadSections(b: seq<Byte>, hasPos: bool, charCount: nat, wordCount: nat, charOff: nat, wordOff: nat,
                      firstOff: nat, keyOff: nat) returns (r: Option<Dump>)
    ensures r == SectionsDump(b, hasPos, charCount, wordCount, charOff, wordOff, firstOff, keyOff)
  {
    var chars := ReadRecords(CharReader(b, hasPos), charOff, charCount, [], charOff, 0, charCount);
    if chars.None? || wordOff + 8 * MAX_GROUP > |b| { return None; }
    var groups := GroupsAt(b, wordOff);
    var words := ReadWordTable(b, wordOff + 8 * MAX_GROUP, groups);
    if words.None? || |words.value| != wordCount { return None; }
    var indexes := ReadIndexes(b, firstOff, charCount + 1, keyOff);
    if indexes.None? { return None; }
    r := Some(Dump(hasPos, chars.value.value, groups, words.value, indexes.value.0, indexes.value.1));
  }

  lemma {:induction false} TotalCountGrows(groups: seq<Group>, g: nat)
    requires g <= |groups|
    ensures TotalCount(groups[..g]) <= TotalCount(groups)
  {
    if g < |groups| {
      TotalCountGrows(groups[..|groups| - 1], g);
      assert groups[..|groups| - 1][..g] == groups[..g];
    } else {
      assert groups[..g] == groups;
    }
  }

  /** The same, as one expression. */
  function DumpOf(b: seq<Byte>): Option<Dump> {
    if |b| < MIN_HEADER || b[..4] != MAGIC || Load16(b, 4) != VERSION then None
    else SectionsDump(b, Load16(b, 6) % 2 != 0, Load32(b, 8), Load32(b, 12), Load32(b, 0x10), Load32(b, 0x14),
                      Load32(b, 0x18), Load32(b, 0x1C))
  }

  function SectionsDump(b: seq<Byte>, hasPos: bool, charCount: nat, wordCount: nat, charOff: nat, wordOff: nat,
                        firstOff: nat, keyOff: nat): Option<Dump> {
    var chars := Many(CharReader(b, hasPos), charOff, charCount);
    if chars.None? || wordOff + 8 * MAX_GROUP > |b| then None
    else
      var groups := GroupsAt(b, wordOff);
      var words := Many(WordReader(b), wordOff + 8 * MAX_GROUP, TotalCount(groups));
      if words.None? || |words.value.value| != wordCount then None
      else
        match IndexDump(b, firstOff, charCount + 1, keyOff)
        case None => None
        case Some((firsts, keys)) => Some(Dump(hasPos, chars.value.value, groups, words.value.value, firsts, keys))
  }

  function IndexDump(b: seq<Byte>, firstOff: nat, nFirst: nat, keyOff: nat): Option<(seq<seq<nat>>, seq<seq<nat>>)>
    requires nFirst > 0
  {
    match Numbers32(b, firstOff, nFirst)
    case None => None
    case Some(firstOffsets) =>
      match Numbers32(b, firstOff + 4 * nFirst, firstOffsets[nFirst - 1])
      case None => None
      case Some(firstWids) =>
        match Numbers32(b, keyOff, KEY_SLOTS + 1)
        case None => None
        case Some(keyOffsets) =>
          match Numbers16(b, keyOff + 4 * (KEY_SLOTS + 1), keyOffsets[KEY_SLOTS])
          case None => None
          case Some(keyCids) => Some((Slices(firstOffsets, firstWids), Slices(keyOffsets, keyCids)))
  }

  // ---------------------------------------------------------------- a written file, read front to back

  function FilledWords(flat: seq<Word>): (words: seq<Word>)
    ensures |words| == |flat|
  {
    seq(|flat|, i requires 0 <= i < |flat| => Filled(Stored(flat[i])))
  }

  lemma {:induction false} CharRead(f: seq<Byte>, p: Parts, l: Layout, cid: nat)
    requires FileFits(p) && Stands(f, p, l) && cid < |p.chars|
    ensures CharReader(f, true)(l.chars + CharOffsets(p)[cid])
      == Some(Parsed(StoredChars(p.chars)[cid], l.chars + CharOffsets(p)[cid + 1]))
  {
    CharRecordAt(f, p, l, cid);
    CharRoundTrip(f, l.chars + CharOffsets(p)[cid], p.chars[cid], true);
    KeptIsStored(p.chars, cid);
  }

  lemma {:induction false} CharsRun(f: seq<Byte>, p: Parts, l: Layout)
    requires FileFits(p) && Stands(f, p, l)
    ensures Run(CharReader(f, true), l.chars, CharOffsets(p), StoredChars(p.chars))
  {
    forall i | 0 <= i < |p.chars|
      ensures RunsAt(CharReader(f, true), l.chars, CharOffsets(p), StoredChars(p.chars), i)
    {
      CharRead(f, p, l, i);
    }
  }

  lemma {:induction false} FilledRead(b: seq<Byte>, o: nat, w: Word, next: nat)
    requires ReadWord(b, o) == Some(Parsed(Stored(w), next))
    ensures WordReader(b)(o) == Some(Parsed(Filled(Stored(w)), next))
  {
  }

  lemma {:induction false} WordRead(f: seq<Byte>, p: Parts, l: Layout, wid: nat)
    requires FileFits(p) && Stands(f, p, l) && wid < |p.flat|
    ensures WordReader(f)(l.words + WordOffsets(p)[wid])
      == Some(Parsed(FilledWords(p.flat)[wid], l.words + WordOffsets(p)[wid + 1]))
  {
    hide ReadWord, EncWord, Stored, Filled;
    WordRecordAt(f, p, l, wid);
    WordRoundTrip(f, l.words + WordOffsets(p)[wid], p.flat[wid]);
    FilledRead(f, l.words + WordOffsets(p)[wid], p.flat[wid], l.words + WordOffsets(p)[wid + 1]);
  }

  lemma {:induction false} WordsRun(f: seq<Byte>, p: Parts, l: Layout)
    requires FileFits(p) && Stands(f, p, l)
    ensures Run(WordReader(f), l.words, WordOffsets(p), FilledWords(p.flat))
  {
    forall i | 0 <= i < |p.flat| ensures RunsAt(WordReader(f), l.words, WordOffsets(p), FilledWords(p.flat), i) {
      WordRead(f, p, l, i);
    }
  }

  lemma {:induction false} TotalIsAll(words: seq<Word>, flat: seq<Word>, groups: seq<Group>, b: nat)
    requires Grouped(words, flat, groups) && b <= MAX_GROUP
    ensures TotalCount(groups[..b]) == Offset(GroupLists(words, MAX_GROUP), b)
  {
    if b > 0 {
      TotalIsAll(words, flat, groups, b - 1);
      assert groups[..b][..b - 1] == groups[..b - 1];
      OffsetStep(GroupLists(words, MAX_GROUP), b - 1);
    }
  }

  lemma {:induction false} Numbers32Read(b: seq<Byte>, o: nat, ns: seq<nat>)
    requires Below(ns, 0x1_0000_0000) && At(b, o, Enc32s(ns))
    ensures Numbers32(b, o, |ns|) == Some(ns)
  {
    Enc32sHeld(b, o, ns);
    assert Numbers32(b, o, |ns|).value == ns;
  }

  lemma {:induction false} Numbers16Read(b: seq<Byte>, o: nat, ns: seq<nat>)
    requires Below(ns, 0x1_0000) && At(b, o, Enc16s(ns))
    ensures Numbers16(b, o, |ns|) == Some(ns)
  {
    Enc16sHeld(b, o, ns);
    assert Numbers16(b, o, |ns|).value == ns;
  }

  /** Slicing packed lists by their offsets gives the lists back. */
  lemma {:induction false} SlicesUndoPacking(offsets: seq<nat>, data: seq<nat>, lists: seq<seq<nat>>)
    requires Packs(offsets, data, lists)
    ensures Slices(offsets, data) == lists
    ensures offsets[|offsets| - 1] == |data|
  {
    forall i | 0 <= i < |lists| ensures Slices(offsets, data)[i] == lists[i] {
      FlattenSlice(lists, i);
    }
    assert lists[..|lists|] == lists;
  }

  lemma {:induction false} IndexDumpIs(
    b: seq<Byte>, firstOff: nat, keyOff: nat, firstOffsets: seq<nat>, firstWids: seq<nat>,
    keyOffsets: seq<nat>, keyCids: seq<nat>, firsts: seq<seq<nat>>, keys: seq<seq<nat>>)
    requires Packs(firstOffsets, firstWids, firsts) && Packs(keyOffsets, keyCids, keys) && |keys| == KEY_SLOTS
    requires Numbers32(b, firstOff, |firstOffsets|) == Some(firstOffsets)
    requires Numbers32(b, firstOff + 4 * |firstOffsets|, |firstWids|) == Some(firstWids)
    requires Numbers32(b, keyOff, |keyOffsets|) == Some(keyOffsets)
    requires Numbers16(b, keyOff + 4 * |keyOffsets|, |keyCids|) == Some(keyCids)
    ensures IndexDump(b, firstOff, |firstOffsets|, keyOff) == Some((firsts, keys))
  {
    SlicesUndoPacking(firstOffsets, firstWids, firsts);
    SlicesUndoPacking(keyOffsets, keyCids, keys);
  }

  lemma {:induction false} FirstIndexRead(b: seq<Byte>, o: nat, offsets: seq<nat>, data: seq<nat>)
    requires Below(offsets, 0x1_0000_0000) && Below(data, 0x1_0000_0000) && At(b, o, Enc32s(offsets) + Enc32s(data))
    ensures Numbers32(b, o, |offsets|) == Some(offsets) && Numbers32(b, o + 4 * |offsets|, |data|) == Some(data)
  {
    FirstIndexServed(b, o, offsets, data);
    Numbers32Read(b, o, offsets);
    Numbers32Read(b, o + 4 * |offsets|, data);
  }

  lemma {:induction false} KeyIndexRead(b: seq<Byte>, o: nat, offsets: seq<nat>, data: seq<nat>)
    requires Below(offsets, 0x1_0000_0000) && Below(data, 0x1_0000) && At(b, o, Enc32s(offsets) + Enc16s(data))
    ensures Numbers32(b, o, |offsets|) == Some(offsets) && Numbers16(b, o + 4 * |offsets|, |data|) == Some(data)
  {
    KeyIndexServed(b, o, offsets, data);
    Numbers32Read(b, o, offsets);
    Numbers16Read(b, o + 4 * |offsets|, data);
  }

  lemma {:induction false} IndexesRead(
    b: seq<Byte>, firstOff: nat, keyOff: nat, firstOffsets: seq<nat>, firstWids: seq<nat>,
    keyOffsets: seq<nat>, keyCids: seq<nat>, firsts: seq<seq<nat>>, keys: seq<seq<nat>>)
    requires Below(firstOffsets, 0x1_0000_0000) && Below(firstWids, 0x1_0000_0000)
    requires Below(keyOffsets, 0x1_0000_0000) && Below(keyCids, 0x1_0000)
    requires At(b, firstOff, Enc32s(firstOffsets) + Enc32s(firstWids)) && At(b, keyOff, Enc32s(keyOffsets) + Enc16s(keyCids))
    requires Packs(firstOffsets, firstWids, firsts) && Packs(keyOffsets, keyCids, keys) && |keys| == KEY_SLOTS
    ensures IndexDump(b, firstOff, |firstOffsets|, keyOff) == Some((firsts, keys))
  {
    FirstIndexRead(b, firstOff, firstOffsets, firstWids);
    KeyIndexRead(b, keyOff, keyOffsets, keyCids);
    IndexDumpIs(b, firstOff, keyOff, firstOffsets, firstWids, keyOffsets, keyCids, firsts, keys);
  }

  lemma {:induction false} SectionsDumpIs(
    b: seq<Byte>, hasPos: bool, charOff: nat, wordOff: nat, firstOff: nat, keyOff: nat,
    chars: seq<CharEntry>, charOffsets: seq<nat>, groups: seq<Group>, words: seq<Word>, wordOffsets: seq<nat>,
    firsts: seq<seq<nat>>, keys: seq<seq<nat>>)
    requires Run(CharReader(b, hasPos), charOff, charOffsets, chars) && charOffsets[0] == 0
    requires wordOff + 8 * MAX_GROUP <= |b| && GroupsAt(b, wordOff) == groups && TotalCount(groups) == |words|
    requires Run(WordReader(b), wordOff, wordOffsets, words) && wordOffsets[0] == 8 * MAX_GROUP
    requires IndexDump(b, firstOff, |chars| + 1, keyOff) == Some((firsts, keys))
    ensures SectionsDump(b, hasPos, |chars|, |words|, charOff, wordOff, firstOff, keyOff)
      == Some(Dump(hasPos, chars, groups, words, firsts, keys))
  {
    hide ReadChar, ReadWord, IndexDump, GroupsAt;
    ManyReadsAll(CharReader(b, hasPos), charOff, charOffsets, chars, |chars|);
    ManyReadsAll(WordReader(b), wordOff, wordOffsets, words, |words|);
    assert chars[..|chars|] == chars && words[..|words|] == words;
  }

  lemma {:induction false} AllCounted(words: seq<Word>, flat: seq<Word>, groups: seq<Group>)
    requires Grouped(words, flat, groups)
    ensures TotalCount(groups) == |flat|
  {
    TotalIsAll(words, flat, groups, MAX_GROUP);
    assert groups[..MAX_GROUP] == groups;
    assert GroupLists(words, MAX_GROUP)[..MAX_GROUP] == GroupLists(words, MAX_GROUP);
  }

  lemma {:induction false} SectionsRead(f: seq<Byte>, p: Parts, l: Layout, words: seq<Word>,
                                        firsts: seq<seq<nat>>, keys: seq<seq<nat>>)
    requires FileFits(p) && Stands(f, p, l) && Grouped(words, p.flat, p.groups)
    requires Packs(p.firstOffsets, p.firstWids, firsts) && Packs(p.keyOffsets, p.keyCids, keys)
    ensures SectionsDump(f, true, |p.chars|, |p.flat|, l.chars, l.words, l.first, l.key)
      == Some(Dump(true, StoredChars(p.chars), p.groups, FilledWords(p.flat), firsts, keys))
  {
    hide SectionsDump, IndexDump, Run;
    CharsRun(f, p, l);
    GroupsServed(f, p, l);
    AllCounted(words, p.flat, p.groups);
    WordsRun(f, p, l);
    IndexesRead(f, l.first, l.key, p.firstOffsets, p.firstWids, p.keyOffsets, p.keyCids, firsts, keys);
    SectionsDumpIs(f, true, l.chars, l.words, l.first, l.key, StoredChars(p.chars), CharOffsets(p),
                   p.groups, FilledWords(p.flat), WordOffsets(p), firsts, keys);
  }

  /** Read front to back, a compiled file gives the tables back: frequencies clamped to 65535,
      omitted reading indices as zeros, and each index as its lists. */
  lemma {:induction false} FileReadsBack(p: Parts, words: seq<Word>, firsts: seq<seq<nat>>, keys: seq<seq<nat>>)
    requires FileFits(p) && Grouped(words, p.flat, p.groups)
    requires Packs(p.firstOffsets, p.firstWids, firsts) && Packs(p.keyOffsets, p.keyCids, keys)
    ensures DumpOf(File(p)) == Some(Dump(true, StoredChars(p.chars), p.groups, FilledWords(p.flat), firsts, keys))
  {
    HeaderRoundTrip(p);
    SectionsStand(p);
    HeaderFieldsRead(File(p));
    SectionsRead(File(p), p, LayoutOf(p), words, firsts, keys);
  }

  /** Both readers look at the same header fields. */
  lemma {:induction false} HeaderFieldsRead(b: seq<Byte>)
    requires HeaderOk(b)
    ensures var h := HeaderOf(b);
      DumpOf(b) == SectionsDump(b, h.hasPos, h.charCount, h.wordCount, h.charOff, h.wordOff, h.firstOff, h.keyOff)
  {
  }

  /** The two readers give the same tables. */
  ghost predicate Agree(b: seq<Byte>, h: Header, dump: Dump) {
    && |dump.chars| == h.charCount && |dump.words| == h.wordCount && dump.groups == h.groups && dump.hasPos == h.hasPos
    && ServesChars(b, h, dump.chars)
    && forall wid :: 0 <= wid < h.wordCount ==>
         WordAt(b, h, wid).Some? && Filled(WordAt(b, h, wid).value.value) == dump.words[wid]
  }

  lemma {:induction false} ServedAgrees(b: seq<Byte>, h: Header, image: Image, dump: Dump)
    requires Serves(b, h, image) && dump.chars == image.table.chars && dump.hasPos == image.table.hasPos
    requires dump.groups == image.groups && |dump.words| == |image.words|
    requires forall wid :: 0 <= wid < |image.words| ==> dump.words[wid] == Filled(image.words[wid])
    ensures Agree(b, h, dump)
  {
  }

  /** The two readers agree on a compiled file, character by character and word by word. */
  lemma {:induction false} ReadersAgree(p: Parts, words: seq<Word>, firsts: seq<seq<nat>>, keys: seq<seq<nat>>)
    requires FileFits(p) && Grouped(words, p.flat, p.groups)
    requires Packs(p.firstOffsets, p.firstWids, firsts) && Packs(p.keyOffsets, p.keyCids, keys)
    ensures HeaderOk(File(p)) && DumpOf(File(p)).Some?
    ensures Agree(File(p), HeaderOf(File(p)), DumpOf(File(p)).value)
  {
    hide File, Serves;
    FileReadsBack(p, words, firsts, keys);
    FileServesImage(p);
    ServedAgrees(File(p), HeaderOf(File(p)), ImageOf(p),
                 Dump(true, StoredChars(p.chars), p.groups, FilledWords(p.flat), firsts, keys));
  }
}
