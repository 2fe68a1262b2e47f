/** The whole v4 file: assembled by the compiler, opened by its header, and read both ways. */
module V4File {
  import opened Basics
  import opened Bytes
  import opened Composition
  import opened WordIndex
  import opened V4Blob

  const HEADER_SIZE: nat := 0x40
  const MIN_HEADER: nat := 0x30
  const MAGIC: seq<Byte> := [0x4D, 0x49, 0x45, 0x34]   // "MIE4"
  const VERSION: U16 := 4

  /** Everything the compiler puts in a file. */
  datatype Parts = Parts(
    chars: seq<CharEntry>, flat: seq<Word>, groups: seq<Group>,
    keyOffsets: seq<nat>, keyCids: seq<nat>, firstOffsets: seq<nat>, firstWids: seq<nat>,
    prefixes: seq<nat>, enDat: seq<Byte>, enVal: seq<Byte>)

  function Enc64s(ns: seq<nat>): (b: seq<Byte>)
    requires forall i :: 0 <= i < |ns| ==> ns[i] < 0x100_0000_0000
    ensures |b| == 8 * |ns|
  {
    if |ns| == 0 then []
    else
      var v := ns[|ns| - 1];
      Enc64s(ns[..|ns| - 1]) + (Enc32(v % 0x1_0000_0000) + Enc32(v / 0x1_0000_0000))
  }

  predicate Below(ns: seq<nat>, bound: nat) {
    forall i :: 0 <= i < |ns| ==> ns[i] < bound
  }

  /** The tables are within the field widths; otherwise the compiler's packing raises an error. */
  predicate PartsFit(p: Parts) {
    && (forall c :: c in p.chars ==> CharFits(c)) && (forall w :: w in p.flat ==> WordFits(w))
    && |p.chars| < 0x1_0000_0000 && |p.flat| < 0x1_0000_0000
    && |p.groups| == MAX_GROUP && GroupsFit(p.groups)
    && Below(p.keyOffsets, 0x1_0000_0000) && Below(p.keyCids, 0x1_0000)
    && Below(p.firstOffsets, 0x1_0000_0000) && Below(p.firstWids, 0x1_0000_0000)
    && |p.keyOffsets| == KEY_SLOTS + 1 && |p.firstOffsets| == |p.chars| + 1
    && Below(p.prefixes, 0x100_0000_0000) && |p.prefixes| < 0x1_0000_0000
  }

  function CharSection(p: Parts): seq<Byte> requires PartsFit(p) { Flatten(EncChars(p.chars, true)) }
  function WordSection(p: Parts): seq<Byte> requires PartsFit(p) { EncGroups(p.groups) + Flatten(EncWords(p.flat)) }
  function FirstSection(p: Parts): seq<Byte> requires PartsFit(p) { Enc32s(p.firstOffsets) + Enc32s(p.firstWids) }
  function KeySection(p: Parts): seq<Byte> requires PartsFit(p) { Enc32s(p.keyOffsets) + Enc16s(p.keyCids) }

  function CharOffsets(p: Parts): seq<nat>
    requires PartsFit(p)
  {
    seq(|p.chars| + 1, i requires 0 <= i <= |p.chars| => Offset(EncChars(p.chars, true), i))
  }

  function WordOffsets(p: Parts): seq<nat>
    requires PartsFit(p)
  {
    seq(|p.flat| + 1, i requires 0 <= i <= |p.flat| => 8 * MAX_GROUP + Offset(EncWords(p.flat), i))
  }

  function PrefixSection(p: Parts): seq<Byte> requires PartsFit(p) { Enc32(|p.prefixes|) + Enc64s(p.prefixes) }

  /** Where each section starts. */
  datatype Layout = Layout(chars: nat, words: nat, first: nat, key: nat, charOffs: nat, wordOffs: nat, prefix: nat,
                           enDat: nat, enVal: nat, total: nat)

  function LayoutOf(p: Parts): Layout
    requires PartsFit(p)
  {
    var chars := HEADER_SIZE;
    var words := chars + |CharSection(p)|;
    var first := words + |WordSection(p)|;
    var key := first + |FirstSection(p)|;
    var charOffs := key + |KeySection(p)|;
    var wordOffs := charOffs + 4 * (|p.chars| + 1);
    var prefix := wordOffs + 4 * (|p.flat| + 1);
    var end := prefix + |PrefixSection(p)|;
    var enDat := if |p.enDat| > 0 then end else 0;
    Layout(chars, words, first, key, charOffs, wordOffs, prefix,
           enDat, if |p.enVal| > 0 then enDat + |p.enDat| else 0, end + |p.enDat| + |p.enVal|)
  }

  /** The file as a whole fits the 32-bit offsets. */
  predicate FileFits(p: Parts) {
    PartsFit(p) && LayoutOf(p).total < 0x1_0000_0000 && Below(CharOffsets(p), 0x1_0000_0000) && Below(WordOffsets(p), 0x1_0000_0000)
  }

  /** The header's numbers after the flags, in order: counts, section offsets, sizes. */
  function HeaderNumbers(p: Parts): (ns: seq<nat>)
    requires FileFits(p)
    ensures |ns| == 14
  {
    var l := LayoutOf(p);
    [|p.chars|, |p.flat|, l.chars, l.words, l.first, l.key, l.total, l.charOffs, l.wordOffs, l.prefix,
     l.enDat, |p.enDat|, l.enVal, |p.enVal|]
  }

  /** Every part of the layout lies within the file. */
  lemma {:induction false} LayoutInside(p: Parts)
    requires FileFits(p)
    ensures var l := LayoutOf(p);
      && l.chars <= l.words <= l.first <= l.key <= l.charOffs <= l.wordOffs <= l.prefix <= l.total < 0x1_0000_0000
      && l.enDat <= l.total && l.enVal <= l.total && |p.enDat| <= l.total && |p.enVal| <= l.total
      && |p.chars| <= l.total && |p.flat| <= l.total
  {
    hide CharSection, WordSection, FirstSection, KeySection, PrefixSection;
  }

  lemma {:induction false} HeaderNumbersFit(p: Parts)
    requires FileFits(p)
    ensures Below(HeaderNumbers(p), 0x1_0000_0000)
  {
    hide FileFits, LayoutOf;
    LayoutInside(p);
  }

  function FileHeader(p: Parts): (b: seq<Byte>)
    requires FileFits(p)
    ensures |b| == HEADER_SIZE
  {
    HeaderNumbersFit(p);
    MAGIC + Enc16(VERSION) + Enc16(1) + Enc32s(HeaderNumbers(p))
  }

  /** The sections in file order. */
  function File(p: Parts): seq<Byte>
    requires FileFits(p)
  {
    FileHeader(p) + CharSection(p) + WordSection(p) + FirstSection(p) + KeySection(p)
    + Enc32s(CharOffsets(p)) + Enc32s(WordOffsets(p)) + PrefixSection(p) + p.enDat + p.enVal
  }

  /** Each section stands in `f` where the layout `l` says. */
  predicate Stands(f: seq<Byte>, p: Parts, l: Layout)
    requires FileFits(p)
  {
    && |f| == l.total
    && At(f, l.chars, CharSection(p)) && At(f, l.words, WordSection(p))
    && At(f, l.first, FirstSection(p)) && At(f, l.key, KeySection(p))
    && At(f, l.charOffs, Enc32s(CharOffsets(p))) && At(f, l.wordOffs, Enc32s(WordOffsets(p)))
    && At(f, l.prefix, PrefixSection(p))
  }

  lemma {:induction false} AtFive(f: seq<Byte>, o: nat, a: seq<Byte>, b: seq<Byte>, c: seq<Byte>, d: seq<Byte>, e: seq<Byte>)
    requires At(f, o, a + b + c + d + e)
    ensures At(f, o, a) && At(f, o + |a|, b) && At(f, o + |a| + |b|, c) && At(f, o + |a| + |b| + |c|, d)
    ensures At(f, o + |a| + |b| + |c| + |d|, e)
  {
    AtSplit(f, o, a + b + c + d, e);
    AtSplit(f, o, a + b + c, d);
    AtSplit(f, o, a + b, c);
    AtSplit(f, o, a, b);
  }

  lemma {:induction false} AtNine(f: seq<Byte>, a: seq<Byte>, b: seq<Byte>, c: seq<Byte>, d: seq<Byte>, e: seq<Byte>,
                                  g: seq<Byte>, h: seq<Byte>, i: seq<Byte>, rest: seq<Byte>)
    requires At(f, 0, a + b + c + d + e + g + h + i + rest)
    ensures At(f, 0, a) && At(f, |a|, b) && At(f, |a| + |b|, c) && At(f, |a| + |b| + |c|, d)
    ensures var key := |a| + |b| + |c| + |d|;
      At(f, key, e) && At(f, key + |e|, g) && At(f, key + |e| + |g|, h) && At(f, key + |e| + |g| + |h|, i)
  {
    AtFive(f, 0, a + b + c + d + e, g, h, i, rest);
    AtFive(f, 0, a, b, c, d, e);
  }

  lemma {:induction false} SectionsStand(p: Parts)
    requires FileFits(p)
    ensures At(File(p), 0, FileHeader(p)) && Stands(File(p), p, LayoutOf(p))
  {
    hide CharSection, WordSection, FirstSection, KeySection, PrefixSection, At;
    var f := File(p);
    var zh := FileHeader(p) + CharSection(p) + WordSection(p) + FirstSection(p) + KeySection(p)
      + Enc32s(CharOffsets(p)) + Enc32s(WordOffsets(p)) + PrefixSection(p);
    AtSplit(f, 0, zh + p.enDat, p.enVal);
    AtNine(f, FileHeader(p), CharSection(p), WordSection(p), FirstSection(p), KeySection(p),
           Enc32s(CharOffsets(p)), Enc32s(WordOffsets(p)), PrefixSection(p), p.enDat);
  }

  // ---------------------------------------------------------------- the compiler

  method EncodeNumbers64(ns: seq<nat>) returns (buf: seq<Byte>)
    requires Below(ns, 0x100_0000_0000)
    ensures buf == Enc64s(ns)
  {
    buf := [];
    for i := 0 to |ns|
      invariant buf == Enc64s(ns[..i])
    {
      assert ns[..i + 1][..i] == ns[..i];
      buf := buf + (Enc32(ns[i] % 0x1_0000_0000) + Enc32(ns[i] / 0x1_0000_0000));
    }
    assert ns[..|ns|] == ns;
  }

  /** Serialise every table, lay the sections out, write the header, and join. */
  method WriteFile(p: Parts) returns (file: seq<Byte>)
    requires FileFits(p)
    ensures file == File(p)
  {
    var chars, charOffsets := SerializeCharTable(p.chars, true);
    var words, wordOffsets, _ := SerializeWordTable(p.flat, p.groups);
    assert charOffsets == CharOffsets(p) && wordOffsets == WordOffsets(p);
    var first0 := EncodeNumbers32(p.firstOffsets);
    var first1 := EncodeNumbers32(p.firstWids);
    var key0 := EncodeNumbers32(p.keyOffsets);
    var key1 := EncodeNumbers16(p.keyCids);
    var charOffs := EncodeNumbers32(charOffsets);
    var wordOffs := EncodeNumbers32(wordOffsets);
    var prefix := EncodeNumbers64(p.prefixes);
    var header := WriteHeader(p, |chars|, |words|, |first0 + first1|, |key0 + key1|, 4 + |prefix|);
    file := header + chars + words + (first0 + first1) + (key0 + key1) + charOffs + wordOffs
      + (Enc32(|p.prefixes|) + prefix) + p.enDat + p.enVal;
  }

  method WriteHeader(p: Parts, charLen: nat, wordLen: nat, firstLen: nat, keyLen: nat, prefixLen: nat)
    returns (header: seq<Byte>)
    requires FileFits(p)
    requires charLen == |CharSection(p)| && wordLen == |WordSection(p)| && firstLen == |FirstSection(p)|
    requires keyLen == |KeySection(p)| && prefixLen == |PrefixSection(p)|
    ensures header == FileHeader(p)
  {
    var charOff := HEADER_SIZE;
    var wordOff := charOff + charLen;
    var firstOff := wordOff + wordLen;
    var keyOff := firstOff + firstLen;
    var charOffsOff := keyOff + keyLen;
    var wordOffsOff := charOffsOff + 4 * (|p.chars| + 1);
    var prefixOff := wordOffsOff + 4 * (|p.flat| + 1);
    var zhEnd := prefixOff + prefixLen;
    var enDatOff := if |p.enDat| > 0 then zhEnd else 0;
    var enValOff := if |p.enVal| > 0 then enDatOff + |p.enDat| else 0;
    var total := zhEnd + |p.enDat| + |p.enVal|;
    var fields := [|p.chars|, |p.flat|, charOff, wordOff, firstOff, keyOff, total,
                   charOffsOff, wordOffsOff, prefixOff, enDatOff, |p.enDat|, enValOff, |p.enVal|];
    assert fields == HeaderNumbers(p);
    HeaderNumbersFit(p);
    var numbers := EncodeNumbers32(fields);
    header := MAGIC + Enc16(VERSION) + Enc16(1) + numbers;
  }
}
