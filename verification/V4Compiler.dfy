/** The v4 compiler end to end: tables and words in, one file out, and what both readers and the
    search then see. */
module V4Compiler {
  import opened Basics
  import opened Composition
  import opened WordIndex
  import opened IndexedSearch
  import opened V4File
  import opened V4Readers
  import PrefixTable

  ghost predicate CompiledFrom(p: Parts, chars: seq<CharEntry>, words: seq<Word>, syllables: seq<seq<char>>) {
    && p.chars == chars
    && Grouped(words, p.flat, p.groups)
    && Packs(p.keyOffsets, p.keyCids, KeyLists(chars))
    && Packs(p.firstOffsets, p.firstWids, FirstLists(p.flat, |chars|))
    && PrefixTable.TableOf(p.prefixes, PrefixTable.Sources(syllables, chars))
  }

  /** Group the words, build both inverted indexes and the syllable-prefix table. */
  method Compile(chars: seq<CharEntry>, words: seq<Word>, syllables: seq<seq<char>>, enDat: seq<Byte>, enVal: seq<Byte>)
    returns (p: Parts)
    ensures CompiledFrom(p, chars, words, syllables) && p.enDat == enDat && p.enVal == enVal
  {
    var flat, groups := GroupWords(words);
    var firstOffsets, firstWids := BuildFirstCharIdx(flat, |chars|);
    var keyOffsets, keyCids := BuildKeyToCharIdx(chars);
    var prefixes := PrefixTable.BuildPrefixTable(syllables, chars);
    p := Parts(chars, flat, groups, keyOffsets, keyCids, firstOffsets, firstWids, prefixes, enDat, enVal);
  }

  /** A compiled file, opened by the firmware, serves an image with the indexes the search walks; read front
      to back it gives the same tables; and it holds each word of at least one character as often as
      it was given, and nothing else. What the search asks of the stored keys besides is a property of
      tables built from sources: EndToEnd.BuiltImageOk. */
  lemma {:induction false} CompiledFileIsFaithful(p: Parts, chars: seq<CharEntry>, words: seq<Word>, syllables: seq<seq<char>>)
    requires WordsFit(chars, words) && CompiledFrom(p, chars, words, syllables) && FileFits(p)
    ensures HeaderOk(File(p)) && Serves(File(p), HeaderOf(File(p)), ImageOf(p)) && ImageOk(ImageOf(p))
    ensures DumpOf(File(p)).Some? && Agree(File(p), HeaderOf(File(p)), DumpOf(File(p)).value)
    ensures DumpOf(File(p)).value.firstLists == FirstLists(p.flat, |chars|)
    ensures DumpOf(File(p)).value.keyLists == KeyLists(chars)
    ensures forall w :: multiset(p.flat)[w] == if |w.charIds| > 0 then multiset(words)[w] else 0
  {
    FileServesImage(p);
    CompiledImageOk(ImageOf(p), chars, words, p.flat);
    FileReadsBack(p, words, FirstLists(p.flat, |chars|), KeyLists(chars));
    ReadersAgree(p, words, FirstLists(p.flat, |chars|), KeyLists(chars));
    forall w ensures multiset(p.flat)[w] == if |w.charIds| > 0 then multiset(words)[w] else 0 {
      GroupingConserves(words, p.flat, p.groups, w);
    }
  }
}
