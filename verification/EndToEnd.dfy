/** From source lines to search results: over the file compiled from a word list, the v4 search returns the
    source words that may be typed with the keys and hints given, best first. */
module EndToEnd {
  import opened Basics
  import opened Sorting
  import opened Composition
  import opened GenDict
  import opened WordIndex
  import opened IndexedSearch
  import opened TableBuilder
  import opened WordStrings
  import opened V4File
  import opened V4Readers
  import opened V4Compiler

  // ---------------------------------------------------------------- stored keys are in range

  lemma {:induction false} SightedKeys(e: Source, n: nat, s: Sighting)
    requires n <= |e.word| == |e.syllables| && s in SightingsIn(e, n)
    ensures forall k :: k in s.key.keys ==> 0x21 <= k < 0x35
  {
    if n > 0 && s in SightingsIn(e, n - 1) { SightedKeys(e, n - 1, s); }
  }

  lemma {:induction false} AllSightedKeys(entries: seq<Source>, s: Sighting)
    requires s in Sightings(entries)
    ensures forall k :: k in s.key.keys ==> 0x21 <= k < 0x35
  {
    var n := |entries| - 1;
    if s in Sightings(entries[..n]) {
      AllSightedKeys(entries[..n], s);
    } else {
      SightedKeys(entries[n], |entries[n].word|, s);
    }
  }

  /** What the search and the matcher ask of the keys in a table holds of every built one. */
  lemma {:induction false} BuiltKeysOk(entries: seq<Source>, chars: seq<char>, table: seq<seq<Seen>>)
    requires CharTableOf(entries, chars, table)
    ensures KeyBytesOk(CharTable(StoredChars(CharEntries(chars, table)), true))
    ensures NoSpaceKeys(CharTable(StoredChars(CharEntries(chars, table)), true))
  {
    hide SightingsIn, Sightings;
    var d := CharTable(StoredChars(CharEntries(chars, table)), true);
    forall c, r | c in d.chars && r in c.readings ensures forall k :: k in r.keys ==> 0x21 <= k < 0x35 {
      var cid :| 0 <= cid < |d.chars| && d.chars[cid] == c;
      var i :| 0 <= i < |c.readings| && c.readings[i] == r;
      var seen := table[cid][i];
      assert r.keys == seen.key.keys;
      AllSightedKeys(entries, Sighting(chars[cid], seen.key, seen.freq));
    }
    forall c, r | c in d.chars && r in c.readings && |r.keys| > 0
      ensures KEY_MIN <= r.keys[0] < KEY_MIN + KEY_SLOTS
    {
      assert r.keys[0] in r.keys;
    }
  }

  // ---------------------------------------------------------------- the compiled dictionary

  /** Tables, words and file parts built from these sources, within the file's field widths. */
  ghost predicate Built(entries: seq<Source>, chars: seq<char>, table: seq<seq<Seen>>, words: seq<BuiltWord>,
                        ws: seq<Word>, p: Parts, syllables: seq<seq<char>>)
  {
    && CharTableOf(entries, chars, table) && WordTableOf(words, entries, chars, table) && EntriesOf(ws, words)
    && CompiledFrom(p, CharEntries(chars, table), ws, syllables) && FileFits(p)
  }

  lemma {:induction false} BuiltWordsFit(entries: seq<Source>, chars: seq<char>, table: seq<seq<Seen>>,
                                         words: seq<BuiltWord>, ws: seq<Word>)
    requires |table| == |chars| && WordTableOf(words, entries, chars, table) && EntriesOf(ws, words)
    ensures WordsFit(CharEntries(chars, table), ws)
  {
    forall w | w in ws
      ensures |w.readingIdxs| == |w.charIds| && forall i :: 0 <= i < |w.charIds| ==> w.charIds[i] < |chars|
    {
      var k :| 0 <= k < |ws| && ws[k] == w;
      assert WordOf(words[k], chars, table);
    }
  }

  /** The compiled file is one the firmware can open, and the image it serves is one the search is correct
      on: nothing is left to assume of it. */
  lemma {:induction false} BuiltImageOk(entries: seq<Source>, chars: seq<char>, table: seq<seq<Seen>>, words: seq<BuiltWord>,
                                        ws: seq<Word>, p: Parts, syllables: seq<seq<char>>)
    requires Built(entries, chars, table, words, ws, p, syllables)
    ensures HeaderOk(File(p)) && V4Readers.Serves(File(p), HeaderOf(File(p)), ImageOf(p))
    ensures ImageOk(ImageOf(p)) && KeyBytesOk(ImageOf(p).table) && NoSpaceKeys(ImageOf(p).table)
    ensures CharsOk(ImageOf(p).table.chars) && UniqueWords(ImageOf(p).words)
  {
    hide CharTableOf, WordTableOf, EntriesOf, FileFits, ImageOk, KeyBytesOk, NoSpaceKeys, CharsOk, UniqueWords, Grouped,
         CharEntries, Packs, V4Readers.Serves, HeaderOk, PrefixTable.TableOf;
    TablesAligned(entries, chars, table);
    BuiltWordsFit(entries, chars, table, words, ws);
    CompiledFileIsFaithful(p, CharEntries(chars, table), ws, syllables);
    BuiltKeysOk(entries, chars, table);
    BuiltTablesOk(entries, chars, table, words, ws, p.flat, p.groups);
  }

  lemma {:induction false} TablesAligned(entries: seq<Source>, chars: seq<char>, table: seq<seq<Seen>>)
    requires CharTableOf(entries, chars, table)
    ensures |table| == |chars|
  {
  }

  // ---------------------------------------------------------------- source words and their ids

  /** Every syllable has keys. */
  predicate Keyed(w: BuiltWord) {
    forall i :: 0 <= i < |w.source.syllables| ==> KeySeq(w.source.syllables[i]) != []
  }

  /** The readings a source line spells out. */
  function SpelledOut(e: Source): (rs: seq<Reading>)
    ensures |rs| == |e.syllables|
  {
    seq(|e.syllables|, i requires 0 <= i < |e.syllables| =>
      Reading(KeySeq(e.syllables[i]), Packed(PosDigits(PosSeq(e.syllables[i]))), SyllableTone(e.syllables[i]), 0))
  }

  const NO_TABLE := CharTable([], true)

  /** Some way of typing the word's syllables begins with the keys and agrees with the hints. */
  ghost predicate Types(e: Source, keys: seq<Byte>, hints: Option<seq<Byte>>)
    requires HintsCover(hints, keys)
  {
    Typeable(NO_TABLE, SpelledOut(e), keys, hints)
  }

  /** Two readings are typed alike. */
  predicate Alike(r: Reading, q: Reading) {
    r.keys == q.keys && r.posPacked == q.posPacked && r.tone == q.tone
  }

  predicate AllAlike(rs: seq<Reading>, qs: seq<Reading>) {
    |rs| == |qs| && forall i :: 0 <= i < |rs| ==> Alike(rs[i], qs[i])
  }

  lemma {:induction false} StrokesAlike(rs: seq<Reading>, qs: seq<Reading>, cuts: seq<Cut>)
    requires AllAlike(rs, qs) && ValidCuts(rs, cuts)
    ensures ValidCuts(qs, cuts) && Strokes(qs, cuts) == Strokes(rs, cuts)
  {
    if |cuts| > 0 {
      assert SyllableStrokes(qs[0], cuts[0]) == SyllableStrokes(rs[0], cuts[0]);
      StrokesAlike(rs[1..], qs[1..], cuts[1..]);
    }
  }

  lemma {:induction false} TypedAlike(d: CharTable, e: CharTable, rs: seq<Reading>, qs: seq<Reading>, keys: seq<Byte>,
                                      hints: Option<seq<Byte>>)
    requires d.hasPos == e.hasPos && AllAlike(rs, qs) && HintsCover(hints, keys) && Typeable(d, rs, keys, hints)
    ensures Typeable(e, qs, keys, hints)
  {
    hide Strokes, ValidCuts;
    var cuts :| ValidCuts(rs, cuts) && Composition.Covers(d, Strokes(rs, cuts), keys, hints, 0);
    StrokesAlike(rs, qs, cuts);
    CoversAlike(d, e, Strokes(rs, cuts), keys, hints);
  }

  lemma {:induction false} CoversAlike(d: CharTable, e: CharTable, strokes: seq<Stroke>, keys: seq<Byte>, hints: Option<seq<Byte>>)
    requires d.hasPos == e.hasPos && HintsCover(hints, keys) && Composition.Covers(d, strokes, keys, hints, 0)
    ensures Composition.Covers(e, strokes, keys, hints, 0)
  {
    forall j | 0 <= j < |keys| - 0 ensures Fits(e, strokes[j], keys, hints, 0 + j) {
      assert Fits(d, strokes[j], keys, hints, 0 + j);
    }
  }

  /** A word all of whose characters have the reading asked for resolves to these readings. */
  lemma {:induction false} ResolvesTo(d: CharTable, v: WordView, rs: seq<Reading>, ci: nat)
    requires WordInTable(d, v) && |rs| == |v.charIds| && ci <= |rs|
    requires forall i :: 0 <= i < |rs| ==> ReadingAt(d, v, i).Some? && Alike(ReadingAt(d, v, i).value, rs[i])
    ensures AllAlike(Resolved(d, v, ci), rs[ci..])
    decreases |rs| - ci
  {
    if ci < |rs| { ResolvesTo(d, v, rs, ci + 1); }
  }

  lemma {:induction false} StoredReadings(entries: seq<Source>, chars: seq<char>, table: seq<seq<Seen>>, w: BuiltWord)
    requires CharTableOf(entries, chars, table) && WordOf(w, chars, table) && IndexesFit(w)
    requires w.source in entries && Eligible(w.source, chars) && Keyed(w)
    ensures WordInTable(CharTable(StoredChars(CharEntries(chars, table)), true), Stored(WordEntry(w)))
    ensures AllAlike(Resolved(CharTable(StoredChars(CharEntries(chars, table)), true), Stored(WordEntry(w)), 0), SpelledOut(w.source))
  {
    TablesAligned(entries, chars, table);
    hide CharTableOf, KeySeq, PosSeq, SyllableTone, Packed, PosDigits;
    var d, v, rs := CharTable(StoredChars(CharEntries(chars, table)), true), Stored(WordEntry(w)), SpelledOut(w.source);
    assert WordInTable(d, v);
    forall i | 0 <= i < |rs| ensures ReadingAt(d, v, i).Some? && Alike(ReadingAt(d, v, i).value, rs[i]) {
      WordKeepsItsReadings(entries, chars, table, w, i);
      IndexIsKept(w, i);
    }
    ResolvesTo(d, v, rs, 0);
    assert rs[0..] == rs;
  }

  /** Over the stored tables the matcher accepts a source word for exactly what its syllables let the user type,
      with every hint and marker. */
  lemma {:induction false} MatchesWhatIsTyped(entries: seq<Source>, chars: seq<char>, table: seq<seq<Seen>>, w: BuiltWord,
                                              keys: seq<Byte>, hints: Option<seq<Byte>>)
    requires CharTableOf(entries, chars, table) && WordOf(w, chars, table) && IndexesFit(w)
    requires w.source in entries && Eligible(w.source, chars) && Keyed(w) && HintsCover(hints, keys)
    ensures WordInTable(CharTable(StoredChars(CharEntries(chars, table)), true), Stored(WordEntry(w)))
    ensures Matches(CharTable(StoredChars(CharEntries(chars, table)), true), Stored(WordEntry(w)), keys, hints)
      <==> Types(w.source, keys, hints)
  {
    hide Matches, CharEntries, StoredChars, Stored, WordEntry, CharTableOf, WordOf, KeySeq, Typeable, NoSpaceKeys;
    TablesAligned(entries, chars, table);
    StoredReadings(entries, chars, table, w);
    BuiltKeysOk(entries, chars, table);
    var d, v := CharTable(StoredChars(CharEntries(chars, table)), true), Stored(WordEntry(w));
    MatcherIsExact(d, v, keys, hints);
    var rs := Resolved(d, v, 0);
    if Typeable(d, rs, keys, hints) { TypedAlike(d, NO_TABLE, rs, SpelledOut(w.source), keys, hints); }
    if Typeable(NO_TABLE, SpelledOut(w.source), keys, hints) { TypedAlike(NO_TABLE, d, SpelledOut(w.source), rs, keys, hints); }
  }

  /** One character for each reading, and the word of them all. */
  function OnePerReading(rs: seq<Reading>): CharTable {
    CharTable(seq(|rs|, i requires 0 <= i < |rs| => CharEntry([], [rs[i]])), true)
  }

  function AllOfThem(n: nat): WordView {
    WordView(seq(n, i requires 0 <= i < n => i), None, 0)
  }

  lemma {:induction false} ReadsSpelledOut(e: Source)
    ensures ReadsAs(OnePerReading(SpelledOut(e)), AllOfThem(|e.syllables|), KeySeqs(e.syllables))
    ensures NoSpaceKeys(OnePerReading(SpelledOut(e)))
    ensures AllAlike(Resolved(OnePerReading(SpelledOut(e)), AllOfThem(|e.syllables|), 0), SpelledOut(e))
  {
    hide KeySeq, PosSeq, SyllableTone, Packed, PosDigits;
    var d, v, rs := OnePerReading(SpelledOut(e)), AllOfThem(|e.syllables|), SpelledOut(e);
    assert WordInTable(d, v);
    assert forall i :: 0 <= i < |rs| ==> ReadingAt(d, v, i) == Some(rs[i]);
    ResolvesTo(d, v, rs, 0);
    assert rs[0..] == rs;
    forall c, r | c in d.chars && r in c.readings ensures SPACE !in r.keys {
      var i :| 0 <= i < |rs| && d.chars[i] == c;
      assert r == rs[i];
      KeysAreNoMarker(e.syllables[i]);
    }
  }

  lemma {:induction false} KeysAreNoMarker(syl: seq<char>)
    ensures SPACE !in KeySeq(syl)
  {
  }

  /** What the user may type for a word with no syllable of more than four keys before the last is what the v2
      dictionary lists it under: the beginnings of its abbreviations. */
  lemma {:induction false} TypesWhatV2Lists(w: BuiltWord, keys: seq<Byte>)
    requires Keyed(w) && |w.source.syllables| > 0 && ShortButLast(KeySeqs(w.source.syllables)) && SPACE !in keys
    ensures Types(w.source, keys, None) <==> BeginsAbbreviation(KeySeqs(w.source.syllables), keys)
  {
    hide Matches, ReadsAs, KeySeq, Typeable, BeginsAbbreviation, NoSpaceKeys, SpelledOut, OnePerReading, AllOfThem;
    ReadsSpelledOut(w.source);
    var kss, rs := KeySeqs(w.source.syllables), SpelledOut(w.source);
    var d, v := OnePerReading(rs), AllOfThem(|w.source.syllables|);
    forall ks | ks in kss ensures |ks| > 0 {
      var i :| 0 <= i < |kss| && kss[i] == ks;
    }
    V4AcceptsAbbreviations(d, v, kss, keys);
    ReadsInTable(d, v, kss);
    MatcherIsExact(d, v, keys, None);
    HasPositions(rs);
    if Typeable(d, Resolved(d, v, 0), keys, None) { TypedAlike(d, NO_TABLE, Resolved(d, v, 0), rs, keys, None); }
    if Typeable(NO_TABLE, rs, keys, None) { TypedAlike(NO_TABLE, d, rs, Resolved(d, v, 0), keys, None); }
  }

  lemma {:induction false} HasPositions(rs: seq<Reading>)
    ensures OnePerReading(rs).hasPos
  {
  }

  /** The word's id in the file. */
  lemma {:induction false} IdOfWord(ws: seq<Word>, p: Parts, k: nat) returns (wid: nat)
    requires Grouped(ws, p.flat, p.groups) && k < |ws| && |ws[k].charIds| > 0
    ensures wid < |p.flat| && p.flat[wid] == ws[k]
  {
    GroupingConserves(ws, p.flat, p.groups, ws[k]);
    assert multiset(ws)[ws[k]] > 0;
    assert ws[k] in multiset(p.flat);
    wid :| 0 <= wid < |p.flat| && p.flat[wid] == ws[k];
  }

  /** The word behind an id. */
  lemma {:induction false} WordOfId(ws: seq<Word>, p: Parts, wid: nat) returns (k: nat)
    requires Grouped(ws, p.flat, p.groups) && wid < |p.flat|
    ensures k < |ws| && p.flat[wid] == ws[k]
  {
    GroupingConserves(ws, p.flat, p.groups, p.flat[wid]);
    assert p.flat[wid] in multiset(p.flat);
    assert p.flat[wid] in ws;
    k :| 0 <= k < |ws| && ws[k] == p.flat[wid];
  }

  // ---------------------------------------------------------------- what the search returns

  /** A source word asked for: of the length class, and typed with these keys and hints. */
  ghost predicate Wanted(w: BuiltWord, keys: seq<Byte>, hints: Option<seq<Byte>>, target: int)
    requires HintsCover(hints, keys)
  {
    InClass(target, |w.source.word|) && Types(w.source, keys, hints)
  }

  /** The UTF-8 of a word, up to the first character that no longer fits the candidate buffer. */
  function ShownText(word: seq<char>, written: nat): seq<Byte> {
    if |word| == 0 || written + |Utf8(word[0])| > CANDIDATE_MAX_BYTES - 1 then []
    else Utf8(word[0]) + ShownText(word[1..], written + |Utf8(word[0])|)
  }

  /** A source line as a candidate. */
  function Offered(e: Source): Candidate {
    Candidate(ShownText(e.word, 0), Min(e.freq, 0xFFFF), if |e.syllables| == 0 then 0 else SyllableTone(e.syllables[|e.syllables| - 1]))
  }

  lemma {:induction false} TextFromSource(d: CharTable, v: WordView, word: seq<char>, ci: nat, written: nat)
    requires WordInTable(d, v) && |word| == |v.charIds| && ci <= |word|
    requires forall i :: 0 <= i < |word| ==> d.chars[v.charIds[i]].utf8 == Utf8(word[i])
    ensures WordString(d, v, ci, written) == ShownText(word[ci..], written)
    decreases |word| - ci
  {
    if ci < |word| {
      assert word[ci..][0] == word[ci] && word[ci..][1..] == word[ci + 1..];
      if written + |Utf8(word[ci])| <= CANDIDATE_MAX_BYTES - 1 { TextFromSource(d, v, word, ci + 1, written + |Utf8(word[ci])|); }
    }
  }

  lemma {:induction false} ToneFromSource(entries: seq<Source>, chars: seq<char>, table: seq<seq<Seen>>, w: BuiltWord)
    requires CharTableOf(entries, chars, table) && WordOf(w, chars, table) && IndexesFit(w)
    requires w.source in entries && Eligible(w.source, chars) && Keyed(w)
    ensures WordInTable(CharTable(StoredChars(CharEntries(chars, table)), true), Stored(WordEntry(w)))
    ensures WordTone(CharTable(StoredChars(CharEntries(chars, table)), true), Stored(WordEntry(w))) == Offered(w.source).tone
  {
    hide ShownText, CharTableOf, KeySeq, PosSeq, SyllableTone, ReadsAs;
    StoredWordReadsAs(entries, chars, table, w);
    if |w.charIds| > 0 {
      WordKeepsItsReadings(entries, chars, table, w, |w.charIds| - 1);
      IndexIsKept(w, |w.charIds| - 1);
    }
  }

  /** The word behind an id is a hit exactly when it is wanted, and is shown as its source line says. */
  lemma {:induction false} HitIsWanted(entries: seq<Source>, chars: seq<char>, table: seq<seq<Seen>>, words: seq<BuiltWord>,
                                       ws: seq<Word>, p: Parts, keys: seq<Byte>, hints: Option<seq<Byte>>, target: int, k: nat, wid: nat)
    requires CharTableOf(entries, chars, table) && WordTableOf(words, entries, chars, table) && EntriesOf(ws, words)
    requires p.chars == CharEntries(chars, table) && k < |words| && Keyed(words[k]) && HintsCover(hints, keys)
    requires wid < |p.flat| && p.flat[wid] == ws[k]
    ensures WordHit(ImageOf(p), keys, hints, target)(wid) <==> Wanted(words[k], keys, hints, target)
    ensures WordCand(ImageOf(p))(wid) == Offered(words[k].source)
  {
    hide Matches, Types, CharEntries, StoredChars, SightingsIn, WordString, WordTone, ShownText, SyllableTone, Keyed;
    assert WordOf(words[k], chars, table);
    MatchesWhatIsTyped(entries, chars, table, words[k], keys, hints);
    assert ImageOf(p).words[wid] == Stored(WordEntry(words[k]));
    ToneFromSource(entries, chars, table, words[k]);
    StoredText(chars, table, words[k]);
  }

  lemma {:induction false} StoredText(chars: seq<char>, table: seq<seq<Seen>>, w: BuiltWord)
    requires |table| == |chars| && WordOf(w, chars, table) && IndexesFit(w)
    ensures WordInTable(CharTable(StoredChars(CharEntries(chars, table)), true), Stored(WordEntry(w)))
    ensures WordString(CharTable(StoredChars(CharEntries(chars, table)), true), Stored(WordEntry(w)), 0, 0)
      == ShownText(w.source.word, 0)
  {
    TextFromSource(CharTable(StoredChars(CharEntries(chars, table)), true), Stored(WordEntry(w)), w.source.word, 0, 0);
    assert w.source.word[0..] == w.source.word;
  }

  /** The best of the wanted words: `ks` are different words of the list, each wanted and shown as its source
      line says, most frequent first, and a wanted word is missing only behind a full list of words at least
      as frequent. */
  ghost predicate BestWanted(res: seq<Candidate>, words: seq<BuiltWord>, keys: seq<Byte>, hints: Option<seq<Byte>>, target: int, max: nat, ks: seq<nat>)
    requires HintsCover(hints, keys)
  {
    && |ks| == |res| <= max && Distinct(ks) && Descending(res, CandFreq())
    && (forall i :: 0 <= i < |ks| ==>
          ks[i] < |words| && Wanted(words[ks[i]], keys, hints, target) && res[i] == Offered(words[ks[i]].source))
    && forall k :: 0 <= k < |words| && Wanted(words[k], keys, hints, target) && k !in ks ==>
         |res| == max && forall i :: 0 <= i < |res| ==> Min(words[k].source.freq, 0xFFFF) <= res[i].freq
  }

  predicate AllKeyed(words: seq<BuiltWord>) {
    forall k :: 0 <= k < |words| ==> Keyed(words[k])
  }

  /** The words behind the ids picked. */
  lemma {:induction false} WordsOfIds(ws: seq<Word>, p: Parts, picks: seq<nat>) returns (ks: seq<nat>)
    requires Grouped(ws, p.flat, p.groups) && forall i :: 0 <= i < |picks| ==> picks[i] < |p.flat|
    ensures |ks| == |picks| && forall i :: 0 <= i < |ks| ==> ks[i] < |ws| && ws[ks[i]] == p.flat[picks[i]]
  {
    hide Grouped;
    ks := [];
    for n := 0 to |picks|
      invariant |ks| == n && forall i :: 0 <= i < n ==> ks[i] < |ws| && ws[ks[i]] == p.flat[picks[i]]
    {
      var k := WordOfId(ws, p, picks[n]);
      ks := ks + [k];
    }
  }

  lemma {:induction false} PickedWordsDiffer(flat: seq<Word>, ws: seq<Word>, picks: seq<nat>, ks: seq<nat>)
    requires UniqueWords(StoredWords(flat)) && Distinct(picks) && |ks| == |picks|
    requires forall i :: 0 <= i < |ks| ==> picks[i] < |flat| && ks[i] < |ws| && ws[ks[i]] == flat[picks[i]]
    ensures Distinct(ks)
  {
    forall i, j | 0 <= i < j < |ks| ensures ks[i] != ks[j] {
      var a, b := picks[i], picks[j];
      assert StoredWords(flat)[a].charIds == flat[a].charIds && StoredWords(flat)[b].charIds == flat[b].charIds;
      assert a < b || b < a;
    }
  }

  lemma {:induction false} WantedIsLong(w: BuiltWord, chars: seq<char>, table: seq<seq<Seen>>)
    requires |table| == |chars| && WordOf(w, chars, table) && Eligible(w.source, chars) && IndexesFit(w)
    ensures |WordEntry(w).charIds| >= 2
  {
  }

  lemma {:induction false} NotPicked(flat: seq<Word>, ws: seq<Word>, picks: seq<nat>, ks: seq<nat>, k: nat, wid: nat)
    requires |ks| == |picks| && forall i :: 0 <= i < |ks| ==> picks[i] < |flat| && ks[i] < |ws| && ws[ks[i]] == flat[picks[i]]
    requires forall i, j :: 0 <= i < j < |ws| ==> ws[i].charIds != ws[j].charIds
    requires k < |ws| && k !in ks && wid < |flat| && flat[wid] == ws[k]
    ensures wid !in picks
  {
    forall i | 0 <= i < |picks| ensures picks[i] != wid {
      var j := ks[i];
      assert j in ks && j != k;
      assert if j < k then ws[j].charIds != ws[k].charIds else ws[k].charIds != ws[j].charIds;
    }
  }

  /** A wanted word that was not picked is no better than those that were. */
  lemma {:induction false} MissingIsBehind(
    entries: seq<Source>, chars: seq<char>, table: seq<seq<Seen>>, words: seq<BuiltWord>, ws: seq<Word>, p: Parts,
    keys: seq<Byte>, hints: Option<seq<Byte>>, target: int, max: nat, res: seq<Candidate>, picks: seq<nat>, ks: seq<nat>, k: nat)
    requires CharTableOf(entries, chars, table) && WordTableOf(words, entries, chars, table) && EntriesOf(ws, words)
    requires p.chars == CharEntries(chars, table) && Grouped(ws, p.flat, p.groups) && HintsCover(hints, keys)
    requires TopHits(res, picks, max, WordHit(ImageOf(p), keys, hints, target), WordCand(ImageOf(p)))
    requires |ks| == |picks| && forall i :: 0 <= i < |ks| ==> picks[i] < |p.flat| && ks[i] < |ws| && ws[ks[i]] == p.flat[picks[i]]
    requires k < |words| && Keyed(words[k]) && Wanted(words[k], keys, hints, target) && k !in ks
    ensures |res| == max && forall i :: 0 <= i < |res| ==> Min(words[k].source.freq, 0xFFFF) <= res[i].freq
  {
    hide CharTableOf, Grouped, CharEntries, Wanted, Keyed, WordEntry, IndexesFit, WordOf, Eligible, SyllableTone, ShownText,
         WordHit, WordCand, Descending;
    TablesAligned(entries, chars, table);
    WantedIsLong(words[k], chars, table);
    var wid := IdOfWord(ws, p, k);
    HitIsWanted(entries, chars, table, words, ws, p, keys, hints, target, k, wid);
    BuiltWordsDiffer(entries, chars, table, words, ws);
    NotPicked(p.flat, ws, picks, ks, k, wid);
  }

  /** A full scan's best hits are the best of the wanted source words. */
  lemma {:induction false} ResultsAreSourceWords(
    entries: seq<Source>, chars: seq<char>, table: seq<seq<Seen>>, words: seq<BuiltWord>, ws: seq<Word>, p: Parts,
    syllables: seq<seq<char>>, keys: seq<Byte>, hints: Option<seq<Byte>>, target: int, max: nat, res: seq<Candidate>, picks: seq<nat>)
    returns (ks: seq<nat>)
    requires Built(entries, chars, table, words, ws, p, syllables) && AllKeyed(words) && HintsCover(hints, keys)
    requires TopHits(res, picks, max, WordHit(ImageOf(p), keys, hints, target), WordCand(ImageOf(p)))
    ensures BestWanted(res, words, keys, hints, target, max, ks)
  {
    hide CharTableOf, WordTableOf, Grouped, CharEntries, Packs, PrefixTable.TableOf, FileFits, Wanted, Keyed, Offered, WordEntry,
         IndexesFit, WordHit, WordCand, ImageOk, KeyBytesOk, NoSpaceKeys, CharsOk, UniqueWords, Descending;
    BuiltImageOk(entries, chars, table, words, ws, p, syllables);
    ks := WordsOfPicks(ws, p, keys, hints, target, max, res, picks);
    PickedWordsDiffer(p.flat, ws, picks, ks);
    BestArePicked(entries, chars, table, words, ws, p, keys, hints, target, max, res, picks, ks);
  }

  lemma {:induction false} BestArePicked(
    entries: seq<Source>, chars: seq<char>, table: seq<seq<Seen>>, words: seq<BuiltWord>, ws: seq<Word>, p: Parts,
    keys: seq<Byte>, hints: Option<seq<Byte>>, target: int, max: nat, res: seq<Candidate>, picks: seq<nat>, ks: seq<nat>)
    requires CharTableOf(entries, chars, table) && WordTableOf(words, entries, chars, table) && EntriesOf(ws, words)
    requires p.chars == CharEntries(chars, table) && Grouped(ws, p.flat, p.groups) && HintsCover(hints, keys) && AllKeyed(words)
    requires TopHits(res, picks, max, WordHit(ImageOf(p), keys, hints, target), WordCand(ImageOf(p)))
    requires |ks| == |res| == |picks| <= max && Distinct(ks) && Descending(res, CandFreq())
    requires forall i :: 0 <= i < |ks| ==> picks[i] < |p.flat| && ks[i] < |ws| && ws[ks[i]] == p.flat[picks[i]]
    ensures BestWanted(res, words, keys, hints, target, max, ks)
  {
    hide CharTableOf, WordTableOf, Grouped, CharEntries, Wanted, Keyed, Offered, WordEntry, IndexesFit, TopHits, Descending;
    forall i | 0 <= i < |ks|
      ensures Wanted(words[ks[i]], keys, hints, target) && res[i] == Offered(words[ks[i]].source)
    {
      PickIsWanted(entries, chars, table, words, ws, p, keys, hints, target, max, res, picks, ks[i], i);
    }
    forall k | 0 <= k < |words| && Wanted(words[k], keys, hints, target) && k !in ks
      ensures |res| == max && forall i :: 0 <= i < |res| ==> Min(words[k].source.freq, 0xFFFF) <= res[i].freq
    {
      MissingIsBehind(entries, chars, table, words, ws, p, keys, hints, target, max, res, picks, ks, k);
    }
  }

  lemma {:induction false} WordsOfPicks(ws: seq<Word>, p: Parts, keys: seq<Byte>, hints: Option<seq<Byte>>, target: int, max: nat,
                                        res: seq<Candidate>, picks: seq<nat>) returns (ks: seq<nat>)
    requires Grouped(ws, p.flat, p.groups)
    requires TopHits(res, picks, max, WordHit(ImageOf(p), keys, hints, target), WordCand(ImageOf(p)))
    ensures |ks| == |res| == |picks| <= max && Distinct(picks) && Descending(res, CandFreq())
    ensures forall i :: 0 <= i < |ks| ==> picks[i] < |p.flat| && ks[i] < |ws| && ws[ks[i]] == p.flat[picks[i]]
  {
    hide Grouped, Descending;
    forall i | 0 <= i < |picks| ensures picks[i] < |p.flat| {
      assert picks[i] in picks;
      assert WordHit(ImageOf(p), keys, hints, target)(picks[i]);
    }
    ks := WordsOfIds(ws, p, picks);
  }

  lemma {:induction false} PickIsWanted(
    entries: seq<Source>, chars: seq<char>, table: seq<seq<Seen>>, words: seq<BuiltWord>, ws: seq<Word>, p: Parts,
    keys: seq<Byte>, hints: Option<seq<Byte>>, target: int, max: nat, res: seq<Candidate>, picks: seq<nat>, k: nat, i: nat)
    requires CharTableOf(entries, chars, table) && WordTableOf(words, entries, chars, table) && EntriesOf(ws, words)
    requires p.chars == CharEntries(chars, table) && HintsCover(hints, keys)
    requires TopHits(res, picks, max, WordHit(ImageOf(p), keys, hints, target), WordCand(ImageOf(p)))
    requires i < |picks| && k < |words| && picks[i] < |p.flat| && p.flat[picks[i]] == ws[k] && Keyed(words[k])
    ensures i < |res| && Wanted(words[k], keys, hints, target) && res[i] == Offered(words[k].source)
  {
    hide CharTableOf, WordTableOf, CharEntries, Wanted, Keyed, Offered, WordEntry, IndexesFit, WordHit, WordCand, Descending;
    assert picks[i] in picks;
    HitIsWanted(entries, chars, table, words, ws, p, keys, hints, target, k, picks[i]);
  }

  /** The search over the image the compiled file serves: the best of the wanted source words. */
  method SearchSources(
    ghost entries: seq<Source>, ghost chars: seq<char>, ghost table: seq<seq<Seen>>, ghost words: seq<BuiltWord>,
    ghost ws: seq<Word>, ghost p: Parts, ghost syllables: seq<seq<char>>,
    image: Image, keys: seq<Byte>, hints: Option<seq<Byte>>, target: int, out: array<Candidate>, max: nat) returns (n: nat, ghost ks: seq<nat>)
    requires Built(entries, chars, table, words, ws, p, syllables) && AllKeyed(words) && image == ImageOf(p)
    requires HintsCover(hints, keys) && |keys| > 0 && target != 1 && max <= out.Length
    modifies out
    ensures n <= max && BestWanted(out[..n], words, keys, hints, target, max, ks)
  {
    hide Built, AllKeyed, BestWanted, TopHits, ImageOk, KeyBytesOk;
    BuiltImageOk(entries, chars, table, words, ws, p, syllables);
    ghost var picks;
    n, picks := Search(image, keys, hints, target, out, max);
    ks := ResultsAreSourceWords(entries, chars, table, words, ws, p, syllables, keys, hints, target, max, out[..n], picks);
  }
}
