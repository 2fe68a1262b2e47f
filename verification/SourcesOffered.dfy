/** From source lines to the candidate list: what the input method offers when its composition engine serves a
    dictionary compiled from a word list. */
module SourcesOffered {
  import opened Basics
  import opened WordIndex
  import opened IndexedSearch
  import opened TableBuilder
  import opened WordStrings
  import opened V4File
  import opened V4Readers
  import opened EndToEnd
  import opened SingleChars
  import opened CandidateMerge
  import opened LegacySearch
  import opened ImeKeys
  import opened ImeMachine
  import opened ImeSearches
  import opened OfferedRows

  /** The sources, and the file and tables made of them. */
  datatype Dictionary = Dictionary(entries: seq<Source>, chars: seq<char>, table: seq<seq<Seen>>, words: seq<BuiltWord>,
                                   ws: seq<Word>, parts: Parts, syllables: seq<seq<char>>)
  {
    ghost predicate Compiled() {
      Built(entries, chars, table, words, ws, parts, syllables) && AllKeyed(words)
    }
  }

  /** The engine of the input method serves the file compiled from the dictionary. */
  ghost predicate ServedBy(env: Env, d: Dictionary) {
    EnvOk(env) && env.composer.Some? && d.Compiled() && OfferedRows.Serves(env.composer.value, ImageOf(d.parts))
  }

  // ---------------------------------------------------------------- one answer

  lemma {:induction false} AnswerIsBestWanted(c: Composer, d: Dictionary, keys: seq<Byte>, hints: seq<Byte>, target: int, max: nat)
    returns (ks: seq<nat>)
    requires d.Compiled() && OfferedRows.Serves(c, ImageOf(d.parts)) && |hints| == |keys| > 0 && target != 1
    ensures BestWanted(c.search(keys, hints, target, max), d.words, keys, Some(hints), target, max, ks)
  {
    hide Built, AllKeyed, BestWanted, TopHits;
    assert Answers(c, ImageOf(d.parts), keys, hints, target, max);
    var picks :| AnswersWith(c, ImageOf(d.parts), keys, hints, target, max, picks);
    ks := ResultsAreSourceWords(d.entries, d.chars, d.table, d.words, d.ws, d.parts, d.syllables, keys, Some(hints), target, max,
                                c.search(keys, hints, target, max), picks);
  }

  lemma {:induction false} AnswerIsBestChars(c: Composer, d: Dictionary, keys: seq<Byte>, hints: seq<Byte>, max: nat)
    returns (cs: seq<char>)
    requires d.Compiled() && OfferedRows.Serves(c, ImageOf(d.parts)) && |hints| == |keys| > 0
    ensures BestChars(c.search(keys, hints, 1, max), d.entries, keys, Some(hints), Min(max, 256), cs)
  {
    hide AllKeyed, BestChars, TopHits, CharTableOf, WordTableOf, FileFits;
    assert Answers(c, ImageOf(d.parts), keys, hints, 1, max);
    var picks :| AnswersWith(c, ImageOf(d.parts), keys, hints, 1, max, picks);
    cs := ResultsAreSourceChars(d.entries, d.chars, d.table, d.parts, keys, Some(hints), Min(max, 256), c.search(keys, hints, 1, max), picks);
  }

  /** The word's text is among the candidates, or they fill the list and are all at least as frequent. */
  ghost predicate FoundOrBehind(cands: seq<Candidate>, text: seq<Byte>, freq: nat, max: nat) {
    (exists i :: 0 <= i < |cands| && cands[i].word == text)
    || (|cands| == max && forall i :: 0 <= i < |cands| ==> cands[i].freq >= freq)
  }

  lemma {:induction false} WantedIsAnswered(c: Composer, d: Dictionary, keys: seq<Byte>, hints: seq<Byte>, target: int, max: nat, k: nat)
    requires d.Compiled() && OfferedRows.Serves(c, ImageOf(d.parts)) && |hints| == |keys| > 0 && target != 1
    requires k < |d.words| && Wanted(d.words[k], keys, Some(hints), target)
    ensures FoundOrBehind(c.search(keys, hints, target, max), ShownText(d.words[k].source.word, 0), Min(d.words[k].source.freq, 0xFFFF), max)
  {
    hide OfferedRows.Serves, Built, AllKeyed, Wanted, ShownText;
    var ks := AnswerIsBestWanted(c, d, keys, hints, target, max);
    var r := c.search(keys, hints, target, max);
    if k in ks {
      var i :| 0 <= i < |ks| && ks[i] == k;
      assert r[i] == Offered(d.words[k].source);
    }
  }

  lemma {:induction false} CharIsAnswered(c: Composer, d: Dictionary, keys: seq<Byte>, hints: seq<Byte>, max: nat,
                                          e: Source, i: nat, ch: char)
    requires d.Compiled() && OfferedRows.Serves(c, ImageOf(d.parts)) && |hints| == |keys| > 0 && max <= 256
    requires e in d.entries && Asks(e, i, ch, keys, Some(hints))
    ensures FoundOrBehind(c.search(keys, hints, 1, max), Utf8(ch), SightedFreq(e), max)
  {
    hide OfferedRows.Serves, Built, AllKeyed, Asks, CharWanted;
    var cs := AnswerIsBestChars(c, d, keys, hints, max);
    var r := c.search(keys, hints, 1, max);
    if ch in cs {
      var n :| 0 <= n < |cs| && cs[n] == ch;
      assert OffersChar(d.entries, cs[n], keys, Some(hints), r[n]);
    }
  }

  // ---------------------------------------------------------------- up to four syllables

  /** The text is among the rows, or they fill the list and are all at least as frequent. */
  ghost predicate ListedOrBehind(rows: seq<Lru.Hit>, text: seq<Byte>, freq: nat) {
    Lru.HasHit(rows, text) || (|rows| == 100 && forall i :: 0 <= i < |rows| ==> rows[i].cand.freq >= freq)
  }

  lemma {:induction false} MainAnswerIsListed(rows: seq<Lru.Hit>, c: Composer, keys: seq<Byte>, hints: seq<Byte>, n: nat,
                                              b1: nat, b2: nat, b3: nat, text: seq<Byte>, freq: nat)
    requires InBuckets(rows, c, keys, hints, n, b1, b2, b3)
    requires FoundOrBehind(c.search(keys, hints, n, 100), text, freq, 100)
    ensures ListedOrBehind(rows, text, freq)
  {
    hide InTurn;
    var main := c.search(keys, hints, n, 100);
    if i :| 0 <= i < |main| && main[i].word == text {
      assert rows[i].cand.word == text;
    }
  }

  /** A source word of as many characters as syllables were typed, and that may be typed so, is listed, or behind a
      full list of words at least as frequent. */
  lemma {:induction false} SourceWordIsListed(env: Env, d: Dictionary, keys: seq<Byte>, hints: seq<Byte>, k: nat)
    requires env.composer.Some? && |hints| == |keys| > 0 && k < |d.words|
    requires 2 <= |d.words[k].source.word| == Typed(env.composer.value, keys) <= 4 && Types(d.words[k].source, keys, Some(hints))
    requires ServedBy(env, d)
    ensures ListedOrBehind(DictFound(env, SmartZh, keys, hints).rows, ShownText(d.words[k].source.word, 0), Min(d.words[k].source.freq, 0xFFFF))
  {
    hide OfferedRows.Serves, Built, AllKeyed, Types, ShownText, ListedOrBehind, InBuckets, FoundOrBehind, DictFound;
    CompiledOf(env, d);
    var c, n := env.composer.value, Typed(env.composer.value, keys);
    DictionariesList(env, SmartZh, keys, hints);
    hide ServedBy;
    var b1, b2, b3 :| InBuckets(DictFound(env, SmartZh, keys, hints).rows, c, keys, hints, n, b1, b2, b3);
    WantedIsAnswered(c, d, keys, hints, n, 100, k);
    MainAnswerIsListed(DictFound(env, SmartZh, keys, hints).rows, c, keys, hints, n, b1, b2, b3,
                       ShownText(d.words[k].source.word, 0), Min(d.words[k].source.freq, 0xFFFF));
  }

  lemma {:induction false} CompiledOf(env: Env, d: Dictionary)
    requires ServedBy(env, d)
    ensures d.Compiled() && OfferedRows.Serves(env.composer.value, ImageOf(d.parts))
  {
  }

  /** A character that a source line reads as typed is listed for one syllable, or behind a full list of characters
      at least as frequent. */
  lemma {:induction false} SourceCharIsListed(env: Env, d: Dictionary, keys: seq<Byte>, hints: seq<Byte>, e: Source, i: nat, ch: char)
    requires env.composer.Some? && |hints| == |keys| > 0 && Typed(env.composer.value, keys) == 1
    requires e in d.entries && Asks(e, i, ch, keys, Some(hints))
    requires ServedBy(env, d)
    ensures ListedOrBehind(DictFound(env, SmartZh, keys, hints).rows, Utf8(ch), SightedFreq(e))
  {
    hide OfferedRows.Serves, Asks, ListedOrBehind, InBuckets, FoundOrBehind;
    CompiledOf(env, d);
    var c := env.composer.value;
    DictionariesList(env, SmartZh, keys, hints);
    var b1, b2, b3 :| InBuckets(DictFound(env, SmartZh, keys, hints).rows, c, keys, hints, 1, b1, b2, b3);
    CharIsAnswered(c, d, keys, hints, 100, e, i, ch);
    MainAnswerIsListed(DictFound(env, SmartZh, keys, hints).rows, c, keys, hints, 1, b1, b2, b3, Utf8(ch), SightedFreq(e));
  }

  // ---------------------------------------------------------------- five syllables and more

  lemma {:induction false} FirstAnswerIsListed(rows: seq<Lru.Hit>, matched: nat, c: Composer, keys: seq<Byte>, hints: seq<Byte>,
                                               text: seq<Byte>, freq: nat)
    requires |hints| == |keys| > 0 && InSentence(rows, matched, c, keys, hints)
    requires FoundOrBehind(c.search(keys[..1], hints[..1], 1, 100), text, freq, 100)
    ensures ListedOrBehind(rows, text, freq)
  {
    var chars := c.search(keys[..1], hints[..1], 1, 100);
    if n :| 0 <= n < |chars| && chars[n].word == text {
      assert rows[n].cand.word == text;
    }
  }

  lemma {:induction false} PhraseAnswerIsListed(rows: seq<Lru.Hit>, matched: nat, c: Composer, keys: seq<Byte>, hints: seq<Byte>,
                                                text: seq<Byte>, freq: nat)
    requires |hints| == |keys| > 0 && InSentence(rows, matched, c, keys, hints)
    requires var chars := c.search(keys[..1], hints[..1], 1, 100);
      |chars| < 100 ==> FoundOrBehind(c.search(keys, hints, -1, 100 - |chars|), text, freq, 100 - |chars|)
    ensures Lru.HasHit(rows, text) || |rows| == 100
  {
    var chars := c.search(keys[..1], hints[..1], 1, 100);
    if |chars| < 100 {
      var phrases := c.search(keys, hints, -1, 100 - |chars|);
      if n :| 0 <= n < |phrases| && phrases[n].word == text {
        assert rows[|chars| + n].cand.word == phrases[n].word;
      }
    }
  }

  /** From five syllables on: a character that some source line begins with the first key is listed, or behind a full
      list of characters at least as frequent. */
  lemma {:induction false} FirstCharIsListed(env: Env, d: Dictionary, keys: seq<Byte>, hints: seq<Byte>, e: Source, i: nat, ch: char)
    requires env.composer.Some? && |hints| == |keys| > 0 && Typed(env.composer.value, keys) >= 5
    requires e in d.entries && Asks(e, i, ch, keys[..1], Some(hints[..1]))
    requires ServedBy(env, d)
    ensures ListedOrBehind(DictFound(env, SmartZh, keys, hints).rows, Utf8(ch), SightedFreq(e))
  {
    hide OfferedRows.Serves, Asks, InSentence, DictFound, FoundOrBehind, ListedOrBehind, Utf8;
    CompiledOf(env, d);
    var c, f := env.composer.value, DictFound(env, SmartZh, keys, hints);
    DictionariesList(env, SmartZh, keys, hints);
    assert |keys[..1]| == |hints[..1]| == 1;
    CharIsAnswered(c, d, keys[..1], hints[..1], 100, e, i, ch);
    FirstAnswerIsListed(f.rows, f.matched, c, keys, hints, Utf8(ch), SightedFreq(e));
  }

  /** And a source word of five or more characters that may be typed so is listed, or the list is full. */
  lemma {:induction false} PhraseIsListed(env: Env, d: Dictionary, keys: seq<Byte>, hints: seq<Byte>, k: nat)
    requires env.composer.Some? && |hints| == |keys| > 0 && Typed(env.composer.value, keys) >= 5
    requires k < |d.words| && |d.words[k].source.word| >= 5 && Types(d.words[k].source, keys, Some(hints))
    requires ServedBy(env, d)
    ensures var rows := DictFound(env, SmartZh, keys, hints).rows;
      Lru.HasHit(rows, ShownText(d.words[k].source.word, 0)) || |rows| == 100
  {
    hide OfferedRows.Serves, Built, AllKeyed, Types, ShownText, InSentence, DictFound, Lru.HasHit;
    CompiledOf(env, d);
    DictionariesList(env, SmartZh, keys, hints);
    hide ServedBy;
    PhraseIsAnswered(DictFound(env, SmartZh, keys, hints), env.composer.value, d, keys, hints, k);
  }

  lemma {:induction false} PhraseIsAnswered(f: Found, c: Composer, d: Dictionary, keys: seq<Byte>, hints: seq<Byte>, k: nat)
    requires |hints| == |keys| > 0 && InSentence(f.rows, f.matched, c, keys, hints)
    requires k < |d.words| && |d.words[k].source.word| >= 5 && Types(d.words[k].source, keys, Some(hints))
    requires d.Compiled() && OfferedRows.Serves(c, ImageOf(d.parts))
    ensures Lru.HasHit(f.rows, ShownText(d.words[k].source.word, 0)) || |f.rows| == 100
  {
    hide OfferedRows.Serves, Built, AllKeyed, Types, ShownText, InSentence, FoundOrBehind, Lru.HasHit;
    var chars := c.search(keys[..1], hints[..1], 1, 100);
    if |chars| < 100 { WantedIsAnswered(c, d, keys, hints, -1, 100 - |chars|, k); }
    PhraseAnswerIsListed(f.rows, f.matched, c, keys, hints, ShownText(d.words[k].source.word, 0), Min(d.words[k].source.freq, 0xFFFF));
  }

  // ---------------------------------------------------------------- nothing else, and the list offered

  /** The candidate is a source word or character of that length that may be typed so, shown as the sources say. */
  ghost predicate FromSources(d: Dictionary, cand: Candidate, keys: seq<Byte>, hints: seq<Byte>, target: int)
    requires |hints| == |keys| > 0
  {
    if target == 1 then exists ch :: CharWanted(d.entries, ch, keys, Some(hints)) && OffersChar(d.entries, ch, keys, Some(hints), cand)
    else exists k: nat :: k < |d.words| && Wanted(d.words[k], keys, Some(hints), target) && cand == Offered(d.words[k].source)
  }

  lemma {:induction false} AnswersAreSources(c: Composer, d: Dictionary, keys: seq<Byte>, hints: seq<Byte>, target: int, max: nat, i: nat)
    requires d.Compiled() && OfferedRows.Serves(c, ImageOf(d.parts)) && |hints| == |keys| > 0 && i < |c.search(keys, hints, target, max)|
    ensures FromSources(d, c.search(keys, hints, target, max)[i], keys, hints, target)
  {
    hide OfferedRows.Serves, Built, AllKeyed, Wanted, CharWanted, OffersChar, Offered;
    if target == 1 {
      var cs := AnswerIsBestChars(c, d, keys, hints, max);
      assert CharWanted(d.entries, cs[i], keys, Some(hints));
    } else {
      var ks := AnswerIsBestWanted(c, d, keys, hints, target, max);
      assert Wanted(d.words[ks[i]], keys, Some(hints), target);
    }
  }

  /** The source word is offered by the input method itself, with the remembered words in front, or its list of a
      hundred is full. */
  lemma {:induction false} SourceWordIsOffered(env: Env, d: Dictionary, s: State, k: nat)
    requires env.composer.Some? && s.mode == SmartZh && |s.hints| == |s.keys| > 0 && LruOk(s.lru) && k < |d.words|
    requires 2 <= |d.words[k].source.word| == Typed(env.composer.value, s.keys) <= 4 && Types(d.words[k].source, s.keys, Some(s.hints))
    requires ServedBy(env, d)
    ensures Lru.HasHit(Searched(env, s).rows, ShownText(d.words[k].source.word, 0)) || |Searched(env, s).rows| == 100
  {
    hide OfferedRows.Serves, Types, ShownText, Searched, DictFound;
    SourceWordIsListed(env, d, s.keys, s.hints, k);
    if Lru.HasHit(DictFound(env, s.mode, s.keys, s.hints).rows, ShownText(d.words[k].source.word, 0)) {
      ListedIsOffered(env, s, ShownText(d.words[k].source.word, 0));
    } else {
      FullStaysFull(env, d, s);
    }
  }

  lemma {:induction false} FullStaysFull(env: Env, d: Dictionary, s: State)
    requires env.composer.Some? && s.mode == SmartZh && |s.hints| == |s.keys| > 0 && LruOk(s.lru)
    requires 1 <= Typed(env.composer.value, s.keys) <= 4 && |DictFound(env, s.mode, s.keys, s.hints).rows| == 100
    requires ServedBy(env, d)
    ensures |Searched(env, s).rows| == 100
  {
    hide OfferedRows.Serves, BucketRows, Lru.Lookup, Merged, TableOk;
    CompiledOf(env, d);
    TablesAreOk(d);
    BucketsDistinct(env.composer.value, ImageOf(d.parts), s.keys, s.hints, Typed(env.composer.value, s.keys));
    LookupPrefixes(s.lru, s.keys, s.hints);
    var dict, hits := DictFound(env, s.mode, s.keys, s.hints).rows, Lru.Lookup(s.lru, s.keys, Some(s.hints), MAX_CANDIDATES);
    MergeIsAsLong(dict, hits, MAX_CANDIDATES);
    MergeAddsNothing(dict, hits, MAX_CANDIDATES);
  }

  lemma {:induction false} TablesAreOk(d: Dictionary)
    requires d.Compiled()
    ensures TableOk(ImageOf(d.parts))
  {
    hide Built, CharsOk, UniqueWords;
    BuiltImageOk(d.entries, d.chars, d.table, d.words, d.ws, d.parts, d.syllables);
  }

  // ---------------------------------------------------------------- and nothing else

  ghost predicate AllFrom(d: Dictionary, answers: seq<Candidate>, keys: seq<Byte>, hints: seq<Byte>, target: int)
    requires |hints| == |keys| > 0
  {
    forall i :: 0 <= i < |answers| ==> FromSources(d, answers[i], keys, hints, target)
  }

  lemma {:induction false} BucketIsSources(c: Composer, d: Dictionary, keys: seq<Byte>, hints: seq<Byte>, target: int)
    requires d.Compiled() && OfferedRows.Serves(c, ImageOf(d.parts)) && |hints| == |keys| > 0
    ensures AllFrom(d, ForLength(c, keys, hints, target), keys, hints, target)
  {
    hide OfferedRows.Serves, Built, AllKeyed, FromSources;
    if 1 <= target <= 4 {
      forall i | 0 <= i < |c.search(keys, hints, target, 100)| ensures FromSources(d, c.search(keys, hints, target, 100)[i], keys, hints, target) {
        AnswersAreSources(c, d, keys, hints, target, 100, i);
      }
    }
  }

  /** The row is a source word or character of the length typed, or at most two away from it. */
  ghost predicate NearSource(d: Dictionary, row: Lru.Hit, keys: seq<Byte>, hints: seq<Byte>, n: nat)
    requires |hints| == |keys| > 0
  {
    row.prefix == |keys| && exists t :: 1 <= t <= 4 && n - 2 <= t <= n + 2 && FromSources(d, row.cand, keys, hints, t)
  }

  lemma {:induction false} SegmentIsSources(rows: seq<Lru.Hit>, lo: nat, hi: nat, c: Composer, d: Dictionary, keys: seq<Byte>, hints: seq<Byte>,
                                            n: nat, target: int)
    requires |hints| == |keys| > 0 && InTurn(rows, lo, hi, ForLength(c, keys, hints, target), |keys|)
    requires n - 2 <= target <= n + 2 && AllFrom(d, ForLength(c, keys, hints, target), keys, hints, target)
    ensures forall i :: lo <= i < hi ==> i < |rows| && NearSource(d, rows[i], keys, hints, n)
  {
    hide FromSources;
    var more := ForLength(c, keys, hints, target);
    var at :| Segment(rows, lo, hi, more, |keys|, at);
    forall i | lo <= i < hi ensures NearSource(d, rows[i], keys, hints, n) {
      assert rows[lo + (i - lo)] == Lru.Hit(more[at[i - lo]], |keys|);
    }
  }

  /** Up to four syllables everything listed comes from the sources, is typed so, and has the length typed or one at
      most two away. */
  lemma {:induction false} RowsAreSources(env: Env, d: Dictionary, keys: seq<Byte>, hints: seq<Byte>)
    requires env.composer.Some? && |hints| == |keys| > 0 && 1 <= Typed(env.composer.value, keys) <= 4
    requires ServedBy(env, d)
    ensures var rows := DictFound(env, SmartZh, keys, hints).rows;
      forall i :: 0 <= i < |rows| ==> NearSource(d, rows[i], keys, hints, Typed(env.composer.value, keys))
  {
    hide OfferedRows.Serves, NearSource, AllFrom, InTurn, ForLength, DictFound;
    CompiledOf(env, d);
    hide ServedBy;
    var c, n, rows := env.composer.value, Typed(env.composer.value, keys), DictFound(env, SmartZh, keys, hints).rows;
    DictionariesList(env, SmartZh, keys, hints);
    var b1, b2, b3 :| InBuckets(rows, c, keys, hints, n, b1, b2, b3);
    BucketsAreSources(rows, c, d, keys, hints, n, b1, b2, b3);
  }

  lemma {:induction false} BucketsAreSources(rows: seq<Lru.Hit>, c: Composer, d: Dictionary, keys: seq<Byte>, hints: seq<Byte>, n: int,
                                             b1: nat, b2: nat, b3: nat)
    requires |hints| == |keys| > 0 && 1 <= n <= 4 && InBuckets(rows, c, keys, hints, n, b1, b2, b3)
    requires d.Compiled() && OfferedRows.Serves(c, ImageOf(d.parts))
    ensures forall i :: 0 <= i < |rows| ==> NearSource(d, rows[i], keys, hints, n)
  {
    hide OfferedRows.Serves, Built, AllKeyed, NearSource, AllFrom, InTurn, ForLength;
    MainIsSources(rows, c, d, keys, hints, n, b1, b2, b3);
    BucketIsSources(c, d, keys, hints, n + 1);
    BucketIsSources(c, d, keys, hints, n - 1);
    BucketIsSources(c, d, keys, hints, n + 2);
    BucketIsSources(c, d, keys, hints, n - 2);
    SegmentIsSources(rows, |c.search(keys, hints, n, 100)|, b1, c, d, keys, hints, n, n + 1);
    SegmentIsSources(rows, b1, b2, c, d, keys, hints, n, n - 1);
    SegmentIsSources(rows, b2, b3, c, d, keys, hints, n, n + 2);
    SegmentIsSources(rows, b3, |rows|, c, d, keys, hints, n, n - 2);
  }

  lemma {:induction false} MainIsSources(rows: seq<Lru.Hit>, c: Composer, d: Dictionary, keys: seq<Byte>, hints: seq<Byte>, n: nat,
                                         b1: nat, b2: nat, b3: nat)
    requires d.Compiled() && OfferedRows.Serves(c, ImageOf(d.parts)) && |hints| == |keys| > 0 && 1 <= n <= 4
    requires InBuckets(rows, c, keys, hints, n, b1, b2, b3)
    ensures forall i :: 0 <= i < |c.search(keys, hints, n, 100)| ==> i < |rows| && NearSource(d, rows[i], keys, hints, n)
  {
    hide OfferedRows.Serves, Built, AllKeyed, FromSources, InTurn;
    forall i | 0 <= i < |c.search(keys, hints, n, 100)| ensures NearSource(d, rows[i], keys, hints, n) {
      AnswersAreSources(c, d, keys, hints, n, 100, i);
    }
  }
}
