/** Is a word offered twice? With the v2 dictionary never; with the v4 engine only from five positions on, and
    exactly when the dictionary has two words that fit the keys and that the candidate buffer shows alike. */
module OfferedRows {
  import opened Basics
  import opened Composition
  import opened CandidateMerge
  import opened LegacySearch
  import opened Lru
  import opened ImeKeys
  import opened ImeMachine
  import opened WordStrings
  import I = IndexedSearch

  // ---------------------------------------------------------------- the dictionary behind the engine

  /** The composition engine answers as its search is proved to: with the best hits of a full scan. */
  ghost predicate Serves(c: Composer, image: I.Image) {
    forall keys, hints, target, max :: |keys| == |hints| && |keys| > 0 ==> Answers(c, image, keys, hints, target, max)
  }

  ghost predicate Answers(c: Composer, image: I.Image, keys: seq<Byte>, hints: seq<Byte>, target: int, max: nat)
    requires |hints| == |keys|
  {
    exists picks :: AnswersWith(c, image, keys, hints, target, max, picks)
  }

  ghost predicate AnswersWith(c: Composer, image: I.Image, keys: seq<Byte>, hints: seq<Byte>, target: int, max: nat,
                              picks: seq<nat>)
    requires |hints| == |keys|
  {
    if target == 1
    then I.TopHits(c.search(keys, hints, 1, max), picks, Min(max, 256),
                   I.CharHit(image, keys, Some(hints)), I.CharCand(image, keys, Some(hints)))
    else I.TopHits(c.search(keys, hints, target, max), picks, max,
                   I.WordHit(image, keys, Some(hints), target), I.WordCand(image))
  }

  ghost predicate TableOk(image: I.Image) {
    CharsOk(image.table.chars) && UniqueWords(image.words)
  }

  // ---------------------------------------------------------------- one answer

  lemma {:induction false} PickedWord(c: Composer, image: I.Image, keys: seq<Byte>, hints: seq<Byte>, target: int, max: nat,
                                      picks: seq<nat>, i: nat)
    requires |hints| == |keys| && target != 1 && AnswersWith(c, image, keys, hints, target, max, picks) && i < |picks|
    ensures var r := c.search(keys, hints, target, max);
      && |r| == |picks| && picks[i] < |image.words| && WordInTable(image.table, image.words[picks[i]])
      && I.InClass(target, |image.words[picks[i]].charIds|)
      && r[i].word == I.WordString(image.table, image.words[picks[i]], 0, 0)
  {
    assert picks[i] in picks;
    assert I.WordHit(image, keys, Some(hints), target)(picks[i]);
  }

  /** Two picked words have the same text exactly when their texts show the same characters. */
  lemma {:induction false} PicksDiffer(c: Composer, image: I.Image, keys: seq<Byte>, hints: seq<Byte>, target: int, max: nat,
                                       picks: seq<nat>, i: nat, j: nat)
    requires TableOk(image) && |hints| == |keys| && target != 1 && i < j < |picks|
    requires AnswersWith(c, image, keys, hints, target, max, picks)
    ensures picks[i] < |image.words| && picks[j] < |image.words|
    ensures WordInTable(image.table, image.words[picks[i]]) && WordInTable(image.table, image.words[picks[j]])
    ensures image.words[picks[i]].charIds != image.words[picks[j]].charIds
    ensures |c.search(keys, hints, target, max)| == |picks|
    ensures c.search(keys, hints, target, max)[i].word == c.search(keys, hints, target, max)[j].word
      <==> ShownIds(image.table, image.words[picks[i]]) == ShownIds(image.table, image.words[picks[j]])
  {
    PickedWord(c, image, keys, hints, target, max, picks, i);
    PickedWord(c, image, keys, hints, target, max, picks, j);
    SameTextExactlyWhen(image.table, image.words[picks[i]], image.words[picks[j]]);
    assert picks[i] != picks[j];
    if picks[i] < picks[j] {
      assert image.words[picks[i]].charIds != image.words[picks[j]].charIds;
    } else {
      assert image.words[picks[j]].charIds != image.words[picks[i]].charIds;
    }
  }

  /** Words of two to four characters are shown whole. */
  lemma {:induction false} ShortWordsDistinct(c: Composer, image: I.Image, keys: seq<Byte>, hints: seq<Byte>, target: int, max: nat)
    requires Serves(c, image) && TableOk(image) && |hints| == |keys| > 0 && 2 <= target <= 4
    ensures DistinctWords(c.search(keys, hints, target, max))
  {
    assert Answers(c, image, keys, hints, target, max);
    var picks :| AnswersWith(c, image, keys, hints, target, max, picks);
    var r := c.search(keys, hints, target, max);
    forall i, j | 0 <= i < j < |r| ensures r[i].word != r[j].word {
      PicksDiffer(c, image, keys, hints, target, max, picks, i, j);
      PickedWord(c, image, keys, hints, target, max, picks, i);
      PickedWord(c, image, keys, hints, target, max, picks, j);
      var v, w := image.words[picks[i]], image.words[picks[j]];
      if ShownIds(image.table, v) == ShownIds(image.table, w) { SharedTextIsCut(image.table, v, w); }
    }
  }

  lemma {:induction false} PickedChar(c: Composer, image: I.Image, keys: seq<Byte>, hints: seq<Byte>, max: nat,
                                      picks: seq<nat>, i: nat)
    requires CharsOk(image.table.chars) && |hints| == |keys|
    requires AnswersWith(c, image, keys, hints, 1, max, picks) && i < |picks|
    ensures var r := c.search(keys, hints, 1, max);
      |r| == |picks| && picks[i] < |image.table.chars| && r[i].word == image.table.chars[picks[i]].utf8
  {
    assert picks[i] in picks;
    assert I.CharHit(image, keys, Some(hints))(picks[i]);
    var k: nat :| I.FirstFit(image, keys, Some(hints), picks[i], k);
    I.OneFirstFit(image, keys, Some(hints), picks[i], k);
    var utf8 := image.table.chars[picks[i]].utf8;
    assert Utf8Char(utf8);
    assert utf8[..Min(|utf8|, CANDIDATE_MAX_BYTES - 1)] == utf8;
  }

  lemma {:induction false} CharsDistinct(c: Composer, image: I.Image, keys: seq<Byte>, hints: seq<Byte>, max: nat)
    requires Serves(c, image) && TableOk(image) && |hints| == |keys| > 0
    ensures DistinctWords(c.search(keys, hints, 1, max))
  {
    assert Answers(c, image, keys, hints, 1, max);
    var picks :| AnswersWith(c, image, keys, hints, 1, max, picks);
    var r := c.search(keys, hints, 1, max);
    forall i, j | 0 <= i < j < |r| ensures r[i].word != r[j].word {
      PickedChar(c, image, keys, hints, max, picks, i);
      PickedChar(c, image, keys, hints, max, picks, j);
      assert picks[i] != picks[j];
    }
  }

  // ---------------------------------------------------------------- up to four positions

  lemma {:induction false} WidenedDistinct(c: Composer, keys: seq<Byte>, hints: seq<Byte>, target: int, rows: seq<Lru.Hit>)
    requires DistinctRows(rows)
    ensures DistinctRows(Widened(c, keys, hints, target, rows))
  {
    if 1 <= target <= 4 { ExtendedDistinct(rows, c.search(keys, hints, target, MAX_CANDIDATES), |keys|, MAX_CANDIDATES); }
  }

  lemma {:induction false} BucketsDistinct(c: Composer, image: I.Image, keys: seq<Byte>, hints: seq<Byte>, n: nat)
    requires Serves(c, image) && TableOk(image) && |hints| == |keys| > 0 && 1 <= n <= 4
    ensures DistinctRows(BucketRows(c, keys, hints, n))
  {
    hide Widened, Serves, TableOk;
    if n == 1 {
      CharsDistinct(c, image, keys, hints, MAX_CANDIDATES);
    } else {
      ShortWordsDistinct(c, image, keys, hints, n, MAX_CANDIDATES);
    }
    var r0 := RowsOf(c.search(keys, hints, n, MAX_CANDIDATES), |keys|);
    var r1 := Widened(c, keys, hints, n + 1, r0);
    var r2 := Widened(c, keys, hints, n - 1, r1);
    var r3 := Widened(c, keys, hints, n + 2, r2);
    WidenedDistinct(c, keys, hints, n + 1, r0);
    WidenedDistinct(c, keys, hints, n - 1, r1);
    WidenedDistinct(c, keys, hints, n + 2, r2);
    WidenedDistinct(c, keys, hints, n - 2, r3);
  }

  // ---------------------------------------------------------------- five positions and more

  /** Two of the picked phrases show the same characters: they share the beginning that fits. */
  ghost predicate PhrasesCollide(image: I.Image, picks: seq<nat>) {
    exists i, j :: 0 <= i < j < |picks| && CollideAt(image, picks[i], picks[j])
  }

  ghost predicate CollideAt(image: I.Image, a: nat, b: nat) {
    && a < |image.words| && b < |image.words|
    && WordInTable(image.table, image.words[a]) && WordInTable(image.table, image.words[b])
    && ShownIds(image.table, image.words[a]) == ShownIds(image.table, image.words[b])
  }

  /** The picks behind the phrases of a sentence search. */
  ghost predicate PhrasePicks(c: Composer, image: I.Image, keys: seq<Byte>, hints: seq<Byte>, picks: seq<nat>)
    requires |hints| == |keys| > 0
  {
    var room: int := MAX_CANDIDATES - |CharsFor(c, keys, hints)|;
    if room > 0 then AnswersWith(c, image, keys, hints, -1, room, picks) else picks == []
  }

  lemma {:induction false} PhrasesArePicked(c: Composer, image: I.Image, keys: seq<Byte>, hints: seq<Byte>)
    returns (picks: seq<nat>)
    requires Serves(c, image) && |hints| == |keys| > 0
    ensures PhrasePicks(c, image, keys, hints, picks)
  {
    hide AnswersWith;
    var room: int := MAX_CANDIDATES - |CharsFor(c, keys, hints)|;
    picks := [];
    if room > 0 {
      assert Answers(c, image, keys, hints, -1, room);
      picks :| AnswersWith(c, image, keys, hints, -1, room, picks);
    }
  }

  /** A single character is never the text of a phrase. */
  lemma {:induction false} CharIsNoPhrase(d: CharTable, w: WordView, cid: nat)
    requires CharsOk(d.chars) && WordInTable(d, w) && |w.charIds| >= 5 && cid < |d.chars|
    ensures WordString(d, w) != d.chars[cid].utf8
  {
    TextIs(d, w, 0, 0);
    SevenFit(d, w, 0, 0);
    assert Concat(d.chars, [cid]) == d.chars[cid].utf8 by { assert [cid][1..] == []; }
    if WordString(d, w) == d.chars[cid].utf8 { DecodesOnce(d.chars, ShownIds(d, w), [cid]); }
  }

  function WordString(d: CharTable, w: WordView): seq<Byte>
    requires WordInTable(d, w)
  {
    I.WordString(d, w, 0, 0)
  }

  lemma {:induction false} CharBehind(c: Composer, image: I.Image, keys: seq<Byte>, hints: seq<Byte>, i: nat)
    returns (cid: nat)
    requires Serves(c, image) && TableOk(image) && |hints| == |keys| > 0 && i < |CharsFor(c, keys, hints)|
    ensures cid < |image.table.chars| && CharsFor(c, keys, hints)[i].word == image.table.chars[cid].utf8
  {
    hide AnswersWith;
    assert |keys[..1]| == |hints[..1]| == 1;
    assert Answers(c, image, keys[..1], hints[..1], 1, MAX_CANDIDATES);
    var at :| AnswersWith(c, image, keys[..1], hints[..1], 1, MAX_CANDIDATES, at);
    CharCount(c, image, keys[..1], hints[..1], MAX_CANDIDATES, at);
    PickedChar(c, image, keys[..1], hints[..1], MAX_CANDIDATES, at, i);
    cid := at[i];
  }

  lemma {:induction false} CharCount(c: Composer, image: I.Image, keys: seq<Byte>, hints: seq<Byte>, max: nat, picks: seq<nat>)
    requires |hints| == |keys| && AnswersWith(c, image, keys, hints, 1, max, picks)
    ensures |c.search(keys, hints, 1, max)| == |picks|
  {
  }

  lemma {:induction false} PhraseBehind(c: Composer, image: I.Image, keys: seq<Byte>, hints: seq<Byte>, picks: seq<nat>, j: nat)
    requires |hints| == |keys| > 0 && PhrasePicks(c, image, keys, hints, picks) && j < |PhrasesFor(c, keys, hints)|
    ensures j < |picks| && picks[j] < |image.words| && WordInTable(image.table, image.words[picks[j]])
    ensures |image.words[picks[j]].charIds| >= 5
    ensures PhrasesFor(c, keys, hints)[j].word == WordString(image.table, image.words[picks[j]])
  {
    var room: nat := MAX_CANDIDATES - |CharsFor(c, keys, hints)|;
    PhraseCount(c, image, keys, hints, picks);
    PickedWord(c, image, keys, hints, -1, room, picks, j);
  }

  lemma {:induction false} CharsAndPhrasesDiffer(c: Composer, image: I.Image, keys: seq<Byte>, hints: seq<Byte>,
                                                 picks: seq<nat>, i: nat, j: nat)
    requires Serves(c, image) && TableOk(image) && |hints| == |keys| > 0 && PhrasePicks(c, image, keys, hints, picks)
    requires i < |CharsFor(c, keys, hints)| && j < |PhrasesFor(c, keys, hints)|
    ensures CharsFor(c, keys, hints)[i].word != PhrasesFor(c, keys, hints)[j].word
  {
    hide Serves, PhrasePicks, CharsOk, UniqueWords;
    var cid := CharBehind(c, image, keys, hints, i);
    PhraseBehind(c, image, keys, hints, picks, j);
    CharIsNoPhrase(image.table, image.words[picks[j]], cid);
  }

  /** Characters first, then phrases: no text twice exactly when no two of the picked phrases collide. */
  lemma {:induction false} SentenceIsDistinctExactlyWhen(c: Composer, image: I.Image, keys: seq<Byte>, hints: seq<Byte>,
                                                         picks: seq<nat>)
    requires Serves(c, image) && TableOk(image) && |hints| == |keys| > 0 && PhrasePicks(c, image, keys, hints, picks)
    ensures DistinctRows(SentenceFound(c, keys, hints).rows) <==> !PhrasesCollide(image, picks)
  {
    hide Serves, TableOk, PhrasePicks, CollideAt;
    var chars, phrases := CharsFor(c, keys, hints), PhrasesFor(c, keys, hints);
    var rows, n := SentenceFound(c, keys, hints).rows, |chars|;
    CharsDistinct(c, image, keys[..1], hints[..1], MAX_CANDIDATES);
    PhraseCount(c, image, keys, hints, picks);
    forall i, j | 0 <= i < j < |phrases|
      ensures phrases[i].word == phrases[j].word <==> CollideAt(image, picks[i], picks[j])
    {
      PhrasesCollideAt(c, image, keys, hints, picks, i, j);
    }
    if PhrasesCollide(image, picks) {
      var i, j :| 0 <= i < j < |picks| && CollideAt(image, picks[i], picks[j]);
      assert rows[n + i].cand == phrases[i] && rows[n + j].cand == phrases[j];
    } else {
      forall i, j | 0 <= i < j < |rows| ensures rows[i].cand.word != rows[j].cand.word {
        if i < n <= j { CharsAndPhrasesDiffer(c, image, keys, hints, picks, i, j - n); }
      }
    }
  }

  lemma {:induction false} PhraseCount(c: Composer, image: I.Image, keys: seq<Byte>, hints: seq<Byte>, picks: seq<nat>)
    requires |hints| == |keys| > 0 && PhrasePicks(c, image, keys, hints, picks)
    ensures |PhrasesFor(c, keys, hints)| == |picks|
  {
  }

  lemma {:induction false} PhrasesCollideAt(c: Composer, image: I.Image, keys: seq<Byte>, hints: seq<Byte>, picks: seq<nat>,
                                            i: nat, j: nat)
    requires TableOk(image) && |hints| == |keys| > 0 && PhrasePicks(c, image, keys, hints, picks)
    requires i < j < |picks|
    ensures |PhrasesFor(c, keys, hints)| == |picks|
    ensures PhrasesFor(c, keys, hints)[i].word == PhrasesFor(c, keys, hints)[j].word
      <==> CollideAt(image, picks[i], picks[j])
  {
    var room: nat := MAX_CANDIDATES - |CharsFor(c, keys, hints)|;
    PicksDiffer(c, image, keys, hints, -1, room, picks, i, j);
  }

  // ---------------------------------------------------------------- the whole list

  lemma {:induction false} HitsDistinct(es: seq<Entry>, keys: seq<Byte>, hints: seq<Byte>)
    requires LruOk(es) && |hints| == |keys| > 0
    ensures DistinctRows(Lookup(es, keys, Some(hints), MAX_CANDIDATES))
  {
    RowsDistinct(Lru.Ranked(es, keys, Some(hints)), MAX_CANDIDATES);
  }

  /** The composition engine is asked. */
  predicate UsesComposer(env: Env, s: State) {
    env.composer.Some? && s.mode == SmartZh
  }

  /** Five or more positions, and two of the phrases picked for them collide. */
  ghost predicate OffersTwice(env: Env, s: State, image: I.Image, picks: seq<nat>) {
    && UsesComposer(env, s) && Positions(env.composer.value, s.keys) >= 5
    && PhrasesCollide(image, picks)
  }

  /** What a search is asked about: the engine, if used, serves these tables, and these are its phrases. */
  ghost predicate Asked(env: Env, s: State, image: I.Image, picks: seq<nat>) {
    && KeysOk(s.keys, s.hints) && LruOk(s.lru) && |s.keys| > 0
    && (UsesComposer(env, s) ==>
          Serves(env.composer.value, image) && TableOk(image)
          && PhrasePicks(env.composer.value, image, s.keys, s.hints, picks))
  }

  /** The dictionary's rows list no text twice exactly unless two phrases collide. */
  lemma {:induction false} DictIsDistinctExactlyWhen(env: Env, s: State, image: I.Image, picks: seq<nat>)
    requires Asked(env, s, image, picks)
    ensures DistinctRows(DictFound(env, s.mode, s.keys, s.hints).rows) <==> !OffersTwice(env, s, image, picks)
  {
    hide RowsFrom, BucketRows, SentenceFound, Serves, TableOk, PhrasePicks, PhrasesCollide;
    if UsesComposer(env, s) {
      var c, n := env.composer.value, Positions(env.composer.value, s.keys);
      if 1 <= n <= 4 { BucketsDistinct(c, image, s.keys, s.hints, n); }
      if n >= 5 { SentenceIsDistinctExactlyWhen(c, image, s.keys, s.hints, picks); }
    } else if ActiveSearcher(env, s.mode).Some? {
      RowsShape(ActiveSearcher(env, s.mode).value, s.keys, 1);
    }
  }

  // ---------------------------------------------------------------- the condition, on the table and the keys

  /** Two different long words that fit the keys and hints. */
  ghost predicate BothFit(image: I.Image, keys: seq<Byte>, hints: seq<Byte>, a: nat, b: nat) {
    a != b && I.WordHit(image, keys, Some(hints), -1)(a) && I.WordHit(image, keys, Some(hints), -1)(b)
  }

  /** Two of them show the same characters. */
  ghost predicate CollidingWords(image: I.Image, keys: seq<Byte>, hints: seq<Byte>) {
    exists a: nat, b: nat :: BothFit(image, keys, hints, a, b) && CollideAt(image, a, b)
  }

  /** Picked phrases collide only if words of the table do; and if these do and there is room left, they are
      picked. */
  lemma {:induction false} CollidingWordsArePicked(c: Composer, image: I.Image, keys: seq<Byte>, hints: seq<Byte>, picks: seq<nat>)
    requires |hints| == |keys| > 0 && PhrasePicks(c, image, keys, hints, picks)
    ensures PhrasesCollide(image, picks) ==> CollidingWords(image, keys, hints)
    ensures CollidingWords(image, keys, hints) && |SentenceFound(c, keys, hints).rows| < MAX_CANDIDATES ==> PhrasesCollide(image, picks)
  {
    hide CollideAt, I.WordHit;
    var room: int := MAX_CANDIDATES - |CharsFor(c, keys, hints)|;
    if PhrasesCollide(image, picks) {
      var i, j :| 0 <= i < j < |picks| && CollideAt(image, picks[i], picks[j]);
      assert picks[i] in picks && picks[j] in picks;
      assert BothFit(image, keys, hints, picks[i], picks[j]);
    }
    if CollidingWords(image, keys, hints) && |SentenceFound(c, keys, hints).rows| < MAX_CANDIDATES {
      var a: nat, b: nat :| BothFit(image, keys, hints, a, b) && CollideAt(image, a, b);
      assert a in picks && b in picks;
      CollideEitherWay(image, a, b);
      PickedPair(image, picks, a, b);
    }
  }

  lemma {:induction false} CollideEitherWay(image: I.Image, a: nat, b: nat)
    requires CollideAt(image, a, b)
    ensures CollideAt(image, b, a)
  {
  }

  lemma {:induction false} PickedPair(image: I.Image, picks: seq<nat>, a: nat, b: nat)
    requires a != b && a in picks && b in picks && CollideAt(image, a, b) && CollideAt(image, b, a)
    ensures PhrasesCollide(image, picks)
  {
    hide CollideAt;
    var i :| 0 <= i < |picks| && picks[i] == a;
    var j :| 0 <= j < |picks| && picks[j] == b;
    assert i < j || j < i;
  }

  /** A search is asked for something, of an engine that serves these tables. */
  ghost predicate Served(env: Env, s: State, image: I.Image) {
    && KeysOk(s.keys, s.hints) && LruOk(s.lru) && |s.keys| > 0
    && (UsesComposer(env, s) ==> Serves(env.composer.value, image) && TableOk(image))
  }

  /** Five or more positions, and colliding words for these keys. */
  ghost predicate MayOfferTwice(env: Env, s: State, image: I.Image)
    requires |s.hints| == |s.keys|
  {
    UsesComposer(env, s) && Positions(env.composer.value, s.keys) >= 5 && CollidingWords(image, s.keys, s.hints)
  }

  lemma {:induction false} PicksOf(env: Env, s: State, image: I.Image) returns (picks: seq<nat>)
    requires Served(env, s, image)
    ensures Asked(env, s, image, picks)
    ensures OffersTwice(env, s, image, picks) ==> MayOfferTwice(env, s, image)
    ensures MayOfferTwice(env, s, image) && |DictFound(env, s.mode, s.keys, s.hints).rows| < MAX_CANDIDATES ==>
      OffersTwice(env, s, image, picks)
  {
    hide Serves, TableOk, PhrasePicks, PhrasesCollide, CollidingWords, SentenceFound;
    picks := [];
    if UsesComposer(env, s) {
      picks := PhrasesArePicked(env.composer.value, image, s.keys, s.hints);
      CollidingWordsArePicked(env.composer.value, image, s.keys, s.hints, picks);
    }
  }

  /** The dictionary's rows list no text twice unless such words collide; in an answer that is not full, exactly
      unless they do. */
  lemma {:induction false} DictListsTwiceExactlyWhen(env: Env, s: State, image: I.Image)
    requires Served(env, s, image)
    ensures !MayOfferTwice(env, s, image) ==> DistinctRows(DictFound(env, s.mode, s.keys, s.hints).rows)
    ensures |DictFound(env, s.mode, s.keys, s.hints).rows| < MAX_CANDIDATES ==>
      (DistinctRows(DictFound(env, s.mode, s.keys, s.hints).rows) <==> !MayOfferTwice(env, s, image))
  {
    hide DictFound, Serves, TableOk, PhrasePicks, PhrasesCollide, CollidingWords, OffersTwice, MayOfferTwice;
    var picks := PicksOf(env, s, image);
    DictIsDistinctExactlyWhen(env, s, image, picks);
  }

  /** A collision is not hidden by the personal cache: its words are shorter than a cut text. */
  lemma {:induction false} CollisionIsNoHit(c: Composer, image: I.Image, keys: seq<Byte>, hints: seq<Byte>, picks: seq<nat>,
                                            es: seq<Entry>, i: nat, j: nat)
    requires TableOk(image) && |hints| == |keys| > 0 && PhrasePicks(c, image, keys, hints, picks)
    requires i < j < |picks| && CollideAt(image, picks[i], picks[j]) && LruOk(es)
    ensures |PhrasesFor(c, keys, hints)| == |picks|
    ensures !HasHit(Lookup(es, keys, Some(hints), MAX_CANDIDATES), PhrasesFor(c, keys, hints)[i].word)
    ensures PhrasesFor(c, keys, hints)[j].word == PhrasesFor(c, keys, hints)[i].word
  {
    hide Lookup, HasHit;
    PhrasesCollideAt(c, image, keys, hints, picks, i, j);
    CollidingTextIsLong(c, image, keys, hints, picks, i, j);
    HitsAreShort(es, keys, hints, PhrasesFor(c, keys, hints)[i].word);
  }

  lemma {:induction false} CollidingTextIsLong(c: Composer, image: I.Image, keys: seq<Byte>, hints: seq<Byte>,
                                               picks: seq<nat>, i: nat, j: nat)
    requires TableOk(image) && |hints| == |keys| > 0 && PhrasePicks(c, image, keys, hints, picks)
    requires i < j < |picks| && CollideAt(image, picks[i], picks[j])
    ensures |PhrasesFor(c, keys, hints)| == |picks| && |PhrasesFor(c, keys, hints)[i].word| > WORD_MAX
  {
    var room: nat := MAX_CANDIDATES - |CharsFor(c, keys, hints)|;
    PicksDiffer(c, image, keys, hints, -1, room, picks, i, j);
    PickedWord(c, image, keys, hints, -1, room, picks, i);
    SharedTextIsCut(image.table, image.words[picks[i]], image.words[picks[j]]);
  }

  lemma {:induction false} HitsAreShort(es: seq<Entry>, keys: seq<Byte>, hints: seq<Byte>, word: seq<Byte>)
    requires LruOk(es) && |hints| == |keys| > 0 && |word| > WORD_MAX
    ensures !HasHit(Lookup(es, keys, Some(hints), MAX_CANDIDATES), word)
  {
    var ranked := Lru.Ranked(es, keys, Some(hints));
    RowsInOrder(ranked, MAX_CANDIDATES);
  }

  /** In a merged list that is not full, a text that the dictionary lists twice and the cache does not is
      listed twice. */
  lemma {:induction false} MergeKeepsTwice(dict: seq<Lru.Hit>, hits: seq<Lru.Hit>, max: nat, i: nat, j: nat)
    requires |dict| <= max && |hits| <= max && i < j < |dict| && dict[i].cand.word == dict[j].cand.word
    requires !HasHit(hits, dict[i].cand.word) && |Merged(dict, hits, max)| < max
    ensures !DistinctRows(Merged(dict, hits, max))
  {
    hide HasHit, Merged;
    var at := MergeIsClean(dict, hits, max);
    var m, n := Merged(dict, hits, max), |hits|;
    assert i in at && j in at;
    var p :| 0 <= p < |at| && at[p] == i;
    var q :| 0 <= q < |at| && at[q] == j;
    assert m[n + p] == dict[i] && m[n + q] == dict[j];
  }

  lemma {:induction false} OfferedTwiceAmongPicks(env: Env, s: State, image: I.Image, picks: seq<nat>)
    requires EnvOk(env) && Asked(env, s, image, picks)
    ensures !OffersTwice(env, s, image, picks) ==> DistinctRows(Searched(env, s).rows)
    ensures OffersTwice(env, s, image, picks) && |Searched(env, s).rows| < MAX_CANDIDATES ==>
      !DistinctRows(Searched(env, s).rows)
  {
    hide Lookup, Merged, DictFound, Serves, TableOk, PhrasePicks, PhrasesCollide;
    var dict := DictFound(env, s.mode, s.keys, s.hints).rows;
    var hits := Lookup(s.lru, s.keys, Some(s.hints), MAX_CANDIDATES);
    DictIsDistinctExactlyWhen(env, s, image, picks);
    HitsDistinct(s.lru, s.keys, s.hints);
    if !OffersTwice(env, s, image, picks) { MergeIsDistinct(dict, hits, MAX_CANDIDATES); }
    if OffersTwice(env, s, image, picks) && |Searched(env, s).rows| < MAX_CANDIDATES {
      CollisionIsOffered(env, s, image, picks);
    }
  }

  /** No word is offered twice unless the dictionary has two different long words that fit the keys and that
      the candidate buffer shows alike; and then, unless the list is full, one is. */
  lemma {:induction false} WordsAreOfferedTwiceExactlyWhen(env: Env, s: State, image: I.Image)
    requires EnvOk(env) && Served(env, s, image)
    ensures !MayOfferTwice(env, s, image) ==> DistinctRows(Searched(env, s).rows)
    ensures |Searched(env, s).rows| < MAX_CANDIDATES ==>
      (DistinctRows(Searched(env, s).rows) <==> !MayOfferTwice(env, s, image))
  {
    hide Searched, DictFound, Serves, TableOk, PhrasePicks, PhrasesCollide, CollidingWords, OffersTwice, MayOfferTwice, Asked;
    var picks := PicksOf(env, s, image);
    OfferedTwiceAmongPicks(env, s, image, picks);
    if |Searched(env, s).rows| < MAX_CANDIDATES && !OffersTwice(env, s, image, picks) {
      ListFullOfDict(env, s, image, picks);
    }
  }

  /** The words of the rows that a merge drops are words of hits, each dropped once. */
  lemma {:induction false} DroppedAreHits(dict: seq<Lru.Hit>, hits: seq<Lru.Hit>) returns (dropped: set<seq<Byte>>)
    requires DistinctRows(dict)
    ensures |dropped| == |dict| - |Kept(dict, hits)|
    ensures forall w :: w in dropped ==> HasHit(hits, w) && HasHit(dict, w)
  {
    hide HasHit;
    dropped := {};
    if |dict| > 0 {
      var n := |dict| - 1;
      dropped := DroppedAreHits(dict[..n], hits);
      if HasHit(dict[..n], dict[n].cand.word) { NotTwice(dict); }
      if HasHit(hits, dict[n].cand.word) { dropped := dropped + {dict[n].cand.word}; }
      forall w | w in dropped ensures HasHit(dict, w) {
        if w == dict[n].cand.word { FoundAtIndex(dict, n); } else { StillThere(dict, n, w); }
      }
    }
  }

  lemma {:induction false} NotTwice(rows: seq<Lru.Hit>)
    requires DistinctRows(rows) && |rows| > 0
    ensures !HasHit(rows[..|rows| - 1], rows[|rows| - 1].cand.word)
  {
  }

  lemma {:induction false} FoundAtIndex(rows: seq<Lru.Hit>, i: nat)
    requires i < |rows|
    ensures HasHit(rows, rows[i].cand.word)
  {
  }

  lemma {:induction false} StillThere(rows: seq<Lru.Hit>, n: nat, word: seq<Byte>)
    requires n <= |rows| && HasHit(rows[..n], word)
    ensures HasHit(rows, word)
  {
    var i :| 0 <= i < n && rows[..n][i].cand.word == word;
    assert rows[i].cand.word == word;
  }

  lemma {:induction false} NoMoreWordsThanHits(hits: seq<Lru.Hit>, words: set<seq<Byte>>)
    requires forall w :: w in words ==> HasHit(hits, w)
    ensures |words| <= |hits|
  {
    if |hits| == 0 {
      assert words == {};
    } else {
      var n := |hits| - 1;
      var rest := words - {hits[n].cand.word};
      forall w | w in rest ensures HasHit(hits[..n], w) {
        var i :| 0 <= i < |hits| && hits[i].cand.word == w;
        assert hits[..n][i].cand.word == w;
      }
      NoMoreWordsThanHits(hits[..n], rest);
    }
  }

  /** Without repeated words the merge is at least as long as the dictionary's answer. */
  lemma {:induction false} MergeIsAsLong(dict: seq<Lru.Hit>, hits: seq<Lru.Hit>, max: nat)
    requires DistinctRows(dict) && |dict| <= max && |hits| <= max
    ensures |Merged(dict, hits, max)| >= |dict|
  {
    hide HasHit;
    var dropped := DroppedAreHits(dict, hits);
    NoMoreWordsThanHits(hits, dropped);
  }

  lemma {:induction false} ListFullOfDict(env: Env, s: State, image: I.Image, picks: seq<nat>)
    requires EnvOk(env) && Asked(env, s, image, picks) && !OffersTwice(env, s, image, picks)
    ensures |Searched(env, s).rows| >= |DictFound(env, s.mode, s.keys, s.hints).rows|
  {
    hide Lookup, Merged, DictFound, Serves, TableOk, PhrasePicks, PhrasesCollide;
    DictIsDistinctExactlyWhen(env, s, image, picks);
    DictOk(env, s.mode, s.keys, s.hints);
    LookupPrefixes(s.lru, s.keys, s.hints);
    MergeIsAsLong(DictFound(env, s.mode, s.keys, s.hints).rows, Lookup(s.lru, s.keys, Some(s.hints), MAX_CANDIDATES), MAX_CANDIDATES);
  }

  lemma {:induction false} CollisionIsOffered(env: Env, s: State, image: I.Image, picks: seq<nat>)
    requires EnvOk(env) && Asked(env, s, image, picks)
    requires OffersTwice(env, s, image, picks) && |Searched(env, s).rows| < MAX_CANDIDATES
    ensures !DistinctRows(Searched(env, s).rows)
  {
    hide Lookup, Merged, Serves, TableOk, PhrasePicks, CollideAt;
    var c := env.composer.value;
    var dict := DictFound(env, s.mode, s.keys, s.hints).rows;
    var hits := Lookup(s.lru, s.keys, Some(s.hints), MAX_CANDIDATES);
    var i, j :| 0 <= i < j < |picks| && CollideAt(image, picks[i], picks[j]);
    CollisionIsNoHit(c, image, s.keys, s.hints, picks, s.lru, i, j);
    DictOk(env, s.mode, s.keys, s.hints);
    LookupPrefixes(s.lru, s.keys, s.hints);
    var n := |CharsFor(c, s.keys, s.hints)|;
    assert dict[n + i].cand == PhrasesFor(c, s.keys, s.hints)[i] && dict[n + j].cand == PhrasesFor(c, s.keys, s.hints)[j];
    MergeKeepsTwice(dict, hits, MAX_CANDIDATES, n + i, n + j);
  }
}
