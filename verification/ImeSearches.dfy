/** What a search of the input method lists, in which order, told by the answers of the dictionaries alone. */
module ImeSearches {
  import opened Basics
  import opened CandidateMerge
  import opened LegacySearch
  import opened Lru
  import opened ImeKeys
  import opened ImeMachine

  // ---------------------------------------------------------------- one answer after another

  /** The rows from `lo` to `hi` are answers in their order, each tagged with `prefix`, and none is a word listed
      before. */
  ghost predicate Segment(rows: seq<Hit>, lo: nat, hi: nat, answers: seq<Candidate>, prefix: nat, at: seq<nat>) {
    && lo <= hi <= |rows| && |at| == hi - lo
    && (forall k :: 0 <= k < |at| ==> at[k] < |answers| && rows[lo + k] == Hit(answers[at[k]], prefix))
    && (forall j, k :: 0 <= j < k < |at| ==> at[j] < at[k])
    && forall i, j :: 0 <= j < i && lo <= i < hi ==> rows[j].cand.word != rows[i].cand.word
  }

  /** They are, and unless the list is full every answer's word is listed. */
  ghost predicate InTurn(rows: seq<Hit>, lo: nat, hi: nat, answers: seq<Candidate>, prefix: nat) {
    && (exists at :: Segment(rows, lo, hi, answers, prefix, at))
    && (|rows| < 100 ==> forall c :: c in answers ==> HasHit(rows, c.word))
  }

  lemma {:induction false} ExtendedSegment(rows: seq<Hit>, more: seq<Candidate>, prefix: nat, max: nat) returns (at: seq<nat>)
    ensures rows <= Extended(rows, more, prefix, max)
    ensures Segment(Extended(rows, more, prefix, max), |rows|, |Extended(rows, more, prefix, max)|, more, prefix, at)
    decreases |more|
  {
    hide HasHit;
    at := [];
    if |more| > 0 {
      var n := |more| - 1;
      at := ExtendedSegment(rows, more[..n], prefix, max);
      var so, c := Extended(rows, more[..n], prefix, max), more[n];
      if |so| < max && !HasHit(so, c.word) {
        at := at + [n];
        NewWord(so, c.word);
      }
    }
  }

  lemma {:induction false} NewWord(rows: seq<Hit>, word: seq<Byte>)
    requires !HasHit(rows, word)
    ensures forall j :: 0 <= j < |rows| ==> rows[j].cand.word != word
  {
  }

  lemma {:induction false} SegmentStays(rows: seq<Hit>, all: seq<Hit>, lo: nat, hi: nat, answers: seq<Candidate>, prefix: nat)
    requires rows <= all && InTurn(rows, lo, hi, answers, prefix) && |all| <= 100
    ensures InTurn(all, lo, hi, answers, prefix)
  {
    var at :| Segment(rows, lo, hi, answers, prefix, at);
    assert Segment(all, lo, hi, answers, prefix, at);
    if |all| < 100 {
      forall c | c in answers ensures HasHit(all, c.word) {
        HasHitPrefix(rows, all, c.word);
      }
    }
  }

  // ---------------------------------------------------------------- up to four positions

  /** The answers for words of `target` characters; none outside one to four. */
  function ForLength(c: Composer, keys: seq<Byte>, hints: seq<Byte>, target: int): seq<Candidate> {
    if 1 <= target <= 4 then c.search(keys, hints, target, 100) else []
  }

  lemma {:induction false} WidenedLists(c: Composer, keys: seq<Byte>, hints: seq<Byte>, target: int, rows: seq<Hit>)
    requires |rows| <= 100 && |Widened(c, keys, hints, target, rows)| <= 100
    ensures rows <= Widened(c, keys, hints, target, rows)
    ensures InTurn(Widened(c, keys, hints, target, rows), |rows|, |Widened(c, keys, hints, target, rows)|,
                  ForLength(c, keys, hints, target), |keys|)
  {
    var all, more := Widened(c, keys, hints, target, rows), ForLength(c, keys, hints, target);
    if 1 <= target <= 4 {
      var at := ExtendedSegment(rows, more, |keys|, MAX_CANDIDATES);
      if |all| < 100 { ExtendedListsAll(rows, more, |keys|, MAX_CANDIDATES); }
    } else {
      assert Segment(all, |rows|, |all|, more, |keys|, []);
    }
  }

  /** The answers for n characters come first, as they are; then those for one more, one fewer, two more and two
      fewer, each as far as they name new words and there is room. */
  ghost predicate InBuckets(rows: seq<Hit>, c: Composer, keys: seq<Byte>, hints: seq<Byte>, n: nat, b1: nat, b2: nat, b3: nat) {
    var main := c.search(keys, hints, n, 100);
    && |main| <= b1 <= b2 <= b3 <= |rows| <= 100
    && (forall i :: 0 <= i < |main| ==> rows[i] == Hit(main[i], |keys|))
    && InTurn(rows, |main|, b1, ForLength(c, keys, hints, n + 1), |keys|)
    && InTurn(rows, b1, b2, ForLength(c, keys, hints, n - 1), |keys|)
    && InTurn(rows, b2, b3, ForLength(c, keys, hints, n + 2), |keys|)
    && InTurn(rows, b3, |rows|, ForLength(c, keys, hints, n - 2), |keys|)
  }

  lemma {:induction false} BucketsInOrder(c: Composer, keys: seq<Byte>, hints: seq<Byte>, n: nat) returns (b1: nat, b2: nat, b3: nat)
    requires |keys| > 0 && forall k, h, target, max :: |c.search(k, h, target, max)| <= max
    ensures InBuckets(BucketRows(c, keys, hints, n), c, keys, hints, n, b1, b2, b3)
  {
    hide Widened, InTurn;
    var r0 := RowsOf(c.search(keys, hints, n, MAX_CANDIDATES), |keys|);
    var r1 := Widened(c, keys, hints, n + 1, r0);
    var r2 := Widened(c, keys, hints, n - 1, r1);
    var r3 := Widened(c, keys, hints, n + 2, r2);
    var r4 := Widened(c, keys, hints, n - 2, r3);
    NotTooLong(c, keys, hints, n + 1, r0);
    NotTooLong(c, keys, hints, n - 1, r1);
    NotTooLong(c, keys, hints, n + 2, r2);
    NotTooLong(c, keys, hints, n - 2, r3);
    WidenedLists(c, keys, hints, n + 1, r0);
    WidenedLists(c, keys, hints, n - 1, r1);
    WidenedLists(c, keys, hints, n + 2, r2);
    WidenedLists(c, keys, hints, n - 2, r3);
    b1, b2, b3 := |r1|, |r2|, |r3|;
    SegmentStays(r1, r4, |r0|, b1, ForLength(c, keys, hints, n + 1), |keys|);
    SegmentStays(r2, r4, b1, b2, ForLength(c, keys, hints, n - 1), |keys|);
    SegmentStays(r3, r4, b2, b3, ForLength(c, keys, hints, n + 2), |keys|);
  }

  lemma {:induction false} NotTooLong(c: Composer, keys: seq<Byte>, hints: seq<Byte>, target: int, rows: seq<Hit>)
    requires |rows| <= 100
    ensures |Widened(c, keys, hints, target, rows)| <= 100
  {
    if 1 <= target <= 4 { ExtendedHas(rows, c.search(keys, hints, target, MAX_CANDIDATES), |keys|, MAX_CANDIDATES); }
  }

  // ---------------------------------------------------------------- every mode

  /** From five positions on: single characters for the first key alone, tagged with it, then words of five or more
      characters for the whole input, as far as there is room. */
  ghost predicate InSentence(rows: seq<Hit>, matched: nat, c: Composer, keys: seq<Byte>, hints: seq<Byte>)
    requires |hints| == |keys| > 0
  {
    var chars := c.search(keys[..1], hints[..1], 1, 100);
    && |chars| <= |rows| <= 100
    && (forall i :: 0 <= i < |chars| ==> rows[i] == Hit(chars[i], 1))
    && (|chars| < 100 ==>
          var phrases := c.search(keys, hints, -1, 100 - |chars|);
          |rows| == |chars| + |phrases| && forall i :: 0 <= i < |phrases| ==> rows[|chars| + i] == Hit(phrases[i], |keys|))
    && matched == if |chars| > 0 then 1 else if |rows| > 0 then |keys| else 0
  }

  /** The syllables of the engine's table if it knows any, else those of the typed sounds. */
  function Typed(c: Composer, keys: seq<Byte>): nat {
    if c.syllables(keys) > 0 then c.syllables(keys) else Syllables.Count(keys, Syllables.Outside)
  }

  lemma {:induction false} SentenceInOrder(c: Composer, keys: seq<Byte>, hints: seq<Byte>)
    requires |hints| == |keys| > 0 && forall k, h, target, max :: |c.search(k, h, target, max)| <= max
    ensures InSentence(SentenceFound(c, keys, hints).rows, SentenceFound(c, keys, hints).matched, c, keys, hints)
  {
  }

  /** What the dictionaries list: with the composition engine in Chinese mode by the number of syllables typed; else
      the greedy list of the mode's own dictionary, and nothing without one. */
  lemma {:induction false} DictionariesList(env: Env, mode: Mode, keys: seq<Byte>, hints: seq<Byte>)
    requires EnvOk(env) && |hints| == |keys| > 0
    ensures mode == SmartZh && env.composer.Some? ==>
      var c, f := env.composer.value, DictFound(env, mode, keys, hints);
      && (Typed(c, keys) == 0 ==> f.rows == [] && f.matched == 0)
      && (1 <= Typed(c, keys) <= 4 ==>
            f.matched == |keys| && exists b1, b2, b3 :: InBuckets(f.rows, c, keys, hints, Typed(c, keys), b1, b2, b3))
      && (Typed(c, keys) >= 5 ==> InSentence(f.rows, f.matched, c, keys, hints))
    ensures mode == SmartZh && env.composer.None? && env.zh.Some? ==>
      DictFound(env, mode, keys, hints) == Found(RowsFrom(env.zh.value, keys, 1), MatchedFrom(env.zh.value, keys, 1))
    ensures mode == SmartEn && env.en.Some? ==>
      DictFound(env, mode, keys, hints) == Found(RowsFrom(env.en.value, keys, 1), MatchedFrom(env.en.value, keys, 1))
    ensures mode == Direct || (mode == SmartEn && env.en.None?) || (mode == SmartZh && env.composer.None? && env.zh.None?) ==>
      DictFound(env, mode, keys, hints).rows == []
  {
    hide BucketRows, SentenceFound, InBuckets, InSentence, RowsFrom, MatchedFrom;
    if mode == SmartZh && env.composer.Some? {
      var c := env.composer.value;
      var b1, b2, b3 := BucketsInOrder(c, keys, hints, Typed(c, keys));
      SentenceInOrder(c, keys, hints);
    }
  }

  // ---------------------------------------------------------------- the list offered

  /** A word the dictionaries list is offered, unless the list is full. */
  lemma {:induction false} ListedIsOffered(env: Env, s: State, word: seq<Byte>)
    requires EnvOk(env) && |s.hints| == |s.keys| > 0 && LruOk(s.lru)
    requires HasHit(DictFound(env, s.mode, s.keys, s.hints).rows, word)
    ensures HasHit(Searched(env, s).rows, word) || |Searched(env, s).rows| == 100
  {
    hide DictFound, Lookup, Merged;
    DictOk(env, s.mode, s.keys, s.hints);
    LookupPrefixes(s.lru, s.keys, s.hints);
    if s.mode == SmartZh {
      MergeKeepsWord(DictFound(env, s.mode, s.keys, s.hints).rows, Lookup(s.lru, s.keys, Some(s.hints), MAX_CANDIDATES), word);
    }
  }

  lemma {:induction false} MergeKeepsWord(dict: seq<Hit>, hits: seq<Hit>, word: seq<Byte>)
    requires |dict| <= 100 && |hits| <= 100 && HasHit(dict, word)
    ensures HasHit(Merged(dict, hits, MAX_CANDIDATES), word) || |Merged(dict, hits, MAX_CANDIDATES)| == 100
  {
    hide Merged;
    var at := MergeIsClean(dict, hits, MAX_CANDIDATES);
    var m := Merged(dict, hits, MAX_CANDIDATES);
    var i :| 0 <= i < |dict| && dict[i].cand.word == word;
    if HasHit(hits, word) {
      HasHitPrefix(hits, m, word);
    } else if i in at {
      var r :| 0 <= r < |at| && at[r] == i;
      assert m[|hits| + r] == dict[i];
    }
  }

  /** In Chinese mode the words remembered for the input come first, as the cache ranks them; in the others nothing
      is added. */
  lemma {:induction false} RememberedComeFirst(env: Env, s: State)
    requires EnvOk(env) && |s.hints| == |s.keys| > 0 && LruOk(s.lru)
    ensures s.mode == SmartZh ==> Lookup(s.lru, s.keys, Some(s.hints), 100) <= Searched(env, s).rows
    ensures s.mode != SmartZh ==> Searched(env, s).rows == DictFound(env, s.mode, s.keys, s.hints).rows
  {
    hide DictFound, Lookup, Merged;
    if s.mode == SmartZh {
      DictOk(env, s.mode, s.keys, s.hints);
      LookupPrefixes(s.lru, s.keys, s.hints);
      var at := MergeIsClean(DictFound(env, s.mode, s.keys, s.hints).rows, Lookup(s.lru, s.keys, Some(s.hints), MAX_CANDIDATES), MAX_CANDIDATES);
    }
  }
}
