/** The greedy search told by the keys as typed: which marks ask for which tones, what each prefix answers, and in
    which order the answers are listed. */
module LegacyMarks {
  import opened Basics
  import opened Sorting
  import opened Lru
  import opened CandidateMerge
  import opened LegacySearch

  // ---------------------------------------------------------------- marks

  /** The first `p` keys end with the key of the third and fourth tones, or a first-tone marker follows them. */
  predicate Marked(keys: seq<Byte>, p: nat)
    requires 1 <= p <= |keys|
  {
    keys[p - 1] == 0x22 || (p < |keys| && keys[p] == 0x20)
  }

  predicate AsksFor(keys: seq<Byte>, p: nat, tone: Byte)
    requires 1 <= p <= |keys|
  {
    if keys[p - 1] == 0x22 then tone == 3 || tone == 4 else tone == 1
  }

  /** The user changed their mind: all keys but a final marker, when the last of them is a tone key and not the only
      one. */
  predicate GivenUp(keys: seq<Byte>, p: nat)
    requires 1 <= p <= |keys|
  {
    && p == |keys| - 1 && keys[p] == 0x20 && (keys[p - 1] == 0x22 || keys[p - 1] == 0x23)
    && exists j :: 0 <= j < p - 1 && keys[j] != 0x20
  }

  /** The keys without first-tone markers. */
  function Spelled(keys: seq<Byte>): seq<Byte> {
    if |keys| == 0 then []
    else Spelled(keys[..|keys| - 1]) + if keys[|keys| - 1] == 0x20 then [] else [keys[|keys| - 1]]
  }

  /** The dictionary has the candidate for the first `p` keys without their markers; if these ask for a tone, it has
      the tone, or none of the dictionary's candidates does. */
  ghost predicate Answer(search: Searcher, keys: seq<Byte>, p: nat, c: Candidate) {
    && 1 <= p <= |keys| && keys[p - 1] != 0x20 && !GivenUp(keys, p)
    && c in search(Spelled(keys[..p]))
    && (Marked(keys, p) ==>
          AsksFor(keys, p, c.tone) || forall d :: d in search(Spelled(keys[..p])) ==> !AsksFor(keys, p, d.tone))
  }

  lemma {:induction false} StrippedIsSpelled(keys: seq<Byte>)
    ensures Stripped(keys) == Spelled(keys)
  {
    if |keys| > 0 {
      var n := |keys| - 1;
      StrippedIsSpelled(keys[..n]);
      var at, at' := StripAt(keys), StripAt(keys[..n]);
      assert forall i :: 0 <= i < |at'| ==> at[i] == at'[i] && keys[..n][at'[i]] == keys[at'[i]];
    }
  }

  /** The first `len` stripped keys are those of a prefix of the input. */
  lemma {:induction false} PrefixIsSpelled(keys: seq<Byte>, len: nat)
    requires 1 <= len <= |StripAt(keys)|
    ensures Stripped(keys)[..len] == Spelled(keys[..PrefixEnd(keys, len)])
    ensures keys[PrefixEnd(keys, len) - 1] != 0x20
  {
    var n := |keys| - 1;
    var at, at' := StripAt(keys), StripAt(keys[..n]);
    StrippedIsSpelled(keys);
    if len <= |at'| {
      PrefixIsSpelled(keys[..n], len);
      assert forall i :: 0 <= i < |at'| ==> at[i] == at'[i] && keys[..n][at'[i]] == keys[at'[i]];
      assert Stripped(keys)[..len] == Stripped(keys[..n])[..len];
      assert keys[..n][..PrefixEnd(keys, len)] == keys[..PrefixEnd(keys, len)];
    } else {
      assert keys[..|keys|] == keys && Stripped(keys)[..len] == Stripped(keys);
    }
  }

  /** Every key but a marker ends one of the prefixes tried. */
  lemma {:induction false} PrefixTried(keys: seq<Byte>, p: nat) returns (len: nat)
    requires 1 <= p <= |keys| && keys[p - 1] != 0x20
    ensures 1 <= len <= |StripAt(keys)| && PrefixEnd(keys, len) == p
  {
    var n := |keys| - 1;
    if p == |keys| {
      len := |StripAt(keys)|;
    } else {
      len := PrefixTried(keys[..n], p);
    }
  }

  lemma {:induction false} StripRises(keys: seq<Byte>, i: nat, j: nat)
    requires i < |StripAt(keys)| && j < |StripAt(keys)|
    ensures i < j ==> StripAt(keys)[i] < StripAt(keys)[j]
  {
  }

  /** The length skipped is that of the prefix given up. */
  lemma {:induction false} SkippedIsGivenUp(keys: seq<Byte>, len: nat)
    requires 1 <= len <= |StripAt(keys)|
    ensures len == SkipLen(keys) <==> GivenUp(keys, PrefixEnd(keys, len))
  {
    var at, p := StripAt(keys), PrefixEnd(keys, len);
    if len == SkipLen(keys) {
      assert keys[at[len - 2]] != 0x20 && at[len - 2] < p - 1;
    }
    if GivenUp(keys, p) {
      var j :| 0 <= j < p - 1 && keys[j] != 0x20;
      var other := PrefixTried(keys, j + 1);
      assert at[other - 1] == j;
      StripRises(keys, len - 1, |at| - 1);
      assert len == |at|;
    }
  }

  lemma {:induction false} MarkIsIntent(keys: seq<Byte>, p: nat)
    requires 1 <= p <= |keys|
    ensures ToneIntent(keys, p) != 0 <==> Marked(keys, p)
    ensures Marked(keys, p) ==> forall c :: ToneMatches(c, ToneIntent(keys, p)) <==> AsksFor(keys, p, c.tone)
  {
  }

  /** What one prefix length finds are the answers of its prefix. */
  lemma {:induction false} FoundAreAnswers(search: Searcher, keys: seq<Byte>, len: nat)
    requires 1 <= len <= |StripAt(keys)|
    ensures forall c :: c in FoundAt(search, keys, len) <==> Answer(search, keys, PrefixEnd(keys, len), c)
  {
    hide ToneFiltered, ToneMatches, SkipLen, GivenUp, ToneIntent, Stripped, Spelled;
    var p := PrefixEnd(keys, len);
    PrefixIsSpelled(keys, len);
    SkippedIsGivenUp(keys, len);
    MarkIsIntent(keys, p);
    FilterHas(search(Stripped(keys)[..len]), ToneIntent(keys, p));
  }

  // ---------------------------------------------------------------- the list

  /** The row's word answers the keys the row is tagged with, and no longer beginning of the input. */
  ghost predicate BestAnswer(search: Searcher, keys: seq<Byte>, row: Hit) {
    && Answer(search, keys, row.prefix, row.cand)
    && forall p: nat, c :: row.prefix < p && Answer(search, keys, p, c) ==> c.word != row.cand.word
  }

  lemma {:induction false} TaggedIsBest(search: Searcher, keys: seq<Byte>, row: Hit)
    requires Tagged(search, keys, row, 1)
    ensures BestAnswer(search, keys, row)
  {
    hide FoundAt, Answer;
    var len :| 1 <= len && Greedy(search, keys, row, len);
    FoundAreAnswers(search, keys, len);
    forall p: nat, c | row.prefix < p && Answer(search, keys, p, c) ensures c.word != row.cand.word {
      AnswerInRange(search, keys, p, c);
      var l := PrefixTried(keys, p);
      FoundAreAnswers(search, keys, l);
      LongerPrefix(keys, len, l);
    }
  }

  lemma {:induction false} AnswerInRange(search: Searcher, keys: seq<Byte>, p: nat, c: Candidate)
    requires Answer(search, keys, p, c)
    ensures 1 <= p <= |keys| && keys[p - 1] != 0x20
  {
  }

  lemma {:induction false} LongerPrefix(keys: seq<Byte>, a: nat, b: nat)
    requires 1 <= a <= |StripAt(keys)| && 1 <= b <= |StripAt(keys)| && PrefixEnd(keys, a) < PrefixEnd(keys, b)
    ensures a < b
  {
    StripRises(keys, b - 1, a - 1);
  }

  /** The list is made of best answers, no word twice, longer prefixes first; unless it is full every answer's word is
      listed. */
  lemma {:induction false} RowsAreAnswers(search: Searcher, keys: seq<Byte>)
    ensures var rows := RowsFrom(search, keys, 1);
      && |rows| <= 100 && DistinctRows(rows) && Falling(rows)
      && (forall i :: 0 <= i < |rows| ==> BestAnswer(search, keys, rows[i]))
      && (|rows| < 100 ==> forall p: nat, c :: Answer(search, keys, p, c) ==> HasHit(rows, c.word))
  {
    hide FoundAt, Answer, Tagged, BestAnswer, RowsFrom, HasHit;
    LegacyIsGreedy(search, keys);
    var rows := RowsFrom(search, keys, 1);
    forall i | 0 <= i < |rows| ensures BestAnswer(search, keys, rows[i]) {
      TaggedIsBest(search, keys, rows[i]);
    }
    forall p: nat, c | |rows| < 100 && Answer(search, keys, p, c) ensures HasHit(rows, c.word) {
      var len := AnswerIsFound(search, keys, p, c);
    }
  }

  /** The matched keys are those of the longest prefix with an answer. */
  lemma {:induction false} MatchedIsLongest(search: Searcher, keys: seq<Byte>)
    ensures MatchedFrom(search, keys, 1) == 0 ==> forall p: nat, c :: !Answer(search, keys, p, c)
    ensures MatchedFrom(search, keys, 1) > 0 ==> exists c :: Answer(search, keys, MatchedFrom(search, keys, 1), c)
    ensures forall p: nat, c :: Answer(search, keys, p, c) ==> p <= MatchedFrom(search, keys, 1)
  {
    hide FoundAt, Answer, MatchedFrom;
    Longest(search, keys, 1);
    var m := MatchedFrom(search, keys, 1);
    if m > 0 {
      var l :| 1 <= l <= |StripAt(keys)| && m == PrefixEnd(keys, l) && |FoundAt(search, keys, l)| > 0;
      FoundAreAnswers(search, keys, l);
      assert FoundAt(search, keys, l)[0] in FoundAt(search, keys, l);
    }
    forall p: nat, c | Answer(search, keys, p, c) ensures 0 < m && p <= m {
      var l := AnswerIsFound(search, keys, p, c);
    }
  }

  lemma {:induction false} AnswerIsFound(search: Searcher, keys: seq<Byte>, p: nat, c: Candidate) returns (len: nat)
    requires Answer(search, keys, p, c)
    ensures 1 <= len <= |StripAt(keys)| && PrefixEnd(keys, len) == p && c in FoundAt(search, keys, len)
  {
    hide FoundAt;
    len := PrefixTried(keys, p);
    FoundAreAnswers(search, keys, len);
  }

  lemma {:induction false} Longest(search: Searcher, keys: seq<Byte>, len: nat)
    requires 1 <= len
    ensures var m := MatchedFrom(search, keys, len);
      && (m > 0 ==> exists l :: len <= l <= |StripAt(keys)| && m == PrefixEnd(keys, l) && |FoundAt(search, keys, l)| > 0)
      && forall l :: len <= l <= |StripAt(keys)| && |FoundAt(search, keys, l)| > 0 ==> 0 < m && PrefixEnd(keys, l) <= m
    decreases |StripAt(keys)| - len
  {
    hide FoundAt;
    if len <= |StripAt(keys)| {
      Longest(search, keys, len + 1);
      var longer := MatchedFrom(search, keys, len + 1);
      if longer > 0 {
        var l :| len + 1 <= l <= |StripAt(keys)| && longer == PrefixEnd(keys, l) && |FoundAt(search, keys, l)| > 0;
        assert StripAt(keys)[len - 1] < StripAt(keys)[l - 1];
      }
    }
  }

  // ---------------------------------------------------------------- order within a prefix

  /** Of two candidates for the same keys: one with a tone asked for before one without, then a single character
      before a longer word, then the more frequent one. */
  predicate Before(keys: seq<Byte>, p: nat, a: Candidate, b: Candidate)
    requires 1 <= p <= |keys|
  {
    var right, left := Marked(keys, p) ==> AsksFor(keys, p, a.tone), Marked(keys, p) ==> AsksFor(keys, p, b.tone);
    var one, other := CharCount(a.word) == 1, CharCount(b.word) == 1;
    if right != left then right
    else if one != other then one
    else a.freq >= b.freq
  }

  lemma {:induction false} TierOrders(keys: seq<Byte>, p: nat, a: Candidate, b: Candidate)
    requires 1 <= p <= |keys|
    requires InOrder(a, b, ToneIntent(keys, p))
    ensures Before(keys, p, a, b)
  {
    hide CharCount;
    MarkIsIntent(keys, p);
  }

  lemma {:induction false} InTierByFreq(s: seq<Candidate>, key: Candidate -> int, i: nat, j: nat)
    requires i < j < |s| && key(s[i]) == key(s[j]) && Descending(WithKey(s, key, key(s[i])), CandFreq())
    ensures s[i].freq >= s[j].freq
  {
    var k, rest := key(s[i]), s[1..];
    if i > 0 {
      assert WithKey(s, key, k) == (if key(s[0]) == k then [s[0]] else []) + WithKey(rest, key, k);
      TailDescends(WithKey(s, key, k), WithKey(rest, key, k));
      InTierByFreq(rest, key, i - 1, j - 1);
    } else {
      InWithKey(rest, key, j - 1);
      var m :| 0 <= m < |WithKey(rest, key, k)| && WithKey(rest, key, k)[m] == s[j];
      assert WithKey(s, key, k)[1 + m] == s[j];
      assert CandFreq()(WithKey(s, key, k)[0]) >= CandFreq()(WithKey(s, key, k)[1 + m]);
    }
  }

  lemma {:induction false} TailDescends(s: seq<Candidate>, t: seq<Candidate>)
    requires Descending(s, CandFreq()) && (s == t || (|s| > 0 && s == [s[0]] + t))
    ensures Descending(t, CandFreq())
  {
    forall i, j | 0 <= i <= j < |t| ensures CandFreq()(t[i]) >= CandFreq()(t[j]) {
      if s != t { assert t[i] == s[1 + i] && t[j] == s[1 + j]; }
    }
  }

  lemma {:induction false} InWithKey(s: seq<Candidate>, key: Candidate -> int, j: nat)
    requires j < |s|
    ensures s[j] in WithKey(s, key, key(s[j]))
  {
    if j > 0 { InWithKey(s[1..], key, j - 1); }
  }

  predicate InOrder(a: Candidate, b: Candidate, intent: nat) {
    ToneTier(a, intent) <= ToneTier(b, intent) && (ToneTier(a, intent) == ToneTier(b, intent) ==> a.freq >= b.freq)
  }

  predicate Ordered(s: seq<Candidate>, intent: nat) {
    forall i, j :: 0 <= i < j < |s| ==> InOrder(s[i], s[j], intent)
  }

  lemma {:induction false} RankedIsOrdered(found: seq<Candidate>, intent: nat)
    ensures Ordered(LegacySearch.Ranked(found, intent), intent)
  {
    hide ToneTier, SortDesc, WithKey;
    RankedOrders(found, intent);
    var r := LegacySearch.Ranked(found, intent);
    forall i, j | 0 <= i < j < |r|
      ensures InOrder(r[i], r[j], intent)
    {
      assert TierKey(intent)(r[i]) >= TierKey(intent)(r[j]);
      if ToneTier(r[i], intent) == ToneTier(r[j], intent) { InTierByFreq(r, TierKey(intent), i, j); }
    }
  }

  lemma {:induction false} MatchingIsOrdered(found: seq<Candidate>, intent: nat)
    requires Ordered(found, intent)
    ensures Ordered(Matching(found, intent), intent)
  {
    hide ToneTier, InOrder;
    if |found| > 0 {
      var n := |found| - 1;
      var rest := Matching(found[..n], intent);
      assert forall i, j :: 0 <= i < j < n ==> InOrder(found[..n][i], found[..n][j], intent);
      MatchingIsOrdered(found[..n], intent);
      forall i | 0 <= i < |rest| ensures InOrder(rest[i], found[n], intent) {
        assert rest[i] in rest && rest[i] in found[..n];
        var k :| 0 <= k < n && found[..n][k] == rest[i];
        assert found[k] == rest[i];
      }
    }
  }

  lemma {:induction false} FoundIsOrdered(search: Searcher, keys: seq<Byte>, len: nat, i: nat, j: nat)
    requires 1 <= len <= |StripAt(keys)| && i < j < |FoundAt(search, keys, len)|
    ensures Before(keys, PrefixEnd(keys, len), FoundAt(search, keys, len)[i], FoundAt(search, keys, len)[j])
  {
    hide Matching, InOrder, Before, LegacySearch.Ranked;
    var found, intent := search(Stripped(keys)[..len]), ToneIntent(keys, PrefixEnd(keys, len));
    RankedIsOrdered(found, intent);
    MatchingIsOrdered(LegacySearch.Ranked(found, intent), intent);
    TierOrders(keys, PrefixEnd(keys, len), FoundAt(search, keys, len)[i], FoundAt(search, keys, len)[j]);
  }

  /** Rows tagged with the same keys stand in that order. */
  lemma {:induction false} RowsOfOnePrefix(search: Searcher, keys: seq<Byte>, len: nat, i: nat, j: nat)
    requires 1 <= len && i < j < |RowsFrom(search, keys, len)|
    requires RowsFrom(search, keys, len)[i].prefix == RowsFrom(search, keys, len)[j].prefix
    ensures 1 <= RowsFrom(search, keys, len)[i].prefix <= |keys|
    ensures Before(keys, RowsFrom(search, keys, len)[i].prefix, RowsFrom(search, keys, len)[i].cand, RowsFrom(search, keys, len)[j].cand)
    decreases |StripAt(keys)| - len
  {
    hide Before, FoundAt, Extended, HasHit;
    RowsShape(search, keys, len);
    var so, more, p := RowsFrom(search, keys, len + 1), FoundAt(search, keys, len), PrefixEnd(keys, len);
    var at := NewRowsInOrder(so, more, p);
    var rows := RowsFrom(search, keys, len);
    assert i < |so| ==> rows[i] == so[i];
    if j < |so| {
      RowsOfOnePrefix(search, keys, len + 1, i, j);
    } else if i >= |so| {
      FoundIsOrdered(search, keys, len, at[i - |so|], at[j - |so|]);
    } else {
      OlderIsLonger(search, keys, len, i);
    }
  }

  lemma {:induction false} OlderIsLonger(search: Searcher, keys: seq<Byte>, len: nat, i: nat)
    requires 1 <= len <= |StripAt(keys)| && i < |RowsFrom(search, keys, len + 1)|
    ensures RowsFrom(search, keys, len + 1)[i].prefix > PrefixEnd(keys, len)
  {
    hide FoundAt, RowsFrom;
    GreedyFrom(search, keys, len + 1);
    var row := RowsFrom(search, keys, len + 1)[i];
    assert Tagged(search, keys, row, len + 1);
    var l :| len + 1 <= l && Greedy(search, keys, row, l);
    StripRises(keys, len - 1, l - 1);
  }

  lemma {:induction false} NewRowsInOrder(rows: seq<Hit>, more: seq<Candidate>, prefix: nat) returns (at: seq<nat>)
    ensures var r := Extended(rows, more, prefix, MAX_CANDIDATES);
      && rows <= r && |at| == |r| - |rows|
      && (forall i :: |rows| <= i < |r| ==> at[i - |rows|] < |more| && r[i] == Hit(more[at[i - |rows|]], prefix))
      && forall j, k :: 0 <= j < k < |at| ==> at[j] < at[k]
  {
    at := Picked(rows, more, prefix);
    var r := Extended(rows, more, prefix, MAX_CANDIDATES);
    forall i | |rows| <= i < |r| ensures at[i - |rows|] < |more| && r[i] == Hit(more[at[i - |rows|]], prefix) {
      var k := i - |rows|;
      assert at[k] < |more| && r[|rows| + k] == Hit(more[at[k]], prefix);
    }
  }

  lemma {:induction false} Picked(rows: seq<Hit>, more: seq<Candidate>, prefix: nat) returns (at: seq<nat>)
    ensures var r := Extended(rows, more, prefix, MAX_CANDIDATES);
      && rows <= r && |at| == |r| - |rows|
      && (forall k :: 0 <= k < |at| ==> at[k] < |more| && r[|rows| + k] == Hit(more[at[k]], prefix))
      && forall j, k :: 0 <= j < k < |at| ==> at[j] < at[k]
    decreases |more|
  {
    hide HasHit;
    at := [];
    if |more| > 0 {
      var n := |more| - 1;
      at := Picked(rows, more[..n], prefix);
      var so := Extended(rows, more[..n], prefix, MAX_CANDIDATES);
      if |so| < MAX_CANDIDATES && !HasHit(so, more[n].word) { at := at + [n]; }
    }
  }
}
