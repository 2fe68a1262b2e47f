/** The greedy search over the v2 dictionary: every prefix of the input, longest first, tone marks
    honoured, each word listed once under the longest prefix that gave it. */
module LegacySearch {
  import opened Basics
  import opened Sorting
  import opened Lru
  import opened CandidateMerge

  const MAX_CANDIDATES: nat := 100
  const TONE_1: Byte := 0x20
  const TONE_34: Byte := 0x22
  const TONE_2: Byte := 0x23

  /** A dictionary search: the candidates it returns for a key string. */
  type Searcher = seq<Byte> -> seq<Candidate>

  // ---------------------------------------------------------------- tone marks

  /** UTF-8 characters: bytes that are not continuation bytes. */
  function CharCount(word: seq<Byte>): nat {
    if |word| == 0 then 0 else CharCount(word[..|word| - 1]) + if word[|word| - 1] / 64 == 2 then 0 else 1
  }

  /** The tone the user marked after the first `prefix` keys: 34 for the third/fourth-tone key, 1 for
      the first-tone marker, 0 for none. */
  function ToneIntent(keys: seq<Byte>, prefix: nat): nat
    requires prefix <= |keys|
  {
    if prefix == 0 then 0
    else if keys[prefix - 1] == TONE_34 then 34
    else if prefix < |keys| && keys[prefix] == TONE_1 then 1
    else 0
  }

  predicate ToneMatches(c: Candidate, intent: nat) {
    if intent == 0 then true
    else if intent == 34 then c.tone == 3 || c.tone == 4
    else c.tone == intent
  }

  function ToneTier(c: Candidate, intent: nat): nat {
    var single := CharCount(c.word) == 1;
    if ToneMatches(c, intent) then (if single then 0 else 1) else if single then 2 else 3
  }

  function TierKey(intent: nat): Candidate -> int {
    (c: Candidate) => -(ToneTier(c, intent) as int)
  }

  /** A stable sort by tier, then by frequency. */
  function Ranked(found: seq<Candidate>, intent: nat): seq<Candidate> {
    SortDesc(SortDesc(found, CandFreq()), TierKey(intent))
  }

  function Matching(found: seq<Candidate>, intent: nat): (r: seq<Candidate>)
    ensures forall c :: c in r <==> c in found && ToneTier(c, intent) < 2
  {
    if |found| == 0 then []
    else
      var last := found[|found| - 1];
      var rest := Matching(found[..|found| - 1], intent);
      assert found == found[..|found| - 1] + [last];
      if ToneTier(last, intent) < 2 then rest + [last] else rest
  }

  /** With a tone mark, only matching candidates, unless there are none. */
  function ToneFiltered(found: seq<Candidate>, intent: nat): seq<Candidate> {
    var ranked := Ranked(found, intent);
    if intent != 0 && |Matching(ranked, intent)| > 0 then Matching(ranked, intent) else ranked
  }

  method KeepMatching(found: seq<Candidate>, intent: nat) returns (r: seq<Candidate>)
    ensures r == ToneFiltered(found, intent)
  {
    r := Ranked(found, intent);
    if intent != 0 {
      var kept: seq<Candidate> := [];
      for i := 0 to |r|
        invariant kept == Matching(r[..i], intent)
      {
        assert r[..i + 1][..i] == r[..i];
        if ToneTier(r[i], intent) < 2 { kept := kept + [r[i]]; }
      }
      assert r[..|r|] == r;
      if |kept| > 0 { r := kept; }
    }
  }

  /** The ranking keeps every candidate, orders by tier, and within a tier by frequency. */
  lemma {:induction false} RankedOrders(found: seq<Candidate>, intent: nat)
    ensures multiset(Ranked(found, intent)) == multiset(found)
    ensures Descending(Ranked(found, intent), TierKey(intent))
    ensures forall tier :: Descending(WithKey(Ranked(found, intent), TierKey(intent), tier), CandFreq())
  {
    var byFreq := SortDesc(found, CandFreq());
    SortDescKeeps(found, CandFreq());
    SortDescKeeps(byFreq, TierKey(intent));
    forall tier ensures Descending(WithKey(Ranked(found, intent), TierKey(intent), tier), CandFreq()) {
      SortDescIsStable(byFreq, TierKey(intent), tier);
      WithKeyDescends(byFreq, TierKey(intent), tier);
    }
  }

  lemma {:induction false} WithKeyDescends(s: seq<Candidate>, key: Candidate -> int, k: int)
    requires Descending(s, CandFreq())
    ensures Descending(WithKey(s, key, k), CandFreq())
    ensures forall c :: c in WithKey(s, key, k) ==> c in s
  {
    if |s| > 0 {
      WithKeyDescends(s[1..], key, k);
      assert forall c :: c in s[1..] ==> CandFreq()(s[0]) >= CandFreq()(c);
    }
  }

  /** What the filter leaves: with a tone mark that some candidate carries, exactly the candidates that
      carry it; otherwise all of them; in neither case nothing out of something. */
  lemma {:induction false} FilterHas(found: seq<Candidate>, intent: nat)
    ensures forall c :: c in ToneFiltered(found, intent) <==>
      c in found && (intent == 0 || ToneMatches(c, intent) || forall d :: d in found ==> !ToneMatches(d, intent))
    ensures |ToneFiltered(found, intent)| == 0 <==> |found| == 0
  {
    hide ToneMatches;
    RankedHas(found, intent);
    var ranked := Ranked(found, intent);
    var kept := Matching(ranked, intent);
    assert forall c :: c in kept <==> c in found && ToneMatches(c, intent);
    if |kept| > 0 {
      assert kept[0] in kept;
    } else {
      assert forall d :: d in found ==> d !in kept;
    }
  }

  lemma {:induction false} RankedHas(found: seq<Candidate>, intent: nat)
    ensures |Ranked(found, intent)| == |found| && forall c :: c in Ranked(found, intent) <==> c in found
  {
    RankedOrders(found, intent);
    var ranked := Ranked(found, intent);
    assert forall c :: c in ranked <==> c in multiset(ranked);
    assert forall c :: c in found <==> c in multiset(found);
    assert |ranked| == |multiset(ranked)| == |multiset(found)| == |found|;
  }

  // ---------------------------------------------------------------- the input without first-tone markers

  function StripAt(keys: seq<Byte>): (at: seq<nat>)
    ensures |at| <= |keys|
    ensures forall i :: 0 <= i < |at| ==> at[i] < |keys| && keys[at[i]] != TONE_1
    ensures forall i, j :: 0 <= i < j < |at| ==> at[i] < at[j]
  {
    if |keys| == 0 then []
    else
      var n := |keys| - 1;
      StripAt(keys[..n]) + if keys[n] == TONE_1 then [] else [n]
  }

  function Stripped(keys: seq<Byte>): (r: seq<Byte>)
    ensures |r| == |StripAt(keys)|
  {
    seq(|StripAt(keys)|, i requires 0 <= i < |StripAt(keys)| => keys[StripAt(keys)[i]])
  }

  method Strip(keys: seq<Byte>) returns (stripped: seq<Byte>, orig: seq<nat>)
    ensures stripped == Stripped(keys) && orig == StripAt(keys)
  {
    stripped, orig := [], [];
    for i := 0 to |keys|
      invariant orig == StripAt(keys[..i]) && |stripped| == |orig|
      invariant forall k :: 0 <= k < |orig| ==> stripped[k] == keys[orig[k]]
    {
      assert keys[..i + 1][..i] == keys[..i];
      if keys[i] != TONE_1 { stripped, orig := stripped + [keys[i]], orig + [i]; }
    }
    assert keys[..|keys|] == keys;
  }

  /** The guard for a user who changed their mind: the input ends in a tone key and a first-tone marker,
      so the whole stripped input is not tried. -1 when it does not apply. */
  function SkipLen(keys: seq<Byte>): int {
    var at := StripAt(keys);
    var n := |at|;
    if |keys| > 0 && keys[|keys| - 1] == TONE_1 && n >= 2
       && (keys[at[n - 1]] == TONE_34 || keys[at[n - 1]] == TONE_2) && at[n - 1] + 1 == |keys| - 1
    then n else -1
  }

  /** How many keys of the input the first `len` stripped keys take up. */
  function PrefixEnd(keys: seq<Byte>, len: nat): (p: nat)
    requires 1 <= len <= |StripAt(keys)|
    ensures 1 <= p <= |keys|
  {
    StripAt(keys)[len - 1] + 1
  }

  /** The candidates of one prefix length; none when it is skipped. */
  function FoundAt(search: Searcher, keys: seq<Byte>, len: nat): seq<Candidate>
    requires 1 <= len <= |StripAt(keys)|
  {
    if len == SkipLen(keys) then []
    else ToneFiltered(search(Stripped(keys)[..len]), ToneIntent(keys, PrefixEnd(keys, len)))
  }

  // ---------------------------------------------------------------- the search

  /** The rows after trying every prefix of at least `len` keys, longest first. */
  function RowsFrom(search: Searcher, keys: seq<Byte>, len: nat): seq<Hit>
    requires 1 <= len
    decreases |StripAt(keys)| - len
  {
    if len > |StripAt(keys)| then []
    else Extended(RowsFrom(search, keys, len + 1), FoundAt(search, keys, len), PrefixEnd(keys, len), MAX_CANDIDATES)
  }

  /** The longest prefix that found anything, 0 when none did. */
  function MatchedFrom(search: Searcher, keys: seq<Byte>, len: nat): (p: nat)
    requires 1 <= len
    ensures p <= |keys|
    decreases |StripAt(keys)| - len
  {
    if len > |StripAt(keys)| then 0
    else
      var longer := MatchedFrom(search, keys, len + 1);
      if longer == 0 && |FoundAt(search, keys, len)| > 0 then PrefixEnd(keys, len) else longer
  }

  /** One prefix length: search, rank, filter, and append the new words. */
  method TryPrefix(search: Searcher, keys: seq<Byte>, stripped: seq<Byte>, orig: seq<nat>, len: nat,
                   cands: array<Candidate>, prefixes: array<nat>, count: nat, matched: nat, ghost rows: seq<Hit>)
    returns (n: nat, matched': nat)
    requires stripped == Stripped(keys) && orig == StripAt(keys) && 1 <= len <= |orig| && len != SkipLen(keys)
    requires HoldRows(cands, prefixes, count, rows) && count < MAX_CANDIDATES <= cands.Length && MAX_CANDIDATES <= prefixes.Length
    modifies cands, prefixes
    ensures n <= MAX_CANDIDATES
    ensures HoldRows(cands, prefixes, n, Extended(rows, FoundAt(search, keys, len), PrefixEnd(keys, len), MAX_CANDIDATES))
    ensures matched' == if matched == 0 && |FoundAt(search, keys, len)| > 0 then PrefixEnd(keys, len) else matched
  {
    n, matched' := count, matched;
    var found := search(stripped[..len]);
    var prefixEnd := orig[len - 1] + 1;
    FilterHas(found, ToneIntent(keys, prefixEnd));
    if |found| == 0 { return; }
    var kept := KeepMatching(found, ToneIntent(keys, prefixEnd));
    if matched == 0 { matched' := prefixEnd; }
    n := Extend(cands, prefixes, count, kept, prefixEnd, MAX_CANDIDATES, rows);
  }

  method RunLegacy(search: Searcher, keys: seq<Byte>, cands: array<Candidate>, prefixes: array<nat>)
    returns (n: nat, matched: nat)
    requires MAX_CANDIDATES <= cands.Length && MAX_CANDIDATES <= prefixes.Length
    modifies cands, prefixes
    ensures n <= MAX_CANDIDATES && HoldRows(cands, prefixes, n, RowsFrom(search, keys, 1))
    ensures matched == MatchedFrom(search, keys, 1)
  {
    hide FoundAt, Extended, SkipLen;
    n, matched := 0, 0;
    var stripped, orig := Strip(keys);
    var skip := SkipLen(keys);
    var len := |orig|;
    while len >= 1
      invariant 0 <= len <= |orig| && n <= MAX_CANDIDATES
      invariant HoldRows(cands, prefixes, n, RowsFrom(search, keys, len + 1))
      invariant matched == MatchedFrom(search, keys, len + 1)
    {
      if n >= MAX_CANDIDATES {
        FullStops(search, keys, len + 1);
        return;
      }
      if len != skip {
        n, matched := TryPrefix(search, keys, stripped, orig, len, cands, prefixes, n, matched, RowsFrom(search, keys, len + 1));
      } else {
        SkippedAddsNothing(search, keys, len);
      }
      len := len - 1;
    }
  }

  lemma {:induction false} SkippedAddsNothing(search: Searcher, keys: seq<Byte>, len: nat)
    requires 1 <= len <= |StripAt(keys)| && len == SkipLen(keys)
    ensures RowsFrom(search, keys, len) == RowsFrom(search, keys, len + 1)
    ensures MatchedFrom(search, keys, len) == MatchedFrom(search, keys, len + 1)
  {
  }

  /** Once the list is full, shorter prefixes add nothing. */
  lemma {:induction false} FullStops(search: Searcher, keys: seq<Byte>, len: nat)
    requires 1 <= len && |RowsFrom(search, keys, len)| >= MAX_CANDIDATES
    ensures RowsFrom(search, keys, 1) == RowsFrom(search, keys, len)
    ensures MatchedFrom(search, keys, 1) == MatchedFrom(search, keys, len)
    decreases len
  {
    hide FoundAt, Falling;
    if len > 1 {
      if len - 1 <= |StripAt(keys)| {
        var more := FoundAt(search, keys, len - 1);
        FullAddsNothing(RowsFrom(search, keys, len), more, PrefixEnd(keys, len - 1), MAX_CANDIDATES);
        RowsShape(search, keys, len);
      }
      FullStops(search, keys, len - 1);
    }
  }

  lemma {:induction false} FullAddsNothing(rows: seq<Hit>, more: seq<Candidate>, prefix: nat, max: nat)
    requires |rows| >= max
    ensures Extended(rows, more, prefix, max) == rows
    decreases |more|
  {
    if |more| > 0 { FullAddsNothing(rows, more[..|more| - 1], prefix, max); }
  }

  // ---------------------------------------------------------------- what the list is

  /** The row's word was found with the prefix it is tagged with, and with no longer one. */
  ghost predicate Greedy(search: Searcher, keys: seq<Byte>, row: Hit, len: nat) {
    && 1 <= len <= |StripAt(keys)| && row.prefix == PrefixEnd(keys, len)
    && row.cand in FoundAt(search, keys, len)
    && forall l, c :: len < l <= |StripAt(keys)| && c in FoundAt(search, keys, l) ==> c.word != row.cand.word
  }

  /** Every word found with a prefix of at least `len` keys is listed. */
  ghost predicate ListsAll(search: Searcher, keys: seq<Byte>, rows: seq<Hit>, len: nat) {
    forall l, c :: 1 <= len <= l <= |StripAt(keys)| && c in FoundAt(search, keys, l) ==> HasHit(rows, c.word)
  }

  ghost predicate TaggedFrom(search: Searcher, keys: seq<Byte>, rows: seq<Hit>, len: nat) {
    forall i :: 0 <= i < |rows| ==> Tagged(search, keys, rows[i], len)
  }

  ghost predicate Tagged(search: Searcher, keys: seq<Byte>, row: Hit, len: nat) {
    exists l :: len <= l && Greedy(search, keys, row, l)
  }

  predicate Falling(rows: seq<Hit>) {
    forall i, j :: 0 <= i < j < |rows| ==> rows[i].prefix >= rows[j].prefix
  }

  predicate PrefixesIn(rows: seq<Hit>, n: nat) {
    forall i :: 0 <= i < |rows| ==> 1 <= rows[i].prefix <= n
  }

  lemma {:induction false} RowsShape(search: Searcher, keys: seq<Byte>, len: nat)
    requires 1 <= len
    ensures var rows := RowsFrom(search, keys, len);
      && |rows| <= MAX_CANDIDATES && DistinctRows(rows) && PrefixesIn(rows, |keys|)
      && MatchedFrom(search, keys, len) == if |rows| == 0 then 0 else rows[0].prefix
    decreases |StripAt(keys)| - len
  {
    hide FoundAt, DistinctRows;
    if len <= |StripAt(keys)| {
      RowsShape(search, keys, len + 1);
      var so, more, p := RowsFrom(search, keys, len + 1), FoundAt(search, keys, len), PrefixEnd(keys, len);
      ExtendedHas(so, more, p, MAX_CANDIDATES);
      ExtendedDistinct(so, more, p, MAX_CANDIDATES);
      ExtendedStarts(so, more, p, MAX_CANDIDATES);
    } else {
      NoRowsDistinct();
    }
  }

  lemma {:induction false} NoRowsDistinct()
    ensures DistinctRows([])
  {
  }

  lemma {:induction false} ExtendedStarts(rows: seq<Hit>, more: seq<Candidate>, prefix: nat, max: nat)
    requires max > 0
    ensures |Extended(rows, more, prefix, max)| > 0 <==> |rows| > 0 || |more| > 0
    decreases |more|
  {
    if |more| > 0 { ExtendedStarts(rows, more[..|more| - 1], prefix, max); }
  }

  lemma {:induction false} GreedyStep(search: Searcher, keys: seq<Byte>, len: nat)
    requires 1 <= len <= |StripAt(keys)|
    requires TaggedFrom(search, keys, RowsFrom(search, keys, len + 1), len + 1)
    requires |RowsFrom(search, keys, len + 1)| < MAX_CANDIDATES ==>
      ListsAll(search, keys, RowsFrom(search, keys, len + 1), len + 1)
    ensures TaggedFrom(search, keys, RowsFrom(search, keys, len), len)
  {
    hide FoundAt, HasHit;
    var so, more, p := RowsFrom(search, keys, len + 1), FoundAt(search, keys, len), PrefixEnd(keys, len);
    var rows := RowsFrom(search, keys, len);
    ExtendedHas(so, more, p, MAX_CANDIDATES);
    RowsShape(search, keys, len + 1);
    forall i | 0 <= i < |rows| ensures Tagged(search, keys, rows[i], len) {
      if i < |so| {
        assert Tagged(search, keys, so[i], len + 1);
        var l :| len + 1 <= l && Greedy(search, keys, so[i], l);
      } else {
        forall l, c | len < l <= |StripAt(keys)| && c in FoundAt(search, keys, l) ensures c.word != rows[i].cand.word {
          assert HasHit(so, c.word);
        }
        assert Greedy(search, keys, rows[i], len);
      }
    }
  }

  lemma {:induction false} ListsStep(search: Searcher, keys: seq<Byte>, len: nat)
    requires 1 <= len <= |StripAt(keys)| && |RowsFrom(search, keys, len)| < MAX_CANDIDATES
    requires ListsAll(search, keys, RowsFrom(search, keys, len + 1), len + 1)
    ensures ListsAll(search, keys, RowsFrom(search, keys, len), len)
  {
    hide FoundAt, HasHit;
    var so, more, p := RowsFrom(search, keys, len + 1), FoundAt(search, keys, len), PrefixEnd(keys, len);
    var rows := RowsFrom(search, keys, len);
    ExtendedHas(so, more, p, MAX_CANDIDATES);
    ExtendedListsAll(so, more, p, MAX_CANDIDATES);
    forall l, c | len <= l <= |StripAt(keys)| && c in FoundAt(search, keys, l) ensures HasHit(rows, c.word) {
      if l > len { HasHitPrefix(so, rows, c.word); }
    }
  }

  lemma {:induction false} GreedyFrom(search: Searcher, keys: seq<Byte>, len: nat)
    requires 1 <= len
    ensures TaggedFrom(search, keys, RowsFrom(search, keys, len), len)
    ensures |RowsFrom(search, keys, len)| < MAX_CANDIDATES ==> ListsAll(search, keys, RowsFrom(search, keys, len), len)
    decreases |StripAt(keys)| - len
  {
    hide FoundAt, HasHit, Tagged, Extended;
    if len <= |StripAt(keys)| {
      GreedyFrom(search, keys, len + 1);
      GreedyStep(search, keys, len);
      if |RowsFrom(search, keys, len)| < MAX_CANDIDATES {
        ExtendedHas(RowsFrom(search, keys, len + 1), FoundAt(search, keys, len), PrefixEnd(keys, len), MAX_CANDIDATES);
        ListsStep(search, keys, len);
      }
    }
  }

  lemma {:induction false} RowsFall(search: Searcher, keys: seq<Byte>, len: nat)
    requires 1 <= len
    ensures Falling(RowsFrom(search, keys, len))
    decreases |StripAt(keys)| - len
  {
    hide FoundAt, HasHit;
    if len <= |StripAt(keys)| {
      RowsFall(search, keys, len + 1);
      var so, more, p := RowsFrom(search, keys, len + 1), FoundAt(search, keys, len), PrefixEnd(keys, len);
      var rows := RowsFrom(search, keys, len);
      ExtendedHas(so, more, p, MAX_CANDIDATES);
      GreedyFrom(search, keys, len + 1);
      forall i | 0 <= i < |so| ensures rows[i].prefix >= p {
        assert Tagged(search, keys, so[i], len + 1);
        var l :| len + 1 <= l && Greedy(search, keys, so[i], l);
        assert StripAt(keys)[len - 1] < StripAt(keys)[l - 1];
      }
    }
  }

  /** The candidate list of the greedy search: no word twice; longer matched prefixes first; each word
      tagged with the longest tried prefix that gave it after the tone filter, counted in keys of the
      input as typed; and, unless the list is full, every word any tried prefix gave. */
  lemma {:induction false} LegacyIsGreedy(search: Searcher, keys: seq<Byte>)
    ensures var rows, matched := RowsFrom(search, keys, 1), MatchedFrom(search, keys, 1);
      && |rows| <= MAX_CANDIDATES && DistinctRows(rows) && Falling(rows) && PrefixesIn(rows, |keys|)
      && TaggedFrom(search, keys, rows, 1)
      && (|rows| < MAX_CANDIDATES ==> ListsAll(search, keys, rows, 1))
      && matched == if |rows| == 0 then 0 else rows[0].prefix
  {
    RowsShape(search, keys, 1);
    RowsFall(search, keys, 1);
    GreedyFrom(search, keys, 1);
  }
}
