/** What the v2 search returns, said of the entries the index was compiled from: no index, no record, no
    running list. */
module TrieResults {
  import opened Basics
  import opened Sorting
  import opened Trie

  /** An entry's word as a candidate: its frequency saturates at 16 bits. */
  function Clamped(w: Candidate): Candidate {
    Candidate(w.word, if w.freq > 65535 then 65535 else w.freq, w.tone)
  }

  /** The limit of words per key leaves this entry. */
  ghost predicate Leaves(entries: seq<RawEntry>, maxPerKey: nat, key: seq<Byte>, w: Candidate) {
    w in Pruned(WordsFor(entries, key), maxPerKey)
  }

  /** The candidate is an entry left under some key that begins with the query, of 1 to 30 bytes. */
  ghost predicate Listed(entries: seq<RawEntry>, maxPerKey: nat, q: seq<Byte>, c: Candidate) {
    exists key, w :: q <= key && Leaves(entries, maxPerKey, key, w) && 1 <= |w.word| <= 30 && c == Clamped(w)
  }

  // ---------------------------------------------------------------- what is visited

  lemma {:induction false} WordsForAre(entries: seq<RawEntry>, key: seq<Byte>, w: Candidate)
    ensures w in WordsFor(entries, key) <==> RawEntry(key, w) in entries
  {
    if |entries| > 0 {
      var t, x := entries[..|entries| - 1], entries[|entries| - 1];
      WordsForAre(t, key, w);
      assert entries == t + [x];
    }
  }

  /** Without a limit, and under a key that is not overfull, every entry is left; none is made up. */
  lemma {:induction false} LeavesEntries(entries: seq<RawEntry>, maxPerKey: nat, key: seq<Byte>, w: Candidate)
    ensures Leaves(entries, maxPerKey, key, w) ==> RawEntry(key, w) in entries
    ensures maxPerKey == 0 || |WordsFor(entries, key)| <= maxPerKey ==>
      (Leaves(entries, maxPerKey, key, w) <==> RawEntry(key, w) in entries)
  {
    var words := WordsFor(entries, key);
    WordsForAre(entries, key, w);
    if 0 < maxPerKey < |words| {
      SortDescKeeps(words, CandFreq());
      if w in Pruned(words, maxPerKey) { assert w in SortDesc(words, CandFreq()); }
    }
  }

  lemma {:induction false} ShownAre(words: seq<Candidate>, c: Candidate)
    ensures c in Shown(words) <==> c in words && 0 < |c.word| < CANDIDATE_MAX_BYTES
  {
    if |words| > 0 {
      var n := |words| - 1;
      ShownAre(words[..n], c);
      assert words == words[..n] + [words[n]];
    }
  }

  lemma {:induction false} StorableAre(words: seq<Candidate>, c: Candidate)
    ensures c in Storable(words) <==> exists w :: w in words && |w.word| <= 30 && c == Clamped(w)
  {
    if |words| > 0 {
      StorableAre(words[1..], c);
      assert words == [words[0]] + words[1..];
    }
  }

  lemma {:induction false} RecordIs(words: seq<Candidate>, c: Candidate)
    ensures c in Shown(ValueRecord(words)) <==> exists w :: w in words && 1 <= |w.word| <= 30 && c == Clamped(w)
  {
    ShownAre(ValueRecord(words), c);
    StorableAre(SortDesc(words, CandFreq()), c);
    SortDescKeeps(words, CandFreq());
  }

  /** The entry's key extends the query and its record shows the candidate. */
  ghost predicate Shows(e: IndexEntry, q: seq<Byte>, c: Candidate) {
    q <= e.key && c in Shown(e.words)
  }

  lemma {:induction false} StreamIs(index: seq<IndexEntry>, q: seq<Byte>, c: Candidate)
    ensures c in Stream(index, q) <==> exists i :: 0 <= i < |index| && Shows(index[i], q, c)
  {
    if |index| > 0 {
      hide Shows;
      var n := |index| - 1;
      StreamIs(index[..n], q, c);
      LastStream(index, q, c);
      assert forall i :: 0 <= i < n ==> index[..n][i] == index[i];
    }
  }

  lemma {:induction false} LastStream(index: seq<IndexEntry>, q: seq<Byte>, c: Candidate)
    requires |index| > 0
    ensures var n := |index| - 1; c in Stream(index, q) <==> c in Stream(index[..n], q) || Shows(index[n], q, c)
  {
  }

  /** The search visits exactly the candidates listed, each with its own frequency and tone. */
  lemma {:induction false} VisitedExactlyWhen(index: seq<IndexEntry>, entries: seq<RawEntry>, maxPerKey: nat, q: seq<Byte>, c: Candidate)
    requires IndexOf(index, entries, maxPerKey)
    ensures c in Stream(index, q) <==> Listed(entries, maxPerKey, q, c)
  {
    hide ValueRecord, Shown, Pruned, WordsFor;
    StreamIs(index, q, c);
    if i :| 0 <= i < |index| && Shows(index[i], q, c) {
      var words := Pruned(WordsFor(entries, index[i].key), maxPerKey);
      RecordIs(words, c);
      var w :| w in words && 1 <= |w.word| <= 30 && c == Clamped(w);
      assert Leaves(entries, maxPerKey, index[i].key, w);
    }
    if key, w :| q <= key && Leaves(entries, maxPerKey, key, w) && 1 <= |w.word| <= 30 && c == Clamped(w) {
      LeavesEntries(entries, maxPerKey, key, w);
      var m :| 0 <= m < |entries| && entries[m] == RawEntry(key, w);
      assert GivenKey(entries, key);
      var i :| 0 <= i < |index| && index[i].key == key;
      RecordIs(Pruned(WordsFor(entries, key), maxPerKey), c);
      assert Shows(index[i], q, c);
    }
  }

  // ---------------------------------------------------------------- what is returned

  /** The word is returned with at least the frequency of `c`, or the list is full of words at least as frequent. */
  ghost predicate Placed(r: seq<Candidate>, max: nat, c: Candidate) {
    || (exists i :: 0 <= i < |r| && r[i].word == c.word && r[i].freq >= c.freq)
    || (|r| == max && forall i :: 0 <= i < max ==> r[i].freq >= c.freq)
  }

  /** Offering a new word places it, and takes another out only for a more frequent one. */
  lemma {:induction false} OfferPlaces(r: seq<Candidate>, x: Candidate, max: nat, c: Candidate)
    requires |r| <= max && Descending(r, CandFreq()) && DistinctWords(r)
    ensures !HasWord(r, x.word) ==> Placed(Offer(r, x, max), max, x)
    ensures Placed(r, max, c) ==> Placed(Offer(r, x, max), max, c)
  {
    var s := Offer(r, x, max);
    assert forall i, j :: 0 <= i < j < |r| ==> CandFreq()(r[i]) >= CandFreq()(r[j]);
    if !HasWord(r, x.word) {
      if |r| < max {
        InsertDistinct(r, x);
        Held(s, max, x, x);
        if i :| 0 <= i < |r| && r[i].word == c.word && r[i].freq >= c.freq { Held(s, max, r[i], c); }
      } else if max > 0 && x.freq > r[max - 1].freq {
        var t := r[..max - 1];
        OfferOrdered(r, x, max);
        InsertDistinct(t, x);
        Held(s, max, x, x);
        if i :| 0 <= i < |r| && r[i].word == c.word && r[i].freq >= c.freq {
          if i < max - 1 {
            assert t[i] in t;
            Held(s, max, r[i], c);
          } else {
            AtLeast(s, t, x, c.freq);
          }
        } else if Placed(r, max, c) {
          AtLeast(s, t, x, c.freq);
        }
      }
    }
  }

  lemma {:induction false} Held(s: seq<Candidate>, max: nat, w: Candidate, c: Candidate)
    requires w in s && w.word == c.word && w.freq >= c.freq
    ensures Placed(s, max, c)
  {
    var i :| 0 <= i < |s| && s[i] == w;
    assert s[i].word == c.word;
  }

  lemma {:induction false} AtLeast(s: seq<Candidate>, t: seq<Candidate>, x: Candidate, freq: nat)
    requires (forall c :: c in s ==> c in t || c == x) && (forall i :: 0 <= i < |t| ==> t[i].freq >= freq) && x.freq >= freq
    ensures forall i :: 0 <= i < |s| ==> s[i].freq >= freq
  {
    forall i | 0 <= i < |s| ensures s[i].freq >= freq { assert s[i] in s; }
  }

  /** Of every word offered, some entry is placed. */
  lemma {:induction false} CollectPlaces(words: seq<Candidate>, max: nat, c: Candidate)
    requires c in words
    ensures exists w :: w in words && w.word == c.word && Placed(Collect(words, max), max, w)
  {
    hide Placed, Offer;
    var t, x := words[..|words| - 1], words[|words| - 1];
    var r := Collect(t, max);
    assert words == t + [x];
    CollectOrdered(t, max);
    if c in t {
      CollectPlaces(t, max, c);
      var w :| w in t && w.word == c.word && Placed(r, max, w);
      OfferPlaces(r, x, max, w);
      assert w in words;
    } else if HasWord(r, x.word) {
      var i :| 0 <= i < |r| && r[i].word == x.word;
      Held(r, max, r[i], r[i]);
      OfferPlaces(r, x, max, r[i]);
      assert r[i] in words;
    } else {
      OfferPlaces(r, x, max, x);
    }
  }

  /** Whatever the query, the limit and the room: what is returned is listed, each word once, most frequent
      first, and of every word listed some entry is returned or behind a full list. */
  ghost predicate BestListed(res: seq<Candidate>, entries: seq<RawEntry>, maxPerKey: nat, q: seq<Byte>, max: nat) {
    && |res| <= max && DistinctWords(res) && Descending(res, CandFreq())
    && (forall i :: 0 <= i < |res| ==> Listed(entries, maxPerKey, q, res[i]))
    && (forall c :: Listed(entries, maxPerKey, q, c) ==>
          exists w :: Listed(entries, maxPerKey, q, w) && w.word == c.word && Placed(res, max, w))
  }

  lemma {:induction false} ResultsAreListed(index: seq<IndexEntry>, entries: seq<RawEntry>, maxPerKey: nat, q: seq<Byte>, max: nat)
    requires IndexOf(index, entries, maxPerKey)
    ensures BestListed(Collect(Stream(index, q), max), entries, maxPerKey, q, max)
  {
    hide Listed, Placed, IndexOf;
    var words := Stream(index, q);
    var res := Collect(words, max);
    CollectOrdered(words, max);
    forall i | 0 <= i < |res| ensures Listed(entries, maxPerKey, q, res[i]) {
      assert res[i] in words;
      VisitedExactlyWhen(index, entries, maxPerKey, q, res[i]);
    }
    forall c | Listed(entries, maxPerKey, q, c)
      ensures exists w :: Listed(entries, maxPerKey, q, w) && w.word == c.word && Placed(res, max, w)
    {
      VisitedExactlyWhen(index, entries, maxPerKey, q, c);
      CollectPlaces(words, max, c);
      var w :| w in words && w.word == c.word && Placed(res, max, w);
      VisitedExactlyWhen(index, entries, maxPerKey, q, w);
    }
  }

  /** The search over the compiled index. */
  method SearchEntries(ghost entries: seq<RawEntry>, ghost maxPerKey: nat, index: seq<IndexEntry>, q: seq<Byte>,
                       out: array<Candidate>, max: nat) returns (n: nat)
    requires IndexOf(index, entries, maxPerKey) && |q| > 0 && max <= out.Length
    modifies out
    ensures n <= max && BestListed(out[..n], entries, maxPerKey, q, max) && out[max..] == old(out[max..])
  {
    hide BestListed;
    ResultsAreListed(index, entries, maxPerKey, q, max);
    n := Search(index, q, out, max);
  }
}
