/** The v2 dictionary: the sorted key index the compiler builds, and the prefix search over it. */
module Trie {
  import opened Basics
  import opened Sorting

  datatype RawEntry = RawEntry(key: seq<Byte>, word: Candidate)   // frequency not yet clamped
  datatype IndexEntry = IndexEntry(key: seq<Byte>, words: seq<Candidate>)

  // ---------------------------------------------------------------- key order

  /** memcmp over the common length, then the lengths: negative, zero or positive. */
  function Compare(a: seq<Byte>, b: seq<Byte>): int {
    if |a| == 0 || |b| == 0 then |a| - |b|
    else if a[0] != b[0] then a[0] - b[0]
    else Compare(a[1..], b[1..])
  }

  lemma {:induction false} CompareOrders(a: seq<Byte>, b: seq<Byte>, c: seq<Byte>)
    ensures Compare(a, b) == 0 <==> a == b
    ensures Compare(a, b) < 0 <==> Compare(b, a) > 0
    ensures Compare(a, b) < 0 && Compare(b, c) < 0 ==> Compare(a, c) < 0
    ensures Compare(a, b) < 0 && Compare(b, c) <= 0 ==> Compare(a, c) < 0
  {
    if |a| > 0 && |b| > 0 && a[0] == b[0] {
      CompareOrders(a[1..], b[1..], if |c| > 0 then c[1..] else c);
      assert a == [a[0]] + a[1..] && b == [b[0]] + b[1..];
    }
    if |b| > 0 && |c| > 0 && b[0] == c[0] && Compare(b, c) == 0 {
      CompareZero(b, c);
    }
  }

  lemma {:induction false} CompareZero(a: seq<Byte>, b: seq<Byte>)
    requires Compare(a, b) == 0
    ensures a == b
  {
    if |a| > 0 && |b| > 0 {
      CompareZero(a[1..], b[1..]);
      assert a == [a[0]] + a[1..] && b == [b[0]] + b[1..];
    }
  }

  ghost predicate SortedKeys(keys: seq<seq<Byte>>) {
    forall i, j :: 0 <= i < j < |keys| ==> Compare(keys[i], keys[j]) < 0
  }

  /** The keys that extend `q` are together: none sorts before `q`, and a key that sorts after
      `q` without extending it sorts after all that do. */
  lemma {:induction false} PrefixBlock(q: seq<Byte>, a: seq<Byte>, b: seq<Byte>)
    ensures q <= a ==> Compare(a, q) >= 0
    ensures Compare(a, q) >= 0 && !(q <= a) && Compare(a, b) < 0 ==> !(q <= b)
  {
    if |q| > 0 && |a| > 0 && q[0] == a[0] {
      assert q <= a <==> q[1..] <= a[1..] by {
        assert q == [q[0]] + q[1..] && a == [a[0]] + a[1..];
      }
      if |b| > 0 && b[0] == a[0] {
        PrefixBlock(q[1..], a[1..], b[1..]);
        if q <= b { assert q[1..] <= b[1..] by { assert b == [b[0]] + b[1..]; } }
      } else {
        PrefixBlock(q[1..], a[1..], []);
      }
    }
  }

  // ---------------------------------------------------------------- the compiler

  /** The words given for `key`, in the order given. */
  function WordsFor(entries: seq<RawEntry>, key: seq<Byte>): seq<Candidate> {
    if |entries| == 0 then []
    else
      var last := entries[|entries| - 1];
      WordsFor(entries[..|entries| - 1], key) + if last.key == key then [last.word] else []
  }

  /** Collision pruning: with a limit, only the most frequent words of an overfull key stay. */
  function Pruned(words: seq<Candidate>, maxPerKey: nat): seq<Candidate> {
    if 0 < maxPerKey < |words| then SortDesc(words, CandFreq())[..maxPerKey] else words
  }

  /** The stored record: most frequent first, oversized words skipped, frequencies clamped. */
  function ValueRecord(words: seq<Candidate>): seq<Candidate> {
    Storable(SortDesc(words, CandFreq()))
  }

  function Storable(words: seq<Candidate>): seq<Candidate> {
    if |words| == 0 then []
    else
      var w := words[0];
      (if |w.word| >= 31 then [] else [w.(freq := Min(w.freq, 0xFFFF))]) + Storable(words[1..])
  }

  method InsertKey(keys: seq<seq<Byte>>, key: seq<Byte>) returns (r: seq<seq<Byte>>)
    requires SortedKeys(keys) && key !in keys
    ensures SortedKeys(r) && forall k :: k in r <==> k in keys || k == key
  {
    var i := 0;
    while i < |keys| && Compare(keys[i], key) < 0
      invariant i <= |keys| && forall j :: 0 <= j < i ==> Compare(keys[j], key) < 0
    {
      i := i + 1;
    }
    r := keys[..i] + [key] + keys[i..];
    if i < |keys| {
      CompareOrders(keys[i], key, key);
      forall j | i <= j < |keys| ensures Compare(key, keys[j]) < 0 {
        CompareOrders(key, keys[i], keys[j]);
      }
    }
    assert forall k :: k in r ==> k in keys || k == key;
    forall k | k in keys || k == key ensures k in r {
      if k in keys { assert keys == keys[..i] + keys[i..]; }
    }
  }

  predicate GivenKey(entries: seq<RawEntry>, key: seq<Byte>) {
    exists m :: 0 <= m < |entries| && entries[m].key == key
  }

  /** One entry for each key given, in key order, with that key's words. */
  ghost predicate IndexOf(index: seq<IndexEntry>, entries: seq<RawEntry>, maxPerKey: nat) {
    && IndexSorted(index)
    && (forall i :: 0 <= i < |index| ==>
          index[i].words == ValueRecord(Pruned(WordsFor(entries, index[i].key), maxPerKey)))
    && (forall key :: GivenKey(entries, key) ==> exists i :: 0 <= i < |index| && index[i].key == key)
    && (forall i :: 0 <= i < |index| ==> GivenKey(entries, index[i].key))
  }

  ghost predicate IndexSorted(index: seq<IndexEntry>) {
    forall i, j :: 0 <= i < j < |index| ==> Compare(index[i].key, index[j].key) < 0
  }

  method GatherWords(entries: seq<RawEntry>) returns (keys: seq<seq<Byte>>, keyToWords: map<seq<Byte>, seq<Candidate>>)
    ensures SortedKeys(keys) && forall k :: k in keys <==> k in keyToWords
    ensures forall k :: k in keyToWords <==> GivenKey(entries, k)
    ensures forall k :: k in keyToWords ==> keyToWords[k] == WordsFor(entries, k)
  {
    hide Compare;
    keyToWords, keys := map[], [];
    for n := 0 to |entries|
      invariant SortedKeys(keys) && forall k :: k in keys <==> k in keyToWords
      invariant forall k :: k in keyToWords <==> GivenKey(entries[..n], k)
      invariant forall k :: k in keyToWords ==> keyToWords[k] == WordsFor(entries[..n], k)
    {
      assert entries[..n + 1][..n] == entries[..n];
      var e := entries[n];
      if e.key !in keyToWords {
        keys := InsertKey(keys, e.key);
        NoWordsFor(entries[..n], e.key);
        keyToWords := keyToWords[e.key := []];
      }
      keyToWords := keyToWords[e.key := keyToWords[e.key] + [e.word]];
      forall k ensures k in keyToWords <==> GivenKey(entries[..n + 1], k) {
        assert entries[..n + 1] == entries[..n] + [e];
        if GivenKey(entries[..n], k) {
          var m :| 0 <= m < n && entries[..n][m].key == k;
          assert entries[..n + 1][m].key == k;
        }
        if k == e.key { assert entries[..n + 1][n].key == k; }
      }
    }
    assert entries[..|entries|] == entries;
  }

  method BuildMied(entries: seq<RawEntry>, maxPerKey: nat) returns (index: seq<IndexEntry>)
    ensures IndexOf(index, entries, maxPerKey)
  {
    hide ValueRecord, Pruned, WordsFor, Compare;
    var keys, keyToWords := GatherWords(entries);
    index := [];
    for i := 0 to |keys|
      invariant |index| == i
      invariant forall j :: 0 <= j < i ==>
        index[j] == IndexEntry(keys[j], ValueRecord(Pruned(WordsFor(entries, keys[j]), maxPerKey)))
    {
      assert keys[i] in keyToWords;
      index := index + [IndexEntry(keys[i], ValueRecord(Pruned(keyToWords[keys[i]], maxPerKey)))];
    }
    forall key | GivenKey(entries, key) ensures exists i :: 0 <= i < |index| && index[i].key == key {
      assert key in keys;
      var i :| 0 <= i < |keys| && keys[i] == key;
      assert index[i].key == key;
    }
    forall i | 0 <= i < |index| ensures GivenKey(entries, index[i].key) {
      assert keys[i] in keyToWords;
    }
  }

  lemma {:induction false} NoWordsFor(entries: seq<RawEntry>, key: seq<Byte>)
    requires !GivenKey(entries, key)
    ensures WordsFor(entries, key) == []
  {
    if |entries| > 0 {
      var rest := entries[..|entries| - 1];
      assert entries[|entries| - 1].key != key;
      assert forall m :: 0 <= m < |rest| ==> rest[m] == entries[m];
      NoWordsFor(entries[..|entries| - 1], key);
    }
  }

  // ---------------------------------------------------------------- what the search visits

  /** Words that fit a candidate buffer; the search skips the others. */
  function Shown(words: seq<Candidate>): seq<Candidate> {
    if |words| == 0 then []
    else
      var w := words[|words| - 1];
      Shown(words[..|words| - 1]) + if 0 < |w.word| < CANDIDATE_MAX_BYTES then [w] else []
  }

  /** The words of every key that extends `q`, in index order. */
  function Stream(index: seq<IndexEntry>, q: seq<Byte>): seq<Candidate> {
    if |index| == 0 then []
    else
      var e := index[|index| - 1];
      Stream(index[..|index| - 1], q) + if q <= e.key then Shown(e.words) else []
  }

  lemma {:induction false} StreamSkips(index: seq<IndexEntry>, q: seq<Byte>, i: nat)
    requires i <= |index| && forall j :: i <= j < |index| ==> !(q <= index[j].key)
    ensures Stream(index, q) == Stream(index[..i], q)
  {
    if i < |index| {
      StreamSkips(index[..|index| - 1], q, i);
      assert index[..|index| - 1][..i] == index[..i];
    } else {
      assert index[..i] == index;
    }
  }

  // ---------------------------------------------------------------- keeping the best

  /** A word already kept is dropped; otherwise it goes in by frequency, after its equals, and
      the last of a full list gives way only to a more frequent word. */
  function Offer(kept: seq<Candidate>, w: Candidate, max: nat): seq<Candidate> {
    if HasWord(kept, w.word) then kept
    else if |kept| < max then InsertDesc(kept, w, CandFreq())
    else if |kept| > 0 && w.freq > kept[|kept| - 1].freq then InsertDesc(kept[..|kept| - 1], w, CandFreq())
    else kept
  }

  function Collect(words: seq<Candidate>, max: nat): seq<Candidate> {
    if |words| == 0 then [] else Offer(Collect(words[..|words| - 1], max), words[|words| - 1], max)
  }

  /** Each word appears once and the list is frequency-descending, whatever the words offered. */
  lemma {:induction false} CollectOrdered(words: seq<Candidate>, max: nat)
    ensures var r := Collect(words, max); |r| <= max && DistinctWords(r) && Descending(r, CandFreq())
    ensures forall c :: c in Collect(words, max) ==> c in words
  {
    if |words| > 0 {
      CollectOrdered(words[..|words| - 1], max);
      OfferOrdered(Collect(words[..|words| - 1], max), words[|words| - 1], max);
    }
  }

  lemma {:induction false} OfferOrdered(kept: seq<Candidate>, w: Candidate, max: nat)
    requires |kept| <= max && DistinctWords(kept) && Descending(kept, CandFreq())
    ensures var r := Offer(kept, w, max); |r| <= max && DistinctWords(r) && Descending(r, CandFreq())
    ensures forall c :: c in Offer(kept, w, max) ==> c in kept || c == w
  {
    if !HasWord(kept, w.word) {
      if |kept| < max {
        InsertDescending(kept, w, CandFreq());
        InsertDistinct(kept, w);
      } else if |kept| > 0 && w.freq > kept[|kept| - 1].freq {
        InsertDescending(kept[..|kept| - 1], w, CandFreq());
        InsertDistinct(kept[..|kept| - 1], w);
      }
    }
  }

  lemma {:induction false} InsertDistinct(s: seq<Candidate>, w: Candidate)
    requires DistinctWords(s) && !HasWord(s, w.word)
    ensures DistinctWords(InsertDesc(s, w, CandFreq()))
    ensures forall c :: c in InsertDesc(s, w, CandFreq()) <==> c in s || c == w
  {
    if |s| > 0 {
      assert forall i :: 0 <= i < |s[1..]| ==> s[1..][i] == s[i + 1];
      InsertDistinct(s[1..], w);
      assert s == [s[0]] + s[1..];
      var r := InsertDesc(s[1..], w, CandFreq());
      assert forall i :: 0 <= i < |r| ==> r[i] in r;
    }
  }

  method OfferInPlace(out: array<Candidate>, n: nat, w: Candidate, max: nat) returns (n': nat)
    requires n <= max <= out.Length && Descending(out[..n], CandFreq())
    modifies out
    ensures n' <= max && out[..n'] == Offer(old(out[..n]), w, max)
    ensures out[max..] == old(out[max..])
  {
    n' := n;
    var dup := false;
    var j := 0;
    while j < n && !dup
      invariant 0 <= j <= n
      invariant !dup ==> forall i :: 0 <= i < j ==> out[i].word != w.word
      invariant dup ==> HasWord(out[..n], w.word)
    {
      if out[j].word == w.word {
        assert out[..n][j].word == w.word;
        dup := true;
      }
      j := j + 1;
    }
    if dup { return; }
    assert !HasWord(out[..n], w.word);
    ghost var before := out[..];
    if n < max {
      InsertInPlace(out, n, w, CandFreq());
      n' := n + 1;
      assert out[max..] == out[n + 1..][max - n - 1..];
      assert before[max..] == before[n + 1..][max - n - 1..];
    } else if n > 0 && w.freq > out[n - 1].freq {
      assert out[..n][..n - 1] == out[..n - 1];
      InsertInPlace(out, n - 1, w, CandFreq());
    }
  }

  // ---------------------------------------------------------------- the search

  lemma {:induction false} BelowStays(index: seq<IndexEntry>, q: seq<Byte>, i: nat, j: nat)
    requires IndexSorted(index) && i <= j < |index|
    ensures Compare(index[j].key, q) < 0 ==> Compare(index[i].key, q) < 0
  {
    if i < j { CompareOrders(index[i].key, index[j].key, q); }
  }

  method LowerBound(index: seq<IndexEntry>, q: seq<Byte>) returns (lo: nat)
    requires IndexSorted(index)
    ensures lo <= |index|
    ensures forall j :: 0 <= j < |index| ==> (Compare(index[j].key, q) < 0 <==> j < lo)
  {
    lo := 0;
    var hi := |index|;
    while lo < hi
      invariant lo <= hi <= |index|
      invariant forall j :: 0 <= j < lo ==> Compare(index[j].key, q) < 0
      invariant forall j :: hi <= j < |index| ==> Compare(index[j].key, q) >= 0
    {
      var mid := lo + (hi - lo) / 2;
      if Compare(index[mid].key, q) < 0 {
        forall j | 0 <= j <= mid ensures Compare(index[j].key, q) < 0 { BelowStays(index, q, j, mid); }
        lo := mid + 1;
      } else {
        forall j | mid <= j < |index| ensures Compare(index[j].key, q) >= 0 { BelowStays(index, q, mid, j); }
        hi := mid;
      }
    }
  }

  /** The words of one key, offered one by one; those that do not fit a candidate are skipped. */
  method OfferAll(words: seq<Candidate>, out: array<Candidate>, n: nat, max: nat, ghost before: seq<Candidate>)
    returns (n': nat)
    requires n <= max <= out.Length && out[..n] == Collect(before, max)
    modifies out
    ensures n' <= max && out[..n'] == Collect(before + Shown(words), max)
    ensures out[max..] == old(out[max..])
  {
    n' := n;
    assert before + Shown(words[..0]) == before;
    for w := 0 to |words|
      invariant n' <= max && out[..n'] == Collect(before + Shown(words[..w]), max)
      invariant out[max..] == old(out[max..])
    {
      ghost var done := before + Shown(words[..w]);
      assert words[..w + 1][..w] == words[..w];
      var wlen := |words[w].word|;
      if 0 < wlen < CANDIDATE_MAX_BYTES {
        CollectOrdered(done, max);
        n' := OfferInPlace(out, n', words[w], max);
        assert before + Shown(words[..w + 1]) == done + [words[w]];
        assert (done + [words[w]])[..|done|] == done;
      } else {
        assert Shown(words[..w + 1]) == Shown(words[..w]);
      }
    }
    assert words[..|words|] == words;
  }

  method Search(index: seq<IndexEntry>, q: seq<Byte>, out: array<Candidate>, max: nat) returns (n: nat)
    requires IndexSorted(index) && max <= out.Length
    modifies out
    ensures n <= max
    ensures |q| == 0 ==> n == 0
    ensures |q| > 0 ==> out[..n] == Collect(Stream(index, q), max)
    ensures out[max..] == old(out[max..])
  {
    hide Shown, Compare;
    n := 0;
    if max == 0 || |q| == 0 {
      CollectOrdered(Stream(index, q), max);
      return;
    }
    var lo := LowerBound(index, q);
    forall j | 0 <= j < lo ensures !(q <= index[..lo][j].key) {
      PrefixBlock(q, index[j].key, []);
    }
    StreamSkips(index[..lo], q, 0);
    assert index[..lo][..0] == [];
    var i := lo;
    while i < |index| && q <= index[i].key
      invariant lo <= i <= |index|
      invariant n <= max && out[..n] == Collect(Stream(index[..i], q), max)
      invariant out[max..] == old(out[max..])
    {
      assert index[..i + 1][..i] == index[..i];
      n := OfferAll(index[i].words, out, n, max, Stream(index[..i], q));
      i := i + 1;
    }
    forall j | i <= j < |index| ensures !(q <= index[j].key) {
      if i < j { PrefixBlock(q, index[i].key, index[j].key); }
    }
    StreamSkips(index, q, i);
  }

  // ---------------------------------------------------------------- one frequency per word

  /** A word has the same frequency under every key. */
  ghost predicate OneFreqPerWord(words: seq<Candidate>) {
    forall i, j :: 0 <= i < j < |words| && words[i].word == words[j].word ==> words[i].freq == words[j].freq
  }

  /** The first occurrence of each word, in order. */
  function FirstOccurrences(words: seq<Candidate>): seq<Candidate> {
    if |words| == 0 then []
    else
      var firsts, last := FirstOccurrences(words[..|words| - 1]), words[|words| - 1];
      if HasWord(firsts, last.word) then firsts else firsts + [last]
  }

  function Top(words: seq<Candidate>, max: nat): seq<Candidate> {
    words[..Min(|words|, max)]
  }

  lemma {:induction false} InsertIntoTop(s: seq<Candidate>, x: Candidate, max: nat)
    requires Descending(s, CandFreq())
    ensures var k := Top(s, max);
      Top(InsertDesc(s, x, CandFreq()), max)
        == if |k| < max then InsertDesc(k, x, CandFreq())
           else if |k| > 0 && x.freq > k[|k| - 1].freq then InsertDesc(k[..|k| - 1], x, CandFreq())
           else k
  {
    if max > 0 && |s| > 0 {
      if s[0].freq < x.freq {
        assert CandFreq()(s[0]) >= CandFreq()(s[|Top(s, max)| - 1]);
        InsertAtHead(s, x, max);
      } else {
        InsertIntoTop(s[1..], x, max - 1);
        TopOfCons(s[0], s[1..], max);
        assert s == [s[0]] + s[1..];
        TopOfCons(s[0], InsertDesc(s[1..], x, CandFreq()), max);
        InsertAfterHead(s[0], Top(s[1..], max - 1), x);
      }
    }
  }

  lemma {:induction false} InsertAtHead(s: seq<Candidate>, x: Candidate, max: nat)
    requires Descending(s, CandFreq()) && max > 0 && |s| > 0 && s[0].freq < x.freq
    ensures var k := Top(s, max);
      Top(InsertDesc(s, x, CandFreq()), max)
        == if |k| < max then InsertDesc(k, x, CandFreq()) else InsertDesc(k[..|k| - 1], x, CandFreq())
  {
    TopOfCons(x, s, max);
    var k := Top(s, max);
    assert InsertDesc(s, x, CandFreq()) == [x] + s && InsertDesc(k, x, CandFreq()) == [x] + k;
    if |k| == max { assert k[..max - 1] == Top(s, max - 1); }
  }

  lemma {:induction false} TopOfCons(h: Candidate, t: seq<Candidate>, max: nat)
    requires max > 0
    ensures Top([h] + t, max) == [h] + Top(t, max - 1)
  {
  }

  lemma {:induction false} InsertAfterHead(h: Candidate, k: seq<Candidate>, x: Candidate)
    requires h.freq >= x.freq
    ensures InsertDesc([h] + k, x, CandFreq()) == [h] + InsertDesc(k, x, CandFreq())
    ensures |k| > 0 ==> ([h] + k)[..|k|] == [h] + k[..|k| - 1]
    ensures |k| > 0 ==> InsertDesc(([h] + k)[..|k|], x, CandFreq()) == [h] + InsertDesc(k[..|k| - 1], x, CandFreq())
  {
    assert ([h] + k)[1..] == k;
    if |k| > 0 {
      assert ([h] + k)[..|k|] == [h] + k[..|k| - 1];
      assert ([h] + k[..|k| - 1])[1..] == k[..|k| - 1];
    }
  }

  lemma {:induction false} FirstOccurrencesHave(words: seq<Candidate>)
    ensures DistinctWords(FirstOccurrences(words))
    ensures forall c :: c in FirstOccurrences(words) ==> c in words
    ensures forall c :: c in words ==> HasWord(FirstOccurrences(words), c.word)
  {
    if |words| > 0 {
      var t, x := words[..|words| - 1], words[|words| - 1];
      FirstOccurrencesHave(t);
      assert words == t + [x];
      var firsts, all := FirstOccurrences(t), FirstOccurrences(words);
      forall c | c in words ensures HasWord(all, c.word) {
        if c in t {
          var i :| 0 <= i < |firsts| && firsts[i].word == c.word;
          assert all[i].word == c.word;
        } else if !HasWord(firsts, x.word) {
          assert all[|firsts|].word == c.word;
        }
      }
    }
  }

  /** A word met before is not kept twice, and if it was left out or pushed out then it stays out. */
  lemma {:induction false} RepeatChangesNothing(firsts: seq<Candidate>, x: Candidate, max: nat)
    requires HasWord(firsts, x.word)
    requires forall c :: c in firsts && c.word == x.word ==> c.freq == x.freq
    ensures var k := Top(SortDesc(firsts, CandFreq()), max); Offer(k, x, max) == k
  {
    var sorted := SortDesc(firsts, CandFreq());
    SortDescKeeps(firsts, CandFreq());
    var i :| 0 <= i < |firsts| && firsts[i].word == x.word;
    assert firsts[i] in sorted;
    var p :| 0 <= p < |sorted| && sorted[p] == firsts[i];
    var k := Top(sorted, max);
    if p < max {
      assert k[p].word == x.word;
    } else if max > 0 {
      assert CandFreq()(sorted[max - 1]) >= CandFreq()(sorted[p]);
    }
  }

  /** One more word: a repeat changes nothing, a new one is inserted in the sorted list. */
  lemma {:induction false} OfferKeepsTop(t: seq<Candidate>, x: Candidate, max: nat)
    requires OneFreqPerWord(t + [x])
    ensures var firsts := FirstOccurrences(t);
      Offer(Top(SortDesc(firsts, CandFreq()), max), x, max)
        == Top(SortDesc(if HasWord(firsts, x.word) then firsts else firsts + [x], CandFreq()), max)
  {
    FirstOccurrencesHave(t);
    var firsts := FirstOccurrences(t);
    var sorted := SortDesc(firsts, CandFreq());
    SortDescKeeps(firsts, CandFreq());
    if HasWord(firsts, x.word) {
      forall c | c in firsts && c.word == x.word ensures c.freq == x.freq {
        var i :| 0 <= i < |t| && t[i] == c;
        assert (t + [x])[i].word == (t + [x])[|t|].word;
      }
      RepeatChangesNothing(firsts, x, max);
    } else {
      assert (firsts + [x])[..|firsts|] == firsts;
      InsertIntoTop(sorted, x, max);
      NotInTop(firsts, sorted, x.word, max);
    }
  }

  /** When every word carries one frequency, the search returns the first `max` of the stable
      frequency sort of the words' first occurrences: evicting early loses nothing. */
  lemma {:induction false} CollectIsTopOfSort(words: seq<Candidate>, max: nat)
    requires OneFreqPerWord(words)
    ensures Collect(words, max) == Top(SortDesc(FirstOccurrences(words), CandFreq()), max)
  {
    if |words| > 0 {
      var t, x := words[..|words| - 1], words[|words| - 1];
      CollectIsTopOfSort(t, max);
      assert words == t + [x];
      OfferKeepsTop(t, x, max);
    }
  }

  lemma {:induction false} NotInTop(firsts: seq<Candidate>, sorted: seq<Candidate>, word: seq<Byte>, max: nat)
    requires !HasWord(firsts, word) && forall c :: c in sorted ==> c in firsts
    ensures !HasWord(Top(sorted, max), word)
  {
    forall i | 0 <= i < |Top(sorted, max)| ensures Top(sorted, max)[i].word != word {
      assert sorted[i] in sorted;
    }
  }

  // ---------------------------------------------------------------- the compiled index, searched

  /** The word is among those the limit leaves under the key. */
  predicate Survives(entries: seq<RawEntry>, key: seq<Byte>, maxPerKey: nat, word: seq<Byte>) {
    HasWord(Pruned(WordsFor(entries, key), maxPerKey), word)
  }

  /** Whatever the limit, the search visits exactly the words that survive under some key that extends the
      query and that fit their record and the candidate buffer. */
  lemma {:induction false} SearchVisitsSurvivors(index: seq<IndexEntry>, entries: seq<RawEntry>, maxPerKey: nat,
                                                 q: seq<Byte>, word: seq<Byte>)
    requires IndexOf(index, entries, maxPerKey)
    ensures HasWord(Stream(index, q), word)
      <==> 0 < |word| < 31 && exists key :: q <= key && Survives(entries, key, maxPerKey, word)
  {
    hide ValueRecord, Shown;
    StreamHas(index, q, word);
    if i :| 0 <= i < |index| && Offers(index[i], q, word) {
      RecordHas(entries, index[i].key, maxPerKey, word);
      assert Survives(entries, index[i].key, maxPerKey, word);
    }
    if 0 < |word| < 31 && exists key :: q <= key && Survives(entries, key, maxPerKey, word) {
      var key :| q <= key && Survives(entries, key, maxPerKey, word);
      SurvivorIsGiven(entries, key, maxPerKey, word);
      assert GivenKey(entries, key);
      var i :| 0 <= i < |index| && index[i].key == key;
      RecordHas(entries, key, maxPerKey, word);
      assert Offers(index[i], q, word);
    }
  }

  /** What survives was given; without a limit, and under a key that is not overfull, everything does. */
  lemma {:induction false} SurvivorIsGiven(entries: seq<RawEntry>, key: seq<Byte>, maxPerKey: nat, word: seq<Byte>)
    ensures Survives(entries, key, maxPerKey, word) ==> exists e :: e in entries && e.key == key && e.word.word == word
    ensures maxPerKey == 0 || |WordsFor(entries, key)| <= maxPerKey ==>
      (Survives(entries, key, maxPerKey, word) <==> exists e :: e in entries && e.key == key && e.word.word == word)
    ensures Survives(entries, key, maxPerKey, word) ==> GivenKey(entries, key)
  {
    var words := WordsFor(entries, key);
    PrunedAreWords(words, maxPerKey, word);
    WordsForHas(entries, key, word);
    if e :| e in entries && e.key == key && e.word.word == word {
      var m :| 0 <= m < |entries| && entries[m] == e;
    }
  }

  lemma {:induction false} PrunedAreWords(words: seq<Candidate>, maxPerKey: nat, word: seq<Byte>)
    ensures HasWord(Pruned(words, maxPerKey), word) ==> HasWord(words, word)
  {
    SortDescKeeps(words, CandFreq());
    SameWords(words, SortDesc(words, CandFreq()), word);
    if HasWord(Pruned(words, maxPerKey), word) {
      var i :| 0 <= i < |Pruned(words, maxPerKey)| && Pruned(words, maxPerKey)[i].word == word;
      if 0 < maxPerKey < |words| { assert SortDesc(words, CandFreq())[i].word == word; }
    }
  }

  /** Under an overfull key the limit keeps that many words, and drops none that is more frequent than one it
      keeps. */
  lemma {:induction false} PrunedIsTop(words: seq<Candidate>, maxPerKey: nat)
    requires 0 < maxPerKey < |words|
    ensures |Pruned(words, maxPerKey)| == maxPerKey
    ensures multiset(Pruned(words, maxPerKey)) <= multiset(words)
    ensures forall c, k :: c in multiset(words) - multiset(Pruned(words, maxPerKey)) && k in Pruned(words, maxPerKey) ==>
      c.freq <= k.freq
  {
    hide SortDesc;
    var sorted := SortDesc(words, CandFreq());
    var kept, dropped := sorted[..maxPerKey], sorted[maxPerKey..];
    SortDescKeeps(words, CandFreq());
    assert sorted == kept + dropped;
    forall c, k | c in dropped && k in kept ensures c.freq <= k.freq {
      var i :| 0 <= i < |kept| && kept[i] == k;
      var j :| 0 <= j < |dropped| && dropped[j] == c;
      assert CandFreq()(sorted[i]) >= CandFreq()(sorted[maxPerKey + j]);
    }
  }

  /** Without pruning, the search visits exactly the words that were given under some key that
      extends the query and that fit their record and the candidate buffer. */
  lemma {:induction false} SearchVisitsEntries(index: seq<IndexEntry>, entries: seq<RawEntry>, q: seq<Byte>, word: seq<Byte>)
    requires IndexOf(index, entries, 0)
    ensures HasWord(Stream(index, q), word)
      <==> 0 < |word| < 31 && exists e :: e in entries && q <= e.key && e.word.word == word
  {
    hide Survives, IndexOf;
    SearchVisitsSurvivors(index, entries, 0, q, word);
    if key :| q <= key && Survives(entries, key, 0, word) { SurvivorIsGiven(entries, key, 0, word); }
    if e :| e in entries && q <= e.key && e.word.word == word { SurvivorIsGiven(entries, e.key, 0, word); }
  }

  /** The entry's key extends the query, and its record shows the word. */
  predicate Offers(e: IndexEntry, q: seq<Byte>, word: seq<Byte>) {
    q <= e.key && HasWord(Shown(e.words), word)
  }

  lemma {:induction false} StreamHas(index: seq<IndexEntry>, q: seq<Byte>, word: seq<Byte>)
    ensures HasWord(Stream(index, q), word) <==> exists i :: 0 <= i < |index| && Offers(index[i], q, word)
  {
    if |index| > 0 {
      var n := |index| - 1;
      StreamHas(index[..n], q, word);
      HasWordAppend(Stream(index[..n], q), if q <= index[n].key then Shown(index[n].words) else [], word);
      assert forall i :: 0 <= i < n ==> index[..n][i] == index[i];
      assert HasWord(Stream(index, q), word) <==> HasWord(Stream(index[..n], q), word) || Offers(index[n], q, word);
    }
  }

  lemma {:induction false} HasWordAppend(a: seq<Candidate>, b: seq<Candidate>, word: seq<Byte>)
    ensures HasWord(a + b, word) <==> HasWord(a, word) || HasWord(b, word)
  {
    if HasWord(a, word) {
      var i :| 0 <= i < |a| && a[i].word == word;
      assert (a + b)[i].word == word;
    }
    if HasWord(b, word) {
      var i :| 0 <= i < |b| && b[i].word == word;
      assert (a + b)[|a| + i].word == word;
    }
  }

  lemma {:induction false} ShownHas(words: seq<Candidate>, word: seq<Byte>)
    ensures HasWord(Shown(words), word) <==> HasWord(words, word) && 0 < |word| < CANDIDATE_MAX_BYTES
  {
    if |words| > 0 {
      var n := |words| - 1;
      ShownHas(words[..n], word);
      HasWordAppend(Shown(words[..n]), if 0 < |words[n].word| < CANDIDATE_MAX_BYTES then [words[n]] else [], word);
      HasWordAppend(words[..n], [words[n]], word);
      assert words == words[..n] + [words[n]];
      assert HasWord([words[n]], word) <==> words[n].word == word by {
        if words[n].word == word { assert [words[n]][0].word == word; }
      }
    }
  }

  lemma {:induction false} StorableHas(words: seq<Candidate>, word: seq<Byte>)
    ensures HasWord(Storable(words), word) <==> HasWord(words, word) && |word| < 31
  {
    if |words| > 0 {
      var w := words[0];
      var first := if |w.word| >= 31 then [] else [w.(freq := Min(w.freq, 0xFFFF))];
      StorableHas(words[1..], word);
      HasWordAppend(first, Storable(words[1..]), word);
      HasWordAppend([w], words[1..], word);
      assert words == [w] + words[1..];
      assert HasWord([w], word) <==> w.word == word by {
        if w.word == word { assert [w][0].word == word; }
      }
      assert HasWord(first, word) <==> w.word == word && |word| < 31 by {
        if w.word == word && |word| < 31 { assert first[0].word == word; }
      }
    }
  }

  lemma {:induction false} RecordHas(entries: seq<RawEntry>, key: seq<Byte>, maxPerKey: nat, word: seq<Byte>)
    ensures HasWord(Shown(ValueRecord(Pruned(WordsFor(entries, key), maxPerKey))), word)
      <==> 0 < |word| < 31 && Survives(entries, key, maxPerKey, word)
  {
    hide Pruned;
    var words := Pruned(WordsFor(entries, key), maxPerKey);
    ShownHas(ValueRecord(words), word);
    StorableHas(SortDesc(words, CandFreq()), word);
    SortDescKeeps(words, CandFreq());
    SameWords(words, SortDesc(words, CandFreq()), word);
  }

  lemma {:induction false} SameWords(a: seq<Candidate>, b: seq<Candidate>, word: seq<Byte>)
    requires forall c :: c in a <==> c in b
    ensures HasWord(a, word) <==> HasWord(b, word)
  {
    if HasWord(a, word) {
      var i :| 0 <= i < |a| && a[i].word == word;
      assert a[i] in b;
    }
    if HasWord(b, word) {
      var i :| 0 <= i < |b| && b[i].word == word;
      assert b[i] in a;
    }
  }

  lemma {:induction false} WordsForHas(entries: seq<RawEntry>, key: seq<Byte>, word: seq<Byte>)
    ensures HasWord(WordsFor(entries, key), word)
      <==> exists e :: e in entries && e.key == key && e.word.word == word
  {
    if |entries| > 0 {
      var t, x := entries[..|entries| - 1], entries[|entries| - 1];
      WordsForHas(t, key, word);
      HasWordAppend(WordsFor(t, key), if x.key == key then [x.word] else [], word);
      assert entries == t + [x];
      if x.key == key && x.word.word == word { assert x in entries && [x.word][0].word == word; }
    }
  }
}
