/** The two dictionary generations side by side: the search of the pre-expanded v2 index, filled by the
    loader of the word list, finds a word exactly when the v4 matcher composes it. */
module DictEquivalence {
  import opened Basics
  import opened Composition
  import opened GenDict
  import Trie

  // ---------------------------------------------------------------- the loader

  /** A row of the word list, its reading split into syllables. */
  datatype Row = Row(word: seq<Byte>, freq: nat, tone: Byte, syllables: seq<seq<char>>)

  datatype Limits = Limits(minFreq: nat, maxAbbrSyls: nat)   // 0: no limit

  function RowKeys(r: Row): seq<Byte> {
    FullKeys(KeySeqs(r.syllables))
  }

  predicate Loaded(r: Row, lim: Limits) {
    (lim.minFreq > 0 ==> r.freq >= lim.minFreq) && r.word != [] && RowKeys(r) != []
  }

  predicate Abbreviated(r: Row, lim: Limits) {
    lim.maxAbbrSyls == 0 || |r.syllables| <= lim.maxAbbrSyls
  }

  predicate AllKeyed(r: Row) {
    |r.syllables| > 0 && forall ks :: ks in KeySeqs(r.syllables) ==> |ks| > 0
  }

  /** The row puts its word under this key: its full key sequence, or an abbreviation of it. */
  ghost predicate Gives(r: Row, lim: Limits, key: seq<Byte>) {
    && Loaded(r, lim)
    && (key == RowKeys(r) || (Abbreviated(r, lim) && AllKeyed(r) && IsAbbreviation(KeySeqs(r.syllables), key)))
  }

  function EntryOf(r: Row, key: seq<Byte>): Trie.RawEntry {
    Trie.RawEntry(key, Candidate(r.word, r.freq, r.tone))
  }

  ghost predicate FromSomeRow(rows: seq<Row>, lim: Limits, e: Trie.RawEntry) {
    exists i :: 0 <= i < |rows| && Gives(rows[i], lim, e.key) && e == EntryOf(rows[i], e.key)
  }

  /** The entries are those that the rows give, and no others. */
  ghost predicate LoadedFrom(entries: seq<Trie.RawEntry>, rows: seq<Row>, lim: Limits) {
    forall e :: e in entries <==> FromSomeRow(rows, lim, e)
  }

  function Flat(syls: seq<seq<char>>): seq<char> {
    if |syls| == 0 then [] else Flat(syls[..|syls| - 1]) + syls[|syls| - 1]
  }

  lemma {:induction false} KeySeqAppend(a: seq<char>, b: seq<char>)
    ensures KeySeq(a + b) == KeySeq(a) + KeySeq(b)
  {
    if |b| == 0 {
      assert a + b == a;
    } else {
      var n := |b| - 1;
      assert (a + b)[..|a| + n] == a + b[..n] && (a + b)[|a| + n] == b[n];
      KeySeqAppend(a, b[..n]);
    }
  }

  lemma {:induction false} JoinAppend(parts: seq<seq<Byte>>, p: seq<Byte>)
    ensures Join(parts + [p]) == Join(parts) + p
  {
    if |parts| == 0 {
      assert parts + [p] == [p] && [p][1..] == [];
    } else {
      assert (parts + [p])[1..] == parts[1..] + [p];
      JoinAppend(parts[1..], p);
    }
  }

  /** The keys of the whole reading are those of its syllables in turn. */
  lemma {:induction false} FlatKeys(syls: seq<seq<char>>)
    ensures KeySeq(Flat(syls)) == FullKeys(KeySeqs(syls))
  {
    if |syls| > 0 {
      var n := |syls| - 1;
      FlatKeys(syls[..n]);
      KeySeqAppend(Flat(syls[..n]), syls[n]);
      assert KeySeqs(syls) == KeySeqs(syls[..n]) + [KeySeq(syls[n])];
      JoinAppend(KeySeqs(syls[..n]), KeySeq(syls[n]));
    }
  }

  method FlattenReading(syls: seq<seq<char>>) returns (phs: seq<char>)
    ensures phs == Flat(syls)
  {
    phs := [];
    for i := 0 to |syls|
      invariant phs == Flat(syls[..i])
    {
      assert syls[..i + 1][..i] == syls[..i];
      phs := phs + syls[i];
    }
    assert syls[..|syls|] == syls;
  }

  /** One row: its full key sequence, and unless it has too many syllables its abbreviations. */
  method LoadRow(r: Row, lim: Limits) returns (entries: seq<Trie.RawEntry>)
    ensures forall e :: e in entries <==> Gives(r, lim, e.key) && e == EntryOf(r, e.key)
  {
    hide IsAbbreviation;
    entries := [];
    if lim.minFreq > 0 && r.freq < lim.minFreq { return; }
    var phonemes := FlattenReading(r.syllables);
    var keys, _ := PhonemesToKeyseqWithPos(phonemes);
    FlatKeys(r.syllables);
    if keys == [] || r.word == [] { return; }
    entries := [EntryOf(r, keys)];
    if lim.maxAbbrSyls == 0 || |r.syllables| <= lim.maxAbbrSyls {
      var abbrs := AbbreviatedKeyseqs(r.syllables, keys);
      VariantsAre(r, abbrs);
      for i := 0 to |abbrs|
        invariant forall e :: e in entries <==> (e.key == keys || e.key in abbrs[..i]) && e == EntryOf(r, e.key)
      {
        assert abbrs[..i + 1] == abbrs[..i] + [abbrs[i]];
        entries := entries + [EntryOf(r, abbrs[i])];
      }
      assert abbrs[..|abbrs|] == abbrs;
    }
  }

  lemma {:induction false} VariantsAre(r: Row, variants: seq<seq<Byte>>)
    requires AreAbbreviations(KeySeqs(r.syllables), RowKeys(r), variants)
    ensures forall v :: v in variants <==> v != RowKeys(r) && AllKeyed(r) && IsAbbreviation(KeySeqs(r.syllables), v)
  {
    hide IsAbbreviation;
    var kss := KeySeqs(r.syllables);
    if !AllKeyed(r) {
      assert |kss| == 0 || exists ks :: ks in kss && |ks| == 0;
    }
  }

  /** The whole list, row by row. */
  method LoadRows(rows: seq<Row>, lim: Limits) returns (entries: seq<Trie.RawEntry>)
    ensures LoadedFrom(entries, rows, lim)
  {
    hide Gives;
    entries := [];
    for n := 0 to |rows|
      invariant LoadedFrom(entries, rows[..n], lim)
    {
      var more := LoadRow(rows[n], lim);
      OneMoreRow(entries, more, rows, n, lim);
      entries := entries + more;
    }
    assert rows[..|rows|] == rows;
  }

  lemma {:induction false} OneMoreRow(entries: seq<Trie.RawEntry>, more: seq<Trie.RawEntry>, rows: seq<Row>, n: nat, lim: Limits)
    requires n < |rows| && LoadedFrom(entries, rows[..n], lim)
    requires forall e :: e in more <==> Gives(rows[n], lim, e.key) && e == EntryOf(rows[n], e.key)
    ensures LoadedFrom(entries + more, rows[..n + 1], lim)
  {
    hide Gives;
    var before, after := rows[..n], rows[..n + 1];
    assert forall i :: 0 <= i < n ==> after[i] == before[i];
    forall e ensures e in entries + more <==> FromSomeRow(after, lim, e) {
      if e in more { assert after[n] == rows[n]; }
      if FromSomeRow(before, lim, e) {
        var i :| 0 <= i < |before| && Gives(before[i], lim, e.key) && e == EntryOf(before[i], e.key);
        assert after[i] == before[i];
      }
    }
  }

  // ---------------------------------------------------------------- what the v2 search finds

  /** The row lists its word under a key that begins with the input. */
  ghost predicate RowLists(r: Row, lim: Limits, q: seq<Byte>) {
    exists key :: Gives(r, lim, key) && q <= key
  }

  ghost predicate SomeRowLists(rows: seq<Row>, lim: Limits, word: seq<Byte>, q: seq<Byte>) {
    exists i :: 0 <= i < |rows| && rows[i].word == word && RowLists(rows[i], lim, q)
  }

  /** Nothing given under a key that begins with the input is lost to the limit of words per key. */
  ghost predicate NoneLost(entries: seq<Trie.RawEntry>, maxPerKey: nat, word: seq<Byte>, q: seq<Byte>) {
    forall e :: e in entries && q <= e.key && e.word.word == word ==> Trie.Survives(entries, e.key, maxPerKey, word)
  }

  /** The v2 search finds a word only if some row lists it; and then, unless the limit loses it, it does. */
  lemma {:induction false} V2FindsWhatIsListed(index: seq<Trie.IndexEntry>, entries: seq<Trie.RawEntry>, maxPerKey: nat,
                                               rows: seq<Row>, lim: Limits, word: seq<Byte>, q: seq<Byte>)
    requires Trie.IndexOf(index, entries, maxPerKey) && LoadedFrom(entries, rows, lim) && 0 < |word| < 31
    ensures HasWord(Trie.Stream(index, q), word) ==> SomeRowLists(rows, lim, word, q)
    ensures NoneLost(entries, maxPerKey, word, q) && SomeRowLists(rows, lim, word, q) ==> HasWord(Trie.Stream(index, q), word)
    ensures maxPerKey == 0 ==> NoneLost(entries, maxPerKey, word, q)
  {
    hide Gives, Trie.Survives, Trie.IndexOf, Trie.Stream;
    Trie.SearchVisitsSurvivors(index, entries, maxPerKey, q, word);
    if key :| q <= key && Trie.Survives(entries, key, maxPerKey, word) {
      Trie.SurvivorIsGiven(entries, key, maxPerKey, word);
      var e :| e in entries && e.key == key && e.word.word == word;
      assert FromSomeRow(rows, lim, e);
    }
    if SomeRowLists(rows, lim, word, q) {
      var i :| 0 <= i < |rows| && rows[i].word == word && RowLists(rows[i], lim, q);
      var key :| Gives(rows[i], lim, key) && q <= key;
      assert FromSomeRow(rows, lim, EntryOf(rows[i], key));
      assert EntryOf(rows[i], key) in entries;
    }
    if maxPerKey == 0 {
      forall e | e in entries && q <= e.key && e.word.word == word ensures Trie.Survives(entries, e.key, maxPerKey, word) {
        Trie.SurvivorIsGiven(entries, e.key, maxPerKey, word);
      }
    }
  }

  /** A row whose abbreviations are loaded lists exactly what the v4 matcher accepts for its reading. */
  lemma {:induction false} RowListsWhatV4Composes(r: Row, lim: Limits, d: CharTable, w: WordView, q: seq<Byte>)
    requires Loaded(r, lim) && Abbreviated(r, lim) && AllKeyed(r) && ShortButLast(KeySeqs(r.syllables))
    requires ReadsAs(d, w, KeySeqs(r.syllables)) && SPACE !in q
    ensures RowLists(r, lim, q) <==> Matches(d, w, q, None)
  {
    hide ReadsAs, Matches, ShortButLast, IsAbbreviation;
    var kss := KeySeqs(r.syllables);
    FullIsAbbreviation(kss);
    V4AcceptsAbbreviations(d, w, kss, q);
    forall key ensures Gives(r, lim, key) <==> IsAbbreviation(kss, key) {
    }
  }

  /** The word list, loaded into the v2 index and searched, against the v4 matcher: what v4 composes for a row
      v2 finds, unless the limit per key loses it; and what v2 finds is composed for that row or listed by
      another row of the same word, since v4 keeps one reading of each. */
  lemma {:induction false} V2FindsWhatV4Composes(
    index: seq<Trie.IndexEntry>, entries: seq<Trie.RawEntry>, maxPerKey: nat, rows: seq<Row>, lim: Limits, k: nat,
    d: CharTable, w: WordView, q: seq<Byte>)
    requires Trie.IndexOf(index, entries, maxPerKey) && LoadedFrom(entries, rows, lim) && k < |rows| && |rows[k].word| < 31
    requires Loaded(rows[k], lim) && Abbreviated(rows[k], lim) && AllKeyed(rows[k]) && ShortButLast(KeySeqs(rows[k].syllables))
    requires ReadsAs(d, w, KeySeqs(rows[k].syllables)) && SPACE !in q
    ensures NoneLost(entries, maxPerKey, rows[k].word, q) && Matches(d, w, q, None) ==>
      HasWord(Trie.Stream(index, q), rows[k].word)
    ensures HasWord(Trie.Stream(index, q), rows[k].word) ==>
      Matches(d, w, q, None) || exists i :: 0 <= i < |rows| && i != k && rows[i].word == rows[k].word && RowLists(rows[i], lim, q)
  {
    hide ReadsAs, Matches, ShortButLast, KeySeqs, RowLists, NoneLost, LoadedFrom, Trie.IndexOf, Trie.Stream, Abbreviated, AllKeyed;
    V2FindsWhatIsListed(index, entries, maxPerKey, rows, lim, rows[k].word, q);
    RowListsWhatV4Composes(rows[k], lim, d, w, q);
  }
}
