/** The v4 compiler's first stage: from the source words and their syllables to the character table and
    the word table, each word pointing at the readings it was written with. */
module TableBuilder {
  import opened Basics
  import opened Sorting
  import opened Composition
  import opened GenDict
  import opened WordIndex
  import opened IndexedSearch

  /** A source line: the word, its frequency, and its reading split into syllables. */
  datatype Source = Source(word: seq<char>, freq: nat, syllables: seq<seq<char>>)

  /** What tells two readings of a character apart. */
  datatype ReadingKey = ReadingKey(keys: seq<Byte>, pos: seq<nat>, tone: Byte)

  datatype Seen = Seen(key: ReadingKey, freq: nat)
  datatype Sighting = Sighting(ch: char, key: ReadingKey, freq: nat)

  predicate IsCjk(c: char) {
    var cp := c as int;
    0x3400 <= cp <= 0x9FFF || 0x20000 <= cp <= 0x2FFFF
  }

  function ToneOf(ph: char): Byte {
    if ph == 'ˊ' then 2 else if ph == 'ˇ' then 3 else if ph == 'ˋ' then 4 else if ph == '˙' then 5 else 0
  }

  /** The first tone mark's tone; 1 without a mark. */
  function SyllableTone(syl: seq<char>): Byte {
    if |syl| == 0 then 1 else if ToneOf(syl[0]) != 0 then ToneOf(syl[0]) else SyllableTone(syl[1..])
  }

  function KeyOf(syl: seq<char>): ReadingKey {
    ReadingKey(KeySeq(syl), PosSeq(syl), SyllableTone(syl))
  }

  predicate AllCjk(word: seq<char>) {
    forall i :: 0 <= i < |word| ==> IsCjk(word[i])
  }

  predicate Usable(e: Source) {
    AllCjk(e.word) && |e.syllables| == |e.word|
  }

  // ---------------------------------------------------------------- readings seen

  /** The readings the first `n` characters of a source line show. */
  function SightingsIn(e: Source, n: nat): seq<Sighting>
    requires n <= |e.word| == |e.syllables|
  {
    if n == 0 then []
    else
      SightingsIn(e, n - 1)
      + if KeySeq(e.syllables[n - 1]) == [] then []
        else [Sighting(e.word[n - 1], KeyOf(e.syllables[n - 1]), if e.freq > 1 then e.freq else 1)]
  }

  function Sightings(entries: seq<Source>): seq<Sighting> {
    if |entries| == 0 then []
    else
      var e := entries[|entries| - 1];
      Sightings(entries[..|entries| - 1]) + if Usable(e) then SightingsIn(e, |e.word|) else []
  }

  /** Record one more sighting of a reading: the highest frequency wins. */
  function Bumped(seen: seq<Seen>, key: ReadingKey, freq: nat): seq<Seen> {
    if |seen| == 0 then [Seen(key, freq)]
    else if seen[0].key == key then [if freq > seen[0].freq then Seen(key, freq) else seen[0]] + seen[1..]
    else [seen[0]] + Bumped(seen[1..], key, freq)
  }

  function Recorded(accum: map<char, seq<Seen>>, s: Sighting): map<char, seq<Seen>> {
    accum[s.ch := Bumped(if s.ch in accum then accum[s.ch] else [], s.key, s.freq)]
  }

  function Accum(ss: seq<Sighting>): map<char, seq<Seen>> {
    if |ss| == 0 then map[] else Recorded(Accum(ss[..|ss| - 1]), ss[|ss| - 1])
  }

  predicate DistinctKeys(seen: seq<Seen>) {
    forall i, j :: 0 <= i < j < |seen| ==> seen[i].key != seen[j].key
  }

  predicate Covers(seen: seq<Seen>, key: ReadingKey, freq: nat) {
    exists i :: 0 <= i < |seen| && seen[i].key == key && seen[i].freq >= freq
  }

  /** Each reading of `c` sighted is listed once, with the highest frequency it was sighted with. */
  ghost predicate SeenOk(seen: seq<Seen>, ss: seq<Sighting>, c: char) {
    && DistinctKeys(seen)
    && (forall i :: 0 <= i < |seen| ==> Sighting(c, seen[i].key, seen[i].freq) in ss)
    && (forall s :: s in ss && s.ch == c ==> Covers(seen, s.key, s.freq))
  }

  lemma {:induction false} BumpedHas(seen: seq<Seen>, key: ReadingKey, freq: nat)
    requires DistinctKeys(seen)
    ensures DistinctKeys(Bumped(seen, key, freq))
    ensures forall x :: x in Bumped(seen, key, freq) ==> x in seen || x == Seen(key, freq)
    ensures forall x :: x in seen ==> Covers(Bumped(seen, key, freq), x.key, x.freq)
    ensures Covers(Bumped(seen, key, freq), key, freq)
  {
    var r := Bumped(seen, key, freq);
    if |seen| == 0 {
      assert r[0] == Seen(key, freq);
    } else if seen[0].key == key {
      assert r[0].key == key && r[0].freq >= freq;
      forall x | x in seen ensures Covers(r, x.key, x.freq) {
        var i :| 0 <= i < |seen| && seen[i] == x;
        assert r[i].key == x.key && r[i].freq >= x.freq;
      }
    } else {
      BumpedHas(seen[1..], key, freq);
      var t := Bumped(seen[1..], key, freq);
      assert forall j :: 0 < j < |seen| ==> seen[1..][j - 1] == seen[j];
      forall x | x in seen || x == Seen(key, freq) ensures Covers(r, x.key, x.freq) {
        if x in seen[1..] || x == Seen(key, freq) { CoversCons(seen[0], t, x.key, x.freq); } else { assert r[0] == x; }
      }
      forall j | 0 < j < |r| ensures r[j].key != r[0].key {
        assert r[j] in t;
        if r[j] in seen[1..] { var i :| 0 <= i < |seen[1..]| && seen[1..][i] == r[j]; }
      }
      assert DistinctKeys(t) && r == [seen[0]] + t;
    }
  }

  lemma {:induction false} CoversCons(h: Seen, t: seq<Seen>, key: ReadingKey, freq: nat)
    requires Covers(t, key, freq)
    ensures Covers([h] + t, key, freq)
  {
    var i :| 0 <= i < |t| && t[i].key == key && t[i].freq >= freq;
    assert ([h] + t)[i + 1] == t[i];
  }

  lemma {:induction false} CoversMore(seen: seq<Seen>, r: seq<Seen>, key: ReadingKey, freq: nat)
    requires Covers(seen, key, freq) && forall x :: x in seen ==> Covers(r, x.key, x.freq)
    ensures Covers(r, key, freq)
  {
    var i :| 0 <= i < |seen| && seen[i].key == key && seen[i].freq >= freq;
    assert Covers(r, seen[i].key, seen[i].freq);
    var j :| 0 <= j < |r| && r[j].key == seen[i].key && r[j].freq >= seen[i].freq;
  }

  ghost predicate AccumOk(accum: map<char, seq<Seen>>, ss: seq<Sighting>) {
    && (forall s :: s in ss ==> s.ch in accum)
    && (forall c :: c in accum ==> SeenOk(accum[c], ss, c) && |accum[c]| > 0)
  }

  lemma {:induction false} AccumHas(ss: seq<Sighting>)
    ensures AccumOk(Accum(ss), ss)
  {
    if |ss| > 0 {
      var t, s := ss[..|ss| - 1], ss[|ss| - 1];
      AccumHas(t);
      assert ss == t + [s];
      var before := if s.ch in Accum(t) then Accum(t)[s.ch] else [];
      BumpedHas(before, s.key, s.freq);
      var after := Bumped(before, s.key, s.freq);
      forall c | c in Accum(ss) ensures SeenOk(Accum(ss)[c], ss, c) && |Accum(ss)[c]| > 0 {
        if c == s.ch { RecordOne(before, after, t, s); }
      }
    }
  }

  lemma {:induction false} RecordOne(before: seq<Seen>, after: seq<Seen>, t: seq<Sighting>, s: Sighting)
    requires SeenOk(before, t, s.ch) || (before == [] && forall x :: x in t ==> x.ch != s.ch)
    requires DistinctKeys(after) && Covers(after, s.key, s.freq)
    requires forall x :: x in after ==> x in before || x == Seen(s.key, s.freq)
    requires forall x :: x in before ==> Covers(after, x.key, x.freq)
    ensures SeenOk(after, t + [s], s.ch) && |after| > 0
  {
    forall i | 0 <= i < |after| ensures Sighting(s.ch, after[i].key, after[i].freq) in t + [s] {
      assert after[i] in after;
      if after[i] in before { var j :| 0 <= j < |before| && before[j] == after[i]; }
    }
    forall x | x in t + [s] && x.ch == s.ch ensures Covers(after, x.key, x.freq) {
      if x in t { CoversMore(before, after, x.key, x.freq); }
    }
  }

  // ---------------------------------------------------------------- the character table

  predicate AscendingChars(cs: seq<char>) {
    forall i, j :: 0 <= i < j < |cs| ==> cs[i] < cs[j]
  }

  function ByFreq(): Seen -> int {
    (s: Seen) => s.freq
  }

  /** Characters in code point order; each one's readings, most frequent first. */
  ghost predicate CharTableOf(entries: seq<Source>, chars: seq<char>, table: seq<seq<Seen>>) {
    && AscendingChars(chars) && |table| == |chars|
    && (forall s :: s in Sightings(entries) ==> s.ch in chars)
    && (forall cid :: 0 <= cid < |chars| ==>
          SeenOk(table[cid], Sightings(entries), chars[cid]) && |table[cid]| > 0 && Descending(table[cid], ByFreq()))
  }

  method Accumulate(entries: seq<Source>) returns (accum: map<char, seq<Seen>>)
    ensures accum == Accum(Sightings(entries))
  {
    accum := map[];
    for n := 0 to |entries|
      invariant accum == Accum(Sightings(entries[..n]))
    {
      assert entries[..n + 1][..n] == entries[..n];
      if Usable(entries[n]) {
        accum := AccumulateEntry(accum, entries[n], Sightings(entries[..n]));
      } else {
        assert Sightings(entries[..n]) + [] == Sightings(entries[..n]);
      }
    }
    assert entries[..|entries|] == entries;
  }

  method AccumulateEntry(accum: map<char, seq<Seen>>, e: Source, ghost ss: seq<Sighting>) returns (r: map<char, seq<Seen>>)
    requires Usable(e) && accum == Accum(ss)
    ensures r == Accum(ss + SightingsIn(e, |e.word|))
  {
    hide Accum;
    r := accum;
    var eff := if e.freq > 1 then e.freq else 1;
    assert ss + SightingsIn(e, 0) == ss;
    for i := 0 to |e.word|
      invariant r == Accum(ss + SightingsIn(e, i))
    {
      var keys, pos := PhonemesToKeyseqWithPos(e.syllables[i]);
      if keys != [] {
        var s := Sighting(e.word[i], ReadingKey(keys, pos, SyllableTone(e.syllables[i])), eff);
        AccumSnoc(ss + SightingsIn(e, i), s);
        assert ss + SightingsIn(e, i + 1) == (ss + SightingsIn(e, i)) + [s];
        r := Recorded(r, s);
      } else {
        assert ss + SightingsIn(e, i + 1) == ss + SightingsIn(e, i);
      }
    }
  }

  lemma {:induction false} AccumSnoc(ss: seq<Sighting>, s: Sighting)
    ensures Accum(ss + [s]) == Recorded(Accum(ss), s)
  {
    assert (ss + [s])[..|ss|] == ss;
  }

  method InsertChar(cs: seq<char>, c: char) returns (r: seq<char>)
    requires AscendingChars(cs) && c !in cs
    ensures AscendingChars(r) && forall x :: x in r <==> x in cs || x == c
  {
    var i := 0;
    while i < |cs| && cs[i] < c
      invariant i <= |cs| && forall j :: 0 <= j < i ==> cs[j] < c
    {
      i := i + 1;
    }
    r := cs[..i] + [c] + cs[i..];
    assert cs == cs[..i] + cs[i..];
    forall j | i <= j < |cs| ensures c < cs[j] {
      assert cs[i] in cs;
    }
    InsertAscends(cs, c, i);
  }

  lemma {:induction false} InsertAscends(cs: seq<char>, c: char, i: nat)
    requires AscendingChars(cs) && i <= |cs| && (forall j :: 0 <= j < i ==> cs[j] < c) && forall j :: i <= j < |cs| ==> c < cs[j]
    ensures AscendingChars(cs[..i] + [c] + cs[i..])
  {
  }

  method SortedChars(s: set<char>) returns (cs: seq<char>)
    ensures AscendingChars(cs) && forall c :: c in cs <==> c in s
  {
    cs := [];
    var rest := s;
    while rest != {}
      invariant AscendingChars(cs) && rest <= s
      invariant forall c :: c in cs <==> c in s && c !in rest
      decreases |rest|
    {
      var c :| c in rest;
      rest := rest - {c};
      cs := InsertChar(cs, c);
    }
  }

  method BuildCharTable(entries: seq<Source>) returns (chars: seq<char>, table: seq<seq<Seen>>)
    ensures CharTableOf(entries, chars, table)
  {
    hide SeenOk, Accum, Sightings;
    var accum := Accumulate(entries);
    AccumHas(Sightings(entries));
    chars := SortedChars(accum.Keys);
    table := [];
    for cid := 0 to |chars|
      invariant |table| == cid
      invariant forall k :: 0 <= k < cid ==>
        SeenOk(table[k], Sightings(entries), chars[k]) && |table[k]| > 0 && Descending(table[k], ByFreq())
    {
      assert chars[cid] in accum.Keys;
      SortKeepsSeen(accum[chars[cid]], Sightings(entries), chars[cid]);
      table := table + [SortDesc(accum[chars[cid]], ByFreq())];
    }
  }

  lemma {:induction false} SortKeepsSeen(seen: seq<Seen>, ss: seq<Sighting>, c: char)
    requires SeenOk(seen, ss, c) && |seen| > 0
    ensures var r := SortDesc(seen, ByFreq()); SeenOk(r, ss, c) && |r| > 0 && Descending(r, ByFreq())
  {
    hide Covers;
    var r := SortDesc(seen, ByFreq());
    SortDescKeeps(seen, ByFreq());
    SortKeysDistinct(seen);
    assert |multiset(r)| == |r| && |multiset(seen)| == |seen|;
    forall i | 0 <= i < |r| ensures Sighting(c, r[i].key, r[i].freq) in ss {
      assert r[i] in r && r[i] in seen;
      var j :| 0 <= j < |seen| && seen[j] == r[i];
    }
    forall s | s in ss && s.ch == c ensures Covers(r, s.key, s.freq) {
      CoversAgain(seen, r, s.key, s.freq);
    }
  }

  lemma {:induction false} CoversAgain(seen: seq<Seen>, r: seq<Seen>, key: ReadingKey, freq: nat)
    requires Covers(seen, key, freq) && forall x :: x in seen ==> x in r
    ensures Covers(r, key, freq)
  {
    var i :| 0 <= i < |seen| && seen[i].key == key && seen[i].freq >= freq;
    assert seen[i] in r;
    var j :| 0 <= j < |r| && r[j] == seen[i];
  }

  lemma {:induction false} SortKeysDistinct(seen: seq<Seen>)
    requires DistinctKeys(seen)
    ensures DistinctKeys(SortDesc(seen, ByFreq()))
  {
    var r := SortDesc(seen, ByFreq());
    assert Distinct(seen);
    SortDescKeeps(seen, ByFreq());
    forall i, j | 0 <= i < j < |r| ensures r[i].key != r[j].key {
      assert r[i] in seen && r[j] in seen && r[i] != r[j];
    }
  }

  // ---------------------------------------------------------------- the word table

  predicate Eligible(e: Source, chars: seq<char>) {
    |e.word| >= 2 && Usable(e) && forall i :: 0 <= i < |e.word| ==> e.word[i] in chars
  }

  /** The entry kept for each word: among the usable ones, the first of the highest frequency. */
  ghost predicate BestOf(best: map<seq<char>, Source>, entries: seq<Source>, chars: seq<char>) {
    && (forall w :: w in best ==> best[w] in entries && best[w].word == w && Eligible(best[w], chars))
    && (forall e :: e in entries && Eligible(e, chars) ==> e.word in best && best[e.word].freq >= e.freq)
  }

  method BestEntries(entries: seq<Source>, chars: seq<char>) returns (best: map<seq<char>, Source>, order: seq<seq<char>>)
    ensures BestOf(best, entries, chars) && Distinct(order) && forall w :: w in order <==> w in best
  {
    best, order := map[], [];
    for n := 0 to |entries|
      invariant BestOf(best, entries[..n], chars) && Distinct(order) && forall w :: w in order <==> w in best
    {
      var e := entries[n];
      assert entries[..n + 1] == entries[..n] + [e];
      if Eligible(e, chars) && (e.word !in best || e.freq > best[e.word].freq) {
        if e.word !in best { order := order + [e.word]; }
        best := best[e.word := e];
      }
    }
    assert entries[..|entries|] == entries;
  }

  predicate HasKey(readings: seq<Seen>, key: ReadingKey) {
    exists i :: 0 <= i < |readings| && readings[i].key == key
  }

  predicate SoundsLike(s: Seen, key: ReadingKey) {
    s.key.keys == key.keys && s.key.tone == key.tone
  }

  /** The reading itself if it is listed, else the first with its keys and tone, else the first. */
  method FindReading(readings: seq<Seen>, key: ReadingKey) returns (idx: nat)
    requires |readings| > 0
    ensures idx < |readings|
    ensures HasKey(readings, key) ==> readings[idx].key == key
    ensures !HasKey(readings, key) && (exists i :: 0 <= i < |readings| && SoundsLike(readings[i], key)) ==> SoundsLike(readings[idx], key)
  {
    for i := 0 to |readings|
      invariant forall j :: 0 <= j < i ==> readings[j].key != key
    {
      if readings[i].key == key { return i; }
    }
    for i := 0 to |readings|
      invariant forall j :: 0 <= j < i ==> !SoundsLike(readings[j], key)
    {
      if SoundsLike(readings[i], key) { return i; }
    }
    idx := 0;
  }

  method IdOf(chars: seq<char>, c: char) returns (cid: nat)
    requires c in chars
    ensures cid < |chars| && chars[cid] == c
  {
    cid := 0;
    while chars[cid] != c
      invariant cid < |chars| && c in chars[cid..]
      decreases |chars| - cid
    {
      assert chars[cid..] == [chars[cid]] + chars[cid + 1..];
      cid := cid + 1;
    }
  }

  datatype BuiltWord = BuiltWord(source: Source, charIds: seq<nat>, readingIdxs: seq<nat>)

  /** The word's characters and, where the table has it, the very reading it was written with. */
  ghost predicate WordOf(w: BuiltWord, chars: seq<char>, table: seq<seq<Seen>>)
    requires |table| == |chars|
  {
    && |w.charIds| == |w.readingIdxs| == |w.source.word| == |w.source.syllables|
    && forall i :: 0 <= i < |w.charIds| ==>
         && w.charIds[i] < |chars| && chars[w.charIds[i]] == w.source.word[i]
         && w.readingIdxs[i] < |table[w.charIds[i]]|
         && (HasKey(table[w.charIds[i]], KeyOf(w.source.syllables[i])) ==>
               table[w.charIds[i]][w.readingIdxs[i]].key == KeyOf(w.source.syllables[i]))
  }

  method BuildWord(e: Source, chars: seq<char>, table: seq<seq<Seen>>) returns (w: BuiltWord)
    requires Eligible(e, chars) && |table| == |chars| && forall cid :: 0 <= cid < |table| ==> |table[cid]| > 0
    ensures w.source == e && WordOf(w, chars, table)
  {
    var charIds: seq<nat>, idxs: seq<nat> := [], [];
    for i := 0 to |e.word|
      invariant |charIds| == |idxs| == i
      invariant forall k :: 0 <= k < i ==>
        && charIds[k] < |chars| && chars[charIds[k]] == e.word[k] && idxs[k] < |table[charIds[k]]|
        && (HasKey(table[charIds[k]], KeyOf(e.syllables[k])) ==> table[charIds[k]][idxs[k]].key == KeyOf(e.syllables[k]))
    {
      var cid := IdOf(chars, e.word[i]);
      var keys, pos := PhonemesToKeyseqWithPos(e.syllables[i]);
      var idx := FindReading(table[cid], ReadingKey(keys, pos, SyllableTone(e.syllables[i])));
      charIds, idxs := charIds + [cid], idxs + [idx];
    }
    w := BuiltWord(e, charIds, idxs);
  }

  /** One entry for each word that some usable source line of two or more characters gives. */
  ghost predicate WordTableOf(words: seq<BuiltWord>, entries: seq<Source>, chars: seq<char>, table: seq<seq<Seen>>)
    requires |table| == |chars|
  {
    && (forall k :: 0 <= k < |words| ==>
          words[k].source in entries && Eligible(words[k].source, chars) && WordOf(words[k], chars, table))
    && (forall j, k :: 0 <= j < k < |words| ==> words[j].source.word != words[k].source.word)
    && (forall e :: e in entries && Eligible(e, chars) ==>
          exists k :: 0 <= k < |words| && words[k].source.word == e.word && words[k].source.freq >= e.freq)
  }

  method BuildWordTable(entries: seq<Source>, chars: seq<char>, table: seq<seq<Seen>>) returns (words: seq<BuiltWord>)
    requires |table| == |chars| && forall cid :: 0 <= cid < |table| ==> |table[cid]| > 0
    ensures WordTableOf(words, entries, chars, table)
  {
    hide WordOf, Eligible;
    var best, order := BestEntries(entries, chars);
    words := [];
    for n := 0 to |order|
      invariant |words| == n
      invariant forall k :: 0 <= k < n ==>
        order[k] in best && words[k].source == best[order[k]] && WordOf(words[k], chars, table)
    {
      assert order[n] in best;
      var w := BuildWord(best[order[n]], chars, table);
      words := words + [w];
    }
    BestAreAll(best, order, words, entries, chars, table);
  }

  lemma {:induction false} BestAreAll(best: map<seq<char>, Source>, order: seq<seq<char>>, words: seq<BuiltWord>,
                                      entries: seq<Source>, chars: seq<char>, table: seq<seq<Seen>>)
    requires |table| == |chars| && BestOf(best, entries, chars) && Distinct(order) && forall w :: w in order <==> w in best
    requires |words| == |order| && forall k :: 0 <= k < |words| ==>
      order[k] in best && words[k].source == best[order[k]] && WordOf(words[k], chars, table)
    ensures WordTableOf(words, entries, chars, table)
  {
    hide WordOf, Eligible;
    forall e | e in entries && Eligible(e, chars)
      ensures exists k :: 0 <= k < |words| && words[k].source.word == e.word && words[k].source.freq >= e.freq
    {
      var k :| 0 <= k < |order| && order[k] == e.word;
      assert words[k].source == best[e.word];
    }
  }

  // ---------------------------------------------------------------- the tables fit together

  lemma {:induction false} SightingsInHas(e: Source, n: nat, i: nat)
    requires i < n <= |e.word| == |e.syllables| && KeySeq(e.syllables[i]) != []
    ensures Sighting(e.word[i], KeyOf(e.syllables[i]), if e.freq > 1 then e.freq else 1) in SightingsIn(e, n)
  {
    hide KeyOf;
    if i < n - 1 { SightingsInHas(e, n - 1, i); }
  }

  lemma {:induction false} SightingsHas(entries: seq<Source>, e: Source, i: nat)
    requires e in entries && Usable(e) && i < |e.word| && KeySeq(e.syllables[i]) != []
    ensures Sighting(e.word[i], KeyOf(e.syllables[i]), if e.freq > 1 then e.freq else 1) in Sightings(entries)
  {
    var n := |entries| - 1;
    if entries[n] == e {
      SightingsInHas(e, |e.word|, i);
    } else {
      assert entries == entries[..n] + [entries[n]];
      SightingsHas(entries[..n], e, i);
    }
  }

  /** Every syllable that has keys is found again, keys, positions and tone, at the index the word
      stores for it. */
  lemma {:induction false} WordKeepsItsReadings(entries: seq<Source>, chars: seq<char>, table: seq<seq<Seen>>, w: BuiltWord, i: nat)
    requires CharTableOf(entries, chars, table) && WordOf(w, chars, table)
    requires w.source in entries && Usable(w.source) && i < |w.charIds| && KeySeq(w.source.syllables[i]) != []
    ensures table[w.charIds[i]][w.readingIdxs[i]].key == KeyOf(w.source.syllables[i])
  {
    SightingsHas(entries, w.source, i);
    var cid := w.charIds[i];
    assert Covers(table[cid], KeyOf(w.source.syllables[i]), if w.source.freq > 1 then w.source.freq else 1);
  }

  function Utf8(c: char): seq<Byte> {
    var cp := c as int;
    if cp < 0x80 then [cp]
    else if cp < 0x800 then [0xC0 + cp / 0x40, 0x80 + cp % 0x40]
    else if cp < 0x1_0000 then [0xE0 + cp / 0x1000, 0x80 + cp / 0x40 % 0x40, 0x80 + cp % 0x40]
    else [0xF0 + cp / 0x4_0000, 0x80 + cp / 0x1000 % 0x40, 0x80 + cp / 0x40 % 0x40, 0x80 + cp % 0x40]
  }

  function ReadingOf(s: Seen): Reading {
    Reading(s.key.keys, Packed(PosDigits(s.key.pos)), s.key.tone, s.freq)
  }

  /** The character table as it is written to the file. */
  function CharEntries(chars: seq<char>, table: seq<seq<Seen>>): (r: seq<CharEntry>)
    requires |table| == |chars|
    ensures |r| == |chars|
  {
    seq(|chars|, cid requires 0 <= cid < |chars| =>
      CharEntry(Utf8(chars[cid]), seq(|table[cid]|, k requires 0 <= k < |table[cid]| => ReadingOf(table[cid][k]))))
  }

  predicate IndexesFit(w: BuiltWord) {
    forall i :: 0 <= i < |w.readingIdxs| ==> w.readingIdxs[i] < 0x100
  }

  function WordEntry(w: BuiltWord): Word
    requires IndexesFit(w)
  {
    Word(w.charIds, seq(|w.readingIdxs|, i requires 0 <= i < |w.readingIdxs| => w.readingIdxs[i] as Byte), w.source.freq)
  }

  /** The stored word, read through the stored table, has the key sequences of its source syllables:
      also when its reading indices were all 0 and omitted. */
  lemma {:induction false} StoredWordReadsAs(entries: seq<Source>, chars: seq<char>, table: seq<seq<Seen>>, w: BuiltWord)
    requires CharTableOf(entries, chars, table) && WordOf(w, chars, table) && IndexesFit(w)
    requires w.source in entries && Usable(w.source)
    requires forall i :: 0 <= i < |w.source.syllables| ==> KeySeq(w.source.syllables[i]) != []
    ensures ReadsAs(CharTable(StoredChars(CharEntries(chars, table)), true), Stored(WordEntry(w)), KeySeqs(w.source.syllables))
  {
    var d, v := CharTable(StoredChars(CharEntries(chars, table)), true), Stored(WordEntry(w));
    assert WordInTable(d, v);
    forall i | 0 <= i < |w.charIds|
      ensures ReadingAt(d, v, i).Some? && ReadingAt(d, v, i).value.keys == KeySeq(w.source.syllables[i])
    {
      WordKeepsItsReadings(entries, chars, table, w, i);
      IndexIsKept(w, i);
    }
  }

  lemma {:induction false} IndexIsKept(w: BuiltWord, i: nat)
    requires IndexesFit(w) && i < |w.readingIdxs|
    ensures var v := Stored(WordEntry(w));
      (if v.readingIdxs.Some? then v.readingIdxs.value[i] as int else 0) == w.readingIdxs[i]
  {
    assert WordEntry(w).readingIdxs[i] == w.readingIdxs[i];
  }

  /** From the sources to the search: a word typed by the keys of its source syllables, in full or
      abbreviated, is accepted by the v4 matcher over the stored tables exactly when the pre-expanded
      dictionary would have listed it. */
  lemma {:induction false} SourceWordIsComposed(
    entries: seq<Source>, chars: seq<char>, table: seq<seq<Seen>>, w: BuiltWord, variants: seq<seq<Byte>>, keys: seq<Byte>)
    requires CharTableOf(entries, chars, table) && WordOf(w, chars, table) && IndexesFit(w)
    requires w.source in entries && Eligible(w.source, chars)
    requires forall i :: 0 <= i < |w.source.syllables| ==> 1 <= |KeySeq(w.source.syllables[i])|
    requires ShortButLast(KeySeqs(w.source.syllables))
    requires var kss := KeySeqs(w.source.syllables); AreAbbreviations(kss, FullKeys(kss), variants)
    requires SPACE !in keys
    ensures WordInTable(CharTable(StoredChars(CharEntries(chars, table)), true), Stored(WordEntry(w)))
    ensures Matches(CharTable(StoredChars(CharEntries(chars, table)), true), Stored(WordEntry(w)), keys, None)
      <==> V2Accepts(FullKeys(KeySeqs(w.source.syllables)), variants, keys)
  {
    var kss := KeySeqs(w.source.syllables);
    StoredWordReadsAs(entries, chars, table, w);
    forall ks | ks in kss ensures 1 <= |ks| {
      var i :| 0 <= i < |kss| && kss[i] == ks;
    }
    V4AcceptsWhatV2Expands(CharTable(StoredChars(CharEntries(chars, table)), true), Stored(WordEntry(w)), kss, variants, keys);
  }

  // ---------------------------------------------------------------- a source word on which v2 and v4 differ

  /** A reading with the retroflex ending written into its first syllable: five keys. */
  const RETROFLEX := Source("花邊", 100, ["ㄏㄨㄚㄦˊ", "ㄅㄧㄢ"])

  lemma {:induction false} RetroflexKeys()
    ensures KeySeq(RETROFLEX.syllables[0]) == [0x31, 0x2E, 0x24, 0x25, 0x23]
    ensures KeySeq(RETROFLEX.syllables[1]) == [0x21, 0x29, 0x25]
  {
    var a, b := RETROFLEX.syllables[0], RETROFLEX.syllables[1];
    assert a[..5] == a && a[..5][..4] == a[..4] && a[..4][..3] == a[..3] && a[..3][..2] == a[..2] && a[..2][..1] == a[..1];
    assert b[..3] == b && b[..3][..2] == b[..2] && b[..2][..1] == b[..1];
    assert KeySeq(a[..1]) == [0x31];
    assert KeySeq(a[..2]) == [0x31, 0x2E];
    assert KeySeq(a[..3]) == [0x31, 0x2E, 0x24];
    assert KeySeq(a[..4]) == [0x31, 0x2E, 0x24, 0x25];
    assert KeySeq(b[..1]) == [0x21];
    assert KeySeq(b[..2]) == [0x21, 0x29];
  }

  /** Whatever tables are built from sources with this word: v2 stores its abbreviation 31 2E 24 21, and the
      v4 matcher over the stored tables rejects it. */
  lemma {:induction false} RetroflexDiffers(
    entries: seq<Source>, chars: seq<char>, table: seq<seq<Seen>>, w: BuiltWord, variants: seq<seq<Byte>>)
    requires CharTableOf(entries, chars, table) && WordOf(w, chars, table) && IndexesFit(w)
    requires RETROFLEX in entries && w.source == RETROFLEX
    requires var kss := KeySeqs(RETROFLEX.syllables); AreAbbreviations(kss, FullKeys(kss), variants)
    ensures WordInTable(CharTable(StoredChars(CharEntries(chars, table)), true), Stored(WordEntry(w)))
    ensures var keys := [0x31, 0x2E, 0x24, 0x21];
      && V2Accepts(FullKeys(KeySeqs(RETROFLEX.syllables)), variants, keys)
      && !Matches(CharTable(StoredChars(CharEntries(chars, table)), true), Stored(WordEntry(w)), keys, None)
  {
    hide WordOf, AreAbbreviations, V2Accepts, Matches, StoredChars, CharEntries, Stored, WordEntry, KeySeq;
    RetroflexKeys();
    var kss := KeySeqs(RETROFLEX.syllables);
    assert kss == [[0x31, 0x2E, 0x24, 0x25, 0x23], [0x21, 0x29, 0x25]];
    StoredWordReadsAs(entries, chars, table, w);
    var d, v := CharTable(StoredChars(CharEntries(chars, table)), true), Stored(WordEntry(w));
    ReadsInTable(d, v, kss);
    RetroflexTells(kss);
    var keys := LongSyllableDiffers(d, v, kss, variants, 0);
    assert keys == [0x31, 0x2E, 0x24, 0x21];
  }

  lemma {:induction false} RetroflexTells(kss: seq<seq<Byte>>)
    requires kss == [[0x31, 0x2E, 0x24, 0x25, 0x23], [0x21, 0x29, 0x25]]
    ensures TellingAtOk(kss, 0) && forall ks :: ks in kss ==> SPACE !in ks
  {
  }
}
