/** The personalised cache: recently committed (reading, positions, word) triples. */
module Lru {
  import opened Basics
  import opened Sorting
  import opened Bytes
  import opened Composition

  const CAP: nat := 128
  const PACKED_ANY: Byte := 3
  const PACKED_POSITIONS: nat := 4
  const REUSE_BONUS_MS: nat := 5000
  const USE_MAX: nat := 0xFFFF
  const KEYS_MAX: nat := 8
  const WORD_MAX: nat := 24

  /** One 48-byte record: fixed buffers, of which `klen` and `wordLen` bytes are in use. */
  datatype Entry = Entry(
    kbytes: seq<Byte>, klen: nat, posPacked: Byte, tone: Byte, wordLen: nat, utf8: seq<Byte>,
    lastUsedMs: U32, useCount: U16, reserved0: U16, reserved1: U32)
  {
    predicate Valid() {
      && |kbytes| == KEYS_MAX && 1 <= klen <= KEYS_MAX
      && |utf8| == WORD_MAX && 1 <= wordLen <= WORD_MAX
    }

    function Keys(): seq<Byte>
      requires Valid()
    {
      kbytes[..klen]
    }

    function Word(): seq<Byte>
      requires Valid()
    {
      utf8[..wordLen]
    }
  }

  const NO_ENTRY := Entry([], 0, 0, 0, 0, [], 0, 0, 0, 0)

  // ---------------------------------------------------------------- packed hints

  function HintBits(hint: Byte): Byte {
    if hint == HINT_ANY then PACKED_ANY else hint % 4
  }

  function HintAt(hints: seq<Byte>, n: nat, k: nat): Byte
    requires n <= |hints|
  {
    if k < n then hints[k] else HINT_ANY
  }

  function PackHints(hints: seq<Byte>, n: nat): Byte
    requires n <= |hints|
  {
    Pack4(HintBits(HintAt(hints, n, 0)), HintBits(HintAt(hints, n, 1)),
          HintBits(HintAt(hints, n, 2)), HintBits(HintAt(hints, n, 3)))
  }

  function UnpackHint(packed: Byte, k: nat): Byte {
    if k >= PACKED_POSITIONS then HINT_ANY
    else
      var bits := UnpackPos(packed, k);
      if bits == PACKED_ANY then HINT_ANY else bits
  }

  /** Unpacking gives back every hint of the first four positions, and "any" beyond. */
  lemma {:induction false} HintsRoundTrip(hints: seq<Byte>, n: nat, k: nat)
    requires n <= |hints|
    requires forall i :: 0 <= i < n ==> hints[i] < 3 || hints[i] == HINT_ANY
    ensures UnpackHint(PackHints(hints, n), k) == if k < PACKED_POSITIONS then HintAt(hints, n, k) else HINT_ANY
  {
    var a, b := HintBits(HintAt(hints, n, 0)), HintBits(HintAt(hints, n, 1));
    var c, d := HintBits(HintAt(hints, n, 2)), HintBits(HintAt(hints, n, 3));
    UnpackPack4(a, b, c, d);
    if k < PACKED_POSITIONS {
      assert UnpackPos(Pack4(a, b, c, d), k) == HintBits(HintAt(hints, n, k));
      HintBitsBack(HintAt(hints, n, k));
    }
  }

  lemma {:induction false} HintBitsBack(h: Byte)
    requires h < 3 || h == HINT_ANY
    ensures (if HintBits(h) == PACKED_ANY then HINT_ANY else HintBits(h)) == h
  {
  }

  // ---------------------------------------------------------------- upsert

  predicate SameId(e: Entry, keys: seq<Byte>, pos: Byte, word: seq<Byte>) {
    e.Valid() && e.Keys() == keys && e.posPacked == pos && e.Word() == word
  }

  /** What upsert accepts: one to eight keys, a word of 1 to 24 bytes. */
  predicate Storable(keys: seq<Byte>, word: seq<Byte>) {
    1 <= |keys| <= KEYS_MAX && 1 <= |word| <= WORD_MAX
  }

  function Pad(s: seq<Byte>, n: nat): (r: seq<Byte>)
    requires |s| <= n
    ensures |r| == n && r[..|s|] == s
  {
    s + seq(n - |s|, _ => 0)
  }

  function NewEntry(keys: seq<Byte>, pos: Byte, tone: Byte, word: seq<Byte>, now: U32): (e: Entry)
    requires Storable(keys, word)
    ensures e.Valid() && SameId(e, keys, pos, word)
  {
    Entry(Pad(keys, KEYS_MAX), |keys|, pos, tone, |word|, Pad(word, WORD_MAX), now, 1, 0, 0)
  }

  function Touched(e: Entry, tone: Byte, now: U32): Entry {
    e.(lastUsedMs := now, useCount := if e.useCount < USE_MAX then e.useCount + 1 else e.useCount, tone := tone)
  }

  function Score(e: Entry): nat {
    e.lastUsedMs + REUSE_BONUS_MS * e.useCount
  }

  /** The first entry with the given identity, or the number of entries. */
  function FindExact(es: seq<Entry>, keys: seq<Byte>, pos: Byte, word: seq<Byte>): (i: nat)
    ensures i <= |es| && (i < |es| ==> SameId(es[i], keys, pos, word))
    ensures forall j :: 0 <= j < i ==> !SameId(es[j], keys, pos, word)
  {
    if |es| == 0 || SameId(es[0], keys, pos, word) then 0 else 1 + FindExact(es[1..], keys, pos, word)
  }

  /** The entry to evict: the first of the least score. */
  function Victim(es: seq<Entry>): (v: nat)
    requires |es| > 0
    ensures v < |es|
    ensures forall j :: 0 <= j < |es| ==> Score(es[v]) <= Score(es[j])
    ensures forall j :: 0 <= j < v ==> Score(es[v]) < Score(es[j])
  {
    var n := |es| - 1;
    if n == 0 then 0
    else
      var v := Victim(es[..n]);
      assert forall j :: 0 <= j < n ==> es[..n][j] == es[j];
      if Score(es[n]) < Score(es[v]) then n else v
  }

  /** The cache after one call: refused, refreshed, appended, or the victim replaced. */
  function Upserted(es: seq<Entry>, keys: seq<Byte>, pos: Byte, tone: Byte, word: seq<Byte>, now: U32): seq<Entry> {
    if !Storable(keys, word) then es
    else
      var i := FindExact(es, keys, pos, word);
      if i < |es| then es[i := Touched(es[i], tone, now)]
      else if |es| < CAP then es + [NewEntry(keys, pos, tone, word, now)]
      else es[Victim(es) := NewEntry(keys, pos, tone, word, now)]
  }

  // ---------------------------------------------------------------- what every run keeps

  ghost predicate DistinctIds(es: seq<Entry>) {
    forall i, j :: 0 <= i < j < |es| && es[i].Valid() && es[j].Valid() ==>
      !SameId(es[j], es[i].Keys(), es[i].posPacked, es[i].Word())
  }

  ghost predicate CacheOk(es: seq<Entry>) {
    |es| <= CAP && (forall i :: 0 <= i < |es| ==> es[i].Valid()) && DistinctIds(es)
  }

  ghost predicate Known(es: seq<Entry>, keys: seq<Byte>, pos: Byte, word: seq<Byte>) {
    exists j :: 0 <= j < |es| && SameId(es[j], keys, pos, word)
  }

  /** One call on the entry `k`: a known triple is refreshed in place, a new one is appended while there
      is room and otherwise takes the place of an entry of least score; nothing else changes, and what
      upsert does not accept changes nothing. */
  lemma {:induction false} UpsertKeepsOk(es: seq<Entry>, keys: seq<Byte>, pos: Byte, tone: Byte, word: seq<Byte>, now: U32)
    returns (k: nat)
    requires CacheOk(es)
    ensures CacheOk(Upserted(es, keys, pos, tone, word, now))
    ensures !Storable(keys, word) ==> Upserted(es, keys, pos, tone, word, now) == es
    ensures Storable(keys, word) ==>
      var es' := Upserted(es, keys, pos, tone, word, now);
      && k < |es'| == (if Known(es, keys, pos, word) || |es| == CAP then |es| else |es| + 1)
      && (forall i :: 0 <= i < |es| && i != k ==> es'[i] == es[i])
      && SameId(es'[k], keys, pos, word) && es'[k].lastUsedMs == now && es'[k].tone == tone
    ensures Storable(keys, word) && Known(es, keys, pos, word) ==>
      k < |es| && SameId(es[k], keys, pos, word)
      && Upserted(es, keys, pos, tone, word, now)[k].useCount == Min(es[k].useCount + 1, USE_MAX)
    ensures Storable(keys, word) && !Known(es, keys, pos, word) ==>
      && Upserted(es, keys, pos, tone, word, now)[k].useCount == 1
      && (|es| < CAP ==> k == |es|)
      && (|es| == CAP ==> forall j :: 0 <= j < |es| ==>
            es[k].lastUsedMs + 5000 * es[k].useCount <= es[j].lastUsedMs + 5000 * es[j].useCount)
  {
    var es' := Upserted(es, keys, pos, tone, word, now);
    k := FindExact(es, keys, pos, word);
    if Storable(keys, word) {
      var added := NewEntry(keys, pos, tone, word, now);
      if k < |es| {
        var e := Touched(es[k], tone, now);
        assert e.Valid() && e.Keys() == es[k].Keys() && e.Word() == es[k].Word();
      } else if |es| < CAP {
        assert es' == es + [added];
      } else {
        k := Victim(es);
        assert es'[k] == added;
      }
    }
  }

  datatype Use = Use(keys: seq<Byte>, pos: Byte, tone: Byte, word: seq<Byte>, now: U32)

  /** The cache after these calls, starting from an empty one. */
  function After(uses: seq<Use>): seq<Entry> {
    if |uses| == 0 then []
    else
      var u := uses[|uses| - 1];
      Upserted(After(uses[..|uses| - 1]), u.keys, u.pos, u.tone, u.word, u.now)
  }

  /** After any run of calls the cache is within capacity, its entries are well formed, and no two
      have the same keys, positions and word. */
  lemma {:induction false} RunKeepsOk(uses: seq<Use>)
    ensures CacheOk(After(uses))
  {
    if |uses| > 0 {
      var u := uses[|uses| - 1];
      RunKeepsOk(uses[..|uses| - 1]);
      var _ := UpsertKeepsOk(After(uses[..|uses| - 1]), u.keys, u.pos, u.tone, u.word, u.now);
    }
  }

  // ---------------------------------------------------------------- lookup

  predicate HintMatches(stored: Byte, user: Byte) {
    user == HINT_ANY || stored == HINT_ANY || stored == user
  }

  /** The stored reading is the whole input or, from two keys on, a beginning of it, and no
      position contradicts a hint. */
  predicate EntryFits(e: Entry, keys: seq<Byte>, hints: Option<seq<Byte>>)
    requires e.Valid() && HintsCover(hints, keys)
  {
    && e.klen <= |keys|
    && (e.klen == |keys| || e.klen != 1)
    && SameKeys(e.kbytes, keys, 0, e.klen)
    && forall k :: 0 <= k < e.klen ==>
         HintMatches(UnpackHint(e.posPacked, k), if hints.Some? then hints.value[k] else HINT_ANY)
  }

  predicate AllValid(es: seq<Entry>) {
    forall i :: 0 <= i < |es| ==> es[i].Valid()
  }

  /** The fitting entries, in storage order. */
  function Fitting(es: seq<Entry>, keys: seq<Byte>, hints: Option<seq<Byte>>): (r: seq<Entry>)
    requires AllValid(es) && HintsCover(hints, keys)
    ensures |r| <= |es| && AllValid(r)
  {
    if |es| == 0 then []
    else
      var n := |es| - 1;
      Fitting(es[..n], keys, hints) + if EntryFits(es[n], keys, hints) then [es[n]] else []
  }

  lemma {:induction false} FittingHas(es: seq<Entry>, keys: seq<Byte>, hints: Option<seq<Byte>>)
    requires AllValid(es) && HintsCover(hints, keys)
    ensures forall e :: e in Fitting(es, keys, hints) <==> e in es && e.Valid() && EntryFits(e, keys, hints)
  {
    if |es| > 0 {
      var n := |es| - 1;
      assert es == es[..n] + [es[n]];
      FittingHas(es[..n], keys, hints);
    }
  }

  /** Most recent first; the use count breaks ties. */
  function Recency(): Entry -> int {
    (e: Entry) => 0x1_0000 * e.lastUsedMs + e.useCount
  }

  function Ranked(es: seq<Entry>, keys: seq<Byte>, hints: Option<seq<Byte>>): (r: seq<Entry>)
    requires AllValid(es) && HintsCover(hints, keys)
    ensures AllValid(r)
  {
    SortKeepsValid(Fitting(es, keys, hints));
    SortDesc(Fitting(es, keys, hints), Recency())
  }

  lemma {:induction false} SortKeepsValid(s: seq<Entry>)
    requires AllValid(s)
    ensures AllValid(SortDesc(s, Recency()))
  {
    SortDescKeeps(s, Recency());
    var r := SortDesc(s, Recency());
    assert forall j :: 0 <= j < |r| ==> r[j] in r && r[j] in s;
  }

  lemma {:induction false} RankedHas(es: seq<Entry>, keys: seq<Byte>, hints: Option<seq<Byte>>)
    requires AllValid(es) && HintsCover(hints, keys)
    ensures Descending(Ranked(es, keys, hints), Recency())
    ensures forall e :: e in Ranked(es, keys, hints) <==> e in es && e.Valid() && EntryFits(e, keys, hints)
  {
    SortDescKeeps(Fitting(es, keys, hints), Recency());
    FittingHas(es, keys, hints);
  }

  datatype Hit = Hit(cand: Candidate, prefix: nat)

  function HitOf(e: Entry): Hit
    requires e.Valid()
  {
    Hit(Candidate(e.Word(), 0xFFFF, e.tone), e.klen)
  }

  predicate HasHit(hits: seq<Hit>, word: seq<Byte>) {
    exists i :: 0 <= i < |hits| && hits[i].cand.word == word
  }

  /** Rows in the order given, one per word, until there are `max`. */
  function Rows(ranked: seq<Entry>, max: nat): seq<Hit>
    requires AllValid(ranked)
  {
    if |ranked| == 0 then []
    else
      var rows, e := Rows(ranked[..|ranked| - 1], max), ranked[|ranked| - 1];
      if |rows| >= max || HasHit(rows, e.Word()) then rows else rows + [HitOf(e)]
  }

  function Lookup(es: seq<Entry>, keys: seq<Byte>, hints: Option<seq<Byte>>, max: nat): seq<Hit>
    requires AllValid(es) && HintsCover(hints, keys)
  {
    if |keys| == 0 then [] else Rows(Ranked(es, keys, hints), max)
  }

  /** The positions in the ranking of the entries that get a row. */
  function RowPositions(ranked: seq<Entry>, max: nat): (at: seq<nat>)
    requires AllValid(ranked)
    ensures |at| == |Rows(ranked, max)| <= max
  {
    if |ranked| == 0 then []
    else
      var n := |ranked| - 1;
      var at, rows := RowPositions(ranked[..n], max), Rows(ranked[..n], max);
      if |rows| >= max || HasHit(rows, ranked[n].Word()) then at else at + [n]
  }

  /** Row `r` is the entry at position `at[r]`, and the rows keep the ranking's order. */
  lemma {:induction false} RowsInOrder(ranked: seq<Entry>, max: nat)
    requires AllValid(ranked)
    ensures var rows, at := Rows(ranked, max), RowPositions(ranked, max);
      && |at| == |rows| <= max
      && (forall r :: 0 <= r < |rows| ==> at[r] < |ranked| && rows[r] == HitOf(ranked[at[r]]))
      && (forall r, q :: 0 <= r < q < |rows| ==> at[r] < at[q])
  {
    if |ranked| > 0 { RowsInOrder(ranked[..|ranked| - 1], max); }
  }

  lemma {:induction false} HasHitGrows(rows: seq<Hit>, h: Hit, word: seq<Byte>)
    ensures HasHit(rows + [h], word) <==> HasHit(rows, word) || h.cand.word == word
  {
    var all := rows + [h];
    assert all[|rows|] == h;
    if HasHit(rows, word) {
      var i :| 0 <= i < |rows| && rows[i].cand.word == word;
      assert all[i].cand.word == word;
    }
  }

  /** An entry has no row of its own only if its word has one, or the list was full before it. */
  lemma {:induction false} NoneLost(ranked: seq<Entry>, max: nat, j: nat)
    requires AllValid(ranked) && j < |ranked|
    ensures
      var rows, at := Rows(ranked, max), RowPositions(ranked, max);
      HasHit(rows, ranked[j].Word()) || (|rows| == max && forall r :: 0 <= r < |rows| ==> at[r] < j)
  {
    var n := |ranked| - 1;
    RowsInOrder(ranked[..n], max);
    RowsInOrder(ranked, max);
    HasHitGrows(Rows(ranked[..n], max), HitOf(ranked[n]), ranked[j].Word());
    if j < n { NoneLost(ranked[..n], max, j); }
  }

  ghost predicate DistinctRows(rows: seq<Hit>) {
    forall r, q :: 0 <= r < q < |rows| ==> rows[r].cand.word != rows[q].cand.word
  }

  lemma {:induction false} RowsDistinct(ranked: seq<Entry>, max: nat)
    requires AllValid(ranked)
    ensures DistinctRows(Rows(ranked, max))
  {
    if |ranked| > 0 {
      RowsDistinct(ranked[..|ranked| - 1], max);
      var before, e := Rows(ranked[..|ranked| - 1], max), ranked[|ranked| - 1];
      if !HasHit(before, e.Word()) {
        var rows := before + [HitOf(e)];
        forall r, q | 0 <= r < q < |rows| ensures rows[r].cand.word != rows[q].cand.word {
          assert rows[r] == before[r];
        }
      }
    }
  }

  /** A row's entry is at least as recent as every other entry with its word. */
  lemma {:induction false} RowIsFirst(ranked: seq<Entry>, max: nat, r: nat, j: nat)
    requires AllValid(ranked) && r < |Rows(ranked, max)| && j < |ranked|
    requires ranked[j].Word() == Rows(ranked, max)[r].cand.word
    ensures r < |RowPositions(ranked, max)| && RowPositions(ranked, max)[r] <= j
  {
    var n := |ranked| - 1;
    RowsInOrder(ranked[..n], max);
    RowsInOrder(ranked, max);
    if r < |Rows(ranked[..n], max)| {
      if j < n { RowIsFirst(ranked[..n], max, r, j); }
    } else if j < n {
      NoneLost(ranked[..n], max, j);
    }
  }

  /** The entries behind the rows. */
  function Sources(es: seq<Entry>, keys: seq<Byte>, hints: Option<seq<Byte>>, max: nat): (r: seq<Entry>)
    requires AllValid(es) && HintsCover(hints, keys)
    ensures |keys| > 0 ==> |r| == |Lookup(es, keys, hints, max)|
  {
    var ranked := Ranked(es, keys, hints);
    RowsInOrder(ranked, max);
    var at := RowPositions(ranked, max);
    seq(|at|, r requires 0 <= r < |at| => ranked[at[r]])
  }

  /** The rows stand for distinct words, each for the most recent fitting entry with its word,
      most recent first. */
  lemma {:induction false} LookupRows(es: seq<Entry>, keys: seq<Byte>, hints: Option<seq<Byte>>, max: nat)
    requires AllValid(es) && HintsCover(hints, keys) && |keys| > 0
    ensures var rows, sources := Lookup(es, keys, hints, max), Sources(es, keys, hints, max);
      && |rows| == |sources| <= max
      && (forall r :: 0 <= r < |rows| ==>
            sources[r] in es && sources[r].Valid() && EntryFits(sources[r], keys, hints) && rows[r] == HitOf(sources[r]))
      && DistinctRows(rows)
      && Descending(sources, Recency())
  {
    var ranked := Ranked(es, keys, hints);
    RankedHas(es, keys, hints);
    RowsInOrder(ranked, max);
    RowsDistinct(ranked, max);
  }

  /** Every fitting entry is accounted for: its word has a row at least as recent, or `max` rows at
      least as recent fill the list. */
  lemma {:induction false} LookupLosesNothing(es: seq<Entry>, keys: seq<Byte>, hints: Option<seq<Byte>>, max: nat, e: Entry)
    requires AllValid(es) && HintsCover(hints, keys) && |keys| > 0
    requires e in es && e.Valid() && EntryFits(e, keys, hints)
    ensures var rows, sources := Lookup(es, keys, hints, max), Sources(es, keys, hints, max);
      || (exists r :: 0 <= r < |rows| && rows[r].cand.word == e.Word() && Recency()(sources[r]) >= Recency()(e))
      || (|rows| == max && forall r :: 0 <= r < |rows| ==> Recency()(sources[r]) >= Recency()(e))
  {
    var ranked := Ranked(es, keys, hints);
    RowsInOrder(ranked, max);
    var rows, at := Rows(ranked, max), RowPositions(ranked, max);
    RankedHas(es, keys, hints);
    var j :| 0 <= j < |ranked| && ranked[j] == e;
    NoneLost(ranked, max, j);
    if HasHit(rows, e.Word()) {
      var r :| 0 <= r < |rows| && rows[r].cand.word == e.Word();
      RowIsFirst(ranked, max, r, j);
    }
  }

  // ---------------------------------------------------------------- the persisted form

  const HEADER_SIZE: nat := 8
  const ENTRY_SIZE: nat := 48
  const MAGIC: seq<Byte> := [0x4C, 0x52, 0x55, 0x31]   // "LRU1"
  const SERIAL_VERSION: U16 := 1

  function EncHeader(count: nat): (b: seq<Byte>)
    requires count <= CAP
    ensures |b| == HEADER_SIZE
  {
    MAGIC + Enc16(SERIAL_VERSION) + Enc16(count)
  }

  /** The record as laid out in memory, the two reserved fields included. */
  function EncEntry(e: Entry): (b: seq<Byte>)
    requires e.Valid()
    ensures |b| == ENTRY_SIZE
  {
    e.kbytes + [e.klen, e.posPacked, e.tone, e.wordLen] + e.utf8
    + Enc32(e.lastUsedMs) + Enc16(e.useCount) + Enc16(e.reserved0) + Enc32(e.reserved1)
  }

  function EncEntries(es: seq<Entry>): seq<Byte>
    requires AllValid(es)
  {
    if |es| == 0 then [] else EncEntries(es[..|es| - 1]) + EncEntry(es[|es| - 1])
  }

  function EncCache(es: seq<Entry>): seq<Byte>
    requires |es| <= CAP && AllValid(es)
  {
    EncHeader(|es|) + EncEntries(es)
  }

  lemma {:induction false} EncCacheSize(es: seq<Entry>)
    requires |es| <= CAP && AllValid(es)
    ensures |EncCache(es)| == HEADER_SIZE + |es| * ENTRY_SIZE
  {
    EncEntriesSize(es);
  }

  lemma {:induction false} EncEntriesSize(es: seq<Entry>)
    requires AllValid(es)
    ensures |EncEntries(es)| == |es| * ENTRY_SIZE
  {
    if |es| > 0 { EncEntriesSize(es[..|es| - 1]); }
  }

  function DecEntry(b: seq<Byte>, o: nat): Entry
    requires o + ENTRY_SIZE <= |b|
  {
    Entry(b[o..o + 8], b[o + 8], b[o + 9], b[o + 10], b[o + 11], b[o + 12..o + 36], Load32(b, o + 36), Load16(b, o + 40),
          Load16(b, o + 42), Load32(b, o + 44))
  }

  predicate HeaderOk(b: seq<Byte>) {
    && |b| >= HEADER_SIZE
    && b[..4] == MAGIC && Load16(b, 4) == SERIAL_VERSION && Load16(b, 6) <= CAP
    && |b| >= HEADER_SIZE + ENTRY_SIZE * Load16(b, 6)
  }

  function Decoded(b: seq<Byte>): (es: seq<Entry>)
    requires HeaderOk(b)
    ensures |es| == Load16(b, 6)
  {
    seq(Load16(b, 6), i requires 0 <= i < Load16(b, 6) => DecEntry(b, HEADER_SIZE + ENTRY_SIZE * i))
  }

  lemma {:induction false} EntryRoundTrip(b: seq<Byte>, o: nat, e: Entry)
    requires e.Valid() && At(b, o, EncEntry(e))
    ensures o + ENTRY_SIZE <= |b| && DecEntry(b, o) == e
  {
    var x0 := [e.klen, e.posPacked, e.tone, e.wordLen];
    var p1 := e.kbytes + x0;
    var p2 := p1 + e.utf8;
    var p3 := p2 + Enc32(e.lastUsedMs);
    var p4 := p3 + Enc16(e.useCount);
    AtSplit(b, o, p4 + Enc16(e.reserved0), Enc32(e.reserved1));
    AtSplit(b, o, p4, Enc16(e.reserved0));
    AtSplit(b, o, p3, Enc16(e.useCount));
    AtSplit(b, o, p2, Enc32(e.lastUsedMs));
    AtSplit(b, o, p1, e.utf8);
    AtSplit(b, o, e.kbytes, x0);
    AtSlice(b, o, e.kbytes);
    AtSlice(b, o + 12, e.utf8);
    Load32At(b, o + 36, e.lastUsedMs);
    Load16At(b, o + 40, e.useCount);
    Load16At(b, o + 42, e.reserved0);
    Load32At(b, o + 44, e.reserved1);
    assert forall i :: 0 <= i < 4 ==> b[o + 8 + i] == x0[i];
    assert b[o + 8] == x0[0] && b[o + 9] == x0[1] && b[o + 10] == x0[2] && b[o + 11] == x0[3];
  }

  lemma {:induction false} EntriesAt(b: seq<Byte>, o: nat, es: seq<Entry>, i: nat)
    requires AllValid(es) && i < |es| && At(b, o, EncEntries(es))
    ensures At(b, o + ENTRY_SIZE * i, EncEntry(es[i]))
  {
    var n := |es| - 1;
    AtSplit(b, o, EncEntries(es[..n]), EncEntry(es[n]));
    EncEntriesSize(es[..n]);
    if i < n { EntriesAt(b, o, es[..n], i); }
  }

  lemma {:induction false} HeaderRead(b: seq<Byte>, count: U16)
    requires count <= CAP && At(b, 0, EncHeader(count))
    ensures |b| >= HEADER_SIZE && b[..4] == MAGIC && Load16(b, 4) == SERIAL_VERSION && Load16(b, 6) == count
  {
    AtSplit(b, 0, MAGIC + Enc16(SERIAL_VERSION), Enc16(count));
    AtSplit(b, 0, MAGIC, Enc16(SERIAL_VERSION));
    AtSlice(b, 0, MAGIC);
    Load16At(b, 4, SERIAL_VERSION);
    Load16At(b, 6, count);
  }

  lemma {:induction false} EntriesRead(b: seq<Byte>, es: seq<Entry>)
    requires |es| <= CAP && AllValid(es) && HeaderOk(b) && Load16(b, 6) == |es|
    requires At(b, HEADER_SIZE, EncEntries(es))
    ensures Decoded(b) == es
  {
    forall i | 0 <= i < |es| ensures DecEntry(b, HEADER_SIZE + ENTRY_SIZE * i) == es[i] {
      EntriesAt(b, HEADER_SIZE, es, i);
      EntryRoundTrip(b, HEADER_SIZE + ENTRY_SIZE * i, es[i]);
    }
  }

  /** Loading what was saved gives back the same entries, so every lookup is the same. */
  lemma {:induction false} CacheRoundTrip(es: seq<Entry>)
    requires |es| <= CAP && AllValid(es)
    ensures HeaderOk(EncCache(es)) && Decoded(EncCache(es)) == es
  {
    EncCacheSize(es);
    AtSplit(EncCache(es), 0, EncHeader(|es|), EncEntries(es));
    HeaderRead(EncCache(es), |es|);
    EntriesRead(EncCache(es), es);
  }

  // ---------------------------------------------------------------- the cache object

  class LruCache {
    const entries: array<Entry>
    var count: nat

    predicate Valid()
      reads this, entries
    {
      entries.Length == CAP && count <= CAP && forall i :: 0 <= i < count ==> entries[i].Valid()
    }

    ghost function Entries(): seq<Entry>
      requires count <= entries.Length
      reads this, entries
    {
      entries[..count]
    }

    constructor ()
      ensures Valid() && fresh(entries) && Entries() == []
    {
      entries := new Entry[CAP](_ => NO_ENTRY);
      count := 0;
    }

    method Find(keys: seq<Byte>, pos: Byte, word: seq<Byte>) returns (i: nat)
      requires Valid()
      ensures i == FindExact(Entries(), keys, pos, word)
    {
      i := 0;
      ghost var es := Entries();
      while i < count
        invariant i <= count
        invariant forall j :: 0 <= j < i ==> !SameId(es[j], keys, pos, word)
      {
        var e := entries[i];
        if e.klen == |keys| && e.posPacked == pos && e.wordLen == |word|
           && e.kbytes[..e.klen] == keys && e.utf8[..e.wordLen] == word
        {
          return;
        }
        i := i + 1;
      }
    }

    method FindEvictVictim() returns (victim: nat)
      requires Valid() && count > 0
      ensures victim == Victim(Entries())
    {
      ghost var es := Entries();
      victim := 0;
      var least := Score(entries[0]);
      for i := 1 to count
        invariant victim == Victim(es[..i]) && least == Score(entries[victim])
      {
        assert es[..i + 1][..i] == es[..i];
        var score := Score(entries[i]);
        if score < least { victim, least := i, score; }
      }
      assert es[..count] == es;
    }

    method Upsert(keys: seq<Byte>, pos: Byte, tone: Byte, word: seq<Byte>, now: U32)
      requires Valid()
      modifies this`count, entries
      ensures Valid()
      ensures Entries() == Upserted(old(Entries()), keys, pos, tone, word, now)
    {
      hide SameId;
      if |keys| == 0 || |keys| > KEYS_MAX || |word| == 0 || |word| > WORD_MAX { return; }
      ghost var es := Entries();
      var i := Find(keys, pos, word);
      if i < count {
        entries[i] := Touched(entries[i], tone, now);
        assert Entries() == es[i := Touched(es[i], tone, now)];
        return;
      }
      var slot;
      if count < CAP {
        slot, count := count, count + 1;
      } else {
        slot := FindEvictVictim();
      }
      entries[slot] := NewEntry(keys, pos, tone, word, now);
      assert Entries() == if |es| < CAP then es + [NewEntry(keys, pos, tone, word, now)]
                          else es[slot := NewEntry(keys, pos, tone, word, now)];
    }

    /** Collect the fitting entries, sort them, and write one row per word. */
    method LookupInto(keys: seq<Byte>, hints: Option<seq<Byte>>, out: array<Candidate>, max: nat, prefixes: array<nat>)
      returns (n: nat)
      requires Valid() && HintsCover(hints, keys)
      requires max <= out.Length && max <= prefixes.Length
      modifies out, prefixes
      ensures n <= max && HoldRows(out, prefixes, n, Lookup(Entries(), keys, hints, max))
    {
      n := 0;
      if |keys| == 0 || max == 0 {
        var _ := RowPositions(Ranked(Entries(), keys, hints), max);
        return;
      }
      ghost var ranked := Ranked(Entries(), keys, hints);
      var matches, total := CollectFitting(keys, hints);
      InsertionSort(matches, total, Recency());
      n := EmitRows(matches, total, out, max, prefixes);
    }

    /** Header and records; -1 when the buffer is too small. */
    method Serialize(buf: array<Byte>, cap: nat) returns (n: int)
      requires Valid() && cap <= buf.Length
      modifies buf
      ensures n == if cap < |EncCache(Entries())| then -1 else |EncCache(Entries())|
      ensures n >= 0 ==> buf[..n] == EncCache(Entries())
      ensures buf[if n < 0 then 0 else n..] == old(buf[if n < 0 then 0 else n..])
    {
      EncCacheSize(Entries());
      if cap < HEADER_SIZE + count * ENTRY_SIZE { return -1; }
      ghost var es := Entries();
      var bytes := EncHeader(count);
      for i := 0 to count
        invariant bytes == EncHeader(count) + EncEntries(es[..i])
      {
        assert es[..i + 1][..i] == es[..i];
        bytes := bytes + EncEntry(entries[i]);
      }
      assert es[..count] == es;
      n := |bytes|;
      WriteBytes(buf, bytes);
    }

    /** Refused without change for a bad header; emptied for a bad record. */
    method Deserialize(buf: seq<Byte>) returns (ok: bool)
      requires Valid()
      modifies this`count, entries
      ensures Valid()
      ensures ok <==> HeaderOk(buf) && AllValid(Decoded(buf))
      ensures Entries() == if !HeaderOk(buf) then old(Entries()) else if ok then Decoded(buf) else []
    {
      if !HeaderOk(buf) { return false; }
      ghost var all := Decoded(buf);
      var cnt := Load16(buf, 6);
      var i := 0;
      var bad := false;
      while i < cnt
        invariant i <= cnt && |all| == cnt
        invariant entries[..i] == all[..i]
        invariant !bad <==> AllValid(all[..i])
        modifies entries
      {
        entries[i] := DecEntry(buf, HEADER_SIZE + ENTRY_SIZE * i);
        if !entries[i].Valid() { bad := true; }
        assert all[i] == entries[i] && all[..i + 1] == all[..i] + [all[i]];
        i := i + 1;
      }
      assert all[..cnt] == all;
      count := if bad then 0 else cnt;
      ok := !bad;
    }

    method CollectFitting(keys: seq<Byte>, hints: Option<seq<Byte>>) returns (matches: array<Entry>, n: nat)
      requires Valid() && HintsCover(hints, keys)
      ensures fresh(matches) && n <= matches.Length == CAP && matches[..n] == Fitting(Entries(), keys, hints)
    {
      matches := new Entry[CAP](_ => NO_ENTRY);
      n := 0;
      ghost var es := Entries();
      for i := 0 to count
        invariant n <= i && matches[..n] == Fitting(es[..i], keys, hints)
      {
        assert es[..i + 1][..i] == es[..i];
        if EntryFits(entries[i], keys, hints) {
          matches[n] := entries[i];
          n := n + 1;
        }
      }
      assert es[..count] == es;
    }
  }

  /** memcpy to the front of a buffer. */
  method WriteBytes(buf: array<Byte>, bytes: seq<Byte>)
    requires |bytes| <= buf.Length
    modifies buf
    ensures buf[..|bytes|] == bytes && buf[|bytes|..] == old(buf[|bytes|..])
  {
    for i := 0 to |bytes|
      invariant buf[..i] == bytes[..i] && buf[|bytes|..] == old(buf[|bytes|..])
    {
      buf[i] := bytes[i];
      assert buf[..i + 1] == buf[..i] + [bytes[i]];
    }
  }

  /** The first `n` cells of both arrays are the rows. */
  predicate HoldRows(out: array<Candidate>, prefixes: array<nat>, n: nat, rows: seq<Hit>)
    reads out, prefixes
  {
    && n == |rows| <= out.Length && n <= prefixes.Length
    && forall i :: 0 <= i < n ==> Hit(out[i], prefixes[i]) == rows[i]
  }

  method EmitRows(matches: array<Entry>, total: nat, out: array<Candidate>, max: nat, prefixes: array<nat>)
    returns (n: nat)
    requires total <= matches.Length && AllValid(matches[..total])
    requires max <= out.Length && max <= prefixes.Length
    modifies out, prefixes
    ensures n <= max && HoldRows(out, prefixes, n, Rows(matches[..total], max))
  {
    ghost var ranked := matches[..total];
    n := 0;
    var m := 0;
    while m < total && n < max
      invariant m <= total && n <= max && HoldRows(out, prefixes, n, Rows(ranked[..m], max))
    {
      assert ranked[..m + 1][..m] == ranked[..m] && matches[m] == ranked[m];
      n := EmitRow(matches[m], out, max, prefixes, n, Rows(ranked[..m], max));
      m := m + 1;
    }
    assert ranked[..m] == ranked || |Rows(ranked[..m], max)| >= max;
    RowsStop(ranked, max, m);
  }

  method EmitRow(e: Entry, out: array<Candidate>, max: nat, prefixes: array<nat>, n: nat, ghost rows: seq<Hit>)
    returns (n': nat)
    requires e.Valid() && n < max <= out.Length && max <= prefixes.Length && HoldRows(out, prefixes, n, rows)
    modifies out, prefixes
    ensures n' <= max
    ensures HoldRows(out, prefixes, n', if HasHit(rows, e.Word()) then rows else rows + [HitOf(e)])
  {
    n' := n;
    for j := 0 to n
      invariant forall i :: 0 <= i < j ==> rows[i].cand.word != e.Word()
    {
      assert rows[j].cand == out[j];
      if out[j].word == e.Word() { return; }
    }
    out[n], prefixes[n] := Candidate(e.Word(), 0xFFFF, e.tone), e.klen;
    n' := n + 1;
  }

  /** Once the list is full, later entries add nothing. */
  lemma {:induction false} RowsStop(ranked: seq<Entry>, max: nat, m: nat)
    requires AllValid(ranked) && m <= |ranked|
    requires m == |ranked| || |Rows(ranked[..m], max)| >= max
    ensures Rows(ranked, max) == Rows(ranked[..m], max)
  {
    if m == |ranked| {
      assert ranked[..m] == ranked;
    } else {
      assert ranked[..|ranked| - 1][..m] == ranked[..m];
      RowsStop(ranked[..|ranked| - 1], max, m);
    }
  }
}
