/** The v4 search: candidates come from the inverted indexes, a pool keeps the most frequent
    matches. `Search` is proved to return the most frequent matches of a scan of every word. */
module IndexedSearch {
  import opened Basics
  import opened Sorting
  import opened Composition
  import opened WordIndex

  /** The loaded dictionary: what the header, the tables and the two indexes decode to. */
  datatype Image = Image(
    table: CharTable, words: seq<WordView>, groups: seq<Group>,
    keyOffsets: seq<nat>, keyCids: seq<nat>, firstOffsets: seq<nat>, firstWids: seq<nat>)

  /** A word record as the reader sees it: clamped frequency, indices omitted when all are 0. */
  function Stored(w: Word): WordView {
    WordView(w.charIds,
             if exists i :: 0 <= i < |w.readingIdxs| && w.readingIdxs[i] != 0 then Some(w.readingIdxs) else None,
             Min(w.freq, 0xFFFF))
  }

  /** Every character id of a word is in the table, and it has one reading index each. */
  predicate WordsFit(chars: seq<CharEntry>, words: seq<Word>) {
    forall w :: w in words ==>
      |w.readingIdxs| == |w.charIds| && forall i :: 0 <= i < |w.charIds| ==> w.charIds[i] < |chars|
  }

  function StoredReading(r: Reading): Reading {
    r.(freq := Min(r.freq, 0xFFFF))
  }

  function StoredChars(chars: seq<CharEntry>): (r: seq<CharEntry>)
    ensures |r| == |chars|
  {
    seq(|chars|, i requires 0 <= i < |chars| =>
      CharEntry(chars[i].utf8, seq(|chars[i].readings|, j requires 0 <= j < |chars[i].readings| =>
        StoredReading(chars[i].readings[j]))))
  }

  lemma {:induction false} StoredHasKey(chars: seq<CharEntry>, key: int)
    ensures forall cid :: 0 <= cid < |chars| ==> (HasKey(chars[cid], key) <==> HasKey(StoredChars(chars)[cid], key))
  {
    forall cid | 0 <= cid < |chars| ensures HasKey(chars[cid], key) <==> HasKey(StoredChars(chars)[cid], key) {
      var a, b := chars[cid].readings, StoredChars(chars)[cid].readings;
      assert forall j :: 0 <= j < |a| ==> b[j].keys == a[j].keys;
    }
  }

  function StoredWords(flat: seq<Word>): (views: seq<WordView>)
    ensures |views| == |flat|
  {
    seq(|flat|, i requires 0 <= i < |flat| => Stored(flat[i]))
  }

  /** The tables the compiler builds, loaded, keep what the search relies on. */
  lemma {:induction false} CompiledImageOk(image: Image, chars: seq<CharEntry>, words: seq<Word>, flat: seq<Word>)
    requires WordsFit(chars, words)
    requires image.table.chars == StoredChars(chars) && image.words == StoredWords(flat)
    requires Grouped(words, flat, image.groups)
    requires Packs(image.keyOffsets, image.keyCids, KeyLists(chars))
    requires Packs(image.firstOffsets, image.firstWids, FirstLists(flat, |chars|))
    ensures ImageOk(image)
  {
    GroupWordsOk(words, flat, image.groups);
    assert WordLengths(image.words) == Lengths(flat);
    forall wid | 0 <= wid < |flat| ensures WordInTable(image.table, image.words[wid]) {
      GroupingConserves(words, flat, image.groups, flat[wid]);
      assert multiset(flat)[flat[wid]] > 0;
      assert flat[wid] in words;
    }
    KeyIndexBuilt(image, chars);
    FirstIndexBuilt(image, flat);
  }

  lemma {:induction false} KeyIndexBuilt(image: Image, chars: seq<CharEntry>)
    requires image.table.chars == StoredChars(chars)
    requires Packs(image.keyOffsets, image.keyCids, KeyLists(chars))
    ensures forall slot :: 0 <= slot < KEY_SLOTS ==> KeySlotOk(image, slot)
  {
    forall slot | 0 <= slot < KEY_SLOTS ensures KeySlotOk(image, slot) {
      KeyListsHave(chars, KEY_MIN + slot);
      StoredHasKey(chars, KEY_MIN + slot);
      FlattenSlice(KeyLists(chars), slot);
    }
  }

  lemma {:induction false} FirstIndexBuilt(image: Image, table: seq<Word>)
    requires |image.words| == |table|
    requires forall i :: 0 <= i < |table| ==> image.words[i].charIds == table[i].charIds
    requires Packs(image.firstOffsets, image.firstWids, FirstLists(table, |image.table.chars|))
    ensures forall cid :: 0 <= cid < |image.table.chars| ==> FirstCharOk(image, cid)
  {
    forall cid | 0 <= cid < |image.table.chars| ensures FirstCharOk(image, cid) {
      FirstListsHave(table, |image.table.chars|, cid);
      FlattenSlice(FirstLists(table, |image.table.chars|), cid);
    }
  }

  function WordLengths(words: seq<WordView>): (lens: seq<nat>)
    ensures |lens| == |words|
  {
    seq(|words|, i requires 0 <= i < |words| => |words[i].charIds|)
  }

  // ---------------------------------------------------------------- what the indexes promise

  function Slice(offsets: seq<nat>, data: seq<nat>, i: nat): seq<nat>
    requires i + 1 < |offsets| && offsets[i] <= offsets[i + 1] <= |data|
  {
    data[offsets[i]..offsets[i + 1]]
  }

  ghost predicate KeySlotOk(image: Image, slot: nat)
    requires |image.keyOffsets| == KEY_SLOTS + 1 && slot < KEY_SLOTS
  {
    && image.keyOffsets[slot] <= image.keyOffsets[slot + 1] <= |image.keyCids|
    && var list := Slice(image.keyOffsets, image.keyCids, slot);
       && Distinct(list)
       && forall cid :: cid in list <==>
            0 <= cid < |image.table.chars| && HasKey(image.table.chars[cid], KEY_MIN + slot)
  }

  ghost predicate FirstCharOk(image: Image, cid: nat)
    requires |image.firstOffsets| == |image.table.chars| + 1 && cid < |image.table.chars|
  {
    && image.firstOffsets[cid] <= image.firstOffsets[cid + 1] <= |image.firstWids|
    && var list := Slice(image.firstOffsets, image.firstWids, cid);
       && Distinct(list)
       && forall wid :: wid in list <==>
            0 <= wid < |image.words| && |image.words[wid].charIds| > 0 && image.words[wid].charIds[0] == cid
  }

  ghost predicate ImageOk(image: Image) {
    && (forall wid :: 0 <= wid < |image.words| ==> WordInTable(image.table, image.words[wid]))
    && GroupsOk(WordLengths(image.words), image.groups)
    && |image.keyOffsets| == KEY_SLOTS + 1
    && (forall slot :: 0 <= slot < KEY_SLOTS ==> KeySlotOk(image, slot))
    && |image.firstOffsets| == |image.table.chars| + 1
    && (forall cid :: 0 <= cid < |image.table.chars| ==> FirstCharOk(image, cid))
  }

  // ---------------------------------------------------------------- the specification

  /** The words a target length admits: exactly 1 to 7 characters, at least five (-1), or any. */
  predicate InClass(target: int, n: nat) {
    if 1 <= target <= 7 then n == target
    else if target == -1 then n >= 5
    else true
  }

  /** What a scan of the whole table would keep. */
  predicate Hit(image: Image, keys: seq<Byte>, hints: Option<seq<Byte>>, target: int, wid: nat) {
    && HintsCover(hints, keys)
    && wid < |image.words| && WordInTable(image.table, image.words[wid])
    && InClass(target, |image.words[wid].charIds|)
    && Matches(image.table, image.words[wid], keys, hints)
  }

  /** The word's characters, up to the first that no longer fits the candidate buffer. */
  function WordString(d: CharTable, w: WordView, ci: nat, written: nat): seq<Byte>
    requires WordInTable(d, w) && ci <= |w.charIds|
    decreases |w.charIds| - ci
  {
    if ci == |w.charIds| then []
    else
      var utf8 := d.chars[w.charIds[ci]].utf8;
      if written + |utf8| > CANDIDATE_MAX_BYTES - 1 then []
      else utf8 + WordString(d, w, ci + 1, written + |utf8|)
  }

  function WordTone(d: CharTable, w: WordView): Byte
    requires WordInTable(d, w)
  {
    if |w.charIds| == 0 then 0
    else
      match ReadingAt(d, w, |w.charIds| - 1)
      case Some(r) => r.tone
      case None => 0
  }

  function CandidateOf(image: Image, wid: nat): Candidate
    requires wid < |image.words| && WordInTable(image.table, image.words[wid])
  {
    var w := image.words[wid];
    Candidate(WordString(image.table, w, 0, 0), w.freq, WordTone(image.table, w))
  }

  // ---------------------------------------------------------------- the pool of the best

  /** `min` is a least frequent candidate of a full pool. */
  ghost predicate PoolOk(pool: seq<Candidate>, max: nat, min: nat) {
    && |pool| <= max
    && (|pool| > 0 ==> min < |pool|)
    && (|pool| == max ==> forall i :: 0 <= i < |pool| ==> pool[min].freq <= pool[i].freq)
  }

  method MinIndex(out: array<Candidate>, n: nat) returns (min: nat)
    requires 0 < n <= out.Length
    ensures min < n && forall i :: 0 <= i < n ==> out[min].freq <= out[i].freq
  {
    min := 0;
    for i := 1 to n
      invariant min < n && forall j :: 0 <= j < i ==> out[min].freq <= out[j].freq
    {
      if out[i].freq < out[min].freq { min := i; }
    }
  }

  /** The pool after one more match: appended while there is room, else in place of a least
      frequent candidate if it is more frequent. */
  function Emitted(pool: seq<Candidate>, max: nat, min: nat, c: Candidate): seq<Candidate>
    requires |pool| <= max && (|pool| == max ==> min < |pool|)
  {
    if |pool| < max then pool + [c]
    else if c.freq > pool[min].freq then pool[min := c]
    else pool
  }

  method EmitMatch(out: array<Candidate>, n: nat, min: nat, max: nat, c: Candidate) returns (n': nat, min': nat)
    requires 0 < max <= out.Length && n <= max && PoolOk(out[..n], max, min)
    modifies out
    ensures n' <= max && PoolOk(out[..n'], max, min')
    ensures out[..n'] == Emitted(old(out[..n]), max, min, c)
    ensures out[max..] == old(out[max..])
  {
    n', min' := n, min;
    if n < max {
      out[n] := c;
      if n == 0 || c.freq < out[min].freq { min' := n; }
      n' := n + 1;
      if n' == max {
        min' := MinIndex(out, n');
      }
    } else if c.freq > out[min].freq {
      out[min] := c;
      min' := MinIndex(out, n');
    }
  }

  function ByFreq(f: nat -> Candidate): nat -> int {
    (id: nat) => f(id).freq
  }

  function MapTo(ids: seq<nat>, f: nat -> Candidate): (r: seq<Candidate>)
    ensures |r| == |ids| && forall i :: 0 <= i < |r| ==> r[i] == f(ids[i])
  {
    seq(|ids|, i requires 0 <= i < |ids| => f(ids[i]))
  }

  /** The pool holds the candidates of `picks`, chosen among `seen`, and leaves out none that is
      more frequent than one it holds. */
  ghost predicate Keeps(pool: seq<Candidate>, picks: seq<nat>, seen: set<nat>, max: nat, f: nat -> Candidate) {
    && pool == MapTo(picks, f) && |pool| <= max
    && Distinct(picks)
    && (forall id :: id in picks ==> id in seen)
    && forall id :: id in seen && id !in picks ==>
         |pool| == max && forall i :: 0 <= i < |pool| ==> f(id).freq <= pool[i].freq
  }

  function EmittedPick(pool: seq<Candidate>, picks: seq<nat>, max: nat, min: nat, id: nat, c: Candidate): seq<nat>
    requires |pool| == |picks| <= max && (|pool| == max ==> min < |pool|)
  {
    if |pool| < max then picks + [id] else if c.freq > pool[min].freq then picks[min := id] else picks
  }

  lemma {:induction false} UpdateKeeps(picks: seq<nat>, min: nat, id: nat, x: nat)
    requires min < |picks|
    ensures x in picks ==> x in picks[min := id] || x == picks[min]
  {
    if x in picks {
      var i :| 0 <= i < |picks| && picks[i] == x;
      if i != min { assert picks[min := id][i] == x; }
    }
  }

  lemma {:induction false} EmitKeeps(pool: seq<Candidate>, picks: seq<nat>, seen: set<nat>, max: nat, min: nat,
                                     id: nat, f: nat -> Candidate)
    requires max > 0 && PoolOk(pool, max, min) && Keeps(pool, picks, seen, max, f) && id !in seen
    ensures Keeps(Emitted(pool, max, min, f(id)), EmittedPick(pool, picks, max, min, id, f(id)), seen + {id}, max, f)
  {
    var c := f(id);
    var pool', picks' := Emitted(pool, max, min, c), EmittedPick(pool, picks, max, min, id, c);
    assert pool' == MapTo(picks', f);
    if |pool| == max && c.freq > pool[min].freq {
      forall x | x in seen + {id} && x !in picks'
        ensures forall i :: 0 <= i < |pool'| ==> f(x).freq <= pool'[i].freq
      {
        assert picks'[min] == id;
        UpdateKeeps(picks, min, id, x);
        assert f(x).freq <= pool[min].freq;
      }
      assert forall x :: x in picks' ==> x in picks || x == id;
    }
  }

  /** The result is the candidates of distinct hits, most frequent first, and no hit left out is
      more frequent than one that was kept. */
  ghost predicate TopHits(res: seq<Candidate>, picks: seq<nat>, max: nat, hit: nat -> bool, f: nat -> Candidate) {
    && res == MapTo(picks, f) && |res| <= max
    && Distinct(picks)
    && (forall id :: id in picks ==> hit(id))
    && Descending(res, CandFreq())
    && forall id :: hit(id) && id !in picks ==>
         |res| == max && forall i :: 0 <= i < |res| ==> f(id).freq <= res[i].freq
  }

  lemma {:induction false} SortMaps(ids: seq<nat>, f: nat -> Candidate)
    ensures SortDesc(MapTo(ids, f), CandFreq()) == MapTo(SortDesc(ids, ByFreq(f)), f)
  {
    if |ids| > 0 {
      var t, x := ids[..|ids| - 1], ids[|ids| - 1];
      SortMaps(t, f);
      assert MapTo(ids, f)[..|ids| - 1] == MapTo(t, f);
      InsertMaps(SortDesc(t, ByFreq(f)), x, f);
    }
  }

  lemma {:induction false} InsertMaps(ids: seq<nat>, x: nat, f: nat -> Candidate)
    ensures InsertDesc(MapTo(ids, f), f(x), CandFreq()) == MapTo(InsertDesc(ids, x, ByFreq(f)), f)
  {
    if |ids| > 0 {
      InsertMaps(ids[1..], x, f);
      assert MapTo(ids, f)[1..] == MapTo(ids[1..], f);
    }
  }

  /** The final sort of a pool that has seen every hit. */
  lemma {:induction false} SortedPool(pool: seq<Candidate>, picks: seq<nat>, seen: set<nat>, max: nat,
                                      hit: nat -> bool, f: nat -> Candidate) returns (sorted: seq<nat>)
    requires Keeps(pool, picks, seen, max, f)
    requires forall id :: id in seen <==> hit(id)
    ensures TopHits(SortDesc(pool, CandFreq()), sorted, max, hit, f)
  {
    hide SortDesc;
    sorted := SortDesc(picks, ByFreq(f));
    SortMaps(picks, f);
    SortDescKeeps(picks, ByFreq(f));
    SortDescKeeps(pool, CandFreq());
    SortedIsPool(pool);
    forall id | hit(id) && id !in sorted
      ensures |pool| == max && forall i :: 0 <= i < max ==> f(id).freq <= SortDesc(pool, CandFreq())[i].freq
    {
      LeftOut(pool, picks, seen, max, f, id);
    }
  }

  lemma {:induction false} LeftOut(pool: seq<Candidate>, picks: seq<nat>, seen: set<nat>, max: nat, f: nat -> Candidate, id: nat)
    requires Keeps(pool, picks, seen, max, f) && id in seen && id !in picks
    ensures |pool| == max == |SortDesc(pool, CandFreq())|
    ensures forall i :: 0 <= i < max ==> f(id).freq <= SortDesc(pool, CandFreq())[i].freq
  {
    hide SortDesc;
    SortedIsPool(pool);
    assert forall c :: c in pool ==> f(id).freq <= c.freq;
  }

  lemma {:induction false} SortedIsPool(pool: seq<Candidate>)
    ensures |SortDesc(pool, CandFreq())| == |pool|
    ensures forall i :: 0 <= i < |pool| ==> SortDesc(pool, CandFreq())[i] in pool
  {
    var res := SortDesc(pool, CandFreq());
    SortDescKeeps(pool, CandFreq());
    assert |multiset(res)| == |res| && |multiset(pool)| == |pool|;
    assert forall i :: 0 <= i < |res| ==> res[i] in res;
  }

  lemma {:induction false} NoHitsIsTop(max: nat, hit: nat -> bool, f: nat -> Candidate)
    requires forall id :: !hit(id)
    ensures TopHits([], [], max, hit, f)
  {
  }

  /** Sorting in place; the order of equally frequent candidates is left to the library. */
  method SortOut(out: array<Candidate>, n: nat)
    requires n <= out.Length
    modifies out
    ensures out[..n] == SortDesc(old(out[..n]), CandFreq())
    ensures out[n..] == old(out[n..])
  {
    var sorted := SortDesc(out[..n], CandFreq());
    for i := 0 to n
      invariant forall j :: 0 <= j < i ==> out[j] == sorted[j]
      invariant out[n..] == old(out[n..])
    {
      out[i] := sorted[i];
    }
  }

  ghost function WordCand(image: Image): nat -> Candidate {
    (wid: nat) =>
      if wid < |image.words| && WordInTable(image.table, image.words[wid]) then CandidateOf(image, wid)
      else Candidate([], 0, 0)
  }

  ghost function WordHit(image: Image, keys: seq<Byte>, hints: Option<seq<Byte>>, target: int): nat -> bool {
    (wid: nat) => Hit(image, keys, hints, target, wid)
  }

  /** The word ids allowed by the target length: one group, groups 5 to 8, or all. */
  method AllowedRange(image: Image, target: int) returns (lo: nat, hi: nat)
    requires ImageOk(image)
    ensures forall wid :: 0 <= wid < |image.words| && |image.words[wid].charIds| > 0 ==>
      (lo <= wid < hi <==> InClass(target, |image.words[wid].charIds|))
  {
    lo, hi := 0, |image.words|;
    var groups := image.groups;
    ghost var lens := WordLengths(image.words);
    if 0 < target <= 7 {
      var g := groups[target - 1];
      lo, hi := g.start, g.start + g.count;
      forall wid | 0 <= wid < |image.words| ensures lo <= wid < hi <==> |image.words[wid].charIds| == target {
        assert groups[target - 1].start <= wid < groups[target - 1].start + groups[target - 1].count
          <==> Bucket(lens[wid]) == target - 1 + 1;
      }
    } else if target == -1 {
      lo, hi := groups[4].start, groups[7].start + groups[7].count;
      LongWords(lens, groups);
      assert forall wid :: 0 <= wid < |image.words| ==> lens[wid] == |image.words[wid].charIds|;
    }
  }

  /** Groups 5 to 8 are adjacent and hold exactly the words of five or more characters. */
  lemma {:induction false} LongWords(lens: seq<nat>, groups: seq<Group>)
    requires GroupsOk(lens, groups)
    ensures forall i :: 0 <= i < |lens| && lens[i] > 0 ==>
      (groups[4].start <= i < groups[7].start + groups[7].count <==> lens[i] >= 5)
  {
    forall i | 0 <= i < |lens| && lens[i] > 0
      ensures groups[4].start <= i < groups[7].start + groups[7].count <==> lens[i] >= 5
    {
      var b := Bucket(lens[i]) - 1;
      assert groups[b].start <= i < groups[b].start + groups[b].count;
      if b > 4 { assert groups[4].start + groups[4].count <= groups[b].start; }
      if b < 7 { assert groups[b].start + groups[b].count <= groups[7].start; }
      if b < 4 { assert groups[b].start + groups[b].count <= groups[4].start; }
    }
  }

  /** Every first key of a stored reading has a slot in the key index. */
  predicate KeyBytesOk(d: CharTable) {
    forall c, r :: c in d.chars && r in c.readings && |r.keys| > 0 ==> KEY_MIN <= r.keys[0] < KEY_MIN + KEY_SLOTS
  }

  /** A match begins with the first key of its first character's reading. */
  lemma {:induction false} HitHasFirstKey(image: Image, keys: seq<Byte>, hints: Option<seq<Byte>>, target: int, wid: nat)
    requires |keys| > 0 && Hit(image, keys, hints, target, wid)
    ensures |image.words[wid].charIds| > 0 && HasKey(image.table.chars[image.words[wid].charIds[0]], keys[0])
    ensures KeyBytesOk(image.table) ==> KEY_MIN <= keys[0] < KEY_MIN + KEY_SLOTS
  {
    var w := image.words[wid];
    var r := ReadingAt(image.table, w, 0).value;
    var plen :| plen in TryLengths(|r.keys|) && Try(image.table, w, 0, 0, keys, hints, r, plen);
    TryLengthsAre(|r.keys|, plen);
    assert SameKeys(r.keys, keys, 0, Min(plen, |keys|));
    assert r.keys[0] == keys[0 + 0];
    assert r in image.table.chars[w.charIds[0]].readings;
  }

  /** The words met so far: those whose first character is one of `cids`. */
  predicate Met(image: Image, wid: nat, cids: seq<nat>) {
    wid < |image.words| && |image.words[wid].charIds| > 0 && image.words[wid].charIds[0] in cids
  }

  ghost predicate PoolState(pool: seq<Candidate>, min: nat, picks: seq<nat>, seen: set<nat>, max: nat,
                            f: nat -> Candidate) {
    PoolOk(pool, max, min) && Keeps(pool, picks, seen, max, f)
  }

  /** One candidate word: filtered by id range, matched, and offered to the pool. */
  method VisitWord(image: Image, keys: seq<Byte>, hints: Option<seq<Byte>>, lo: nat, hi: nat, wid: nat,
                   out: array<Candidate>, n: nat, min: nat, max: nat,
                   ghost target: int, ghost picks: seq<nat>, ghost seen: set<nat>)
    returns (n': nat, min': nat, ghost picks': seq<nat>, ghost seen': set<nat>)
    requires HintsCover(hints, keys) && wid < |image.words| && WordInTable(image.table, image.words[wid])
    requires lo <= wid < hi <==> InClass(target, |image.words[wid].charIds|)
    requires 0 < max <= out.Length && n <= max && wid !in seen
    requires PoolState(out[..n], min, picks, seen, max, WordCand(image))
    modifies out
    ensures n' <= max && PoolState(out[..n'], min', picks', seen', max, WordCand(image))
    ensures seen' == if Hit(image, keys, hints, target, wid) then seen + {wid} else seen
    ensures out[max..] == old(out[max..])
  {
    n', min', picks', seen' := n, min, picks, seen;
    if lo <= wid < hi && Matches(image.table, image.words[wid], keys, hints) {
      var c := CandidateOf(image, wid);
      EmitKeeps(out[..n], picks, seen, max, min, wid, WordCand(image));
      picks' := EmittedPick(out[..n], picks, max, min, wid, c);
      n', min' := EmitMatch(out, n, min, max, c);
      seen' := seen + {wid};
    }
  }

  /** The hits among `wids`. */
  ghost predicate SeenAre(seen: set<nat>, before: set<nat>, hit: nat -> bool, wids: seq<nat>) {
    forall wid :: wid in seen <==> wid in before || (hit(wid) && wid in wids)
  }

  /** All words that begin with one character. */
  method VisitFirstChar(image: Image, keys: seq<Byte>, hints: Option<seq<Byte>>, lo: nat, hi: nat, cid: nat,
                        out: array<Candidate>, n: nat, min: nat, max: nat,
                        ghost target: int, ghost picks: seq<nat>, ghost seen: set<nat>)
    returns (n': nat, min': nat, ghost picks': seq<nat>, ghost seen': set<nat>)
    requires ImageOk(image) && HintsCover(hints, keys) && cid < |image.table.chars|
    requires forall wid :: 0 <= wid < |image.words| && |image.words[wid].charIds| > 0 ==>
      (lo <= wid < hi <==> InClass(target, |image.words[wid].charIds|))
    requires 0 < max <= out.Length && n <= max && PoolState(out[..n], min, picks, seen, max, WordCand(image))
    requires forall wid :: wid in seen ==> !Met(image, wid, [cid])
    modifies out
    ensures n' <= max && PoolState(out[..n'], min', picks', seen', max, WordCand(image))
    ensures forall wid :: wid in seen' <==>
      wid in seen || (Hit(image, keys, hints, target, wid) && Met(image, wid, [cid]))
    ensures out[max..] == old(out[max..])
  {
    hide PoolState, Matches, GroupsOk, KeySlotOk, InClass, WordInTable;
    assert FirstCharOk(image, cid);
    n', min', picks', seen' := n, min, picks, seen;
    var ws, we := image.firstOffsets[cid], image.firstOffsets[cid + 1];
    ghost var wids := Slice(image.firstOffsets, image.firstWids, cid);
    ghost var hit := WordHit(image, keys, hints, target);
    for j := ws to we
      invariant n' <= max && PoolState(out[..n'], min', picks', seen', max, WordCand(image))
      invariant SeenAre(seen', seen, hit, wids[..j - ws])
      invariant out[max..] == old(out[max..])
    {
      var wid := image.firstWids[j];
      assert wid == wids[j - ws] && wid in wids && wid !in wids[..j - ws];
      assert wids[..j + 1 - ws] == wids[..j - ws] + [wid];
      assert Met(image, wid, [cid]);
      n', min', picks', seen' := VisitWord(image, keys, hints, lo, hi, wid, out, n', min', max, target, picks', seen');
    }
    assert wids[..we - ws] == wids;
  }

  lemma {:induction false} NoWordHits(image: Image, keys: seq<Byte>, hints: Option<seq<Byte>>, target: int)
    requires KeyBytesOk(image.table) && |keys| > 0 && (keys[0] < KEY_MIN || keys[0] >= KEY_MIN + KEY_SLOTS)
    ensures forall wid :: !WordHit(image, keys, hints, target)(wid)
  {
    forall wid ensures !WordHit(image, keys, hints, target)(wid) {
      if WordHit(image, keys, hints, target)(wid) { HitHasFirstKey(image, keys, hints, target, wid); }
    }
  }

  /** The characters listed under the first key include the first character of every hit. */
  lemma {:induction false} SlotHasWordHits(image: Image, keys: seq<Byte>, hints: Option<seq<Byte>>, target: int, slot: nat)
    requires ImageOk(image) && |keys| > 0 && slot < KEY_SLOTS && keys[0] == KEY_MIN + slot
    ensures KeySlotOk(image, slot)
    ensures forall wid :: WordHit(image, keys, hints, target)(wid) ==>
      Met(image, wid, Slice(image.keyOffsets, image.keyCids, slot))
  {
    assert KeySlotOk(image, slot);
    forall wid | WordHit(image, keys, hints, target)(wid)
      ensures Met(image, wid, Slice(image.keyOffsets, image.keyCids, slot))
    {
      HitHasFirstKey(image, keys, hints, target, wid);
    }
  }

  /** Every first character that may begin the input. */
  method VisitWords(image: Image, keys: seq<Byte>, hints: Option<seq<Byte>>, target: int, slot: nat,
                    out: array<Candidate>, max: nat) returns (n: nat, ghost picks: seq<nat>, ghost seen: set<nat>)
    requires ImageOk(image) && HintsCover(hints, keys) && slot < KEY_SLOTS && 0 < max <= out.Length
    modifies out
    ensures n <= max && Keeps(out[..n], picks, seen, max, WordCand(image))
    ensures KeySlotOk(image, slot)
    ensures forall wid :: wid in seen <==>
      Hit(image, keys, hints, target, wid) && Met(image, wid, Slice(image.keyOffsets, image.keyCids, slot))
    ensures out[max..] == old(out[max..])
  {
    assert KeySlotOk(image, slot);
    var cs, ce := image.keyOffsets[slot], image.keyOffsets[slot + 1];
    ghost var cids := Slice(image.keyOffsets, image.keyCids, slot);
    var lo, hi := AllowedRange(image, target);
    var min := 0;
    n, picks, seen := 0, [], {};
    for i := cs to ce
      invariant n <= max && PoolState(out[..n], min, picks, seen, max, WordCand(image))
      invariant forall wid :: wid in seen <==>
        Hit(image, keys, hints, target, wid) && Met(image, wid, cids[..i - cs])
      invariant out[max..] == old(out[max..])
    {
      var cid := image.keyCids[i];
      assert cid == cids[i - cs] && cid in cids && cid !in cids[..i - cs];
      n, min, picks, seen := VisitFirstChar(image, keys, hints, lo, hi, cid, out, n, min, max, target, picks, seen);
      assert cids[..i + 1 - cs] == cids[..i - cs] + [cid];
    }
    assert cids[..ce - cs] == cids;
  }

  /** Words of several characters. */
  method SearchWords(image: Image, keys: seq<Byte>, hints: Option<seq<Byte>>, target: int,
                     out: array<Candidate>, max: nat) returns (n: nat, ghost picks: seq<nat>)
    requires ImageOk(image) && KeyBytesOk(image.table) && HintsCover(hints, keys)
    requires |keys| > 0 && 0 < max <= out.Length
    modifies out
    ensures n <= max && TopHits(out[..n], picks, max, WordHit(image, keys, hints, target), WordCand(image))
    ensures out[max..] == old(out[max..])
  {
    hide TopHits, Keeps, GroupsOk, KeySlotOk, FirstCharOk, WordCand;
    n, picks := 0, [];
    if keys[0] < KEY_MIN || keys[0] >= KEY_MIN + KEY_SLOTS {
      NoWordHits(image, keys, hints, target);
      NoHitsIsTop(max, WordHit(image, keys, hints, target), WordCand(image));
      return;
    }
    ghost var seen;
    n, picks, seen := VisitWords(image, keys, hints, target, keys[0] - KEY_MIN, out, max);
    SlotHasWordHits(image, keys, hints, target, keys[0] - KEY_MIN);
    picks := SortedPool(out[..n], picks, seen, max, WordHit(image, keys, hints, target), WordCand(image));
    SortOut(out, n);
  }

  // ---------------------------------------------------------------- single characters

  /** A trailing SPACE asks for tone 1 and is not compared with the reading. */
  predicate AsksTone1(keys: seq<Byte>) {
    |keys| > 0 && keys[|keys| - 1] == SPACE
  }

  function TypedLength(keys: seq<Byte>): nat {
    if AsksTone1(keys) then |keys| - 1 else |keys|
  }

  predicate ReadingFits(d: CharTable, r: Reading, keys: seq<Byte>, hints: Option<seq<Byte>>)
    requires HintsCover(hints, keys)
  {
    var n := TypedLength(keys);
    && (AsksTone1(keys) ==> r.tone == 1)
    && n <= |r.keys| && SameKeys(r.keys, keys, 0, n) && PosOk(d, hints, r, 0, n)
  }

  /** The character's first fitting reading. */
  ghost predicate FirstFit(image: Image, keys: seq<Byte>, hints: Option<seq<Byte>>, cid: nat, i: nat) {
    && HintsCover(hints, keys) && cid < |image.table.chars|
    && var rs := image.table.chars[cid].readings;
       && i < |rs| && ReadingFits(image.table, rs[i], keys, hints)
       && forall j :: 0 <= j < i ==> !ReadingFits(image.table, rs[j], keys, hints)
  }

  ghost function CharHit(image: Image, keys: seq<Byte>, hints: Option<seq<Byte>>): nat -> bool {
    (cid: nat) => TypedLength(keys) > 0 && exists i: nat :: FirstFit(image, keys, hints, cid, i)
  }

  function CharCandidate(c: CharEntry, r: Reading): Candidate {
    Candidate(c.utf8[..Min(|c.utf8|, CANDIDATE_MAX_BYTES - 1)], r.freq, r.tone)
  }

  ghost function CharCand(image: Image, keys: seq<Byte>, hints: Option<seq<Byte>>): nat -> Candidate {
    (cid: nat) =>
      if exists i: nat :: FirstFit(image, keys, hints, cid, i) then
        var i: nat :| FirstFit(image, keys, hints, cid, i);
        CharCandidate(image.table.chars[cid], image.table.chars[cid].readings[i])
      else Candidate([], 0, 0)
  }

  lemma {:induction false} CharHitHasKey(image: Image, keys: seq<Byte>, hints: Option<seq<Byte>>, cid: nat)
    requires CharHit(image, keys, hints)(cid)
    ensures HasKey(image.table.chars[cid], keys[0])
    ensures KeyBytesOk(image.table) ==> KEY_MIN <= keys[0] < KEY_MIN + KEY_SLOTS
  {
    var i: nat :| FirstFit(image, keys, hints, cid, i);
    var r := image.table.chars[cid].readings[i];
    assert SameKeys(r.keys, keys, 0, TypedLength(keys));
    assert r.keys[0] == keys[0 + 0];
    assert r in image.table.chars[cid].readings;
  }

  method FirstFitting(image: Image, keys: seq<Byte>, hints: Option<seq<Byte>>, cid: nat) returns (found: bool, i: nat)
    requires HintsCover(hints, keys) && cid < |image.table.chars|
    ensures found ==> FirstFit(image, keys, hints, cid, i)
    ensures !found ==> forall j: nat :: !FirstFit(image, keys, hints, cid, j)
  {
    var rs := image.table.chars[cid].readings;
    i := 0;
    while i < |rs|
      invariant i <= |rs| && forall j :: 0 <= j < i ==> !ReadingFits(image.table, rs[j], keys, hints)
    {
      if ReadingFits(image.table, rs[i], keys, hints) { return true, i; }
      i := i + 1;
    }
    found := false;
  }

  lemma {:induction false} OneFirstFit(image: Image, keys: seq<Byte>, hints: Option<seq<Byte>>, cid: nat, r: nat)
    requires FirstFit(image, keys, hints, cid, r)
    ensures CharCand(image, keys, hints)(cid)
      == CharCandidate(image.table.chars[cid], image.table.chars[cid].readings[r])
  {
    forall i: nat | FirstFit(image, keys, hints, cid, i) ensures i == r {
    }
  }

  method VisitChar(image: Image, keys: seq<Byte>, hints: Option<seq<Byte>>, cid: nat,
                   pool: array<Candidate>, n: nat, min: nat, ghost picks: seq<nat>, ghost seen: set<nat>)
    returns (n': nat, min': nat, ghost picks': seq<nat>, ghost seen': set<nat>)
    requires HintsCover(hints, keys) && TypedLength(keys) > 0 && cid < |image.table.chars| && cid !in seen
    requires 0 < pool.Length && n <= pool.Length
    requires PoolState(pool[..n], min, picks, seen, pool.Length, CharCand(image, keys, hints))
    modifies pool
    ensures n' <= pool.Length
    ensures PoolState(pool[..n'], min', picks', seen', pool.Length, CharCand(image, keys, hints))
    ensures seen' == if CharHit(image, keys, hints)(cid) then seen + {cid} else seen
  {
    n', min', picks', seen' := n, min, picks, seen;
    var found, r := FirstFitting(image, keys, hints, cid);
    if found {
      var c := CharCandidate(image.table.chars[cid], image.table.chars[cid].readings[r]);
      OneFirstFit(image, keys, hints, cid, r);
      EmitKeeps(pool[..n], picks, seen, pool.Length, min, cid, CharCand(image, keys, hints));
      picks' := EmittedPick(pool[..n], picks, pool.Length, min, cid, c);
      n', min' := EmitMatch(pool, n, min, pool.Length, c);
      seen' := seen + {cid};
    }
  }

  lemma {:induction false} NoCharHits(image: Image, keys: seq<Byte>, hints: Option<seq<Byte>>)
    requires KeyBytesOk(image.table)
    requires |keys| > 0 && (keys[0] < KEY_MIN || keys[0] >= KEY_MIN + KEY_SLOTS || TypedLength(keys) == 0)
    ensures forall cid :: !CharHit(image, keys, hints)(cid)
  {
    forall cid ensures !CharHit(image, keys, hints)(cid) {
      if CharHit(image, keys, hints)(cid) { CharHitHasKey(image, keys, hints, cid); }
    }
  }

  /** The characters listed under the first key include every hit. */
  lemma {:induction false} SlotHasCharHits(image: Image, keys: seq<Byte>, hints: Option<seq<Byte>>, slot: nat)
    requires ImageOk(image) && |keys| > 0 && slot < KEY_SLOTS && keys[0] == KEY_MIN + slot
    ensures KeySlotOk(image, slot)
    ensures forall cid :: CharHit(image, keys, hints)(cid) ==> cid in Slice(image.keyOffsets, image.keyCids, slot)
  {
    assert KeySlotOk(image, slot);
    forall cid | CharHit(image, keys, hints)(cid) ensures cid in Slice(image.keyOffsets, image.keyCids, slot) {
      CharHitHasKey(image, keys, hints, cid);
      var i: nat :| FirstFit(image, keys, hints, cid, i);
    }
  }

  /** Every character listed under the first key of the input is visited. */
  method VisitChars(image: Image, keys: seq<Byte>, hints: Option<seq<Byte>>, slot: nat, pool: array<Candidate>)
    returns (n: nat, ghost picks: seq<nat>, ghost seen: set<nat>)
    requires ImageOk(image) && HintsCover(hints, keys) && slot < KEY_SLOTS && TypedLength(keys) > 0
    requires 0 < pool.Length
    modifies pool
    ensures n <= pool.Length
    ensures Keeps(pool[..n], picks, seen, pool.Length, CharCand(image, keys, hints))
    ensures KeySlotOk(image, slot)
    ensures SeenAre(seen, {}, CharHit(image, keys, hints), Slice(image.keyOffsets, image.keyCids, slot))
  {
    hide GroupsOk, FirstCharOk;
    assert KeySlotOk(image, slot);
    var cs, ce := image.keyOffsets[slot], image.keyOffsets[slot + 1];
    ghost var cids := Slice(image.keyOffsets, image.keyCids, slot);
    var min := 0;
    n, picks, seen := 0, [], {};
    for i := cs to ce
      invariant n <= pool.Length && PoolState(pool[..n], min, picks, seen, pool.Length, CharCand(image, keys, hints))
      invariant SeenAre(seen, {}, CharHit(image, keys, hints), cids[..i - cs])
    {
      var cid := image.keyCids[i];
      assert cid == cids[i - cs] && cid in cids && cid !in cids[..i - cs];
      n, min, picks, seen := VisitChar(image, keys, hints, cid, pool, n, min, picks, seen);
      assert cids[..i + 1 - cs] == cids[..i - cs] + [cid];
    }
    assert cids[..ce - cs] == cids;
  }

  /** Single characters: one candidate per character that has a fitting reading. */
  method SearchChars(image: Image, keys: seq<Byte>, hints: Option<seq<Byte>>,
                     out: array<Candidate>, max: nat) returns (n: nat, ghost picks: seq<nat>)
    requires ImageOk(image) && KeyBytesOk(image.table) && HintsCover(hints, keys)
    requires |keys| > 0 && 0 < max <= out.Length
    modifies out
    ensures n <= max
    ensures TopHits(out[..n], picks, Min(max, 256), CharHit(image, keys, hints), CharCand(image, keys, hints))
    ensures out[n..] == old(out[n..])
  {
    hide TopHits, Keeps, GroupsOk, KeySlotOk, FirstCharOk;
    n, picks := 0, [];
    if keys[0] < KEY_MIN || keys[0] >= KEY_MIN + KEY_SLOTS || TypedLength(keys) == 0 {
      NoCharHits(image, keys, hints);
      NoHitsIsTop(Min(max, 256), CharHit(image, keys, hints), CharCand(image, keys, hints));
      return;
    }
    var pool := new Candidate[Min(max, 256)](_ => Candidate([], 0, 0));
    ghost var seen;
    n, picks, seen := VisitChars(image, keys, hints, keys[0] - KEY_MIN, pool);
    SlotHasCharHits(image, keys, hints, keys[0] - KEY_MIN);
    picks := SortedPool(pool[..n], picks, seen, pool.Length, CharHit(image, keys, hints), CharCand(image, keys, hints));
    SortOut(pool, n);
    CopyOut(pool, out, n);
  }

  method CopyOut(pool: array<Candidate>, out: array<Candidate>, n: nat)
    requires n <= pool.Length && n <= out.Length && pool != out
    modifies out
    ensures out[..n] == old(pool[..n]) && out[n..] == old(out[n..])
  {
    for i := 0 to n
      invariant out[..i] == pool[..i]
      invariant out[n..] == old(out[n..])
    {
      out[i] := pool[i];
      assert pool[..i + 1] == pool[..i] + [pool[i]];
    }
  }

  // ---------------------------------------------------------------- the entry point

  /** `search`: nothing for an empty input or buffer, characters for target 1, words otherwise. */
  method Search(image: Image, keys: seq<Byte>, hints: Option<seq<Byte>>, target: int,
                out: array<Candidate>, max: nat) returns (n: nat, ghost picks: seq<nat>)
    requires ImageOk(image) && KeyBytesOk(image.table) && HintsCover(hints, keys) && max <= out.Length
    modifies out
    ensures n <= max
    ensures |keys| == 0 ==> n == 0
    ensures |keys| > 0 && target != 1 ==>
      TopHits(out[..n], picks, max, WordHit(image, keys, hints, target), WordCand(image))
    ensures |keys| > 0 && target == 1 ==>
      TopHits(out[..n], picks, Min(max, 256), CharHit(image, keys, hints), CharCand(image, keys, hints))
    ensures out[max..] == old(out[max..])
  {
    if |keys| == 0 || max == 0 {
      return 0, [];
    }
    if target == 1 {
      n, picks := SearchChars(image, keys, hints, out, max);
      assert out[max..] == out[n..][max - n..];
    } else {
      n, picks := SearchWords(image, keys, hints, target, out, max);
    }
  }
}
