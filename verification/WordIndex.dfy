/** The v4 compiler's tables: words grouped by length, and the two inverted indexes. */
module WordIndex {
  import opened Basics
  import opened Sorting
  import opened Composition

  const KEY_MIN: Byte := 0x20
  const KEY_SLOTS: nat := 24
  const MAX_GROUP: nat := 8

  /** A word as the compiler holds it, before its frequency is clamped for the file. */
  datatype Word = Word(charIds: seq<nat>, readingIdxs: seq<Byte>, freq: nat)

  function WordFreq(): Word -> int {
    (w: Word) => w.freq
  }

  // ---------------------------------------------------------------- lists back to back

  function Flatten<T>(lists: seq<seq<T>>): seq<T> {
    if |lists| == 0 then [] else Flatten(lists[..|lists| - 1]) + lists[|lists| - 1]
  }

  /** Where list `i` starts. */
  function Offset<T>(lists: seq<seq<T>>, i: nat): nat
    requires i <= |lists|
  {
    |Flatten(lists[..i])|
  }

  lemma {:induction false} OffsetStep<T>(lists: seq<seq<T>>, i: nat)
    requires i < |lists|
    ensures Offset(lists, i + 1) == Offset(lists, i) + |lists[i]|
    ensures Flatten(lists[..i + 1]) == Flatten(lists[..i]) + lists[i]
  {
    assert lists[..i + 1][..i] == lists[..i];
  }

  lemma {:induction false} FlattenPrefix<T>(lists: seq<seq<T>>, i: nat, k: nat)
    requires i <= k <= |lists|
    ensures Flatten(lists[..i]) <= Flatten(lists[..k])
    decreases k
  {
    if i < k {
      FlattenPrefix(lists, i, k - 1);
      OffsetStep(lists, k - 1);
    }
  }

  lemma {:induction false} FlattenSlice<T>(lists: seq<seq<T>>, i: nat)
    requires i < |lists|
    ensures Offset(lists, i) + |lists[i]| == Offset(lists, i + 1) <= |Flatten(lists)|
    ensures Flatten(lists)[Offset(lists, i)..Offset(lists, i + 1)] == lists[i]
  {
    OffsetStep(lists, i);
    FlattenPrefix(lists, i + 1, |lists|);
    assert lists[..|lists|] == lists;
    assert Flatten(lists)[..Offset(lists, i + 1)] == Flatten(lists[..i + 1]);
    assert Flatten(lists)[Offset(lists, i)..Offset(lists, i + 1)]
      == Flatten(lists)[..Offset(lists, i + 1)][Offset(lists, i)..];
  }

  /** Every position belongs to some list. */
  lemma {:induction false} WhichList<T>(lists: seq<seq<T>>, p: nat) returns (i: nat)
    requires p < |Flatten(lists)|
    ensures i < |lists| && Offset(lists, i) <= p < Offset(lists, i + 1) == Offset(lists, i) + |lists[i]|
    ensures Flatten(lists)[p] == lists[i][p - Offset(lists, i)]
  {
    i := 0;
    assert lists[..|lists|] == lists;
    while p >= Offset(lists, i + 1)
      invariant i < |lists| && Offset(lists, i) <= p
      decreases |lists| - i
    {
      assert i + 1 != |lists|;
      i := i + 1;
    }
    FlattenSlice(lists, i);
    assert Flatten(lists)[Offset(lists, i)..Offset(lists, i + 1)][p - Offset(lists, i)] == Flatten(lists)[p];
  }

  /** `offsets` and `data` hold the lists: list `i` is `data[offsets[i]..offsets[i + 1]]`. */
  ghost predicate Packs(offsets: seq<nat>, data: seq<nat>, lists: seq<seq<nat>>) {
    && data == Flatten(lists)
    && |offsets| == |lists| + 1
    && forall i :: 0 <= i < |offsets| ==> offsets[i] == Offset(lists, i)
  }

  /** The layout of both inverted indexes: prefix-sum offsets, then the lists back to back. */
  method PackLists(lists: seq<seq<nat>>) returns (offsets: seq<nat>, data: seq<nat>)
    ensures Packs(offsets, data, lists)
  {
    offsets, data := [0], [];
    for i := 0 to |lists|
      invariant |offsets| == i + 1 && data == Flatten(lists[..i])
      invariant forall j :: 0 <= j <= i ==> offsets[j] == Offset(lists, j)
    {
      OffsetStep(lists, i);
      offsets := offsets + [offsets[i] + |lists[i]|];
      data := data + lists[i];
    }
    assert lists[..|lists|] == lists;
  }

  // ---------------------------------------------------------------- groups by length

  function Bucket(n: nat): nat {
    if n < MAX_GROUP then n else MAX_GROUP
  }

  function InBucket(words: seq<Word>, b: nat): seq<Word> {
    if |words| == 0 then []
    else
      var last := words[|words| - 1];
      InBucket(words[..|words| - 1], b) + if Bucket(|last.charIds|) == b then [last] else []
  }

  function GroupOf(words: seq<Word>, b: nat): seq<Word> {
    SortDesc(InBucket(words, b), WordFreq())
  }

  /** The groups of 1, 2, ... characters; word ids are positions in their concatenation. */
  function GroupLists(words: seq<Word>, n: nat): seq<seq<Word>> {
    seq(n, b requires 0 <= b => GroupOf(words, b + 1))
  }

  datatype Group = Group(count: nat, start: nat)

  ghost predicate Grouped(words: seq<Word>, flat: seq<Word>, groups: seq<Group>) {
    var lists := GroupLists(words, MAX_GROUP);
    && flat == Flatten(lists)
    && |groups| == MAX_GROUP
    && forall b :: 0 <= b < MAX_GROUP ==> groups[b] == Group(|lists[b]|, Offset(lists, b))
  }

  /** Sort each bucket, most frequent first, and join them. */
  method JoinBuckets(words: seq<Word>, grouped: seq<seq<Word>>) returns (flat: seq<Word>, groups: seq<Group>)
    requires |grouped| == MAX_GROUP + 1 && forall b :: 0 <= b <= MAX_GROUP ==> grouped[b] == InBucket(words, b)
    ensures Grouped(words, flat, groups)
  {
    flat, groups := [], [];
    ghost var lists := GroupLists(words, MAX_GROUP);
    for b := 0 to MAX_GROUP
      invariant flat == Flatten(lists[..b])
      invariant |groups| == b
      invariant forall c :: 0 <= c < b ==> groups[c] == Group(|lists[c]|, Offset(lists, c))
    {
      OffsetStep(lists, b);
      var list := SortDesc(grouped[b + 1], WordFreq());
      assert list == lists[b];
      groups := groups + [Group(|list|, |flat|)];
      flat := flat + list;
    }
    assert lists[..MAX_GROUP] == lists;
  }

  method GroupWords(words: seq<Word>) returns (flat: seq<Word>, groups: seq<Group>)
    ensures Grouped(words, flat, groups)
  {
    var grouped: seq<seq<Word>> := seq(MAX_GROUP + 1, _ => []);
    for i := 0 to |words|
      invariant |grouped| == MAX_GROUP + 1
      invariant forall b :: 0 <= b <= MAX_GROUP ==> grouped[b] == InBucket(words[..i], b)
    {
      assert words[..i + 1][..i] == words[..i];
      var b := Bucket(|words[i].charIds|);
      grouped := grouped[b := grouped[b] + [words[i]]];
    }
    assert words[..|words|] == words;
    flat, groups := JoinBuckets(words, grouped);
  }

  /** The ids of a group are exactly the words of its length, and the groups are adjacent. */
  ghost predicate GroupsOk(lens: seq<nat>, groups: seq<Group>) {
    && |groups| == MAX_GROUP
    && (forall b :: 0 <= b < MAX_GROUP ==> groups[b].start + groups[b].count <= |lens|)
    && (forall b, i :: 0 <= b < MAX_GROUP && 0 <= i < |lens| ==>
          (groups[b].start <= i < groups[b].start + groups[b].count <==> Bucket(lens[i]) == b + 1))
    && (forall b, c :: 0 <= b < c < MAX_GROUP ==> groups[b].start + groups[b].count <= groups[c].start)
  }

  function Lengths(words: seq<Word>): (lens: seq<nat>)
    ensures |lens| == |words|
  {
    seq(|words|, i requires 0 <= i < |words| => |words[i].charIds|)
  }

  lemma {:induction false} InBucketHas(words: seq<Word>, b: nat)
    ensures forall w :: w in InBucket(words, b) <==> w in words && Bucket(|w.charIds|) == b
  {
    if |words| > 0 {
      InBucketHas(words[..|words| - 1], b);
      assert words == words[..|words| - 1] + [words[|words| - 1]];
    }
  }

  lemma {:induction false} GroupOfHas(words: seq<Word>, b: nat)
    ensures forall w :: w in GroupOf(words, b) <==> w in words && Bucket(|w.charIds|) == b
  {
    InBucketHas(words, b);
    SortDescKeeps(InBucket(words, b), WordFreq());
  }

  lemma {:induction false} InList<T>(lists: seq<seq<T>>, i: nat, p: nat)
    requires i < |lists| && Offset(lists, i) <= p < Offset(lists, i) + |lists[i]|
    ensures p < |Flatten(lists)| && Flatten(lists)[p] in lists[i]
  {
    FlattenSlice(lists, i);
    assert Flatten(lists)[p] == Flatten(lists)[Offset(lists, i)..Offset(lists, i + 1)][p - Offset(lists, i)];
  }

  lemma {:induction false} PositionInGroup(words: seq<Word>, lists: seq<seq<Word>>, b: nat, i: nat)
    requires lists == GroupLists(words, MAX_GROUP) && b < MAX_GROUP && i < |Flatten(lists)|
    ensures Offset(lists, b) <= i < Offset(lists, b) + |lists[b]| <==> Bucket(|Flatten(lists)[i].charIds|) == b + 1
  {
    if Offset(lists, b) <= i < Offset(lists, b) + |lists[b]| {
      InList(lists, b, i);
      GroupOfHas(words, b + 1);
    } else {
      var c := WhichList(lists, i);
      assert Flatten(lists)[i] in lists[c];
      GroupOfHas(words, c + 1);
    }
  }

  lemma {:induction false} GroupWordsOk(words: seq<Word>, flat: seq<Word>, groups: seq<Group>)
    requires Grouped(words, flat, groups)
    ensures GroupsOk(Lengths(flat), groups)
  {
    var lists := GroupLists(words, MAX_GROUP);
    forall b, i | 0 <= b < MAX_GROUP && 0 <= i < |flat|
      ensures groups[b].start <= i < groups[b].start + groups[b].count <==> Bucket(Lengths(flat)[i]) == b + 1
    {
      PositionInGroup(words, lists, b, i);
    }
    forall b | 0 <= b < MAX_GROUP ensures groups[b].start + groups[b].count <= |flat| {
      FlattenSlice(lists, b);
    }
    forall b, c | 0 <= b < c < MAX_GROUP ensures groups[b].start + groups[b].count <= groups[c].start {
      FlattenSlice(lists, b);
      FlattenPrefix(lists, b + 1, c);
    }
  }

  /** Grouping loses nothing: the table holds every word of at least one character, as often as
      the list of words does, and no other. */
  lemma {:induction false} GroupingConserves(words: seq<Word>, flat: seq<Word>, groups: seq<Group>, w: Word)
    requires Grouped(words, flat, groups)
    ensures multiset(flat)[w] == if |w.charIds| > 0 then multiset(words)[w] else 0
  {
    var lists := GroupLists(words, MAX_GROUP);
    assert lists[..MAX_GROUP] == lists;
    FlatCounts(words, MAX_GROUP, w);
  }

  lemma {:induction false} FlatCounts(words: seq<Word>, n: nat, w: Word)
    requires n <= MAX_GROUP
    ensures multiset(Flatten(GroupLists(words, n)))[w]
      == if 1 <= Bucket(|w.charIds|) <= n then multiset(words)[w] else 0
  {
    if n > 0 {
      FlatCounts(words, n - 1, w);
      var lists := GroupLists(words, n);
      assert lists[..n - 1] == GroupLists(words, n - 1) && lists[n - 1] == GroupOf(words, n);
      SortDescKeeps(InBucket(words, n), WordFreq());
      InBucketCounts(words, n, w);
    }
  }

  lemma {:induction false} InBucketCounts(words: seq<Word>, b: nat, w: Word)
    ensures multiset(InBucket(words, b))[w] == if Bucket(|w.charIds|) == b then multiset(words)[w] else 0
  {
    if |words| > 0 {
      InBucketCounts(words[..|words| - 1], b, w);
      assert words == words[..|words| - 1] + [words[|words| - 1]];
    }
  }

  // ---------------------------------------------------------------- words by first character

  function FreqOf(flat: seq<Word>): nat -> int {
    (wid: nat) => if wid < |flat| then flat[wid].freq else 0
  }

  function StartingWith(flat: seq<Word>, cid: nat): seq<nat> {
    if |flat| == 0 then []
    else
      var wid := |flat| - 1;
      StartingWith(flat[..wid], cid)
      + if |flat[wid].charIds| > 0 && flat[wid].charIds[0] == cid then [wid] else []
  }

  function FirstLists(flat: seq<Word>, charCount: nat): (lists: seq<seq<nat>>)
    ensures |lists| == charCount
  {
    seq(charCount, cid requires 0 <= cid => SortDesc(StartingWith(flat, cid), FreqOf(flat)))
  }

  method BuildFirstCharIdx(flat: seq<Word>, charCount: nat) returns (offsets: seq<nat>, wids: seq<nat>)
    ensures Packs(offsets, wids, FirstLists(flat, charCount))
  {
    var byFirst: seq<seq<nat>> := seq(charCount, _ => []);
    for wid := 0 to |flat|
      invariant |byFirst| == charCount
      invariant forall cid :: 0 <= cid < charCount ==> byFirst[cid] == StartingWith(flat[..wid], cid)
    {
      assert flat[..wid + 1][..wid] == flat[..wid];
      var w := flat[wid];
      if |w.charIds| > 0 && w.charIds[0] < charCount {
        byFirst := byFirst[w.charIds[0] := byFirst[w.charIds[0]] + [wid]];
      }
    }
    assert flat[..|flat|] == flat;
    var lists: seq<seq<nat>> := [];
    ghost var sorted := FirstLists(flat, charCount);
    for cid := 0 to charCount
      invariant lists == sorted[..cid]
    {
      lists := lists + [SortDesc(byFirst[cid], FreqOf(flat))];
      assert sorted[..cid + 1] == sorted[..cid] + [sorted[cid]];
    }
    assert sorted[..charCount] == sorted;
    offsets, wids := PackLists(lists);
  }

  lemma {:induction false} AppendFresh(s: seq<nat>, x: nat)
    requires Distinct(s) && x !in s
    ensures Distinct(s + [x])
  {
    assert forall i :: 0 <= i < |s| ==> (s + [x])[i] in s;
  }

  lemma {:induction false} StartingWithHas(flat: seq<Word>, cid: nat)
    ensures forall wid ::
      wid in StartingWith(flat, cid) <==> 0 <= wid < |flat| && |flat[wid].charIds| > 0 && flat[wid].charIds[0] == cid
    ensures Distinct(StartingWith(flat, cid))
  {
    if |flat| > 0 {
      var wid := |flat| - 1;
      StartingWithHas(flat[..wid], cid);
      AppendFresh(StartingWith(flat[..wid], cid), wid);
    }
  }

  /** Each word is listed once, under its first character, most frequent first. */
  lemma {:induction false} FirstListsHave(flat: seq<Word>, charCount: nat, cid: nat)
    requires cid < charCount
    ensures var list := FirstLists(flat, charCount)[cid];
      && (forall wid :: wid in list <==> 0 <= wid < |flat| && |flat[wid].charIds| > 0 && flat[wid].charIds[0] == cid)
      && Distinct(list) && Descending(list, FreqOf(flat))
  {
    StartingWithHas(flat, cid);
    SortDescKeeps(StartingWith(flat, cid), FreqOf(flat));
  }

  // ---------------------------------------------------------------- characters by key

  predicate HasKey(c: CharEntry, key: int) {
    exists i :: 0 <= i < |c.readings| && |c.readings[i].keys| > 0 && c.readings[i].keys[0] == key
  }

  function WithFirstKey(chars: seq<CharEntry>, key: int): seq<nat> {
    if |chars| == 0 then []
    else
      var cid := |chars| - 1;
      WithFirstKey(chars[..cid], key) + if HasKey(chars[cid], key) then [cid] else []
  }

  function KeyLists(chars: seq<CharEntry>): (lists: seq<seq<nat>>)
    ensures |lists| == KEY_SLOTS
  {
    seq(KEY_SLOTS, slot => WithFirstKey(chars, KEY_MIN + slot))
  }

  method BuildKeyToCharIdx(chars: seq<CharEntry>) returns (offsets: seq<nat>, cids: seq<nat>)
    ensures Packs(offsets, cids, KeyLists(chars))
  {
    var byKey: seq<seq<nat>> := seq(KEY_SLOTS, _ => []);
    for cid := 0 to |chars|
      invariant |byKey| == KEY_SLOTS
      invariant forall slot :: 0 <= slot < KEY_SLOTS ==> byKey[slot] == WithFirstKey(chars[..cid], KEY_MIN + slot)
    {
      assert chars[..cid + 1][..cid] == chars[..cid];
      var readings := chars[cid].readings;
      var seen: set<Byte> := {};
      ghost var before := byKey;
      for i := 0 to |readings|
        invariant |byKey| == KEY_SLOTS
        invariant forall k :: k in seen <==> exists j :: 0 <= j < i && |readings[j].keys| > 0 && readings[j].keys[0] == k
        invariant forall slot :: 0 <= slot < KEY_SLOTS ==>
          byKey[slot] == before[slot] + if KEY_MIN + slot in seen then [cid] else []
      {
        var keys := readings[i].keys;
        if |keys| > 0 && keys[0] !in seen {
          seen := seen + {keys[0]};
          if KEY_MIN <= keys[0] < KEY_MIN + KEY_SLOTS {
            var slot := keys[0] - KEY_MIN;
            byKey := byKey[slot := byKey[slot] + [cid]];
          }
        }
      }
      forall key: Byte ensures key in seen <==> HasKey(chars[cid], key) {
        if HasKey(chars[cid], key) {
          var j :| 0 <= j < |readings| && |readings[j].keys| > 0 && readings[j].keys[0] == key;
          assert readings[j].keys[0] in seen;
        }
      }
    }
    assert chars[..|chars|] == chars;
    assert byKey == KeyLists(chars);
    offsets, cids := PackLists(byKey);
  }

  /** A character is listed once under each key that begins one of its readings. */
  lemma {:induction false} KeyListsHave(chars: seq<CharEntry>, key: int)
    ensures forall cid :: cid in WithFirstKey(chars, key) <==> 0 <= cid < |chars| && HasKey(chars[cid], key)
    ensures Distinct(WithFirstKey(chars, key))
  {
    if |chars| > 0 {
      var rest := chars[..|chars| - 1];
      KeyListsHave(rest, key);
      assert WithFirstKey(chars, key) == WithFirstKey(rest, key) + if HasKey(chars[|rest|], key) then [|rest|] else [];
      forall cid ensures cid in WithFirstKey(chars, key) <==> 0 <= cid < |chars| && HasKey(chars[cid], key) {
        if 0 <= cid < |rest| { assert rest[cid] == chars[cid]; }
      }
      AppendFresh(WithFirstKey(rest, key), |rest|);
    }
  }
}
