/** The table of syllable prefixes: built by the compiler from the source readings, searched by
    the firmware to count the syllables typed so far. */
module PrefixTable {
  import opened Basics
  import opened Composition
  import opened GenDict

  const MAX_PREFIX: nat := 4

  function Weight(i: nat): nat
    requires i <= MAX_PREFIX
  {
    if i == 0 then 1 else if i == 1 then 0x100 else if i == 2 then 0x1_0000 else if i == 3 then 0x100_0000 else 0x1_0000_0000
  }

  function Little(b: seq<Byte>): (v: nat)
    requires |b| <= MAX_PREFIX
    ensures v < Weight(|b|)
  {
    if |b| == 0 then 0
    else
      var n := |b| - 1;
      Little(b[..n]) + b[n] * Weight(n)
  }

  /** Length, then the bytes, least significant first, in one integer. */
  function Pack(b: seq<Byte>): nat
    requires |b| <= MAX_PREFIX
  {
    |b| * Weight(MAX_PREFIX) + Little(b)
  }

  method PackPrefix(b: seq<Byte>) returns (v: nat)
    requires |b| <= MAX_PREFIX
    ensures v == Pack(b)
  {
    v := |b| * Weight(MAX_PREFIX);
    for i := 0 to |b|
      invariant v == |b| * Weight(MAX_PREFIX) + Little(b[..i])
    {
      assert b[..i + 1][..i] == b[..i];
      v := v + b[i] * Weight(i);
    }
    assert b[..|b|] == b;
  }

  lemma {:induction false} LittleIsInjective(a: seq<Byte>, b: seq<Byte>)
    requires |a| == |b| <= MAX_PREFIX && Little(a) == Little(b)
    ensures a == b
  {
    if |a| > 0 {
      var n := |a| - 1;
      assert Little(a[..n]) < Weight(n) && Little(b[..n]) < Weight(n);
      assert a[n] == b[n];
      LittleIsInjective(a[..n], b[..n]);
      assert a == a[..n] + [a[n]] && b == b[..n] + [b[n]];
    }
  }

  /** Different prefixes have different packed values. */
  lemma {:induction false} PackIsInjective(a: seq<Byte>, b: seq<Byte>)
    requires |a| <= MAX_PREFIX && |b| <= MAX_PREFIX && Pack(a) == Pack(b)
    ensures a == b
  {
    assert Weight(|a|) <= Weight(MAX_PREFIX) && Weight(|b|) <= Weight(MAX_PREFIX);
    LittleIsInjective(a, b);
  }

  // ---------------------------------------------------------------- the set of known prefixes

  /** `b` is the first one to four key bytes of some syllable. */
  predicate Known(syllables: seq<seq<Byte>>, b: seq<Byte>) {
    1 <= |b| <= MAX_PREFIX && exists k :: 0 <= k < |syllables| && b <= syllables[k]
  }

  lemma {:induction false} KnownIsPrefixClosed(syllables: seq<seq<Byte>>, b: seq<Byte>, n: nat)
    requires Known(syllables, b) && 1 <= n <= |b|
    ensures Known(syllables, b[..n])
  {
    var k :| 0 <= k < |syllables| && b <= syllables[k];
    assert b[..n] <= syllables[k];
  }

  predicate Ascending(t: seq<nat>) {
    forall i, j :: 0 <= i < j < |t| ==> t[i] < t[j]
  }

  /** The table is sorted and holds exactly the packed known prefixes. */
  ghost predicate TableOf(table: seq<nat>, syllables: seq<seq<Byte>>) {
    && Ascending(table)
    && (forall b :: Known(syllables, b) ==> Pack(b) in table)
    && (forall v :: v in table ==> exists b :: Known(syllables, b) && v == Pack(b))
  }

  ghost predicate Holds(s: set<nat>, syllables: seq<seq<Byte>>) {
    && (forall b :: Known(syllables, b) ==> Pack(b) in s)
    && (forall v :: v in s ==> exists b :: Known(syllables, b) && v == Pack(b))
  }

  lemma {:induction false} KnownGrows(syllables: seq<seq<Byte>>, syl: seq<Byte>, b: seq<Byte>)
    ensures Known(syllables + [syl], b) <==> Known(syllables, b) || (1 <= |b| <= MAX_PREFIX && b <= syl)
  {
    var all := syllables + [syl];
    if Known(syllables, b) {
      var k :| 0 <= k < |syllables| && b <= syllables[k];
      assert b <= all[k];
    }
    if 1 <= |b| <= MAX_PREFIX && b <= syl { assert b <= all[|syllables|]; }
  }

  /** The prefixes of one syllable, added to the set. */
  method AddPrefixes(s: set<nat>, keys: seq<Byte>) returns (r: set<nat>)
    ensures s <= r
    ensures forall b :: 1 <= |b| <= MAX_PREFIX && b <= keys ==> Pack(b) in r
    ensures forall v :: v in r ==> v in s || exists b :: 1 <= |b| <= MAX_PREFIX && b <= keys && v == Pack(b)
  {
    r := s;
    var n := Min(|keys|, MAX_PREFIX);
    for len := 1 to n + 1
      invariant s <= r
      invariant forall l :: 1 <= l < len ==> Pack(keys[..l]) in r
      invariant forall v :: v in r ==> v in s || exists l :: 1 <= l < len && v == Pack(keys[..l])
    {
      var v := PackPrefix(keys[..len]);
      r := r + {v};
    }
    forall b | 1 <= |b| <= MAX_PREFIX && b <= keys ensures Pack(b) in r {
      assert b == keys[..|b|];
    }
  }

  /** The set after one more syllable. */
  lemma {:induction false} HoldsOneMore(s: set<nat>, r: set<nat>, syllables: seq<seq<Byte>>, syl: seq<Byte>)
    requires Holds(s, syllables) && s <= r
    requires forall b :: 1 <= |b| <= MAX_PREFIX && b <= syl ==> Pack(b) in r
    requires forall v :: v in r ==> v in s || exists b :: 1 <= |b| <= MAX_PREFIX && b <= syl && v == Pack(b)
    ensures Holds(r, syllables + [syl])
  {
    hide Known, Pack;
    forall b ensures Known(syllables + [syl], b) <==> Known(syllables, b) || (1 <= |b| <= MAX_PREFIX && b <= syl) {
      KnownGrows(syllables, syl, b);
    }
  }

  method PrefixSet(syllables: seq<seq<Byte>>) returns (s: set<nat>)
    ensures Holds(s, syllables)
  {
    s := {};
    assert Holds(s, syllables[..0]);
    hide Holds, Known, Pack;
    for i := 0 to |syllables|
      invariant Holds(s, syllables[..i])
    {
      ghost var before := s;
      s := AddPrefixes(s, syllables[i]);
      HoldsOneMore(before, s, syllables[..i], syllables[i]);
      assert syllables[..i + 1] == syllables[..i] + [syllables[i]];
    }
    assert syllables[..|syllables|] == syllables;
  }

  method Sorted(s: set<nat>) returns (t: seq<nat>)
    ensures Ascending(t) && forall v :: v in t <==> v in s
  {
    t := [];
    var rest := s;
    while rest != {}
      invariant Ascending(t) && rest <= s
      invariant forall v :: v in t <==> v in s && v !in rest
      decreases |rest|
    {
      var v :| v in rest;
      rest := rest - {v};
      t := InsertSorted(t, v);
    }
  }

  lemma {:induction false} InsertHas(a: seq<nat>, v: nat, b: seq<nat>)
    ensures forall x :: x in a + [v] + b <==> x in a + b || x == v
  {
  }

  lemma {:induction false} InsertAscends(t: seq<nat>, v: nat, i: nat)
    requires Ascending(t) && i <= |t| && (forall j :: 0 <= j < i ==> t[j] < v) && forall j :: i <= j < |t| ==> v < t[j]
    ensures Ascending(t[..i] + [v] + t[i..])
  {
  }

  method InsertSorted(t: seq<nat>, v: nat) returns (r: seq<nat>)
    requires Ascending(t) && v !in t
    ensures Ascending(r) && forall x :: x in r <==> x in t || x == v
  {
    var i := 0;
    while i < |t| && t[i] < v
      invariant i <= |t| && forall j :: 0 <= j < i ==> t[j] < v
    {
      i := i + 1;
    }
    r := t[..i] + [v] + t[i..];
    InsertHas(t[..i], v, t[i..]);
    assert t == t[..i] + t[i..];
    forall j | i <= j < |t| ensures v < t[j] {
      assert t[i] in t;
    }
    InsertAscends(t, v, i);
  }

  /** The key sequences of every stored reading. */
  function ReadingKeys(chars: seq<CharEntry>): seq<seq<Byte>> {
    if |chars| == 0 then []
    else ReadingKeys(chars[..|chars| - 1]) + KeysOf(chars[|chars| - 1].readings)
  }

  function KeysOf(readings: seq<Reading>): (kss: seq<seq<Byte>>) {
    seq(|readings|, i requires 0 <= i < |readings| => readings[i].keys)
  }

  /** Where the prefixes come from: the source syllables, or the stored readings when no syllable has a key. */
  function Sources(syllables: seq<seq<char>>, chars: seq<CharEntry>): seq<seq<Byte>> {
    if forall ks :: ks in KeySeqs(syllables) ==> ks == [] then ReadingKeys(chars) else KeySeqs(syllables)
  }

  method AllReadingKeys(chars: seq<CharEntry>) returns (kss: seq<seq<Byte>>)
    ensures kss == ReadingKeys(chars)
  {
    kss := [];
    for i := 0 to |chars|
      invariant kss == ReadingKeys(chars[..i])
    {
      assert chars[..i + 1][..i] == chars[..i];
      kss := kss + KeysOf(chars[i].readings);
    }
    assert chars[..|chars|] == chars;
  }

  /** Without any prefix there is no key at all. */
  lemma {:induction false} NoPrefixNoKeys(s: set<nat>, kss: seq<seq<Byte>>)
    requires Holds(s, kss)
    ensures s == {} <==> forall ks :: ks in kss ==> ks == []
  {
    forall ks | ks in kss && ks != [] ensures s != {} {
      var k :| 0 <= k < |kss| && kss[k] == ks;
      assert ks[..1] <= kss[k];
      assert Known(kss, ks[..1]);
      assert Pack(ks[..1]) in s;
    }
    if v :| v in s {
      var b :| Known(kss, b) && v == Pack(b);
      var k :| 0 <= k < |kss| && b <= kss[k];
      assert kss[k] in kss;
    }
  }

  /** The compiler's table: every prefix of one to four keys of every source syllable, once, sorted; of every
      stored reading when the sources give none. */
  method BuildPrefixTable(syllables: seq<seq<char>>, chars: seq<CharEntry>) returns (table: seq<nat>)
    ensures TableOf(table, Sources(syllables, chars))
  {
    hide Holds;
    var s := PrefixSet(KeySeqs(syllables));
    NoPrefixNoKeys(s, KeySeqs(syllables));
    if s == {} {
      var kss := AllReadingKeys(chars);
      s := PrefixSet(kss);
    }
    table := Sorted(s);
    HeldAndSorted(s, table, Sources(syllables, chars));
  }

  lemma {:induction false} HeldAndSorted(s: set<nat>, table: seq<nat>, kss: seq<seq<Byte>>)
    requires Holds(s, kss) && Ascending(table) && forall v :: v in table <==> v in s
    ensures TableOf(table, kss)
  {
  }

  // ---------------------------------------------------------------- looking a prefix up

  method LowerBound(table: seq<nat>, key: nat) returns (lo: nat)
    requires Ascending(table)
    ensures lo <= |table|
    ensures (forall i :: 0 <= i < lo ==> table[i] < key) && forall i :: lo <= i < |table| ==> table[i] >= key
  {
    lo := 0;
    var hi := |table|;
    while lo < hi
      invariant lo <= hi <= |table|
      invariant (forall i :: 0 <= i < lo ==> table[i] < key) && forall i :: hi <= i < |table| ==> table[i] >= key
    {
      var mid := lo + (hi - lo) / 2;
      if table[mid] < key { lo := mid + 1; } else { hi := mid; }
    }
  }

  /** The lookup answers true exactly for the one to four byte prefixes of the syllables. */
  method HasReadingPrefix(table: seq<nat>, b: seq<Byte>, ghost syllables: seq<seq<Byte>>) returns (known: bool)
    requires TableOf(table, syllables)
    ensures known <==> Known(syllables, b)
  {
    if |b| == 0 || |b| > MAX_PREFIX { return false; }
    var key := PackPrefix(b);
    var lo := LowerBound(table, key);
    known := lo < |table| && table[lo] == key;
    if known {
      assert key in table;
      ghost var a :| Known(syllables, a) && table[lo] == Pack(a);
      PackIsInjective(a, b);
    } else {
      assert forall i :: 0 <= i < |table| ==> table[i] != key;
    }
  }

  // ---------------------------------------------------------------- counting syllables

  /** A step of the parse: `len` keys taken as one syllable, or one byte skipped when 0. */
  datatype Piece = Piece(at: nat, len: nat)

  function Next(p: Piece): nat {
    p.at + if p.len == 0 then 1 else p.len
  }

  predicate KnownAt(syllables: seq<seq<Byte>>, keys: seq<Byte>, at: nat, len: nat)
    requires at + len <= |keys|
  {
    Known(syllables, keys[at..at + len])
  }

  /** A byte is skipped only if no syllable starts with it; otherwise the piece is a known prefix
      that no known prefix at this place extends. */
  ghost predicate StepAt(syllables: seq<seq<Byte>>, keys: seq<Byte>, p: Piece) {
    && p.at < |keys| && Next(p) <= |keys|
    && if p.len == 0 then forall s :: s in syllables ==> s == [] || s[0] != keys[p.at]
       else
         && KnownAt(syllables, keys, p.at, p.len)
         && forall m :: p.len < m <= |keys| - p.at ==> !KnownAt(syllables, keys, p.at, m)
  }

  /** The pieces are adjacent, from the start of the input up to `upto`. */
  ghost predicate Greedy(syllables: seq<seq<Byte>>, keys: seq<Byte>, pieces: seq<Piece>, upto: nat) {
    && (if |pieces| == 0 then upto == 0 else pieces[0].at == 0 && Next(pieces[|pieces| - 1]) == upto)
    && (forall k :: 0 < k < |pieces| ==> pieces[k].at == Next(pieces[k - 1]))
    && forall k :: 0 <= k < |pieces| ==> StepAt(syllables, keys, pieces[k])
  }

  function Taken(pieces: seq<Piece>): nat {
    if |pieces| == 0 then 0 else Taken(pieces[..|pieces| - 1]) + if pieces[|pieces| - 1].len > 0 then 1 else 0
  }

  lemma {:induction false} PiecesAgree(syllables: seq<seq<Byte>>, keys: seq<Byte>, a: seq<Piece>, b: seq<Piece>, n: nat, m: nat, k: nat)
    requires Greedy(syllables, keys, a, n) && Greedy(syllables, keys, b, m) && k <= |a| && k <= |b|
    ensures a[..k] == b[..k]
  {
    hide StepAt;
    if k > 0 {
      PiecesAgree(syllables, keys, a, b, n, m, k - 1);
      var p, q := a[k - 1], b[k - 1];
      if k > 1 {
        assert a[k - 2] == a[..k - 1][k - 2] && b[k - 2] == b[..k - 1][k - 2];
      }
      assert p.at == q.at;
      StepIsUnique(syllables, keys, p, q);
      assert a[..k] == a[..k - 1] + [p] && b[..k] == b[..k - 1] + [q];
    }
  }

  lemma {:induction false} SkippedIsUnknown(syllables: seq<seq<Byte>>, keys: seq<Byte>, p: Piece, len: nat)
    requires StepAt(syllables, keys, p) && p.len == 0 && 0 < len && p.at + len <= |keys|
    ensures !KnownAt(syllables, keys, p.at, len)
  {
    var b := keys[p.at..p.at + len];
    forall k | 0 <= k < |syllables| ensures !(b <= syllables[k]) {
      assert syllables[k] in syllables && b[0] == keys[p.at];
    }
  }

  lemma {:induction false} StepIsUnique(syllables: seq<seq<Byte>>, keys: seq<Byte>, p: Piece, q: Piece)
    requires StepAt(syllables, keys, p) && StepAt(syllables, keys, q) && p.at == q.at
    ensures p == q
  {
    if p.len == 0 && q.len > 0 { SkippedIsUnknown(syllables, keys, p, q.len); }
    if q.len == 0 && p.len > 0 { SkippedIsUnknown(syllables, keys, q, p.len); }
  }

  /** The greedy parse is determined, so the count is a property of the syllables and the input. */
  lemma {:induction false} GreedyIsUnique(syllables: seq<seq<Byte>>, keys: seq<Byte>, a: seq<Piece>, b: seq<Piece>)
    requires Greedy(syllables, keys, a, |keys|) && Greedy(syllables, keys, b, |keys|)
    ensures a == b
  {
    var k := Min(|a|, |b|);
    PiecesAgree(syllables, keys, a, b, |keys|, |keys|, k);
    if |a| < |b| { NoMorePieces(syllables, keys, a, b); }
    if |b| < |a| { NoMorePieces(syllables, keys, b, a); }
  }

  lemma {:induction false} NoMorePieces(syllables: seq<seq<Byte>>, keys: seq<Byte>, a: seq<Piece>, b: seq<Piece>)
    requires Greedy(syllables, keys, a, |keys|) && Greedy(syllables, keys, b, |keys|) && a <= b
    ensures |a| == |b|
  {
    assert 0 < |a| < |b| ==> b[|a|].at == Next(b[|a| - 1]) && b[|a| - 1] == a[|a| - 1];
    assert |a| < |b| ==> StepAt(syllables, keys, b[|a|]);
  }

  /** The longest known prefix at `at`, or 0. */
  method LongestPrefix(table: seq<nat>, keys: seq<Byte>, at: nat, ghost syllables: seq<seq<Byte>>) returns (len: nat)
    requires TableOf(table, syllables) && at < |keys|
    ensures StepAt(syllables, keys, Piece(at, len))
  {
    var maxTry := Min(|keys| - at, MAX_PREFIX);
    len := maxTry;
    while len >= 1
      invariant 0 <= len <= maxTry
      invariant forall m :: len < m <= |keys| - at ==> !KnownAt(syllables, keys, at, m)
    {
      var known := HasReadingPrefix(table, keys[at..at + len], syllables);
      if known { return; }
      len := len - 1;
    }
    NothingStarts(syllables, keys, at);
  }

  lemma {:induction false} NothingStarts(syllables: seq<seq<Byte>>, keys: seq<Byte>, at: nat)
    requires at < |keys| && !KnownAt(syllables, keys, at, 1)
    ensures forall k :: 0 <= k < |syllables| ==> syllables[k] == [] || syllables[k][0] != keys[at]
  {
    var b := keys[at..at + 1];
    forall k | 0 <= k < |syllables| ensures syllables[k] == [] || syllables[k][0] != keys[at] {
      assert !(b <= syllables[k]);
      assert b == [keys[at]];
    }
  }

  lemma {:induction false} GreedyStep(syllables: seq<seq<Byte>>, keys: seq<Byte>, pieces: seq<Piece>, p: Piece)
    requires Greedy(syllables, keys, pieces, p.at) && StepAt(syllables, keys, p)
    ensures Greedy(syllables, keys, pieces + [p], Next(p))
    ensures Taken(pieces + [p]) == Taken(pieces) + if p.len > 0 then 1 else 0
  {
    var more := pieces + [p];
    assert more[..|pieces|] == pieces;
    forall k | 0 < k < |more| ensures more[k].at == Next(more[k - 1]) {
      if k < |pieces| { assert more[k] == pieces[k]; }
    }
  }

  /** The count is the number of syllable prefixes in the greedy parse of the whole input. */
  method CountSyllables(table: seq<nat>, keys: seq<Byte>, ghost syllables: seq<seq<Byte>>)
    returns (count: nat, ghost pieces: seq<Piece>)
    requires TableOf(table, syllables)
    ensures Greedy(syllables, keys, pieces, |keys|) && count == Taken(pieces)
  {
    count, pieces := 0, [];
    var i := 0;
    while i < |keys|
      invariant i <= |keys| && Greedy(syllables, keys, pieces, i) && count == Taken(pieces)
    {
      var best := LongestPrefix(table, keys, i, syllables);
      GreedyStep(syllables, keys, pieces, Piece(i, best));
      pieces := pieces + [Piece(i, best)];
      if best == 0 {
        i := i + 1;
      } else {
        count := count + 1;
        i := i + best;
      }
    }
  }

  /** What one syllable's first keys amount to: one syllable. */
  lemma {:induction false} OneSyllableCountsOnce(syllables: seq<seq<Byte>>, keys: seq<Byte>, pieces: seq<Piece>)
    requires Known(syllables, keys) && Greedy(syllables, keys, pieces, |keys|)
    ensures pieces == [Piece(0, |keys|)] && Taken(pieces) == 1
  {
    var one := [Piece(0, |keys|)];
    assert keys[0..0 + |keys|] == keys;
    GreedyIsUnique(syllables, keys, pieces, one);
    assert one[..0] == [];
  }
}
