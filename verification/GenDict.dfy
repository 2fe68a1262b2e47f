/** The v2 dictionary compiler: phonemes to key bytes, and the pre-expanded abbreviations
    of a word. `V4AcceptsWhatV2Expands` relates them to the v4 matcher. */
module GenDict {
  import opened Basics
  import opened Composition

  const KEY_OFFSET: Byte := 0x21

  /** The 5x5 keymap: each phoneme's key and its position on that key. */
  function KeyAndPos(ph: char): (r: Option<(nat, nat)>)
    ensures r.Some? ==> r.value.0 < 20 && r.value.1 < 3
  {
    match ph
    case 'ㄅ' => Some((0, 0)) case 'ㄉ' => Some((0, 1))
    case 'ˇ' => Some((1, 0)) case 'ˋ' => Some((1, 1))
    case 'ㄓ' => Some((2, 0)) case 'ˊ' => Some((2, 1))
    case '˙' => Some((3, 0)) case 'ㄚ' => Some((3, 1))
    case 'ㄞ' => Some((4, 0)) case 'ㄢ' => Some((4, 1)) case 'ㄦ' => Some((4, 2))
    case 'ㄆ' => Some((5, 0)) case 'ㄊ' => Some((5, 1))
    case 'ㄍ' => Some((6, 0)) case 'ㄐ' => Some((6, 1))
    case 'ㄔ' => Some((7, 0)) case 'ㄗ' => Some((7, 1))
    case 'ㄧ' => Some((8, 0)) case 'ㄛ' => Some((8, 1))
    case 'ㄟ' => Some((9, 0)) case 'ㄣ' => Some((9, 1))
    case 'ㄇ' => Some((10, 0)) case 'ㄋ' => Some((10, 1))
    case 'ㄎ' => Some((11, 0)) case 'ㄑ' => Some((11, 1))
    case 'ㄕ' => Some((12, 0)) case 'ㄘ' => Some((12, 1))
    case 'ㄨ' => Some((13, 0)) case 'ㄜ' => Some((13, 1))
    case 'ㄠ' => Some((14, 0)) case 'ㄤ' => Some((14, 1))
    case 'ㄈ' => Some((15, 0)) case 'ㄌ' => Some((15, 1))
    case 'ㄏ' => Some((16, 0)) case 'ㄒ' => Some((16, 1))
    case 'ㄖ' => Some((17, 0)) case 'ㄙ' => Some((17, 1))
    case 'ㄩ' => Some((18, 0)) case 'ㄝ' => Some((18, 1))
    case 'ㄡ' => Some((19, 0)) case 'ㄥ' => Some((19, 1))
    case _ => None
  }

  /** The key bytes of the phonemes that have a key. */
  function KeySeq(phs: seq<char>): (keys: seq<Byte>)
    ensures |keys| <= |phs|
    ensures forall k :: k in keys ==> 0x21 <= k < 0x35
  {
    if |phs| == 0 then []
    else
      var rest := KeySeq(phs[..|phs| - 1]);
      var kp := KeyAndPos(phs[|phs| - 1]);
      if kp.Some? then rest + [kp.value.0 + KEY_OFFSET] else rest
  }

  function PosSeq(phs: seq<char>): (pos: seq<nat>)
    ensures |pos| == |KeySeq(phs)|
    ensures forall p :: p in pos ==> p < 3
  {
    if |phs| == 0 then []
    else
      var rest := PosSeq(phs[..|phs| - 1]);
      var kp := KeyAndPos(phs[|phs| - 1]);
      if kp.Some? then rest + [kp.value.1] else rest
  }

  method PhonemesToKeyseqWithPos(phs: seq<char>) returns (keys: seq<Byte>, pos: seq<nat>)
    ensures keys == KeySeq(phs) && pos == PosSeq(phs)
  {
    keys, pos := [], [];
    for i := 0 to |phs|
      invariant keys == KeySeq(phs[..i]) && pos == PosSeq(phs[..i])
    {
      assert phs[..i + 1][..i] == phs[..i];
      var kp := KeyAndPos(phs[i]);
      if kp.Some? {
        keys, pos := keys + [kp.value.0 + KEY_OFFSET], pos + [kp.value.1];
      }
    }
    assert phs[..|phs|] == phs;
  }

  // ---------------------------------------------------------------- abbreviations

  function KeySeqs(syls: seq<seq<char>>): seq<seq<Byte>> {
    seq(|syls|, i requires 0 <= i < |syls| => KeySeq(syls[i]))
  }

  /** The first `lens[i]` keys of each syllable from `i` on, run together. */
  function JoinFrom(kss: seq<seq<Byte>>, lens: seq<nat>, i: nat): seq<Byte>
    requires |lens| == |kss| && i <= |kss|
    requires forall j :: 0 <= j < |kss| ==> lens[j] <= |kss[j]|
    decreases |kss| - i
  {
    if i == |kss| then [] else kss[i][..lens[i]] + JoinFrom(kss, lens, i + 1)
  }

  predicate LensOf(kss: seq<seq<Byte>>, lens: seq<nat>) {
    |lens| == |kss| && forall j :: 0 <= j < |kss| ==> 1 <= lens[j] <= |kss[j]|
  }

  /** A non-empty prefix of every syllable, run together. */
  ghost predicate IsAbbreviation(kss: seq<seq<Byte>>, v: seq<Byte>) {
    exists lens :: LensOf(kss, lens) && v == JoinFrom(kss, lens, 0)
  }

  /** What `AbbreviatedKeyseqs` promises: every abbreviation other than the full key sequence, once. */
  ghost predicate AreAbbreviations(kss: seq<seq<Byte>>, full: seq<Byte>, variants: seq<seq<Byte>>) {
    && Distinct(variants)
    && (forall v :: v in variants ==> v != full && IsAbbreviation(kss, v))
    && (|kss| > 0 && (forall ks :: ks in kss ==> |ks| > 0) ==>
          forall v :: IsAbbreviation(kss, v) && v != full ==> v in variants)
    && (|kss| == 0 || (exists ks :: ks in kss && |ks| == 0) ==> variants == [])
  }

  /** All ways of choosing one element of each list, leftmost slowest. */
  function Product(choices: seq<seq<seq<Byte>>>): seq<seq<seq<Byte>>> {
    if |choices| == 0 then [[]]
    else PrependAll(choices[0], Product(choices[1..]))
  }

  function PrependAll(heads: seq<seq<Byte>>, tails: seq<seq<seq<Byte>>>): seq<seq<seq<Byte>>> {
    if |heads| == 0 then []
    else seq(|tails|, i requires 0 <= i < |tails| => [heads[0]] + tails[i]) + PrependAll(heads[1..], tails)
  }

  function Join(parts: seq<seq<Byte>>): seq<Byte> {
    if |parts| == 0 then [] else parts[0] + Join(parts[1..])
  }

  ghost predicate IsJoin(combos: seq<seq<seq<Byte>>>, v: seq<Byte>) {
    exists c :: c in combos && v == Join(c)
  }

  function Prefixes(ks: seq<Byte>): (ps: seq<seq<Byte>>)
    ensures |ps| == |ks| && forall i :: 0 <= i < |ps| ==> ps[i] == ks[..i + 1]
  {
    seq(|ks|, i requires 0 <= i < |ks| => ks[..i + 1])
  }

  method SyllableChoices(syl: seq<char>) returns (choices: seq<seq<Byte>>)
    ensures choices == Prefixes(KeySeq(syl))
  {
    choices := [];
    assert syl[..0] == [];
    for n := 0 to |syl|
      invariant choices == Prefixes(KeySeq(syl[..n]))
    {
      var key, _ := PhonemesToKeyseqWithPos(syl[..n + 1]);
      assert syl[..n + 1][..n] == syl[..n];
      ghost var before := KeySeq(syl[..n]);
      assert key == before || key[..|before|] == before;
      if key != [] && (choices == [] || key != choices[|choices| - 1]) {
        choices := choices + [key];
        assert key[..|key|] == key;
        forall i | 0 <= i < |before| ensures key[..i + 1] == Prefixes(before)[i] {
          assert key[..|before|][..i + 1] == key[..i + 1];
        }
      }
    }
    assert syl[..|syl|] == syl;
  }

  method AbbreviatedKeyseqs(syls: seq<seq<char>>, full: seq<Byte>) returns (variants: seq<seq<Byte>>)
    ensures AreAbbreviations(KeySeqs(syls), full, variants)
  {
    if |syls| == 0 { return []; }
    var seen := {full};
    variants := [];
    var choices: seq<seq<seq<Byte>>> := [];
    ghost var kss := KeySeqs(syls);
    for i := 0 to |syls|
      invariant |choices| == i
      invariant forall j :: 0 <= j < i ==> choices[j] == Prefixes(kss[j]) && |kss[j]| > 0
    {
      var c := SyllableChoices(syls[i]);
      if c == [] {
        assert kss[i] in kss && |kss[i]| == 0;
        return [];
      }
      choices := choices + [c];
    }
    var combos := Product(choices);
    forall v ensures IsAbbreviation(kss, v) <==> IsJoin(combos, v) {
      ProductOfPrefixes(kss, choices, v);
    }
    for i := 0 to |combos|
      invariant seen == {full} + set v | v in variants
      invariant full !in variants && Distinct(variants)
      invariant forall v :: v in variants ==> IsJoin(combos, v)
      invariant forall j :: 0 <= j < i ==> Join(combos[j]) in seen
    {
      var variant := Join(combos[i]);
      assert combos[i] in combos && IsJoin(combos, variant);
      if variant !in seen {
        seen := seen + {variant};
        variants := variants + [variant];
      }
    }
    forall v | IsAbbreviation(kss, v) && v != full ensures v in variants {
      var c :| c in combos && v == Join(c);
      var j :| 0 <= j < |combos| && combos[j] == c;
    }
  }

  lemma {:induction false} PrependAllHas(heads: seq<seq<Byte>>, tails: seq<seq<seq<Byte>>>, c: seq<seq<Byte>>)
    ensures c in PrependAll(heads, tails) <==> |c| > 0 && c[0] in heads && c[1..] in tails
    decreases |heads|
  {
    if |heads| > 0 {
      PrependAllHas(heads[1..], tails, c);
      var first := seq(|tails|, i requires 0 <= i < |tails| => [heads[0]] + tails[i]);
      if c in first {
        var i :| 0 <= i < |first| && c == first[i];
        assert c[1..] == tails[i];
      }
      if |c| > 0 && c[0] == heads[0] && c[1..] in tails {
        var i :| 0 <= i < |tails| && tails[i] == c[1..];
        assert c == [heads[0]] + c[1..] == first[i];
      }
      assert heads == [heads[0]] + heads[1..];
    }
  }

  lemma {:induction false} ProductHas(choices: seq<seq<seq<Byte>>>, c: seq<seq<Byte>>)
    ensures c in Product(choices) <==> |c| == |choices| && forall i :: 0 <= i < |c| ==> c[i] in choices[i]
    decreases |choices|
  {
    if |choices| == 0 {
    } else {
      PrependAllHas(choices[0], Product(choices[1..]), c);
      if |c| > 0 {
        ProductHas(choices[1..], c[1..]);
        if |c| == |choices| && c[0] in choices[0] && (forall i :: 0 <= i < |c[1..]| ==> c[1..][i] in choices[1..][i]) {
          forall i | 0 <= i < |c| ensures c[i] in choices[i] {
            if i > 0 { assert c[1..][i - 1] in choices[1..][i - 1]; }
          }
        }
      }
    }
  }

  lemma {:induction false} JoinOfCuts(kss: seq<seq<Byte>>, lens: seq<nat>, c: seq<seq<Byte>>, i: nat)
    requires LensOf(kss, lens) && i <= |kss| && |c| == |kss|
    requires forall j :: i <= j < |c| ==> c[j] == kss[j][..lens[j]]
    ensures Join(c[i..]) == JoinFrom(kss, lens, i)
    decreases |kss| - i
  {
    if i < |kss| {
      JoinOfCuts(kss, lens, c, i + 1);
      assert c[i..][1..] == c[i + 1..];
    }
  }

  /** Picking one prefix of each syllable and joining them gives exactly the abbreviations. */
  lemma {:induction false} ProductOfPrefixes(kss: seq<seq<Byte>>, choices: seq<seq<seq<Byte>>>, v: seq<Byte>)
    requires |choices| == |kss| && forall j :: 0 <= j < |kss| ==> choices[j] == Prefixes(kss[j]) && |kss[j]| > 0
    ensures IsAbbreviation(kss, v) <==> IsJoin(Product(choices), v)
  {
    if IsAbbreviation(kss, v) {
      var lens :| LensOf(kss, lens) && v == JoinFrom(kss, lens, 0);
      var c := seq(|kss|, j requires 0 <= j < |kss| => kss[j][..lens[j]]);
      forall j | 0 <= j < |c| ensures c[j] in choices[j] {
        assert choices[j][lens[j] - 1] == kss[j][..lens[j]];
      }
      ProductHas(choices, c);
      JoinOfCuts(kss, lens, c, 0);
      assert c[0..] == c;
    }
    if IsJoin(Product(choices), v) {
      var c :| c in Product(choices) && v == Join(c);
      ProductHas(choices, c);
      var lens := seq(|kss|, j requires 0 <= j < |kss| => |c[j]|);
      forall j | 0 <= j < |kss| ensures c[j] == kss[j][..lens[j]] && 1 <= lens[j] <= |kss[j]| {
        assert c[j] in choices[j];
      }
      JoinOfCuts(kss, lens, c, 0);
      assert c[0..] == c;
    }
  }

  // ---------------------------------------------------------------- v4 accepts what v2 expands

  /** The stored readings of the word's characters have the key sequences `kss`. */
  predicate ReadsAs(d: CharTable, w: WordView, kss: seq<seq<Byte>>) {
    && WordInTable(d, w)
    && |kss| == |w.charIds|
    && forall i :: 0 <= i < |kss| ==> ReadingAt(d, w, i).Some? && ReadingAt(d, w, i).value.keys == kss[i]
  }

  /** The input from `ki` on is the beginning of `v`. */
  predicate StartsAt(keys: seq<Byte>, ki: nat, v: seq<Byte>)
    requires ki <= |keys|
  {
    |keys| - ki <= |v| && forall j :: 0 <= j < |keys| - ki ==> keys[ki + j] == v[j]
  }

  /** The prefix lengths the v4 matcher tries, without the marker. */
  predicate TriedLens(kss: seq<seq<Byte>>, lens: seq<nat>) {
    && LensOf(kss, lens)
    && forall j :: 0 <= j < |kss| ==> lens[j] >= |kss[j]| - 1 || lens[j] <= 2
  }

  lemma {:induction false} StartsAtAppend(keys: seq<Byte>, ki: nat, a: seq<Byte>, b: seq<Byte>)
    requires ki <= |keys|
    ensures |keys| - ki <= |a| ==> (StartsAt(keys, ki, a + b) <==> SameKeys(a, keys, ki, |keys| - ki))
    ensures |a| <= |keys| - ki ==>
      (StartsAt(keys, ki, a + b) <==> SameKeys(a, keys, ki, |a|) && StartsAt(keys, ki + |a|, b))
  {
    var n := Min(|a|, |keys| - ki);
    if StartsAt(keys, ki, a + b) {
      forall j | 0 <= j < n ensures a[j] == keys[ki + j] {
        assert keys[ki + j] == (a + b)[j];
      }
      forall j | 0 <= j < |keys| - ki - |a| ensures keys[ki + |a| + j] == b[j] {
        assert keys[ki + (|a| + j)] == (a + b)[|a| + j];
      }
    }
    if SameKeys(a, keys, ki, n) && (n == |a| ==> StartsAt(keys, ki + n, b)) {
      forall j | 0 <= j < |keys| - ki ensures keys[ki + j] == (a + b)[j] {
        if j >= |a| { assert keys[ki + n + (j - n)] == b[j - n]; } else { assert a[j] == keys[ki + j]; }
      }
    }
  }

  lemma {:induction false} FirstLen(
    kss: seq<seq<Byte>>, rest: seq<nat>, keys: seq<Byte>, ci: nat, ki: nat, plen: nat) returns (lens: seq<nat>)
    requires TriedLens(kss, rest) && ci < |kss| && ki < |keys|
    requires 1 <= plen <= |kss[ci]| && (plen >= |kss[ci]| - 1 || plen <= 2)
    requires SameKeys(kss[ci], keys, ki, Min(plen, |keys| - ki))
    requires plen <= |keys| - ki ==> StartsAt(keys, ki + plen, JoinFrom(kss, rest, ci + 1))
    ensures TriedLens(kss, lens) && StartsAt(keys, ki, JoinFrom(kss, lens, ci))
  {
    lens := rest[ci := plen];
    JoinSame(kss, rest, lens, ci + 1);
    assert forall j :: 0 <= j < plen ==> kss[ci][..plen][j] == kss[ci][j];
    StartsAtAppend(keys, ki, kss[ci][..plen], JoinFrom(kss, lens, ci + 1));
  }

  lemma {:induction false} RecurseIsTriedLens(
    d: CharTable, w: WordView, kss: seq<seq<Byte>>, keys: seq<Byte>, ci: nat, ki: nat) returns (lens: seq<nat>)
    requires ReadsAs(d, w, kss) && ci <= |kss| && ki <= |keys| && SPACE !in keys
    requires forall ks :: ks in kss ==> |ks| > 0
    requires Recurse(d, w, ci, ki, keys, None)
    ensures TriedLens(kss, lens) && StartsAt(keys, ki, JoinFrom(kss, lens, ci))
    decreases |kss| - ci
  {
    if ki == |keys| {
      return seq(|kss|, i requires 0 <= i < |kss| => |kss[i]|);
    }
    var r := ReadingAt(d, w, ci).value;
    var plen :| plen in TryLengths(|r.keys|) && Try(d, w, ci, ki, keys, None, r, plen);
    TryLengthsAre(|r.keys|, plen);
    var rest := seq(|kss|, i requires 0 <= i < |kss| => |kss[i]|);
    if plen <= |keys| - ki {
      rest := RecurseIsTriedLens(d, w, kss, keys, ci + 1, ki + plen);
    }
    lens := FirstLen(kss, rest, keys, ci, ki, plen);
  }

  lemma {:induction false} JoinSame(kss: seq<seq<Byte>>, a: seq<nat>, b: seq<nat>, i: nat)
    requires LensOf(kss, a) && LensOf(kss, b) && i <= |kss| && a[i..] == b[i..]
    ensures JoinFrom(kss, a, i) == JoinFrom(kss, b, i)
    decreases |kss| - i
  {
    if i < |kss| {
      assert a[i..][0] == b[i..][0] && a[i..][1..] == a[i + 1..] && b[i..][1..] == b[i + 1..];
      JoinSame(kss, a, b, i + 1);
    }
  }

  lemma {:induction false} TriedLensRecurse(
    d: CharTable, w: WordView, kss: seq<seq<Byte>>, keys: seq<Byte>, ci: nat, ki: nat, lens: seq<nat>)
    requires ReadsAs(d, w, kss) && ci <= |kss| && ki <= |keys| && SPACE !in keys
    requires TriedLens(kss, lens) && StartsAt(keys, ki, JoinFrom(kss, lens, ci))
    ensures Recurse(d, w, ci, ki, keys, None)
    decreases |kss| - ci
  {
    if ki < |keys| {
      var r, plen := ReadingAt(d, w, ci).value, lens[ci];
      TryLengthsAre(|r.keys|, plen);
      StartsAtAppend(keys, ki, kss[ci][..plen], JoinFrom(kss, lens, ci + 1));
      if plen <= |keys| - ki {
        assert SameKeys(r.keys, keys, ki, plen) by { assert SameKeys(kss[ci][..plen], keys, ki, plen); }
        TriedLensRecurse(d, w, kss, keys, ci + 1, ki + plen, lens);
      } else {
        assert SameKeys(r.keys, keys, ki, |keys| - ki) by { assert SameKeys(kss[ci][..plen], keys, ki, |keys| - ki); }
      }
      assert Try(d, w, ci, ki, keys, None, r, plen);
    }
  }

  /** Without markers, the v4 matcher accepts exactly the beginnings of the joins of the
      lengths it tries, for readings of any length. */
  lemma {:induction false} V4AcceptsTriedLens(d: CharTable, w: WordView, kss: seq<seq<Byte>>, keys: seq<Byte>)
    requires ReadsAs(d, w, kss) && SPACE !in keys && forall ks :: ks in kss ==> |ks| > 0
    ensures Matches(d, w, keys, None)
      <==> exists lens :: TriedLens(kss, lens) && StartsAt(keys, 0, JoinFrom(kss, lens, 0))
  {
    if Matches(d, w, keys, None) {
      var lens := RecurseIsTriedLens(d, w, kss, keys, 0, 0);
    }
    if exists lens :: TriedLens(kss, lens) && StartsAt(keys, 0, JoinFrom(kss, lens, 0)) {
      var lens :| TriedLens(kss, lens) && StartsAt(keys, 0, JoinFrom(kss, lens, 0));
      TriedLensRecurse(d, w, kss, keys, 0, 0, lens);
    }
  }

  /** The v2 search finds the word: one of its stored key sequences begins with the keys typed. */
  ghost predicate V2Accepts(full: seq<Byte>, variants: seq<seq<Byte>>, keys: seq<Byte>) {
    keys <= full || exists v :: v in variants && keys <= v
  }

  function FullKeys(kss: seq<seq<Byte>>): seq<Byte> {
    Join(kss)
  }

  lemma {:induction false} FullIsAbbreviation(kss: seq<seq<Byte>>)
    requires forall ks :: ks in kss ==> |ks| > 0
    ensures IsAbbreviation(kss, FullKeys(kss))
  {
    var lens := seq(|kss|, i requires 0 <= i < |kss| => |kss[i]|);
    assert forall j :: 0 <= j < |kss| ==> kss[j] in kss && kss[j][..lens[j]] == kss[j];
    JoinOfCuts(kss, lens, kss, 0);
    assert kss[0..] == kss;
  }

  /** Typing the last syllable in full extends what any cut of it types. */
  lemma {:induction false} FullLastExtends(kss: seq<seq<Byte>>, lens: seq<nat>, i: nat)
    requires LensOf(kss, lens) && i < |kss|
    ensures var n := |kss| - 1;
      LensOf(kss, lens[n := |kss[n]|]) && JoinFrom(kss, lens, i) <= JoinFrom(kss, lens[n := |kss[n]|], i)
    decreases |kss| - i
  {
    var n := |kss| - 1;
    if i == n {
      assert JoinFrom(kss, lens, i) == kss[n][..lens[n]];
      assert JoinFrom(kss, lens[n := |kss[n]|], i) == kss[n];
    } else {
      FullLastExtends(kss, lens, i + 1);
    }
  }

  /** No syllable but the last has more than four keys. */
  predicate ShortButLast(kss: seq<seq<Byte>>) {
    forall i :: 0 <= i < |kss| - 1 ==> |kss[i]| <= 4
  }

  ghost predicate BeginsAbbreviation(kss: seq<seq<Byte>>, keys: seq<Byte>) {
    exists v :: IsAbbreviation(kss, v) && keys <= v
  }

  /** Composing at search time accepts only beginnings of abbreviations, and when no syllable but the last has
      more than four keys all of them. */
  lemma {:induction false} V4AcceptsAbbreviations(d: CharTable, w: WordView, kss: seq<seq<Byte>>, keys: seq<Byte>)
    requires ReadsAs(d, w, kss) && SPACE !in keys && |kss| > 0 && forall ks :: ks in kss ==> |ks| > 0
    ensures Matches(d, w, keys, None) ==> BeginsAbbreviation(kss, keys)
    ensures ShortButLast(kss) ==> (Matches(d, w, keys, None) <==> BeginsAbbreviation(kss, keys))
  {
    V4AcceptsTriedLens(d, w, kss, keys);
    if Matches(d, w, keys, None) {
      var lens :| TriedLens(kss, lens) && StartsAt(keys, 0, JoinFrom(kss, lens, 0));
      assert IsAbbreviation(kss, JoinFrom(kss, lens, 0));
      assert keys <= JoinFrom(kss, lens, 0);
    }
    if BeginsAbbreviation(kss, keys) && ShortButLast(kss) {
      var v :| IsAbbreviation(kss, v) && keys <= v;
      var lens :| LensOf(kss, lens) && v == JoinFrom(kss, lens, 0);
      FullLastExtends(kss, lens, 0);
      var longer := lens[|kss| - 1 := |kss[|kss| - 1]|];
      assert TriedLens(kss, longer);
      assert StartsAt(keys, 0, JoinFrom(kss, longer, 0));
    }
  }

  /** So it accepts what the pre-expanded dictionary stored: when no syllable but the last has more than four
      keys, the same inputs, and never more. */
  lemma {:induction false} V4AcceptsWhatV2Expands(
    d: CharTable, w: WordView, kss: seq<seq<Byte>>, variants: seq<seq<Byte>>, keys: seq<Byte>)
    requires ReadsAs(d, w, kss) && SPACE !in keys && |kss| > 0 && forall ks :: ks in kss ==> |ks| > 0
    requires AreAbbreviations(kss, FullKeys(kss), variants)
    ensures Matches(d, w, keys, None) ==> V2Accepts(FullKeys(kss), variants, keys)
    ensures ShortButLast(kss) ==> (Matches(d, w, keys, None) <==> V2Accepts(FullKeys(kss), variants, keys))
  {
    hide Matches, ReadsAs, IsAbbreviation;
    V4AcceptsAbbreviations(d, w, kss, keys);
    FullIsAbbreviation(kss);
  }

  // ---------------------------------------------------------------- longer syllables

  /** How many keys the syllables from `a` up to `j` take up. */
  function LensSum(lens: seq<nat>, a: nat, j: nat): nat
    requires a <= j <= |lens|
    decreases j - a
  {
    if a == j then 0 else lens[a] + LensSum(lens, a + 1, j)
  }

  lemma {:induction false} LensSumSplit(lens: seq<nat>, a: nat, j: nat)
    requires a <= j < |lens|
    ensures LensSum(lens, a, j + 1) == LensSum(lens, a, j) + lens[j]
    decreases j - a
  {
    if a < j { LensSumSplit(lens, a + 1, j); }
  }

  /** Where key `p` of syllable `j` stands in the join. */
  lemma {:induction false} JoinAt(kss: seq<seq<Byte>>, lens: seq<nat>, a: nat, j: nat, p: nat)
    requires LensOf(kss, lens) && a <= j < |kss| && p < lens[j]
    ensures LensSum(lens, a, j) + p < |JoinFrom(kss, lens, a)|
    ensures JoinFrom(kss, lens, a)[LensSum(lens, a, j) + p] == kss[j][p]
    decreases j - a
  {
    if a < j { JoinAt(kss, lens, a + 1, j, p); }
  }

  /** Each syllable up to `i` takes at least one key. */
  lemma {:induction false} LensSumAtLeast(kss: seq<seq<Byte>>, lens: seq<nat>, i: nat)
    requires LensOf(kss, lens) && i <= |kss|
    ensures LensSum(lens, 0, i) >= i
  {
    if i > 0 {
      LensSumAtLeast(kss, lens, i - 1);
      LensSumSplit(lens, 0, i - 1);
    }
  }

  /** The syllable and key at position `x` of the join, when it lies within the first `m` syllables. */
  lemma {:induction false} Locate(kss: seq<seq<Byte>>, lens: seq<nat>, m: nat, x: nat) returns (j: nat, p: nat)
    requires LensOf(kss, lens) && m <= |kss| && x < LensSum(lens, 0, m)
    ensures j < m && p < lens[j] && x == LensSum(lens, 0, j) + p
  {
    LensSumSplit(lens, 0, m - 1);
    if x < LensSum(lens, 0, m - 1) {
      j, p := Locate(kss, lens, m - 1, x);
    } else {
      j, p := m - 1, x - LensSum(lens, 0, m - 1);
    }
  }

  /** A long syllable `i` that shows where a cut of it ends: its first and third keys differ, and the next
      syllable begins with a key of no syllable before. */
  predicate TellingAt(kss: seq<seq<Byte>>, i: nat)
    requires i + 1 < |kss| && |kss[i]| >= 5 && |kss[i + 1]| > 0
  {
    kss[i][0] != kss[i][2] && forall j :: 0 <= j <= i ==> kss[i + 1][0] !in kss[j]
  }

  /** One key of each syllable, but three of syllable `i`. */
  function ThreeOf(kss: seq<seq<Byte>>, i: nat): (lens: seq<nat>)
    requires i < |kss|
    ensures |lens| == |kss|
  {
    seq(|kss|, j requires 0 <= j < |kss| => if j == i then 3 else 1)
  }

  lemma {:induction false} ThreeOfSums(kss: seq<seq<Byte>>, i: nat, j: nat)
    requires i < |kss| && j <= i + 1
    ensures LensSum(ThreeOf(kss, i), 0, j) == if j <= i then j else i + 3
    decreases j
  {
    if j > 0 {
      ThreeOfSums(kss, i, j - 1);
      LensSumSplit(ThreeOf(kss, i), 0, j - 1);
    }
  }

  /** The first key of each syllable before, three keys of syllable `i`, and the first of the next. */
  lemma {:induction false} ThreeOfKeys(kss: seq<seq<Byte>>, i: nat)
    requires i + 1 < |kss| && |kss[i]| >= 5 && forall ks :: ks in kss ==> |ks| > 0
    ensures var v := JoinFrom(kss, ThreeOf(kss, i), 0);
      && LensOf(kss, ThreeOf(kss, i)) && |v| >= i + 4
      && (forall j :: 0 <= j < i ==> v[j] == kss[j][0])
      && v[i] == kss[i][0] && v[i + 1] == kss[i][1] && v[i + 2] == kss[i][2] && v[i + 3] == kss[i + 1][0]
  {
    var lens := ThreeOf(kss, i);
    assert forall j :: 0 <= j < |kss| ==> kss[j] in kss;
    forall j | 0 <= j <= i + 1 ensures LensSum(lens, 0, j) == if j <= i then j else i + 3 {
      ThreeOfSums(kss, i, j);
    }
    forall j | 0 <= j < i ensures j < |JoinFrom(kss, lens, 0)| && JoinFrom(kss, lens, 0)[j] == kss[j][0] {
      JoinAt(kss, lens, 0, j, 0);
    }
    JoinAt(kss, lens, 0, i, 0);
    JoinAt(kss, lens, 0, i, 1);
    JoinAt(kss, lens, 0, i, 2);
    JoinAt(kss, lens, 0, i + 1, 0);
  }

  /** The first i + 3 of those keys belong to the syllables up to `i`. */
  lemma {:induction false} EarlyKeys(kss: seq<seq<Byte>>, i: nat, x: nat)
    requires i + 1 < |kss| && |kss[i]| >= 5 && TellingAtOk(kss, i) && x < i + 3
    ensures |JoinFrom(kss, ThreeOf(kss, i), 0)| > x && JoinFrom(kss, ThreeOf(kss, i), 0)[x] != kss[i + 1][0]
  {
    ThreeOfKeys(kss, i);
    if x < i { assert kss[x][0] in kss[x]; } else { assert kss[i][x - i] in kss[i]; }
  }

  predicate TellingAtOk(kss: seq<seq<Byte>>, i: nat)
    requires i + 1 < |kss| && |kss[i]| >= 5
  {
    (forall ks :: ks in kss ==> |ks| > 0) && |kss[i + 1]| > 0 && TellingAt(kss, i)
  }

  /** A join that begins with those keys has used up exactly i + 3 of them before syllable i + 1. */
  lemma {:induction false} NextBegins(kss: seq<seq<Byte>>, i: nat, lens: seq<nat>)
    requires i + 1 < |kss| && |kss[i]| >= 5 && TellingAtOk(kss, i) && LensOf(kss, lens)
    requires |JoinFrom(kss, ThreeOf(kss, i), 0)| >= i + 4
    requires JoinFrom(kss, ThreeOf(kss, i), 0)[..i + 4] <= JoinFrom(kss, lens, 0)
    ensures LensSum(lens, 0, i + 1) == i + 3
  {
    hide JoinFrom;
    var v, t := JoinFrom(kss, ThreeOf(kss, i), 0), JoinFrom(kss, lens, 0);
    var upto: nat := LensSum(lens, 0, i + 1);
    assert forall x :: 0 <= x < i + 4 ==> v[..i + 4][x] == t[x] == v[x];
    ThreeOfKeys(kss, i);
    assert upto <= i + 3 by { KeyComesLater(kss, i, lens); }
    if upto < i + 3 {
      JoinAt(kss, lens, 0, i + 1, 0);
      EarlyKeys(kss, i, upto);
    }
  }

  /** The first key of syllable i + 1 is not among those of the syllables before. */
  lemma {:induction false} KeyComesLater(kss: seq<seq<Byte>>, i: nat, lens: seq<nat>)
    requires i + 1 < |kss| && |kss[i]| >= 5 && TellingAtOk(kss, i) && LensOf(kss, lens)
    requires |JoinFrom(kss, lens, 0)| > i + 3 && JoinFrom(kss, lens, 0)[i + 3] == kss[i + 1][0]
    ensures LensSum(lens, 0, i + 1) <= i + 3
  {
    if i + 3 < LensSum(lens, 0, i + 1) {
      var j := KeyOfSome(kss, lens, i + 1, i + 3);
    }
  }

  lemma {:induction false} KeyOfSome(kss: seq<seq<Byte>>, lens: seq<nat>, m: nat, x: nat) returns (j: nat)
    requires LensOf(kss, lens) && m <= |kss| && x < LensSum(lens, 0, m)
    ensures j < m && x < |JoinFrom(kss, lens, 0)| && JoinFrom(kss, lens, 0)[x] in kss[j]
  {
    var p;
    j, p := Locate(kss, lens, m, x);
    JoinAt(kss, lens, 0, j, p);
    assert kss[j][p] in kss[j];
  }

  /** No join of tried prefixes begins with those keys: syllable `i` would have to be cut to one or two keys
      where its third stands. */
  lemma {:induction false} ThreeOfIsNotTried(kss: seq<seq<Byte>>, i: nat, lens: seq<nat>)
    requires i + 1 < |kss| && |kss[i]| >= 5 && TellingAtOk(kss, i) && TriedLens(kss, lens)
    requires |JoinFrom(kss, ThreeOf(kss, i), 0)| >= i + 4
    ensures !(JoinFrom(kss, ThreeOf(kss, i), 0)[..i + 4] <= JoinFrom(kss, lens, 0))
  {
    hide JoinFrom;
    var v, t := JoinFrom(kss, ThreeOf(kss, i), 0), JoinFrom(kss, lens, 0);
    if v[..i + 4] <= t {
      NextBegins(kss, i, lens);
      ThreeOfKeys(kss, i);
      LensSumAtLeast(kss, lens, i);
      LensSumSplit(lens, 0, i);
      assert forall x :: 0 <= x < i + 4 ==> v[..i + 4][x] == t[x] == v[x];
      assert lens[i] <= 2;
      LastCutShows(kss, i, lens);
    }
  }

  lemma {:induction false} LastCutShows(kss: seq<seq<Byte>>, i: nat, lens: seq<nat>)
    requires i < |kss| && LensOf(kss, lens) && lens[i] <= 2 && LensSum(lens, 0, i + 1) == i + 3 && |kss[i]| >= 3
    ensures |JoinFrom(kss, lens, 0)| >= i + 3
    ensures lens[i] == 1 ==> JoinFrom(kss, lens, 0)[i + 2] == kss[i][0]
    ensures lens[i] == 2 ==> JoinFrom(kss, lens, 0)[i + 1] == kss[i][0] && JoinFrom(kss, lens, 0)[i + 2] == kss[i][1]
  {
    LensSumSplit(lens, 0, i);
    JoinAt(kss, lens, 0, i, 0);
    if lens[i] == 2 { JoinAt(kss, lens, 0, i, 1); }
  }

  /** The two dictionaries accept the same inputs for the word. */
  ghost predicate SameInputs(d: CharTable, w: WordView, kss: seq<seq<Byte>>, variants: seq<seq<Byte>>)
    requires WordInTable(d, w)
  {
    forall keys :: SPACE !in keys ==> (Matches(d, w, keys, None) <==> V2Accepts(FullKeys(kss), variants, keys))
  }

  lemma {:induction false} NotTriedNotMatched(d: CharTable, w: WordView, kss: seq<seq<Byte>>, i: nat, keys: seq<Byte>)
    requires ReadsAs(d, w, kss) && i + 1 < |kss| && |kss[i]| >= 5 && TellingAtOk(kss, i) && SPACE !in keys
    requires |JoinFrom(kss, ThreeOf(kss, i), 0)| >= i + 4 && keys == JoinFrom(kss, ThreeOf(kss, i), 0)[..i + 4]
    ensures !Matches(d, w, keys, None)
  {
    hide TellingAt, JoinFrom, ReadsAs;
    V4AcceptsTriedLens(d, w, kss, keys);
    forall lens | TriedLens(kss, lens) ensures !StartsAt(keys, 0, JoinFrom(kss, lens, 0)) {
      StartsIsPrefix(keys, JoinFrom(kss, lens, 0));
      ThreeOfIsNotTried(kss, i, lens);
    }
  }

  lemma {:induction false} StartsIsPrefix(keys: seq<Byte>, v: seq<Byte>)
    ensures StartsAt(keys, 0, v) <==> keys <= v
  {
    if StartsAt(keys, 0, v) { assert forall j :: 0 <= j < |keys| ==> keys[0 + j] == v[j]; }
  }

  lemma {:induction false} ReadsInTable(d: CharTable, w: WordView, kss: seq<seq<Byte>>)
    requires ReadsAs(d, w, kss)
    ensures WordInTable(d, w)
  {
  }

  /** With a telling long syllable before the last, the keys above are stored by v2 and rejected by v4. */
  lemma {:induction false} LongSyllableDiffers(
    d: CharTable, w: WordView, kss: seq<seq<Byte>>, variants: seq<seq<Byte>>, i: nat) returns (keys: seq<Byte>)
    requires ReadsAs(d, w, kss) && AreAbbreviations(kss, FullKeys(kss), variants)
    requires i + 1 < |kss| && |kss[i]| >= 5 && TellingAtOk(kss, i) && forall ks :: ks in kss ==> SPACE !in ks
    ensures |keys| == i + 4 && (forall j :: 0 <= j < i ==> keys[j] == kss[j][0])
    ensures keys[i] == kss[i][0] && keys[i + 1] == kss[i][1] && keys[i + 2] == kss[i][2] && keys[i + 3] == kss[i + 1][0]
    ensures SPACE !in keys && V2Accepts(FullKeys(kss), variants, keys) && !Matches(d, w, keys, None)
  {
    hide ReadsAs, TellingAt, Matches, JoinFrom, ThreeOf, IsAbbreviation;
    ReadsInTable(d, w, kss);
    ThreeOfKeys(kss, i);
    var v := JoinFrom(kss, ThreeOf(kss, i), 0);
    keys := v[..i + 4];
    assert keys <= v && forall x :: 0 <= x < i + 4 ==> keys[x] == v[x];
    ThreeIsAbbreviation(kss, i);
    FirstKeysNoSpace(kss, i, keys);
    NotTriedNotMatched(d, w, kss, i, keys);
  }

  lemma {:induction false} ThreeIsAbbreviation(kss: seq<seq<Byte>>, i: nat)
    requires i < |kss| && |kss[i]| >= 5 && forall ks :: ks in kss ==> |ks| > 0
    ensures LensOf(kss, ThreeOf(kss, i)) && IsAbbreviation(kss, JoinFrom(kss, ThreeOf(kss, i), 0))
  {
    hide JoinFrom;
    assert forall j :: 0 <= j < |kss| ==> kss[j] in kss;
  }

  lemma {:induction false} FirstKeysNoSpace(kss: seq<seq<Byte>>, i: nat, keys: seq<Byte>)
    requires i + 1 < |kss| && |kss[i]| >= 5 && (forall ks :: ks in kss ==> |ks| > 0) && forall ks :: ks in kss ==> SPACE !in ks
    requires |keys| == i + 4 && forall j :: 0 <= j < i ==> keys[j] == kss[j][0]
    requires keys[i] == kss[i][0] && keys[i + 1] == kss[i][1] && keys[i + 2] == kss[i][2] && keys[i + 3] == kss[i + 1][0]
    ensures SPACE !in keys
  {
    assert forall j :: 0 <= j < |kss| ==> kss[j] in kss;
    forall x | 0 <= x < i + 4 ensures keys[x] != SPACE {
      if x < i { assert kss[x][0] in kss[x]; } else if x < i + 3 { assert kss[i][x - i] in kss[i]; }
      else { assert kss[i + 1][0] in kss[i + 1]; }
    }
  }

  /** Every syllable before the last with five or more keys is telling. */
  predicate Telling(kss: seq<seq<Byte>>) {
    && (forall ks :: ks in kss ==> |ks| > 0 && SPACE !in ks)
    && forall i :: 0 <= i < |kss| - 1 && |kss[i]| >= 5 ==> TellingAtOk(kss, i)
  }

  /** For such words the two dictionaries agree on every input if and only if no syllable but the last has
      more than four keys. */
  lemma {:induction false} DictionariesAgreeExactlyWhen(
    d: CharTable, w: WordView, kss: seq<seq<Byte>>, variants: seq<seq<Byte>>)
    requires ReadsAs(d, w, kss) && AreAbbreviations(kss, FullKeys(kss), variants) && |kss| > 0 && Telling(kss)
    ensures SameInputs(d, w, kss, variants) <==> ShortButLast(kss)
  {
    if ShortButLast(kss) {
      forall keys | SPACE !in keys ensures Matches(d, w, keys, None) <==> V2Accepts(FullKeys(kss), variants, keys) {
        V4AcceptsWhatV2Expands(d, w, kss, variants, keys);
      }
    } else {
      var i :| 0 <= i < |kss| - 1 && |kss[i]| > 4;
      var keys := LongSyllableDiffers(d, w, kss, variants, i);
    }
  }

  lemma {:induction false} PlacesDiffer(kss: seq<seq<Byte>>, j: nat, p: nat, k: nat, q: nat)
    requires (forall ks :: ks in kss ==> |ks| > 0) && Distinct(FullKeys(kss))
    requires j <= k < |kss| && p < |kss[j]| && q < |kss[k]| && (j == k ==> p < q)
    ensures kss[j][p] != kss[k][q]
  {
    var lens := FullLens(kss);
    JoinOfCuts(kss, lens, kss, 0);
    assert kss[0..] == kss;
    JoinAt(kss, lens, 0, j, p);
    JoinAt(kss, lens, 0, k, q);
    LensSumSplit(lens, 0, j);
    if j < k { SumsGrow(lens, j, k); }
  }

  function FullLens(kss: seq<seq<Byte>>): (lens: seq<nat>)
    requires forall ks :: ks in kss ==> |ks| > 0
    ensures LensOf(kss, lens) && forall j :: 0 <= j < |kss| ==> lens[j] == |kss[j]| && kss[j][..lens[j]] == kss[j]
  {
    assert forall j :: 0 <= j < |kss| ==> kss[j] in kss;
    seq(|kss|, i requires 0 <= i < |kss| => |kss[i]|)
  }

  /** Words whose keys are pairwise different are telling. */
  lemma {:induction false} DifferentKeysTell(kss: seq<seq<Byte>>)
    requires (forall ks :: ks in kss ==> |ks| > 0 && SPACE !in ks) && Distinct(FullKeys(kss))
    ensures Telling(kss)
  {
    hide FullKeys, Distinct;
    assert forall j :: 0 <= j < |kss| ==> kss[j] in kss;
    forall i | 0 <= i < |kss| - 1 && |kss[i]| >= 5 ensures TellingAt(kss, i) {
      PlacesDiffer(kss, i, 0, i, 2);
      forall j | 0 <= j <= i ensures kss[i + 1][0] !in kss[j] {
        forall p | 0 <= p < |kss[j]| ensures kss[j][p] != kss[i + 1][0] {
          PlacesDiffer(kss, j, p, i + 1, 0);
        }
      }
    }
  }

  lemma {:induction false} SumsGrow(lens: seq<nat>, j: nat, k: nat)
    requires j < k <= |lens|
    ensures LensSum(lens, 0, j + 1) <= LensSum(lens, 0, k)
    decreases k - j
  {
    if j + 1 < k {
      SumsGrow(lens, j, k - 1);
      LensSumSplit(lens, 0, k - 1);
    }
  }

  // ---------------------------------------------------------------- packed positions

  function Clamped(p: int): Byte {
    if p < 0 then 0 else if p > 3 then 3 else p
  }

  /** The byte made of four two-bit values. */
  function Packed(d: seq<Byte>): Byte
    requires |d| == 4 && forall k :: 0 <= k < 4 ==> d[k] < 4
  {
    Pack4(d[0], d[1], d[2], d[3])
  }

  /** Two bits at place `i`. */
  function Placed(p: Byte, i: nat): nat {
    if i == 0 then p else if i == 1 then 4 * p else if i == 2 then 16 * p else 64 * p
  }

  lemma {:induction false} PlacedIsPacked(d: seq<Byte>, i: nat, p: Byte)
    requires |d| == 4 && (forall k :: 0 <= k < 4 ==> d[k] < 4) && i < 4 && d[i] == 0 && p < 4
    ensures Packed(d[i := p]) as int == Packed(d) as int + Placed(p, i)
  {
  }

  lemma {:induction false} PackedBits(d: seq<Byte>)
    requires |d| == 4 && forall k :: 0 <= k < 4 ==> d[k] < 4
    ensures forall k :: 0 <= k < 4 ==> UnpackPos(Packed(d), k) == d[k]
  {
    UnpackPack4(d[0], d[1], d[2], d[3]);
  }

  method PlaceBits(ghost d: seq<Byte>, i: nat, p: Byte, v: Byte) returns (r: Byte)
    requires |d| == 4 && (forall k :: 0 <= k < 4 ==> d[k] < 4) && i < 4 && d[i] == 0 && p < 4
    requires v == Packed(d)
    ensures r == Packed(d[i := p])
  {
    PlacedIsPacked(d, i, p);
    r := v as int + Placed(p, i);
  }

  /** The positions as packed: the first four, clamped, and zeros after them. */
  function PosDigits(pos: seq<int>): (d: seq<Byte>)
    ensures |d| == 4 && forall k :: 0 <= k < 4 ==> d[k] < 4
  {
    seq(4, k requires 0 <= k < 4 => if k < |pos| then Clamped(pos[k]) else 0)
  }

  method NoBits() returns (v: Byte, ghost d: seq<Byte>)
    ensures |d| == 4 && (forall k :: 0 <= k < 4 ==> d[k] == 0) && v == Packed(d)
  {
    v, d := 0, [0, 0, 0, 0];
  }

  method PackEach(pos: seq<int>) returns (v: Byte, ghost d: seq<Byte>)
    ensures |d| == 4 && (forall k :: 0 <= k < 4 ==> d[k] < 4)
    ensures v == Packed(d) && forall k :: 0 <= k < 4 ==> d[k] == if k < |pos| then Clamped(pos[k]) else 0
  {
    v, d := NoBits();
    var n := Min(|pos|, 4);
    for i := 0 to n
      invariant |d| == 4 && (forall k :: 0 <= k < 4 ==> d[k] < 4)
      invariant forall k :: 0 <= k < 4 ==> d[k] == if k < i then Clamped(pos[k]) else 0
      invariant v == Packed(d)
    {
      v := PlaceBits(d, i, Clamped(pos[i]), v);
      d := d[i := Clamped(pos[i])];
    }
  }

  /** Each of the first four positions is kept, clamped to 0..3; the places after them are 0. */
  method PackPhonemePos(pos: seq<int>) returns (v: Byte)
    ensures v == Packed(PosDigits(pos))
    ensures forall k :: 0 <= k < 4 ==> UnpackPos(v, k) == if k < |pos| then Clamped(pos[k]) else 0
  {
    ghost var d;
    v, d := PackEach(pos);
    assert d == PosDigits(pos);
    PackedBits(d);
  }
}
