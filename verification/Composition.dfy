/** The v4 matcher: does a word, composed from the stored readings of its characters,
    accept the keys typed so far?

    `Recurse` is the backtracking matcher; `Typeable` says, without backtracking, what a
    user may type for a word. `MatcherIsExact` proves that they agree. */
module Composition {
  import opened Basics

  const SPACE: Byte := 0x20     // the tone-1 marker key
  const HINT_ANY: Byte := 0xFF

  datatype Reading = Reading(keys: seq<Byte>, posPacked: Byte, tone: Byte, freq: nat)
  datatype CharEntry = CharEntry(utf8: seq<Byte>, readings: seq<Reading>)
  datatype CharTable = CharTable(chars: seq<CharEntry>, hasPos: bool)
  /** `readingIdxs` is None when the record omits the indices: every index is then 0. */
  datatype WordView = WordView(charIds: seq<nat>, readingIdxs: Option<seq<Byte>>, freq: nat)

  predicate WordInTable(d: CharTable, w: WordView) {
    && (forall i :: 0 <= i < |w.charIds| ==> w.charIds[i] < |d.chars|)
    && (w.readingIdxs.Some? ==> |w.readingIdxs.value| == |w.charIds|)
  }

  function ReadingAt(d: CharTable, w: WordView, ci: nat): Option<Reading>
    requires WordInTable(d, w) && ci < |w.charIds|
  {
    var ridx := if w.readingIdxs.Some? then w.readingIdxs.value[ci] else 0;
    var readings := d.chars[w.charIds[ci]].readings;
    if ridx < |readings| then Some(readings[ridx]) else None
  }

  function UnpackPos(packed: Byte, k: nat): Byte {
    if k == 0 then packed % 4
    else if k == 1 then (packed / 4) % 4
    else if k == 2 then (packed / 16) % 4
    else if k == 3 then packed / 64
    else 0
  }

  /** Four two-bit values in a byte. */
  function Pack4(a: Byte, b: Byte, c: Byte, d: Byte): Byte
    requires a < 4 && b < 4 && c < 4 && d < 4
  {
    a as int + 4 * (b as int) + 16 * (c as int) + 64 * (d as int)
  }

  lemma {:induction false} Digits(low: int, m: int, high: int)
    requires 0 <= low < m && 0 <= high && (m == 4 || m == 16 || m == 64)
    ensures (low + m * high) / m == high && (low + m * high) % m == low
  {
  }

  lemma {:induction false} UnpackPack4(a: Byte, b: Byte, c: Byte, d: Byte)
    requires a < 4 && b < 4 && c < 4 && d < 4
    ensures UnpackPos(Pack4(a, b, c, d), 0) == a && UnpackPos(Pack4(a, b, c, d), 1) == b
    ensures UnpackPos(Pack4(a, b, c, d), 2) == c && UnpackPos(Pack4(a, b, c, d), 3) == d
  {
    var i, j, k, l := a as int, b as int, c as int, d as int;
    Digits(i, 4, j + 4 * k + 16 * l);
    Digits(i + 4 * j, 16, k + 4 * l);
    Digits(i + 4 * j + 16 * k, 64, l);
    Digits(j, 4, k + 4 * l);
    Digits(k, 4, l);
  }

  // ---------------------------------------------------------------- the matcher

  /** Push each candidate length that is in range and not yet there. */
  function PushTries(tried: seq<nat>, candidates: seq<int>, klen: nat): seq<nat>
    decreases |candidates|
  {
    if |candidates| == 0 then tried
    else
      var p := candidates[0];
      PushTries(if p < 1 || p > klen || p in tried then tried else tried + [p], candidates[1..], klen)
  }

  /** The reading prefixes tried for one character, longest first, without repeats. */
  function TryLengths(klen: nat): seq<nat> {
    PushTries([], [klen, klen - 1, 2, 1], klen)
  }

  predicate HintsCover(hints: Option<seq<Byte>>, keys: seq<Byte>) {
    hints.Some? ==> |hints.value| == |keys|
  }

  predicate PosOk(d: CharTable, hints: Option<seq<Byte>>, r: Reading, ki: nat, len: nat)
    requires hints.Some? ==> ki + len <= |hints.value|
  {
    d.hasPos && hints.Some? ==>
      forall k :: 0 <= k < len ==>
        hints.value[ki + k] == HINT_ANY || UnpackPos(r.posPacked, k) == hints.value[ki + k]
  }

  function Consumed(r: Reading, plen: nat, ki: nat, keys: seq<Byte>): (n: nat)
    requires ki + plen <= |keys|
    ensures ki + n <= |keys|
  {
    if plen == |r.keys| && r.tone == 1 && ki + plen < |keys| && keys[ki + plen] == SPACE
    then plen + 1 else plen
  }

  predicate Recurse(d: CharTable, w: WordView, ci: nat, ki: nat, keys: seq<Byte>, hints: Option<seq<Byte>>)
    requires WordInTable(d, w) && HintsCover(hints, keys) && ci <= |w.charIds|
    decreases |w.charIds| - ci, 1
  {
    if ki >= |keys| then true
    else if ci >= |w.charIds| then false
    else match ReadingAt(d, w, ci)
      case None => false
      case Some(r) => exists plen :: plen in TryLengths(|r.keys|) && Try(d, w, ci, ki, keys, hints, r, plen)
  }

  /** The bytes compared by memcmp: `len` bytes of the reading against the input at `ki`. */
  predicate SameKeys(stored: seq<Byte>, keys: seq<Byte>, ki: nat, len: nat)
    requires len <= |stored| && ki + len <= |keys|
  {
    forall j :: 0 <= j < len ==> stored[j] == keys[ki + j]
  }

  /** One turn of the loop over prefix lengths. When the input ends within the prefix, only what
      is left of the input is compared, and the word matches. */
  predicate Try(d: CharTable, w: WordView, ci: nat, ki: nat, keys: seq<Byte>, hints: Option<seq<Byte>>,
                r: Reading, plen: nat)
    requires WordInTable(d, w) && HintsCover(hints, keys) && ci < |w.charIds| && ki < |keys|
    decreases |w.charIds| - ci, 0
  {
    var remaining := |keys| - ki;
    && plen <= |r.keys|
    && if plen > remaining then SameKeys(r.keys, keys, ki, remaining) && PosOk(d, hints, r, ki, remaining)
       else
         && SameKeys(r.keys, keys, ki, plen)
         && PosOk(d, hints, r, ki, plen)
         && Recurse(d, w, ci + 1, ki + Consumed(r, plen, ki, keys), keys, hints)
  }

  predicate Matches(d: CharTable, w: WordView, keys: seq<Byte>, hints: Option<seq<Byte>>)
    requires WordInTable(d, w) && HintsCover(hints, keys)
  {
    Recurse(d, w, 0, 0, keys, hints)
  }

  // ---------------------------------------------------------------- what may be typed

  /** One key press: the key, and the phoneme position the dictionary records for it
      (None for the tone-1 marker, which no hint constrains). */
  datatype Stroke = Stroke(key: Byte, pos: Option<Byte>)

  /** How one syllable is typed: how many of its keys, and whether SPACE follows. */
  datatype Cut = Cut(len: nat, mark: bool)

  /** A syllable is typed in full, without its last key, or as its first one or two keys;
      a tone-1 syllable typed in full may be closed with SPACE. */
  predicate ValidCut(r: Reading, c: Cut) {
    && 1 <= c.len <= |r.keys|
    && (c.len >= |r.keys| - 1 || c.len <= 2)
    && (c.mark ==> c.len == |r.keys| && r.tone == 1)
  }

  predicate ValidCuts(rs: seq<Reading>, cuts: seq<Cut>) {
    |cuts| <= |rs| && forall i :: 0 <= i < |cuts| ==> ValidCut(rs[i], cuts[i])
  }

  function SyllableStrokes(r: Reading, c: Cut): seq<Stroke>
    requires c.len <= |r.keys|
  {
    seq(c.len, k requires 0 <= k < c.len => Stroke(r.keys[k], Some(UnpackPos(r.posPacked, k))))
    + if c.mark then [Stroke(SPACE, None)] else []
  }

  function Strokes(rs: seq<Reading>, cuts: seq<Cut>): seq<Stroke>
    requires ValidCuts(rs, cuts)
  {
    if |cuts| == 0 then [] else SyllableStrokes(rs[0], cuts[0]) + Strokes(rs[1..], cuts[1..])
  }

  predicate Fits(d: CharTable, s: Stroke, keys: seq<Byte>, hints: Option<seq<Byte>>, k: nat)
    requires HintsCover(hints, keys) && k < |keys|
  {
    && s.key == keys[k]
    && (d.hasPos && hints.Some? && s.pos.Some? ==> hints.value[k] == HINT_ANY || s.pos.value == hints.value[k])
  }

  /** The input from `ki` on is the first of `strokes`, and every hint agrees with them. */
  predicate Covers(d: CharTable, strokes: seq<Stroke>, keys: seq<Byte>, hints: Option<seq<Byte>>, ki: nat)
    requires HintsCover(hints, keys) && ki <= |keys|
  {
    && |keys| - ki <= |strokes|
    && forall j :: 0 <= j < |keys| - ki ==> Fits(d, strokes[j], keys, hints, ki + j)
  }

  /** The readings of the characters from `ci` on, up to the first that has no such reading. */
  function Resolved(d: CharTable, w: WordView, ci: nat): (rs: seq<Reading>)
    requires WordInTable(d, w) && ci <= |w.charIds|
    ensures |rs| <= |w.charIds| - ci
    decreases |w.charIds| - ci
  {
    if ci == |w.charIds| || ReadingAt(d, w, ci).None? then []
    else [ReadingAt(d, w, ci).value] + Resolved(d, w, ci + 1)
  }

  /** Some way of typing the word begins with `keys`. */
  ghost predicate Typeable(d: CharTable, rs: seq<Reading>, keys: seq<Byte>, hints: Option<seq<Byte>>)
    requires HintsCover(hints, keys)
  {
    exists cuts :: ValidCuts(rs, cuts) && Covers(d, Strokes(rs, cuts), keys, hints, 0)
  }

  /** No stored key is the marker key: key bytes start at 0x21. */
  predicate NoSpaceKeys(d: CharTable) {
    forall c, r :: c in d.chars && r in c.readings ==> SPACE !in r.keys
  }

  // ---------------------------------------------------------------- exactness

  lemma {:induction false} PushTriesAre(tried: seq<nat>, candidates: seq<int>, klen: nat, p: nat)
    ensures p in PushTries(tried, candidates, klen) <==> p in tried || (1 <= p <= klen && p in candidates)
    decreases |candidates|
  {
    if |candidates| > 0 {
      var c := candidates[0];
      var next := if c < 1 || c > klen || c in tried then tried else tried + [c];
      assert candidates == [c] + candidates[1..];
      PushTriesAre(next, candidates[1..], klen, p);
    }
  }

  lemma {:induction false} TryLengthsAre(klen: nat, p: nat)
    ensures p in TryLengths(klen) <==> 1 <= p <= klen && (p >= klen - 1 || p <= 2)
  {
    PushTriesAre([], [klen, klen - 1, 2, 1], klen, p);
  }

  lemma {:induction false} CoversAppend(d: CharTable, a: seq<Stroke>, b: seq<Stroke>, keys: seq<Byte>, hints: Option<seq<Byte>>, ki: nat)
    requires HintsCover(hints, keys) && ki + |a| <= |keys|
    ensures Covers(d, a + b, keys, hints, ki)
      <==> (forall j :: 0 <= j < |a| ==> Fits(d, a[j], keys, hints, ki + j)) && Covers(d, b, keys, hints, ki + |a|)
  {
    var n := |a|;
    if Covers(d, a + b, keys, hints, ki) {
      assert forall j :: 0 <= j < n ==> (a + b)[j] == a[j];
      forall j | 0 <= j < |keys| - (ki + n) ensures Fits(d, b[j], keys, hints, ki + n + j) {
        assert (a + b)[n + j] == b[j] && Fits(d, (a + b)[n + j], keys, hints, ki + (n + j));
      }
    }
    if (forall j :: 0 <= j < n ==> Fits(d, a[j], keys, hints, ki + j)) && Covers(d, b, keys, hints, ki + n) {
      forall j | 0 <= j < |keys| - ki ensures Fits(d, (a + b)[j], keys, hints, ki + j) {
        if j >= n { assert Fits(d, b[j - n], keys, hints, ki + n + (j - n)); }
      }
    }
  }

  lemma {:induction false} CoversLonger(d: CharTable, a: seq<Stroke>, b: seq<Stroke>, keys: seq<Byte>, hints: Option<seq<Byte>>, ki: nat)
    requires HintsCover(hints, keys) && ki <= |keys| <= ki + |a|
    ensures Covers(d, a + b, keys, hints, ki) <==> Covers(d, a, keys, hints, ki)
  {
    assert forall j :: 0 <= j < |keys| - ki ==> (a + b)[j] == a[j];
    if Covers(d, a + b, keys, hints, ki) {
      forall j | 0 <= j < |keys| - ki ensures Fits(d, a[j], keys, hints, ki + j) {
        assert Fits(d, (a + b)[j], keys, hints, ki + j);
      }
    }
  }

  /** The two comparisons of a try, on keys and on hints, are one comparison of strokes. */
  lemma {:induction false} TryComparesStrokes(d: CharTable, r: Reading, c: Cut, keys: seq<Byte>, hints: Option<seq<Byte>>, ki: nat, n: nat)
    requires HintsCover(hints, keys) && n <= c.len <= |r.keys| && ki + n <= |keys|
    ensures SameKeys(r.keys, keys, ki, n) && PosOk(d, hints, r, ki, n)
      <==> forall j :: 0 <= j < n ==> Fits(d, SyllableStrokes(r, c)[j], keys, hints, ki + j)
  {
    var s := SyllableStrokes(r, c);
    assert forall j :: 0 <= j < n ==> s[j] == Stroke(r.keys[j], Some(UnpackPos(r.posPacked, j)));
  }

  lemma {:induction false} StrokesStep(rs: seq<Reading>, c: Cut, rest: seq<Cut>)
    requires |rs| > 0 && ValidCut(rs[0], c) && ValidCuts(rs[1..], rest)
    ensures ValidCuts(rs, [c] + rest)
    ensures Strokes(rs, [c] + rest) == SyllableStrokes(rs[0], c) + Strokes(rs[1..], rest)
  {
    assert forall i :: 0 <= i < |rest| ==> ValidCut(rs[1..][i], rest[i]);
    assert ([c] + rest)[1..] == rest;
  }

  /** When the input goes on after the first syllable, that syllable's keys, hints and marker
      must agree and the other syllables must cover the rest. */
  lemma {:induction false} CoversFirst(d: CharTable, rs: seq<Reading>, c: Cut, rest: seq<Cut>,
                                       keys: seq<Byte>, hints: Option<seq<Byte>>, ki: nat)
    requires HintsCover(hints, keys) && |rs| > 0 && ValidCut(rs[0], c) && ValidCuts(rs[1..], rest)
    requires ki + c.len + (if c.mark then 1 else 0) <= |keys|
    ensures ValidCuts(rs, [c] + rest)
    ensures Covers(d, Strokes(rs, [c] + rest), keys, hints, ki)
      <==> && SameKeys(rs[0].keys, keys, ki, c.len) && PosOk(d, hints, rs[0], ki, c.len)
           && (c.mark ==> keys[ki + c.len] == SPACE)
           && Covers(d, Strokes(rs[1..], rest), keys, hints, ki + c.len + if c.mark then 1 else 0)
  {
    StrokesStep(rs, c, rest);
    var a := SyllableStrokes(rs[0], c);
    CoversAppend(d, a, Strokes(rs[1..], rest), keys, hints, ki);
    TryComparesStrokes(d, rs[0], c, keys, hints, ki, c.len);
    if c.mark {
      assert a[c.len] == Stroke(SPACE, None);
      assert Fits(d, a[c.len], keys, hints, ki + c.len) <==> keys[ki + c.len] == SPACE;
    }
  }

  /** When the input ends within the first syllable's keys, only those keys matter. */
  lemma {:induction false} CoversLast(d: CharTable, rs: seq<Reading>, c: Cut, rest: seq<Cut>,
                                      keys: seq<Byte>, hints: Option<seq<Byte>>, ki: nat)
    requires HintsCover(hints, keys) && |rs| > 0 && ValidCut(rs[0], c) && ValidCuts(rs[1..], rest)
    requires ki <= |keys| <= ki + c.len
    ensures ValidCuts(rs, [c] + rest)
    ensures Covers(d, Strokes(rs, [c] + rest), keys, hints, ki)
      <==> SameKeys(rs[0].keys, keys, ki, |keys| - ki) && PosOk(d, hints, rs[0], ki, |keys| - ki)
  {
    StrokesStep(rs, c, rest);
    CoversLonger(d, SyllableStrokes(rs[0], c), Strokes(rs[1..], rest), keys, hints, ki);
    TryComparesStrokes(d, rs[0], c, keys, hints, ki, |keys| - ki);
  }

  lemma {:induction false} ResolvedStep(d: CharTable, w: WordView, ci: nat)
    requires WordInTable(d, w) && ci < |w.charIds| && ReadingAt(d, w, ci).Some?
    ensures |Resolved(d, w, ci)| > 0
    ensures Resolved(d, w, ci)[0] == ReadingAt(d, w, ci).value && Resolved(d, w, ci)[1..] == Resolved(d, w, ci + 1)
  {
  }

  lemma {:induction false} ResolvedNoSpace(d: CharTable, w: WordView, ci: nat)
    requires WordInTable(d, w) && ci <= |w.charIds| && NoSpaceKeys(d)
    ensures forall r :: r in Resolved(d, w, ci) ==> SPACE !in r.keys
    decreases |w.charIds| - ci
  {
    if ci < |w.charIds| && ReadingAt(d, w, ci).Some? {
      assert ReadingAt(d, w, ci).value in d.chars[w.charIds[ci]].readings;
      ResolvedNoSpace(d, w, ci + 1);
    }
  }

  /** The input cannot go on with SPACE where a syllable is due. */
  lemma {:induction false} NextStrokeIsStored(d: CharTable, rs: seq<Reading>, cuts: seq<Cut>,
                                              keys: seq<Byte>, hints: Option<seq<Byte>>, ki: nat)
    requires ValidCuts(rs, cuts) && forall r :: r in rs ==> SPACE !in r.keys
    requires HintsCover(hints, keys) && ki < |keys| && Covers(d, Strokes(rs, cuts), keys, hints, ki)
    ensures keys[ki] != SPACE
  {
    assert SyllableStrokes(rs[0], cuts[0])[0] == Stroke(rs[0].keys[0], Some(UnpackPos(rs[0].posPacked, 0)));
    assert Fits(d, Strokes(rs, cuts)[0], keys, hints, ki + 0);
  }

  /** The step of `RecurseSound`: an accepted prefix length is the first cut. */
  lemma {:induction false} TrySound(d: CharTable, rs: seq<Reading>, plen: nat, rest: seq<Cut>,
                                    keys: seq<Byte>, hints: Option<seq<Byte>>, ki: nat) returns (cuts: seq<Cut>)
    requires HintsCover(hints, keys) && ki < |keys| && |rs| > 0 && ValidCut(rs[0], Cut(plen, false))
    requires var n := Min(plen, |keys| - ki);
      SameKeys(rs[0].keys, keys, ki, n) && PosOk(d, hints, rs[0], ki, n)
    requires plen <= |keys| - ki ==>
      && ValidCuts(rs[1..], rest)
      && Covers(d, Strokes(rs[1..], rest), keys, hints, ki + Consumed(rs[0], plen, ki, keys))
    ensures ValidCuts(rs, cuts) && Covers(d, Strokes(rs, cuts), keys, hints, ki)
  {
    if plen > |keys| - ki {
      CoversLast(d, rs, Cut(plen, false), [], keys, hints, ki);
      cuts := [Cut(plen, false)] + [];
    } else {
      var c := Cut(plen, Consumed(rs[0], plen, ki, keys) > plen);
      CoversFirst(d, rs, c, rest, keys, hints, ki);
      cuts := [c] + rest;
    }
  }

  /** A match found by the matcher is one the user may type: the lengths it settled on are the cuts. */
  lemma {:induction false} RecurseSound(
    d: CharTable, w: WordView, ci: nat, ki: nat, keys: seq<Byte>, hints: Option<seq<Byte>>) returns (cuts: seq<Cut>)
    requires WordInTable(d, w) && HintsCover(hints, keys) && ci <= |w.charIds| && ki <= |keys|
    requires Recurse(d, w, ci, ki, keys, hints)
    ensures ValidCuts(Resolved(d, w, ci), cuts)
    ensures Covers(d, Strokes(Resolved(d, w, ci), cuts), keys, hints, ki)
    decreases |w.charIds| - ci
  {
    if ki == |keys| {
      return [];
    }
    ResolvedStep(d, w, ci);
    var r := ReadingAt(d, w, ci).value;
    var plen :| plen in TryLengths(|r.keys|) && Try(d, w, ci, ki, keys, hints, r, plen);
    TryLengthsAre(|r.keys|, plen);
    var rest := [];
    if plen <= |keys| - ki {
      rest := RecurseSound(d, w, ci + 1, ki + Consumed(r, plen, ki, keys), keys, hints);
    }
    cuts := TrySound(d, Resolved(d, w, ci), plen, rest, keys, hints, ki);
  }

  /** The step of `RecurseComplete`: the first cut is an accepted prefix length, and the marker
      is taken exactly when the user meant one, since no stored key is SPACE. */
  lemma {:induction false} TryComplete(d: CharTable, rs: seq<Reading>, cuts: seq<Cut>,
                                       keys: seq<Byte>, hints: Option<seq<Byte>>, ki: nat)
    requires HintsCover(hints, keys) && ki < |keys| && ValidCuts(rs, cuts)
    requires forall r :: r in rs ==> SPACE !in r.keys
    requires Covers(d, Strokes(rs, cuts), keys, hints, ki)
    ensures |cuts| > 0 && ValidCut(rs[0], cuts[0])
    ensures var n := Min(cuts[0].len, |keys| - ki);
      SameKeys(rs[0].keys, keys, ki, n) && PosOk(d, hints, rs[0], ki, n)
    ensures cuts[0].len <= |keys| - ki ==>
      && ValidCuts(rs[1..], cuts[1..])
      && Covers(d, Strokes(rs[1..], cuts[1..]), keys, hints, ki + Consumed(rs[0], cuts[0].len, ki, keys))
  {
    var c, rest := cuts[0], cuts[1..];
    assert cuts == [c] + rest;
    if c.len >= |keys| - ki {
      CoversLast(d, rs, c, rest, keys, hints, ki);
    } else {
      CoversFirst(d, rs, c, rest, keys, hints, ki);
      if !c.mark && keys[ki + c.len] == SPACE {
        // the next stroke would be a stored key of the next syllable
        NextStrokeIsStored(d, rs[1..], rest, keys, hints, ki + c.len);
      }
    }
  }

  /** Whatever the user may type for the word, the matcher accepts: backtracking misses nothing. */
  lemma {:induction false} RecurseComplete(
    d: CharTable, w: WordView, ci: nat, ki: nat, keys: seq<Byte>, hints: Option<seq<Byte>>, cuts: seq<Cut>)
    requires WordInTable(d, w) && HintsCover(hints, keys) && ci <= |w.charIds| && ki <= |keys| && NoSpaceKeys(d)
    requires ValidCuts(Resolved(d, w, ci), cuts)
    requires Covers(d, Strokes(Resolved(d, w, ci), cuts), keys, hints, ki)
    ensures Recurse(d, w, ci, ki, keys, hints)
    decreases |w.charIds| - ci
  {
    hide SameKeys, PosOk, TryLengths, Covers, Strokes;
    if ki == |keys| { return; }
    ResolvedNoSpace(d, w, ci);
    TryComplete(d, Resolved(d, w, ci), cuts, keys, hints, ki);
    ResolvedStep(d, w, ci);
    var r, plen := ReadingAt(d, w, ci).value, cuts[0].len;
    TryLengthsAre(|r.keys|, plen);
    if plen <= |keys| - ki {
      RecurseComplete(d, w, ci + 1, ki + Consumed(r, plen, ki, keys), keys, hints, cuts[1..]);
    }
    assert Try(d, w, ci, ki, keys, hints, r, plen);
  }

  /** The matcher accepts exactly what may be typed. */
  lemma {:induction false} MatcherIsExact(d: CharTable, w: WordView, keys: seq<Byte>, hints: Option<seq<Byte>>)
    requires WordInTable(d, w) && HintsCover(hints, keys) && NoSpaceKeys(d)
    ensures Matches(d, w, keys, hints) <==> Typeable(d, Resolved(d, w, 0), keys, hints)
  {
    if Matches(d, w, keys, hints) {
      var cuts := RecurseSound(d, w, 0, 0, keys, hints);
    }
    if Typeable(d, Resolved(d, w, 0), keys, hints) {
      var cuts :| ValidCuts(Resolved(d, w, 0), cuts) && Covers(d, Strokes(Resolved(d, w, 0), cuts), keys, hints, 0);
      RecurseComplete(d, w, 0, 0, keys, hints, cuts);
    }
  }

  // ---------------------------------------------------------------- fewer keys, looser hints

  /** Each hint is kept or dropped to "any". */
  predicate Loosens(looser: Option<seq<Byte>>, hints: Option<seq<Byte>>) {
    if looser.None? || hints.None? then looser.None?
    else
      && |looser.value| == |hints.value|
      && forall k :: 0 <= k < |hints.value| ==> looser.value[k] == HINT_ANY || looser.value[k] == hints.value[k]
  }

  function TakeHints(hints: Option<seq<Byte>>, n: nat): Option<seq<Byte>>
    requires hints.Some? ==> n <= |hints.value|
  {
    if hints.Some? then Some(hints.value[..n]) else None
  }

  lemma {:induction false} RecursePrefix(
    d: CharTable, w: WordView, ci: nat, ki: nat, keys: seq<Byte>, hints: Option<seq<Byte>>, n: nat)
    requires WordInTable(d, w) && HintsCover(hints, keys) && ci <= |w.charIds| && ki <= n <= |keys|
    requires Recurse(d, w, ci, ki, keys, hints)
    ensures Recurse(d, w, ci, ki, keys[..n], TakeHints(hints, n))
    decreases |w.charIds| - ci
  {
    if ki < n {
      var r := ReadingAt(d, w, ci).value;
      var plen :| plen in TryLengths(|r.keys|) && Try(d, w, ci, ki, keys, hints, r, plen);
      if ki + plen < n {
        RecursePrefix(d, w, ci + 1, ki + Consumed(r, plen, ki, keys), keys, hints, n);
      }
      assert Try(d, w, ci, ki, keys[..n], TakeHints(hints, n), r, plen);
    }
  }

  lemma {:induction false} RecurseLooser(
    d: CharTable, w: WordView, ci: nat, ki: nat, keys: seq<Byte>, hints: Option<seq<Byte>>, looser: Option<seq<Byte>>)
    requires WordInTable(d, w) && HintsCover(hints, keys) && ci <= |w.charIds| && ki <= |keys|
    requires Loosens(looser, hints)
    requires Recurse(d, w, ci, ki, keys, hints)
    ensures Recurse(d, w, ci, ki, keys, looser)
    decreases |w.charIds| - ci
  {
    if ki < |keys| {
      var r := ReadingAt(d, w, ci).value;
      var plen :| plen in TryLengths(|r.keys|) && Try(d, w, ci, ki, keys, hints, r, plen);
      if plen <= |keys| - ki {
        RecurseLooser(d, w, ci + 1, ki + Consumed(r, plen, ki, keys), keys, hints, looser);
      }
      assert Try(d, w, ci, ki, keys, looser, r, plen);
    }
  }

  /** A word that matches still matches when the user has typed fewer keys, and when hints are
      dropped: markers already consumed and strict hints do not break this. */
  lemma {:induction false} MatchClosed(
    d: CharTable, w: WordView, keys: seq<Byte>, hints: Option<seq<Byte>>, n: nat, looser: Option<seq<Byte>>)
    requires WordInTable(d, w) && HintsCover(hints, keys) && n <= |keys|
    requires Matches(d, w, keys, hints) && Loosens(looser, TakeHints(hints, n))
    ensures Matches(d, w, keys[..n], looser)
  {
    RecursePrefix(d, w, 0, 0, keys, hints, n);
    RecurseLooser(d, w, 0, 0, keys[..n], TakeHints(hints, n), looser);
  }

  lemma {:induction false} RecurseNoHints(
    d: CharTable, w: WordView, ci: nat, ki: nat, keys: seq<Byte>, hints: Option<seq<Byte>>)
    requires WordInTable(d, w) && HintsCover(hints, keys) && ci <= |w.charIds| && ki <= |keys|
    requires !d.hasPos || hints.None? || forall k :: 0 <= k < |keys| ==> hints.value[k] == HINT_ANY
    ensures Recurse(d, w, ci, ki, keys, hints) <==> Recurse(d, w, ci, ki, keys, None)
    decreases |w.charIds| - ci
  {
    if ki < |keys| && ci < |w.charIds| && ReadingAt(d, w, ci).Some? {
      var r := ReadingAt(d, w, ci).value;
      forall plen | plen in TryLengths(|r.keys|)
        ensures Try(d, w, ci, ki, keys, hints, r, plen) <==> Try(d, w, ci, ki, keys, None, r, plen)
      {
        if plen <= |keys| - ki && plen <= |r.keys| {
          RecurseNoHints(d, w, ci + 1, ki + Consumed(r, plen, ki, keys), keys, hints);
        }
      }
    }
  }

  /** No hints, hints that all say "any", and any hints on a dictionary without positions
      are the same search. */
  lemma {:induction false} NoHintsMatch(d: CharTable, w: WordView, keys: seq<Byte>, hints: Option<seq<Byte>>)
    requires WordInTable(d, w) && HintsCover(hints, keys)
    requires !d.hasPos || hints.None? || forall k :: 0 <= k < |keys| ==> hints.value[k] == HINT_ANY
    ensures Matches(d, w, keys, hints) <==> Matches(d, w, keys, None)
  {
    RecurseNoHints(d, w, 0, 0, keys, hints);
  }
}
