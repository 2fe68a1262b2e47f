/** The search as a plain scan, for any dictionary; and with it a run of the input method that offers one
    word twice. */
module OfferedTwice {
  import opened Basics
  import opened Sorting
  import opened Composition
  import opened LegacySearch
  import opened Lru
  import opened ImeKeys
  import opened SentText
  import opened ImeMachine
  import opened WordStrings
  import opened OfferedRows
  import ImePending

  // ---------------------------------------------------------------- a full scan

  /** The ids below `n` that are hits. */
  ghost function FittingIds(hit: nat -> bool, n: nat): (ids: seq<nat>)
    ensures |ids| <= n && Distinct(ids) && forall id: nat :: id in ids <==> id < n && hit(id)
  {
    if n == 0 then []
    else
      var m: nat := n - 1;
      var rest := FittingIds(hit, m);
      if hit(m) then rest + [m] else rest
  }

  /** The most frequent of them. */
  ghost function Best(hit: nat -> bool, f: nat -> Candidate, n: nat, max: nat): (ids: seq<nat>)
    ensures |ids| <= n && |ids| <= max
  {
    var sorted := SortDesc(FittingIds(hit, n), I.ByFreq(f));
    sorted[..Min(|sorted|, max)]
  }

  lemma {:induction false} BeyondFirst(s: seq<nat>, n: nat, id: nat) returns (k: nat)
    requires n <= |s| && id in s && id !in s[..n]
    ensures n <= k < |s| && s[k] == id
  {
    assert s == s[..n] + s[n..];
    var j :| 0 <= j < |s[n..]| && s[n..][j] == id;
    k := n + j;
  }

  lemma {:induction false} FirstAreBest(s: seq<nat>, f: nat -> Candidate, n: nat, id: nat)
    requires Descending(s, I.ByFreq(f)) && n <= |s| && id in s && id !in s[..n]
    ensures n < |s| && forall i :: 0 <= i < n ==> f(id).freq <= f(s[i]).freq
  {
    var k := BeyondFirst(s, n, id);
    assert forall i :: 0 <= i < n ==> I.ByFreq(f)(s[i]) >= I.ByFreq(f)(s[k]);
  }

  lemma {:induction false} FirstDescend(s: seq<nat>, f: nat -> Candidate, n: nat)
    requires Descending(s, I.ByFreq(f)) && n <= |s|
    ensures Descending(I.MapTo(s[..n], f), CandFreq())
  {
    var res := I.MapTo(s[..n], f);
    forall i, j | 0 <= i <= j < |res| ensures CandFreq()(res[i]) >= CandFreq()(res[j]) {
      assert I.ByFreq(f)(s[i]) >= I.ByFreq(f)(s[j]);
    }
  }

  lemma {:induction false} BestIsTop(hit: nat -> bool, f: nat -> Candidate, n: nat, max: nat)
    requires forall id: nat :: hit(id) ==> id < n
    ensures I.TopHits(I.MapTo(Best(hit, f, n, max), f), Best(hit, f, n, max), max, hit, f)
  {
    hide SortDesc, Descending;
    var ids, sorted, best := FittingIds(hit, n), SortDesc(FittingIds(hit, n), I.ByFreq(f)), Best(hit, f, n, max);
    SortDescKeeps(ids, I.ByFreq(f));
    FirstDescend(sorted, f, |best|);
    assert sorted == best + sorted[|best|..];
    assert forall id :: id in best ==> id in sorted;
    forall id: nat | hit(id) && id !in best
      ensures |best| == max && forall i :: 0 <= i < |best| ==> f(id).freq <= f(best[i]).freq
    {
      FirstAreBest(sorted, f, |best|, id);
    }
  }

  /** An engine that scans the whole dictionary. */
  ghost function FullScan(image: I.Image): (seq<Byte>, seq<Byte>, int, nat) -> seq<Candidate> {
    (keys: seq<Byte>, hints: seq<Byte>, target: int, max: nat) =>
      if |hints| != |keys| then []
      else if target == 1 then ScanChars(image, keys, hints, max)
      else ScanWords(image, keys, hints, target, max)
  }

  ghost function ScanChars(image: I.Image, keys: seq<Byte>, hints: seq<Byte>, max: nat): (r: seq<Candidate>)
    requires |hints| == |keys|
    ensures |r| <= max && |r| <= |image.table.chars|
  {
    var f := I.CharCand(image, keys, Some(hints));
    I.MapTo(Best(I.CharHit(image, keys, Some(hints)), f, |image.table.chars|, Min(max, 256)), f)
  }

  ghost function ScanWords(image: I.Image, keys: seq<Byte>, hints: seq<Byte>, target: int, max: nat): (r: seq<Candidate>)
    requires |hints| == |keys|
    ensures |r| <= max && |r| <= |image.words|
  {
    var f := I.WordCand(image);
    I.MapTo(Best(I.WordHit(image, keys, Some(hints), target), f, |image.words|, max), f)
  }

  /** Every dictionary has an engine that answers as the indexed search is proved to. */
  lemma {:induction false} FullScanServes(image: I.Image, syllables: seq<Byte> -> nat)
    ensures Serves(Composer(FullScan(image), syllables), image)
  {
    hide AnswersWith, Best, ScanChars, ScanWords;
    var c := Composer(FullScan(image), syllables);
    forall keys, hints, target, max | |keys| == |hints| && |keys| > 0
      ensures Answers(c, image, keys, hints, target, max)
    {
      ScanAnswers(c, image, keys, hints, target, max);
    }
  }

  lemma {:induction false} ScanIsShort(image: I.Image, keys: seq<Byte>, hints: seq<Byte>, target: int, max: nat)
    ensures |FullScan(image)(keys, hints, target, max)| <= max
    ensures |FullScan(image)(keys, hints, target, max)| <= if target == 1 then |image.table.chars| else |image.words|
  {
  }

  lemma {:induction false} ScanAnswers(c: Composer, image: I.Image, keys: seq<Byte>, hints: seq<Byte>, target: int, max: nat)
    requires |hints| == |keys| && c.search == FullScan(image)
    ensures Answers(c, image, keys, hints, target, max)
  {
    hide Best, I.TopHits;
    if target == 1 {
      var hit, f := I.CharHit(image, keys, Some(hints)), I.CharCand(image, keys, Some(hints));
      assert c.search(keys, hints, 1, max) == ScanChars(image, keys, hints, max);
      BestIsTop(hit, f, |image.table.chars|, Min(max, 256));
      assert AnswersWith(c, image, keys, hints, target, max, Best(hit, f, |image.table.chars|, Min(max, 256)));
    } else {
      var hit, f := I.WordHit(image, keys, Some(hints), target), I.WordCand(image);
      BestIsTop(hit, f, |image.words|, max);
      assert AnswersWith(c, image, keys, hints, target, max, Best(hit, f, |image.words|, max));
    }
  }

  // ---------------------------------------------------------------- words of one character repeated

  const EIGHT := CharEntry([0xE5, 0x85, 0xAB], [Reading([0x21, 0x24], 0, 1, 100)])
  const EIGHT_KEY: Byte := 0x21

  function Repeated(n: nat): (w: WordView)
    ensures |w.charIds| == n && w.readingIdxs.None? && forall i :: 0 <= i < n ==> w.charIds[i] == 0
  {
    WordView(seq(n, _ => 0), None, 1)
  }

  /** One character, and the words of it ten and eleven times over. */
  function Eights(): I.Image {
    I.Image(CharTable([EIGHT], true), [Repeated(10), Repeated(11)], [], [], [], [], [])
  }

  predicate FirstKeys(keys: seq<Byte>, hints: seq<Byte>) {
    |hints| == |keys| && forall i :: 0 <= i < |keys| ==> keys[i] == EIGHT_KEY && hints[i] == HINT_ANY
  }

  /** Typing the first key again and again matches one more character each time. */
  lemma {:induction false} FirstKeysMatch(n: nat, ci: nat, keys: seq<Byte>, hints: seq<Byte>)
    requires FirstKeys(keys, hints) && |keys| <= n && ci <= n
    ensures WordInTable(Eights().table, Repeated(n))
    ensures Recurse(Eights().table, Repeated(n), ci, ci, keys, Some(hints))
    decreases n - ci
  {
    if ci < |keys| {
      var d, w := Eights().table, Repeated(n);
      var r := EIGHT.readings[0];
      assert ReadingAt(d, w, ci) == Some(r);
      TryLengthsAre(|r.keys|, 1);
      FirstKeysMatch(n, ci + 1, keys, hints);
      assert Try(d, w, ci, ci, keys, Some(hints), r, 1);
    }
  }

  lemma {:induction false} EightsShowAlike()
    ensures CollideAt(Eights(), 0, 1)
  {
    var image := Eights();
    TenFit(image.table, image.words[0], 0);
    TenFit(image.table, image.words[1], 0);
    assert image.words[0].charIds[..10] == image.words[1].charIds[..10];
  }

  lemma {:induction false} EightsFit(keys: seq<Byte>, hints: seq<Byte>)
    requires FirstKeys(keys, hints) && |keys| == 5
    ensures BothFit(Eights(), keys, hints, 0, 1)
  {
    hide Recurse;
    FirstKeysMatch(10, 0, keys, hints);
    FirstKeysMatch(11, 0, keys, hints);
    assert I.Hit(Eights(), keys, Some(hints), -1, 0) && I.Hit(Eights(), keys, Some(hints), -1, 1);
  }

  lemma {:induction false} EightsCollide(keys: seq<Byte>, hints: seq<Byte>)
    requires FirstKeys(keys, hints) && |keys| == 5
    ensures CollidingWords(Eights(), keys, hints)
  {
    hide CollideAt, BothFit, Eights;
    EightsShowAlike();
    EightsFit(keys, hints);
  }

  lemma {:induction false} EightsOk()
    ensures TableOk(Eights())
  {
    assert Utf8Char(EIGHT.utf8);
  }

  // ---------------------------------------------------------------- the run

  ghost function EightsEnv(): Env {
    Env(None, None, Some(Composer(FullScan(Eights()), _ => 0)))
  }

  lemma {:induction false} EightsEnvOk()
    ensures EnvOk(EightsEnv()) && Serves(EightsEnv().composer.value, Eights())
  {
    FullScanServes(Eights(), _ => 0);
    forall k, h, target, max: nat ensures |FullScan(Eights())(k, h, target, max)| <= max {
      ScanIsShort(Eights(), k, h, target, max);
    }
  }

  const FIRST_PRESS := Key(0x01, true, 0, 0)

  function Presses(n: nat): (events: seq<Event>)
    ensures |events| == n
  {
    seq(n, _ => FIRST_PRESS)
  }

  predicate Typed(s: State, n: nat) {
    && FirstKeys(s.keys, s.hints) && |s.keys| == n && s.mode == SmartZh && s.lru == [] && s.tap.key == KEY_NONE && !s.pickerOpen
  }

  /** Pressing the first key `n` times leaves it pending `n` times. */
  lemma {:induction false} PressesType(env: Env, n: nat)
    requires EnvOk(env) && n <= 5
    ensures Inv(Initial([]))
    ensures Typed(Run(env, Initial([]), Presses(n)), n)
  {
    hide Step, Inv;
    EveryRunIsSafe(env, [], Presses(n));
    if n > 0 {
      PressesType(env, n - 1);
      assert Presses(n)[..n - 1] == Presses(n - 1);
      EveryRunIsSafe(env, [], Presses(n - 1));
      ImePending.ShortPressAdds(env, Run(env, Initial([]), Presses(n - 1)), 0x01, 0);
    }
  }

  lemma {:induction false} FiveKeysCount(keys: seq<Byte>, hints: seq<Byte>)
    requires FirstKeys(keys, hints)
    ensures Positions(EightsEnv().composer.value, keys) == |keys|
  {
    Syllables.InitialsCountEach(keys, Syllables.Outside);
  }

  lemma {:induction false} EightsListIsShort(s: State)
    requires Typed(s, 5) && EnvOk(EightsEnv())
    ensures LruOk(s.lru) && |Searched(EightsEnv(), s).rows| < MAX_CANDIDATES
  {
    hide BucketRows, FullScan, Positions;
    FiveKeysCount(s.keys, s.hints);
    var c := EightsEnv().composer.value;
    ScanIsShort(Eights(), s.keys[..1], s.hints[..1], 1, MAX_CANDIDATES);
    ScanIsShort(Eights(), s.keys, s.hints, -1, MAX_CANDIDATES - |CharsFor(c, s.keys, s.hints)|);
    assert Lookup([], s.keys, Some(s.hints), MAX_CANDIDATES) == [];
  }

  /** It happens from start-up: over a dictionary with a character repeated ten times and eleven times, five
      presses of its first key list the same text twice. */
  lemma {:induction false} OfferedTwiceIsReachable() returns (s: State)
    ensures EnvOk(EightsEnv()) && Serves(EightsEnv().composer.value, Eights()) && TableOk(Eights())
    ensures Inv(Initial([])) && s == Run(EightsEnv(), Initial([]), Presses(5))
    ensures |s.hints| == |s.keys| && MayOfferTwice(EightsEnv(), s, Eights()) && !DistinctRows(s.rows)
  {
    hide Step, Inv, Searched, EightsEnv, Serves, TableOk, CollidingWords, Eights;
    EightsEnvOk();
    EightsOk();
    EveryRunIsSafe(EightsEnv(), [], Presses(5));
    s := Run(EightsEnv(), Initial([]), Presses(5));
    PressesType(EightsEnv(), 5);
    PressesType(EightsEnv(), 4);
    LastPressSearches(EightsEnv());
    EightsListIsShort(s);
    EightsMayOffer(s);
    WordsAreOfferedTwiceExactlyWhen(EightsEnv(), s, Eights());
  }

  lemma {:induction false} EightsMayOffer(s: State)
    requires Typed(s, 5) && KeysOk(s.keys, s.hints) && Serves(EightsEnv().composer.value, Eights()) && TableOk(Eights())
    ensures Served(EightsEnv(), s, Eights()) && MayOfferTwice(EightsEnv(), s, Eights())
  {
    hide Serves, TableOk, CollidingWords, Eights, FullScan, Positions;
    FiveKeysCount(s.keys, s.hints);
    EightsCollide(s.keys, s.hints);
  }

  lemma {:induction false} LastPressSearches(env: Env)
    requires EnvOk(env)
    ensures Inv(Initial([]))
    ensures var s := Run(env, Initial([]), Presses(5)); Inv(s) && KeysOk(s.keys, s.hints) && LruOk(s.lru) && s.rows == Searched(env, s).rows
  {
    hide Step, Searched, Spoken;
    EveryRunIsSafe(env, [], Presses(4));
    EveryRunIsSafe(env, [], Presses(5));
    PressesType(env, 4);
    assert Presses(5)[..4] == Presses(4);
    ImePending.ShortPressSearches(env, Run(env, Initial([]), Presses(4)), 0x01, 0);
  }
}
