/** Keys pressed again and again: long presses ask for one phoneme of the key after the other, taps offer one label
    after the other, and both go round. */
module ImeKeyLaws {
  import opened Basics
  import opened Bytes
  import opened ImeKeys
  import opened SentText
  import opened ImeMachine
  import opened ImeLaws

  /** Input keys are in four rows of six codes, of which the last is another key's. */
  lemma {:induction false} CodesAreInRows(code: Byte, slot: nat)
    ensures SlotOf(code) == Some(slot) <==> slot < 20 && code as int == slot / 5 * 6 + slot % 5 + 1
  {
  }

  // ---------------------------------------------------------------- long presses

  /** Less than 800 ms later, on a clock that wraps. */
  predicate Soon(before: U32, now: U32) {
    (now - before) % 0x1_0000_0000 < 800
  }

  predicate InTime(times: seq<U32>) {
    forall i :: 0 <= i < |times| - 1 ==> Soon(times[i], times[i + 1])
  }

  /** Chinese, no cycle, nothing else under way, and room for a key. */
  predicate Idle(s: State) {
    s.mode == SmartZh && !s.pickerOpen && s.tap.key == KEY_NONE && s.cycle.byteIndex == -1 && |s.keys| < MAX_KEY_SEQ
  }

  /** The key of the slot has been added to what was pending in `s`, and asks for phoneme `p`. */
  predicate AsksFor(r: State, s: State, slot: nat, p: nat, now: U32)
    requires slot < SLOTS && p < 3
  {
    r.mode == SmartZh && !r.pickerOpen && r.tap.key == KEY_NONE && r.cycle == Cycle(|s.keys|, slot, p, now)
    && r.keys == s.keys + [KEY_BASE + slot] && r.hints == s.hints + [p] && r.said == s.said && r.lru == s.lru
  }

  lemma {:induction false} FirstLongPress(env: Env, s: State, code: Byte, now: U32)
    requires EnvOk(env) && Inv(s) && Idle(s) && SlotOf(code).Some?
    ensures AsksFor(Step(env, s, Key(code, true, 1, now)), s, SlotOf(code).value, 0, now)
  {
    hide Searched, Spoken, KeysOk, RowsOk, LruOk;
    InvAllows(s);
    var slot := SlotOf(code).value;
    var t := Appended(s, KEY_BASE + slot, 0).(cycle := Cycle(|s.keys|, slot, 0, now), nowMs := now);
    SearchSaysNothing(env, t);
  }

  lemma {:induction false} NextLongPress(env: Env, s: State, r: State, code: Byte, p: nat, before: U32, now: U32)
    requires EnvOk(env) && Inv(r) && SlotOf(code).Some? && p < 3 && |s.hints| == |s.keys|
    requires AsksFor(r, s, SlotOf(code).value, p, before) && Soon(before, now)
    ensures AsksFor(Step(env, r, Key(code, true, 1, now)), s, SlotOf(code).value, (p + 1) % PhonemeCount(SlotOf(code).value), now)
  {
    hide Searched, Spoken, KeysOk, RowsOk, LruOk;
    InvAllows(r);
    var slot := SlotOf(code).value;
    var q := (p + 1) % PhonemeCount(slot);
    WrappedDifference(now, before);
    var t := r.(cycle := Cycle(|s.keys|, slot, q, now), hints := r.hints[|s.keys| := q], nowMs := now);
    assert t.hints == s.hints + [q];
    SearchSaysNothing(env, t);
  }

  ghost function Held(env: Env, s: State, code: Byte, times: seq<U32>): (r: State)
    requires EnvOk(env) && Inv(s)
    ensures Inv(r)
  {
    Run(env, s, seq(|times|, i requires 0 <= i < |times| => Key(code, true, 1, times[i])))
  }

  lemma {:induction false} HeldOnce(env: Env, s: State, code: Byte, times: seq<U32>)
    requires EnvOk(env) && Inv(s) && |times| > 0
    ensures var n := |times| - 1;
      InvAllowing(Held(env, s, code, times[..n]))
      && Held(env, s, code, times) == Step(env, Held(env, s, code, times[..n]), Key(code, true, 1, times[n]))
  {
    hide Step, Inv, Run;
    var n := |times| - 1;
    var before := times[..n];
    var events := seq(n, i requires 0 <= i < n => Key(code, true, 1, before[i]));
    RunThen(env, s, events, Key(code, true, 1, times[n]));
    assert events + [Key(code, true, 1, times[n])] == seq(|times|, i requires 0 <= i < |times| => Key(code, true, 1, times[i]));
  }

  /** Long presses of one key, each soon after the one before, add the key once and ask for its phonemes in turn. */
  lemma {:induction false} LongPressesGoRound(env: Env, s: State, code: Byte, times: seq<U32>)
    requires EnvOk(env) && Inv(s) && Idle(s) && SlotOf(code).Some? && |times| > 0 && InTime(times)
    ensures var slot, n := SlotOf(code).value, |times| - 1;
      AsksFor(Held(env, s, code, times), s, slot, n % PhonemeCount(slot), times[n])
    decreases |times|
  {
    hide Step, Inv, Held, AsksFor;
    var slot, n := SlotOf(code).value, |times| - 1;
    HeldOnce(env, s, code, times);
    if n == 0 {
      HeldNothing(env, s, code);
      assert times[..0] == [];
      FirstLongPress(env, s, code, times[0]);
    } else {
      assert Soon(times[n - 1], times[n - 1 + 1]);
      LongPressesGoRound(env, s, code, times[..n]);
      InvAllows(s);
      NextLongPress(env, s, Held(env, s, code, times[..n]), code, (n - 1) % PhonemeCount(slot), times[n - 1], times[n]);
      RoundAgain(n - 1, PhonemeCount(slot));
    }
  }

  lemma {:induction false} HeldNothing(env: Env, s: State, code: Byte)
    requires EnvOk(env) && Inv(s)
    ensures Held(env, s, code, []) == s
  {
    RunOfNothing(env, s);
  }

  lemma {:induction false} RoundAgain(n: nat, count: nat)
    requires count > 0
    ensures (n % count + 1) % count == (n + 1) % count
  {
    PageAfter(n, count);
  }

  // ---------------------------------------------------------------- taps

  /** In direct input, and in English on the digit keys, a key offers its labels. */
  predicate Taps(mode: Mode, code: Byte) {
    SlotOf(code).Some? && LabelCount(code) > 0 && (mode == Direct || (mode == SmartEn && SlotOf(code).value < 5))
  }

  /** The key's label `k` is shown and nothing has been said since `s`. */
  predicate Offers(r: State, s: State, code: Byte, k: nat) {
    r.mode == s.mode && !r.pickerOpen && r.keys == s.keys && r.tap.key == code && r.tap.idx == k && r.tap.count == LabelCount(code)
    && r.shown == Label(code, k) && r.said == s.said
  }

  lemma {:induction false} FirstTap(env: Env, s: State, code: Byte)
    requires EnvOk(env) && Inv(s) && Taps(s.mode, code) && !s.pickerOpen && s.tap.key == KEY_NONE && s.keys == []
    ensures Offers(Step(env, s, Press(code)), s, code, 0)
  {
    hide Spoken, KeysOk, RowsOk, LruOk;
    InvAllows(s);
  }

  lemma {:induction false} NextTap(env: Env, s: State, r: State, code: Byte, k: nat)
    requires EnvOk(env) && Inv(r) && Taps(s.mode, code) && s.keys == [] && k < LabelCount(code) && Offers(r, s, code, k)
    ensures Offers(Step(env, r, Press(code)), s, code, (k + 1) % LabelCount(code))
  {
    hide Spoken, KeysOk, RowsOk, LruOk;
    InvAllows(r);
  }

  ghost function Tapped(env: Env, s: State, code: Byte, k: nat): (r: State)
    requires EnvOk(env) && Inv(s)
    ensures Inv(r)
  {
    Run(env, s, seq(k, _ => Press(code)))
  }

  lemma {:induction false} TappedOnce(env: Env, s: State, code: Byte, k: nat)
    requires EnvOk(env) && Inv(s)
    ensures InvAllowing(Tapped(env, s, code, k)) && Tapped(env, s, code, 0) == s
    ensures Tapped(env, s, code, k + 1) == Step(env, Tapped(env, s, code, k), Press(code))
  {
    hide Step, Inv, Run;
    RunThen(env, s, seq(k, _ => Press(code)), Press(code));
    assert seq(k, _ => Press(code)) + [Press(code)] == seq(k + 1, _ => Press(code));
    assert seq(0, _ => Press(code)) == [];
    RunOfNothing(env, s);
  }

  /** Taps on one key offer its labels in turn, and send nothing. */
  lemma {:induction false} TapsGoRound(env: Env, s: State, code: Byte, k: nat)
    requires EnvOk(env) && Inv(s) && Taps(s.mode, code) && !s.pickerOpen && s.tap.key == KEY_NONE && s.keys == [] && k > 0
    ensures Offers(Tapped(env, s, code, k), s, code, (k - 1) % LabelCount(code))
  {
    hide Step, Inv, Tapped, Offers, Taps;
    assert LabelCount(code) > 0 by { TapsHaveLabels(s.mode, code); }
    TappedOnce(env, s, code, k - 1);
    if k == 1 {
      FirstTap(env, s, code);
    } else {
      TapsGoRound(env, s, code, k - 1);
      NextTap(env, s, Tapped(env, s, code, k - 1), code, (k - 2) % LabelCount(code));
      RoundAgain(k - 2, LabelCount(code));
    }
  }

  lemma {:induction false} TapsHaveLabels(mode: Mode, code: Byte)
    requires Taps(mode, code)
    ensures LabelCount(code) > 0
  {
  }
}
