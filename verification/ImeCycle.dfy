/** The long-press cycle: which events end it, and so when a long press asks for the next phoneme of the
    same key instead of adding a key. */
module ImeCycle {
  import opened Basics
  import opened Bytes
  import opened Composition
  import opened LegacySearch
  import opened ImeKeys
  import opened SentText
  import opened ImeMachine

  /** The event ends the cycle, or starts one on a new key. */
  predicate EndsCycle(s: State, e: Event) {
    match e
    case Abort => true
    case Tick(now) => Elapsed(now, s.cycle.lastMs) >= MULTI_TAP_TIMEOUT_MS
    case Key(code, pressed, flags, now) =>
      pressed && !s.pickerOpen && !IgnoredCode(code) && PressEndsCycle(s, code, flags, now)
    case _ => false
  }

  predicate PressEndsCycle(s: State, code: Byte, flags: Byte, now: U32) {
    if code == KEY_MODE then true
    else if code == KEY_DEL then s.tap.key == KEY_NONE && s.cycle.byteIndex == |s.keys| - 1
    else if code == KEY_OK then |s.rows| > 0
    else
      match SlotOf(code)
      case None => false
      case Some(slot) => |s.keys| < MAX_KEY_SEQ && !(flags % 2 == 1 && CanCycle(s, slot, now))
  }

  lemma {:induction false} LongPressCycle(env: Env, s: State, slot: nat, now: U32)
    requires EnvOk(env) && Inv(s) && s.cycle.byteIndex >= 0 && slot < SLOTS
    ensures LongPress(env, s, slot, now).cycle.byteIndex == s.cycle.byteIndex
      <==> CanCycle(s, slot, now) || |s.keys| >= MAX_KEY_SEQ
  {
    hide Searched, Spoken;
    if CanCycle(s, slot, now) {
      var p := (s.cycle.phoneme + 1) % PhonemeCount(slot);
      SearchedOk(env, s.(cycle := s.cycle.(phoneme := p, lastMs := now), hints := s.hints[s.cycle.byteIndex := p]));
    } else if |s.keys| < MAX_KEY_SEQ {
      SearchedOk(env, Appended(s, KEY_BASE + slot, 0).(cycle := Cycle(|s.keys|, slot, 0, now)));
    }
  }

  lemma {:induction false} ShortPressCycle(env: Env, s: State, slot: nat)
    requires EnvOk(env) && Inv(s) && s.cycle.byteIndex >= 0 && slot < SLOTS
    ensures ShortPress(env, s, slot).cycle.byteIndex == s.cycle.byteIndex <==> |s.keys| >= MAX_KEY_SEQ
  {
    hide Searched, Spoken;
    if |s.keys| < MAX_KEY_SEQ {
      SearchedOk(env, Appended(s, KEY_BASE + slot, HINT_ANY).(cycle := s.cycle.(byteIndex := -1)));
    }
  }

  lemma {:induction false} SpaceCycle(env: Env, s: State)
    requires EnvOk(env) && Inv(s) && s.cycle.byteIndex >= 0
    ensures SpaceKey(env, s).cycle == s.cycle
  {
    hide Searched, Spoken, Say;
    SayOk(s, SPACE_TEXT);
    if |s.keys| < MAX_KEY_SEQ { SearchedOk(env, Appended(s, TONE_1, HINT_ANY)); }
  }

  lemma {:induction false} DelCycle(env: Env, s: State)
    requires EnvOk(env) && Inv(s) && s.cycle.byteIndex >= 0
    ensures Del(env, s).cycle.byteIndex == s.cycle.byteIndex
      <==> !(s.tap.key == KEY_NONE && s.cycle.byteIndex == |s.keys| - 1)
  {
    hide Searched, Spoken;
    var n := |s.keys|;
    if s.tap.key == KEY_NONE && n > 0 {
      SearchedOk(env, s.(keys := s.keys[..n - 1], hints := s.hints[..n - 1],
                         cycle := if s.cycle.byteIndex >= n - 1 then s.cycle.(byteIndex := -1) else s.cycle));
    }
  }

  lemma {:induction false} CycleIsChinese(s: State)
    requires Inv(s) && s.cycle.byteIndex >= 0
    ensures s.mode == SmartZh && (s.tap.key == KEY_NONE || s.tap.key == KEY_SYM2)
  {
    hide Spoken;
  }

  lemma {:induction false} SmartCycle(env: Env, s: State, code: Byte, flags: Byte, now: U32)
    requires EnvOk(env) && Inv(s) && s.cycle.byteIndex >= 0 && code != KEY_MODE && code != KEY_DEL && code != KEY_OK
    ensures SmartKey(env, s, code, flags, now).cycle.byteIndex == s.cycle.byteIndex
      <==> !PressEndsCycle(s, code, flags, now)
  {
    hide SpaceKey, LongPress, ShortPress, Inv, CanCycle;
    InvAllows(s);
    CycleIsChinese(s);
    SpaceCycle(env, s);
    if SlotOf(code).Some? {
      LongPressCycle(env, s, SlotOf(code).value, now);
      ShortPressCycle(env, s, SlotOf(code).value);
    }
  }

  lemma {:induction false} PressedCycle(env: Env, s: State, code: Byte, flags: Byte, now: U32)
    requires EnvOk(env) && Inv(s) && s.cycle.byteIndex >= 0 && code != KEY_NONE
    ensures Pressed(env, s, code, flags, now).cycle.byteIndex == s.cycle.byteIndex
      <==> !PressEndsCycle(s, code, flags, now)
  {
    hide Inv, Del, CommitSelected, TapCommitted, SmartKey, Say, Spoken, CanCycle;
    InvAllows(s);
    CycleIsChinese(s);
    TapCommittedOk(s);
    CommitOk(env, s);
    SayOk(s, NEWLINE_TEXT);
    var t := if s.tap.key != code then TapCommitted(s) else s;
    InvAllows(t);
    if code == KEY_DEL {
      DelCycle(env, s);
    } else if code != KEY_MODE && code != KEY_OK && !IsDpad(code) && code != KEY_SYM2 {
      SmartCycle(env, t, code, flags, now);
      EndsAlike(s, t, code, flags, now);
    }
  }

  lemma {:induction false} EndsAlike(s: State, t: State, code: Byte, flags: Byte, now: U32)
    requires t.cycle == s.cycle && t.keys == s.keys && t.rows == s.rows && code != KEY_DEL
    ensures PressEndsCycle(t, code, flags, now) <==> PressEndsCycle(s, code, flags, now)
  {
  }

  /** An active cycle stays on its key exactly unless the event is: a key that is added, short or as a long
      press that cannot cycle; DEL of the cycled key; OK with candidates; MODE; an abort; or a tick at or
      after the timeout. */
  lemma {:induction false} CycleEndsExactlyWhen(env: Env, s: State, e: Event)
    requires EnvOk(env) && Inv(s) && s.cycle.byteIndex >= 0
    ensures Step(env, s, e).cycle.byteIndex == s.cycle.byteIndex <==> !EndsCycle(s, e)
  {
    hide Pressed, Picker, TapCommitted, Say, Spoken, PressEndsCycle;
    match e
    case Key(code, pressed, flags, now) =>
      var t := s.(nowMs := now);
      assert Inv(t);
      if code == KEY_SYM1 {
        Sym1Cycle(t, pressed, now);
        assert SlotOf(code).None?;
        Sym1EndsNothing(s, flags, now);
      } else if !IgnoredCode(code) && pressed {
        if s.pickerOpen {
          SayOk(t.(pickerOpen := false, pickerSel := 0), SymbolText(s.pickerSel));
          PickerCycle(t, code);
        } else {
          PressedCycle(env, t, code, flags, now);
          EndsAtNow(s, t, code, flags, now);
        }
      }
    case Tick(now) =>
      assert Inv(s.(nowMs := now));
      TapCommittedOk(s.(nowMs := now));
    case _ =>
  }

  lemma {:induction false} EndsAtNow(s: State, t: State, code: Byte, flags: Byte, now: U32)
    requires t == s.(nowMs := now)
    ensures PressEndsCycle(t, code, flags, now) <==> PressEndsCycle(s, code, flags, now)
  {
  }

  lemma {:induction false} Sym1EndsNothing(s: State, flags: Byte, now: U32)
    ensures !PressEndsCycle(s, KEY_SYM1, flags, now)
  {
  }

  lemma {:induction false} PickerCycle(s: State, code: Byte)
    requires Inv(s)
    ensures Picker(s, code).cycle == s.cycle
  {
    hide Spoken, Say, SymbolText;
    SayOk(s.(pickerOpen := false, pickerSel := 0), SymbolText(s.pickerSel));
  }

  lemma {:induction false} Sym1Cycle(s: State, pressed: bool, now: U32)
    requires Inv(s)
    ensures Sym1Key(s, pressed, now).cycle == s.cycle
  {
    hide Spoken, TapCommitted, Say;
    var up := s.(sym1 := s.sym1.(down := false));
    if !pressed && s.sym1.down && !s.sym1.longFired {
      assert Inv(up);
      TapCommittedOk(up);
      SayOk(TapCommitted(up), CommaText(s.mode));
    }
  }

  // ---------------------------------------------------------------- a cycle that should have ended

  /** A long press from the start: one key with its first phoneme, and a cycle on it. */
  lemma {:induction false} LongPressStarts(env: Env, s: State, code: Byte, now: U32)
    requires EnvOk(env) && Inv(s) && s.mode == SmartZh && s.keys == [] && SlotOf(code).Some? && !s.pickerOpen
    requires s.tap.key == KEY_NONE && s.cycle.byteIndex == -1
    ensures var r, slot := Step(env, s, Key(code, true, 1, now)), SlotOf(code).value;
      && Inv(r) && r.keys == [KEY_BASE + slot] && r.hints == [0] && r.cycle == Cycle(0, slot, 0, now)
      && r.tap == s.tap && r.mode == s.mode && !r.pickerOpen
  {
    hide Searched, Spoken, LruOk;
    StepKeepsInv(env, s, Key(code, true, 1, now));
    InvAllows(s);
    SearchedOk(env, Appended(s, KEY_BASE + SlotOf(code).value, 0).(cycle := Cycle(0, SlotOf(code).value, 0, now), nowMs := now));
  }

  lemma {:induction false} MarkerAppends(env: Env, s: State, now: U32)
    requires EnvOk(env) && Inv(s) && s.mode == SmartZh && |s.keys| == 1 && s.keys[0] != TONE_1 && !s.pickerOpen
    requires s.tap.key == KEY_NONE
    ensures var r := Step(env, s, Key(KEY_SPACE, true, 0, now));
      && Inv(r) && r.keys == s.keys + [TONE_1] && r.hints == s.hints + [HINT_ANY] && r.cycle == s.cycle
      && r.tap == s.tap && r.mode == s.mode && !r.pickerOpen
  {
    hide Searched, Spoken, LruOk;
    StepKeepsInv(env, s, Key(KEY_SPACE, true, 0, now));
    InvAllows(s);
    SearchedOk(env, Appended(s, TONE_1, HINT_ANY).(nowMs := now));
  }

  lemma {:induction false} DeleteDrops(env: Env, s: State, now: U32)
    requires EnvOk(env) && Inv(s) && |s.keys| > 0 && s.cycle.byteIndex < |s.keys| - 1 && !s.pickerOpen
    requires s.tap.key == KEY_NONE
    ensures var r, n := Step(env, s, Key(KEY_DEL, true, 0, now)), |s.keys| - 1;
      && Inv(r) && r.keys == s.keys[..n] && r.hints == s.hints[..n] && r.cycle == s.cycle
      && r.tap == s.tap && r.mode == s.mode && !r.pickerOpen
  {
    hide Searched, Spoken, LruOk;
    StepKeepsInv(env, s, Key(KEY_DEL, true, 0, now));
    InvAllows(s);
    SearchedOk(env, s.(keys := s.keys[..|s.keys| - 1], hints := s.hints[..|s.keys| - 1], nowMs := now));
  }

  lemma {:induction false} LongPressCycles(env: Env, s: State, code: Byte, now: U32)
    requires EnvOk(env) && Inv(s) && s.mode == SmartZh && !s.pickerOpen && s.tap.key == KEY_NONE
    requires SlotOf(code).Some? && CanCycle(s, SlotOf(code).value, now)
    ensures var r, p := Step(env, s, Key(code, true, 1, now)), (s.cycle.phoneme + 1) % PhonemeCount(s.cycle.slot);
      r.keys == s.keys && r.hints == s.hints[s.cycle.byteIndex := p]
  {
    hide Searched, Spoken, LruOk;
    InvAllows(s);
    var p := (s.cycle.phoneme + 1) % PhonemeCount(s.cycle.slot);
    SearchedOk(env, s.(cycle := s.cycle.(phoneme := p, lastMs := now), hints := s.hints[s.cycle.byteIndex := p], nowMs := now));
  }

  /** It happens from start-up, whatever the dictionaries: a long press, a first-tone marker, DEL, and a
      second long press on the same key. Neither the marker nor DEL ends the cycle, and the second press
      changes the hint of the first key instead of adding one. */
  lemma {:induction false} CycleOutlivesOtherKeys(env: Env) returns (s1: State, s2: State, s3: State, s4: State)
    requires EnvOk(env)
    ensures Inv(s1) && Inv(s2) && Inv(s3)
    ensures s1 == Step(env, Initial([]), Key(0x01, true, 1, 0)) && s1.keys == [KEY_BASE] && s1.hints == [0]
    ensures s2 == Step(env, s1, Key(KEY_SPACE, true, 0, 0)) && !EndsCycle(s1, Key(KEY_SPACE, true, 0, 0))
    ensures s3 == Step(env, s2, Key(KEY_DEL, true, 0, 0)) && !EndsCycle(s2, Key(KEY_DEL, true, 0, 0))
    ensures s4 == Step(env, s3, Key(0x01, true, 1, 0)) && s4.keys == [KEY_BASE] && s4.hints == [1]
  {
    hide KeyEvent, Inv;
    var s0 := Initial([]);
    EveryRunIsSafe(env, [], []);
    LongPressStarts(env, s0, 0x01, 0);
    s1 := Step(env, s0, Key(0x01, true, 1, 0));
    InvAllows(s1);
    MarkerAppends(env, s1, 0);
    s2 := Step(env, s1, Key(KEY_SPACE, true, 0, 0));
    InvAllows(s2);
    DeleteDrops(env, s2, 0);
    s3 := Step(env, s2, Key(KEY_DEL, true, 0, 0));
    InvAllows(s3);
    LongPressCycles(env, s3, 0x01, 0);
    s4 := Step(env, s3, Key(0x01, true, 1, 0));
  }
}
