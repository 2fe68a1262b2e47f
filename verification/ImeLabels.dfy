/** The label a multi-tap shows and the text it sends: they are the same, except after OK has committed a
    candidate under the multi-tap. */
module ImeLabels {
  import opened Basics
  import opened Bytes
  import opened Composition
  import opened LegacySearch
  import opened Lru
  import opened ImeKeys
  import opened SentText
  import opened ImeMachine
  import opened ImePending

  /** A multi-tap is active and the row shows its label. */
  predicate LabelShown(s: State) {
    s.tap.key != KEY_NONE && s.shown == Label(s.tap.key, s.tap.idx)
  }

  /** A label is shown only for the active multi-tap. */
  predicate NoStrayLabel(s: State) {
    s.shown.Label? ==> LabelShown(s)
  }

  /** OK takes a candidate first, even while a multi-tap is active. */
  predicate CommitsUnderTap(s: State, e: Event) {
    e.Key? && e.code == KEY_OK && e.pressed && !s.pickerOpen && |s.rows| > 0 && s.tap.key != KEY_NONE
  }

  /** The key being cycled is pressed again. */
  predicate PressesTapKey(s: State, e: Event) {
    e.Key? && e.pressed && !s.pickerOpen && s.tap.key != KEY_NONE && e.code == s.tap.key
  }

  /** DEL and an abort give a multi-tap up. */
  predicate CancelsTap(e: Event) {
    e.Abort? || (e.Key? && e.code == KEY_DEL)
  }

  // ---------------------------------------------------------------- handlers that leave the multi-tap alone

  /** The multi-tap is as before, no label appears, and nothing said is taken back. */
  predicate Quiet(s: State, r: State) {
    r.tap == s.tap && (r.shown == s.shown || !r.shown.Label?) && s.said <= r.said
  }

  lemma {:induction false} CommitQuiet(env: Env, s: State)
    requires EnvOk(env) && Inv(s)
    ensures Quiet(s, CommitSelected(env, s))
    ensures |s.rows| > 0 ==> !CommitSelected(env, s).shown.Label?
  {
    hide CommitSelected, Inv, SaidWord, Spaced, Cased, WordFits;
    CommitOk(env, s);
    CommitSelectedConserves(env, s);
    if |s.rows| > 0 {
      var word := Cased(s, s.rows[SelectedRow(s)].cand.word);
      SpacedFits(s, s.rows[SelectedRow(s)].cand.word);
      InvSpoken(Spaced(s));
      SpacedGrows(s);
      SaidWordOk(Spaced(s), word);
    }
  }

  lemma {:induction false} SpacedGrows(s: State)
    ensures s.said <= Spaced(s).said && Spaced(s).mode == s.mode
  {
    SayOk(s, SPACE_TEXT);
  }

  lemma {:induction false} EnglishQuiet(env: Env, s: State)
    requires EnvOk(env) && Inv(s)
    ensures Quiet(s, EnglishDone(env, s))
  {
    hide CommitSelected, Inv;
    InvAllows(s);
    CommitQuiet(env, s);
  }

  lemma {:induction false} SpaceQuiet(env: Env, s: State)
    requires EnvOk(env) && Inv(s)
    ensures Quiet(s, SpaceKey(env, s))
  {
    hide Searched, EnglishDone, Say, Spoken;
    SayOk(s, SPACE_TEXT);
    EnglishQuiet(env, s);
    SayOk(EnglishDone(env, s), SPACE_TEXT);
    if |s.keys| < MAX_KEY_SEQ { SearchedOk(env, Appended(s, TONE_1, HINT_ANY)); }
  }

  lemma {:induction false} LongPressQuiet(env: Env, s: State, slot: nat, now: U32)
    requires EnvOk(env) && Inv(s) && s.mode == SmartZh && slot < SLOTS
    ensures Quiet(s, LongPress(env, s, slot, now))
  {
    hide Searched, Spoken;
    if CanCycle(s, slot, now) {
      var p := (s.cycle.phoneme + 1) % PhonemeCount(slot);
      SearchedOk(env, s.(cycle := s.cycle.(phoneme := p, lastMs := now), hints := s.hints[s.cycle.byteIndex := p]));
    } else if |s.keys| < MAX_KEY_SEQ {
      SearchedOk(env, Appended(s, KEY_BASE + slot, 0).(cycle := Cycle(|s.keys|, slot, 0, now)));
    }
  }

  lemma {:induction false} ShortPressQuiet(env: Env, s: State, slot: nat)
    requires EnvOk(env) && Inv(s) && slot < SLOTS
    ensures Quiet(s, ShortPress(env, s, slot))
  {
    hide Searched, Spoken;
    if |s.keys| < MAX_KEY_SEQ {
      SearchedOk(env, Appended(s, KEY_BASE + slot, HINT_ANY).(cycle := s.cycle.(byteIndex := -1)));
    }
  }

  /** DEL takes the multi-tap away, or leaves one that is not there alone. */
  lemma {:induction false} DelLabel(env: Env, s: State)
    requires EnvOk(env) && Inv(s)
    ensures Del(env, s).tap.key == KEY_NONE && s.said <= Del(env, s).said
    ensures s.tap.key != KEY_NONE ==> Del(env, s).said == s.said
    ensures NoStrayLabel(s) ==> !Del(env, s).shown.Label?
  {
    hide Searched, Spoken;
    var n := |s.keys|;
    if s.tap.key == KEY_NONE && n > 0 {
      SearchedOk(env, s.(keys := s.keys[..n - 1], hints := s.hints[..n - 1],
                         cycle := if s.cycle.byteIndex >= n - 1 then s.cycle.(byteIndex := -1) else s.cycle));
    }
  }

  /** A digit in English shows its label; every other smart key leaves the multi-tap alone. */
  lemma {:induction false} SmartLabel(env: Env, s: State, code: Byte, flags: Byte, now: U32)
    requires EnvOk(env) && Inv(s) && s.mode != Direct && (s.tap.key == KEY_NONE || s.tap.key == code)
    ensures var r := SmartKey(env, s, code, flags, now);
      if SlotOf(code).Some? && s.mode == SmartEn && HasDigits(SlotOf(code).value)
      then r.tap.key == code && LabelShown(r) && s.said <= r.said else Quiet(s, r)
  {
    hide SpaceKey, EnglishDone, LongPress, ShortPress, TapPressed, Inv;
    InvAllows(s);
    SpaceQuiet(env, s);
    if SlotOf(code).Some? && code != KEY_SPACE && code != KEY_TAB {
      var slot := SlotOf(code).value;
      if s.mode == SmartEn && HasDigits(slot) {
        EnglishDoneOk(env, s);
        EnglishQuiet(env, s);
        TapPressedOk(if |s.keys| > 0 then EnglishDone(env, s) else s, code, now);
        TapPressedGrows(if |s.keys| > 0 then EnglishDone(env, s) else s, code, 2, now);
      } else if s.mode == SmartZh && flags % 2 == 1 {
        LongPressQuiet(env, s, slot, now);
      } else {
        ShortPressQuiet(env, s, slot);
      }
    }
  }

  lemma {:induction false} TapPressedGrows(s: State, code: Byte, count: nat, now: U32)
    requires Inv(s) && count > 0
    ensures s.said <= TapPressed(s, code, count, now).said
  {
    hide SkipUnlabelled, TapCommitted, Inv;
    InvAllows(s);
    TapCommittedOk(s);
  }

  lemma {:induction false} DirectLabel(s: State, code: Byte, now: U32)
    requires Inv(s) && s.mode == Direct && (s.tap.key == KEY_NONE || s.tap.key == code)
    ensures var r := DirectKey(s, code, now);
      if SlotOf(code).Some? && LabelCount(code) > 0 then r.tap.key == code && LabelShown(r) && s.said <= r.said
      else Quiet(s, r)
  {
    hide TapPressed, Say, Inv;
    InvAllows(s);
    SpaceAndTabHaveNoLabel(s);
    SayOk(s, SPACE_TEXT);
    SayOk(s, TAB_TEXT);
    if LabelCount(code) > 0 {
      TapPressedOk(s, code, now);
      TapPressedGrows(s, code, LabelCount(code), now);
    }
  }

  lemma {:induction false} SpaceAndTabHaveNoLabel(s: State)
    requires Inv(s)
    ensures s.tap.key != KEY_SPACE && s.tap.key != KEY_TAB
  {
    hide Spoken;
  }

  // ---------------------------------------------------------------- one key

  /** What an event makes of the label: `r` shows it unless it was lost and not shown again. */
  predicate LabelStep(s: State, r: State, lost: bool, again: bool) {
    && (LabelShown(r) <==>
          r.tap.key != KEY_NONE && !lost && (LabelShown(s) || r.tap.key != s.tap.key || again))
    && (NoStrayLabel(s) ==> NoStrayLabel(r))
  }

  lemma {:induction false} PressedLabel(env: Env, s: State, code: Byte, flags: Byte, now: U32)
    requires EnvOk(env) && Inv(s) && code != KEY_NONE && !s.pickerOpen
    ensures LabelStep(s, Pressed(env, s, code, flags, now),
                      code == KEY_OK && |s.rows| > 0 && s.tap.key != KEY_NONE, s.tap.key != KEY_NONE && code == s.tap.key)
    ensures s.said <= Pressed(env, s, code, flags, now).said
  {
    hide Inv, Say, TapCommitted, Del, CommitSelected, SmartKey, DirectKey, ModeKey, Spoken;
    InvAllows(s);
    TapCommittedOk(s);
    if s.tap.key != KEY_NONE { TapKeyIsNoCommand(s); }
    var t := if s.tap.key != code then TapCommitted(s) else s;
    InvAllows(t);
    if code == KEY_MODE {
      ModeLabel(env, s);
    } else if code == KEY_DEL {
      DelLabel(env, s);
    } else if code == KEY_OK {
      SayOk(s, NEWLINE_TEXT);
      CommitQuiet(env, s);
    } else if !IsDpad(code) && code != KEY_SYM2 {
      if s.mode == Direct { DirectLabel(t, code, now); } else { SmartLabel(env, t, code, flags, now); }
    }
  }

  lemma {:induction false} ModeLabel(env: Env, s: State)
    requires EnvOk(env) && Inv(s)
    ensures ModeKey(env, s).tap.key == KEY_NONE && ModeKey(env, s).shown == Nothing
    ensures s.said <= ModeKey(env, s).said
    ensures s.tap.key != KEY_NONE ==> ModeKey(env, s).said == TapCommitted(s).said
  {
    hide Inv, CommitSelected, TapCommitted;
    InvAllows(s);
    ModeOk(env, s);
    TapCommittedOk(s);
    CommitQuiet(env, s);
  }

  lemma {:induction false} TapKeyIsNoCommand(s: State)
    requires Inv(s) && s.tap.key != KEY_NONE
    ensures s.tap.key != KEY_MODE && s.tap.key != KEY_DEL && s.tap.key != KEY_OK && !IsDpad(s.tap.key)
    ensures s.tap.key != KEY_SYM2 ==> SlotOf(s.tap.key).Some? && LabelCount(s.tap.key) > 0
    ensures s.tap.key != KEY_SYM2 && s.mode != Direct ==> s.mode == SmartEn && HasDigits(SlotOf(s.tap.key).value)
    ensures !IgnoredCode(s.tap.key) && s.tap.key != KEY_SYM1
    ensures s.tap.idx < LabelCount(s.tap.key)
  {
    hide Spoken;
  }

  // ---------------------------------------------------------------- every event

  /** After an event the label of the active multi-tap is shown exactly when OK did not just commit a
      candidate under it and it was shown before, is a new multi-tap's, or its key was pressed again. */
  lemma {:induction false} LabelIsShownExactlyWhen(env: Env, s: State, e: Event)
    requires EnvOk(env) && Inv(s)
    ensures LabelStep(s, Step(env, s, e), CommitsUnderTap(s, e), PressesTapKey(s, e))
    ensures s.said <= Step(env, s, e).said
  {
    hide Pressed, Picker, TapCommitted, Say, Spoken;
    if s.tap.key != KEY_NONE { TapKeyIsNoCommand(s); }
    match e
    case Key(code, pressed, flags, now) =>
      var t := s.(nowMs := now);
      assert Inv(t);
      if code == KEY_SYM1 {
        Sym1Label(t, pressed, now);
      } else if !IgnoredCode(code) && pressed {
        if s.pickerOpen {
          SayOk(t.(pickerOpen := false, pickerSel := 0), SymbolText(s.pickerSel));
          PickerQuiet(t, code);
        } else {
          PressedLabel(env, t, code, flags, now);
        }
      }
    case Tick(now) =>
      assert Inv(s.(nowMs := now));
      TapCommittedOk(s.(nowMs := now));
    case _ =>
  }

  lemma {:induction false} PickerQuiet(s: State, code: Byte)
    requires Inv(s)
    ensures Picker(s, code).tap == s.tap && Picker(s, code).shown == s.shown && s.said <= Picker(s, code).said
  {
    hide Spoken, Say, SymbolText;
    SayOk(s.(pickerOpen := false, pickerSel := 0), SymbolText(s.pickerSel));
  }

  /** A short press of the first symbol key ends a multi-tap and says its comma after it. */
  lemma {:induction false} Sym1Label(s: State, pressed: bool, now: U32)
    requires Inv(s)
    ensures var r := Sym1Key(s, pressed, now);
      && s.said <= r.said
      && ((r.tap == s.tap && r.shown == s.shown)
          || (s.tap.key != KEY_NONE && r.tap.key == KEY_NONE && r.shown == Nothing
              && s.said + TapTexts(s) <= r.said))
  {
    hide Spoken, TapCommitted, Say;
    var up := s.(sym1 := s.sym1.(down := false));
    if !pressed && s.sym1.down && !s.sym1.longFired {
      assert Inv(up);
      TapCommittedOk(up);
      SayOk(TapCommitted(up), CommaText(s.mode));
      if s.tap.key != KEY_NONE { EndedTapSays(up); }
    }
  }

  // ---------------------------------------------------------------- what is sent

  /** What ending the multi-tap sends: the text shown, and a space after English punctuation. */
  function TapTexts(s: State): seq<Said>
    requires |s.hints| == |s.keys|
  {
    (if DisplayText(s) == [] then [] else [Text(DisplayText(s))])
    + (if s.tap.key == KEY_SYM2 && s.mode == SmartEn then [Text(SPACE_TEXT)] else [])
  }

  lemma {:induction false} EndedTapSays(s: State)
    requires Inv(s) && s.tap.key != KEY_NONE
    ensures TapCommitted(s).said == s.said + TapTexts(s)
  {
    hide Spoken, DisplayText, AfterText;
  }

  lemma {:induction false} PressedSends(env: Env, s: State, code: Byte, flags: Byte, now: U32)
    requires EnvOk(env) && Inv(s) && code != KEY_NONE && code != KEY_DEL && !s.pickerOpen
    requires s.tap.key != KEY_NONE && Pressed(env, s, code, flags, now).tap.key != s.tap.key
    ensures s.said + TapTexts(s) <= Pressed(env, s, code, flags, now).said
  {
    hide Inv, Say, TapCommitted, CommitSelected, SmartKey, DirectKey, ModeKey, Spoken, TapTexts;
    InvAllows(s);
    TapCommittedOk(s);
    EndedTapSays(s);
    TapKeyIsNoCommand(s);
    var t := if s.tap.key != code then TapCommitted(s) else s;
    InvAllows(t);
    if code == KEY_MODE {
      ModeLabel(env, s);
    } else if code == KEY_OK {
      CommitQuiet(env, s);
    } else if !IsDpad(code) && code != KEY_SYM2 {
      if s.mode == Direct { DirectLabel(t, code, now); } else { SmartLabel(env, t, code, flags, now); }
    }
  }

  /** Whatever ends a multi-tap, other than giving it up, sends what the row shows before anything else. */
  lemma {:induction false} EndedTapIsSent(env: Env, s: State, e: Event)
    requires EnvOk(env) && Inv(s) && s.tap.key != KEY_NONE && !CancelsTap(e)
    requires Step(env, s, e).tap.key != s.tap.key
    ensures s.said + TapTexts(s) <= Step(env, s, e).said
  {
    hide Pressed, Picker, TapCommitted, Say, Spoken, TapTexts;
    match e
    case Key(code, pressed, flags, now) =>
      var t := s.(nowMs := now);
      assert Inv(t);
      assert TapTexts(t) == TapTexts(s) by { SameTapTexts(s, t); }
      if code == KEY_SYM1 {
        Sym1Label(t, pressed, now);
      } else if !IgnoredCode(code) && pressed {
        if s.pickerOpen { PickerQuiet(t, code); } else { PressedSends(env, t, code, flags, now); }
      }
    case Tick(now) =>
      var t := s.(nowMs := now);
      assert Inv(t);
      assert TapTexts(t) == TapTexts(s) by { SameTapTexts(s, t); }
      EndedTapSays(t);
    case _ =>
  }

  lemma {:induction false} SameTapTexts(s: State, t: State)
    requires |s.hints| == |s.keys| && t == s.(nowMs := t.nowMs)
    ensures TapTexts(t) == TapTexts(s)
  {
  }

  /** While the label is shown, that text is the label. */
  lemma {:induction false} ShownLabelIsSent(s: State)
    requires Inv(s) && LabelShown(s)
    ensures s.tap.idx < LabelCount(s.tap.key)
    ensures |TapTexts(s)| > 0 && TapTexts(s)[0] == Text(LabelText(s.mode == SmartZh, s.tap.key, s.tap.idx))
  {
    hide Spoken, LabelText;
    TapKeyIsNoCommand(s);
  }

  // ---------------------------------------------------------------- every run

  /** In this run OK has committed a candidate under the active multi-tap, and its key was not pressed since. */
  ghost predicate LabelLost(env: Env, s: State, events: seq<Event>)
    requires EnvOk(env) && Inv(s)
    decreases |events|
  {
    |events| > 0
    && var before, e := events[..|events| - 1], events[|events| - 1];
       var mid := Run(env, s, before);
       var r := Step(env, mid, e);
       && r.tap.key != KEY_NONE
       && (CommitsUnderTap(mid, e)
           || (LabelLost(env, s, before) && r.tap.key == mid.tap.key && !PressesTapKey(mid, e)))
  }

  /** In every run from start-up the label of an active multi-tap is shown unless it was lost, and a label
      is shown for nothing else. */
  lemma {:induction false} RunShowsLabel(env: Env, lru: seq<Entry>, events: seq<Event>)
    requires EnvOk(env) && LruOk(lru)
    ensures var s := Run(env, Initial(lru), events);
      && (LabelShown(s) <==> s.tap.key != KEY_NONE && !LabelLost(env, Initial(lru), events))
      && NoStrayLabel(s)
    decreases |events|
  {
    hide Step, Inv, CommitsUnderTap, PressesTapKey;
    EveryRunIsSafe(env, lru, events);
    if |events| > 0 {
      var before, e := events[..|events| - 1], events[|events| - 1];
      RunShowsLabel(env, lru, before);
      LabelIsShownExactlyWhen(env, Run(env, Initial(lru), before), e);
    }
  }

  /** In every run from start-up, an event that ends a multi-tap without giving it up sends its label
      first, unless the label was lost; then it sends the pending keys as the row shows them, or nothing. */
  lemma {:induction false} MultitapSendsItsLabel(env: Env, lru: seq<Entry>, events: seq<Event>, e: Event)
    requires EnvOk(env) && LruOk(lru)
    requires Run(env, Initial(lru), events).tap.key != KEY_NONE && !CancelsTap(e)
    requires Step(env, Run(env, Initial(lru), events), e).tap.key != Run(env, Initial(lru), events).tap.key
    ensures var s := Run(env, Initial(lru), events);
      && s.said + TapTexts(s) <= Step(env, s, e).said
      && s.tap.idx < LabelCount(s.tap.key)
      && (if LabelLost(env, Initial(lru), events)
          then DisplayText(s) == [] || DisplayText(s) == Rendered(s.mode == SmartZh, s.keys, s.hints)
          else |TapTexts(s)| > 0 && TapTexts(s)[0] == Text(LabelText(s.mode == SmartZh, s.tap.key, s.tap.idx)))
  {
    hide Step, Inv, TapTexts, LabelLost;
    EveryRunIsSafe(env, lru, events);
    var s := Run(env, Initial(lru), events);
    InvAllows(s);
    RunShowsLabel(env, lru, events);
    EndedTapIsSent(env, s, e);
    TapKeyIsNoCommand(s);
    if LabelShown(s) { ShownLabelIsSent(s); }
  }

  // ---------------------------------------------------------------- a label that is lost

  lemma {:induction false} FirstKeyFinds(env: Env, s: State)
    requires EnvOk(env) && env.composer.None? && env.zh.Some? && |env.zh.value([KEY_BASE])| > 0
    requires s.mode == SmartZh && s.keys == [KEY_BASE] && s.hints == [HINT_ANY] && s.lru == []
    ensures |Searched(env, s).rows| > 0
  {
    hide ToneFiltered;
    var search, at := env.zh.value, StripAt(s.keys);
    assert s.keys[..0] == [] && at == [0];
    assert Stripped(s.keys)[..1] == [KEY_BASE];
    FilterHas(search([KEY_BASE]), ToneIntent(s.keys, PrefixEnd(s.keys, 1)));
    assert SkipLen(s.keys) == -1;
    ExtendedStarts(RowsFrom(search, s.keys, 2), FoundAt(search, s.keys, 1), PrefixEnd(s.keys, 1), MAX_CANDIDATES);
    assert Lookup([], s.keys, Some(s.hints), MAX_CANDIDATES) == [];
  }

  lemma {:induction false} FirstKey(env: Env) returns (s1: State)
    requires EnvOk(env) && env.composer.None? && env.zh.Some? && |env.zh.value([KEY_BASE])| > 0
    ensures Inv(s1) && s1 == Step(env, Initial([]), Key(0x01, true, 0, 0))
    ensures |s1.keys| == 1 && |s1.rows| > 0 && s1.tap.key == KEY_NONE && !s1.pickerOpen && s1.mode == SmartZh
    ensures s1.said == []
  {
    hide Searched;
    var s0 := Initial([]);
    assert Inv(s0);
    StepKeepsInv(env, s0, Key(0x01, true, 0, 0));
    var t := Appended(s0, KEY_BASE, HINT_ANY).(cycle := s0.cycle.(byteIndex := -1));
    SearchedOk(env, t);
    FirstKeyFinds(env, t);
    s1 := Step(env, s0, Key(0x01, true, 0, 0));
    assert s1 == Searched(env, t);
  }

  lemma {:induction false} OkOverTap(env: Env, s: State, now: U32)
    requires EnvOk(env) && Inv(s) && s.tap.key != KEY_NONE && !s.pickerOpen && |s.keys| == 1 && |s.rows| > 0
    requires s.mode == SmartZh
    ensures var r := Step(env, s, Key(KEY_OK, true, 0, now));
      && Inv(r) && r.tap == s.tap && r.shown == Nothing && r.mode == SmartZh
      && r.said == SaidWord(s, s.rows[SelectedRow(s)].cand.word).said
  {
    hide CommitSelected, Spoken, SaidWord, KeysOk;
    var t := s.(nowMs := now);
    assert Inv(t);
    StepKeepsInv(env, s, Key(KEY_OK, true, 0, now));
    InvAllows(t);
    CommitOk(env, t);
    CommitSelectedConserves(env, t);
    EmptyShowsNothing(env, t);
    SaidAlike(s, t, s.rows[SelectedRow(s)].cand.word);
  }

  lemma {:induction false} SaidAlike(s: State, t: State, word: seq<Byte>)
    requires t == s.(nowMs := t.nowMs)
    ensures SaidWord(t, word).said == SaidWord(s, word).said
  {
  }

  lemma {:induction false} EmptyShowsNothing(env: Env, s: State)
    requires EnvOk(env) && Inv(s) && s.mode == SmartZh && |s.keys| == 1 && |s.rows| > 0
    ensures CommitSelected(env, s).shown == Nothing
  {
    hide Spoken, SaidWord, KeysOk;
    var row := s.rows[SelectedRow(s)];
    InvAllows(s);
    UpsertKeepsValid(s, row.cand.word, row.prefix);
    assert |s.keys| == 1 ==> s.keys[1..] == [];
  }

  lemma {:induction false} TimeoutOfNothing(env: Env, s: State, now: U32)
    requires EnvOk(env) && Inv(s) && s.tap.key == KEY_SYM2 && s.shown == Nothing && s.mode == SmartZh
    requires Elapsed(now, s.tap.lastMs) >= MULTI_TAP_TIMEOUT_MS
    ensures Step(env, s, Tick(now)).said == s.said && Step(env, s, Tick(now)).tap.key == KEY_NONE
  {
    hide Spoken;
  }

  /** It happens: one Chinese key with a candidate, SYM2, OK. The candidate is sent and the multi-tap stays
      active with nothing shown; when it times out, nothing is sent: all that was ever said is the word. */
  lemma {:induction false} LostLabelIsReachable(env: Env) returns (s1: State, s2: State, s3: State, s4: State)
    requires EnvOk(env) && env.composer.None? && env.zh.Some? && |env.zh.value([KEY_BASE])| > 0
    ensures Inv(s1) && Inv(s2) && Inv(s3)
    ensures s1 == Step(env, Initial([]), Key(0x01, true, 0, 0)) && s1.said == [] && |s1.rows| > 0
    ensures s2 == Step(env, s1, Key(KEY_SYM2, true, 0, 0)) && LabelShown(s2)
    ensures s3 == Step(env, s2, Key(KEY_OK, true, 0, 0)) && s3.tap.key == KEY_SYM2 && !LabelShown(s3)
    ensures s4 == Step(env, s3, Tick(MULTI_TAP_TIMEOUT_MS)) && s4.tap.key == KEY_NONE
    ensures var word := s1.rows[SelectedRow(s1)].cand.word; s4.said == if word == [] then [] else [Text(word)]
  {
    hide KeyEvent, Inv;
    s1 := FirstKey(env);
    Sym2Starts(env, s1, 0);
    InvAllows(s1);
    s2 := Step(env, s1, Key(KEY_SYM2, true, 0, 0));
    OkOverTap(env, s2, 0);
    InvAllows(s2);
    s3 := Step(env, s2, Key(KEY_OK, true, 0, 0));
    InvAllows(s3);
    TimeoutOfNothing(env, s3, MULTI_TAP_TIMEOUT_MS);
    s4 := Step(env, s3, Tick(MULTI_TAP_TIMEOUT_MS));
  }
}
