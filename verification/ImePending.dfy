/** What events do to the pending keys: they change only at their ends, commits use them up from the front,
    and the row that shows them is there unless a multi-tap has just been taken away from over it. */
module ImePending {
  import opened Basics
  import opened Bytes
  import opened Composition
  import opened CandidateMerge
  import opened LegacySearch
  import opened Lru
  import opened ImeKeys
  import opened SentText
  import opened ImeMachine

  // ---------------------------------------------------------------- what an event does to the pending keys

  /** The pending keys, each with its hint, change only at their ends: nothing, one appended, the last one
      deleted, a beginning used up, or, keys unchanged, the hint of the cycled key replaced. */
  ghost predicate Edited(s: State, r: State)
    requires |s.hints| == |s.keys|
  {
    || (r.keys == s.keys && r.hints == s.hints)
    || (r.keys == s.keys && s.cycle.byteIndex >= 0 && s.cycle.byteIndex < |s.hints|
        && |r.hints| == |s.hints| && r.hints == s.hints[s.cycle.byteIndex := r.hints[s.cycle.byteIndex]])
    || (|r.keys| == |s.keys| + 1 == |r.hints| && r.keys[..|s.keys|] == s.keys && r.hints[..|s.keys|] == s.hints)
    || (|s.keys| > 0 && r.keys == s.keys[..|s.keys| - 1] && r.hints == s.hints[..|s.keys| - 1])
    || exists n :: 0 <= n <= |s.keys| && r.keys == s.keys[n..] && r.hints == s.hints[n..]
  }

  /** The keys a commit takes: the candidate's prefix, or everything when that is none or too long. */
  function Taken(keys: seq<Byte>, prefix: nat): (n: nat)
    ensures n <= |keys|
  {
    if 0 < prefix <= |keys| then prefix else |keys|
  }

  lemma {:induction false} ConsumedIs(keys: seq<Byte>, prefix: nat)
    ensures var n := ImeMachine.Consumed(keys, prefix);
      && Taken(keys, prefix) <= n <= |keys|
      && (forall i :: Taken(keys, prefix) <= i < n ==> keys[i] == TONE_1 || keys[i] == TONE_34)
      && (n < |keys| ==> keys[n] != TONE_1 && keys[n] != TONE_34)
      && (keys != [] ==> n > 0)
  {
    var taken := Taken(keys, prefix);
    var rest := keys[taken..];
    var m := LeadingTones(rest);
    assert forall i :: taken <= i < taken + m ==> keys[i] == rest[i - taken];
    assert taken + m < |keys| ==> keys[taken + m] == rest[m];
  }

  lemma {:induction false} TrimmedOk(s: State, word: seq<Byte>, prefix: nat)
    requires Inv(s)
    ensures KeysOk(Trimmed(s, word, prefix).keys, Trimmed(s, word, prefix).hints)
  {
    hide Learned, SaidWord, Spoken;
  }

  /** A commit drops the keys it takes, then exactly the tone marks that follow them, from both arrays
      alike; what is left does not begin with a tone mark, and is shorter unless nothing was pending. */
  lemma {:induction false} CommitConserves(env: Env, s: State, word: seq<Byte>, prefix: nat)
    requires EnvOk(env) && Inv(s)
    ensures var r, n := CommitPartial(env, s, word, prefix), ImeMachine.Consumed(s.keys, prefix);
      && r.keys == s.keys[n..] && r.hints == s.hints[n..]
      && Taken(s.keys, prefix) <= n
      && (forall i :: Taken(s.keys, prefix) <= i < n ==> s.keys[i] == TONE_1 || s.keys[i] == TONE_34)
      && (n < |s.keys| ==> s.keys[n] != TONE_1 && s.keys[n] != TONE_34)
      && (s.keys != [] ==> |r.keys| < |s.keys|)
  {
    hide Searched, Upserted, Learned, ImeMachine.Consumed, SaidWord, Spoken;
    UpsertKeepsValid(s, word, prefix);
    ConsumedIs(s.keys, prefix);
    TrimmedOk(s, word, prefix);
    SearchedOk(env, Trimmed(s, word, prefix));
  }

  /** What committing the selected candidate does: its word is said last, and its keys are gone. */
  lemma {:induction false} CommitSelectedConserves(env: Env, s: State)
    requires EnvOk(env) && Inv(s)
    ensures |s.rows| == 0 ==> CommitSelected(env, s) == s
    ensures |s.rows| > 0 ==>
      var r, row := CommitSelected(env, s), s.rows[SelectedRow(s)];
      var n := ImeMachine.Consumed(s.keys, row.prefix);
      && r.keys == s.keys[n..] && r.hints == s.hints[n..] && |r.keys| < |s.keys|
      && r.said == SaidWord(Spaced(s), Cased(s, row.cand.word)).said
  {
    hide Searched, Upserted, Learned, ImeMachine.Consumed, SaidWord, Spoken, Cased, WordFits, Spaced;
    if |s.rows| > 0 {
      var row := s.rows[SelectedRow(s)];
      var t, word := Spaced(s), Cased(s, row.cand.word);
      SpacedFits(s, row.cand.word);
      CommitConserves(env, t, word, row.prefix);
      UpsertKeepsValid(t, word, row.prefix);
      TrimmedOk(t, word, row.prefix);
      SearchedOk(env, Trimmed(t, word, row.prefix));
    }
  }

  /** Candidates are chosen and committed one after another, until there are none or no choice is left. */
  function CommitAll(env: Env, s: State, picks: seq<int>): State
    requires EnvOk(env) && Inv(s)
    decreases |picks|
  {
    if |picks| == 0 || |s.rows| == 0 then s
    else
      var chosen := Selected(s, picks[0]);
      StepKeepsInv(env, s, Select(picks[0]));
      CommitOk(env, chosen);
      CommitAll(env, CommitSelected(env, chosen), picks[1..])
  }

  /** Whichever candidates are chosen, committing ends, and within as many commits as there are pending
      keys: each commit leaves fewer. */
  lemma {:induction false} CommitsEnd(env: Env, s: State, picks: seq<int>)
    requires EnvOk(env) && Inv(s)
    ensures |picks| >= |s.keys| ==> CommitAll(env, s, picks).rows == []
    ensures CommitAll(env, s, picks).rows != [] ==> |CommitAll(env, s, picks).keys| + |picks| <= |s.keys|
    decreases |picks|
  {
    hide Inv, CommitSelected;
    RowsNeedKeys(s);
    if |picks| > 0 && |s.rows| > 0 {
      var chosen := Selected(s, picks[0]);
      StepKeepsInv(env, s, Select(picks[0]));
      InvAllows(chosen);
      CommitOk(env, chosen);
      CommitSelectedConserves(env, chosen);
      CommitsEnd(env, CommitSelected(env, chosen), picks[1..]);
    }
  }

  lemma {:induction false} RowsNeedKeys(s: State)
    requires Inv(s)
    ensures s.keys == [] ==> s.rows == []
  {
    hide Spoken;
    if |s.rows| > 0 { assert s.rows[0].prefix >= 1; }
  }

  lemma {:induction false} SearchedEdits(env: Env, s: State, t: State)
    requires EnvOk(env) && KeysOk(s.keys, s.hints) && KeysOk(t.keys, t.hints) && LruOk(t.lru) && Edited(s, t)
    ensures Edited(s, Searched(env, t))
  {
    hide Edited;
    SearchedOk(env, t);
    SameEdit(s, t, Searched(env, t));
  }

  lemma {:induction false} SameEdit(s: State, t: State, r: State)
    requires |s.hints| == |s.keys| && Edited(s, t) && r.keys == t.keys && r.hints == t.hints
    ensures Edited(s, r)
  {
  }

  lemma {:induction false} CommitEdits(env: Env, s: State)
    requires EnvOk(env) && Inv(s)
    ensures Edited(s, CommitSelected(env, s))
  {
    hide CommitSelected;
    CommitSelectedConserves(env, s);
  }

  lemma {:induction false} AllDropped(s: State, r: State)
    requires |s.hints| == |s.keys| && r.keys == [] && r.hints == []
    ensures Edited(s, r)
  {
    assert r.keys == s.keys[|s.keys|..] && r.hints == s.hints[|s.keys|..];
  }

  lemma {:induction false} LongPressEdits(env: Env, s: State, slot: nat, now: U32)
    requires EnvOk(env) && Inv(s) && s.mode == SmartZh && slot < SLOTS
    ensures Edited(s, LongPress(env, s, slot, now)) && LongPress(env, s, slot, now).tap == s.tap
  {
    hide Searched, Edited;
    if CanCycle(s, slot, now) {
      var p := (s.cycle.phoneme + 1) % PhonemeCount(slot);
      var t := s.(cycle := s.cycle.(phoneme := p, lastMs := now), hints := s.hints[s.cycle.byteIndex := p]);
      HintEdited(s, t, p);
      SearchedEdits(env, s, t);
      SearchedOk(env, t);
    } else if |s.keys| < MAX_KEY_SEQ {
      AppendEdits(env, s, KEY_BASE + slot, 0, Cycle(|s.keys|, slot, 0, now));
    }
    SameEdit(s, s, s);
  }

  lemma {:induction false} HintEdited(s: State, t: State, p: Byte)
    requires Inv(s) && s.cycle.byteIndex >= 0 && p < PhonemeCount(s.cycle.slot)
    requires t.keys == s.keys && t.hints == s.hints[s.cycle.byteIndex := p] && t.lru == s.lru
    ensures Edited(s, t) && KeysOk(t.keys, t.hints) && LruOk(t.lru)
  {
  }

  lemma {:induction false} AppendEdits(env: Env, s: State, key: Byte, hint: Byte, cycle: Cycle)
    requires EnvOk(env) && Inv(s) && |s.keys| < MAX_KEY_SEQ && KeyOk(key, hint)
    ensures Edited(s, Searched(env, Appended(s, key, hint).(cycle := cycle)))
    ensures Searched(env, Appended(s, key, hint).(cycle := cycle)).tap == s.tap
  {
    hide Searched;
    SearchedEdits(env, s, Appended(s, key, hint).(cycle := cycle));
    SearchedOk(env, Appended(s, key, hint).(cycle := cycle));
  }

  lemma {:induction false} ShortPressEdits(env: Env, s: State, slot: nat)
    requires EnvOk(env) && Inv(s) && slot < SLOTS
    ensures Edited(s, ShortPress(env, s, slot)) && ShortPress(env, s, slot).tap == s.tap
  {
    hide Searched, Edited;
    if |s.keys| < MAX_KEY_SEQ { AppendEdits(env, s, KEY_BASE + slot, HINT_ANY, s.cycle.(byteIndex := -1)); }
    SameEdit(s, s, s);
  }

  lemma {:induction false} EnglishDoneEdits(env: Env, s: State)
    requires EnvOk(env) && Inv(s)
    ensures Edited(s, EnglishDone(env, s)) && EnglishDone(env, s).tap == s.tap
  {
    hide CommitSelected, Edited;
    CommitEdits(env, s);
    CommitOk(env, s);
    AllDropped(s, Discarded(s));
    SameEdit(s, s, s);
  }

  lemma {:induction false} SpaceEdits(env: Env, s: State)
    requires EnvOk(env) && Inv(s)
    ensures Edited(s, SpaceKey(env, s)) && SpaceKey(env, s).tap == s.tap
  {
    hide Searched, Edited, EnglishDone, Say, Spoken;
    EnglishDoneEdits(env, s);
    SayOk(s, SPACE_TEXT);
    SayOk(EnglishDone(env, s), SPACE_TEXT);
    SameEdit(s, s, Say(s, SPACE_TEXT));
    SameEdit(s, EnglishDone(env, s), Say(EnglishDone(env, s), SPACE_TEXT));
    if |s.keys| < MAX_KEY_SEQ {
      AppendEdits(env, s, TONE_1, HINT_ANY, s.cycle);
      assert Appended(s, TONE_1, HINT_ANY).(cycle := s.cycle) == Appended(s, TONE_1, HINT_ANY);
    }
    SameEdit(s, s, s);
  }

  lemma {:induction false} SmartEdits(env: Env, s: State, code: Byte, flags: Byte, now: U32)
    requires EnvOk(env) && Inv(s) && s.mode != Direct
    ensures Edited(s, SmartKey(env, s, code, flags, now))
    ensures !(SlotOf(code).Some? && s.mode == SmartEn && HasDigits(SlotOf(code).value)) ==>
      SmartKey(env, s, code, flags, now).tap == s.tap
  {
    hide SpaceKey, EnglishDone, LongPress, ShortPress, Edited;
    SpaceEdits(env, s);
    EnglishDoneEdits(env, s);
    if SlotOf(code).Some? {
      ShortPressEdits(env, s, SlotOf(code).value);
      if s.mode == SmartZh { LongPressEdits(env, s, SlotOf(code).value, now); }
      SameEdit(s, EnglishDone(env, s), TapPressed(EnglishDone(env, s), code, 2, now));
      SameEdit(s, s, TapPressed(s, code, 2, now));
    }
    SameEdit(s, s, TabKey(s));
    SameEdit(s, s, s);
  }

  lemma {:induction false} DelEdits(env: Env, s: State)
    requires EnvOk(env) && Inv(s)
    ensures Edited(s, Del(env, s))
  {
    hide Searched, Spoken;
    var n := |s.keys|;
    if s.tap.key == KEY_NONE && n > 0 {
      SearchedEdits(env, s, s.(keys := s.keys[..n - 1], hints := s.hints[..n - 1],
                               cycle := if s.cycle.byteIndex >= n - 1 then s.cycle.(byteIndex := -1) else s.cycle));
    }
  }

  lemma {:induction false} SameKeysEdit(s: State, r: State)
    requires |s.hints| == |s.keys| && r.keys == s.keys && r.hints == s.hints
    ensures Edited(s, r)
  {
  }

  lemma {:induction false} PressedEdits(env: Env, s: State, code: Byte, flags: Byte, now: U32)
    requires EnvOk(env) && Inv(s) && code != KEY_NONE
    ensures Edited(s, Pressed(env, s, code, flags, now))
  {
    hide Searched, CommitSelected, SmartKey, TapCommitted, Del, Say, Inv, Edited, SlotOf, TapPressed;
    InvAllows(s);
    TapCommittedOk(s);
    var r, t := Pressed(env, s, code, flags, now), if s.tap.key != code then TapCommitted(s) else s;
    if code == KEY_MODE {
      AllDropped(s, r);
    } else if code == KEY_DEL {
      DelEdits(env, s);
    } else if code == KEY_OK {
      CommitEdits(env, s);
      SayOk(s, NEWLINE_TEXT);
      if |s.rows| == 0 { SameKeysEdit(s, r); }
    } else if IsDpad(code) || code == KEY_SYM2 {
      SameKeysEdit(s, r);
    } else if s.mode == Direct {
      DirectKeepsKeys(t, code, now);
      SameKeysEdit(s, r);
    } else {
      SmartEdits(env, t, code, flags, now);
      EditedFrom(s, t, r);
    }
  }

  lemma {:induction false} EditedFrom(s: State, t: State, r: State)
    requires |s.hints| == |s.keys| && t.keys == s.keys && t.hints == s.hints && t.cycle == s.cycle && Edited(t, r)
    ensures Edited(s, r)
  {
  }

  lemma {:induction false} DirectKeepsKeys(s: State, code: Byte, now: U32)
    requires Inv(s)
    ensures DirectKey(s, code, now).keys == s.keys && DirectKey(s, code, now).hints == s.hints
  {
    hide Inv, Say, TapCommitted, SkipUnlabelled, LabelCount;
    InvAllows(s);
    TapCommittedOk(s);
    SayOk(TapCommitted(s), SPACE_TEXT);
    SayOk(TapCommitted(s), TAB_TEXT);
  }

  /** No event reorders, rewrites or inserts pending keys, and keys and hints stay aligned. */
  lemma {:induction false} StepEdits(env: Env, s: State, e: Event)
    requires EnvOk(env) && Inv(s)
    ensures Edited(s, Step(env, s, e))
  {
    hide Pressed, Sym1Key, Picker, Ticked, Edited, Spoken;
    match e
    case Key(code, pressed, flags, now) =>
      var t := s.(nowMs := now);
      assert Inv(t);
      if code == KEY_SYM1 {
        Sym1KeepsKeys(t, pressed, now);
        SameKeysEdit(s, Step(env, s, e));
      } else if IgnoredCode(code) || !pressed {
        SameKeysEdit(s, t);
      } else if s.pickerOpen {
        PickerKeepsKeys(t, code);
        SameKeysEdit(s, Step(env, s, e));
      } else {
        PressedEdits(env, t, code, flags, now);
        EditedFrom(s, t, Step(env, s, e));
      }
    case Tick(now) =>
      TickKeepsKeys(s, now);
      SameKeysEdit(s, Step(env, s, e));
    case Abort => AllDropped(s, Aborted(s));
    case Select(_) => SameKeysEdit(s, Step(env, s, e));
    case SetContext(_) => SameKeysEdit(s, Step(env, s, e));
  }

  lemma {:induction false} Sym1KeepsKeys(s: State, pressed: bool, now: U32)
    requires Inv(s)
    ensures Sym1Key(s, pressed, now).keys == s.keys && Sym1Key(s, pressed, now).hints == s.hints
  {
    hide Spoken, TapCommitted, Say;
    var up := s.(sym1 := s.sym1.(down := false));
    if !pressed && s.sym1.down && !s.sym1.longFired {
      assert Inv(up);
      TapCommittedOk(up);
      SayOk(TapCommitted(up), CommaText(s.mode));
    }
  }

  lemma {:induction false} PickerKeepsKeys(s: State, code: Byte)
    requires Inv(s)
    ensures Picker(s, code).keys == s.keys && Picker(s, code).hints == s.hints
  {
    hide Spoken, Say, SymbolText;
    SayOk(s.(pickerOpen := false, pickerSel := 0), SymbolText(s.pickerSel));
  }

  lemma {:induction false} TickKeepsKeys(s: State, now: U32)
    requires Inv(s)
    ensures Ticked(s, now).keys == s.keys && Ticked(s, now).hints == s.hints
  {
    hide Spoken, TapCommitted;
    assert Inv(s.(nowMs := now));
    TapCommittedOk(s.(nowMs := now));
  }

  // ---------------------------------------------------------------- when the pending keys are shown

  /** With keys pending and no multi-tap over them, the row shows the keys. */
  predicate RowShown(s: State) {
    s.keys != [] && s.tap.key == KEY_NONE ==> s.shown == Pending
  }

  /** The event takes a multi-tap away from over pending keys, and searches nothing after it. */
  predicate HidesRow(s: State, e: Event) {
    s.tap.key != KEY_NONE && s.keys != [] &&
    match e
    case Tick(now) => Elapsed(now, s.tap.lastMs) >= MULTI_TAP_TIMEOUT_MS
    case Key(code, pressed, flags, now) =>
      if IgnoredCode(code) then false
      else if code == KEY_SYM1 then !pressed && s.sym1.down && !s.sym1.longFired && !s.pickerOpen
      else pressed && !s.pickerOpen && PressHidesRow(s, code, flags, now)
    case _ => false
  }

  predicate PressHidesRow(s: State, code: Byte, flags: Byte, now: U32)
    requires s.keys != []
  {
    if code == KEY_DEL then true
    else if code == KEY_OK then s.rows == []
    else if code == KEY_MODE || IsDpad(code) || code == KEY_SYM2 || code == s.tap.key then false
    else if code == KEY_SPACE then MarkerIsRefused(s)
    else
      match SlotOf(code)
      case None => true
      case Some(slot) => !(s.mode == SmartEn && HasDigits(slot)) && KeyIsRefused(s, slot, flags, now)
  }

  /** No room for another key, and no hint to cycle. */
  predicate KeyIsRefused(s: State, slot: nat, flags: Byte, now: U32) {
    |s.keys| >= MAX_KEY_SEQ && !(s.mode == SmartZh && flags % 2 == 1 && CanCycle(s, slot, now))
  }

  lemma {:induction false} SmartRow(env: Env, s: State, code: Byte, flags: Byte, now: U32)
    requires EnvOk(env) && Inv(s) && s.mode != Direct && (s.tap.key == KEY_NONE || s.tap.key == code)
    ensures RowShown(SmartKey(env, s, code, flags, now)) <==>
      RowShown(s)
      || (if code == KEY_SPACE then !MarkerIsRefused(s)
          else match SlotOf(code)
               case None => false
               case Some(slot) => (s.mode == SmartEn && HasDigits(slot)) || !KeyIsRefused(s, slot, flags, now))
  {
    hide SpaceKey, EnglishDone, TapPressed, LongPress, ShortPress, Inv, MarkerIsRefused;
    InvAllows(s);
    if code == KEY_SPACE {
      SpaceRow(env, s);
    } else if SlotOf(code).Some? {
      var slot := SlotOf(code).value;
      if s.mode == SmartEn && HasDigits(slot) {
        EnglishDoneOk(env, s);
        TapPressedOk(if |s.keys| > 0 then EnglishDone(env, s) else s, code, now);
      } else if s.mode == SmartZh && flags % 2 == 1 {
        LongPressRow(env, s, slot, now);
      } else {
        ShortPressRow(env, s, slot);
      }
    }
  }

  predicate MarkerIsRefused(s: State) {
    s.keys != [] && s.mode == SmartZh && (s.keys[|s.keys| - 1] == TONE_1 || |s.keys| >= MAX_KEY_SEQ)
  }

  lemma {:induction false} SpaceRow(env: Env, s: State)
    requires EnvOk(env) && Inv(s) && s.mode != Direct
    ensures RowShown(SpaceKey(env, s)) <==> RowShown(s) || !MarkerIsRefused(s)
  {
    hide Searched, CommitSelected, Spoken, Say;
    SayOk(s, SPACE_TEXT);
    if s.mode == SmartEn {
      EnglishRow(env, s);
      SayOk(EnglishDone(env, s), SPACE_TEXT);
    } else if s.keys != [] && s.keys[|s.keys| - 1] != TONE_1 && |s.keys| < MAX_KEY_SEQ {
      SearchShows(env, Appended(s, TONE_1, HINT_ANY));
    }
  }

  lemma {:induction false} SearchShows(env: Env, s: State)
    requires EnvOk(env) && KeysOk(s.keys, s.hints) && LruOk(s.lru)
    ensures Searched(env, s).keys == s.keys && Searched(env, s).tap == s.tap
    ensures s.keys != [] ==> Searched(env, s).shown == Pending
  {
    hide DictFound, Lookup, Merged;
  }

  lemma {:induction false} CommitRow(env: Env, s: State)
    requires EnvOk(env) && Inv(s) && |s.rows| > 0
    ensures RowShown(CommitSelected(env, s))
  {
    hide Searched, Upserted, Learned, ImeMachine.Consumed, SaidWord, Spoken, Cased, WordFits, Spaced;
    var row := s.rows[SelectedRow(s)];
    var t, word := Spaced(s), Cased(s, row.cand.word);
    SpacedFits(s, row.cand.word);
    UpsertKeepsValid(t, word, row.prefix);
    SaidWordOk(t, word);
    TrimmedOk(t, word, row.prefix);
    SearchShows(env, Trimmed(t, word, row.prefix));
  }

  lemma {:induction false} EnglishRow(env: Env, s: State)
    requires EnvOk(env) && Inv(s) && s.mode == SmartEn
    ensures RowShown(EnglishDone(env, s))
  {
    hide CommitSelected, Inv;
    InvAllows(s);
    if |s.rows| > 0 { CommitRow(env, s); }
  }

  lemma {:induction false} LongPressRow(env: Env, s: State, slot: nat, now: U32)
    requires EnvOk(env) && Inv(s) && s.mode == SmartZh && slot < SLOTS
    ensures RowShown(LongPress(env, s, slot, now)) <==> RowShown(s) || CanCycle(s, slot, now) || |s.keys| < MAX_KEY_SEQ
  {
    hide Searched, Spoken;
    if CanCycle(s, slot, now) {
      var p := (s.cycle.phoneme + 1) % PhonemeCount(slot);
      SearchShows(env, s.(cycle := s.cycle.(phoneme := p, lastMs := now), hints := s.hints[s.cycle.byteIndex := p]));
    } else if |s.keys| < MAX_KEY_SEQ {
      SearchShows(env, Appended(s, KEY_BASE + slot, 0).(cycle := Cycle(|s.keys|, slot, 0, now)));
    }
  }

  lemma {:induction false} ShortPressRow(env: Env, s: State, slot: nat)
    requires EnvOk(env) && Inv(s) && slot < SLOTS
    ensures RowShown(ShortPress(env, s, slot)) <==> RowShown(s) || |s.keys| < MAX_KEY_SEQ
  {
    hide Searched, Spoken;
    if |s.keys| < MAX_KEY_SEQ {
      SearchShows(env, Appended(s, KEY_BASE + slot, HINT_ANY).(cycle := s.cycle.(byteIndex := -1)));
    }
  }

  lemma {:induction false} DelRow(env: Env, s: State)
    requires EnvOk(env) && Inv(s) && RowShown(s)
    ensures RowShown(Del(env, s)) <==> s.tap.key == KEY_NONE || s.keys == []
  {
    hide Searched, Spoken;
    var n := |s.keys|;
    if s.tap.key == KEY_NONE && n > 0 {
      SearchShows(env, s.(keys := s.keys[..n - 1], hints := s.hints[..n - 1],
                          cycle := if s.cycle.byteIndex >= n - 1 then s.cycle.(byteIndex := -1) else s.cycle));
    }
  }

  lemma {:induction false} PressedRow(env: Env, s: State, code: Byte, flags: Byte, now: U32)
    requires EnvOk(env) && Inv(s) && RowShown(s) && code != KEY_NONE
    ensures RowShown(Pressed(env, s, code, flags, now)) <==>
      !(s.tap.key != KEY_NONE && s.keys != [] && PressHidesRow(s, code, flags, now))
  {
    hide Inv, Say, TapCommitted, Del, CommitSelected, SmartKey, CanCycle;
    InvAllows(s);
    TapCommittedOk(s);
    if code == KEY_DEL {
      DelRow(env, s);
    } else if code == KEY_OK {
      SayOk(s, NEWLINE_TEXT);
      if |s.rows| > 0 { CommitRow(env, s); }
    } else if code != KEY_MODE && !IsDpad(code) && code != KEY_SYM2 {
      var t := if s.tap.key != code then TapCommitted(s) else s;
      InvAllows(t);
      if s.mode == Direct {
        DirectKeepsKeys(t, code, now);
        DirectHasNoKeys(s);
      } else {
        SmartRow(env, t, code, flags, now);
        CyclesAlike(s, t, flags, now);
      }
    }
  }

  lemma {:induction false} DirectHasNoKeys(s: State)
    requires Inv(s) && s.mode == Direct
    ensures s.keys == []
  {
  }

  lemma {:induction false} CyclesAlike(s: State, t: State, flags: Byte, now: U32)
    requires t.cycle == s.cycle && t.keys == s.keys && t.mode == s.mode
    ensures forall slot :: CanCycle(t, slot, now) <==> CanCycle(s, slot, now)
  {
  }

  /** The row stops showing the pending keys exactly when an event takes a multi-tap away from over them
      and does not search again. */
  lemma {:induction false} RowIsHiddenExactlyWhen(env: Env, s: State, e: Event)
    requires EnvOk(env) && Inv(s) && RowShown(s)
    ensures RowShown(Step(env, s, e)) <==> !HidesRow(s, e)
  {
    hide Pressed, Picker, TapCommitted, Say, Spoken, PressHidesRow;
    match e
    case Key(code, pressed, flags, now) =>
      var t := s.(nowMs := now);
      assert Inv(t);
      if code == KEY_SYM1 {
        var up := t.(sym1 := s.sym1.(down := false));
        if !pressed && s.sym1.down && !s.sym1.longFired {
          assert Inv(up);
          TapCommittedOk(up);
          SayOk(TapCommitted(up), CommaText(s.mode));
        }
      } else if !IgnoredCode(code) && pressed {
        if s.pickerOpen {
          PickerRow(t, code);
        } else {
          PressedRow(env, t, code, flags, now);
          PressHidesAlike(s, t, code, flags, now);
        }
      }
    case Tick(now) =>
      assert Inv(s.(nowMs := now));
      TapCommittedOk(s.(nowMs := now));
    case _ =>
  }

  lemma {:induction false} PressHidesAlike(s: State, t: State, code: Byte, flags: Byte, now: U32)
    requires t == s.(nowMs := now)
    ensures s.keys != [] ==> PressHidesRow(t, code, flags, now) == PressHidesRow(s, code, flags, now)
  {
  }

  lemma {:induction false} PickerRow(s: State, code: Byte)
    requires Inv(s)
    ensures RowShown(Picker(s, code)) == RowShown(s)
  {
    hide Spoken, Say, SymbolText;
    SayOk(s.(pickerOpen := false, pickerSel := 0), SymbolText(s.pickerSel));
  }

  // ---------------------------------------------------------------- a row that is hidden

  /** A short press in Chinese mode adds its key and shows the pending keys. */
  lemma {:induction false} ShortPressAdds(env: Env, s: State, code: Byte, now: U32)
    requires EnvOk(env) && Inv(s) && s.mode == SmartZh && |s.keys| < MAX_KEY_SEQ && SlotOf(code).Some? && !s.pickerOpen
    requires s.tap.key == KEY_NONE
    ensures var r := Step(env, s, Key(code, true, 0, now));
      && Inv(r) && r.keys == s.keys + [KEY_BASE + SlotOf(code).value] && r.hints == s.hints + [HINT_ANY] && r.shown == Pending
      && r.tap == s.tap && r.mode == s.mode && !r.pickerOpen && r.lru == s.lru && r.sym1 == s.sym1
  {
    hide Searched, Spoken, LruOk;
    StepKeepsInv(env, s, Key(code, true, 0, now));
    InvAllows(s);
    var t := Appended(s, KEY_BASE + SlotOf(code).value, HINT_ANY).(cycle := s.cycle.(byteIndex := -1), nowMs := now);
    SearchedOk(env, t);
    SearchShows(env, t);
  }

  lemma {:induction false} Sym2Starts(env: Env, s: State, now: U32)
    requires EnvOk(env) && Inv(s) && s.tap.key == KEY_NONE && !s.pickerOpen
    ensures var r := Step(env, s, Key(KEY_SYM2, true, 0, now));
      && Inv(r) && r == s.(tap := Tap(KEY_SYM2, 0, 3, now), shown := Label(KEY_SYM2, 0), nowMs := now)
  {
    hide RowsOk, KeysOk, CycleOk, TapOk, PickerOk, LruOk, Spoken;
    StepKeepsInv(env, s, Key(KEY_SYM2, true, 0, now));
  }

  /** After a press the rows are those of a search for what is pending. */
  lemma {:induction false} ShortPressSearches(env: Env, s: State, code: Byte, now: U32)
    requires EnvOk(env) && Inv(s) && s.mode == SmartZh && |s.keys| < MAX_KEY_SEQ && SlotOf(code).Some? && !s.pickerOpen
    requires s.tap.key == KEY_NONE
    ensures var r := Step(env, s, Key(code, true, 0, now)); Inv(r) && r.rows == Searched(env, r).rows
  {
    hide Spoken, DictFound, Lookup, Merged, KeysOk, RowsOk, CycleOk;
    StepKeepsInv(env, s, Key(code, true, 0, now));
    InvAllows(s);
    var t := Appended(s, KEY_BASE + SlotOf(code).value, HINT_ANY).(cycle := s.cycle.(byteIndex := -1), nowMs := now);
    assert Step(env, s, Key(code, true, 0, now)) == Searched(env, t);
  }

  lemma {:induction false} CommitKeepsPicker(env: Env, s: State)
    requires |s.hints| == |s.keys| && LruOk(s.lru)
    ensures CommitSelected(env, s).pickerOpen == s.pickerOpen
  {
    hide ListedRows, DictFound, Learned, DisplayText, AfterText, Capital, LruOk, ImeMachine.Consumed;
    if |s.rows| > 0 {
      var row := s.rows[SelectedRow(s)];
      UpsertKeepsValid(Spaced(s), Cased(s, row.cand.word), row.prefix);
    }
  }

  lemma {:induction false} TapTimesOut(env: Env, s: State, now: U32)
    requires EnvOk(env) && Inv(s) && s.tap.key != KEY_NONE && Elapsed(now, s.tap.lastMs) >= MULTI_TAP_TIMEOUT_MS
    ensures var r := Step(env, s, Tick(now)); r.keys == s.keys && r.tap == NO_TAP && r.shown == Nothing
  {
    hide Spoken, Say, DisplayText;
    SayOk(s.(nowMs := now), DisplayText(s.(nowMs := now)));
    SayOk(Say(s.(nowMs := now), DisplayText(s.(nowMs := now))).(tap := NO_TAP, shown := Nothing), SPACE_TEXT);
  }

  /** It happens from start-up, whatever the dictionaries: one key, SYM2, and its timeout. The key is still
      pending, no multi-tap is active, and the row shows nothing. */
  lemma {:induction false} HiddenRowIsReachable(env: Env) returns (s1: State, s2: State, s3: State)
    requires EnvOk(env)
    ensures Inv(s1) && Inv(s2)
    ensures s1 == Step(env, Initial([]), Key(0x01, true, 0, 0)) && s1.keys == [KEY_BASE] && s1.shown == Pending
    ensures s2 == Step(env, s1, Key(KEY_SYM2, true, 0, 0)) && RowShown(s2)
    ensures s3 == Step(env, s2, Tick(MULTI_TAP_TIMEOUT_MS))
    ensures s3.keys == [KEY_BASE] && s3.tap.key == KEY_NONE && s3.shown == Nothing && !RowShown(s3)
  {
    hide KeyEvent, Ticked, Inv;
    EveryRunIsSafe(env, [], []);
    ShortPressAdds(env, Initial([]), 0x01, 0);
    s1 := Step(env, Initial([]), Key(0x01, true, 0, 0));
    InvAllows(s1);
    Sym2Starts(env, s1, 0);
    s2 := Step(env, s1, Key(KEY_SYM2, true, 0, 0));
    InvAllows(s2);
    TapTimesOut(env, s2, MULTI_TAP_TIMEOUT_MS);
    s3 := Step(env, s2, Tick(MULTI_TAP_TIMEOUT_MS));
  }
}
