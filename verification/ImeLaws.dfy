/** Laws of single keys and timers: which way each one goes, and which ones undo each other. */
module ImeLaws {
  import opened Basics
  import opened Bytes
  import opened Composition
  import opened CandidateMerge
  import opened Lru
  import opened ImeKeys
  import opened SentText
  import opened ImeMachine
  import opened ImePending

  function Press(code: Byte): Event {
    Key(code, true, 0, 0)
  }

  // ---------------------------------------------------------------- MODE

  /** MODE goes from Chinese to English to direct input and back to Chinese, and nothing stays pending. */
  lemma {:induction false} ModeGoesRound(env: Env, s: State, flags: Byte, now: U32)
    requires EnvOk(env) && Inv(s) && !s.pickerOpen
    ensures var r := Step(env, s, Key(KEY_MODE, true, flags, now));
      && Inv(r) && !r.pickerOpen && r.keys == [] && r.rows == [] && r.tap.key == KEY_NONE
      && (s.mode == SmartZh ==> r.mode == SmartEn) && (s.mode == SmartEn ==> r.mode == Direct) && (s.mode == Direct ==> r.mode == SmartZh)
  {
    hide CommitSelected, TapCommitted, Spoken;
    StepKeepsInv(env, s, Key(KEY_MODE, true, flags, now));
    var t := s.(nowMs := now);
    assert Inv(t);
    InvAllows(t);
    TapCommittedOk(t);
    CommitOk(env, t);
    CommitKeepsPicker(env, t);
  }

  lemma {:induction false} RunThen(env: Env, s: State, events: seq<Event>, e: Event)
    requires EnvOk(env) && Inv(s)
    ensures InvAllowing(Run(env, s, events))
    ensures Run(env, s, events + [e]) == Step(env, Run(env, s, events), e)
  {
    hide Step, Inv;
    InvAllows(Run(env, s, events));
    assert (events + [e])[..|events|] == events;
  }

  /** What a step asks of a state. */
  predicate InvAllowing(s: State) {
    |s.hints| == |s.keys| && LruOk(s.lru) && s.cycle.byteIndex < |s.keys| && s.pickerSel < PICKER_CELLS
  }

  /** Three presses return to the mode. */
  lemma {:induction false} ThreeModesReturn(env: Env, s: State)
    requires EnvOk(env) && Inv(s) && !s.pickerOpen
    ensures Run(env, s, [Press(KEY_MODE), Press(KEY_MODE), Press(KEY_MODE)]).mode == s.mode
  {
    hide Step, Inv, Run;
    var m := Press(KEY_MODE);
    RunThen(env, s, [], m);
    RunThen(env, s, [m], m);
    RunThen(env, s, [m, m], m);
    assert [] + [m] == [m] && [m] + [m] == [m, m] && [m, m] + [m] == [m, m, m];
    RunOfNothing(env, s);
    ModeGoesRound(env, s, 0, 0);
    ModeGoesRound(env, Run(env, s, [m]), 0, 0);
    ModeGoesRound(env, Run(env, s, [m, m]), 0, 0);
  }

  lemma {:induction false} RunOfNothing(env: Env, s: State)
    requires EnvOk(env) && Inv(s)
    ensures Run(env, s, []) == s
  {
  }

  // ---------------------------------------------------------------- the candidate list

  /** With candidates, RIGHT selects the next one and LEFT the one before, going round at the ends; UP and DOWN do
      nothing. Without any, the move is passed on. */
  lemma {:induction false} ArrowsSelect(env: Env, s: State, code: Byte, flags: Byte, now: U32)
    requires EnvOk(env) && Inv(s) && !s.pickerOpen && IsDpad(code)
    ensures var r, n := Step(env, s, Key(code, true, flags, now)), |s.rows|;
      && r == s.(selected := r.selected, nowMs := now, said := r.said)
      && (n > 0 ==> r.said == s.said)
      && (n > 0 && code == KEY_RIGHT ==> r.selected == if s.selected == n - 1 then 0 else s.selected + 1)
      && (n > 0 && code == KEY_LEFT ==> r.selected == if s.selected == 0 then n - 1 else s.selected - 1)
      && (n == 0 || code == KEY_UP || code == KEY_DOWN ==> r.selected == s.selected)
      && (n == 0 ==> r.said == s.said + [CursorMove(code)])
  {
    hide Inv, Dpad;
    InvAllows(s);
    InvSelects(s);
    DpadMoves(s.(nowMs := now), code);
  }

  lemma {:induction false} DpadMoves(s: State, code: Byte)
    requires IsDpad(code) && (|s.rows| > 0 ==> s.selected < |s.rows|)
    ensures var r, n := Dpad(s, code), |s.rows|;
      && r == s.(selected := r.selected, said := r.said)
      && (n > 0 ==> r.said == s.said)
      && (n > 0 && code == KEY_RIGHT ==> r.selected == if s.selected == n - 1 then 0 else s.selected + 1)
      && (n > 0 && code == KEY_LEFT ==> r.selected == if s.selected == 0 then n - 1 else s.selected - 1)
      && (n == 0 || code == KEY_UP || code == KEY_DOWN ==> r.selected == s.selected)
      && (n == 0 ==> r.said == s.said + [CursorMove(code)])
  {
    if |s.rows| > 0 { RoundTheEnds(s.selected, |s.rows|); }
  }

  lemma {:induction false} RoundTheEnds(x: nat, n: nat)
    requires x < n
    ensures (x + 1) % n == if x == n - 1 then 0 else x + 1
    ensures (x + n - 1) % n == if x == 0 then n - 1 else x - 1
  {
  }

  lemma {:induction false} InvSelects(s: State)
    requires Inv(s)
    ensures |s.rows| > 0 ==> s.selected < |s.rows|
  {
    hide Spoken, KeysOk, CycleOk, TapOk, LruOk;
  }

  /** LEFT undoes RIGHT and RIGHT undoes LEFT. */
  lemma {:induction false} ArrowsUndo(env: Env, s: State, a: Byte, b: Byte)
    requires EnvOk(env) && Inv(s) && !s.pickerOpen && |s.rows| > 0
    requires (a == KEY_LEFT && b == KEY_RIGHT) || (a == KEY_RIGHT && b == KEY_LEFT)
    ensures Inv(Step(env, s, Press(a)))
    ensures Step(env, Step(env, s, Press(a)), Press(b)) == s.(nowMs := 0)
  {
    hide Step, Inv;
    InvAllows(s);
    InvSelects(s);
    StepKeepsInv(env, s, Press(a));
    ArrowsSelect(env, s, a, 0, 0);
    InvAllows(Step(env, s, Press(a)));
    ArrowsSelect(env, Step(env, s, Press(a)), b, 0, 0);
  }

  /** TAB selects the first candidate of the next page of five, and after the last page the first of all. */
  lemma {:induction false} TabTurnsThePage(env: Env, s: State, flags: Byte, now: U32)
    requires EnvOk(env) && Inv(s) && !s.pickerOpen && s.mode != Direct && |s.rows| > 0 && s.tap.key == KEY_NONE
    ensures var r, pages := Step(env, s, Key(KEY_TAB, true, flags, now)), (|s.rows| + 4) / 5;
      && r == s.(selected := r.selected, nowMs := now)
      && r.selected == 5 * ((s.selected / 5 + 1) % pages)
  {
    hide Spoken, KeysOk, LruOk, CycleOk, TapOk;
    var n, page := |s.rows|, s.selected / 5;
    NextPage(n, page);
  }

  lemma {:induction false} NextPage(n: nat, page: nat)
    requires n > 0 && 5 * page < n
    ensures page < (n + 4) / 5
    ensures (page + 1) % ((n + 4) / 5) == if 5 * (page + 1) >= n then 0 else page + 1
  {
    var pages := (n + 4) / 5;
    assert pages * 5 >= n && (pages - 1) * 5 < n;
    if page + 1 == pages { assert (page + 1) % pages == 0; }
  }

  ghost function Tabs(env: Env, s: State, k: nat): (r: State)
    requires EnvOk(env) && Inv(s)
    ensures Inv(r)
  {
    Run(env, s, seq(k, _ => Press(KEY_TAB)))
  }

  lemma {:induction false} OneMoreTab(env: Env, s: State, k: nat)
    requires EnvOk(env) && Inv(s)
    ensures InvAllowing(Tabs(env, s, k)) && Tabs(env, s, 0) == s
    ensures Tabs(env, s, k + 1) == Step(env, Tabs(env, s, k), Press(KEY_TAB))
  {
    hide Step, Inv, Run;
    RunThen(env, s, seq(k, _ => Press(KEY_TAB)), Press(KEY_TAB));
    assert seq(k, _ => Press(KEY_TAB)) + [Press(KEY_TAB)] == seq(k + 1, _ => Press(KEY_TAB));
    assert seq(0, _ => Press(KEY_TAB)) == [];
    RunOfNothing(env, s);
  }

  /** So pressing it again and again reaches every page. */
  lemma {:induction false} TabReachesEveryPage(env: Env, s: State, k: nat)
    requires EnvOk(env) && Inv(s) && !s.pickerOpen && s.mode != Direct && |s.rows| > 0 && s.tap.key == KEY_NONE && k > 0
    ensures var r, pages := Tabs(env, s, k), (|s.rows| + 4) / 5;
      r.rows == s.rows && r.selected == 5 * ((s.selected / 5 + k) % pages)
      && !r.pickerOpen && r.mode == s.mode && r.tap == s.tap
  {
    hide Step, Inv, Tabs;
    InvAllows(s);
    OneMoreTab(env, s, k - 1);
    if k == 1 {
      TabTurnsThePage(env, s, 0, 0);
    } else {
      TabReachesEveryPage(env, s, k - 1);
      TabTurnsThePage(env, Tabs(env, s, k - 1), 0, 0);
      PageAfter(s.selected / 5 + k - 1, (|s.rows| + 4) / 5);
    }
  }

  lemma {:induction false} PageAfter(p: nat, pages: nat)
    requires pages > 0
    ensures (p % pages + 1) % pages == (p + 1) % pages && 5 * (p % pages) / 5 == p % pages
  {
    var q, r := p / pages, p % pages;
    assert p == pages * q + r;
    if r + 1 == pages {
      assert pages * (q + 1) == pages * q + pages;
      SmallRest(pages, q + 1, 0);
      assert (p + 1) % pages == 0 && pages % pages == 0 by { SmallRest(pages, 1, 0); }
    } else {
      SmallRest(pages, q, r + 1);
      SmallRest(pages, 0, r + 1);
    }
    TimesFive(r);
  }

  lemma {:induction false} TimesFive(r: nat)
    ensures 5 * r / 5 == r
  {
  }

  lemma {:induction false} SmallRest(m: nat, q: nat, r: nat)
    requires m > 0 && r < m
    ensures (m * q + r) % m == r
  {
    var x := m * q + r;
    var d := x / m - q;
    assert m * d == r - x % m;
    assert d > 0 ==> m * d >= m;
    assert d < 0 ==> m * d <= 0 - m;
  }

  // ---------------------------------------------------------------- the symbol picker

  /** Four rows of four: the arrows move by one column or one row, going round, OK sends the symbol of the cell, and
      every key but an arrow closes the picker. */
  lemma {:induction false} PickerKeys(env: Env, s: State, code: Byte, flags: Byte, now: U32)
    requires EnvOk(env) && Inv(s) && s.pickerOpen && !IgnoredCode(code) && code != KEY_SYM1
    ensures var r, sel := Step(env, s, Key(code, true, flags, now)), s.pickerSel;
      && (code == KEY_RIGHT ==> r == s.(nowMs := now, pickerSel := if sel == 15 then 0 else sel + 1))
      && (code == KEY_LEFT ==> r == s.(nowMs := now, pickerSel := if sel == 0 then 15 else sel - 1))
      && (code == KEY_DOWN ==> r == s.(nowMs := now, pickerSel := if sel >= 12 then sel - 12 else sel + 4))
      && (code == KEY_UP ==> r == s.(nowMs := now, pickerSel := if sel < 4 then sel + 12 else sel - 4))
      && (!IsDpad(code) ==> !r.pickerOpen && r.said == if code == KEY_OK then s.said + [Text(SymbolText(sel))] else s.said)
  {
    hide Spoken, KeysOk, RowsOk, LruOk, CycleOk, TapOk, SymbolText, AfterText;
    InvAllows(s);
    if code == KEY_OK { SymbolIsText(s.pickerSel); }
  }

  lemma {:induction false} SymbolIsText(cell: nat)
    requires cell < 16
    ensures |SymbolText(cell)| == 3
  {
  }

  // ---------------------------------------------------------------- DEL

  /** DEL undoes a key press in Chinese: the pending keys and hints are as before, and so is what is listed for them. */
  lemma {:induction false} DelUndoesPress(env: Env, s: State, code: Byte)
    requires EnvOk(env) && Inv(s) && s.mode == SmartZh && |s.keys| < MAX_KEY_SEQ && SlotOf(code).Some? && !s.pickerOpen && s.tap.key == KEY_NONE
    ensures Inv(Step(env, s, Press(code)))
    ensures var r := Step(env, Step(env, s, Press(code)), Press(KEY_DEL));
      && r.keys == s.keys && r.hints == s.hints && r.mode == s.mode && r.lru == s.lru && r.said == s.said
      && r.rows == Searched(env, s).rows && r.matched == Searched(env, s).matched && r.shown == Searched(env, s).shown
  {
    hide Step, Searched, Spoken, KeysOk, RowsOk, LruOk, CycleOk, TapOk;
    InvAllows(s);
    ShortPressAdds(env, s, code, 0);
    PressSaysNothing(env, s, code);
    var t := Step(env, s, Press(code));
    InvAllows(t);
    DelSearches(env, t);
    assert t.keys[..|s.keys|] == s.keys && t.hints[..|s.keys|] == s.hints;
    SearchesAlike(env, Step(env, t, Press(KEY_DEL)), s);
  }

  lemma {:induction false} PressSaysNothing(env: Env, s: State, code: Byte)
    requires EnvOk(env) && Inv(s) && s.mode == SmartZh && |s.keys| < MAX_KEY_SEQ && SlotOf(code).Some? && !s.pickerOpen && s.tap.key == KEY_NONE
    ensures Step(env, s, Press(code)).said == s.said
  {
    hide Searched, Spoken, KeysOk, RowsOk, LruOk, CycleOk, TapOk;
    InvAllows(s);
    var t := Appended(s, KEY_BASE + SlotOf(code).value, HINT_ANY).(cycle := s.cycle.(byteIndex := -1), nowMs := 0);
    SearchSaysNothing(env, t);
  }

  lemma {:induction false} SearchSaysNothing(env: Env, s: State)
    requires |s.hints| == |s.keys| && LruOk(s.lru)
    ensures var r := Searched(env, s); r == s.(rows := r.rows, matched := r.matched, selected := 0, shown := r.shown)
  {
    hide ListedRows, DictFound;
  }

  lemma {:induction false} DelSearches(env: Env, s: State)
    requires EnvOk(env) && Inv(s) && |s.keys| > 0 && !s.pickerOpen && s.tap.key == KEY_NONE
    ensures var r, n := Step(env, s, Press(KEY_DEL)), |s.keys| - 1;
      && r.keys == s.keys[..n] && r.hints == s.hints[..n] && r.mode == s.mode && r.lru == s.lru && r.said == s.said
      && |r.hints| == |r.keys| && LruOk(r.lru)
      && r.rows == Searched(env, r).rows && r.matched == Searched(env, r).matched && r.shown == Searched(env, r).shown
  {
    hide Searched, Spoken, KeysOk, RowsOk, CycleOk, TapOk;
    InvAllows(s);
    var n := |s.keys| - 1;
    var t := s.(nowMs := 0, keys := s.keys[..n], hints := s.hints[..n],
                cycle := if s.cycle.byteIndex >= n then s.cycle.(byteIndex := -1) else s.cycle);
    SearchSaysNothing(env, t);
    SearchesAlike(env, Searched(env, t), t);
  }

  lemma {:induction false} SearchesAlike(env: Env, s: State, t: State)
    requires |s.hints| == |s.keys| && LruOk(s.lru)
    requires t.keys == s.keys && t.hints == s.hints && t.mode == s.mode && t.lru == s.lru
    ensures Searched(env, s).rows == Searched(env, t).rows && Searched(env, s).matched == Searched(env, t).matched
    ensures Searched(env, s).shown == Searched(env, t).shown
  {
    hide DictFound, Lookup, Merged;
  }

  // ---------------------------------------------------------------- timers and outside events

  /** A tick at `now` ends a multi-tap 800 ms after its last press, opens the picker 500 ms after the symbol key went
      down, and ends the cycle 800 ms after its last press; nothing else. */
  lemma {:induction false} TimersFireExactlyWhen(env: Env, s: State, now: U32)
    requires EnvOk(env) && Inv(s)
    ensures var r := Step(env, s, Tick(now));
      && (r.tap.key == KEY_NONE <==> s.tap.key == KEY_NONE || (now - s.tap.lastMs) % 0x1_0000_0000 >= 800)
      && (r.pickerOpen <==>
            s.pickerOpen || (s.sym1.down && !s.sym1.longFired && (now - s.sym1.pressedAtMs) % 0x1_0000_0000 >= 500))
      && (r.cycle.byteIndex == -1 <==> s.cycle.byteIndex == -1 || (now - s.cycle.lastMs) % 0x1_0000_0000 >= 800)
      && r.keys == s.keys && r.hints == s.hints && r.rows == s.rows && r.mode == s.mode && r.lru == s.lru
  {
    hide Spoken, TapCommitted;
    InvAllows(s);
    assert Inv(s.(nowMs := now));
    TapCommittedOk(s.(nowMs := now));
    WrappedDifference(now, s.tap.lastMs);
    WrappedDifference(now, s.sym1.pressedAtMs);
    WrappedDifference(now, s.cycle.lastMs);
  }

  lemma {:induction false} WrappedDifference(now: U32, last: U32)
    ensures Elapsed(now, last) == (now - last) % 0x1_0000_0000
  {
  }

  /** Giving up leaves the state of start-up, but for the mode, the remembered words, the time and what was said. */
  lemma {:induction false} AbortStartsOver(env: Env, s: State)
    requires EnvOk(env) && Inv(s)
    ensures Step(env, s, Abort) == Initial(s.lru).(mode := s.mode, nowMs := s.nowMs, said := s.said + [Restart])
  {
    hide Spoken, KeysOk, RowsOk, LruOk;
  }
}
