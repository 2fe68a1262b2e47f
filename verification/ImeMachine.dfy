/** The input method as a state machine: key events, ticks, aborts and selections, over searches given
    as functions. `Step` is the specification of class ImeLogic; what it keeps over every run, and what
    one step may do to the pending input, are proved here. */
module ImeMachine {
  import opened Basics
  import opened Bytes
  import opened Composition
  import opened CandidateMerge
  import opened LegacySearch
  import opened Lru
  import opened ImeKeys
  import opened SentText
  import Syllables

  const MAX_KEY_SEQ: nat := 64
  const PAGE_SIZE: nat := 5
  const MULTI_TAP_TIMEOUT_MS: nat := 800
  const LONG_PRESS_MS: nat := 500
  const PICKER_COLS: nat := 4
  const PICKER_CELLS: nat := 16
  const NEWLINE_TEXT: seq<Byte> := [0x0A]
  const TAB_TEXT: seq<Byte> := [0x09]

  // ---------------------------------------------------------------- the state

  /** What the pending row shows: nothing, the pending keys, or the label being cycled. */
  datatype Shown = Nothing | Pending | Label(key: Byte, idx: nat)

  datatype Tap = Tap(key: Byte, idx: nat, count: nat, lastMs: U32)
  datatype Sym1 = Sym1(down: bool, longFired: bool, pressedAtMs: U32)
  datatype Cycle = Cycle(byteIndex: int, slot: int, phoneme: nat, lastMs: U32)

  const NO_TAP := Tap(KEY_NONE, 0, 0, 0)
  const NO_SYM1 := Sym1(false, false, 0)
  const NO_CYCLE := Cycle(-1, -1, 0, 0)

  datatype State = State(
    mode: Mode, keys: seq<Byte>, hints: seq<Byte>, matched: nat, rows: seq<Hit>, selected: nat,
    tap: Tap, sym1: Sym1, pickerOpen: bool, pickerSel: nat, cycle: Cycle,
    lru: seq<Entry>, nowMs: U32, shown: Shown, flags: Flags, said: seq<Said>)

  function Initial(lru: seq<Entry>): State {
    State(SmartZh, [], [], 0, [], 0, NO_TAP, NO_SYM1, false, 0, NO_CYCLE, lru, 0, Nothing, FRESH, [])
  }

  datatype Event =
    | Key(code: Byte, pressed: bool, flags: Byte, now: U32)
    | Tick(now: U32)
    | Abort
    | Select(idx: int)
    | SetContext(before: seq<Byte>)   // the text before the cursor, after an edit from outside

  /** The attached dictionaries: the v2 searches, and the v4 engine with its syllable count. */
  datatype Composer = Composer(search: (seq<Byte>, seq<Byte>, int, nat) -> seq<Candidate>, syllables: seq<Byte> -> nat)
  datatype Env = Env(zh: Option<Searcher>, en: Option<Searcher>, composer: Option<Composer>)

  /** The v4 engine returns no more candidates than it was asked for. */
  ghost predicate EnvOk(env: Env) {
    env.composer.Some? ==> forall k, h, target, max :: |env.composer.value.search(k, h, target, max)| <= max
  }

  /** Milliseconds since `last`, on a clock that wraps at 2^32. */
  function Elapsed(now: U32, last: U32): U32 {
    if now >= last then now - last else now + 0x1_0000_0000 - last
  }

  // ---------------------------------------------------------------- search

  datatype Found = Found(rows: seq<Hit>, matched: nat)

  function RowsOf(cands: seq<Candidate>, prefix: nat): (rows: seq<Hit>)
    ensures |rows| == |cands|
  {
    seq(|cands|, i requires 0 <= i < |cands| => Hit(cands[i], prefix))
  }

  function Widened(c: Composer, keys: seq<Byte>, hints: seq<Byte>, target: int, rows: seq<Hit>): seq<Hit> {
    if target < 1 || target > 4 then rows
    else Extended(rows, c.search(keys, hints, target, MAX_CANDIDATES), |keys|, MAX_CANDIDATES)
  }

  function Positions(c: Composer, keys: seq<Byte>): nat {
    var n := c.syllables(keys);
    if n > 0 then n else Syllables.Count(keys, Syllables.Outside)
  }

  /** Up to four positions: the words of that length, then of neighbouring lengths. */
  function BucketRows(c: Composer, keys: seq<Byte>, hints: seq<Byte>, n: nat): seq<Hit> {
    var r0 := RowsOf(c.search(keys, hints, n, MAX_CANDIDATES), |keys|);
    var r1 := Widened(c, keys, hints, n + 1, r0);
    var r2 := Widened(c, keys, hints, n - 1, r1);
    var r3 := Widened(c, keys, hints, n + 2, r2);
    Widened(c, keys, hints, n - 2, r3)
  }

  function CharsFor(c: Composer, keys: seq<Byte>, hints: seq<Byte>): seq<Candidate>
    requires |keys| > 0 && |hints| == |keys|
  {
    c.search(keys[..1], hints[..1], 1, MAX_CANDIDATES)
  }

  function PhrasesFor(c: Composer, keys: seq<Byte>, hints: seq<Byte>): seq<Candidate>
    requires |keys| > 0 && |hints| == |keys|
  {
    var room: int := MAX_CANDIDATES - |CharsFor(c, keys, hints)|;
    if room > 0 then c.search(keys, hints, -1, room) else []
  }

  /** From five positions on: single characters for the first key, then phrases for the whole input. */
  function SentenceFound(c: Composer, keys: seq<Byte>, hints: seq<Byte>): Found
    requires |keys| > 0 && |hints| == |keys|
  {
    var chars, phrases := CharsFor(c, keys, hints), PhrasesFor(c, keys, hints);
    Found(RowsOf(chars, 1) + RowsOf(phrases, |keys|), if |chars| > 0 then 1 else if |phrases| > 0 then |keys| else 0)
  }

  function ComposedFound(c: Composer, keys: seq<Byte>, hints: seq<Byte>): Found
    requires |keys| > 0 && |hints| == |keys|
  {
    var n := Positions(c, keys);
    if n == 0 then Found([], 0)
    else if n <= 4 then Found(BucketRows(c, keys, hints, n), |keys|)
    else SentenceFound(c, keys, hints)
  }

  function ActiveSearcher(env: Env, mode: Mode): Option<Searcher> {
    if mode == SmartZh then env.zh else if mode == SmartEn then env.en else None
  }

  function LegacyFound(env: Env, mode: Mode, keys: seq<Byte>): Found {
    match ActiveSearcher(env, mode)
    case None => Found([], 0)
    case Some(search) => Found(RowsFrom(search, keys, 1), MatchedFrom(search, keys, 1))
  }

  function DictFound(env: Env, mode: Mode, keys: seq<Byte>, hints: seq<Byte>): Found
    requires |keys| > 0 && |hints| == |keys|
  {
    if env.composer.Some? && mode == SmartZh then ComposedFound(env.composer.value, keys, hints)
    else LegacyFound(env, mode, keys)
  }

  predicate LruOk(es: seq<Entry>) {
    |es| <= CAP && AllValid(es)
  }

  /** The dictionary's rows; in Chinese mode remembered words come first. */
  function ListedRows(env: Env, s: State): seq<Hit>
    requires |s.hints| == |s.keys| > 0 && LruOk(s.lru)
  {
    var rows := DictFound(env, s.mode, s.keys, s.hints).rows;
    if s.mode == SmartZh then Merged(rows, Lookup(s.lru, s.keys, Some(s.hints), MAX_CANDIDATES), MAX_CANDIDATES) else rows
  }

  /** Every search replaces the candidates and shows the pending keys. */
  function Searched(env: Env, s: State): (r: State)
    requires |s.hints| == |s.keys| && LruOk(s.lru)
    ensures |r.hints| == |r.keys|
  {
    if |s.keys| == 0 then s.(rows := [], matched := 0, selected := 0, shown := Nothing)
    else
      s.(rows := ListedRows(env, s), matched := DictFound(env, s.mode, s.keys, s.hints).matched, selected := 0, shown := Pending)
  }

  // ---------------------------------------------------------------- what is said

  /** Send a text; nothing is sent for an empty one. */
  function Say(s: State, text: seq<Byte>): State {
    if |text| == 0 then s else s.(flags := AfterText(s.flags, text), said := s.said + [Text(text)])
  }

  function Note(s: State, entry: Said): State {
    s.(said := s.said + [entry])
  }

  /** The text of the pending row. */
  function DisplayText(s: State): seq<Byte>
    requires |s.hints| == |s.keys|
  {
    match s.shown
    case Nothing => []
    case Pending => Rendered(s.mode == SmartZh, s.keys, s.hints)
    case Label(key, idx) => if idx < LabelCount(key) then LabelText(s.mode == SmartZh, key, idx) else []
  }

  // ---------------------------------------------------------------- commit

  /** How many leading first-tone markers and third/fourth-tone keys there are. */
  function LeadingTones(keys: seq<Byte>): (n: nat)
    ensures n <= |keys| && (forall i :: 0 <= i < n ==> keys[i] == TONE_1 || keys[i] == TONE_34)
    ensures n < |keys| ==> keys[n] != TONE_1 && keys[n] != TONE_34
  {
    if |keys| > 0 && (keys[0] == TONE_1 || keys[0] == TONE_34) then 1 + LeadingTones(keys[1..]) else 0
  }

  /** The keys a commit of `prefix` keys uses up. */
  function Consumed(keys: seq<Byte>, prefix: nat): (n: nat)
    ensures n <= |keys|
  {
    var taken := if 0 < prefix <= |keys| then prefix else |keys|;
    taken + LeadingTones(keys[taken..])
  }

  /** Dropping the prefix and then the tone marks is dropping the consumed keys, in any aligned array. */
  lemma {:induction false} DropTwice(keys: seq<Byte>, a: seq<Byte>, prefix: nat, taken: nat)
    requires |a| == |keys| && taken == if 0 < prefix <= |keys| then prefix else |keys|
    ensures var m := LeadingTones(keys[taken..]);
      taken + m <= |keys| && a[taken..][m..] == a[Consumed(keys, prefix)..]
  {
  }

  function SelectedRow(s: State): nat
    requires |s.rows| > 0
    ensures SelectedRow(s) < |s.rows|
  {
    if s.selected < |s.rows| then s.selected else 0
  }

  function Learned(s: State, word: seq<Byte>, prefix: nat): seq<Entry>
    requires |s.hints| == |s.keys|
  {
    if |word| > 0 && s.mode == SmartZh && 0 < prefix <= |s.keys| then
      var tone := if |s.rows| > 0 then s.rows[SelectedRow(s)].cand.tone else 0;
      Upserted(s.lru, s.keys[..prefix], PackHints(s.hints, prefix), tone, word, s.nowMs)
    else s.lru
  }

  /** The word is sent, marked as English in that mode. */
  function SaidWord(s: State, word: seq<Byte>): State {
    if |word| == 0 then s
    else s.(flags := AfterText(s.flags, word),
            said := s.said + [if s.mode == SmartEn then EnglishWord(word) else Text(word)])
  }

  function Trimmed(s: State, word: seq<Byte>, prefix: nat): State
    requires |s.hints| == |s.keys|
  {
    var n := Consumed(s.keys, prefix);
    SaidWord(s, word).(lru := Learned(s, word, prefix), keys := s.keys[n..], hints := s.hints[n..],
       rows := [], selected := 0, matched := 0, cycle := NO_CYCLE)
  }

  function CommitPartial(env: Env, s: State, word: seq<Byte>, prefix: nat): (r: State)
    requires |s.hints| == |s.keys| && LruOk(s.lru)
    ensures |r.hints| == |r.keys|
  {
    UpsertKeepsValid(s, word, prefix);
    Searched(env, Trimmed(s, word, prefix))
  }

  /** An English word gets a space before it unless there is one, and a capital where a sentence begins. */
  function Spaced(s: State): State {
    if s.mode == SmartEn && !s.flags.spaced then Say(s, SPACE_TEXT) else s
  }

  function Cased(s: State, word: seq<Byte>): seq<Byte> {
    if s.mode == SmartEn && s.flags.capNext then Capital(word) else word
  }

  function CommitSelected(env: Env, s: State): (r: State)
    requires |s.hints| == |s.keys| && LruOk(s.lru)
    ensures |r.hints| == |r.keys|
  {
    if |s.rows| == 0 then s
    else
      var row := s.rows[SelectedRow(s)];
      CommitPartial(env, Spaced(s), Cased(s, row.cand.word), row.prefix)
  }

  lemma {:induction false} UpsertKeepsValid(s: State, word: seq<Byte>, prefix: nat)
    requires |s.hints| == |s.keys| && LruOk(s.lru)
    ensures LruOk(Learned(s, word, prefix))
  {
  }

  // ---------------------------------------------------------------- multi-tap

  /** What is shown is sent; English punctuation gets a space after it. */
  function TapCommitted(s: State): State
    requires |s.hints| == |s.keys|
  {
    if s.tap.key == KEY_NONE then s
    else
      var sent := Say(s, DisplayText(s)).(tap := NO_TAP, shown := Nothing);
      if s.tap.key == KEY_SYM2 && s.mode == SmartEn then Say(sent, SPACE_TEXT) else sent
  }

  /** The next index with a label, looking at most `tries` times. */
  function SkipUnlabelled(code: Byte, idx: nat, count: nat, tries: nat): nat
    requires count > 0
    decreases tries
  {
    if tries > 0 && idx >= LabelCount(code) then SkipUnlabelled(code, (idx + 1) % count, count, tries - 1) else idx
  }

  function TapPressed(s: State, code: Byte, count: nat, now: U32): State
    requires count > 0 && |s.hints| == |s.keys|
  {
    var base := if s.tap.key == code then s else TapCommitted(s);
    var tap := if s.tap.key == code then s.tap.(idx := (s.tap.idx + 1) % count) else Tap(code, 0, count, 0);
    var idx := SkipUnlabelled(code, tap.idx, count, tap.count);
    base.(tap := tap.(idx := idx, lastMs := now), shown := if idx < LabelCount(code) then Label(code, idx) else Nothing)
  }

  function Sym2(s: State, now: U32): State {
    var tap := if s.tap.key == KEY_SYM2 then s.tap.(idx := (s.tap.idx + 1) % 3) else Tap(KEY_SYM2, 0, 3, 0);
    s.(tap := tap.(lastMs := now), shown := Label(KEY_SYM2, tap.idx))
  }

  function Sym1Key(s: State, pressed: bool, now: U32): State
    requires |s.hints| == |s.keys|
  {
    if pressed then if s.sym1.down then s else s.(sym1 := Sym1(true, false, now))
    else if !s.sym1.down then s
    else if s.sym1.longFired then s.(sym1 := s.sym1.(down := false, longFired := false))
    else
      var up := s.(sym1 := s.sym1.(down := false));
      if s.pickerOpen then up.(pickerOpen := false, pickerSel := 0) else Say(TapCommitted(up), CommaText(s.mode))
  }

  // ---------------------------------------------------------------- the handlers

  /** Pending keys given up, or all that is left after a commit. */
  function Discarded(s: State): State {
    s.(keys := [], hints := [], matched := 0, rows := [], selected := 0, shown := Nothing)
  }

  function NextMode(mode: Mode): Mode {
    match mode
    case SmartZh => SmartEn
    case SmartEn => Direct
    case Direct => SmartZh
  }

  function ModeKey(env: Env, s: State): State
    requires |s.hints| == |s.keys| && LruOk(s.lru)
  {
    var done := if s.tap.key != KEY_NONE then TapCommitted(s) else CommitSelected(env, s);
    Discarded(done).(cycle := NO_CYCLE, mode := NextMode(s.mode))
  }

  function Dpad(s: State, code: Byte): State {
    var n := |s.rows|;
    if n == 0 then Note(s, CursorMove(code))
    else if code == KEY_LEFT then s.(selected := (s.selected + n - 1) % n)
    else if code == KEY_RIGHT then s.(selected := (s.selected + 1) % n)
    else s
  }

  function Del(env: Env, s: State): State
    requires |s.hints| == |s.keys| && LruOk(s.lru)
  {
    var n := |s.keys|;
    if s.tap.key != KEY_NONE then s.(tap := NO_TAP, shown := Nothing)
    else if n > 0 then
      Searched(env, s.(keys := s.keys[..n - 1], hints := s.hints[..n - 1],
                       cycle := if s.cycle.byteIndex >= n - 1 then s.cycle.(byteIndex := -1) else s.cycle))
    else Note(s, DeleteBefore)
  }

  function Appended(s: State, key: Byte, hint: Byte): State {
    s.(keys := s.keys + [key], hints := s.hints + [hint])
  }

  function Picker(s: State, code: Byte): State
    requires s.pickerSel < PICKER_CELLS
  {
    var sel := s.pickerSel;
    if code == KEY_LEFT then s.(pickerSel := (sel + PICKER_CELLS - 1) % PICKER_CELLS)
    else if code == KEY_RIGHT then s.(pickerSel := (sel + 1) % PICKER_CELLS)
    else if code == KEY_UP then s.(pickerSel := (sel + PICKER_CELLS - PICKER_COLS) % PICKER_CELLS)
    else if code == KEY_DOWN then s.(pickerSel := (sel + PICKER_COLS) % PICKER_CELLS)
    else
      var closed := s.(pickerOpen := false, pickerSel := 0);
      if code == KEY_OK then Say(closed, SymbolText(sel)) else closed
  }

  function SpaceKey(env: Env, s: State): State
    requires |s.hints| == |s.keys| && LruOk(s.lru)
  {
    var n := |s.keys|;
    if n == 0 && s.tap.key == KEY_NONE then Say(s, SPACE_TEXT)
    else if s.mode == SmartZh then
      if n > 0 && s.keys[n - 1] != TONE_1 && n < MAX_KEY_SEQ then Searched(env, Appended(s, TONE_1, HINT_ANY)) else s
    else Say(EnglishDone(env, s), SPACE_TEXT)
  }

  /** English: the selected candidate is committed, or the keys that match nothing are given up. */
  function EnglishDone(env: Env, s: State): (r: State)
    requires |s.hints| == |s.keys| && LruOk(s.lru)
    ensures |r.hints| == |r.keys|
  {
    if |s.rows| > 0 then CommitSelected(env, s) else if |s.keys| > 0 then Discarded(s) else s
  }

  function TabKey(s: State): State {
    var n := |s.rows|;
    if n == 0 then s
    else
      var next := (s.selected / PAGE_SIZE + 1) * PAGE_SIZE;
      s.(selected := if next >= n then 0 else next)
  }

  predicate CanCycle(s: State, slot: nat, now: U32) {
    s.cycle.byteIndex >= 0 && s.cycle.slot == slot && Elapsed(now, s.cycle.lastMs) < MULTI_TAP_TIMEOUT_MS
  }

  /** A long press asks for one phoneme of the key; repeated in time on the same key, for the next. */
  function LongPress(env: Env, s: State, slot: nat, now: U32): State
    requires |s.hints| == |s.keys| && LruOk(s.lru) && slot < SLOTS && s.cycle.byteIndex < |s.keys|
  {
    var n := |s.keys|;
    if CanCycle(s, slot, now) then
      var p := (s.cycle.phoneme + 1) % PhonemeCount(slot);
      Searched(env, s.(cycle := s.cycle.(phoneme := p, lastMs := now), hints := s.hints[s.cycle.byteIndex := p]))
    else if n < MAX_KEY_SEQ then
      Searched(env, Appended(s, KEY_BASE + slot, 0).(cycle := Cycle(n, slot, 0, now)))
    else s
  }

  function ShortPress(env: Env, s: State, slot: nat): State
    requires |s.hints| == |s.keys| && LruOk(s.lru) && slot < SLOTS
  {
    if |s.keys| < MAX_KEY_SEQ
    then Searched(env, Appended(s, KEY_BASE + slot, HINT_ANY).(cycle := s.cycle.(byteIndex := -1)))
    else s
  }

  function SmartKey(env: Env, s: State, code: Byte, flags: Byte, now: U32): State
    requires |s.hints| == |s.keys| && LruOk(s.lru) && s.cycle.byteIndex < |s.keys|
  {
    if code == KEY_SPACE then SpaceKey(env, s)
    else if code == KEY_TAB then TabKey(s)
    else
      match SlotOf(code)
      case None => s
      case Some(slot) =>
        if s.mode == SmartEn && HasDigits(slot)
        then TapPressed(if |s.keys| > 0 then EnglishDone(env, s) else s, code, 2, now)
        else if s.mode == SmartZh && flags % 2 == 1 then LongPress(env, s, slot, now)
        else ShortPress(env, s, slot)
  }

  function DirectKey(s: State, code: Byte, now: U32): State
    requires |s.hints| == |s.keys|
  {
    if code == KEY_SPACE then Say(TapCommitted(s), SPACE_TEXT)
    else if code == KEY_TAB then Say(TapCommitted(s), TAB_TEXT)
    else
      match SlotOf(code)
      case None => s
      case Some(slot) => if LabelCount(code) == 0 then s else TapPressed(s, code, LabelCount(code), now)
  }

  function OkKey(env: Env, s: State): State
    requires |s.hints| == |s.keys| && LruOk(s.lru)
  {
    if |s.rows| > 0 then CommitSelected(env, s)
    else if s.tap.key != KEY_NONE then TapCommitted(s)
    else Say(s, NEWLINE_TEXT)
  }

  /** A pressed key, with the picker closed. */
  function Pressed(env: Env, s: State, code: Byte, flags: Byte, now: U32): State
    requires |s.hints| == |s.keys| && LruOk(s.lru) && s.cycle.byteIndex < |s.keys|
  {
    if code == KEY_MODE then ModeKey(env, s)
    else if code == KEY_DEL then Del(env, s)
    else if IsDpad(code) then Dpad(s, code)
    else if code == KEY_OK then OkKey(env, s)
    else if code == KEY_SYM2 then Sym2(if s.tap.key != KEY_SYM2 then TapCommitted(s) else s, now)
    else
      var t := if s.tap.key != code then TapCommitted(s) else s;
      if s.mode == Direct then DirectKey(t, code, now) else SmartKey(env, t, code, flags, now)
  }

  function KeyEvent(env: Env, s: State, code: Byte, pressed: bool, flags: Byte, now: U32): State
    requires |s.hints| == |s.keys| && LruOk(s.lru) && s.cycle.byteIndex < |s.keys| && s.pickerSel < PICKER_CELLS
  {
    var t := s.(nowMs := now);
    if code == KEY_BACK || code == KEY_NONE || code >= KEY_LIMIT then t
    else if code == KEY_SYM1 then Sym1Key(t, pressed, now)
    else if !pressed then t
    else if s.pickerOpen then Picker(t, code)
    else Pressed(env, t, code, flags, now)
  }

  function AfterTapTimer(s: State, now: U32): (r: State)
    requires |s.hints| == |s.keys|
    ensures |r.hints| == |r.keys|
  {
    if s.tap.key != KEY_NONE && Elapsed(now, s.tap.lastMs) >= MULTI_TAP_TIMEOUT_MS then TapCommitted(s) else s
  }

  function AfterPickerTimer(s: State, now: U32): State {
    if s.sym1.down && !s.sym1.longFired && Elapsed(now, s.sym1.pressedAtMs) >= LONG_PRESS_MS
    then s.(sym1 := s.sym1.(longFired := true), pickerOpen := true, pickerSel := 0) else s
  }

  function AfterCycleTimer(s: State, now: U32): State {
    if s.cycle.byteIndex >= 0 && Elapsed(now, s.cycle.lastMs) >= MULTI_TAP_TIMEOUT_MS
    then s.(cycle := s.cycle.(byteIndex := -1)) else s
  }

  function Ticked(s: State, now: U32): State
    requires |s.hints| == |s.keys|
  {
    AfterCycleTimer(AfterPickerTimer(AfterTapTimer(s.(nowMs := now), now), now), now)
  }

  function Aborted(s: State): State {
    Discarded(s).(tap := NO_TAP, sym1 := NO_SYM1, pickerOpen := false, pickerSel := 0, cycle := NO_CYCLE,
                   flags := FRESH, said := s.said + [Restart])
  }

  function Selected(s: State, idx: int): State {
    if |s.rows| == 0 then s
    else s.(selected := if idx < 0 then 0 else if idx >= |s.rows| then |s.rows| - 1 else idx)
  }

  function Step(env: Env, s: State, e: Event): State
    requires |s.hints| == |s.keys| && LruOk(s.lru) && s.cycle.byteIndex < |s.keys| && s.pickerSel < PICKER_CELLS
  {
    match e
    case Key(code, pressed, flags, now) => KeyEvent(env, s, code, pressed, flags, now)
    case Tick(now) => Ticked(s, now)
    case Abort => Aborted(s)
    case Select(idx) => Selected(s, idx)
    case SetContext(before) => s.(flags := FromContext(before), said := s.said + [Synced(before)])
  }

  // ---------------------------------------------------------------- the invariant

  /** A first-tone marker without a hint, or an input key with no hint or the index of one of its
      phonemes. */
  predicate KeyOk(key: Byte, hint: Byte) {
    if key == TONE_1 then hint == HINT_ANY
    else KEY_BASE <= key < KEY_BASE + SLOTS && (hint == HINT_ANY || hint < PhonemeCount(key - KEY_BASE))
  }

  predicate KeysOk(keys: seq<Byte>, hints: seq<Byte>) {
    |keys| == |hints| <= MAX_KEY_SEQ && forall i :: 0 <= i < |keys| ==> KeyOk(keys[i], hints[i])
  }

  predicate RowsOk(s: State) {
    && |s.rows| <= MAX_CANDIDATES && (s.selected < |s.rows| || s.selected == 0)
    && PrefixesIn(s.rows, |s.keys|) && s.matched <= |s.keys|
  }

  /** An active cycle is in Chinese mode, on a pending key of its slot, whose hint is the cycle's
      phoneme. */
  predicate CycleOk(s: State)
    requires |s.hints| == |s.keys|
  {
    var c := s.cycle;
    c.byteIndex == -1 ||
    (s.mode == SmartZh && 0 <= c.byteIndex < |s.keys| && 0 <= c.slot < SLOTS && c.phoneme < PhonemeCount(c.slot)
     && s.keys[c.byteIndex] == KEY_BASE + c.slot && s.hints[c.byteIndex] == c.phoneme)
  }

  predicate TapAllowed(mode: Mode, key: Byte) {
    key == KEY_SYM2 || mode == Direct || (mode == SmartEn && SlotOf(key).Some? && HasDigits(SlotOf(key).value))
  }

  /** The multi-tap index names a label. */
  predicate TapOk(s: State) {
    var t := s.tap;
    t.key == KEY_NONE || (t.idx < t.count == LabelCount(t.key) && TapAllowed(s.mode, t.key))
  }

  predicate PickerOk(s: State) {
    s.pickerSel < PICKER_CELLS && (!s.pickerOpen ==> s.pickerSel == 0) && (s.sym1.longFired ==> s.sym1.down)
  }

  predicate Inv(s: State) {
    && KeysOk(s.keys, s.hints) && RowsOk(s) && CycleOk(s) && TapOk(s) && PickerOk(s) && LruOk(s.lru)
    && (s.mode == Direct ==> s.keys == []) && Spoken(s.said, s.flags)
  }

  // ---------------------------------------------------------------- every search result is in range

  lemma {:induction false} LookupPrefixes(es: seq<Entry>, keys: seq<Byte>, hints: seq<Byte>)
    requires LruOk(es) && |hints| == |keys| > 0
    ensures |Lookup(es, keys, Some(hints), MAX_CANDIDATES)| <= MAX_CANDIDATES
    ensures PrefixesIn(Lookup(es, keys, Some(hints), MAX_CANDIDATES), |keys|)
  {
    var ranked := Lru.Ranked(es, keys, Some(hints));
    Lru.RankedHas(es, keys, Some(hints));
    RowsInOrder(ranked, MAX_CANDIDATES);
    var rows, at := Rows(ranked, MAX_CANDIDATES), RowPositions(ranked, MAX_CANDIDATES);
    forall i | 0 <= i < |rows| ensures 1 <= rows[i].prefix <= |keys| {
      assert ranked[at[i]] in ranked;
    }
  }

  lemma {:induction false} ExtendedInRange(rows: seq<Hit>, more: seq<Candidate>, prefix: nat, n: nat)
    requires |rows| <= MAX_CANDIDATES && PrefixesIn(rows, n) && 1 <= prefix <= n
    ensures |Extended(rows, more, prefix, MAX_CANDIDATES)| <= MAX_CANDIDATES
    ensures PrefixesIn(Extended(rows, more, prefix, MAX_CANDIDATES), n)
  {
    ExtendedHas(rows, more, prefix, MAX_CANDIDATES);
  }

  lemma {:induction false} WidenedInRange(c: Composer, keys: seq<Byte>, hints: seq<Byte>, target: int, rows: seq<Hit>)
    requires |rows| <= MAX_CANDIDATES && PrefixesIn(rows, |keys|) && |keys| > 0
    ensures |Widened(c, keys, hints, target, rows)| <= MAX_CANDIDATES
    ensures PrefixesIn(Widened(c, keys, hints, target, rows), |keys|)
  {
    if 1 <= target <= 4 {
      ExtendedInRange(rows, c.search(keys, hints, target, MAX_CANDIDATES), |keys|, |keys|);
    }
  }

  predicate FoundOk(f: Found, n: nat) {
    |f.rows| <= MAX_CANDIDATES && PrefixesIn(f.rows, n) && f.matched <= n
  }

  lemma {:induction false} BucketsOk(c: Composer, keys: seq<Byte>, hints: seq<Byte>, n: nat)
    requires |keys| > 0 && forall k, h, target, max :: |c.search(k, h, target, max)| <= max
    ensures |BucketRows(c, keys, hints, n)| <= MAX_CANDIDATES && PrefixesIn(BucketRows(c, keys, hints, n), |keys|)
  {
    hide Widened;
    var r0 := RowsOf(c.search(keys, hints, n, MAX_CANDIDATES), |keys|);
    var r1 := Widened(c, keys, hints, n + 1, r0);
    var r2 := Widened(c, keys, hints, n - 1, r1);
    var r3 := Widened(c, keys, hints, n + 2, r2);
    WidenedInRange(c, keys, hints, n + 1, r0);
    WidenedInRange(c, keys, hints, n - 1, r1);
    WidenedInRange(c, keys, hints, n + 2, r2);
    WidenedInRange(c, keys, hints, n - 2, r3);
  }

  lemma {:induction false} ComposedOk(c: Composer, keys: seq<Byte>, hints: seq<Byte>)
    requires |hints| == |keys| > 0 && forall k, h, target, max :: |c.search(k, h, target, max)| <= max
    ensures FoundOk(ComposedFound(c, keys, hints), |keys|)
  {
    hide BucketRows;
    BucketsOk(c, keys, hints, Positions(c, keys));
  }

  lemma {:induction false} DictOk(env: Env, mode: Mode, keys: seq<Byte>, hints: seq<Byte>)
    requires EnvOk(env) && |hints| == |keys| > 0
    ensures FoundOk(DictFound(env, mode, keys, hints), |keys|)
  {
    hide ComposedFound;
    if env.composer.Some? && mode == SmartZh {
      ComposedOk(env.composer.value, keys, hints);
    } else if ActiveSearcher(env, mode).Some? {
      RowsShape(ActiveSearcher(env, mode).value, keys, 1);
    }
  }

  /** A search changes only the candidates and what is shown, and its results are in range. */
  lemma {:induction false} SearchedOk(env: Env, s: State)
    requires EnvOk(env) && KeysOk(s.keys, s.hints) && LruOk(s.lru)
    ensures var r := Searched(env, s);
      && r == s.(rows := r.rows, matched := r.matched, selected := 0, shown := r.shown)
      && RowsOk(r) && (r.shown == Pending || r.shown == Nothing) && (s.keys == [] ==> r.rows == [])
  {
    hide DictFound, Lookup, KeyOk;
    if |s.keys| > 0 {
      var dict := DictFound(env, s.mode, s.keys, s.hints).rows;
      var hits := Lookup(s.lru, s.keys, Some(s.hints), MAX_CANDIDATES);
      DictOk(env, s.mode, s.keys, s.hints);
      LookupPrefixes(s.lru, s.keys, s.hints);
      MergedInRange(dict, hits, |s.keys|);
    }
  }

  lemma {:induction false} MergedInRange(dict: seq<Hit>, hits: seq<Hit>, n: nat)
    requires |dict| <= MAX_CANDIDATES && |hits| <= MAX_CANDIDATES && PrefixesIn(dict, n) && PrefixesIn(hits, n)
    ensures |Merged(dict, hits, MAX_CANDIDATES)| <= MAX_CANDIDATES && PrefixesIn(Merged(dict, hits, MAX_CANDIDATES), n)
  {
    MergeAddsNothing(dict, hits, MAX_CANDIDATES);
    var m := Merged(dict, hits, MAX_CANDIDATES);
    forall i | 0 <= i < |m| ensures 1 <= m[i].prefix <= n {
      assert m[i] in m;
      if m[i] in hits { var j :| 0 <= j < |hits| && hits[j] == m[i]; } else { var j :| 0 <= j < |dict| && dict[j] == m[i]; }
    }
  }

  // ---------------------------------------------------------------- each handler keeps the invariant

  /** Sending a text touches nothing but the history and its flags. */
  lemma {:induction false} SayOk(s: State, text: seq<Byte>)
    ensures Say(s, text) == s.(flags := Say(s, text).flags, said := Say(s, text).said)
    ensures s.said <= Say(s, text).said
    ensures Spoken(s.said, s.flags) ==> Spoken(Say(s, text).said, Say(s, text).flags)
  {
    hide WellSpaced, FlagsAfter;
    if |text| > 0 && Spoken(s.said, s.flags) { SpokenMore(s.said, s.flags, Text(text), AfterText(s.flags, text)); }
  }

  lemma {:induction false} InvIgnoresText(s: State, flags: Flags, said: seq<Said>)
    requires Inv(s) && Spoken(said, flags)
    ensures Inv(s.(flags := flags, said := said))
  {
  }

  lemma {:induction false} SayKeepsInv(s: State, text: seq<Byte>)
    requires Inv(s)
    ensures Inv(Say(s, text))
  {
    hide Inv, Spoken, Say;
    InvSpoken(s);
    SayOk(s, text);
    InvIgnoresText(s, Say(s, text).flags, Say(s, text).said);
  }

  lemma {:induction false} InvSpoken(s: State)
    requires Inv(s)
    ensures Spoken(s.said, s.flags) && |s.hints| == |s.keys| && LruOk(s.lru)
  {
  }

  lemma {:induction false} NoteKeepsInv(s: State, entry: Said)
    requires Inv(s) && (entry.CursorMove? || entry.DeleteBefore?)
    ensures Inv(Note(s, entry))
  {
    hide WellSpaced, FlagsAfter;
    SpokenMore(s.said, s.flags, entry, s.flags);
    InvIgnoresText(s, s.flags, s.said + [entry]);
  }

  /** Before the word of a candidate is sent: a space of its own, if it needs one. */
  lemma {:induction false} SpacedFits(s: State, word: seq<Byte>)
    requires Inv(s)
    ensures Inv(Spaced(s)) && Spaced(s) == s.(flags := Spaced(s).flags, said := Spaced(s).said)
    ensures s.mode == SmartEn ==> WordFits(Spaced(s).flags, Cased(s, word))
  {
    hide Inv, AfterText;
    SayKeepsInv(s, SPACE_TEXT);
    SayOk(s, SPACE_TEXT);
    EnglishFits(s.flags, word);
  }

  lemma {:induction false} SaidWordOk(s: State, word: seq<Byte>)
    requires Spoken(s.said, s.flags) && (s.mode == SmartEn ==> WordFits(s.flags, word))
    ensures var r := SaidWord(s, word);
      r == s.(flags := r.flags, said := r.said) && Spoken(r.said, r.flags) && s.said <= r.said
  {
    hide WellSpaced, FlagsAfter, WordFits;
    if |word| > 0 {
      var entry := if s.mode == SmartEn then EnglishWord(word) else Text(word);
      SpokenMore(s.said, s.flags, entry, AfterText(s.flags, word));
    }
  }

  lemma {:induction false} CommitPartialOk(env: Env, s: State, word: seq<Byte>, prefix: nat)
    requires EnvOk(env) && Inv(s) && (s.mode == SmartEn ==> WordFits(s.flags, word))
    ensures var r := CommitPartial(env, s, word, prefix);
      Inv(r) && r.tap == s.tap && r.mode == s.mode && r.cycle == NO_CYCLE && (r.shown == Pending || r.shown == Nothing)
  {
    hide Searched, KeyOk, Upserted, Spoken, SaidWord, WordFits;
    UpsertKeepsValid(s, word, prefix);
    SaidWordOk(s, word);
    SearchedOk(env, Trimmed(s, word, prefix));
  }

  lemma {:induction false} CommitOk(env: Env, s: State)
    requires EnvOk(env) && Inv(s)
    ensures Inv(CommitSelected(env, s))
    ensures CommitSelected(env, s).tap == s.tap && CommitSelected(env, s).mode == s.mode
    ensures |s.rows| > 0 ==>
      CommitSelected(env, s).cycle == NO_CYCLE
      && (CommitSelected(env, s).shown == Pending || CommitSelected(env, s).shown == Nothing)
  {
    hide CommitPartial, Inv, Spaced, Cased, WordFits;
    InvSpoken(s);
    if |s.rows| > 0 {
      var row := s.rows[SelectedRow(s)];
      SpacedFits(s, row.cand.word);
      CommitPartialOk(env, Spaced(s), Cased(s, row.cand.word), row.prefix);
    }
  }

  /** Committing a multi-tap ends it and changes nothing else but the history. */
  lemma {:induction false} TapCommittedOk(s: State)
    requires Inv(s)
    ensures var r := TapCommitted(s);
      && Inv(r) && r.tap.key == KEY_NONE
      && r == s.(tap := r.tap, shown := r.shown, flags := r.flags, said := r.said)
      && (s.tap.key != KEY_NONE ==> r.tap == NO_TAP && r.shown == Nothing) && (s.tap.key == KEY_NONE ==> r == s)
      && s.said <= r.said
  {
    hide Say, DisplayText, Spoken;
    if s.tap.key != KEY_NONE {
      SayOk(s, DisplayText(s));
      var sent := Say(s, DisplayText(s)).(tap := NO_TAP, shown := Nothing);
      SayOk(sent, SPACE_TEXT);
      assert Inv(sent);
    }
  }

  lemma {:induction false} EnglishDoneOk(env: Env, s: State)
    requires EnvOk(env) && Inv(s) && s.mode == SmartEn
    ensures Inv(EnglishDone(env, s)) && EnglishDone(env, s).mode == SmartEn && EnglishDone(env, s).tap == s.tap
  {
    hide CommitSelected, Spoken;
    CommitOk(env, s);
  }

  lemma {:induction false} LabelledStays(code: Byte, idx: nat, count: nat, tries: nat)
    requires count > 0 && idx < LabelCount(code)
    ensures SkipUnlabelled(code, idx, count, tries) == idx
  {
  }

  /** A press on a multi-tap key shows one of its labels. */
  lemma {:induction false} TapPressedOk(s: State, code: Byte, now: U32)
    requires Inv(s) && LabelCount(code) > 0 && TapAllowed(s.mode, code)
    ensures Inv(TapPressed(s, code, LabelCount(code), now))
    ensures TapPressed(s, code, LabelCount(code), now).shown
      == Label(code, TapPressed(s, code, LabelCount(code), now).tap.idx)
    ensures TapPressed(s, code, LabelCount(code), now).tap.key == code
  {
    hide Spoken, TapCommitted;
    TapCommittedOk(s);
    var n := LabelCount(code);
    var tap := if s.tap.key == code then s.tap.(idx := (s.tap.idx + 1) % n) else Tap(code, 0, n, 0);
    LabelledStays(code, tap.idx, n, tap.count);
  }

  lemma {:induction false} LongPressOk(env: Env, s: State, slot: nat, now: U32)
    requires EnvOk(env) && Inv(s) && s.mode == SmartZh && slot < SLOTS
    ensures Inv(LongPress(env, s, slot, now))
  {
    hide Searched, Spoken;
    if CanCycle(s, slot, now) {
      var p := (s.cycle.phoneme + 1) % PhonemeCount(slot);
      SearchedOk(env, s.(cycle := s.cycle.(phoneme := p, lastMs := now), hints := s.hints[s.cycle.byteIndex := p]));
    } else if |s.keys| < MAX_KEY_SEQ {
      SearchedOk(env, Appended(s, KEY_BASE + slot, 0).(cycle := Cycle(|s.keys|, slot, 0, now)));
    }
  }

  lemma {:induction false} ShortPressOk(env: Env, s: State, slot: nat)
    requires EnvOk(env) && Inv(s) && s.mode != Direct && slot < SLOTS
    ensures Inv(ShortPress(env, s, slot))
  {
    hide Searched, Spoken;
    if |s.keys| < MAX_KEY_SEQ {
      SearchedOk(env, Appended(s, KEY_BASE + slot, HINT_ANY).(cycle := s.cycle.(byteIndex := -1)));
    }
  }

  lemma {:induction false} SpaceOk(env: Env, s: State)
    requires EnvOk(env) && Inv(s) && s.mode != Direct
    ensures Inv(SpaceKey(env, s)) && (s.tap.key == KEY_NONE ==> SpaceKey(env, s).tap == s.tap)
  {
    hide Searched, EnglishDone, Say, Spoken, CycleOk;
    SayKeepsInv(s, SPACE_TEXT);
    SayOk(s, SPACE_TEXT);
    if s.mode == SmartEn {
      EnglishDoneOk(env, s);
      SayKeepsInv(EnglishDone(env, s), SPACE_TEXT);
      SayOk(EnglishDone(env, s), SPACE_TEXT);
    } else if |s.keys| < MAX_KEY_SEQ {
      var t := Appended(s, TONE_1, HINT_ANY);
      SearchedOk(env, t);
      CycleGrows(s, Searched(env, t));
    }
  }

  lemma {:induction false} CycleGrows(s: State, t: State)
    requires Inv(s) && |t.hints| == |t.keys| && s.keys <= t.keys && s.hints <= t.hints && t.cycle == s.cycle && t.mode == s.mode
    ensures CycleOk(t)
  {
  }

  lemma {:induction false} SmartOk(env: Env, s: State, code: Byte, flags: Byte, now: U32)
    requires EnvOk(env) && Inv(s) && s.mode != Direct && (s.tap.key == KEY_NONE || s.tap.key == code)
    ensures Inv(SmartKey(env, s, code, flags, now))
  {
    hide SpaceKey, EnglishDone, TapPressed, LongPress, ShortPress;
    SpaceOk(env, s);
    if SlotOf(code).Some? && code != KEY_SPACE && code != KEY_TAB {
      var slot := SlotOf(code).value;
      if s.mode == SmartEn && HasDigits(slot) {
        EnglishDoneOk(env, s);
        TapPressedOk(if |s.keys| > 0 then EnglishDone(env, s) else s, code, now);
      } else if s.mode == SmartZh {
        LongPressOk(env, s, slot, now);
        ShortPressOk(env, s, slot);
      } else {
        ShortPressOk(env, s, slot);
      }
    }
  }

  lemma {:induction false} DirectOk(s: State, code: Byte, now: U32)
    requires Inv(s) && s.mode == Direct
    ensures Inv(DirectKey(s, code, now))
  {
    hide TapPressed, TapCommitted, Inv, Say;
    InvSpoken(s);
    TapCommittedOk(s);
    SayKeepsInv(TapCommitted(s), SPACE_TEXT);
    SayKeepsInv(TapCommitted(s), TAB_TEXT);
    if LabelCount(code) > 0 { TapPressedOk(s, code, now); }
  }

  lemma {:induction false} DelOk(env: Env, s: State)
    requires EnvOk(env) && Inv(s)
    ensures Inv(Del(env, s))
  {
    hide Searched, Spoken;
    NoteKeepsInv(s, DeleteBefore);
    var n := |s.keys|;
    if s.tap.key == KEY_NONE && n > 0 {
      SearchedOk(env, s.(keys := s.keys[..n - 1], hints := s.hints[..n - 1],
                         cycle := if s.cycle.byteIndex >= n - 1 then s.cycle.(byteIndex := -1) else s.cycle));
    }
  }

  lemma {:induction false} ModeOk(env: Env, s: State)
    requires EnvOk(env) && Inv(s)
    ensures Inv(ModeKey(env, s)) && ModeKey(env, s).tap.key == KEY_NONE && ModeKey(env, s).shown == Nothing
  {
    hide CommitSelected, TapCommitted, Spoken;
    CommitOk(env, s);
    TapCommittedOk(s);
  }

  lemma {:induction false} OkOk(env: Env, s: State)
    requires EnvOk(env) && Inv(s)
    ensures Inv(OkKey(env, s))
  {
    hide CommitSelected, TapCommitted, Say, Inv;
    InvSpoken(s);
    CommitOk(env, s);
    TapCommittedOk(s);
    SayKeepsInv(s, NEWLINE_TEXT);
  }

  lemma {:induction false} Sym2Ok(s: State, now: U32)
    requires Inv(s)
    ensures Inv(Sym2(s, now))
  {
    hide Spoken;
  }

  lemma {:induction false} DpadOk(s: State, code: Byte)
    requires Inv(s)
    ensures Inv(Dpad(s, code))
  {
    hide Spoken;
    NoteKeepsInv(s, CursorMove(code));
  }

  lemma {:induction false} PressedOk(env: Env, s: State, code: Byte, flags: Byte, now: U32)
    requires EnvOk(env) && Inv(s) && code != KEY_NONE
    ensures Inv(Pressed(env, s, code, flags, now))
  {
    hide Inv, ModeKey, Del, Dpad, OkKey, Sym2, SmartKey, DirectKey, TapCommitted, SlotOf;
    InvAllows(s);
    TapCommittedOk(s);
    if code == KEY_MODE {
      ModeOk(env, s);
    } else if code == KEY_DEL {
      DelOk(env, s);
    } else if IsDpad(code) {
      DpadOk(s, code);
    } else if code == KEY_OK {
      OkOk(env, s);
    } else if code == KEY_SYM2 {
      Sym2Ok(if s.tap.key != KEY_SYM2 then TapCommitted(s) else s, now);
    } else {
      var t := if s.tap.key != code then TapCommitted(s) else s;
      InvAllows(t);
      if s.mode == Direct { DirectOk(t, code, now); } else { SmartOk(env, t, code, flags, now); }
    }
  }

  /** What the functions of the machine ask of a state. */
  lemma {:induction false} InvAllows(s: State)
    requires Inv(s)
    ensures |s.hints| == |s.keys| && LruOk(s.lru) && s.cycle.byteIndex < |s.keys| && s.pickerSel < PICKER_CELLS
  {
  }

  lemma {:induction false} PickerKeepsInv(s: State, code: Byte)
    requires Inv(s) && s.pickerOpen
    ensures Inv(Picker(s, code))
  {
    hide Spoken, Say, SymbolText;
    var closed := s.(pickerOpen := false, pickerSel := 0);
    assert Inv(closed);
    SayKeepsInv(closed, SymbolText(s.pickerSel));
  }

  lemma {:induction false} Sym1Ok(s: State, pressed: bool, now: U32)
    requires Inv(s)
    ensures Inv(Sym1Key(s, pressed, now))
  {
    hide Spoken, Say, TapCommitted, CommaText;
    var up := s.(sym1 := s.sym1.(down := false));
    if !pressed && s.sym1.down && !s.sym1.longFired {
      assert Inv(up);
      TapCommittedOk(up);
      SayKeepsInv(TapCommitted(up), CommaText(s.mode));
    }
  }

  lemma {:induction false} TickOk(s: State, now: U32)
    requires Inv(s)
    ensures Inv(Ticked(s, now))
  {
    hide Spoken, TapCommitted;
    assert Inv(s.(nowMs := now));
    TapCommittedOk(s.(nowMs := now));
  }

  lemma {:induction false} OutsideOk(s: State, before: seq<Byte>)
    requires Inv(s)
    ensures Inv(Aborted(s)) && Inv(s.(flags := FromContext(before), said := s.said + [Synced(before)]))
  {
    hide WellSpaced, FlagsAfter;
    SpokenMore(s.said, s.flags, Restart, FRESH);
    SpokenMore(s.said, s.flags, Synced(before), FromContext(before));
  }

  /** Every event keeps the invariant. */
  lemma {:induction false} StepKeepsInv(env: Env, s: State, e: Event)
    requires EnvOk(env) && Inv(s)
    ensures Inv(Step(env, s, e))
  {
    hide Pressed, Picker, Sym1Key, Ticked, Aborted, Spoken;
    match e
    case Key(code, pressed, flags, now) =>
      var t := s.(nowMs := now);
      assert Inv(t);
      if code == KEY_SYM1 {
        Sym1Ok(t, pressed, now);
      } else if !IgnoredCode(code) && pressed {
        if s.pickerOpen { PickerKeepsInv(t, code); } else { PressedOk(env, t, code, flags, now); }
      }
    case Tick(now) => TickOk(s, now);
    case Abort => OutsideOk(s, []);
    case Select(idx) =>
    case SetContext(before) => OutsideOk(s, before);
  }

  predicate IgnoredCode(code: Byte) {
    code == KEY_BACK || code == KEY_NONE || code >= KEY_LIMIT
  }

  // ---------------------------------------------------------------- every run

  /** The state after the events, from a state in order: it is in order too. */
  ghost function Run(env: Env, s: State, events: seq<Event>): (r: State)
    requires EnvOk(env) && Inv(s)
    ensures Inv(r)
  {
    if |events| == 0 then s
    else
      var mid := Run(env, s, events[..|events| - 1]);
      StepKeepsInv(env, mid, events[|events| - 1]);
      Step(env, mid, events[|events| - 1])
  }

  /** From start-up, with any remembered words, no sequence of key events, ticks, aborts and selections
      leaves the invariant. */
  lemma {:induction false} EveryRunIsSafe(env: Env, lru: seq<Entry>, events: seq<Event>)
    requires EnvOk(env) && LruOk(lru)
    ensures Inv(Initial(lru)) && Inv(Run(env, Initial(lru), events))
  {
    assert Inv(Initial(lru));
  }

  /** In every run each English word follows a space or begins the text, and has no lower-case first letter
      where a sentence begins: the two flags the engine keeps are those of the history. */
  lemma {:induction false} EnglishWordsFit(env: Env, lru: seq<Entry>, events: seq<Event>, i: nat)
    requires EnvOk(env) && LruOk(lru)
    requires i < |Run(env, Initial(lru), events).said| && Run(env, Initial(lru), events).said[i].EnglishWord?
    ensures var s := Run(env, Initial(lru), events);
      && s.flags == FlagsAfter(s.said)
      && FlagsAfter(s.said[..i]).spaced
      && (FlagsAfter(s.said[..i]).capNext ==> |s.said[i].text| == 0 || !IsLower(s.said[i].text[0]))
  {
    hide FlagsAfter, Step, KeyOk;
    EveryRunIsSafe(env, lru, events);
  }
}
