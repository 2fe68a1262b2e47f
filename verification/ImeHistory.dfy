/** What every run says: whole characters only, so that the two flags kept are those of the text before the
    cursor whenever an English word is sent. */
module ImeHistory {
  import opened Basics
  import opened Bytes
  import opened Composition
  import opened CandidateMerge
  import opened LegacySearch
  import opened Lru
  import opened ImeKeys
  import opened SentText
  import opened ImeMachine
  import opened WordStrings
  import opened OfferedRows

  // ---------------------------------------------------------------- what the dictionaries must give

  predicate WholeWords(cands: seq<Candidate>) {
    forall i :: 0 <= i < |cands| ==> Whole(cands[i].word)
  }

  predicate WholeRows(rows: seq<Hit>) {
    forall i :: 0 <= i < |rows| ==> Whole(rows[i].cand.word)
  }

  predicate WholeEntries(es: seq<Entry>) {
    forall i :: 0 <= i < |es| && es[i].Valid() ==> Whole(es[i].Word())
  }

  /** No dictionary returns a text that begins inside a character. */
  ghost predicate EnvWhole(env: Env) {
    && (env.zh.Some? ==> forall keys :: WholeWords(env.zh.value(keys)))
    && (env.en.Some? ==> forall keys :: WholeWords(env.en.value(keys)))
    && (env.composer.Some? ==> ComposerWhole(env.composer.value))
  }

  ghost predicate ComposerWhole(c: Composer) {
    forall keys, hints, target, max :: |hints| == |keys| > 0 ==> WholeWords(c.search(keys, hints, target, max))
  }

  lemma {:induction false} ConcatWhole(chars: seq<CharEntry>, ids: seq<nat>)
    requires CharsOk(chars) && IdsIn(chars, ids)
    ensures Whole(Concat(chars, ids))
  {
    if |ids| > 0 { AfterFirst(chars, ids); }
  }

  /** The composition engine over well-formed tables meets this. */
  lemma {:induction false} EngineIsWhole(c: Composer, image: I.Image)
    requires Serves(c, image) && TableOk(image)
    ensures ComposerWhole(c)
  {
    hide AnswersWith, UniqueWords, CharsOk;
    forall keys, hints, target: int, max: nat | |hints| == |keys| > 0 ensures WholeWords(c.search(keys, hints, target, max)) {
      assert Answers(c, image, keys, hints, target, max);
      var picks :| AnswersWith(c, image, keys, hints, target, max, picks);
      AnswerIsWhole(c, image, keys, hints, target, max, picks);
    }
  }

  lemma {:induction false} AnswerIsWhole(c: Composer, image: I.Image, keys: seq<Byte>, hints: seq<Byte>, target: int, max: nat,
                                         picks: seq<nat>)
    requires |hints| == |keys| && CharsOk(image.table.chars) && AnswersWith(c, image, keys, hints, target, max, picks)
    ensures WholeWords(c.search(keys, hints, target, max))
  {
    var r := c.search(keys, hints, target, max);
    forall i | 0 <= i < |r| ensures Whole(r[i].word) {
      assert |r| == |picks|;
      if target == 1 {
        PickedChar(c, image, keys, hints, max, picks, i);
        assert Utf8Char(image.table.chars[picks[i]].utf8);
      } else {
        PickedWord(c, image, keys, hints, target, max, picks, i);
        var w := image.words[picks[i]];
        TextIs(image.table, w, 0, 0);
        ConcatWhole(image.table.chars, ShownIds(image.table, w));
      }
    }
  }

  predicate WholeState(s: State) {
    WholeTexts(s.said) && WholeRows(s.rows) && WholeEntries(s.lru)
  }

  // ---------------------------------------------------------------- texts of the keys

  lemma {:induction false} PutWhole(display: seq<Byte>, piece: seq<Byte>)
    requires Whole(display) && Whole(piece)
    ensures Whole(Put(display, piece))
  {
  }

  lemma {:induction false} PhonemesWhole(display: seq<Byte>, slot: nat, hint: Byte)
    requires slot < SLOTS && Whole(display)
    ensures Whole(PutPhonemes(display, slot, hint))
  {
    hide Put;
    PutWhole(display, Phoneme(slot, Min(hint, PhonemeCount(slot) - 1)));
    PutWhole(display, Phoneme(slot, 0));
    var two := Put(Put(display, Phoneme(slot, 0)), Phoneme(slot, 1));
    PutWhole(Put(display, Phoneme(slot, 0)), Phoneme(slot, 1));
    if PhonemeCount(slot) == 3 { PutWhole(two, Phoneme(slot, 2)); }
  }

  lemma {:induction false} LabelIsWhole(zh: bool, code: Byte, idx: nat)
    requires idx < LabelCount(code)
    ensures Whole(LabelText(zh, code, idx))
  {
  }

  lemma {:induction false} LetterIsWhole(display: seq<Byte>, slot: nat)
    requires slot < SLOTS && Whole(display)
    ensures Whole(PutLetter(display, slot))
  {
  }

  /** The pending row, in either language, is whole characters. */
  lemma {:induction false} RenderedWhole(zh: bool, keys: seq<Byte>, hints: seq<Byte>)
    requires |hints| == |keys|
    ensures Whole(Rendered(zh, keys, hints))
  {
    hide Put, PutPhonemes, PutLetter;
    if |keys| > 0 {
      var n := |keys| - 1;
      RenderedWhole(zh, keys[..n], hints[..n]);
      var before := Rendered(zh, keys[..n], hints[..n]);
      PutWhole(before, SEPARATOR);
      var spaced := if zh && n > 0 then Put(before, SEPARATOR) else before;
      PutWhole(spaced, TONE_1_MARK);
      if KEY_BASE <= keys[n] < KEY_BASE + SLOTS {
        PhonemesWhole(spaced, keys[n] - KEY_BASE, hints[n]);
        LetterIsWhole(before, keys[n] - KEY_BASE);
      }
    }
  }

  lemma {:induction false} DisplayWhole(s: State)
    requires |s.hints| == |s.keys|
    ensures Whole(DisplayText(s))
  {
    hide Rendered, LabelText;
    RenderedWhole(s.mode == SmartZh, s.keys, s.hints);
    if s.shown.Label? && s.shown.idx < LabelCount(s.shown.key) { LabelIsWhole(s.mode == SmartZh, s.shown.key, s.shown.idx); }
  }

  // ---------------------------------------------------------------- search results

  lemma {:induction false} ExtendedWhole(rows: seq<Hit>, more: seq<Candidate>, prefix: nat, max: nat)
    requires WholeRows(rows) && WholeWords(more)
    ensures WholeRows(Extended(rows, more, prefix, max))
  {
    if |more| > 0 { ExtendedWhole(rows, more[..|more| - 1], prefix, max); }
  }

  lemma {:induction false} FilteredWhole(found: seq<Candidate>, intent: nat)
    requires WholeWords(found)
    ensures WholeWords(ToneFiltered(found, intent))
  {
    FilterHas(found, intent);
    var r := ToneFiltered(found, intent);
    forall i | 0 <= i < |r| ensures Whole(r[i].word) {
      assert r[i] in r;
      assert r[i] in found;
    }
  }

  lemma {:induction false} FoundWhole(search: Searcher, keys: seq<Byte>, len: nat)
    requires 1 <= len <= |StripAt(keys)| && forall k :: WholeWords(search(k))
    ensures WholeWords(FoundAt(search, keys, len))
  {
    if len != SkipLen(keys) {
      FilteredWhole(search(Stripped(keys)[..len]), ToneIntent(keys, PrefixEnd(keys, len)));
    }
  }

  lemma {:induction false} LegacyWhole(search: Searcher, keys: seq<Byte>, len: nat)
    requires 1 <= len && forall k :: WholeWords(search(k))
    ensures WholeRows(RowsFrom(search, keys, len))
    decreases |StripAt(keys)| - len
  {
    hide FoundAt, Extended;
    if len <= |StripAt(keys)| {
      LegacyWhole(search, keys, len + 1);
      FoundWhole(search, keys, len);
      ExtendedWhole(RowsFrom(search, keys, len + 1), FoundAt(search, keys, len), PrefixEnd(keys, len), LegacySearch.MAX_CANDIDATES);
    }
  }

  lemma {:induction false} WidenedWhole(c: Composer, keys: seq<Byte>, hints: seq<Byte>, target: int, rows: seq<Hit>)
    requires ComposerWhole(c) && |hints| == |keys| > 0 && WholeRows(rows)
    ensures WholeRows(Widened(c, keys, hints, target, rows))
  {
    if 1 <= target <= 4 { ExtendedWhole(rows, c.search(keys, hints, target, MAX_CANDIDATES), |keys|, MAX_CANDIDATES); }
  }

  lemma {:induction false} BucketsWhole(c: Composer, keys: seq<Byte>, hints: seq<Byte>, n: nat)
    requires ComposerWhole(c) && |hints| == |keys| > 0
    ensures WholeRows(BucketRows(c, keys, hints, n))
  {
    hide Widened;
    var r0 := RowsOf(c.search(keys, hints, n, MAX_CANDIDATES), |keys|);
    var r1 := Widened(c, keys, hints, n + 1, r0);
    var r2 := Widened(c, keys, hints, n - 1, r1);
    var r3 := Widened(c, keys, hints, n + 2, r2);
    WidenedWhole(c, keys, hints, n + 1, r0);
    WidenedWhole(c, keys, hints, n - 1, r1);
    WidenedWhole(c, keys, hints, n + 2, r2);
    WidenedWhole(c, keys, hints, n - 2, r3);
  }

  lemma {:induction false} DictWhole(env: Env, mode: Mode, keys: seq<Byte>, hints: seq<Byte>)
    requires EnvWhole(env) && |hints| == |keys| > 0
    ensures WholeRows(DictFound(env, mode, keys, hints).rows)
  {
    hide BucketRows;
    if env.composer.Some? && mode == SmartZh {
      BucketsWhole(env.composer.value, keys, hints, Positions(env.composer.value, keys));
      assert |hints[..1]| == |keys[..1]| == 1;
    } else if ActiveSearcher(env, mode).Some? {
      LegacyWhole(ActiveSearcher(env, mode).value, keys, 1);
    }
  }

  lemma {:induction false} HitsWhole(es: seq<Entry>, keys: seq<Byte>, hints: seq<Byte>)
    requires LruOk(es) && |hints| == |keys| > 0 && WholeEntries(es)
    ensures WholeRows(Lookup(es, keys, Some(hints), MAX_CANDIDATES))
  {
    var ranked := Lru.Ranked(es, keys, Some(hints));
    Lru.RankedHas(es, keys, Some(hints));
    RowsInOrder(ranked, MAX_CANDIDATES);
    var rows, at := Rows(ranked, MAX_CANDIDATES), RowPositions(ranked, MAX_CANDIDATES);
    forall i | 0 <= i < |rows| ensures Whole(rows[i].cand.word) {
      assert ranked[at[i]] in ranked;
    }
  }

  lemma {:induction false} MergedWhole(dict: seq<Hit>, hits: seq<Hit>)
    requires WholeRows(dict) && WholeRows(hits)
    ensures WholeRows(Merged(dict, hits, MAX_CANDIDATES))
  {
    MergeAddsNothing(dict, hits, MAX_CANDIDATES);
    var m := Merged(dict, hits, MAX_CANDIDATES);
    forall i | 0 <= i < |m| ensures Whole(m[i].cand.word) {
      assert m[i] in m;
      if m[i] in hits { var j :| 0 <= j < |hits| && hits[j] == m[i]; } else { var j :| 0 <= j < |dict| && dict[j] == m[i]; }
    }
  }

  lemma {:induction false} SearchedWhole(env: Env, s: State)
    requires EnvWhole(env) && |s.hints| == |s.keys| && LruOk(s.lru) && WholeState(s)
    ensures WholeState(Searched(env, s))
  {
    hide DictFound, Lookup, Merged, WholeTexts;
    if |s.keys| > 0 {
      DictWhole(env, s.mode, s.keys, s.hints);
      HitsWhole(s.lru, s.keys, s.hints);
      MergedWhole(DictFound(env, s.mode, s.keys, s.hints).rows, Lookup(s.lru, s.keys, Some(s.hints), MAX_CANDIDATES));
    }
  }

  // ---------------------------------------------------------------- what is said and learned

  lemma {:induction false} SayWhole(s: State, text: seq<Byte>)
    requires WholeState(s) && Whole(text)
    ensures WholeState(Say(s, text))
  {
  }

  lemma {:induction false} LearnedWhole(s: State, word: seq<Byte>, prefix: nat)
    requires |s.hints| == |s.keys| && WholeState(s) && Whole(word)
    ensures WholeEntries(Learned(s, word, prefix))
  {
    if |word| > 0 && s.mode == SmartZh && 0 < prefix <= |s.keys| {
      var tone := if |s.rows| > 0 then s.rows[SelectedRow(s)].cand.tone else 0;
      UpsertedWhole(s.lru, s.keys[..prefix], PackHints(s.hints, prefix), tone, word, s.nowMs);
    }
  }

  lemma {:induction false} UpsertedWhole(es: seq<Entry>, keys: seq<Byte>, pos: Byte, tone: Byte, word: seq<Byte>, now: U32)
    requires WholeEntries(es) && Whole(word)
    ensures WholeEntries(Upserted(es, keys, pos, tone, word, now))
  {
    hide FindExact, Victim, PackHints;
  }

  lemma {:induction false} CommitPartialWhole(env: Env, s: State, word: seq<Byte>, prefix: nat)
    requires EnvWhole(env) && |s.hints| == |s.keys| && LruOk(s.lru) && WholeState(s) && Whole(word)
    ensures WholeState(CommitPartial(env, s, word, prefix))
  {
    hide Searched, Upserted, Learned, AfterText;
    UpsertKeepsValid(s, word, prefix);
    LearnedWhole(s, word, prefix);
    SearchedWhole(env, Trimmed(s, word, prefix));
  }

  lemma {:induction false} CommitWhole(env: Env, s: State)
    requires EnvWhole(env) && |s.hints| == |s.keys| && LruOk(s.lru) && WholeState(s)
    ensures WholeState(CommitSelected(env, s))
  {
    hide CommitPartial, AfterText;
    if |s.rows| > 0 {
      var row := s.rows[SelectedRow(s)];
      SayWhole(s, SPACE_TEXT);
      CommitPartialWhole(env, Spaced(s), Cased(s, row.cand.word), row.prefix);
    }
  }

  lemma {:induction false} TapWhole(s: State)
    requires |s.hints| == |s.keys| && WholeState(s)
    ensures WholeState(TapCommitted(s))
  {
    hide DisplayText, AfterText;
    DisplayWhole(s);
  }

  lemma {:induction false} CommitKeepsLruOk(env: Env, s: State)
    requires |s.hints| == |s.keys| && LruOk(s.lru)
    ensures LruOk(CommitSelected(env, s).lru)
  {
    hide Searched, Learned, DisplayText, AfterText, Capital, LruOk, ImeMachine.Consumed;
    if |s.rows| > 0 {
      var row := s.rows[SelectedRow(s)];
      UpsertKeepsValid(Spaced(s), Cased(s, row.cand.word), row.prefix);
      SearchKeepsLru(env, Trimmed(Spaced(s), Cased(s, row.cand.word), row.prefix));
    }
  }

  lemma {:induction false} TapShape(s: State)
    requires |s.hints| == |s.keys|
    ensures var r := TapCommitted(s); r == s.(tap := r.tap, shown := r.shown, flags := r.flags, said := r.said)
  {
    hide DisplayText, AfterText;
  }

  lemma {:induction false} SearchKeepsLru(env: Env, s: State)
    requires |s.hints| == |s.keys| && LruOk(s.lru)
    ensures Searched(env, s).lru == s.lru
  {
    hide ListedRows, DictFound;
  }

  // ---------------------------------------------------------------- each handler

  lemma {:induction false} EnglishDoneWhole(env: Env, s: State)
    requires EnvWhole(env) && |s.hints| == |s.keys| && LruOk(s.lru) && WholeState(s)
    ensures WholeState(EnglishDone(env, s)) && LruOk(EnglishDone(env, s).lru)
  {
    hide CommitSelected;
    CommitWhole(env, s);
    CommitKeepsLruOk(env, s);
  }

  lemma {:induction false} SpaceKeyWhole(env: Env, s: State)
    requires EnvWhole(env) && |s.hints| == |s.keys| && LruOk(s.lru) && WholeState(s)
    ensures WholeState(SpaceKey(env, s))
  {
    hide EnglishDone, Searched, Say;
    SayWhole(s, SPACE_TEXT);
    if !(|s.keys| == 0 && s.tap.key == KEY_NONE) {
      if s.mode == SmartZh {
        SearchedWhole(env, Appended(s, TONE_1, HINT_ANY));
      } else {
        EnglishDoneWhole(env, s);
        SayWhole(EnglishDone(env, s), SPACE_TEXT);
      }
    }
  }

  lemma {:induction false} TapPressedWhole(s: State, code: Byte, count: nat, now: U32)
    requires count > 0 && |s.hints| == |s.keys| && WholeState(s)
    ensures WholeState(TapPressed(s, code, count, now))
  {
    hide TapCommitted, SkipUnlabelled;
    TapWhole(s);
  }

  lemma {:induction false} SmartKeyWhole(env: Env, s: State, code: Byte, flags: Byte, now: U32)
    requires EnvWhole(env) && |s.hints| == |s.keys| && LruOk(s.lru) && s.cycle.byteIndex < |s.keys| && WholeState(s)
    ensures WholeState(SmartKey(env, s, code, flags, now))
  {
    hide EnglishDone, SpaceKey, TapPressed, Searched;
    SpaceKeyWhole(env, s);
    if SlotOf(code).Some? && code != KEY_SPACE && code != KEY_TAB {
      var slot := SlotOf(code).value;
      EnglishDoneWhole(env, s);
      TapPressedWhole(if |s.keys| > 0 then EnglishDone(env, s) else s, code, 2, now);
      SearchedWhole(env, Appended(s, KEY_BASE + slot, HINT_ANY).(cycle := s.cycle.(byteIndex := -1)));
      LongPressWhole(env, s, slot, now);
    }
  }

  lemma {:induction false} LongPressWhole(env: Env, s: State, slot: nat, now: U32)
    requires EnvWhole(env) && |s.hints| == |s.keys| && LruOk(s.lru) && slot < SLOTS && s.cycle.byteIndex < |s.keys| && WholeState(s)
    ensures WholeState(LongPress(env, s, slot, now))
  {
    hide Searched;
    if CanCycle(s, slot, now) {
      var p := (s.cycle.phoneme + 1) % PhonemeCount(slot);
      SearchedWhole(env, s.(cycle := s.cycle.(phoneme := p, lastMs := now), hints := s.hints[s.cycle.byteIndex := p]));
    } else if |s.keys| < MAX_KEY_SEQ {
      SearchedWhole(env, Appended(s, KEY_BASE + slot, 0).(cycle := Cycle(|s.keys|, slot, 0, now)));
    }
  }

  lemma {:induction false} DirectKeyWhole(s: State, code: Byte, now: U32)
    requires |s.hints| == |s.keys| && WholeState(s)
    ensures WholeState(DirectKey(s, code, now))
  {
    hide TapCommitted, TapPressed, Say;
    TapWhole(s);
    SayWhole(TapCommitted(s), SPACE_TEXT);
    SayWhole(TapCommitted(s), TAB_TEXT);
    if LabelCount(code) > 0 { TapPressedWhole(s, code, LabelCount(code), now); }
  }

  lemma {:induction false} DelWhole(env: Env, s: State)
    requires EnvWhole(env) && |s.hints| == |s.keys| && LruOk(s.lru) && WholeState(s)
    ensures WholeState(Del(env, s))
  {
    hide Searched;
    var n := |s.keys|;
    if s.tap.key == KEY_NONE && n > 0 {
      SearchedWhole(env, s.(keys := s.keys[..n - 1], hints := s.hints[..n - 1],
                            cycle := if s.cycle.byteIndex >= n - 1 then s.cycle.(byteIndex := -1) else s.cycle));
    }
  }

  lemma {:induction false} PressedWhole(env: Env, s: State, code: Byte, flags: Byte, now: U32)
    requires EnvWhole(env) && |s.hints| == |s.keys| && LruOk(s.lru) && s.cycle.byteIndex < |s.keys| && WholeState(s)
    ensures WholeState(Pressed(env, s, code, flags, now))
  {
    hide Del, CommitSelected, TapCommitted, SmartKey, DirectKey, Say, SlotOf;
    TapWhole(s);
    TapShape(s);
    CommitWhole(env, s);
    DelWhole(env, s);
    SayWhole(s, NEWLINE_TEXT);
    var t := if s.tap.key != code then TapCommitted(s) else s;
    DirectKeyWhole(t, code, now);
    SmartKeyWhole(env, t, code, flags, now);
  }

  lemma {:induction false} Sym1Whole(s: State, pressed: bool, now: U32)
    requires |s.hints| == |s.keys| && WholeState(s)
    ensures WholeState(Sym1Key(s, pressed, now))
  {
    hide TapCommitted, Say;
    var up := s.(sym1 := s.sym1.(down := false));
    TapWhole(up);
    SayWhole(TapCommitted(up), CommaText(s.mode));
  }

  lemma {:induction false} PickerWhole(s: State, code: Byte)
    requires s.pickerSel < PICKER_CELLS && WholeState(s)
    ensures WholeState(Picker(s, code))
  {
    hide Say;
    SayWhole(s.(pickerOpen := false, pickerSel := 0), SymbolText(s.pickerSel));
  }

  lemma {:induction false} TickWhole(s: State, now: U32)
    requires |s.hints| == |s.keys| && WholeState(s)
    ensures WholeState(Ticked(s, now))
  {
    hide TapCommitted;
    TapWhole(s.(nowMs := now));
  }

  /** Whatever the event, all that is said, offered and remembered stays whole characters. */
  lemma {:induction false} StepWhole(env: Env, s: State, e: Event)
    requires EnvOk(env) && EnvWhole(env) && Inv(s) && WholeState(s)
    ensures WholeState(Step(env, s, e))
  {
    hide Pressed, Picker, Sym1Key, Ticked, Inv;
    InvAllows(s);
    match e
    case Key(code, pressed, flags, now) =>
      var t := s.(nowMs := now);
      Sym1Whole(t, pressed, now);
      PickerWhole(t, code);
      PressedWhole(env, t, code, flags, now);
    case Tick(now) => TickWhole(s, now);
    case Abort =>
    case Select(idx) =>
    case SetContext(before) =>
  }

  // ---------------------------------------------------------------- every run

  lemma {:induction false} RunIsWhole(env: Env, s: State, events: seq<Event>)
    requires EnvOk(env) && EnvWhole(env) && Inv(s) && WholeState(s)
    ensures WholeState(Run(env, s, events))
  {
    hide Step, Inv, WholeState;
    if |events| > 0 {
      var n := |events| - 1;
      RunIsWhole(env, s, events[..n]);
      StepWhole(env, Run(env, s, events[..n]), events[n]);
    }
  }

  /** In every run the flags are those of the text before the cursor, exactly unless the blanks sent last part
      them; whether a space ends it they always know. */
  lemma {:induction false} FlagsInEveryRun(env: Env, lru: seq<Entry>, events: seq<Event>)
    requires EnvOk(env) && EnvWhole(env) && LruOk(lru) && WholeEntries(lru)
    ensures Inv(Initial(lru))
    ensures var s := Run(env, Initial(lru), events);
      && s.flags.spaced == FromContext(TextOf(s.said)).spaced
      && (s.flags == FromContext(TextOf(s.said)) <==> !Parted(TailOf(s.said)))
  {
    hide Run, Parted, TailOf, TextOf;
    EveryRunIsSafe(env, lru, events);
    RunIsWhole(env, Initial(lru), events);
    InvSpoken(Run(env, Initial(lru), events));
    FlagsAreOfTheText(Run(env, Initial(lru), events).said);
  }

  /** They part in a run from start-up, whatever the dictionaries: after one space into an empty field the next
      English word is still taken for the first of a sentence, which the text alone does not say. */
  lemma {:induction false} FlagsPartInARun(env: Env)
    requires EnvOk(env)
    ensures Inv(Initial([]))
    ensures var s := Step(env, Initial([]), Key(KEY_SPACE, true, 0, 0));
      s.said == [Text(SPACE_TEXT)] && s.flags.capNext && !FromContext(TextOf(s.said)).capNext
  {
    EveryRunIsSafe(env, [], []);
    SpacesEndNothing(SPACE_TEXT);
    var said := [Text(SPACE_TEXT)];
    assert said[..0] == [] && TextOf(said) == SPACE_TEXT;
  }

  /** In every run an English word begins the text before the cursor or follows a space in it, and where that
      text ends a sentence, or is empty, it begins with no lower-case letter; a text of several spaces, which
      only a dictionary could give, is the one thing that may come between. */
  lemma {:induction false} EnglishWordsFitTheText(env: Env, lru: seq<Entry>, events: seq<Event>, i: nat)
    requires EnvOk(env) && EnvWhole(env) && LruOk(lru) && WholeEntries(lru)
    requires i < |Run(env, Initial(lru), events).said| && Run(env, Initial(lru), events).said[i].EnglishWord?
    ensures var said := Run(env, Initial(lru), events).said;
      var x, word := TextOf(said[..i]), said[i].text;
      && (x == [] || EndsWithSpace(x))
      && (CapAfter(x) && !TailOf(said[..i]).several && |word| > 0 ==> !IsLower(word[0]))
  {
    hide Run, TailOf, TextOf, FlagsAfter, EndsSentence, EndsWithSpace;
    EveryRunIsSafe(env, lru, events);
    EnglishWordsFit(env, lru, events, i);
    RunIsWhole(env, Initial(lru), events);
    var said := Run(env, Initial(lru), events).said;
    assert WholeTexts(said[..i]);
    HistoryTells(said[..i]);
  }
}
