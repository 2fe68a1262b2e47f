/** What the input method learns: which events teach the personal cache, and what that means for later searches. */
module ImeLearning {
  import opened Basics
  import opened Bytes
  import opened Composition
  import opened CandidateMerge
  import opened LegacySearch
  import opened Lru
  import opened LruUses
  import opened ImeKeys
  import opened SentText
  import opened ImeMachine
  import opened ImeHistory
  import ImePending

  /** The event commits the selected candidate in Chinese mode. */
  predicate Commits(s: State, e: Event) {
    && e.Key? && e.pressed && !s.pickerOpen && s.mode == SmartZh && |s.rows| > 0
    && (e.code == KEY_OK || (e.code == KEY_MODE && s.tap.key == KEY_NONE))
  }

  /** What such an event teaches: the keys the candidate takes up, the hints given with them, its tone and word,
      and the time. */
  function Taught(s: State, e: Event): Use
    requires Inv(s) && Commits(s, e)
  {
    var row := s.rows[if s.selected < |s.rows| then s.selected else 0];
    Use(s.keys[..row.prefix], PackHints(s.hints, row.prefix), row.cand.tone, row.cand.word, e.now)
  }

  function AfterUse(es: seq<Entry>, u: Use): seq<Entry> {
    Upserted(es, u.keys, u.pos, u.tone, u.word, u.now)
  }

  // ---------------------------------------------------------------- only a commit teaches

  lemma {:induction false} CommitTeaches(env: Env, s: State, e: Event)
    requires EnvOk(env) && Inv(s) && Commits(s, e)
    ensures CommitSelected(env, s.(nowMs := e.now)).lru == AfterUse(s.lru, Taught(s, e))
  {
    hide Searched, DisplayText, AfterText, Spoken, ImeMachine.Consumed, FindExact, Victim, KeyOk;
    var t := s.(nowMs := e.now);
    var row := t.rows[SelectedRow(t)];
    UpsertKeepsValid(t, row.cand.word, row.prefix);
    SearchKeepsLru(env, Trimmed(t, row.cand.word, row.prefix));
  }

  lemma {:induction false} EnglishTeachesNothing(env: Env, s: State)
    requires |s.hints| == |s.keys| && LruOk(s.lru) && s.mode != SmartZh
    ensures CommitSelected(env, s).lru == s.lru && EnglishDone(env, s).lru == s.lru
  {
    hide Searched, Upserted, DisplayText, AfterText, Capital, ImeMachine.Consumed;
    if |s.rows| > 0 {
      var row := s.rows[SelectedRow(s)];
      UpsertKeepsValid(Spaced(s), Cased(s, row.cand.word), row.prefix);
      SearchKeepsLru(env, Trimmed(Spaced(s), Cased(s, row.cand.word), row.prefix));
    }
  }

  lemma {:induction false} SpaceTeachesNothing(env: Env, s: State)
    requires |s.hints| == |s.keys| && LruOk(s.lru)
    ensures SpaceKey(env, s).lru == s.lru
  {
    hide Searched, EnglishDone, AfterText;
    if s.mode == SmartZh {
      SearchKeepsLru(env, Appended(s, TONE_1, HINT_ANY));
    } else {
      EnglishTeachesNothing(env, s);
    }
  }

  lemma {:induction false} LongPressTeachesNothing(env: Env, s: State, slot: nat, now: U32)
    requires |s.hints| == |s.keys| && LruOk(s.lru) && slot < SLOTS && s.cycle.byteIndex < |s.keys|
    ensures LongPress(env, s, slot, now).lru == s.lru
  {
    hide Searched;
    if CanCycle(s, slot, now) {
      var p := (s.cycle.phoneme + 1) % PhonemeCount(slot);
      SearchKeepsLru(env, s.(cycle := s.cycle.(phoneme := p, lastMs := now), hints := s.hints[s.cycle.byteIndex := p]));
    } else if |s.keys| < MAX_KEY_SEQ {
      SearchKeepsLru(env, Appended(s, KEY_BASE + slot, 0).(cycle := Cycle(|s.keys|, slot, 0, now)));
    }
  }

  lemma {:induction false} TapPressTeachesNothing(s: State, code: Byte, count: nat, now: U32)
    requires count > 0 && |s.hints| == |s.keys|
    ensures TapPressed(s, code, count, now).lru == s.lru
  {
    hide TapCommitted, SkipUnlabelled;
    TapShape(s);
  }

  lemma {:induction false} SmartTeachesNothing(env: Env, s: State, code: Byte, flags: Byte, now: U32)
    requires |s.hints| == |s.keys| && LruOk(s.lru) && s.cycle.byteIndex < |s.keys| && s.mode != Direct
    ensures SmartKey(env, s, code, flags, now).lru == s.lru
  {
    hide SpaceKey, EnglishDone, TapPressed, LongPress, Searched;
    SpaceTeachesNothing(env, s);
    if SlotOf(code).Some? && code != KEY_SPACE && code != KEY_TAB {
      var slot := SlotOf(code).value;
      LongPressTeachesNothing(env, s, slot, now);
      SearchKeepsLru(env, Appended(s, KEY_BASE + slot, HINT_ANY).(cycle := s.cycle.(byteIndex := -1)));
      if s.mode == SmartEn {
        EnglishTeachesNothing(env, s);
        TapPressTeachesNothing(if |s.keys| > 0 then EnglishDone(env, s) else s, code, 2, now);
      }
    }
  }

  lemma {:induction false} DirectTeachesNothing(s: State, code: Byte, now: U32)
    requires |s.hints| == |s.keys|
    ensures DirectKey(s, code, now).lru == s.lru
  {
    hide TapCommitted, TapPressed, AfterText;
    TapShape(s);
    if LabelCount(code) > 0 { TapPressTeachesNothing(s, code, LabelCount(code), now); }
  }

  lemma {:induction false} DelTeachesNothing(env: Env, s: State)
    requires |s.hints| == |s.keys| && LruOk(s.lru)
    ensures Del(env, s).lru == s.lru
  {
    hide Searched;
    var n := |s.keys|;
    if s.tap.key == KEY_NONE && n > 0 {
      SearchKeepsLru(env, s.(keys := s.keys[..n - 1], hints := s.hints[..n - 1],
                             cycle := if s.cycle.byteIndex >= n - 1 then s.cycle.(byteIndex := -1) else s.cycle));
    }
  }

  lemma {:induction false} NoRowsTeachNothing(env: Env, s: State)
    requires |s.hints| == |s.keys| && LruOk(s.lru) && (s.mode != SmartZh || |s.rows| == 0)
    ensures CommitSelected(env, s).lru == s.lru
  {
    if s.mode != SmartZh { EnglishTeachesNothing(env, s); }
  }

  lemma {:induction false} PressTeaches(env: Env, s: State, e: Event)
    requires EnvOk(env) && Inv(s) && e.Key? && e.pressed && !s.pickerOpen && e.code != KEY_NONE
    ensures Pressed(env, s.(nowMs := e.now), e.code, e.flags, e.now).lru
      == if Commits(s, e) then AfterUse(s.lru, Taught(s, e)) else s.lru
  {
    hide Inv, CommitSelected, TapCommitted, SmartKey, DirectKey, Del, AfterText, SlotOf, Upserted;
    InvAllows(s);
    var t := s.(nowMs := e.now);
    TapShape(t);
    if Commits(s, e) {
      CommitTeaches(env, s, e);
    } else if e.code == KEY_OK || e.code == KEY_MODE {
      if s.mode != SmartZh || |s.rows| == 0 { NoRowsTeachNothing(env, t); }
    } else if e.code == KEY_DEL {
      DelTeachesNothing(env, t);
    } else if !IsDpad(e.code) && e.code != KEY_SYM2 {
      var u := if t.tap.key != e.code then TapCommitted(t) else t;
      if s.mode == Direct { DirectTeachesNothing(u, e.code, e.now); } else { SmartTeachesNothing(env, u, e.code, e.flags, e.now); }
    }
  }

  lemma {:induction false} Sym1TeachesNothing(s: State, pressed: bool, now: U32)
    requires |s.hints| == |s.keys|
    ensures Sym1Key(s, pressed, now).lru == s.lru
  {
    hide TapCommitted, AfterText;
    TapShape(s.(sym1 := s.sym1.(down := false)));
  }

  lemma {:induction false} TickTeachesNothing(s: State, now: U32)
    requires |s.hints| == |s.keys|
    ensures Ticked(s, now).lru == s.lru
  {
    hide TapCommitted;
    TapShape(s.(nowMs := now));
  }

  /** The cache changes by exactly the events that commit a candidate in Chinese mode, and by what they teach. */
  lemma {:induction false} StepTeaches(env: Env, s: State, e: Event)
    requires EnvOk(env) && Inv(s)
    ensures Step(env, s, e).lru == if Commits(s, e) then AfterUse(s.lru, Taught(s, e)) else s.lru
  {
    hide Inv, Pressed, Sym1Key, Ticked, Upserted, AfterText, SymbolText;
    InvAllows(s);
    match e
    case Key(code, pressed, flags, now) =>
      var t := s.(nowMs := now);
      Sym1TeachesNothing(t, pressed, now);
      if pressed && !s.pickerOpen && code != KEY_NONE { PressTeaches(env, s, e); }
    case Tick(now) => TickTeachesNothing(s, now);
    case Abort =>
    case Select(idx) =>
    case SetContext(before) =>
  }

  /** What a run has taught. */
  ghost function TaughtIn(env: Env, s: State, events: seq<Event>): seq<Use>
    requires EnvOk(env) && Inv(s)
  {
    if |events| == 0 then []
    else
      var n := |events| - 1;
      var mid := Run(env, s, events[..n]);
      TaughtIn(env, s, events[..n]) + if Commits(mid, events[n]) then [Taught(mid, events[n])] else []
  }

  /** From an empty cache every run leaves the cache that its commits have taught. */
  lemma {:induction false} RunTeaches(env: Env, events: seq<Event>)
    requires EnvOk(env)
    ensures Inv(Initial([]))
    ensures Run(env, Initial([]), events).lru == After(TaughtIn(env, Initial([]), events))
  {
    hide Inv, Step, Commits, Taught, Upserted;
    EveryRunIsSafe(env, [], events);
    if |events| > 0 {
      var n := |events| - 1;
      RunTeaches(env, events[..n]);
      var mid, uses := Run(env, Initial([]), events[..n]), TaughtIn(env, Initial([]), events[..n]);
      StepTeaches(env, mid, events[n]);
      if Commits(mid, events[n]) {
        var all := uses + [Taught(mid, events[n])];
        assert all[..|uses|] == uses;
      } else {
        assert uses + [] == uses;
      }
    }
  }

  // ---------------------------------------------------------------- what is taught is found again

  /** No entry is lost or changed but the one at `k`. */
  predicate SameBut(es: seq<Entry>, es': seq<Entry>, k: nat) {
    |es| <= |es'| && forall i :: 0 <= i < |es| && i != k ==> es'[i] == es[i]
  }

  /** After a call the cache holds its entry, and is otherwise as it was but for an evicted entry. */
  lemma {:induction false} UseIsKept(es: seq<Entry>, u: Use) returns (k: nat)
    requires LruOk(es) && Teaches(u)
    ensures LruOk(AfterUse(es, u)) && k < |AfterUse(es, u)| && Keeps(AfterUse(es, u)[k], u)
    ensures SameBut(es, AfterUse(es, u), k)
  {
    k := FindExact(es, u.keys, u.pos, u.word);
    if k == |es| == CAP { k := Victim(es); }
  }

  /** An entry for a call that answers the input makes its word one of the rows: the first, if no other entry that
      fits is as recent. */
  lemma {:induction false} KeptIsLooked(es: seq<Entry>, k: nat, u: Use, keys: seq<Byte>, hints: seq<Byte>, max: nat)
    requires LruOk(es) && k < |es| && Keeps(es[k], u) && |hints| == |keys| > 0 && Answers(u, keys, Some(hints)) && max > 0
    ensures var rows := Lookup(es, keys, Some(hints), max);
      && (HasHit(rows, u.word) || |rows| == max)
      && ((forall x :: x in es && x.Valid() && EntryFits(x, keys, Some(hints)) && !Keeps(x, u) ==> x.lastUsedMs < u.now) ==>
            |rows| > 0 && RowOf(rows[0], u))
  {
    hide EntryFits, Answers, Lookup, Sources, HitOf;
    var e, rows, sources := es[k], Lookup(es, keys, Some(hints), max), Sources(es, keys, Some(hints), max);
    FitsWhatAnswers(e, u, keys, Some(hints));
    LookupLosesNothing(es, keys, Some(hints), max, e);
    LookupRows(es, keys, Some(hints), max);
    if forall x :: x in es && x.Valid() && EntryFits(x, keys, Some(hints)) && !Keeps(x, u) ==> x.lastUsedMs < u.now {
      FirstIsNewest(es, k, u, keys, hints, sources);
      RowOfEntry(sources[0], u);
    }
  }

  lemma {:induction false} RowOfEntry(e: Entry, u: Use)
    requires Keeps(e, u)
    ensures e.Valid() && RowOf(HitOf(e), u)
  {
  }

  lemma {:induction false} FirstIsNewest(es: seq<Entry>, k: nat, u: Use, keys: seq<Byte>, hints: seq<Byte>, sources: seq<Entry>)
    requires AllValid(es) && k < |es| && Keeps(es[k], u) && |hints| == |keys|
    requires forall x :: x in es && x.Valid() && EntryFits(x, keys, Some(hints)) && !Keeps(x, u) ==> x.lastUsedMs < u.now
    requires forall r :: 0 <= r < |sources| ==> sources[r] in es && sources[r].Valid() && EntryFits(sources[r], keys, Some(hints))
    requires |sources| > 0 && Recency()(sources[0]) >= Recency()(es[k])
    ensures Keeps(sources[0], u)
  {
    hide EntryFits;
    RecencyOrders(sources[0], es[k]);
  }

  lemma {:induction false} MergedStarts(dict: seq<Hit>, hits: seq<Hit>)
    requires |hits| > 0
    ensures |Merged(dict, hits, MAX_CANDIDATES)| >= |hits| && hits <= Merged(dict, hits, MAX_CANDIDATES)
  {
    hide Kept;
  }

  /** The hints given with the keys taught do not contradict themselves. */
  lemma {:induction false} TaughtAnswersItself(s: State, e: Event)
    requires Inv(s) && Commits(s, e)
    ensures var u := Taught(s, e);
      1 <= |u.keys| <= |s.keys| && u.keys == s.keys[..|u.keys|] && Answers(u, u.keys, Some(s.hints[..|u.keys|]))
  {
    hide Spoken, CycleOk, TapOk, PickerOk, PackHints, UnpackPos;
    var row := s.rows[if s.selected < |s.rows| then s.selected else 0];
    var n := row.prefix;
    assert 1 <= n <= |s.keys|;
    forall k | 0 <= k < n && k < 4
      ensures s.hints[k] == 0xFF || UnpackPos(PackHints(s.hints, n), k) == 3 || UnpackPos(PackHints(s.hints, n), k) == s.hints[k]
    {
      HintTaught(s, n, k);
    }
  }

  lemma {:induction false} HintTaught(s: State, n: nat, k: nat)
    requires KeysOk(s.keys, s.hints) && k < n <= |s.hints| && k < 4
    ensures s.hints[k] == 0xFF || UnpackPos(PackHints(s.hints, n), k) == 3 || UnpackPos(PackHints(s.hints, n), k) == s.hints[k]
  {
    forall i | 0 <= i < n ensures s.hints[i] < 3 || s.hints[i] == HINT_ANY {
      assert KeyOk(s.keys[i], s.hints[i]);
    }
    hide PackHints, UnpackPos, KeyOk, KeysOk;
    HintsRoundTrip(s.hints, n, k);
  }

  /** A committed candidate is remembered: afterwards the cache holds its keys, hints, tone and word with the time of
      the event. */
  lemma {:induction false} CommitIsRemembered(env: Env, s: State, e: Event) returns (k: nat)
    requires EnvOk(env) && Inv(s) && Commits(s, e) && Teaches(Taught(s, e))
    ensures var u, es := Taught(s, e), Step(env, s, e).lru;
      && k < |es| && SameId(es[k], u.keys, u.pos, u.word) && es[k].tone == u.tone && es[k].lastUsedMs == e.now
    ensures SameBut(s.lru, Step(env, s, e).lru, k)
  {
    hide Inv, Step, Commits, Taught, AfterUse;
    InvAllows(s);
    StepTeaches(env, s, e);
    TaughtNow(s, e);
    k := UseIsKept(s.lru, Taught(s, e));
  }

  lemma {:induction false} TaughtNow(s: State, e: Event)
    requires Inv(s) && Commits(s, e)
    ensures Taught(s, e).now == e.now
  {
  }

  /** And found again: a search over that cache, for an input its keys and hints answer, lists the word, unless a
      hundred words as recent fill the list; it lists it first, with its keys, when no other entry that fits is as
      recent. */
  lemma {:induction false} CommitIsOfferedAgain(env: Env, s: State, e: Event, t: State)
    requires EnvOk(env) && Inv(s) && Commits(s, e) && Teaches(Taught(s, e))
    requires |t.hints| == |t.keys| > 0 && t.mode == SmartZh && t.lru == Step(env, s, e).lru
    requires Answers(Taught(s, e), t.keys, Some(t.hints))
    ensures LruOk(t.lru)
    ensures HasHit(Searched(env, t).rows, s.rows[if s.selected < |s.rows| then s.selected else 0].cand.word)
      || |Searched(env, t).rows| >= MAX_CANDIDATES
    ensures (forall x :: x in t.lru && x.Valid() && EntryFits(x, t.keys, Some(t.hints)) && !Keeps(x, Taught(s, e)) ==> x.lastUsedMs < e.now) ==>
      |Searched(env, t).rows| > 0 && RowOf(Searched(env, t).rows[0], Taught(s, e))
  {
    hide Inv, Step, Lookup, EntryFits, Answers, DictFound, Merged, AfterUse, Keeps;
    InvAllows(s);
    StepTeaches(env, s, e);
    var u := Taught(s, e);
    var k := UseIsKept(s.lru, u);
    var hits := Lookup(t.lru, t.keys, Some(t.hints), MAX_CANDIDATES);
    var dict := DictFound(env, t.mode, t.keys, t.hints).rows;
    KeptIsLooked(t.lru, k, u, t.keys, t.hints, MAX_CANDIDATES);
    if |hits| > 0 {
      MergedStarts(dict, hits);
      if HasHit(hits, u.word) { HasHitPrefix(hits, Merged(dict, hits, MAX_CANDIDATES), u.word); }
    }
  }

  // ---------------------------------------------------------------- a run that learns

  lemma {:induction false} OkEmpties(env: Env, s: State)
    requires EnvOk(env) && Inv(s) && s.mode == SmartZh && |s.keys| == 1 && |s.rows| > 0 && !s.pickerOpen && s.tap.key == KEY_NONE
    ensures var r := Step(env, s, Key(KEY_OK, true, 0, 0));
      Inv(r) && r.keys == [] && r.mode == SmartZh && !r.pickerOpen && r.tap.key == KEY_NONE
  {
    hide CommitPartial, Searched, Spoken, Learned, KeysOk, DisplayText, AfterText;
    StepKeepsInv(env, s, Key(KEY_OK, true, 0, 0));
    var t := s.(nowMs := 0);
    assert Inv(t);
    InvAllows(t);
    ImePending.CommitSelectedConserves(env, t);
    CommitOk(env, t);
    ImePending.CommitKeepsPicker(env, t);
  }

  lemma {:induction false} FirstKeyIsOne(env: Env)
    requires EnvOk(env)
    ensures Inv(Initial([]))
    ensures var r := Step(env, Initial([]), Key(0x01, true, 0, 0));
      Inv(r) && r.keys == [KEY_BASE] && r.hints == [HINT_ANY] && r.lru == [] && r.mode == SmartZh && !r.pickerOpen && r.tap.key == KEY_NONE
  {
    EveryRunIsSafe(env, [], []);
    ImePending.ShortPressAdds(env, Initial([]), 0x01, 0);
  }

  /** From start-up, with any dictionary that has a candidate for the first key: that key, OK, and the same key
      again. The word just chosen now comes first. */
  lemma {:induction false} ChosenWordComesFirst(env: Env) returns (s1: State, s2: State, s3: State)
    requires EnvOk(env) && Inv(Initial([])) && |Step(env, Initial([]), Key(0x01, true, 0, 0)).rows| > 0
    ensures Inv(s1) && Inv(s2) && Inv(s3)
    ensures s1 == Step(env, Initial([]), Key(0x01, true, 0, 0))
    ensures s2 == Step(env, s1, Key(KEY_OK, true, 0, 0))
    ensures s3 == Step(env, s2, Key(0x01, true, 0, 0)) && s3.keys == s1.keys
    ensures var word := s1.rows[if s1.selected < |s1.rows| then s1.selected else 0].cand.word;
      1 <= |word| <= 24 ==> |s3.rows| > 0 && s3.rows[0].cand.word == word
  {
    hide Step, Inv;
    FirstKeyIsOne(env);
    s1 := Step(env, Initial([]), Key(0x01, true, 0, 0));
    InvAllows(s1);
    OkEmpties(env, s1);
    s2 := Step(env, s1, Key(KEY_OK, true, 0, 0));
    InvAllows(s2);
    ImePending.ShortPressAdds(env, s2, 0x01, 0);
    s3 := Step(env, s2, Key(0x01, true, 0, 0));
    var word := s1.rows[if s1.selected < |s1.rows| then s1.selected else 0].cand.word;
    if 1 <= |word| <= 24 { LearnedAtOnce(env, s1, s2, s3); }
  }

  lemma {:induction false} LearnedAtOnce(env: Env, s1: State, s2: State, s3: State)
    requires EnvOk(env) && Inv(s1) && Inv(s2) && Commits(s1, Key(KEY_OK, true, 0, 0)) && s2 == Step(env, s1, Key(KEY_OK, true, 0, 0))
    requires s2.keys == [] && s2.hints == [] && s2.mode == SmartZh && !s2.pickerOpen && s2.tap.key == KEY_NONE
    requires s3 == Step(env, s2, Key(0x01, true, 0, 0)) && s1.keys == [KEY_BASE] && s1.hints == [HINT_ANY] && s1.lru == []
    requires 1 <= |Taught(s1, Key(KEY_OK, true, 0, 0)).word| <= 24
    ensures |s3.rows| > 0 && s3.rows[0].cand.word == Taught(s1, Key(KEY_OK, true, 0, 0)).word
  {
    hide Step, Inv, Answers, EntryFits, Searched, Lookup;
    var e := Key(KEY_OK, true, 0, 0);
    InvAllows(s2);
    ImePending.ShortPressAdds(env, s2, 0x01, 0);
    OneKeyTaught(s1, e);
    TaughtAnswersItself(s1, e);
    StepTeaches(env, s1, e);
    var u := Taught(s1, e);
    var k := UseIsKept(s1.lru, u);
    ImePending.ShortPressSearches(env, s2, 0x01, 0);
    assert s1.hints[..1] == s1.hints && s1.keys[..1] == s1.keys;
    assert u.keys == s3.keys && s1.hints[..|u.keys|] == s3.hints;
    CommitIsOfferedAgain(env, s1, e, s3);
  }

  lemma {:induction false} OneKeyTaught(s: State, e: Event)
    requires Inv(s) && Commits(s, e) && |s.keys| == 1
    ensures |Taught(s, e).keys| == 1
  {
    hide Spoken, KeysOk, CycleOk, TapOk, PickerOk;
  }
}
