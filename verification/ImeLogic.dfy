/** The input method object: fixed-size buffers rewritten in place, each method proved against the step
    function of the same event in ImeMachine. */
module ImeEngine {
  import opened Basics
  import opened Bytes
  import opened Composition
  import opened CandidateMerge
  import opened LegacySearch
  import opened Lru
  import opened ImeKeys
  import opened SentText
  import opened ImeMachine

  /** The first `n` cells of the two parallel arrays. */
  ghost function RowsIn(cands: array<Candidate>, prefixes: array<nat>, n: nat): (rows: seq<Hit>)
    requires n <= cands.Length && n <= prefixes.Length
    reads cands, prefixes
    ensures |rows| == n && forall i :: 0 <= i < n ==> rows[i] == Hit(cands[i], prefixes[i])
  {
    if n == 0 then [] else RowsIn(cands, prefixes, n - 1) + [Hit(cands[n - 1], prefixes[n - 1])]
  }

  /** memmove of `count` bytes from position `from` to the front. */
  method MoveToFront(a: array<Byte>, from: nat, count: nat)
    requires from + count <= a.Length
    modifies a
    ensures forall k {:trigger a[k]} :: 0 <= k < count ==> a[k] == old(a[from + k])
  {
    for j := 0 to count
      invariant forall k {:trigger a[k]} :: 0 <= k < j ==> a[k] == old(a[from + k])
      invariant forall k {:trigger a[k]} :: j <= k < a.Length ==> a[k] == old(a[k])
    {
      a[j] := a[from + j];
    }
  }

  class ImeLogic {
    const env: Env
    const keySeq: array<Byte>
    const phonemeHint: array<Byte>
    const candidates: array<Candidate>
    const prefixKeys: array<nat>
    var keyLen: nat
    var candCount: nat
    var selected: nat
    var matched: nat
    var mode: Mode
    var tap: Tap
    var sym1: Sym1
    var pickerOpen: bool
    var pickerSel: nat
    var cycle: Cycle
    const lru: LruCache
    var nowMs: U32
    var shown: Shown
    var flags: Flags
    var said: seq<Said>

    ghost predicate Shape()
      reads this, keySeq, lru, lru.entries
    {
      && keySeq.Length == MAX_KEY_SEQ + 1 && phonemeHint.Length == MAX_KEY_SEQ && keySeq != phonemeHint
      && candidates.Length == MAX_CANDIDATES && prefixKeys.Length == MAX_CANDIDATES
      && keyLen <= MAX_KEY_SEQ && candCount <= MAX_CANDIDATES
      && keySeq[keyLen] == 0
      && lru.Valid() && LruOk(lru.Entries()) && cycle.byteIndex < keyLen
    }

    ghost function View(): State
      requires Shape()
      reads this, keySeq, phonemeHint, candidates, prefixKeys, lru, lru.entries
    {
      State(mode, keySeq[..keyLen], phonemeHint[..keyLen], matched, RowsIn(candidates, prefixKeys, candCount), selected, tap, sym1, pickerOpen, pickerSel,
            cycle, lru.Entries(), nowMs, shown, flags, said)
    }

    ghost predicate Valid()
      reads this, keySeq, phonemeHint, candidates, prefixKeys, lru, lru.entries
    {
      Shape() && EnvOk(env) && Inv(View())
    }

    constructor (env: Env)
      requires EnvOk(env)
      ensures Valid() && View() == Initial([]) && this.env == env
      ensures fresh(keySeq) && fresh(phonemeHint) && fresh(candidates) && fresh(prefixKeys)
      ensures fresh(lru) && fresh(lru.entries)
    {
      this.env := env;
      keySeq := new Byte[MAX_KEY_SEQ + 1](_ => 0);
      phonemeHint := new Byte[MAX_KEY_SEQ](_ => 0);
      candidates := new Candidate[MAX_CANDIDATES](_ => Candidate([], 0, 0));
      prefixKeys := new nat[MAX_CANDIDATES](_ => 0);
      keyLen, candCount, selected, matched := 0, 0, 0, 0;
      mode, tap, sym1, pickerOpen, pickerSel, cycle := SmartZh, NO_TAP, NO_SYM1, false, 0, NO_CYCLE;
      lru := new LruCache();
      nowMs, shown, flags, said := 0, Nothing, FRESH, [];
    }

    // -------------------------------------------------------------- the buffers

    /** Move both arrays down by `n` keys. */
    method DropFront(n: nat)
      requires Shape() && n <= keyLen && cycle.byteIndex < keyLen - n
      modifies this`keyLen, keySeq, phonemeHint
      ensures Shape()
      ensures keySeq[..keyLen] == old(keySeq[..keyLen])[n..] && phonemeHint[..keyLen] == old(phonemeHint[..keyLen])[n..]
    {
      hide LruOk, LruCache.Valid, LruCache.Entries, RowsIn;
      var left := keyLen - n;
      MoveToFront(keySeq, n, left + 1);
      MoveToFront(phonemeHint, n, left);
      keyLen := left;
    }

    method AppendKey(key: Byte, hint: Byte)
      requires Shape() && keyLen < MAX_KEY_SEQ
      modifies this`keyLen, keySeq, phonemeHint
      ensures Shape() && View() == Appended(old(View()), key, hint)
    {
      ghost var keys, hints := keySeq[..keyLen], phonemeHint[..keyLen];
      phonemeHint[keyLen] := hint;
      keySeq[keyLen] := key;
      keyLen := keyLen + 1;
      keySeq[keyLen] := 0;
      assert keySeq[..keyLen] == keys + [key] && phonemeHint[..keyLen] == hints + [hint];
    }

    // -------------------------------------------------------------- search

    lemma RowsAre(rows: seq<Hit>)
      requires Shape() && HoldRows(candidates, prefixKeys, candCount, rows)
      ensures RowsIn(candidates, prefixKeys, candCount) == rows
    {
    }

    /** Write candidates from position `at` on, all with one prefix count. */
    method WriteRows(cs: seq<Candidate>, at: nat, prefix: nat, ghost rows: seq<Hit>)
      requires candidates.Length == prefixKeys.Length == MAX_CANDIDATES && at + |cs| <= MAX_CANDIDATES
      requires HoldRows(candidates, prefixKeys, at, rows)
      modifies candidates, prefixKeys
      ensures HoldRows(candidates, prefixKeys, at + |cs|, rows + RowsOf(cs, prefix))
    {
      for i := 0 to |cs|
        invariant forall k :: 0 <= k < at ==> Hit(candidates[k], prefixKeys[k]) == rows[k]
        invariant forall k :: at <= k < at + i ==> Hit(candidates[k], prefixKeys[k]) == Hit(cs[k - at], prefix)
      {
        candidates[at + i], prefixKeys[at + i] := cs[i], prefix;
      }
    }

    /** Add the words of a neighbouring length that are not listed yet. */
    method Widen(c: Composer, keys: seq<Byte>, hints: seq<Byte>, target: int, ghost rows: seq<Hit>)
      requires Shape() && HoldRows(candidates, prefixKeys, candCount, rows)
      modifies this`candCount, candidates, prefixKeys
      ensures candCount <= MAX_CANDIDATES
      ensures HoldRows(candidates, prefixKeys, candCount, Widened(c, keys, hints, target, rows))
    {
      if target < 1 || target > 4 { return; }
      var more := c.search(keys, hints, target, MAX_CANDIDATES);
      candCount := Extend(candidates, prefixKeys, candCount, more, |keys|, MAX_CANDIDATES, rows);
    }

    /** The bucket of the counted length, then the neighbouring buckets. */
    method SearchBuckets(c: Composer, n: nat)
      requires Shape() && candCount == 0 && env.composer == Some(c) && EnvOk(env)
      modifies this`candCount, candidates, prefixKeys
      ensures candCount <= MAX_CANDIDATES
      ensures HoldRows(candidates, prefixKeys, candCount, BucketRows(c, keySeq[..keyLen], phonemeHint[..keyLen], n))
    {
      hide Widened, Extended, LruOk, LruCache.Valid, LruCache.Entries, RowsIn;
      var keys, hints := keySeq[..keyLen], phonemeHint[..keyLen];
      var first := c.search(keys, hints, n, MAX_CANDIDATES);
      WriteRows(first, 0, keyLen, []);
      candCount := |first|;
      ghost var r0 := RowsOf(first, keyLen);
      assert [] + r0 == r0;
      Widen(c, keys, hints, n + 1, r0);
      ghost var r1 := Widened(c, keys, hints, n + 1, r0);
      Widen(c, keys, hints, n - 1, r1);
      ghost var r2 := Widened(c, keys, hints, n - 1, r1);
      Widen(c, keys, hints, n + 2, r2);
      ghost var r3 := Widened(c, keys, hints, n + 2, r2);
      Widen(c, keys, hints, n - 2, r3);
    }

    /** Characters for the first key, then phrases for the whole input. */
    method SearchSentence(c: Composer)
      requires Shape() && keyLen > 0 && candCount == 0 && env.composer == Some(c) && EnvOk(env)
      modifies this`candCount, this`matched, candidates, prefixKeys
      ensures candCount <= MAX_CANDIDATES
      ensures var f := SentenceFound(c, keySeq[..keyLen], phonemeHint[..keyLen]);
        HoldRows(candidates, prefixKeys, candCount, f.rows) && matched == f.matched
    {
      hide LruOk, LruCache.Valid, LruCache.Entries, RowsIn;
      var keys, hints := keySeq[..keyLen], phonemeHint[..keyLen];
      var chars := c.search(keys[..1], hints[..1], 1, MAX_CANDIDATES);
      WriteRows(chars, 0, 1, []);
      assert [] + RowsOf(chars, 1) == RowsOf(chars, 1);
      var phrases: seq<Candidate> := [];
      if |chars| < MAX_CANDIDATES { phrases := c.search(keys, hints, -1, MAX_CANDIDATES - |chars|); }
      WriteRows(phrases, |chars|, keyLen, RowsOf(chars, 1));
      candCount := |chars| + |phrases|;
      matched := if |chars| > 0 then 1 else if |phrases| > 0 then keyLen else 0;
    }

    method RunSearchV4(c: Composer)
      requires Shape() && keyLen > 0 && candCount == 0 && matched == 0 && env.composer == Some(c) && EnvOk(env)
      modifies this`candCount, this`matched, candidates, prefixKeys
      ensures candCount <= MAX_CANDIDATES
      ensures var f := ComposedFound(c, keySeq[..keyLen], phonemeHint[..keyLen]);
        HoldRows(candidates, prefixKeys, candCount, f.rows) && matched == f.matched
    {
      hide BucketRows, SentenceFound, LruOk, LruCache.Valid, LruCache.Entries, RowsIn;
      var positions: int := c.syllables(keySeq[..keyLen]);
      if positions <= 0 { positions := Syllables.CountPositions(keySeq[..keyLen]); }
      if positions <= 0 { return; }
      if positions <= 4 {
        SearchBuckets(c, positions);
        matched := keyLen;
        return;
      }
      SearchSentence(c);
    }

    method RunSearchLegacy()
      requires Shape() && keyLen > 0 && candCount == 0 && matched == 0
      modifies this`candCount, this`matched, candidates, prefixKeys
      ensures candCount <= MAX_CANDIDATES
      ensures var f := LegacyFound(env, mode, keySeq[..keyLen]);
        HoldRows(candidates, prefixKeys, candCount, f.rows) && matched == f.matched
    {
      var searcher := ActiveSearcher(env, mode);
      if searcher.Some? {
        candCount, matched := RunLegacy(searcher.value, keySeq[..keyLen], candidates, prefixKeys);
      }
    }

    method PrependLru(ghost rows: seq<Hit>)
      requires Shape() && keyLen > 0 && HoldRows(candidates, prefixKeys, candCount, rows)
      modifies this`candCount, candidates, prefixKeys
      ensures candCount <= MAX_CANDIDATES
      ensures mode != SmartZh ==> HoldRows(candidates, prefixKeys, candCount, rows)
      ensures mode == SmartZh ==>
        HoldRows(candidates, prefixKeys, candCount,
                 Merged(rows, Lookup(lru.Entries(), keySeq[..keyLen], Some(phonemeHint[..keyLen]), MAX_CANDIDATES),
                        MAX_CANDIDATES))
    {
      if mode != SmartZh { return; }
      var lruTmp, lruPrefix := new Candidate[MAX_CANDIDATES](_ => Candidate([], 0, 0)), new nat[MAX_CANDIDATES](_ => 0);
      ghost var hits := Lookup(lru.Entries(), keySeq[..keyLen], Some(phonemeHint[..keyLen]), MAX_CANDIDATES);
      MergeAddsNothing(rows, hits, MAX_CANDIDATES);
      hide Lookup, Merged, LruOk, LruCache.Valid, LruCache.Entries;
      var lruN := lru.LookupInto(keySeq[..keyLen], Some(phonemeHint[..keyLen]), lruTmp, MAX_CANDIDATES, lruPrefix);
      candCount := Splice(candidates, prefixKeys, candCount, lruTmp, lruPrefix, lruN, MAX_CANDIDATES, rows, hits);
    }

    /** The dictionary's candidates, and the remembered words spliced in front of them. */
    method FillRows(ghost s: State)
      requires Shape() && EnvOk(env) && keyLen > 0 && candCount == 0 && matched == 0
      requires s == View()
      modifies this`candCount, this`matched, candidates, prefixKeys
      ensures candCount <= MAX_CANDIDATES
      ensures HoldRows(candidates, prefixKeys, candCount, ListedRows(env, s))
      ensures matched == DictFound(env, s.mode, s.keys, s.hints).matched
    {
      hide ComposedFound, LegacyFound, Merged, Lookup;
      ghost var found := DictFound(env, mode, keySeq[..keyLen], phonemeHint[..keyLen]);
      if env.composer.Some? && mode == SmartZh {
        RunSearchV4(env.composer.value);
      } else {
        RunSearchLegacy();
      }
      PrependLru(found.rows);
    }

    method RunSearch()
      requires Shape() && EnvOk(env)
      modifies this`candCount, this`selected, this`matched, this`shown, candidates, prefixKeys
      ensures Shape() && View() == Searched(env, old(View()))
    {
      hide DictFound, ListedRows, LruCache.Valid, LruCache.Entries;
      ghost var s := View();
      candCount, selected, matched := 0, 0, 0;
      if keyLen == 0 {
        shown := Nothing;
        return;
      }
      ghost var t := View();
      SameSearch(s, t);
      FillRows(t);
      shown := Pending;
      RowsAre(ListedRows(env, t));
    }

    /** What is listed does not depend on what was. */
    lemma SameSearch(s: State, t: State)
      requires |s.hints| == |s.keys| && LruOk(s.lru) && t == s.(rows := t.rows, selected := t.selected, matched := t.matched)
      ensures |s.keys| > 0 ==> ListedRows(env, t) == ListedRows(env, s)
    {
      hide DictFound, Merged, Lookup;
    }

    // -------------------------------------------------------------- commit

    /** Drop tone marks from the front, one at a time. */
    method DropLeadingTones()
      requires Shape() && cycle.byteIndex < 0
      modifies this`keyLen, keySeq, phonemeHint
      ensures Shape()
      ensures keySeq[..keyLen] == old(keySeq[..keyLen])[LeadingTones(old(keySeq[..keyLen]))..]
      ensures phonemeHint[..keyLen] == old(phonemeHint[..keyLen])[LeadingTones(old(keySeq[..keyLen]))..]
    {
      hide LruOk, LruCache.Valid, LruCache.Entries, RowsIn;
      ghost var keys, hints, k := keySeq[..keyLen], phonemeHint[..keyLen], 0;
      while keyLen > 0 && (keySeq[0] == TONE_1 || keySeq[0] == TONE_34)
        invariant Shape() && k <= |keys| && keySeq[..keyLen] == keys[k..] && phonemeHint[..keyLen] == hints[k..]
        invariant LeadingTones(keys) == k + LeadingTones(keys[k..])
        decreases keyLen
      {
        assert keys[k..][0] == keySeq[0];
        assert keys[k..][1..] == keys[k + 1..] && hints[k..][1..] == hints[k + 1..];
        DropFront(1);
        k := k + 1;
      }
      assert keyLen > 0 ==> keys[k..][0] == keySeq[0];
    }

    /** Teach the cache the word, with the keys and hints it was typed with. */
    method Learn(word: seq<Byte>, prefix: nat)
      requires Shape()
      modifies lru, lru.entries
      ensures Shape() && lru.Entries() == Learned(old(View()), word, prefix)
    {
      ghost var s := View();
      UpsertKeepsValid(s, word, prefix);
      if |word| > 0 && mode == SmartZh && 0 < prefix <= keyLen {
        var tone := 0;
        if candCount > 0 {
          assert s.rows[SelectedRow(s)].cand == candidates[SelectedRow(s)];
          tone := candidates[if selected < candCount then selected else 0].tone;
        }
        hide Upserted, PackHints;
        lru.Upsert(keySeq[..keyLen][..prefix], PackHints(phonemeHint[..keyLen], prefix), tone, word, nowMs);
      }
    }

    /** The two flags after a text was sent: of its last bytes, and unless it is a space alone of its last
        character before trailing spaces. */
    method DidCommit(text: seq<Byte>)
      requires |text| > 0
      modifies this`flags
      ensures flags == AfterText(old(flags), text)
    {
      var space := text[|text| - 1] == 0x20 || (|text| >= 3 && text[|text| - 3..] == WIDE_SPACE);
      flags := flags.(spaced := space);
      if text == SPACE_TEXT || text == WIDE_SPACE { return; }
      var ends := FindSentenceEnd(text);
      flags := flags.(capNext := ends);
    }

    /** Send a text, and keep the two flags about the text before the cursor. */
    method EmitCommit(text: seq<Byte>)
      requires Shape()
      modifies this`flags, this`said
      ensures Shape() && View() == Say(old(View()), text)
    {
      if |text| == 0 { return; }
      DidCommit(text);
      said := said + [Text(text)];
    }

    method SendWord(word: seq<Byte>)
      requires Shape()
      modifies this`flags, this`said
      ensures Shape() && View() == SaidWord(old(View()), word)
    {
      if |word| == 0 { return; }
      DidCommit(word);
      said := said + [if mode == SmartEn then EnglishWord(word) else Text(word)];
    }

    /** Remove the keys a commit uses up. */
    method TrimKeys(prefix: nat)
      requires Shape() && cycle.byteIndex < 0
      modifies this`keyLen, keySeq, phonemeHint
      ensures Shape()
      ensures keySeq[..keyLen] == old(keySeq[..keyLen])[ImeMachine.Consumed(old(keySeq[..keyLen]), prefix)..]
      ensures phonemeHint[..keyLen] == old(phonemeHint[..keyLen])[ImeMachine.Consumed(old(keySeq[..keyLen]), prefix)..]
    {
      ghost var keys, hints := keySeq[..keyLen], phonemeHint[..keyLen];
      var remove := if 0 < prefix <= keyLen then prefix else keyLen;
      ImeMachine.DropTwice(keys, keys, prefix, remove);
      ImeMachine.DropTwice(keys, hints, prefix, remove);
      hide ImeMachine.Consumed, LeadingTones, LruOk, LruCache.Valid, LruCache.Entries, RowsIn;
      DropFront(remove);
      DropLeadingTones();
    }

    method UseUpKeys(prefix: nat)
      requires Shape() && cycle.byteIndex < 0
      modifies this`keyLen, keySeq, phonemeHint
      ensures Shape()
      ensures var s, n := old(View()), ImeMachine.Consumed(old(View().keys), prefix);
        View() == s.(keys := s.keys[n..], hints := s.hints[n..])
    {
      hide ImeMachine.Consumed, LruOk, LruCache.Valid, LruCache.Entries, RowsIn;
      TrimKeys(prefix);
    }

    /** No candidates, and no key of a long-press cycle. */
    method ForgetCandidates()
      requires Shape()
      modifies this`candCount, this`selected, this`matched, this`cycle
      ensures Shape()
      ensures View() == old(View()).(rows := [], selected := 0, matched := 0, cycle := NO_CYCLE)
    {
      hide LruOk, LruCache.Valid, LruCache.Entries;
      candCount, selected, matched, cycle := 0, 0, 0, NO_CYCLE;
    }

    method CommitKeys(word: seq<Byte>, prefix: nat)
      requires Shape() && EnvOk(env)
      modifies this, keySeq, phonemeHint, candidates, prefixKeys, lru, lru.entries
      ensures Shape() && View() == CommitPartial(env, old(View()), word, prefix)
    {
      hide Searched, Learned;
      ghost var s := View();
      Learn(word, prefix);
      SendAndTrim(s, word, prefix);
      RunSearch();
    }

    /** After the cache has learned the word: send it, use up its keys, and forget the candidates. */
    method SendAndTrim(ghost s: State, word: seq<Byte>, prefix: nat)
      requires Shape() && |s.hints| == |s.keys| && View() == s.(lru := Learned(s, word, prefix))
      modifies this, keySeq, phonemeHint
      ensures Shape() && View() == Trimmed(s, word, prefix)
    {
      hide Learned, LruOk, LruCache.Valid, LruCache.Entries, SaidWord, ImeMachine.Consumed, RowsIn;
      SaidWordIgnoresLru(s, Learned(s, word, prefix), word);
      SendWord(word);
      ForgetCandidates();
      UseUpKeys(prefix);
    }

    lemma SaidWordIgnoresLru(s: State, es: seq<Entry>, word: seq<Byte>)
      ensures SaidWord(s.(lru := es), word) == SaidWord(s, word).(lru := es)
      ensures SaidWord(s, word) == s.(flags := SaidWord(s, word).flags, said := SaidWord(s, word).said)
    {
    }

    /** English words are spaced and capitalised; then the selected row is committed with its own prefix. */
    method CommitSelectedCandidate()
      requires Shape() && EnvOk(env)
      modifies this, keySeq, phonemeHint, candidates, prefixKeys, lru, lru.entries
      ensures Shape() && View() == CommitSelected(env, old(View()))
    {
      hide CommitPartial, Say, LruOk, LruCache.Valid, LruCache.Entries;
      if candCount == 0 { return; }
      ghost var s := View();
      var sel := if selected < candCount then selected else 0;
      assert s.rows[sel] == Hit(candidates[sel], prefixKeys[sel]);
      var word := candidates[sel].word;
      if mode == SmartEn && flags.capNext { word := Capital(word); }
      if mode == SmartEn && !flags.spaced { EmitCommit(SPACE_TEXT); }
      assert View() == Spaced(s);
      CommitKeys(word, prefixKeys[sel]);
    }

    // -------------------------------------------------------------- multi-tap

    method Displayed() returns (text: seq<Byte>)
      requires Shape()
      ensures text == DisplayText(View())
    {
      match shown
      case Nothing => text := [];
      case Pending => text := Rendered(mode == SmartZh, keySeq[..keyLen], phonemeHint[..keyLen]);
      case Label(key, idx) => text := if idx < LabelCount(key) then LabelText(mode == SmartZh, key, idx) else [];
    }

    method MultitapCommit()
      requires Shape()
      modifies this`tap, this`shown, this`flags, this`said
      ensures Shape() && View() == TapCommitted(old(View()))
    {
      hide LruOk, LruCache.Valid, LruCache.Entries, DisplayText, AfterText, RowsIn;
      if tap.key == KEY_NONE { return; }
      var committed := tap.key;
      var text := Displayed();
      EmitCommit(text);
      tap, shown := NO_TAP, Nothing;
      if committed == KEY_SYM2 && mode == SmartEn { EmitCommit(SPACE_TEXT); }
    }

    method MultitapPress(code: Byte, count: nat, now: U32)
      requires Shape() && count > 0 && code != KEY_NONE
      modifies this`tap, this`shown, this`flags, this`said
      ensures Shape() && View() == TapPressed(old(View()), code, count, now)
    {
      hide LabelCount, LruOk, LruCache.Valid, LruCache.Entries, TapCommitted, RowsIn;
      if tap.key == code {
        tap := tap.(idx := (tap.idx + 1) % count);
      } else {
        MultitapCommit();
        tap := Tap(code, 0, count, 0);
      }
      tap := tap.(lastMs := now);
      var idx := SkipMissing(code, tap.idx, count, tap.count);
      tap := tap.(idx := idx);
      shown := if tap.idx < LabelCount(code) then Label(code, tap.idx) else Nothing;
    }

    /** Step past indices without a label, at most `tries` times. */
    static method SkipMissing(code: Byte, first: nat, count: nat, tries: nat) returns (idx: nat)
      requires count > 0
      ensures idx == SkipUnlabelled(code, first, count, tries)
    {
      idx := first;
      var safety := tries;
      while safety > 0 && idx >= LabelCount(code)
        invariant SkipUnlabelled(code, first, count, tries) == SkipUnlabelled(code, idx, count, safety)
        decreases safety
      {
        safety, idx := safety - 1, (idx + 1) % count;
      }
    }

    method HandleSym2(now: U32)
      requires Shape()
      modifies this`tap, this`shown, this`flags, this`said
      ensures Shape()
      ensures View() == Sym2(if old(tap).key != KEY_SYM2 then TapCommitted(old(View())) else old(View()), now)
    {
      hide TapCommitted, LruOk, LruCache.Valid, LruCache.Entries;
      if tap.key != KEY_NONE && tap.key != KEY_SYM2 { MultitapCommit(); }
      TapGone(old(View()));
      if tap.key == KEY_SYM2 { tap := tap.(idx := (tap.idx + 1) % 3); } else { tap := Tap(KEY_SYM2, 0, 3, 0); }
      tap := tap.(lastMs := now);
      shown := Label(KEY_SYM2, tap.idx);
    }

    lemma TapGone(s: State)
      requires |s.hints| == |s.keys|
      ensures TapCommitted(s).tap == if s.tap.key == KEY_NONE then s.tap else NO_TAP
      ensures s.tap.key == KEY_NONE ==> TapCommitted(s) == s
    {
      hide DisplayText, AfterText;
    }

    method HandleSym1(pressed: bool, now: U32)
      requires Shape()
      modifies this`sym1, this`pickerOpen, this`pickerSel, this`tap, this`shown, this`flags, this`said
      ensures Shape() && View() == Sym1Key(old(View()), pressed, now)
    {
      hide TapCommitted, Say, LruOk, LruCache.Valid, LruCache.Entries;
      ghost var s := View();
      if pressed {
        if !sym1.down { sym1 := Sym1(true, false, now); }
        return;
      }
      if !sym1.down { return; }
      sym1 := sym1.(down := false);
      assert View() == s.(sym1 := sym1);
      if sym1.longFired {
        sym1 := sym1.(longFired := false);
        return;
      }
      if pickerOpen {
        pickerOpen, pickerSel := false, 0;
        return;
      }
      var comma := CommaText(mode);
      MultitapCommit();
      EmitCommit(comma);
    }

    // -------------------------------------------------------------- the handlers

    method DropKeys()
      requires Shape() && cycle.byteIndex < 0
      modifies this`keyLen, keySeq
      ensures Shape() && View() == old(View()).(keys := [], hints := [])
    {
      hide LruOk, LruCache.Valid, LruCache.Entries, RowsIn;
      keyLen := 0;
      keySeq[0] := 0;
    }

    method ClearComposition()
      requires Shape() && cycle.byteIndex < 0
      modifies this`keyLen, this`matched, this`candCount, this`selected, this`shown, keySeq
      ensures Shape() && View() == Discarded(old(View()))
    {
      hide LruOk, LruCache.Valid, LruCache.Entries;
      DropKeys();
      shown := Nothing;
      matched, candCount, selected := 0, 0, 0;
    }

    method CycleMode()
      requires Shape() && EnvOk(env)
      modifies this, keySeq, phonemeHint, candidates, prefixKeys, lru, lru.entries
      ensures Shape() && View() == ModeKey(env, old(View()))
    {
      hide CommitSelected, TapCommitted, LruOk, LruCache.Valid, LruCache.Entries, RowsIn;
      ghost var s := View();
      var was := mode;
      if tap.key != KEY_NONE { MultitapCommit(); } else { CommitSelectedCandidate(); }
      cycle := NO_CYCLE;
      ClearComposition();
      mode := NextMode(was);
    }

    method HandleDpad(code: Byte)
      requires Shape()
      modifies this`selected, this`said
      ensures Shape() && View() == Dpad(old(View()), code)
    {
      hide LruOk, LruCache.Valid, LruCache.Entries;
      if candCount == 0 {
        said := said + [CursorMove(code)];
        return;
      }
      if code == KEY_LEFT {
        selected := (selected + candCount - 1) % candCount;
      } else if code == KEY_RIGHT {
        selected := (selected + 1) % candCount;
      }
    }

    method HandleDel()
      requires Shape() && EnvOk(env)
      modifies this, keySeq, candidates, prefixKeys
      ensures Shape() && View() == Del(env, old(View()))
    {
      hide Searched, LruOk, LruCache.Valid, LruCache.Entries, RowsIn;
      ghost var s := View();
      if tap.key != KEY_NONE {
        tap, shown := NO_TAP, Nothing;
        return;
      }
      if keyLen > 0 {
        keyLen := keyLen - 1;
        keySeq[keyLen] := 0;
        if cycle.byteIndex >= keyLen { cycle := cycle.(byteIndex := -1); }
        assert keySeq[..keyLen] == s.keys[..|s.keys| - 1] && phonemeHint[..keyLen] == s.hints[..|s.hints| - 1];
        assert View() == s.(keys := s.keys[..keyLen], hints := s.hints[..keyLen], cycle := cycle);
        RunSearch();
        return;
      }
      said := said + [DeleteBefore];
    }

    method FinishEnglish()
      requires Shape() && EnvOk(env) && cycle.byteIndex < 0
      modifies this, keySeq, phonemeHint, candidates, prefixKeys, lru, lru.entries
      ensures Shape() && View() == EnglishDone(env, old(View()))
    {
      hide CommitSelected;
      if candCount > 0 {
        CommitSelectedCandidate();
      } else if keyLen > 0 {
        ClearComposition();
      }
    }

    method HandleSpace()
      requires Shape() && EnvOk(env) && mode != Direct && (mode == SmartEn ==> cycle.byteIndex < 0)
      modifies this, keySeq, phonemeHint, candidates, prefixKeys, lru, lru.entries
      ensures Shape() && View() == SpaceKey(env, old(View()))
    {
      hide Searched, EnglishDone, Say, LruOk, LruCache.Valid, LruCache.Entries;
      if keyLen == 0 && tap.key == KEY_NONE {
        EmitCommit(SPACE_TEXT);
        return;
      }
      if mode == SmartZh {
        if keyLen > 0 && keySeq[keyLen - 1] != TONE_1 && keyLen < MAX_KEY_SEQ {
          AppendKey(TONE_1, HINT_ANY);
          RunSearch();
        }
        return;
      }
      FinishEnglish();
      EmitCommit(SPACE_TEXT);
    }

    method HandleTab()
      requires Shape()
      modifies this`selected
      ensures Shape() && View() == TabKey(old(View()))
    {
      if candCount == 0 { return; }
      var next := (selected / PAGE_SIZE + 1) * PAGE_SIZE;
      selected := if next >= candCount then 0 else next;
    }

    /** Ask for the next phoneme of the cycled key. */
    method CyclePhoneme(slot: nat, now: U32)
      requires Shape() && EnvOk(env) && slot < SLOTS && 0 <= cycle.byteIndex
      modifies this, phonemeHint, candidates, prefixKeys
      ensures Shape()
      ensures var s, p := old(View()), (old(cycle.phoneme) + 1) % PhonemeCount(slot);
        View() == Searched(env, s.(cycle := s.cycle.(phoneme := p, lastMs := now), hints := s.hints[s.cycle.byteIndex := p]))
    {
      hide Searched, LruOk, LruCache.Valid, LruCache.Entries, RowsIn;
      ghost var s := View();
      cycle := cycle.(phoneme := (cycle.phoneme + 1) % PhonemeCount(slot), lastMs := now);
      phonemeHint[cycle.byteIndex] := cycle.phoneme;
      assert phonemeHint[..keyLen] == s.hints[s.cycle.byteIndex := cycle.phoneme];
      RunSearch();
    }

    method HandleLongPress(slot: nat, now: U32)
      requires Shape() && EnvOk(env) && slot < SLOTS
      modifies this, keySeq, phonemeHint, candidates, prefixKeys
      ensures Shape() && View() == LongPress(env, old(View()), slot, now)
    {
      hide Searched, LruOk, LruCache.Valid, LruCache.Entries, RowsIn;
      ghost var s := View();
      var canCycle := cycle.byteIndex >= 0 && cycle.slot == slot && Elapsed(now, cycle.lastMs) < MULTI_TAP_TIMEOUT_MS;
      if canCycle {
        CyclePhoneme(slot, now);
        return;
      }
      if keyLen < MAX_KEY_SEQ {
        AppendKey(KEY_BASE + slot, 0);
        cycle := Cycle(keyLen - 1, slot, 0, now);
        assert View() == Appended(s, KEY_BASE + slot, 0).(cycle := cycle);
        RunSearch();
      }
    }

    method HandleShortPress(slot: nat)
      requires Shape() && EnvOk(env) && slot < SLOTS
      modifies this, keySeq, phonemeHint, candidates, prefixKeys, lru, lru.entries
      ensures Shape() && View() == ShortPress(env, old(View()), slot)
    {
      hide Searched, LruOk, LruCache.Valid, LruCache.Entries, RowsIn;
      ghost var s := View();
      if keyLen < MAX_KEY_SEQ {
        AppendKey(KEY_BASE + slot, HINT_ANY);
        cycle := cycle.(byteIndex := -1);
        assert View() == Appended(s, KEY_BASE + slot, HINT_ANY).(cycle := cycle);
        RunSearch();
      }
    }

    method HandleSmart(code: Byte, press: Byte, now: U32)
      requires Shape() && EnvOk(env) && mode != Direct && (mode == SmartEn ==> cycle.byteIndex < 0)
      modifies this, keySeq, phonemeHint, candidates, prefixKeys, lru, lru.entries
      ensures Shape() && View() == SmartKey(env, old(View()), code, press, now)
    {
      hide SpaceKey, TabKey, EnglishDone, LongPress, ShortPress, TapPressed;
      if code == KEY_SPACE {
        HandleSpace();
        return;
      }
      if code == KEY_TAB {
        HandleTab();
        return;
      }
      var slot := SlotOf(code);
      if slot.None? { return; }
      if mode == SmartEn && HasDigits(slot.value) {
        if keyLen > 0 { FinishEnglish(); }
        MultitapPress(code, 2, now);
        return;
      }
      if mode == SmartZh && press % 2 == 1 {
        HandleLongPress(slot.value, now);
      } else {
        HandleShortPress(slot.value);
      }
    }

    method HandleDirect(code: Byte, now: U32)
      requires Shape()
      modifies this`tap, this`shown, this`flags, this`said
      ensures Shape() && View() == DirectKey(old(View()), code, now)
    {
      hide TapPressed, TapCommitted, Say, LruOk, LruCache.Valid, LruCache.Entries;
      if code == KEY_SPACE || code == KEY_TAB {
        MultitapCommit();
        EmitCommit(if code == KEY_SPACE then SPACE_TEXT else TAB_TEXT);
        return;
      }
      var slot := SlotOf(code);
      if slot.None? || LabelCount(code) == 0 { return; }
      MultitapPress(code, LabelCount(code), now);
    }

    method HandlePicker(code: Byte)
      requires Shape() && pickerOpen && pickerSel < PICKER_CELLS
      modifies this`pickerOpen, this`pickerSel, this`flags, this`said
      ensures Shape() && View() == Picker(old(View()), code)
    {
      hide Say, SymbolText, LruOk, LruCache.Valid, LruCache.Entries;
      if code == KEY_LEFT {
        pickerSel := (pickerSel + PICKER_CELLS - 1) % PICKER_CELLS;
      } else if code == KEY_RIGHT {
        pickerSel := (pickerSel + 1) % PICKER_CELLS;
      } else if code == KEY_UP {
        pickerSel := (pickerSel + PICKER_CELLS - PICKER_COLS) % PICKER_CELLS;
      } else if code == KEY_DOWN {
        pickerSel := (pickerSel + PICKER_COLS) % PICKER_CELLS;
      } else {
        var symbol := SymbolText(pickerSel);
        ghost var s := View();
        pickerOpen, pickerSel := false, 0;
        assert View() == s.(pickerOpen := false, pickerSel := 0);
        if code == KEY_OK { EmitCommit(symbol); }
      }
    }

    method HandleOk()
      requires Shape() && EnvOk(env)
      modifies this, keySeq, phonemeHint, candidates, prefixKeys, lru, lru.entries
      ensures Shape() && View() == OkKey(env, old(View()))
    {
      hide CommitSelected, TapCommitted, Say, LruOk, LruCache.Valid, LruCache.Entries;
      if candCount > 0 {
        CommitSelectedCandidate();
      } else if tap.key != KEY_NONE {
        MultitapCommit();
      } else {
        EmitCommit(NEWLINE_TEXT);
      }
    }

    method HandlePressed(code: Byte, press: Byte, now: U32)
      requires Shape() && EnvOk(env) && code != KEY_NONE && (mode != SmartZh ==> cycle.byteIndex < 0)
      modifies this, keySeq, phonemeHint, candidates, prefixKeys, lru, lru.entries
      ensures Shape() && View() == Pressed(env, old(View()), code, press, now)
    {
      hide ModeKey, Del, Dpad, OkKey, Sym2, SmartKey, DirectKey, TapCommitted, LruOk, LruCache.Valid, LruCache.Entries, SlotOf;
      TapGone(View());
      TapLeavesRest(View());
      if code == KEY_MODE {
        CycleMode();
      } else if code == KEY_DEL {
        HandleDel();
      } else if IsDpad(code) {
        HandleDpad(code);
      } else if code == KEY_OK {
        HandleOk();
      } else if code == KEY_SYM2 {
        HandleSym2(now);
      } else {
        if tap.key != KEY_NONE && tap.key != code { MultitapCommit(); }
        if mode == Direct { HandleDirect(code, now); } else { HandleSmart(code, press, now); }
      }
    }

    lemma TapLeavesRest(s: State)
      requires |s.hints| == |s.keys|
      ensures var r := TapCommitted(s);
        r.mode == s.mode && r.cycle == s.cycle && r.keys == s.keys && r.hints == s.hints && r.lru == s.lru
    {
      hide DisplayText, AfterText;
    }

    // -------------------------------------------------------------- the interface

    method ProcessKey(code: Byte, pressed: bool, press: Byte, now: U32)
      requires Valid()
      modifies this, keySeq, phonemeHint, candidates, prefixKeys, lru, lru.entries
      ensures Valid() && View() == Step(env, old(View()), Key(code, pressed, press, now))
    {
      hide Pressed, Sym1Key, Picker, Spoken, LruOk, LruCache.Valid, LruCache.Entries;
      ghost var s := View();
      StepKeepsInv(env, s, Key(code, pressed, press, now));
      nowMs := now;
      assert View() == s.(nowMs := now);
      if code == KEY_BACK || code == KEY_NONE || code >= KEY_LIMIT { return; }
      if code == KEY_SYM1 {
        HandleSym1(pressed, now);
        return;
      }
      if !pressed { return; }
      if pickerOpen {
        HandlePicker(code);
        return;
      }
      HandlePressed(code, press, now);
    }

    method MultitapTimeout(now: U32)
      requires Shape()
      modifies this`tap, this`shown, this`flags, this`said
      ensures Shape() && View() == AfterTapTimer(old(View()), now)
    {
      hide TapCommitted, LruOk, LruCache.Valid, LruCache.Entries, RowsIn;
      if tap.key != KEY_NONE && Elapsed(now, tap.lastMs) >= MULTI_TAP_TIMEOUT_MS { MultitapCommit(); }
    }

    method PickerTimer(now: U32)
      requires Shape()
      modifies this`sym1, this`pickerOpen, this`pickerSel
      ensures Shape() && View() == AfterPickerTimer(old(View()), now)
    {
      hide LruOk, LruCache.Valid, LruCache.Entries, RowsIn;
      if sym1.down && !sym1.longFired && Elapsed(now, sym1.pressedAtMs) >= LONG_PRESS_MS {
        sym1 := sym1.(longFired := true);
        pickerOpen, pickerSel := true, 0;
      }
    }

    method CycleTimeout(now: U32)
      requires Shape()
      modifies this`cycle
      ensures Shape() && View() == AfterCycleTimer(old(View()), now)
    {
      hide LruOk, LruCache.Valid, LruCache.Entries, RowsIn;
      if cycle.byteIndex >= 0 && Elapsed(now, cycle.lastMs) >= MULTI_TAP_TIMEOUT_MS {
        cycle := cycle.(byteIndex := -1);
      }
    }

    method TickAt(now: U32)
      requires Valid()
      modifies this
      ensures Valid() && View() == Step(env, old(View()), Tick(now))
    {
      hide Inv, AfterTapTimer, AfterPickerTimer, AfterCycleTimer, LruOk, LruCache.Valid, LruCache.Entries, RowsIn, Step;
      ghost var s := View();
      StepKeepsInv(env, s, Tick(now));
      TickIsStep(s, now);
      nowMs := now;
      MultitapTimeout(now);
      PickerTimer(now);
      CycleTimeout(now);
    }

    lemma TickIsStep(s: State, now: U32)
      requires Inv(s)
      ensures |s.hints| == |s.keys| && LruOk(s.lru) && s.cycle.byteIndex < |s.keys| && s.pickerSel < PICKER_CELLS
      ensures Step(env, s, Tick(now)) == Ticked(s, now)
    {
      hide Spoken, Ticked;
    }

    method ForgetPresses()
      requires Shape()
      modifies this`tap, this`sym1, this`pickerOpen, this`pickerSel, this`flags, this`said
      ensures Shape()
      ensures var s := old(View());
        View() == s.(tap := NO_TAP, sym1 := NO_SYM1, pickerOpen := false, pickerSel := 0, flags := FRESH, said := s.said + [Restart])
    {
      hide LruOk, LruCache.Valid, LruCache.Entries, RowsIn;
      tap, sym1, pickerOpen, pickerSel := NO_TAP, NO_SYM1, false, 0;
      flags, said := FRESH, said + [Restart];
    }

    method AbortAll()
      requires Valid()
      modifies this, keySeq
      ensures Valid() && View() == Step(env, old(View()), Abort)
    {
      hide Inv, LruOk, LruCache.Valid, LruCache.Entries, RowsIn;
      ghost var s := View();
      InvAllows(s);
      StepKeepsInv(env, s, Abort);
      cycle := NO_CYCLE;
      ClearComposition();
      ForgetPresses();
    }

    /** The text before the cursor has been changed from outside. */
    method SetTextContext(before: seq<Byte>)
      requires Valid()
      modifies this`flags, this`said
      ensures Valid() && View() == Step(env, old(View()), SetContext(before))
    {
      hide KeysOk, RowsOk, PickerOk, TapOk, LruOk, LruCache.Valid, LruCache.Entries, Spoken, Inv, RowsIn;
      ghost var s := View();
      StepKeepsInv(env, s, SetContext(before));
      said := said + [Synced(before)];
      if |before| == 0 {
        flags := Flags(true, true);
      } else {
        var space := before[|before| - 1] == 0x20 || (|before| >= 3 && before[|before| - 3..] == WIDE_SPACE);
        var ends := FindSentenceEnd(before);
        flags := Flags(ends, space);
      }
      assert RowsIn(candidates, prefixKeys, candCount) == s.rows;
    }

    method SetSelected(idx: int)
      requires Valid()
      modifies this`selected
      ensures Valid() && View() == Step(env, old(View()), Select(idx))
    {
      hide LruOk, LruCache.Valid, LruCache.Entries, RowsIn;
      ghost var s := View();
      StepKeepsInv(env, s, Select(idx));
      if candCount > 0 { selected := if idx < 0 then 0 else if idx >= candCount then candCount - 1 else idx; }
      assert View() == Selected(s, idx);
    }
  }
}
