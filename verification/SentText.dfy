/** What the input method has said to its listener, and the two facts it keeps about the text before the
    cursor: whether that text ends with a space, and whether the next English word begins a sentence. */
module SentText {
  import opened Basics

  const SPACE_TEXT: seq<Byte> := [0x20]
  const WIDE_SPACE: seq<Byte> := [0xE3, 0x80, 0x80]

  /** One entry of the history: a text sent (an English word is marked as one), a cursor move or delete
      passed on, the composition abandoned, or the text before the cursor as told by the caller. */
  datatype Said =
    | Text(text: seq<Byte>)
    | EnglishWord(text: seq<Byte>)
    | CursorMove(code: Byte)
    | DeleteBefore
    | Restart
    | Synced(before: seq<Byte>)

  datatype Flags = Flags(capNext: bool, spaced: bool)

  const FRESH := Flags(true, true)

  predicate EndsWithSpace(text: seq<Byte>) {
    |text| > 0 && (text[|text| - 1] == 0x20 || (|text| >= 3 && text[|text| - 3..] == WIDE_SPACE))
  }

  /** The last position that is not a space, or the first position. */
  function LastShown(text: seq<Byte>): (i: nat)
    requires |text| > 0
    ensures i < |text| && (i > 0 ==> text[i] != 0x20)
    ensures forall j :: i < j < |text| ==> text[j] == 0x20
  {
    var n := |text| - 1;
    if n > 0 && text[n] == 0x20 then LastShown(text[..n]) else n
  }

  predicate EndsSentence(text: seq<Byte>)
    requires |text| > 0
  {
    var i := LastShown(text);
    || text[i] == 0x2E || text[i] == 0x3F || text[i] == 0x21
    || (i >= 2 && (text[i - 2..i + 1] == [0xE3, 0x80, 0x82] || text[i - 2..i + 1] == [0xEF, 0xBC, 0x9F]
                   || text[i - 2..i + 1] == [0xEF, 0xBC, 0x81]))
  }

  /** Back from the end, past the spaces. */
  method FindLastShown(text: seq<Byte>) returns (i: nat)
    requires |text| > 0
    ensures i == LastShown(text)
  {
    i := |text| - 1;
    while i > 0 && text[i] == 0x20
      invariant i < |text| && LastShown(text[..i + 1]) == LastShown(text)
    {
      assert text[..i + 1][..i] == text[..i - 1 + 1];
      i := i - 1;
    }
  }

  method FindSentenceEnd(text: seq<Byte>) returns (ends: bool)
    requires |text| > 0
    ensures ends == EndsSentence(text)
  {
    var i := FindLastShown(text);
    ends := text[i] == 0x2E || text[i] == 0x3F || text[i] == 0x21;
    if !ends && i >= 2 {
      var last := text[i - 2..i + 1];
      ends := last == [0xE3, 0x80, 0x82] || last == [0xEF, 0xBC, 0x9F] || last == [0xEF, 0xBC, 0x81];
    }
  }

  /** The marks that end a sentence, ASCII and full-width. */
  const STOPS: seq<seq<Byte>> := [[0x2E], [0x3F], [0x21], [0xE3, 0x80, 0x82], [0xEF, 0xBC, 0x9F], [0xEF, 0xBC, 0x81]]

  /** The first `n` bytes end with the mark, and only spaces follow. */
  ghost predicate StopsAt(text: seq<Byte>, stop: seq<Byte>, n: nat) {
    |stop| <= n <= |text| && text[n - |stop|..n] == stop && forall j :: n <= j < |text| ==> text[j] == 0x20
  }

  /** A text ends a sentence exactly when it is something, then one of the marks, then spaces. */
  lemma {:induction false} SentenceEndsWithStop(text: seq<Byte>)
    requires |text| > 0
    ensures EndsSentence(text) <==> exists stop, n: nat :: stop in STOPS && StopsAt(text, stop, n)
  {
    hide EndsSentence, StopsAt;
    if EndsSentence(text) {
      var k := StopBehind(text);
      assert STOPS[k] in STOPS;
    }
    forall stop, n: nat | stop in STOPS && StopsAt(text, stop, n) ensures EndsSentence(text) {
      StopEnds(text, stop, n);
    }
  }

  lemma {:induction false} StopEnds(text: seq<Byte>, stop: seq<Byte>, n: nat)
    requires |text| > 0 && stop in STOPS && StopsAt(text, stop, n)
    ensures EndsSentence(text)
  {
    var m := |stop|;
    assert stop[m - 1] != 0x20;
    assert text[n - 1] == text[n - m..n][m - 1];
    LastShownIs(text, n - 1);
    assert m == 3 ==> text[n - 1 - 2..n - 1 + 1] == stop;
  }

  lemma {:induction false} StopBehind(text: seq<Byte>) returns (k: nat)
    requires |text| > 0 && EndsSentence(text)
    ensures k < |STOPS| && StopsAt(text, STOPS[k], LastShown(text) + 1)
  {
    var i := LastShown(text);
    if text[i] == 0x2E || text[i] == 0x3F || text[i] == 0x21 {
      k := if text[i] == 0x2E then 0 else if text[i] == 0x3F then 1 else 2;
      assert text[i..i + 1] == STOPS[k];
    } else {
      k := if text[i] == 0x82 then 3 else if text[i] == 0x9F then 4 else 5;
      assert text[i] == text[i - 2..i + 1][2];
      assert text[i - 2..i + 1] == STOPS[k];
    }
  }

  lemma {:induction false} LastShownIs(text: seq<Byte>, i: nat)
    requires i < |text| && text[i] != 0x20 && forall j :: i < j < |text| ==> text[j] == 0x20
    ensures LastShown(text) == i
  {
    var k := LastShown(text);
    assert k >= i;
  }

  /** A text has been sent; a lone space leaves the sentence as it was. */
  function AfterText(f: Flags, text: seq<Byte>): Flags {
    if |text| == 0 then f
    else if text == SPACE_TEXT || text == WIDE_SPACE then f.(spaced := EndsWithSpace(text))
    else Flags(EndsSentence(text), EndsWithSpace(text))
  }

  function FromContext(before: seq<Byte>): Flags {
    if |before| == 0 then FRESH else Flags(EndsSentence(before), EndsWithSpace(before))
  }

  /** What the history says about the text before the cursor. */
  function FlagsAfter(said: seq<Said>): Flags {
    if |said| == 0 then FRESH
    else
      var f := FlagsAfter(said[..|said| - 1]);
      match said[|said| - 1]
      case Text(text) => AfterText(f, text)
      case EnglishWord(text) => AfterText(f, text)
      case Restart => FRESH
      case Synced(before) => FromContext(before)
      case _ => f
  }

  predicate IsLower(b: Byte) {
    0x61 <= b <= 0x7A
  }

  function Capital(word: seq<Byte>): seq<Byte> {
    if |word| > 0 && IsLower(word[0]) then [word[0] - 0x20] + word[1..] else word
  }

  /** Every English word follows a space or begins the text, and begins with no lower-case letter where a
      sentence begins. */
  predicate WellSpaced(said: seq<Said>) {
    forall i :: 0 <= i < |said| && said[i].EnglishWord? ==> WordFits(FlagsAfter(said[..i]), said[i].text)
  }

  predicate WordFits(f: Flags, word: seq<Byte>) {
    f.spaced && (f.capNext ==> |word| == 0 || !IsLower(word[0]))
  }

  /** The flags tell the truth about a well-spaced history. */
  predicate Spoken(said: seq<Said>, flags: Flags) {
    flags == FlagsAfter(said) && WellSpaced(said)
  }

  lemma {:induction false} SpokenMore(said: seq<Said>, flags: Flags, next: Said, flags': Flags)
    requires Spoken(said, flags)
    requires next.EnglishWord? ==> WordFits(flags, next.text)
    requires flags' == match next
      case Text(text) => AfterText(flags, text)
      case EnglishWord(text) => AfterText(flags, text)
      case Restart => FRESH
      case Synced(before) => FromContext(before)
      case _ => flags
    ensures Spoken(said + [next], flags')
  {
    var all := said + [next];
    assert all[..|said|] == said;
    forall i | 0 <= i < |all| && all[i].EnglishWord? ensures WordFits(FlagsAfter(all[..i]), all[i].text) {
      if i < |said| { assert all[..i] == said[..i] && all[i] == said[i]; }
    }
  }

  /** An English word is sent after a space of its own, unless there is one, and capitalised where a
      sentence begins: then it fits. */
  lemma {:induction false} EnglishFits(f: Flags, word: seq<Byte>)
    ensures WordFits(if f.spaced then f else AfterText(f, SPACE_TEXT), if f.capNext then Capital(word) else word)
  {
  }

  // ---------------------------------------------------------------- the flags and the text

  /** The text before the cursor, as far as the history tells: since the last restart or synchronisation. */
  function TextOf(said: seq<Said>): seq<Byte> {
    if |said| == 0 then []
    else
      var before := TextOf(said[..|said| - 1]);
      match said[|said| - 1]
      case Text(text) => before + text
      case EnglishWord(text) => before + text
      case Restart => []
      case Synced(text) => text
      case _ => before
  }

  predicate OnlySpaces(text: seq<Byte>) {
    |text| > 0 && forall i :: 0 <= i < |text| ==> text[i] == 0x20
  }

  /** Nothing, or a text that does not begin inside a UTF-8 character. */
  predicate Whole(text: seq<Byte>) {
    |text| > 0 ==> IsLead(text[0])
  }

  function TextIn(entry: Said): seq<Byte> {
    match entry
    case Text(text) => text
    case EnglishWord(text) => text
    case _ => []
  }

  predicate WholeTexts(said: seq<Said>) {
    forall i :: 0 <= i < |said| ==> Whole(TextIn(said[i]))
  }

  /** How the history ends: the text before the blanks last sent, and whether there are any, a wide space
      among them, or several spaces in one text. */
  datatype Tail = Tail(before: seq<Byte>, blanks: bool, wide: bool, several: bool)

  function TailAfter(t: Tail, sofar: seq<Byte>, text: seq<Byte>): Tail {
    if |text| == 0 then t
    else if text == SPACE_TEXT then t.(blanks := true)
    else if text == WIDE_SPACE then t.(blanks := true, wide := true)
    else if OnlySpaces(text) then t.(blanks := true, several := true)
    else Tail(sofar + text, false, false, false)
  }

  function TailOf(said: seq<Said>): Tail {
    if |said| == 0 then Tail([], false, false, false)
    else
      var n := |said| - 1;
      match said[n]
      case Restart => Tail([], false, false, false)
      case Synced(text) => Tail(text, false, false, false)
      case _ => TailAfter(TailOf(said[..n]), TextOf(said[..n]), TextIn(said[n]))
  }

  /** When the flags are not those of the text. After blanks sent into an empty field the engine still expects
      a first word, unless several spaces came in one text. After blanks behind the end of a sentence the two
      differ when either a wide space or such a text is among them, and not both. */
  predicate Parted(t: Tail) {
    t.blanks && if |t.before| == 0 then !t.several else EndsSentence(t.before) && t.wide != t.several
  }

  // ---------------------------------------------------------------- how a text ends

  /** Spaces after a text do not change whether it ends a sentence. */
  lemma {:induction false} SpacesAfter(a: seq<Byte>, t: seq<Byte>)
    requires |a| > 0 && OnlySpaces(t)
    ensures EndsSentence(a + t) == EndsSentence(a)
  {
    var all, i := a + t, LastShown(a);
    forall j | i < j < |all| ensures all[j] == 0x20 {
      if j >= |a| { assert all[j] == t[j - |a|]; }
    }
    SameLastShown(a, all, i);
    assert i >= 2 ==> all[i - 2..i + 1] == a[i - 2..i + 1];
  }

  lemma {:induction false} SameLastShown(a: seq<Byte>, all: seq<Byte>, i: nat)
    requires |a| > 0 && a <= all && i == LastShown(a) && forall j :: i < j < |all| ==> all[j] == 0x20
    ensures LastShown(all) == i
  {
    if a[i] != 0x20 {
      LastShownIs(all, i);
    } else {
      assert all[LastShown(all)] == 0x20;
    }
  }

  lemma {:induction false} LastIsNoSpace(t: seq<Byte>)
    requires |t| > 0 && !OnlySpaces(t)
    ensures t[LastShown(t)] != 0x20
  {
    if t[LastShown(t)] == 0x20 { assert forall j :: 0 <= j < |t| ==> t[j] == 0x20; }
  }

  lemma {:induction false} ShownAfter(a: seq<Byte>, t: seq<Byte>)
    requires |t| > 0 && !OnlySpaces(t)
    ensures LastShown(a + t) == |a| + LastShown(t)
  {
    hide OnlySpaces;
    var all, n, i := a + t, |a|, LastShown(t);
    LastIsNoSpace(t);
    assert all[n + i] == t[i];
    forall j | n + i < j < |all| ensures all[j] == 0x20 {
      assert all[j] == t[j - n];
    }
    LastShownIs(all, n + i);
  }

  /** Appending whole characters: how the text ends is how what was appended ends. */
  lemma {:induction false} SentenceAfter(a: seq<Byte>, t: seq<Byte>)
    requires |t| > 0 && IsLead(t[0]) && !OnlySpaces(t)
    ensures EndsSentence(a + t) == EndsSentence(t)
  {
    hide OnlySpaces;
    ShownAfter(a, t);
    hide LastShown;
    var all, n, i := a + t, |a|, LastShown(t);
    LastShownInside(t);
    assert all[n + i] == t[i];
    if i >= 2 {
      assert all[n + i - 2..n + i + 1] == t[i - 2..i + 1];
    } else if n + i >= 2 {
      assert all[n + i - 2..n + i + 1][2 - i] == t[0];
    }
  }

  lemma {:induction false} LastShownInside(t: seq<Byte>)
    requires |t| > 0
    ensures LastShown(t) < |t|
  {
  }

  lemma {:induction false} SpaceEndAfter(a: seq<Byte>, t: seq<Byte>)
    requires |t| > 0 && IsLead(t[0])
    ensures EndsWithSpace(a + t) == EndsWithSpace(t)
  {
    var all := a + t;
    if |t| >= 3 {
      assert all[|all| - 3..] == t[|t| - 3..];
    } else if |all| >= 3 {
      assert all[|all| - 3..][3 - |t|] == t[0];
    }
  }

  lemma {:induction false} SpacesEndNothing(text: seq<Byte>)
    requires OnlySpaces(text)
    ensures !EndsSentence(text) && EndsWithSpace(text)
  {
    assert text[LastShown(text)] == 0x20;
    assert LastShown(text) == 0;
  }

  lemma {:induction false} WideEndsNothing()
    ensures !OnlySpaces(WIDE_SPACE) && !EndsSentence(WIDE_SPACE) && EndsWithSpace(WIDE_SPACE)
  {
    assert WIDE_SPACE[0] == 0xE3 && WIDE_SPACE[2] == 0x80;
    LastShownIs(WIDE_SPACE, 2);
    assert WIDE_SPACE[2 - 2..2 + 1] == WIDE_SPACE && WIDE_SPACE[|WIDE_SPACE| - 3..] == WIDE_SPACE;
  }

  // ---------------------------------------------------------------- the flags are those of the text

  predicate CapAfter(text: seq<Byte>) {
    |text| == 0 || EndsSentence(text)
  }

  /** What the kept flags `f` and the text `x` say of a history that ends with `t`. */
  predicate Tells(t: Tail, f: Flags, x: seq<Byte>) {
    && f.spaced == FromContext(x).spaced
    && (!t.blanks ==> x == t.before && f.capNext == CapAfter(x) && !t.wide && !t.several)
    && (t.blanks ==>
          && |x| > 0 && f.capNext == (!t.several && CapAfter(t.before))
          && EndsSentence(x) == (!t.wide && |t.before| > 0 && EndsSentence(t.before)))
  }

  lemma {:induction false} BlankKeepsTelling(t: Tail, f: Flags, x: seq<Byte>, blank: seq<Byte>)
    requires Tells(t, f, x) && (blank == WIDE_SPACE || OnlySpaces(blank))
    ensures Tells(TailAfter(t, x, blank), AfterText(f, blank), x + blank)
  {
    hide EndsSentence, EndsWithSpace;
    assert IsLead(blank[0]);
    SpaceEndAfter(x, blank);
    if blank == WIDE_SPACE {
      WideEndsNothing();
      SentenceAfter(x, blank);
    } else {
      SpacesEndNothing(blank);
      if |x| > 0 { SpacesAfter(x, blank); } else { assert x + blank == blank; }
    }
  }

  lemma {:induction false} TextKeepsTelling(t: Tail, f: Flags, x: seq<Byte>, text: seq<Byte>)
    requires Tells(t, f, x) && Whole(text)
    ensures Tells(TailAfter(t, x, text), AfterText(f, text), x + text)
  {
    hide EndsSentence, EndsWithSpace;
    if |text| == 0 {
      assert x + text == x;
    } else if text == WIDE_SPACE || OnlySpaces(text) {
      BlankKeepsTelling(t, f, x, text);
    } else {
      SpaceEndAfter(x, text);
      SentenceAfter(x, text);
    }
  }

  lemma {:induction false} HistoryTells(said: seq<Said>)
    requires WholeTexts(said)
    ensures Tells(TailOf(said), FlagsAfter(said), TextOf(said))
  {
    hide EndsSentence, EndsWithSpace, AfterText, TailAfter, Tells;
    if |said| == 0 {
      assert Tells(Tail([], false, false, false), FRESH, []) by { FreshTells(); }
    } else {
      var before, last := said[..|said| - 1], said[|said| - 1];
      HistoryTells(before);
      match last
      case Restart => FreshTells();
      case Synced(text) => SyncedTells(text);
      case Text(text) => TextKeepsTelling(TailOf(before), FlagsAfter(before), TextOf(before), text);
      case EnglishWord(text) => TextKeepsTelling(TailOf(before), FlagsAfter(before), TextOf(before), text);
      case _ => TextKeepsTelling(TailOf(before), FlagsAfter(before), TextOf(before), []);
                assert TextOf(before) + [] == TextOf(before);
                assert AfterText(FlagsAfter(before), []) == FlagsAfter(before) by { NothingChangesNothing(FlagsAfter(before)); }
    }
  }

  lemma {:induction false} NothingChangesNothing(f: Flags)
    ensures AfterText(f, []) == f
  {
  }

  lemma {:induction false} FreshTells()
    ensures Tells(Tail([], false, false, false), FRESH, [])
  {
  }

  lemma {:induction false} SyncedTells(text: seq<Byte>)
    ensures Tells(Tail(text, false, false, false), FromContext(text), text)
  {
  }

  /** The flags kept from text to text are those that the whole text gives, exactly unless the blanks sent last
      part them. Whether a space ends the text they always say alike. */
  lemma {:induction false} FlagsAreOfTheText(said: seq<Said>)
    requires WholeTexts(said)
    ensures FlagsAfter(said).spaced == FromContext(TextOf(said)).spaced
    ensures FlagsAfter(said) == FromContext(TextOf(said)) <==> !Parted(TailOf(said))
  {
    hide EndsSentence, EndsWithSpace, TailOf, FlagsAfter, TextOf;
    HistoryTells(said);
  }

  /** It fails after a restart and one space: the engine still takes the next word for the first of a
      sentence, the same text told from outside does not. */
  lemma {:induction false} SpaceFirstDiffers()
    ensures var said := [Restart, Text(SPACE_TEXT)];
      WholeTexts(said) && FlagsAfter(said).capNext && !FromContext(TextOf(said)).capNext
  {
    hide EndsSentence;
    var said := [Restart, Text(SPACE_TEXT)];
    assert said[..1] == [Restart] && TextOf(said) == SPACE_TEXT;
    SpacesEndNothing(SPACE_TEXT);
  }

  lemma {:induction false} TwoTexts(a: seq<Byte>, b: seq<Byte>)
    ensures TextOf([Text(a), Text(b)]) == a + b
    ensures FlagsAfter([Text(a), Text(b)]) == AfterText(AfterText(FRESH, a), b)
  {
    hide AfterText;
    var said := [Text(a), Text(b)];
    assert said[..1] == [Text(a)] && said[..1][..0] == [];
    assert TextOf(said[..1]) == [] + a == a;
    assert FlagsAfter(said[..1]) == AfterText(FRESH, a);
  }

  lemma {:induction false} StopThenWide()
    ensures EndsSentence([0x2E]) && !EndsSentence([0x2E] + WIDE_SPACE)
  {
    WideEndsNothing();
    SentenceAfter([0x2E], WIDE_SPACE);
  }

  /** It fails the same way after a full stop and a wide space. */
  lemma {:induction false} WideSpaceDiffers()
    ensures var said := [Text([0x2E]), Text(WIDE_SPACE)];
      WholeTexts(said) && FlagsAfter(said).capNext && !FromContext(TextOf(said)).capNext
  {
    hide EndsSentence, FlagsAfter, TextOf, EndsWithSpace;
    TwoTexts([0x2E], WIDE_SPACE);
    StopThenWide();
    FullStopIsNoSpace();
  }

  lemma {:induction false} FullStopIsNoSpace()
    ensures [0x2E] != SPACE_TEXT && [0x2E] != WIDE_SPACE
  {
    assert [0x2E][0] != SPACE_TEXT[0];
  }
}
