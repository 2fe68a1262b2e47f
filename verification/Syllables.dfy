/** The syllable automaton: how many syllable positions a key sequence spells, and where the first
    few of them end. Byte 0x23 is an initial or a tone mark depending on what came before. */
module Syllables {
  import opened Basics

  datatype Role = NoRole | Initial | Medial | Final | Tone
  datatype State = Outside | AfterInitial | AfterMedial | AfterFinal

  const TONE_2: Byte := 0x23

  const SLOT_ROLES: seq<Role> := [
    Initial, Tone, Initial, Final, Final, Initial, Initial, Initial, Medial, Final,
    Initial, Initial, Initial, Medial, Final, Initial, Initial, Initial, Medial, Final]

  function ClassifyByte(b: Byte): Role {
    if b == 0x20 then Tone
    else if 0x21 <= b < 0x21 + 20 then SLOT_ROLES[b - 0x21]
    else NoRole
  }

  function ResolveRole(b: Byte, st: State): Role {
    if b == TONE_2 && (st == AfterMedial || st == AfterFinal) then Tone else ClassifyByte(b)
  }

  /** Does a key of this role begin a new syllable? */
  predicate StartsNew(role: Role, st: State) {
    match role
    case Initial => true
    case Medial => st == Outside || st == AfterFinal
    case Final => st == Outside || st == AfterFinal
    case _ => false
  }

  function NextState(role: Role, st: State): State {
    match role
    case Initial => AfterInitial
    case Medial => if st == AfterMedial then AfterFinal else AfterMedial
    case Final => AfterFinal
    case Tone => Outside
    case NoRole => st
  }

  method AdvanceState(role: Role, st: State) returns (st': State, startsNew: bool)
    ensures st' == NextState(role, st) && startsNew == StartsNew(role, st)
  {
    st', startsNew := st, false;
    match role
    case Initial =>
      startsNew := true;
      st' := AfterInitial;
    case Medial =>
      if st == AfterInitial {
        st' := AfterMedial;
      } else if st == AfterMedial {
        st' := AfterFinal;
      } else {
        startsNew := true;
        st' := AfterMedial;
      }
    case Final =>
      startsNew := st != AfterInitial && st != AfterMedial;
      st' := AfterFinal;
    case Tone =>
      st' := Outside;
    case NoRole =>
  }

  // ---------------------------------------------------------------- the two loops, as functions

  /** The syllables that `keys` begins, read from state `st`. */
  function Count(keys: seq<Byte>, st: State): nat {
    if |keys| == 0 then 0
    else
      var role := ResolveRole(keys[0], st);
      (if StartsNew(role, st) then 1 else 0) + Count(keys[1..], NextState(role, st))
  }

  /** The bytes of the first `n` syllables: up to the start of the next one, or through the tone
      mark that closes the last. */
  function FirstBytes(keys: seq<Byte>, st: State, n: nat): (r: nat)
    ensures r <= |keys|
  {
    if |keys| == 0 then 0
    else
      var role := ResolveRole(keys[0], st);
      if StartsNew(role, st) && n == 0 then 0
      else
        var left := if StartsNew(role, st) then n - 1 else n;
        if role == Tone && left == 0 then 1 else 1 + FirstBytes(keys[1..], NextState(role, st), left)
  }

  method CountPositions(keys: seq<Byte>) returns (count: nat)
    ensures count == Count(keys, Outside)
  {
    count := 0;
    var st := Outside;
    for i := 0 to |keys|
      invariant Count(keys, Outside) == count + Count(keys[i..], st)
    {
      assert keys[i..][1..] == keys[i + 1..];
      var role := ResolveRole(keys[i], st);
      var startsNew;
      st, startsNew := AdvanceState(role, st);
      if startsNew { count := count + 1; }
    }
  }

  method FirstNPositionsBytes(keys: seq<Byte>, n: int) returns (r: nat)
    ensures r == if n <= 0 then 0 else FirstBytes(keys, Outside, n)
  {
    if |keys| == 0 || n <= 0 { return 0; }
    var count, st := 0, Outside;
    for i := 0 to |keys|
      invariant 0 <= count <= n
      invariant FirstBytes(keys, Outside, n) == i + FirstBytes(keys[i..], st, n - count)
    {
      assert keys[i..][1..] == keys[i + 1..];
      var role := ResolveRole(keys[i], st);
      var startsNew;
      st, startsNew := AdvanceState(role, st);
      if startsNew && count == n { return i; }
      if startsNew { count := count + 1; }
      if role == Tone && count >= n { return i + 1; }
    }
    r := |keys|;
  }

  // ---------------------------------------------------------------- cutting at a boundary

  /** A key that begins a syllable does so, and leads to the same state, from outside any syllable:
      the reading of byte 0x23 cannot change there. */
  lemma {:induction false} BoundaryForgetsThePast(b: Byte, st: State)
    requires StartsNew(ResolveRole(b, st), st)
    ensures ResolveRole(b, Outside) == ResolveRole(b, st) && StartsNew(ResolveRole(b, Outside), Outside)
    ensures NextState(ResolveRole(b, Outside), Outside) == NextState(ResolveRole(b, st), st)
  {
  }

  lemma {:induction false} FirstBytesSplit(keys: seq<Byte>, st: State, n: nat)
    ensures var r := FirstBytes(keys, st, n);
      && Count(keys[..r], st) == Min(n, Count(keys, st))
      && Count(keys, st) == Count(keys[..r], st) + Count(keys[r..], Outside)
  {
    if |keys| > 0 {
      var role := ResolveRole(keys[0], st);
      var r := FirstBytes(keys, st, n);
      if StartsNew(role, st) && n == 0 {
        BoundaryForgetsThePast(keys[0], st);
        assert keys[r..] == keys;
      } else {
        FirstBytesSplit(keys[1..], NextState(role, st), if StartsNew(role, st) then n - 1 else n);
        assert keys[..r][1..] == keys[1..][..r - 1] && keys[r..] == keys[1..][r - 1..];
      }
    }
  }

  /** Cutting after the first `n` positions takes min(n, all) of them, and what is left counts, on its
      own, exactly the rest. */
  lemma {:induction false} CutResynchronises(keys: seq<Byte>, n: nat)
    requires |keys| > 0 && n >= 1
    ensures var r := FirstBytes(keys, Outside, n);
      && r > 0
      && Count(keys[..r], Outside) == Min(n, Count(keys, Outside))
      && Count(keys, Outside) == Count(keys[..r], Outside) + Count(keys[r..], Outside)
  {
    FirstBytesSplit(keys, Outside, n);
  }

  /** Taking `a` positions and then `b` of what is left is taking `a + b` at once. */
  lemma {:induction false} CutsCompose(keys: seq<Byte>, st: State, a: nat, b: nat)
    requires b >= 1
    ensures var r := FirstBytes(keys, st, a);
      FirstBytes(keys, st, a + b) == r + FirstBytes(keys[r..], Outside, b)
  {
    hide ClassifyByte;
    if |keys| > 0 {
      var role := ResolveRole(keys[0], st);
      var r := FirstBytes(keys, st, a);
      if StartsNew(role, st) && a == 0 {
        BoundaryForgetsThePast(keys[0], st);
        assert keys[r..] == keys;
      } else {
        var left := if StartsNew(role, st) then a - 1 else a;
        if role == Tone && left == 0 {
          assert keys[r..] == keys[1..];
        } else {
          CutsCompose(keys[1..], NextState(role, st), left, b);
          assert keys[r..] == keys[1..][r - 1..];
        }
      }
    }
  }

  // ---------------------------------------------------------------- what is counted

  /** Initials alone, as in an abbreviation, count one each, byte 0x23 included. */
  lemma {:induction false} InitialsCountEach(keys: seq<Byte>, st: State)
    requires forall i :: 0 <= i < |keys| ==> ClassifyByte(keys[i]) == Initial
    requires st == Outside || st == AfterInitial
    ensures Count(keys, st) == |keys|
  {
    if |keys| > 0 { InitialsCountEach(keys[1..], AfterInitial); }
  }

  /** Consonant, glide and rime, each optional but not all missing. A rime may be typed on a glide's key,
      as in the finals of the syllables for "I" and "learn": then two medial keys stand in a row. */
  predicate Body(keys: seq<Byte>) {
    |keys| >= 1 && forall i :: 0 <= i < |keys| ==> BodyKey(keys, i)
  }

  predicate BodyKey(keys: seq<Byte>, i: nat)
    requires i < |keys|
  {
    match ClassifyByte(keys[i])
    case Initial => i == 0
    case Medial => i == 0 || EndState(keys[..i]) == AfterInitial || EndState(keys[..i]) == AfterMedial
    case Final => i == |keys| - 1 && (i == 0 || EndState(keys[..i]) != AfterFinal)
    case _ => false
  }

  /** How far into a syllable its keys lead: to the consonant, to one glide, or to a rime. */
  function EndState(body: seq<Byte>): State
    requires |body| > 0
  {
    var n := |body|;
    match ClassifyByte(body[n - 1])
    case Initial => AfterInitial
    case Medial => if n > 1 && ClassifyByte(body[n - 2]) == Medial then AfterFinal else AfterMedial
    case _ => AfterFinal
  }

  /** The rest of a syllable, from its state after some of its keys: nothing more begins before its end. */
  lemma {:induction false} BodyEnds(body: seq<Byte>, k: nat, tail: seq<Byte>)
    requires Body(body) && 1 <= k <= |body|
    ensures Count(body[k..] + tail, EndState(body[..k])) == Count(tail, EndState(body))
    ensures FirstBytes(body[k..] + tail, EndState(body[..k]), 0) == |body| - k + FirstBytes(tail, EndState(body), 0)
    decreases |body| - k
  {
    var s := body[k..] + tail;
    if k == |body| {
      assert s == tail && body[..k] == body;
    } else {
      assert BodyKey(body, k) && BodyKey(body, k - 1);
      assert s[0] == body[k] && s[1..] == body[k + 1..] + tail;
      assert body[..k + 1][..k] == body[..k];
      BodyEnds(body, k + 1, tail);
    }
  }

  /** The keys of a syllable are one position, and reading goes on from where they lead, whatever follows. */
  lemma {:induction false} BodyIsOne(body: seq<Byte>, tail: seq<Byte>)
    requires Body(body)
    ensures Count(body + tail, Outside) == 1 + Count(tail, EndState(body))
    ensures FirstBytes(body + tail, Outside, 1) == |body| + FirstBytes(tail, EndState(body), 0)
  {
    var s := body + tail;
    assert BodyKey(body, 0);
    assert s[0] == body[0] && s[1..] == body[1..] + tail;
    BodyEnds(body, 1, tail);
  }

  const TONE_1: Byte := 0x20
  const TONE_34: Byte := 0x22
  const TONE_NEUTRAL: Byte := 0x24

  /** The keys of the five tones; two of them also carry letters. */
  predicate IsToneKey(b: Byte) {
    b == TONE_1 || b == TONE_2 || b == TONE_34 || b == TONE_NEUTRAL
  }

  /** When the tone key is read as part of the syllable before it: the second tone needs a vowel before
      it, the neutral tone must not follow a rime. */
  predicate ToneJoins(body: seq<Byte>, tone: Byte)
    requires |body| > 0
  {
    if tone == TONE_2 then EndState(body) != AfterInitial
    else if tone == TONE_NEUTRAL then EndState(body) != AfterFinal
    else true
  }

  /** A syllable typed in full with its tone counts once if and only if the tone key joins it; otherwise
      the tone key is read as the next syllable and it counts twice. */
  lemma {:induction false} TypedSyllableCountsOnce(body: seq<Byte>, tone: Byte)
    requires Body(body) && IsToneKey(tone)
    ensures Count(body + [tone], Outside) == 1 <==> ToneJoins(body, tone)
    ensures Count(body + [tone], Outside) <= 2
  {
    BodyIsOne(body, [tone]);
    assert [tone][1..] == [];
  }

  /** What follows a tone that joins is counted on its own; after the neutral tone, which is read as a
      rime, only a second-tone key would be taken in as well. */
  lemma {:induction false} TypedSyllableIsCut(body: seq<Byte>, tone: Byte, rest: seq<Byte>)
    requires Body(body) && IsToneKey(tone) && ToneJoins(body, tone)
    ensures var st := if tone == TONE_NEUTRAL then AfterFinal else Outside;
      && Count(body + [tone] + rest, Outside) == 1 + Count(rest, st)
      && (tone != TONE_NEUTRAL ==> FirstBytes(body + [tone] + rest, Outside, 1) == |body| + 1)
      && (|rest| > 0 && StartsNew(ResolveRole(rest[0], st), st) ==>
            FirstBytes(body + [tone] + rest, Outside, 1) == |body| + 1)
  {
    var tail := [tone] + rest;
    BodyIsOne(body, tail);
    assert body + [tone] + rest == body + tail && tail[1..] == rest;
  }

  /** The two tones that may be taken for the next syllable: the neutral tone after a rime, as in the keys
      21 24 24, and the second tone after a bare consonant, as in 23 23. */
  lemma {:induction false} TonesTakenForSyllables()
    ensures Body([0x21, 0x24]) && Count([0x21, 0x24] + [TONE_NEUTRAL], Outside) == 2
    ensures Body([TONE_2]) && Count([TONE_2] + [TONE_2], Outside) == 2
  {
    var a, b: seq<Byte> := [0x21, 0x24], [TONE_2];
    assert ClassifyByte(a[0]) == Initial && ClassifyByte(a[1]) == Final && a[..1] == [0x21];
    assert BodyKey(a, 0) && BodyKey(a, 1) && BodyKey(b, 0);
    TypedSyllableCountsOnce(a, TONE_NEUTRAL);
    TypedSyllableCountsOnce(b, TONE_2);
    BodyIsOne(a, [TONE_NEUTRAL]);
    BodyIsOne(b, [TONE_2]);
  }

  /** Two medial keys in a row, as in 2E 29, are one syllable. */
  lemma {:induction false} TwoMedialKeysAreOne(first: Byte, second: Byte, tone: Byte)
    requires ClassifyByte(first) == Medial && ClassifyByte(second) == Medial && IsToneKey(tone)
    ensures Body([first, second])
    ensures Count([first, second] + [tone], Outside) == 1 <==> tone != TONE_NEUTRAL
  {
    var body := [first, second];
    assert body[..1] == [first];
    assert BodyKey(body, 0) && BodyKey(body, 1);
    TypedSyllableCountsOnce(body, tone);
  }
}
