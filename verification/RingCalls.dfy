/** The ring seen from its callers: which push calls are published and which pop calls take a message, told by
    the sequence of steps alone. */
module RingCalls {
  import opened Basics
  import opened SpscRing

  // ---------------------------------------------------------------- the calls of a run

  /** The messages handed to push, in order. */
  function Calls(acts: seq<Action>): seq<Msg> {
    if |acts| == 0 then []
    else
      var last := acts[|acts| - 1];
      Calls(acts[..|acts| - 1]) + if last.PushCall? then [last.msg] else []
  }

  /** The buffer sizes handed to pop, in order. */
  function Buffers(acts: seq<Action>): seq<nat> {
    if |acts| == 0 then []
    else
      var last := acts[|acts| - 1];
      Buffers(acts[..|acts| - 1]) + if last.PopCall? then [last.max] else []
  }

  /** Which push call each publication belongs to: the last one made before it. */
  function Published(acts: seq<Action>): seq<int> {
    if |acts| == 0 then []
    else
      var before := acts[..|acts| - 1];
      Published(before) + if acts[|acts| - 1].PushPublish? then [|Calls(before)| - 1] else []
  }

  /** Which pop call each message taken belongs to. */
  function Taken(acts: seq<Action>): seq<int> {
    if |acts| == 0 then []
    else
      var before := acts[..|acts| - 1];
      Taken(before) + if acts[|acts| - 1].PopPublish? then [|Buffers(before)| - 1] else []
  }

  predicate Ascends(at: seq<int>, n: nat) {
    (forall i :: 0 <= i < |at| ==> 0 <= at[i] < n) && forall i, j :: 0 <= i < j < |at| ==> at[i] < at[j]
  }

  /** The ring was full when this call loaded tail. */
  ghost predicate SawFull(n: nat, acts: seq<Action>, k: int) {
    exists t :: 0 <= t < |acts| && acts[t].PushLoadTail? && FullAt(n, acts, k, t)
  }

  predicate FullAt(n: nat, acts: seq<Action>, k: int, t: nat)
    requires t <= |acts|
  {
    |Calls(acts[..t])| - 1 == k && |Published(acts[..t])| - |Taken(acts[..t])| >= n
  }

  /** The ring was empty when this call loaded head. */
  ghost predicate SawEmpty(acts: seq<Action>, k: int) {
    exists t :: 0 <= t < |acts| && acts[t].PopLoadHead? && EmptyAt(acts, k, t)
  }

  predicate EmptyAt(acts: seq<Action>, k: int, t: nat)
    requires t <= |acts|
  {
    |Buffers(acts[..t])| - 1 == k && |Published(acts[..t])| <= |Taken(acts[..t])|
  }

  predicate Pushing(s: State) {
    s.prod.PHead? || s.prod.PTail? || s.prod.PWrite?
  }

  predicate Popping(s: State) {
    s.cons.CTail? || s.cons.CHead? || s.cons.CRead?
  }

  /** The call is the last one, and the producer is still at it. */
  predicate PushOpen(acts: seq<Action>, s: State, k: int) {
    Pushing(s) && k == |Calls(acts)| - 1
  }

  predicate PopOpen(acts: seq<Action>, s: State, k: int) {
    Popping(s) && k == |Buffers(acts)| - 1
  }

  predicate TooLong(m: Msg) {
    |m.payload| > PAYLOAD_MAX
  }

  // ---------------------------------------------------------------- one more step

  lemma {:induction false} OneMore(acts: seq<Action>, a: Action)
    ensures var all := acts + [a];
      && Calls(all) == Calls(acts) + (if a.PushCall? then [a.msg] else [])
      && Buffers(all) == Buffers(acts) + (if a.PopCall? then [a.max] else [])
      && Published(all) == Published(acts) + (if a.PushPublish? then [|Calls(acts)| - 1] else [])
      && Taken(all) == Taken(acts) + (if a.PopPublish? then [|Buffers(acts)| - 1] else [])
  {
    assert (acts + [a])[..|acts|] == acts;
  }

  lemma {:induction false} FullOneMore(n: nat, acts: seq<Action>, a: Action, k: int)
    ensures SawFull(n, acts + [a], k) <==>
      SawFull(n, acts, k) || (a.PushLoadTail? && k == |Calls(acts)| - 1 && |Published(acts)| - |Taken(acts)| >= n)
  {
    hide Calls, Published, Taken;
    var all := acts + [a];
    assert all[..|acts|] == acts && all[|acts|] == a;
    forall t | 0 <= t < |acts| ensures all[t] == acts[t] && FullAt(n, all, k, t) == FullAt(n, acts, k, t) {
      assert all[..t] == acts[..t];
    }
    assert FullAt(n, all, k, |acts|) <==> k == |Calls(acts)| - 1 && |Published(acts)| - |Taken(acts)| >= n;
  }

  lemma {:induction false} EmptyOneMore(acts: seq<Action>, a: Action, k: int)
    ensures SawEmpty(acts + [a], k) <==>
      SawEmpty(acts, k) || (a.PopLoadHead? && k == |Buffers(acts)| - 1 && |Published(acts)| <= |Taken(acts)|)
  {
    hide Buffers, Published, Taken;
    var all := acts + [a];
    assert all[..|acts|] == acts && all[|acts|] == a;
    forall t | 0 <= t < |acts| ensures all[t] == acts[t] && EmptyAt(all, k, t) == EmptyAt(acts, k, t) {
      assert all[..t] == acts[..t];
    }
    assert EmptyAt(all, k, |acts|) <==> k == |Buffers(acts)| - 1 && |Published(acts)| <= |Taken(acts)|;
  }

  // ---------------------------------------------------------------- what a state knows of its calls

  /** Published exactly if it fitted and saw room, unless it is still under way. */
  ghost predicate PushFate(n: nat, acts: seq<Action>, s: State, k: int)
    requires 0 <= k < |Calls(acts)|
  {
    && (PushOpen(acts, s, k) ==> k !in Published(acts) && !TooLong(Calls(acts)[k]))
    && (!PushOpen(acts, s, k) ==> (k in Published(acts) <==> !TooLong(Calls(acts)[k]) && !SawFull(n, acts, k)))
  }

  ghost predicate PopFate(acts: seq<Action>, s: State, k: int)
    requires 0 <= k < |Buffers(acts)|
  {
    && (PopOpen(acts, s, k) ==> k !in Taken(acts))
    && (!PopOpen(acts, s, k) ==> (k in Taken(acts) <==> !SawEmpty(acts, k)))
  }

  /** What the producer holds is the last call's message, and what it has seen of tail is what that call saw. */
  ghost predicate HoldsCall(n: nat, acts: seq<Action>, s: State) {
    Pushing(s) ==>
      var k := |Calls(acts)| - 1;
      && k >= 0 && s.prod.msg == Calls(acts)[k]
      && (s.prod.PHead? ==> !SawFull(n, acts, k))
      && (s.prod.PTail? ==> (SawFull(n, acts, k) <==> |s.pushed| - s.prod.seen >= n))
      && (s.prod.PWrite? ==> !SawFull(n, acts, k))
  }

  ghost predicate HoldsBuffer(acts: seq<Action>, s: State) {
    Popping(s) ==>
      var k := |Buffers(acts)| - 1;
      && k >= 0
      && (if s.cons.CRead? then s.cons.out.max else s.cons.max) == Buffers(acts)[k]
      && (s.cons.CTail? ==> !SawEmpty(acts, k))
      && (s.cons.CHead? ==> (SawEmpty(acts, k) <==> s.cons.seen <= |s.popped|))
      && (s.cons.CRead? ==> !SawEmpty(acts, k))
  }

  ghost predicate PushHistory(n: nat, acts: seq<Action>, s: State) {
    && |s.pushed| == |Published(acts)| && Ascends(Published(acts), |Calls(acts)|)
    && (forall i :: 0 <= i < |s.pushed| ==> s.pushed[i] == Calls(acts)[Published(acts)[i]])
    && HoldsCall(n, acts, s)
    && (forall k :: 0 <= k < |Calls(acts)| ==> PushFate(n, acts, s, k))
    && |Calls(acts)| == |s.pushed| + s.rejected + if Pushing(s) then 1 else 0
  }

  ghost predicate PopHistory(acts: seq<Action>, s: State) {
    && |s.popped| == |Taken(acts)| && Ascends(Taken(acts), |Buffers(acts)|)
    && (forall i :: 0 <= i < |s.popped| ==> s.popped[i].max == Buffers(acts)[Taken(acts)[i]])
    && HoldsBuffer(acts, s)
    && (forall k :: 0 <= k < |Buffers(acts)| ==> PopFate(acts, s, k))
  }

  /** A call not yet made has seen nothing. */
  lemma {:induction false} NothingSeenYet(n: nat, acts: seq<Action>, k: int)
    requires k >= |Calls(acts)|
    ensures !SawFull(n, acts, k)
  {
    forall t | 0 <= t < |acts| ensures !FullAt(n, acts, k, t) {
      CallsGrow(acts, t);
    }
  }

  lemma {:induction false} CallsGrow(acts: seq<Action>, t: nat)
    requires t <= |acts|
    ensures |Calls(acts[..t])| <= |Calls(acts)| && |Buffers(acts[..t])| <= |Buffers(acts)|
    decreases |acts| - t
  {
    if t < |acts| {
      CallsGrow(acts, t + 1);
      assert acts[..t + 1][..t] == acts[..t];
    } else {
      assert acts[..t] == acts;
    }
  }

  lemma {:induction false} NoEmptySeenYet(acts: seq<Action>, k: int)
    requires k >= |Buffers(acts)|
    ensures !SawEmpty(acts, k)
  {
    forall t | 0 <= t < |acts| ensures !EmptyAt(acts, k, t) {
      CallsGrow(acts, t);
    }
  }

  lemma {:induction false} ProducerWaits(n: nat, s: State, a: Action, s': State)
    requires SlotsOk(n, s) && Step(n, s, a) == Some(s')
    requires !a.PushCall? && !a.PushLoadTail? && !a.PushCheck? && !a.PushPublish? && !a.PushWrite?
    ensures s'.pushed == s.pushed && s'.rejected == s.rejected
    ensures Pushing(s') == Pushing(s) && (Pushing(s) ==> s'.prod == s.prod)
  {
  }

  lemma {:induction false} ConsumerWaits(n: nat, s: State, a: Action, s': State)
    requires SlotsOk(n, s) && Step(n, s, a) == Some(s')
    requires !a.PopCall? && !a.PopLoadHead? && !a.PopCheck? && !a.PopPublish? && !a.PopRead?
    ensures s'.popped == s.popped
    ensures Popping(s') == Popping(s) && (Popping(s) ==> s'.cons == s.cons)
  {
  }

  /** A step that neither makes nor ends a push call leaves what is known of them. */
  lemma {:induction false} PushIgnores(n: nat, acts: seq<Action>, a: Action, s: State, s': State)
    requires PushHistory(n, acts, s)
    requires !a.PushCall? && !a.PushLoadTail? && !a.PushPublish?
    requires s'.pushed == s.pushed && s'.rejected == s.rejected && Pushing(s') == Pushing(s)
    requires HoldsCall(n, acts, s) ==> HoldsCall(n, acts, s')
    ensures PushHistory(n, acts + [a], s')
  {
    hide Calls, Published, SawFull, Taken, Buffers, Pushing;
    OneMore(acts, a);
    var all := acts + [a];
    assert Calls(all) == Calls(acts) && Published(all) == Published(acts);
    forall k ensures SawFull(n, all, k) == SawFull(n, acts, k) {
      FullOneMore(n, acts, a, k);
    }
    forall k | 0 <= k < |Calls(all)| ensures PushFate(n, all, s', k) {
      assert PushFate(n, acts, s, k);
    }
  }

  lemma {:induction false} PopIgnores(acts: seq<Action>, a: Action, s: State, s': State)
    requires PopHistory(acts, s)
    requires !a.PopCall? && !a.PopLoadHead? && !a.PopPublish?
    requires s'.popped == s.popped && Popping(s') == Popping(s)
    requires HoldsBuffer(acts, s) ==> HoldsBuffer(acts, s')
    ensures PopHistory(acts + [a], s')
  {
    hide Calls, Published, SawEmpty, Taken, Buffers, Popping;
    OneMore(acts, a);
    var all := acts + [a];
    assert Buffers(all) == Buffers(acts) && Taken(all) == Taken(acts);
    forall k ensures SawEmpty(all, k) == SawEmpty(acts, k) {
      EmptyOneMore(acts, a, k);
    }
    forall k | 0 <= k < |Buffers(all)| ensures PopFate(all, s', k) {
      assert PopFate(acts, s, k);
    }
  }

  // ---------------------------------------------------------------- the producer's own steps

  lemma {:induction false} PushCallHistory(n: nat, acts: seq<Action>, m: Msg, s: State, s': State)
    requires SlotsOk(n, s) && Step(n, s, PushCall(m)) == Some(s') && PushHistory(n, acts, s)
    ensures PushHistory(n, acts + [PushCall(m)], s')
  {
    hide Calls, Published, SawFull, Taken, Buffers, SlotsOk;
    var a := PushCall(m);
    var all, k0 := acts + [a], |Calls(acts)|;
    OneMore(acts, a);
    NothingSeenYet(n, acts, k0);
    forall k ensures SawFull(n, all, k) == SawFull(n, acts, k) {
      FullOneMore(n, acts, a, k);
    }
    forall k | 0 <= k < |Calls(all)| ensures PushFate(n, all, s', k) {
      if k < k0 { assert PushFate(n, acts, s, k); }
    }
  }

  lemma {:induction false} PushLoadHistory(n: nat, acts: seq<Action>, s: State, s': State)
    requires SlotsOk(n, s) && Step(n, s, PushLoadTail) == Some(s') && PushHistory(n, acts, s) && PopHistory(acts, s)
    ensures PushHistory(n, acts + [PushLoadTail], s')
  {
    hide Calls, Published, SawFull, Taken, Buffers, SlotsOk, PopFate, HoldsBuffer;
    var a := PushLoadTail;
    var all := acts + [a];
    OneMore(acts, a);
    forall k ensures k != |Calls(acts)| - 1 ==> SawFull(n, all, k) == SawFull(n, acts, k) {
      FullOneMore(n, acts, a, k);
    }
    FullOneMore(n, acts, a, |Calls(acts)| - 1);
    forall k | 0 <= k < |Calls(all)| ensures PushFate(n, all, s', k) {
      assert PushFate(n, acts, s, k);
    }
  }

  lemma {:induction false} PushCheckHistory(n: nat, acts: seq<Action>, s: State, s': State)
    requires RingSize(n) && Inv(n, s) && Step(n, s, PushCheck) == Some(s') && PushHistory(n, acts, s)
    ensures PushHistory(n, acts + [PushCheck], s')
  {
    FullTest(n, s);
    hide Calls, Published, SawFull, Taken, Buffers, SlotsOk, Inv, Sub;
    var a := PushCheck;
    var all := acts + [a];
    OneMore(acts, a);
    forall k ensures SawFull(n, all, k) == SawFull(n, acts, k) {
      FullOneMore(n, acts, a, k);
    }
    forall k | 0 <= k < |Calls(all)| ensures PushFate(n, all, s', k) {
      assert PushFate(n, acts, s, k);
    }
  }

  lemma {:induction false} PublishHistory(n: nat, acts: seq<Action>, s: State, s': State)
    requires SlotsOk(n, s) && Step(n, s, PushPublish) == Some(s') && PushHistory(n, acts, s)
    ensures PushHistory(n, acts + [PushPublish], s')
  {
    hide Calls, Published, SawFull, Taken, Buffers, SlotsOk;
    var a := PushPublish;
    var all, last := acts + [a], |Calls(acts)| - 1;
    OneMore(acts, a);
    forall k ensures SawFull(n, all, k) == SawFull(n, acts, k) {
      FullOneMore(n, acts, a, k);
    }
    var at, at' := Published(acts), Published(all);
    assert PushFate(n, acts, s, last);
    forall i | 0 <= i < |at| ensures at[i] < last {
      assert at[i] in at;
    }
    forall k | 0 <= k < |Calls(all)| ensures PushFate(n, all, s', k) {
      assert PushFate(n, acts, s, k);
      assert k in at' <==> k in at || k == last;
    }
  }

  // ---------------------------------------------------------------- the consumer's own steps

  lemma {:induction false} PopCallHistory(acts: seq<Action>, n: nat, max: nat, s: State, s': State)
    requires SlotsOk(n, s) && Step(n, s, PopCall(max)) == Some(s') && PopHistory(acts, s)
    ensures PopHistory(acts + [PopCall(max)], s')
  {
    hide Calls, Published, SawEmpty, Taken, Buffers, SlotsOk;
    var a := PopCall(max);
    var all, k0 := acts + [a], |Buffers(acts)|;
    OneMore(acts, a);
    NoEmptySeenYet(acts, k0);
    forall k ensures SawEmpty(all, k) == SawEmpty(acts, k) {
      EmptyOneMore(acts, a, k);
    }
    forall k | 0 <= k < |Buffers(all)| ensures PopFate(all, s', k) {
      if k < k0 { assert PopFate(acts, s, k); }
    }
  }

  lemma {:induction false} PopLoadHistory(acts: seq<Action>, n: nat, s: State, s': State)
    requires SlotsOk(n, s) && Step(n, s, PopLoadHead) == Some(s') && PushHistory(n, acts, s) && PopHistory(acts, s)
    ensures PopHistory(acts + [PopLoadHead], s')
  {
    hide Calls, Published, SawEmpty, Taken, Buffers, SlotsOk, PushFate, HoldsCall;
    var a := PopLoadHead;
    var all := acts + [a];
    OneMore(acts, a);
    forall k ensures k != |Buffers(acts)| - 1 ==> SawEmpty(all, k) == SawEmpty(acts, k) {
      EmptyOneMore(acts, a, k);
    }
    EmptyOneMore(acts, a, |Buffers(acts)| - 1);
    forall k | 0 <= k < |Buffers(all)| ensures PopFate(all, s', k) {
      assert PopFate(acts, s, k);
    }
  }

  lemma {:induction false} PopCheckHistory(acts: seq<Action>, n: nat, s: State, s': State)
    requires RingSize(n) && Inv(n, s) && Step(n, s, PopCheck) == Some(s') && PopHistory(acts, s)
    ensures PopHistory(acts + [PopCheck], s')
  {
    EmptyTest(n, s);
    SeenIsAhead(n, s);
    hide Calls, Published, SawEmpty, Taken, Buffers, SlotsOk, Inv;
    var a := PopCheck;
    var all := acts + [a];
    OneMore(acts, a);
    forall k ensures SawEmpty(all, k) == SawEmpty(acts, k) {
      EmptyOneMore(acts, a, k);
    }
    forall k | 0 <= k < |Buffers(all)| ensures PopFate(all, s', k) {
      assert PopFate(acts, s, k);
    }
  }

  lemma {:induction false} SeenIsAhead(n: nat, s: State)
    requires Inv(n, s)
    ensures s.cons.CHead? ==> s.cons.seen >= |s.popped|
  {
  }

  lemma {:induction false} TakeHistory(acts: seq<Action>, n: nat, s: State, s': State)
    requires SlotsOk(n, s) && Step(n, s, PopPublish) == Some(s') && PopHistory(acts, s)
    ensures PopHistory(acts + [PopPublish], s')
  {
    hide Calls, Published, SawEmpty, Taken, Buffers, SlotsOk;
    var a := PopPublish;
    var all, last := acts + [a], |Buffers(acts)| - 1;
    OneMore(acts, a);
    forall k ensures SawEmpty(all, k) == SawEmpty(acts, k) {
      EmptyOneMore(acts, a, k);
    }
    var at, at' := Taken(acts), Taken(all);
    assert PopFate(acts, s, last);
    forall i | 0 <= i < |at| ensures at[i] < last {
      assert at[i] in at;
    }
    forall k | 0 <= k < |Buffers(all)| ensures PopFate(all, s', k) {
      assert PopFate(acts, s, k);
      assert k in at' <==> k in at || k == last;
    }
  }

  lemma {:induction false} WriteKeepsCall(n: nat, acts: seq<Action>, s: State, s': State)
    requires SlotsOk(n, s) && Step(n, s, PushWrite) == Some(s')
    ensures s'.pushed == s.pushed && s'.rejected == s.rejected && Pushing(s') == Pushing(s)
    ensures HoldsCall(n, acts, s) ==> HoldsCall(n, acts, s')
  {
    hide Calls, SawFull;
  }

  lemma {:induction false} ReadKeepsBuffer(acts: seq<Action>, n: nat, s: State, s': State)
    requires SlotsOk(n, s) && Step(n, s, PopRead) == Some(s')
    ensures s'.popped == s.popped && Popping(s') == Popping(s)
    ensures HoldsBuffer(acts, s) ==> HoldsBuffer(acts, s')
  {
    hide Buffers, SawEmpty;
  }

  // ---------------------------------------------------------------- every run

  lemma {:induction false} PushStep(n: nat, acts: seq<Action>, a: Action, s: State, s': State)
    requires RingSize(n) && Inv(n, s) && Step(n, s, a) == Some(s') && PushHistory(n, acts, s) && PopHistory(acts, s)
    ensures PushHistory(n, acts + [a], s')
  {
    hide PushHistory, PopHistory, HoldsCall, Pushing;
    match a
    case PushCall(m) => PushCallHistory(n, acts, m, s, s');
    case PushLoadTail => PushLoadHistory(n, acts, s, s');
    case PushCheck => PushCheckHistory(n, acts, s, s');
    case PushPublish => PublishHistory(n, acts, s, s');
    case PushWrite =>
      WriteKeepsCall(n, acts, s, s');
      PushIgnores(n, acts, a, s, s');
    case _ =>
      ProducerWaits(n, s, a, s');
      SameCall(n, acts, s, s');
      PushIgnores(n, acts, a, s, s');
  }

  lemma {:induction false} SameCall(n: nat, acts: seq<Action>, s: State, s': State)
    requires s'.pushed == s.pushed && Pushing(s') == Pushing(s) && (Pushing(s) ==> s'.prod == s.prod)
    ensures HoldsCall(n, acts, s) ==> HoldsCall(n, acts, s')
  {
  }

  lemma {:induction false} SameBuffer(acts: seq<Action>, s: State, s': State)
    requires s'.popped == s.popped && Popping(s') == Popping(s) && (Popping(s) ==> s'.cons == s.cons)
    ensures HoldsBuffer(acts, s) ==> HoldsBuffer(acts, s')
  {
  }

  lemma {:induction false} PopStep(n: nat, acts: seq<Action>, a: Action, s: State, s': State)
    requires RingSize(n) && Inv(n, s) && Step(n, s, a) == Some(s') && PushHistory(n, acts, s) && PopHistory(acts, s)
    ensures PopHistory(acts + [a], s')
  {
    hide PushHistory, PopHistory, HoldsBuffer, Popping;
    match a
    case PopCall(max) => PopCallHistory(acts, n, max, s, s');
    case PopLoadHead => PopLoadHistory(acts, n, s, s');
    case PopCheck => PopCheckHistory(acts, n, s, s');
    case PopPublish => TakeHistory(acts, n, s, s');
    case PopRead =>
      ReadKeepsBuffer(acts, n, s, s');
      PopIgnores(acts, a, s, s');
    case _ =>
      ConsumerWaits(n, s, a, s');
      SameBuffer(acts, s, s');
      PopIgnores(acts, a, s, s');
  }

  lemma {:induction false} RunHistory(n: nat, acts: seq<Action>, s: State)
    requires RingSize(n) && Reaches(n, acts, s)
    ensures Inv(n, s) && PushHistory(n, acts, s) && PopHistory(acts, s)
    decreases |acts|
  {
    hide Inv;
    RunInv(n, acts, s);
    if |acts| > 0 {
      hide PushHistory, PopHistory, Step;
      var m := |acts| - 1;
      var before :| Reaches(n, acts[..m], before) && SlotsOk(n, before) && Step(n, before, acts[m]) == Some(s);
      RunHistory(n, acts[..m], before);
      PushStep(n, acts[..m], acts[m], before, s);
      PopStep(n, acts[..m], acts[m], before, s);
      assert acts == acts[..m] + [acts[m]];
    }
  }

  /** A push call that is over was published exactly if its payload fitted and it did not see the ring full; the
      published ones are in the order of the calls, and the producer counts the others. */
  lemma {:induction false} CallsArePublishedExactlyWhen(n: nat, acts: seq<Action>, s: State)
    requires RingSize(n) && Reaches(n, acts, s)
    ensures Ascends(Published(acts), |Calls(acts)|)
    ensures forall k :: 0 <= k < |Calls(acts)| && !PushOpen(acts, s, k) ==>
      (k in Published(acts) <==> |Calls(acts)[k].payload| <= PAYLOAD_MAX && !SawFull(n, acts, k))
    ensures s.overflow == (|Calls(acts)| - |Published(acts)| - if Pushing(s) then 1 else 0) % WRAP
  {
    hide Calls, Published, Taken, SawFull;
    RunHistory(n, acts, s);
    PoppedIsPrefixOfPushed(n, acts, s);
    forall k | 0 <= k < |Calls(acts)| && !PushOpen(acts, s, k)
      ensures k in Published(acts) <==> |Calls(acts)[k].payload| <= PAYLOAD_MAX && !SawFull(n, acts, k)
    {
      assert PushFate(n, acts, s, k);
    }
  }

  /** A pop call that is over took a message exactly if it did not see the ring empty. */
  lemma {:induction false} CallsTakeExactlyWhen(n: nat, acts: seq<Action>, s: State)
    requires RingSize(n) && Reaches(n, acts, s)
    ensures Ascends(Taken(acts), |Buffers(acts)|)
    ensures forall k :: 0 <= k < |Buffers(acts)| && !PopOpen(acts, s, k) ==> (k in Taken(acts) <==> !SawEmpty(acts, k))
  {
    hide Buffers, Taken, SawEmpty;
    RunHistory(n, acts, s);
    forall k | 0 <= k < |Buffers(acts)| && !PopOpen(acts, s, k) ensures k in Taken(acts) <==> !SawEmpty(acts, k) {
      assert PopFate(acts, s, k);
    }
  }

  /** However the two cores interleave, the messages taken are the first ones published, in order: the i-th pop
      that takes one is given the id, sequence number, length and payload that the i-th published push was
      called with, the payload cut to its own buffer. */
  lemma {:induction false} TakenAreTheFirstCalls(n: nat, acts: seq<Action>, s: State)
    requires RingSize(n) && Reaches(n, acts, s)
    ensures |s.popped| == |Taken(acts)| <= |Published(acts)| <= |Taken(acts)| + n
    ensures Ascends(Published(acts), |Calls(acts)|) && Ascends(Taken(acts), |Buffers(acts)|)
    ensures forall i :: 0 <= i < |Taken(acts)| ==>
      var m, size := Calls(acts)[Published(acts)[i]], Buffers(acts)[Taken(acts)[i]];
      && s.popped[i].id == m.id && s.popped[i].seqNo == m.seqNo && s.popped[i].len == |m.payload|
      && s.popped[i].bytes == m.payload[..Min(|m.payload|, size)]
  {
    hide Calls, Published, Taken, Buffers, PushFate, PopFate, HoldsCall, HoldsBuffer;
    RunHistory(n, acts, s);
    PoppedIsPrefixOfPushed(n, acts, s);
    forall i | 0 <= i < |Taken(acts)|
      ensures Delivers(s.popped[i], Calls(acts)[Published(acts)[i]]) && s.popped[i].max == Buffers(acts)[Taken(acts)[i]]
    {
      assert s.pushed[i] == Calls(acts)[Published(acts)[i]];
    }
  }
}
