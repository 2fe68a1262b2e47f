/** The inter-core ring: one producer, one consumer, monotone 32-bit indices, no locks.

    Every atomic load and store, and every byte of a slot write or read, is one step; a run is
    any interleaving of the steps of the two cores. `pushed` and `popped` record what was
    published and delivered; nothing the cores do depends on them. */
module SpscRing {
  import opened Basics

  const WRAP: nat := 0x1_0000_0000   // indices are uint32
  const PAYLOAD_MAX: nat := 256

  datatype Msg = Msg(id: Byte, seqNo: Byte, payload: seq<Byte>)
  datatype Slot = Slot(id: Byte, seqNo: Byte, len: nat, payload: seq<Byte>)
  datatype Popped = Popped(id: Byte, seqNo: Byte, len: nat, bytes: seq<Byte>, max: nat)

  /** Where the producer is. `seen` is how many messages had been popped when tail was loaded. */
  datatype Producer =
    | PIdle
    | PHead(msg: Msg, head: nat)
    | PTail(msg: Msg, head: nat, tail: nat, seen: nat)
    | PWrite(msg: Msg, head: nat, done: nat)   // `done` fields and payload bytes written
    | PPending(head: nat)                      // inside ipc_ring_pending, head loaded

  /** Where the consumer is. `seen` is how many messages had been pushed when head was loaded. */
  datatype Consumer =
    | CIdle
    | CTail(max: nat, tail: nat)
    | CHead(max: nat, tail: nat, head: nat, seen: nat)
    | CRead(tail: nat, done: nat, n: nat, out: Popped)
    | CPending(head: nat, seen: nat)

  datatype State = State(
    head: nat, tail: nat, overflow: nat, slots: seq<Slot>,
    prod: Producer, cons: Consumer,
    pushed: seq<Msg>, popped: seq<Popped>, rejected: nat, credit: nat)

  datatype Action =
    | PushCall(msg: Msg)   // length check, then the plain load of head
    | PushLoadTail
    | PushCheck
    | PushWrite
    | PushPublish
    | PopCall(max: nat)
    | PopLoadHead
    | PopCheck
    | PopRead
    | PopPublish
    | ProducerLoadsHead    // ipc_ring_pending / ipc_ring_free_slots, called by the producer
    | ProducerLoadsTail
    | ConsumerLoadsHead    // the same, called by the consumer
    | ConsumerLoadsTail

  /** uint32 subtraction. */
  function Sub(a: nat, b: nat): (r: nat)
    ensures r < WRAP
  {
    (a - b) % WRAP
  }

  function Init(n: nat): State {
    State(0, 0, 0, seq(n, _ => Slot(0, 0, 0, seq(PAYLOAD_MAX, _ => 0))), PIdle, CIdle, [], [], 0, 0)
  }

  /** Payload lengths in range: what keeps the array accesses of a step in bounds. */
  predicate SlotsOk(n: nat, s: State) {
    && |s.slots| == n > 0
    && (forall i :: 0 <= i < n ==> |s.slots[i].payload| == PAYLOAD_MAX && s.slots[i].len <= PAYLOAD_MAX)
    && (s.prod.PHead? || s.prod.PTail? || s.prod.PWrite? ==> |s.prod.msg.payload| <= PAYLOAD_MAX)
    && (s.cons.CRead? ==> s.cons.n <= PAYLOAD_MAX)
  }

  function WriteOne(slot: Slot, m: Msg, k: nat): Slot
    requires |slot.payload| == PAYLOAD_MAX && |m.payload| <= PAYLOAD_MAX && k < 3 + |m.payload|
  {
    if k == 0 then slot.(id := m.id)
    else if k == 1 then slot.(seqNo := m.seqNo)
    else if k == 2 then slot.(len := |m.payload|)
    else slot.(payload := slot.payload[k - 3 := m.payload[k - 3]])
  }

  /** The value ipc_ring_pending returns to the core that has loaded `head`. */
  function Pending(head: nat, s: State): nat {
    Sub(head, s.tail)
  }

  /** One step of either core; None when the action is not the core's next step. */
  function Step(n: nat, s: State, a: Action): Option<State>
    requires SlotsOk(n, s)
  {
    match a
    case PushCall(m) =>
      if !s.prod.PIdle? then None
      else if |m.payload| > PAYLOAD_MAX then
        Some(s.(overflow := (s.overflow + 1) % WRAP, rejected := s.rejected + 1))
      else Some(s.(prod := PHead(m, s.head)))
    case PushLoadTail =>
      if !s.prod.PHead? then None
      else Some(s.(prod := PTail(s.prod.msg, s.prod.head, s.tail, |s.popped|)))
    case PushCheck =>
      if !s.prod.PTail? then None
      else if Sub(s.prod.head, s.prod.tail) >= n then
        Some(s.(prod := PIdle, overflow := (s.overflow + 1) % WRAP, rejected := s.rejected + 1))
      else Some(s.(prod := PWrite(s.prod.msg, s.prod.head, 0)))
    case PushWrite =>
      if !s.prod.PWrite? || s.prod.done >= 3 + |s.prod.msg.payload| then None
      else
        var i := s.prod.head % n;
        Some(s.(slots := s.slots[i := WriteOne(s.slots[i], s.prod.msg, s.prod.done)],
                prod := s.prod.(done := s.prod.done + 1)))
    case PushPublish =>
      if !s.prod.PWrite? || s.prod.done != 3 + |s.prod.msg.payload| then None
      else Some(s.(head := (s.prod.head + 1) % WRAP, prod := PIdle, pushed := s.pushed + [s.prod.msg],
                   credit := if s.credit > 0 then s.credit - 1 else 0))
    case PopCall(max) =>
      if !s.cons.CIdle? then None else Some(s.(cons := CTail(max, s.tail)))
    case PopLoadHead =>
      if !s.cons.CTail? then None
      else Some(s.(cons := CHead(s.cons.max, s.cons.tail, s.head, |s.pushed|)))
    case PopCheck =>
      if !s.cons.CHead? then None
      else if s.cons.head == s.cons.tail then Some(s.(cons := CIdle))
      else Some(s.(cons := CRead(s.cons.tail, 0, 0, Popped(0, 0, 0, [], s.cons.max))))
    case PopRead =>
      if !s.cons.CRead? then None
      else
        var slot, c := s.slots[s.cons.tail % n], s.cons;
        if c.done == 0 then Some(s.(cons := c.(done := 1, out := c.out.(id := slot.id))))
        else if c.done == 1 then Some(s.(cons := c.(done := 2, out := c.out.(seqNo := slot.seqNo))))
        else if c.done == 2 then Some(s.(cons := c.(done := 3, out := c.out.(len := slot.len))))
        else if c.done == 3 then Some(s.(cons := c.(done := 4, n := Min(slot.len, c.out.max))))
        else if |c.out.bytes| < c.n then
          Some(s.(cons := c.(out := c.out.(bytes := c.out.bytes + [slot.payload[|c.out.bytes|]]))))
        else None
    case PopPublish =>
      if !s.cons.CRead? || s.cons.done != 4 || |s.cons.out.bytes| != s.cons.n then None
      else Some(s.(tail := (s.cons.tail + 1) % WRAP, cons := CIdle, popped := s.popped + [s.cons.out]))
    case ProducerLoadsHead =>
      if !s.prod.PIdle? then None else Some(s.(prod := PPending(s.head)))
    case ProducerLoadsTail =>
      if !s.prod.PPending? then None
      else Some(s.(prod := PIdle, credit := Sub(n, Pending(s.prod.head, s))))
    case ConsumerLoadsHead =>
      if !s.cons.CIdle? then None else Some(s.(cons := CPending(s.head, |s.pushed|)))
    case ConsumerLoadsTail =>
      if !s.cons.CPending? then None else Some(s.(cons := CIdle))
  }

  // ---------------------------------------------------------------- the invariant

  /** The slot holds the first `k` of the message's three fields and payload bytes. */
  predicate Holds(slot: Slot, m: Msg, k: nat) {
    && |slot.payload| == PAYLOAD_MAX && |m.payload| <= PAYLOAD_MAX
    && (k > 0 ==> slot.id == m.id)
    && (k > 1 ==> slot.seqNo == m.seqNo)
    && (k > 2 ==> slot.len == |m.payload|)
    && forall j :: 0 <= j < |m.payload| && j < k - 3 ==> slot.payload[j] == m.payload[j]
  }

  predicate HoldsAll(slot: Slot, m: Msg) {
    Holds(slot, m, 3 + |m.payload|)
  }

  /** What the consumer receives is the message, its payload cut to the caller's buffer. */
  predicate Delivers(p: Popped, m: Msg) {
    p.id == m.id && p.seqNo == m.seqNo && p.len == |m.payload| && p.bytes == m.payload[..Min(|m.payload|, p.max)]
  }

  predicate ProducerOk(n: nat, s: State) {
    var P, C := |s.pushed|, |s.popped|;
    match s.prod
    case PIdle => true
    case PHead(m, head) => head == P % WRAP && |m.payload| <= PAYLOAD_MAX
    case PTail(m, head, tail, seen) =>
      && head == P % WRAP && tail == seen % WRAP && seen <= C && |m.payload| <= PAYLOAD_MAX
      && s.credit <= n - (P - seen)
    case PWrite(m, head, done) =>
      && SlotsOk(n, s) && head == P % WRAP && P - C < n && |m.payload| <= PAYLOAD_MAX && done <= 3 + |m.payload|
      && Holds(s.slots[P % n], m, done)
    case PPending(head) => head == P % WRAP
  }

  predicate ConsumerOk(n: nat, s: State) {
    var P, C := |s.pushed|, |s.popped|;
    match s.cons
    case CIdle => true
    case CTail(_, tail) => tail == C % WRAP
    case CHead(_, tail, head, seen) => tail == C % WRAP && head == seen % WRAP && C <= seen <= P
    case CRead(tail, done, len, out) =>
      && tail == C % WRAP && C < P && done <= 4
      && var m := s.pushed[C];
         && (done > 0 ==> out.id == m.id) && (done > 1 ==> out.seqNo == m.seqNo) && (done > 2 ==> out.len == |m.payload|)
         && (done < 4 ==> len == 0) && (done == 4 ==> len == Min(|m.payload|, out.max))
         && |out.bytes| <= len && out.bytes == m.payload[..|out.bytes|]
    case CPending(head, seen) => head == seen % WRAP && seen <= P && C <= seen
  }

  predicate Inv(n: nat, s: State) {
    var P, C := |s.pushed|, |s.popped|;
    && SlotsOk(n, s)
    && C <= P <= C + n
    && s.head == P % WRAP && s.tail == C % WRAP && s.overflow == s.rejected % WRAP
    && (forall i :: C <= i < P ==> HoldsAll(s.slots[i % n], s.pushed[i]))
    && (forall i :: 0 <= i < C ==> Delivers(s.popped[i], s.pushed[i]))
    && s.credit <= n - (P - C)
    && ProducerOk(n, s) && ConsumerOk(n, s)
  }

  // ---------------------------------------------------------------- index arithmetic

  lemma {:induction false} SubOfCounts(x: nat, y: nat)
    requires 0 <= x - y < WRAP
    ensures Sub(x % WRAP, y % WRAP) == x - y
  {
    var a, b := x % WRAP, y % WRAP;
    assert x == WRAP * (x / WRAP) + a && y == WRAP * (y / WRAP) + b;
    assert a - b == x - y - WRAP * (x / WRAP - y / WRAP);
    var q := x / WRAP - y / WRAP;
    assert q == 0 || q == 1;
  }

  lemma {:induction false} ModUnique(n: nat, x: nat, k: nat, r: nat)
    requires n > 0 && x == n * k + r && r < n
    ensures x % n == r
  {
    var d := x / n - k;
    assert n * d == r - x % n;
    assert d > 0 ==> n * d >= n;
    assert d < 0 ==> n * d <= 0 - n;
  }

  /** Two counts less than `n` apart fall on different slots. */
  lemma {:induction false} CloseCountsDiffer(n: nat, i: nat, j: nat)
    requires n > 0 && i < j < i + n
    ensures i % n != j % n
  {
    var q := j / n - i / n;
    assert q >= 1 ==> n * q >= n;
    assert q <= 0 ==> n * q <= 0;
    assert j - i == n * q + (j % n - i % n);
  }

  /** The slot of the message with this count: the 32-bit index, folded by the slot count. */
  function SlotOf(n: nat, count: nat): nat
    requires n > 0
  {
    (count % WRAP) % n
  }

  /** Folding a count to 32 bits first does not change its slot. */
  lemma {:induction false} WrapKeepsSlot(n: nat, x: nat)
    requires n > 0 && WRAP % n == 0
    ensures SlotOf(n, x) == x % n
  {
    var q, y := WRAP / n, x % WRAP;
    assert WRAP == n * q;
    assert x == n * (q * (x / WRAP)) + (n * (y / n) + y % n) by {
      assert WRAP * (x / WRAP) == n * q * (x / WRAP) == n * (q * (x / WRAP));
    }
    assert n * (q * (x / WRAP)) + n * (y / n) == n * (q * (x / WRAP) + y / n);
    ModUnique(n, x, q * (x / WRAP) + y / n, y % n);
  }

  lemma {:induction false} WrapCollides(n: nat) returns (i: nat, j: nat)
    requires 0 < n < WRAP && WRAP % n != 0
    ensures i < j < i + n && SlotOf(n, i) == SlotOf(n, j)
  {
    var r := WRAP % n;
    i, j := WRAP - 1, WRAP + r - 1;
    ModUnique(n, WRAP - 1, WRAP / n, r - 1);
    ModUnique(WRAP, WRAP - 1, 0, WRAP - 1);
    ModUnique(WRAP, j, 1, r - 1);
    ModUnique(n, r - 1, 0, r - 1);
  }

  /** The slot counts for which the live indices always fall on distinct slots, even while the
      32-bit indices wrap, are exactly the divisors of 2^32. */
  lemma {:induction false} SlotCountMustDivideWrap(n: nat)
    requires 0 < n < WRAP
    ensures WRAP % n == 0 <==> forall i: nat, j: nat :: i < j < i + n ==> SlotOf(n, i) != SlotOf(n, j)
  {
    if WRAP % n == 0 {
      forall i: nat, j: nat | i < j < i + n ensures SlotOf(n, i) != SlotOf(n, j) {
        WrapKeepsSlot(n, i);
        WrapKeepsSlot(n, j);
        CloseCountsDiffer(n, i, j);
      }
    } else {
      var i, j := WrapCollides(n);
    }
  }

  // ---------------------------------------------------------------- every step keeps the invariant

  predicate RingSize(n: nat) {
    0 < n < WRAP && WRAP % n == 0
  }

  lemma {:induction false} InitInv(n: nat)
    requires RingSize(n)
    ensures Inv(n, Init(n))
  {
  }

  lemma {:induction false} NextIndex(x: nat)
    ensures (x % WRAP + 1) % WRAP == (x + 1) % WRAP
  {
  }

  lemma {:induction false} PushStepInv(n: nat, s: State, a: Action)
    requires RingSize(n) && Inv(n, s) && Step(n, s, a).Some?
    requires a.PushCall? || a.PushLoadTail? || a.ProducerLoadsHead?
    ensures Inv(n, Step(n, s, a).value)
  {
    NextIndex(s.rejected);
  }

  /** The full test sees the number of messages unread when tail was loaded. */
  lemma {:induction false} FullTest(n: nat, s: State)
    requires RingSize(n) && Inv(n, s) && s.prod.PTail?
    ensures Sub(s.prod.head, s.prod.tail) == |s.pushed| - s.prod.seen <= n
  {
    SubOfCounts(|s.pushed|, s.prod.seen);
  }

  lemma {:induction false} CheckStepInv(n: nat, s: State)
    requires RingSize(n) && Inv(n, s) && Step(n, s, PushCheck).Some?
    ensures Inv(n, Step(n, s, PushCheck).value)
  {
    FullTest(n, s);
    var s' := Step(n, s, PushCheck).value;
    if |s.pushed| - s.prod.seen == n {
      NextIndex(s.rejected);
      assert s' == s.(prod := PIdle, overflow := (s.overflow + 1) % WRAP, rejected := s.rejected + 1);
    } else {
      assert s' == s.(prod := PWrite(s.prod.msg, s.prod.head, 0));
      assert ProducerOk(n, s');
    }
  }

  /** The empty test sees whether anything was unread when head was loaded. */
  lemma {:induction false} EmptyTest(n: nat, s: State)
    requires RingSize(n) && Inv(n, s) && s.cons.CHead?
    ensures s.cons.head == s.cons.tail <==> s.cons.seen == |s.popped|
  {
    SubOfCounts(s.cons.seen, |s.popped|);
  }

  /** What ipc_ring_free_slots computes. */
  lemma {:induction false} FreeCount(n: nat, s: State)
    requires RingSize(n) && Inv(n, s) && s.prod.PPending?
    ensures Sub(n, Pending(s.prod.head, s)) == n - (|s.pushed| - |s.popped|)
  {
    SubOfCounts(|s.pushed|, |s.popped|);
    var f := n - (|s.pushed| - |s.popped|);
    ModUnique(WRAP, f, 0, f);
  }

  /** The slot being written is none of the slots that hold unread messages. */
  lemma {:induction false} WriterAvoidsLiveSlots(n: nat, s: State)
    requires RingSize(n) && Inv(n, s) && s.prod.PWrite?
    ensures forall i :: |s.popped| <= i < |s.pushed| ==> i % n != s.prod.head % n
    ensures s.prod.head % n == |s.pushed| % n
  {
    var P := |s.pushed|;
    WrapKeepsSlot(n, P);
    forall i | |s.popped| <= i < P ensures i % n != s.prod.head % n {
      CloseCountsDiffer(n, i, P);
    }
  }

  lemma {:induction false} WriteStepInv(n: nat, s: State)
    requires RingSize(n) && Inv(n, s) && Step(n, s, PushWrite).Some?
    ensures Inv(n, Step(n, s, PushWrite).value)
  {
    WriterAvoidsLiveSlots(n, s);
    var s', i := Step(n, s, PushWrite).value, s.prod.head % n;
    assert Holds(s'.slots[i], s.prod.msg, s'.prod.done);
    forall j | |s.popped| <= j < |s.pushed| ensures HoldsAll(s'.slots[j % n], s.pushed[j]) {
      assert s'.slots[j % n] == s.slots[j % n];
    }
  }

  lemma {:induction false} PublishStepInv(n: nat, s: State)
    requires RingSize(n) && Inv(n, s) && Step(n, s, PushPublish).Some?
    ensures Inv(n, Step(n, s, PushPublish).value)
  {
    var s', P := Step(n, s, PushPublish).value, |s.pushed|;
    NextIndex(P);
    assert s'.pushed[P] == s.prod.msg;
    assert forall j :: 0 <= j < P ==> s'.pushed[j] == s.pushed[j];
  }

  lemma {:induction false} PopStepInv(n: nat, s: State, a: Action)
    requires RingSize(n) && Inv(n, s) && Step(n, s, a).Some?
    requires a.PopCall? || a.PopLoadHead? || a.PopCheck? || a.ConsumerLoadsHead? || a.ConsumerLoadsTail?
    ensures Inv(n, Step(n, s, a).value)
  {
  }

  lemma {:induction false} ReadStepInv(n: nat, s: State)
    requires RingSize(n) && Inv(n, s) && Step(n, s, PopRead).Some?
    ensures Inv(n, Step(n, s, PopRead).value)
  {
    var C := |s.popped|;
    WrapKeepsSlot(n, C);
    assert HoldsAll(s.slots[C % n], s.pushed[C]);
    if s.cons.done == 4 {
      var k := |s.cons.out.bytes|;
      assert s.slots[C % n].payload[k] == s.pushed[C].payload[k];
    }
  }

  lemma {:induction false} PopPublishStepInv(n: nat, s: State)
    requires RingSize(n) && Inv(n, s) && Step(n, s, PopPublish).Some?
    ensures Inv(n, Step(n, s, PopPublish).value)
  {
    var s', C := Step(n, s, PopPublish).value, |s.popped|;
    NextIndex(C);
    assert Delivers(s'.popped[C], s.pushed[C]);
    assert forall j :: 0 <= j < C ==> s'.popped[j] == s.popped[j];
  }

  lemma {:induction false} StepInv(n: nat, s: State, a: Action)
    requires RingSize(n) && Inv(n, s) && Step(n, s, a).Some?
    ensures Inv(n, Step(n, s, a).value)
  {
    match a
    case PushWrite => WriteStepInv(n, s);
    case PushPublish => PublishStepInv(n, s);
    case PopRead => ReadStepInv(n, s);
    case PopPublish => PopPublishStepInv(n, s);
    case PushCall(_) => PushStepInv(n, s, a);
    case PushLoadTail => PushStepInv(n, s, a);
    case PushCheck => CheckStepInv(n, s);
    case ProducerLoadsHead => PushStepInv(n, s, a);
    case ProducerLoadsTail => FreeCount(n, s);
    case _ => PopStepInv(n, s, a);
  }

  // ---------------------------------------------------------------- every run

  /** `s` is reached from a zeroed ring by these steps, in this order. */
  ghost predicate Reaches(n: nat, acts: seq<Action>, s: State)
    requires n > 0
    decreases |acts|
  {
    if |acts| == 0 then s == Init(n)
    else
      exists before ::
        && Reaches(n, acts[..|acts| - 1], before)
        && SlotsOk(n, before) && Step(n, before, acts[|acts| - 1]) == Some(s)
  }

  lemma {:induction false} RunInv(n: nat, acts: seq<Action>, s: State)
    requires RingSize(n) && Reaches(n, acts, s)
    ensures Inv(n, s)
    decreases |acts|
  {
    if |acts| == 0 {
      InitInv(n);
    } else {
      var before :| Reaches(n, acts[..|acts| - 1], before)
        && SlotsOk(n, before) && Step(n, before, acts[|acts| - 1]) == Some(s);
      RunInv(n, acts[..|acts| - 1], before);
      StepInv(n, before, acts[|acts| - 1]);
    }
  }

  /** However the two cores interleave, what has been popped is the first messages pushed, in
      order, each whole; at most `n` messages are unread; overflow counts the refused pushes. */
  lemma {:induction false} PoppedIsPrefixOfPushed(n: nat, acts: seq<Action>, s: State)
    requires RingSize(n) && Reaches(n, acts, s)
    ensures |s.popped| <= |s.pushed| <= |s.popped| + n
    ensures forall i :: 0 <= i < |s.popped| ==> Delivers(s.popped[i], s.pushed[i])
    ensures s.overflow == s.rejected % WRAP
  {
    RunInv(n, acts, s);
  }

  /** The producer never writes a slot that the consumer may still read. */
  lemma {:induction false} WritesOnlyFreeSlots(n: nat, acts: seq<Action>, s: State)
    requires RingSize(n) && Reaches(n, acts, s) && s.prod.PWrite?
    ensures forall i :: |s.popped| <= i < |s.pushed| ==> i % n != s.prod.head % n
    ensures s.cons.CRead? ==> s.cons.tail % n != s.prod.head % n
  {
    RunInv(n, acts, s);
    WriterAvoidsLiveSlots(n, s);
    if s.cons.CRead? { WrapKeepsSlot(n, |s.popped|); }
  }

  /** A push is refused by the index check exactly when the ring was full at its load of tail:
      at that moment `seen` messages had been popped, and none is pushed in between. */
  lemma {:induction false} PushFailsOnlyWhenFull(n: nat, acts: seq<Action>, s: State)
    requires RingSize(n) && Reaches(n, acts, s) && s.prod.PTail?
    ensures Step(n, s, PushCheck).Some?
    ensures Step(n, s, PushCheck).value.prod.PIdle? <==> |s.pushed| - s.prod.seen == n
  {
    RunInv(n, acts, s);
    FullTest(n, s);
  }

  /** A pop reports an empty ring exactly when it was empty at its load of head: at that moment
      `seen` messages had been pushed, and none is popped in between. */
  lemma {:induction false} PopFailsOnlyWhenEmpty(n: nat, acts: seq<Action>, s: State)
    requires RingSize(n) && Reaches(n, acts, s) && s.cons.CHead?
    ensures Step(n, s, PopCheck).Some?
    ensures Step(n, s, PopCheck).value.cons.CIdle? <==> s.cons.seen == |s.popped|
  {
    RunInv(n, acts, s);
    EmptyTest(n, s);
  }

  /** Either owner, between its own operations, is told a number of pending messages in range. */
  lemma {:induction false} PendingInRange(n: nat, acts: seq<Action>, s: State)
    requires RingSize(n) && Reaches(n, acts, s)
    ensures s.prod.PPending? ==> Pending(s.prod.head, s) == |s.pushed| - |s.popped| <= n
    ensures s.cons.CPending? ==> Pending(s.cons.head, s) == s.cons.seen - |s.popped| <= n
  {
    RunInv(n, acts, s);
    SubOfCounts(|s.pushed|, |s.popped|);
    if s.cons.CPending? { SubOfCounts(s.cons.seen, |s.popped|); }
  }

  /** ipc_ring_free_slots promises the producer that many pushes: `credit` is set to its result
      and goes down by one with each push, and while it is positive no push finds the ring full. */
  lemma {:induction false} FreeSlotsArePromised(n: nat, acts: seq<Action>, s: State)
    requires RingSize(n) && Reaches(n, acts, s)
    ensures s.prod.PPending? ==>
      Step(n, s, ProducerLoadsTail).Some? &&
      Step(n, s, ProducerLoadsTail).value.credit == n - (|s.pushed| - |s.popped|)
    ensures s.prod.PTail? && s.credit > 0 ==>
      Step(n, s, PushCheck).Some? && Step(n, s, PushCheck).value.prod.PWrite?
    ensures s.prod.PTail? ==> Step(n, s, PushCheck).Some? && Step(n, s, PushCheck).value.credit == s.credit
    ensures Step(n, s, PushPublish).Some? && s.credit > 0 ==> Step(n, s, PushPublish).value.credit == s.credit - 1
  {
    RunInv(n, acts, s);
    if s.prod.PPending? { FreeCount(n, s); }
    if s.prod.PTail? { FullTest(n, s); }
  }
}
