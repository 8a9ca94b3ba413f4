/** The ring buffer between the MIDI input thread, which pushes, and the client, which pops. */
module MidiQueue {
  import opened Arithmetic

  datatype Message = Message(bytes: seq<bv8>, stamp: real)

  const UNSIGNED_LIMIT := 0x1_0000_0000

  /** `ringSize - 1` in unsigned arithmetic: an empty ring has the largest bound of all. */
  function Bound(ringSize: nat): nat
    requires ringSize < UNSIGNED_LIMIT
  {
    (ringSize - 1) % UNSIGNED_LIMIT
  }

  /** The number of queued messages as both sides compute it from their copies. */
  function Size(ringSize: nat, back: nat, front: nat): int {
    if back >= front then back - front else ringSize - front + back
  }

  datatype PushResult = Accepted | Refused | NoRing

  // ----- One thread

  lemma NextSlot(slot: nat, n: nat)
    requires slot < n
    ensures (slot + 1) % n == if slot + 1 == n then 0 else slot + 1
  {
    if slot + 1 == n {
      DivisionIsUnique(n, n, 1, 0);
    } else {
      DivisionIsUnique(slot + 1, n, 0, slot + 1);
    }
  }

  /** The messages from slot `front` up to slot `back`, wrapping around. */
  function Window(ring: seq<Message>, front: nat, back: nat): seq<Message>
    requires front <= |ring| && back <= |ring|
  {
    if front <= back then ring[front..back] else ring[front..] + ring[..back]
  }

  lemma HasRoom(ring: seq<Message>, back: nat, front: nat)
    requires |ring| < UNSIGNED_LIMIT && front <= |ring| && back <= |ring|
    requires ring != [] ==> front < |ring| && back < |ring|
    ensures |Window(ring, front, back)| == Size(|ring|, back, front)
    ensures Size(|ring|, back, front) < Bound(|ring|) <==>
            ring == [] || |Window(ring, front, back)| + 1 < |ring|
  {
  }

  lemma Pushed(ring: seq<Message>, written: seq<Message>, front: nat, back: nat, m: Message)
    requires front < |ring| && back < |ring| && written == ring[back := m]
    requires Size(|ring|, back, front) + 1 < |ring|
    ensures var next := if back + 1 == |ring| then 0 else back + 1;
            Window(written, front, next) == Window(ring, front, back) + [m]
  {
    if front <= back {
      assert written[front..back + 1] == ring[front..back] + [m];
    } else {
      assert written[front..] == ring[front..] && written[..back + 1] == ring[..back] + [m];
    }
  }

  lemma Popped(ring: seq<Message>, front: nat, back: nat)
    requires front < |ring| && back < |ring| && front != back
    ensures var next := if front + 1 == |ring| then 0 else front + 1;
            [ring[front]] + Window(ring, next, back) == Window(ring, front, back)
  {
    if front < back {
      FirstOfSlice(ring, front, back);
    } else {
      FirstOfSlice(ring, front, |ring|);
      assert [ring[front]] + (ring[front + 1..] + ring[..back]) == [ring[front]] + ring[front + 1..] + ring[..back];
    }
  }

  lemma FirstOfSlice(s: seq<Message>, i: nat, j: nat)
    requires i < j <= |s|
    ensures [s[i]] + s[i + 1..j] == s[i..j]
  {
  }

  class Queue {
    var front: nat
    var back: nat
    const ring: array<Message>

    ghost predicate Valid()
      reads this
    {
      && ring.Length < UNSIGNED_LIMIT
      && if ring.Length == 0 then front == back == 0 else front < ring.Length && back < ring.Length
    }

    /** The queued messages, oldest first. */
    ghost function Contents(): seq<Message>
      requires Valid()
      reads this, ring
    {
      Window(ring[..], front, back)
    }

    constructor (limit: nat)
      requires limit < UNSIGNED_LIMIT
      ensures Valid() && fresh(ring) && ring.Length == limit && Contents() == []
    {
      front, back := 0, 0;
      ring := new Message[limit](_ => Message([], 0.0));
    }

    method Push(m: Message) returns (r: PushResult)
      requires Valid()
      modifies this`back, ring
      ensures Valid()
      ensures r == NoRing <==> ring.Length == 0
      ensures r == Accepted <==> |old(Contents())| + 1 < ring.Length
      ensures Contents() == if r == Accepted then old(Contents()) + [m] else old(Contents())
    {
      var b, f := back, front;
      HasRoom(ring[..], b, f);
      if Size(ring.Length, b, f) < Bound(ring.Length) {
        if ring.Length == 0 {
          return NoRing;
        }
        ghost var before := ring[..];
        ring[b] := m;
        NextSlot(b, ring.Length);
        back := (back + 1) % ring.Length;
        Pushed(before, ring[..], f, b, m);
        return Accepted;
      }
      return Refused;
    }

    method Pop() returns (m: Message, ok: bool)
      requires Valid()
      modifies this`front
      ensures Valid()
      ensures ok <==> old(Contents()) != []
      ensures ok ==> [m] + Contents() == old(Contents())
      ensures !ok ==> Contents() == old(Contents())
    {
      var b, f := back, front;
      if Size(ring.Length, b, f) == 0 {
        return Message([], 0.0), false;
      }
      m := ring[f];
      NextSlot(f, ring.Length);
      Popped(ring[..], f, b);
      front := (front + 1) % ring.Length;
      ok := true;
    }
  }

  // ----- Two threads.  Every access to a shared field is a step of its own; a message is
  // written and read as two fields.

  /** Where the pushing thread is.  `back` is its copy of the shared field. */
  datatype Producer =
    | Resting
    | ReadingBack(message: Message)
    | ReadingFront(message: Message, back: nat)
    | WritingBytes(message: Message, back: nat)
    | WritingStamp(message: Message, back: nat)
    | ReadingBackAgain(message: Message)
    | WritingBack(message: Message, next: nat)

  /** Where the popping thread is.  `seen` counts the pushes that had been published when `back`
      was read; it is a fact about the run that the thread cannot compute. */
  datatype Consumer =
    | Waiting
    | LoadingBack
    | LoadingFront(back: nat, seen: nat)
    | LoadingBytes(front: nat)
    | LoadingStamp(front: nat, bytes: seq<bv8>)
    | LoadingFrontAgain(message: Message)
    | StoringFront(message: Message, next: nat)

  datatype Refusal = Full(queued: int) | Empty(queuedWhenBackWasRead: int)

  /** Shared fields, both threads, and the history: messages published and delivered so far, and
      what every refusal was based on. */
  datatype State = State(
    ring: seq<Message>, front: nat, back: nat,
    producer: Producer, consumer: Consumer,
    pushed: seq<Message>, popped: seq<Message>, refusals: seq<Refusal>)

  datatype Action = BeginPush(message: Message) | BeginPop | Produce | Consume

  function Start(ring: seq<Message>): State {
    State(ring, 0, 0, Resting, Waiting, [], [], [])
  }

  function ProducerStep(s: State): State
    requires s.ring != [] && |s.ring| < UNSIGNED_LIMIT
  {
    var n := |s.ring|;
    match s.producer
    case Resting => s
    case ReadingBack(m) => s.(producer := ReadingFront(m, s.back))
    case ReadingFront(m, b) =>
      if Size(n, b, s.front) < Bound(n) then s.(producer := WritingBytes(m, b))
      else s.(producer := Resting, refusals := s.refusals + [Full(|s.pushed| - |s.popped|)])
    case WritingBytes(m, b) =>
      if b >= n then s  // excluded by the invariant
      else s.(ring := s.ring[b := s.ring[b].(bytes := m.bytes)], producer := WritingStamp(m, b))
    case WritingStamp(m, b) =>
      if b >= n then s  // excluded by the invariant
      else s.(ring := s.ring[b := s.ring[b].(stamp := m.stamp)], producer := ReadingBackAgain(m))
    case ReadingBackAgain(m) => s.(producer := WritingBack(m, (s.back + 1) % n))
    case WritingBack(m, b) => s.(back := b, producer := Resting, pushed := s.pushed + [m])
  }

  function ConsumerStep(s: State): State
    requires s.ring != []
  {
    var n := |s.ring|;
    match s.consumer
    case Waiting => s
    case LoadingBack => s.(consumer := LoadingFront(s.back, |s.pushed|))
    case LoadingFront(b, seen) =>
      if Size(n, b, s.front) == 0 then
        s.(consumer := Waiting, refusals := s.refusals + [Empty(seen - |s.popped|)])
      else s.(consumer := LoadingBytes(s.front))
    case LoadingBytes(f) =>
      if f >= n then s  // excluded by the invariant
      else s.(consumer := LoadingStamp(f, s.ring[f].bytes))
    case LoadingStamp(f, bytes) =>
      if f >= n then s  // excluded by the invariant
      else s.(consumer := LoadingFrontAgain(Message(bytes, s.ring[f].stamp)))
    case LoadingFrontAgain(m) => s.(consumer := StoringFront(m, (s.front + 1) % n))
    case StoringFront(m, f) => s.(front := f, consumer := Waiting, popped := s.popped + [m])
  }

  function Apply(s: State, a: Action): State
    requires s.ring != [] && |s.ring| < UNSIGNED_LIMIT
  {
    match a
    case BeginPush(m) => if s.producer == Resting then s.(producer := ReadingBack(m)) else s
    case BeginPop => if s.consumer == Waiting then s.(consumer := LoadingBack) else s
    case Produce => ProducerStep(s)
    case Consume => ConsumerStep(s)
  }

  // ----- Slots of the ring

  lemma SlotOfNext(k: nat, n: nat)
    requires n > 0
    ensures (k + 1) % n == (k % n + 1) % n
  {
    var q, r := k / n, k % n;
    assert k == q * n + r;
    if r + 1 < n {
      assert (k + 1) == q * n + (r + 1);
      DivisionIsUnique(k + 1, n, q, r + 1);
    } else {
      assert k + 1 == (q + 1) * n + 0;
      DivisionIsUnique(k + 1, n, q + 1, 0);
    }
  }

  /** Of fewer than `n` consecutive counts, the slots tell how far apart two are. */
  lemma Distance(low: nat, high: nat, n: nat)
    requires n > 0 && low <= high < low + n
    ensures Size(n, high % n, low % n) == high - low
    ensures low < high ==> high % n != low % n
  {
    var d, l, h := high / n - low / n, low % n, high % n;
    assert d * n == (high - low) + l - h by {
      assert low == (low / n) * n + l && high == (high / n) * n + h;
    }
    Multiple(d, n);
    assert d == 0 || d == 1;
  }

  // ----- What every step keeps

  ghost predicate Queued(s: State) {
    var n, low, high := |s.ring|, |s.popped|, |s.pushed|;
    && 0 < n < UNSIGNED_LIMIT
    && low <= high < low + n
    && s.front == low % n && s.back == high % n
    && s.popped <= s.pushed
    && forall k | low <= k < high :: s.ring[k % n] == s.pushed[k]
  }

  ghost predicate ProducerOk(s: State) {
    var n, low, high := |s.ring|, |s.popped|, |s.pushed|;
    var free := high + 1 < low + n;
    && 0 < n
    && match s.producer
       case Resting => true
       case ReadingBack(_) => true
       case ReadingFront(_, b) => b == s.back
       case WritingBytes(_, b) => b == high % n && free
       case WritingStamp(m, b) => b == high % n && free && s.ring[b].bytes == m.bytes
       case ReadingBackAgain(m) => free && s.ring[high % n] == m
       case WritingBack(m, next) => free && s.ring[high % n] == m && next == (high + 1) % n
  }

  ghost predicate ConsumerOk(s: State) {
    var n, low, high := |s.ring|, |s.popped|, |s.pushed|;
    && 0 < n
    && match s.consumer
       case Waiting => true
       case LoadingBack => true
       case LoadingFront(b, seen) => low <= seen <= high && b == seen % n
       case LoadingBytes(f) => low < high && f == s.front
       case LoadingStamp(f, bytes) => low < high && f == s.front && bytes == s.pushed[low].bytes
       case LoadingFrontAgain(m) => low < high && m == s.pushed[low]
       case StoringFront(m, next) => low < high && m == s.pushed[low] && next == (low + 1) % n
  }

  /** A push was refused only with `ringSize - 1` messages queued at the moment it read `front`;
      a pop only with none queued at the moment it read `back`. */
  ghost predicate RefusalsJustified(s: State) {
    forall i | 0 <= i < |s.refusals| ::
      match s.refusals[i]
      case Full(queued) => queued == |s.ring| - 1
      case Empty(queued) => queued == 0
  }

  ghost predicate Inv(s: State) {
    Queued(s) && ProducerOk(s) && ConsumerOk(s) && RefusalsJustified(s)
  }

  /** The slot the producer writes holds no queued message. */
  lemma OtherSlotsKept(s: State, b: nat)
    requires Queued(s) && b == |s.pushed| % |s.ring|
    ensures forall k | |s.popped| <= k < |s.pushed| :: k % |s.ring| != b
  {
    forall k | |s.popped| <= k < |s.pushed| ensures k % |s.ring| != b {
      Distance(k, |s.pushed|, |s.ring|);
    }
  }

  lemma ProducerLooks(s: State)
    requires Inv(s)
    requires s.producer.Resting? || s.producer.ReadingBack? || s.producer.ReadingFront? || s.producer.ReadingBackAgain?
    ensures Inv(ProducerStep(s)) && ProducerStep(s).ring == s.ring
  {
    Distance(|s.popped|, |s.pushed|, |s.ring|);
    SlotOfNext(|s.pushed|, |s.ring|);
  }

  lemma ProducerWrites(s: State)
    requires Inv(s) && (s.producer.WritingBytes? || s.producer.WritingStamp?)
    ensures Inv(ProducerStep(s)) && |ProducerStep(s).ring| == |s.ring|
  {
    OtherSlotsKept(s, s.producer.back);
  }

  lemma ProducerPublishes(s: State)
    requires Inv(s) && s.producer.WritingBack?
    ensures Inv(ProducerStep(s)) && ProducerStep(s).ring == s.ring
  {
  }

  lemma ProducerKeeps(s: State)
    requires Inv(s)
    ensures Inv(ProducerStep(s)) && |ProducerStep(s).ring| == |s.ring|
  {
    if s.producer.WritingBytes? || s.producer.WritingStamp? {
      ProducerWrites(s);
    } else if s.producer.WritingBack? {
      ProducerPublishes(s);
    } else {
      ProducerLooks(s);
    }
  }

  lemma ConsumerLooks(s: State)
    requires Inv(s)
    requires s.consumer.Waiting? || s.consumer.LoadingBack? || s.consumer.LoadingFront?
    ensures Inv(ConsumerStep(s)) && ConsumerStep(s).ring == s.ring
  {
    match s.consumer
    case LoadingFront(_, seen) => Distance(|s.popped|, seen, |s.ring|);
    case _ =>
  }

  lemma ConsumerReads(s: State)
    requires Inv(s)
    requires s.consumer.LoadingBytes? || s.consumer.LoadingStamp? || s.consumer.LoadingFrontAgain?
    ensures Inv(ConsumerStep(s)) && ConsumerStep(s).ring == s.ring
  {
    var n, low := |s.ring|, |s.popped|;
    SlotOfNext(low, n);
    assert low < |s.pushed| ==> s.ring[low % n] == s.pushed[low];
  }

  lemma ConsumerTakes(s: State)
    requires Inv(s) && s.consumer.StoringFront?
    ensures Inv(ConsumerStep(s)) && ConsumerStep(s).ring == s.ring
  {
  }

  lemma ConsumerKeeps(s: State)
    requires Inv(s)
    ensures Inv(ConsumerStep(s)) && |ConsumerStep(s).ring| == |s.ring|
  {
    if s.consumer.StoringFront? {
      ConsumerTakes(s);
    } else if s.consumer.Waiting? || s.consumer.LoadingBack? || s.consumer.LoadingFront? {
      ConsumerLooks(s);
    } else {
      ConsumerReads(s);
    }
  }

  lemma ApplyKeeps(s: State, a: Action)
    requires Inv(s)
    ensures Inv(Apply(s, a)) && |Apply(s, a).ring| == |s.ring|
  {
    if a.Produce? {
      ProducerKeeps(s);
    } else if a.Consume? {
      ConsumerKeeps(s);
    }
  }

  // ----- Every interleaving

  /** The states of the run that starts with an unused ring and takes the given actions. */
  ghost function States(ring: seq<Message>, actions: seq<Action>): (states: seq<State>)
    requires 0 < |ring| < UNSIGNED_LIMIT
    ensures |states| == |actions| + 1
    ensures forall i | 0 <= i < |states| :: Inv(states[i]) && |states[i].ring| == |ring|
    decreases |actions|
  {
    if actions == [] then [Start(ring)]
    else
      var n := |actions| - 1;
      var before := States(ring, actions[..n]);
      assert Inv(before[n]);
      ApplyKeeps(before[n], actions[n]);
      before + [Apply(before[n], actions[n])]
  }

  /** The producer is writing the slot that the consumer is reading. */
  predicate Collide(s: State) {
    && (s.producer.WritingBytes? || s.producer.WritingStamp?)
    && (s.consumer.LoadingBytes? || s.consumer.LoadingStamp?)
    && s.producer.back == s.consumer.front
  }

  /** In every state of every interleaving: what was popped is a prefix of what was pushed, at
      most `ringSize - 1` messages wait, writer and reader use different slots, and every refusal
      was justified. */
  lemma {:induction false} EveryInterleavingIsSafe(ring: seq<Message>, actions: seq<Action>, i: nat)
    requires 0 < |ring| < UNSIGNED_LIMIT && i <= |actions|
    ensures var s := States(ring, actions)[i];
            && s.popped <= s.pushed
            && |s.pushed| - |s.popped| <= |ring| - 1
            && !Collide(s)
            && RefusalsJustified(s)
  {
    var s := States(ring, actions)[i];
    assert Inv(s);
    if Collide(s) {
      Distance(|s.popped|, |s.pushed|, |s.ring|);
    }
  }

  /** A push that no step of the consumer interrupts is accepted exactly when there is room. */
  lemma UndisturbedPush(s: State, m: Message)
    requires Inv(s) && s.producer == Resting
    ensures var q := Produced(Apply(s, BeginPush(m)), if HasSpace(s) then 6 else 2);
            && q.producer == Resting && q.popped == s.popped
            && q.pushed == (if HasSpace(s) then s.pushed + [m] else s.pushed)
  {
    ApplyKeeps(s, BeginPush(m));
    Distance(|s.popped|, |s.pushed|, |s.ring|);
    var p := Apply(s, BeginPush(m));
    ProducerKeeps(p);
    var p1 := ProducerStep(p);
    ProducerKeeps(p1);
    var p2 := ProducerStep(p1);
    TwoPushSteps(p, if HasSpace(s) then 6 else 2);
    if HasSpace(s) {
      WritesMessage(p2, m, s.back);
    }
  }

  lemma TwoPushSteps(s: State, steps: nat)
    requires 0 < |s.ring| < UNSIGNED_LIMIT && steps >= 2
    ensures |ProducerStep(s).ring| == |s.ring|
    ensures Produced(s, steps) == Produced(ProducerStep(ProducerStep(s)), steps - 2)
  {
    assert Produced(s, steps) == Produced(ProducerStep(s), steps - 1);
  }

  /** Once a push has found room, four more steps complete it. */
  lemma {:induction false} WritesMessage(s: State, m: Message, back: nat)
    requires 0 < |s.ring| < UNSIGNED_LIMIT && back < |s.ring| && s.producer == WritingBytes(m, back)
    ensures var q := Produced(s, 4);
            q.producer == Resting && q.popped == s.popped && q.pushed == s.pushed + [m]
  {
    var s2 := ProducerStep(ProducerStep(s));
    assert s2 == s.(ring := s2.ring, producer := ReadingBackAgain(m));
    TwoPushSteps(s, 4);
    TwoPushSteps(s2, 2);
  }

  /** A pop that no step of the producer interrupts takes the oldest message, if there is one. */
  lemma UndisturbedPop(s: State)
    requires Inv(s) && s.consumer == Waiting
    ensures var some := |s.popped| < |s.pushed|;
            var q := Consumed(Apply(s, BeginPop), if some then 6 else 2);
            && q.consumer == Waiting && q.pushed == s.pushed
            && q.popped == (if some then s.popped + [s.pushed[|s.popped|]] else s.popped)
  {
    var n, low, high := |s.ring|, |s.popped|, |s.pushed|;
    Distance(low, high, n);
    var p := Apply(s, BeginPop);
    var p2 := ConsumerStep(ConsumerStep(p));
    TwoPopSteps(p, if low < high then 6 else 2);
    if low < high {
      assert p2 == s.(consumer := LoadingBytes(s.front));
      assert s.ring[low % n] == s.pushed[low];
      var p4 := ConsumerStep(ConsumerStep(p2));
      assert p4 == s.(consumer := LoadingFrontAgain(s.pushed[low]));
      TwoPopSteps(p2, 4);
      TwoPopSteps(p4, 2);
    }
  }

  lemma TwoPopSteps(s: State, steps: nat)
    requires s.ring != [] && steps >= 2
    ensures ConsumerStep(s).ring == s.ring
    ensures Consumed(s, steps) == Consumed(ConsumerStep(ConsumerStep(s)), steps - 2)
  {
    assert Consumed(s, steps) == Consumed(ConsumerStep(s), steps - 1);
  }

  function Consumed(s: State, steps: nat): (r: State)
    requires s.ring != []
    ensures r.ring == s.ring
    decreases steps
  {
    if steps == 0 then s else Consumed(ConsumerStep(s), steps - 1)
  }

  predicate HasSpace(s: State) {
    |s.pushed| - |s.popped| < |s.ring| - 1
  }

  function Produced(s: State, steps: nat): (r: State)
    requires 0 < |s.ring| < UNSIGNED_LIMIT
    ensures |r.ring| == |s.ring|
    decreases steps
  {
    if steps == 0 then s else Produced(ProducerStep(s), steps - 1)
  }

  /** At every step, the ring's window is what was pushed and not yet popped. */
  lemma WindowIsBacklog(s: State)
    requires Inv(s)
    ensures s.front <= |s.ring| && s.back <= |s.ring|
    ensures Window(s.ring, s.front, s.back) == s.pushed[|s.popped|..]
  {
    var n, low, high := |s.ring|, |s.popped|, |s.pushed|;
    Distance(low, high, n);
    var w := Window(s.ring, s.front, s.back);
    assert |w| == high - low;
    forall i | 0 <= i < high - low ensures w[i] == s.pushed[low + i] {
      Distance(low, low + i, n);
      assert s.ring[(low + i) % n] == s.pushed[low + i];
    }
  }
}
