/** The lock-free ring between the network thread and the block thread: one producer, one
    consumer, a fixed buffer and two indices. */
module RingQueue {
  import opened Arithmetic

  /* ----- one call at a time ----- */

  /** The items from position `tail` up to, not including, position `head`. */
  function Between(buffer: seq<string>, tail: nat, head: nat): (items: seq<string>)
    requires tail < |buffer| && head < |buffer|
  {
    if tail <= head then buffer[tail..head] else buffer[tail..] + buffer[..head]
  }

  class LockFreeQueue {
    const buffer: array<string>
    var head: nat
    var tail: nat

    ghost predicate Valid()
      reads this
    {
      buffer.Length >= 2 && head < buffer.Length && tail < buffer.Length
    }

    ghost function Contents(): seq<string>
      requires Valid()
      reads this, buffer
    {
      Between(buffer[..], tail, head)
    }

    constructor (queueSize: nat)
      requires queueSize >= 2
      ensures Valid() && fresh(buffer) && buffer.Length == queueSize && Contents() == []
    {
      buffer := new string[queueSize](_ => "");
      head, tail := 0, 0;
    }

    /** Fails exactly when all slots but one are in use. */
    method Push(item: string) returns (ok: bool)
      requires Valid()
      modifies this`head, buffer
      ensures Valid()
      ensures ok <==> |old(Contents())| < buffer.Length - 1
      ensures Contents() == if ok then old(Contents()) + [item] else old(Contents())
    {
      var headSnapshot := head;
      var nextHead := (headSnapshot + 1) % buffer.Length;
      NextInRing(headSnapshot, buffer.Length);
      if nextHead == tail {
        return false;
      }
      ghost var was := buffer[..];
      buffer[headSnapshot] := item;
      head := nextHead;
      assert buffer[..] == was[headSnapshot := item];
      AppendBetween(was, tail, headSnapshot, nextHead, item);
      return true;
    }

    /** Fails exactly when the queue is empty. */
    method Pop() returns (ok: bool, item: string)
      requires Valid()
      modifies this`tail
      ensures Valid()
      ensures ok <==> old(Contents()) != []
      ensures ok ==> old(Contents()) == [item] + Contents()
      ensures !ok ==> Contents() == old(Contents())
    {
      var tailSnapshot := tail;
      if tailSnapshot == head {
        return false, "";
      }
      item := buffer[tailSnapshot];
      tail := (tailSnapshot + 1) % buffer.Length;
      NextInRing(tailSnapshot, buffer.Length);
      return true, item;
    }
  }

  lemma {:induction false} NextInRing(i: nat, n: nat)
    requires i < n
    ensures (i + 1) % n == if i + 1 == n then 0 else i + 1
  {
    if i + 1 < n {
      Quotient(i + 1, n, 0, i + 1);
    } else {
      Quotient(i + 1, n, 1, 0);
    }
  }

  lemma {:induction false} AppendBetween(was: seq<string>, tail: nat, head: nat, next: nat, item: string)
    requires tail < |was| && head < |was| && next == (if head + 1 == |was| then 0 else head + 1) && next != tail
    ensures Between(was[head := item], tail, next) == Between(was, tail, head) + [item]
  {
    var now := was[head := item];
    if tail <= head {
      assert now[tail..head] == was[tail..head];
      if head + 1 == |was| {
        assert now[tail..] == was[tail..head] + [item];
      }
    } else {
      assert now[tail..] == was[tail..];
      assert now[..head+1] == was[..head] + [item];
    }
  }

  /* ----- both threads, interleaved at every load and store ----- */

  /** push: before the first load; head loaded; room seen; item stored. */
  datatype Producer = Ready | LoadedHead(item: string, h: nat) | SeenRoom(item: string, h: nat) | StoredItem(item: string, h: nat)

  /** pop: before the first load; tail loaded; item seen; item copied. */
  datatype Consumer = Idle | LoadedTail(t: nat) | SeenItem(t: nat) | CopiedItem(t: nat, item: string)

  /** `pushed` and `popped` are the items of the calls that have returned true. */
  datatype Ring = Ring(buffer: seq<string>, head: nat, tail: nat, producer: Producer, consumer: Consumer,
                       pushed: seq<string>, popped: seq<string>)

  /** The producer's next step, `item` being what it pushes if it starts a call; or the
      consumer's next step. */
  datatype Event = Produce(item: string) | Consume

  ghost predicate Fits(s: Ring) {
    && |s.buffer| >= 2
    && (s.producer.Ready? || s.producer.h < |s.buffer|)
    && (s.consumer.Idle? || s.consumer.t < |s.buffer|)
  }

  ghost function StartRing(n: nat): Ring {
    Ring(seq(n, _ => ""), 0, 0, Ready, Idle, [], [])
  }

  ghost function ProducerStep(s: Ring, item: string): Ring
    requires Fits(s)
  {
    var n := |s.buffer|;
    match s.producer
    case Ready => if s.head < n then s.(producer := LoadedHead(item, s.head)) else s
    case LoadedHead(x, h) => s.(producer := if (h + 1) % n == s.tail then Ready else SeenRoom(x, h))
    case SeenRoom(x, h) => s.(buffer := s.buffer[h := x], producer := StoredItem(x, h))
    case StoredItem(x, h) => s.(head := (h + 1) % n, pushed := s.pushed + [x], producer := Ready)
  }

  ghost function ConsumerStep(s: Ring): Ring
    requires Fits(s)
  {
    var n := |s.buffer|;
    match s.consumer
    case Idle => if s.tail < n then s.(consumer := LoadedTail(s.tail)) else s
    case LoadedTail(t) => s.(consumer := if t == s.head then Idle else SeenItem(t))
    case SeenItem(t) => s.(consumer := CopiedItem(t, s.buffer[t]))
    case CopiedItem(t, x) => s.(tail := (t + 1) % n, popped := s.popped + [x], consumer := Idle)
  }

  ghost function RingStepOf(s: Ring, e: Event): Ring
    requires Fits(s)
  {
    if e.Produce? then ProducerStep(s, e.item) else ConsumerStep(s)
  }

  ghost function RingAfter(n: nat, schedule: seq<Event>): (s: Ring)
    requires n >= 2
    ensures Fits(s) && |s.buffer| == n
  {
    if schedule == [] then StartRing(n)
    else RingStepOf(RingAfter(n, schedule[..|schedule| - 1]), schedule[|schedule| - 1])
  }

  /** The slot of the i-th item ever pushed. */
  ghost function Slot(s: Ring, i: nat): nat
    requires |s.buffer| >= 2
  {
    i % |s.buffer|
  }

  ghost predicate RingInv(s: Ring) {
    && Fits(s)
    && |s.popped| <= |s.pushed| < |s.popped| + |s.buffer|
    && s.popped == s.pushed[..|s.popped|]
    && s.head == Slot(s, |s.pushed|) && s.tail == Slot(s, |s.popped|)
    && (forall i: nat :: |s.popped| <= i < |s.pushed| ==> s.buffer[Slot(s, i)] == s.pushed[i])
    && (!s.producer.Ready? ==> s.producer.h == s.head)
    && (s.producer.SeenRoom? || s.producer.StoredItem? ==> |s.pushed| - |s.popped| < |s.buffer| - 1)
    && (s.producer.StoredItem? ==> s.buffer[s.producer.h] == s.producer.item)
    && (!s.consumer.Idle? ==> s.consumer.t == s.tail)
    && (s.consumer.SeenItem? || s.consumer.CopiedItem? ==> |s.popped| < |s.pushed|)
    && (s.consumer.CopiedItem? ==> s.consumer.item == s.pushed[|s.popped|])
  }

  /** Slots of items less than a buffer length apart differ. */
  lemma {:induction false} SlotsDiffer(s: Ring, i: nat, j: nat)
    requires |s.buffer| >= 2 && i < j < i + |s.buffer|
    ensures Slot(s, i) != Slot(s, j)
  {
    RingStep(i, j - i, |s.buffer|);
  }

  lemma {:induction false} NextSlot(s: Ring, i: nat)
    requires |s.buffer| >= 2
    ensures (Slot(s, i) + 1) % |s.buffer| == Slot(s, i + 1)
  {
    NextQuotient(i, |s.buffer|);
    NextInRing(i % |s.buffer|, |s.buffer|);
  }

  /** The producer finds no room exactly when all slots but one are in use, and the consumer
      finds nothing exactly when nothing is outstanding. */
  lemma {:induction false} TestsAreExact(s: Ring)
    requires RingInv(s)
    ensures (s.head + 1) % |s.buffer| == s.tail <==> |s.pushed| - |s.popped| == |s.buffer| - 1
    ensures s.head == s.tail <==> |s.pushed| == |s.popped|
  {
    var a, b, n := |s.popped|, |s.pushed|, |s.buffer|;
    NextSlot(s, b);
    if b + 1 - a == n {
      RingStep(a, n, n);
    } else {
      SlotsDiffer(s, a, b + 1);
    }
    if a < b {
      SlotsDiffer(s, a, b);
    }
  }

  /** Storing an item touches no outstanding one. */
  lemma {:induction false} StoringKeepsInv(s: Ring)
    requires RingInv(s) && s.producer.SeenRoom?
    ensures RingInv(ProducerStep(s, ""))
  {
    hide Slot;
    var s' := ProducerStep(s, "");
    SameSlots(s, s');
    forall i: nat | |s.popped| <= i < |s.pushed| ensures s'.buffer[Slot(s', i)] == s.pushed[i] {
      SlotsDiffer(s, i, |s.pushed|);
    }
  }

  /** Publishing an item adds it to the outstanding ones. */
  lemma {:induction false} PublishingKeepsInv(s: Ring)
    requires RingInv(s) && s.producer.StoredItem?
    ensures RingInv(ProducerStep(s, ""))
  {
    hide Slot;
    NextSlot(s, |s.pushed|);
    var s' := ProducerStep(s, "");
    SameSlots(s, s');
    assert s'.popped == s'.pushed[..|s'.popped|];
    forall i: nat | |s'.popped| <= i < |s'.pushed| ensures s'.buffer[Slot(s', i)] == s'.pushed[i] {
      if i == |s.pushed| {
        assert s'.pushed[i] == s.producer.item;
      } else {
        assert s'.pushed[i] == s.pushed[i];
      }
    }
  }

  lemma {:induction false} ProducerKeepsInv(s: Ring, item: string)
    requires RingInv(s)
    ensures RingInv(ProducerStep(s, item))
  {
    hide Slot;
    if s.producer.SeenRoom? {
      StoringKeepsInv(s);
    } else if s.producer.StoredItem? {
      PublishingKeepsInv(s);
    } else {
      TestsAreExact(s);
      SameSlots(s, ProducerStep(s, item));
    }
  }

  lemma {:induction false} SameSlots(s: Ring, s': Ring)
    requires |s.buffer| == |s'.buffer| >= 2
    ensures forall i: nat :: Slot(s', i) == Slot(s, i) < |s.buffer|
  {
  }

  lemma {:induction false} ConsumerKeepsInv(s: Ring)
    requires RingInv(s)
    ensures RingInv(ConsumerStep(s))
  {
    hide Slot;
    TestsAreExact(s);
    NextSlot(s, |s.popped|);
    var s' := ConsumerStep(s);
    SameSlots(s, s');
    if s.consumer.CopiedItem? {
      assert s'.pushed[..|s'.popped|] == s.pushed[..|s.popped|] + [s.pushed[|s.popped|]];
    }
  }

  lemma {:induction false} ReachableRingInv(n: nat, schedule: seq<Event>)
    requires n >= 2
    ensures RingInv(RingAfter(n, schedule))
  {
    hide RingInv, ProducerStep, ConsumerStep;
    if schedule == [] {
      StartRingInv(n);
    } else {
      ReachableRingInv(n, schedule[..|schedule| - 1]);
      var s, e := RingAfter(n, schedule[..|schedule| - 1]), schedule[|schedule| - 1];
      if e.Produce? {
        ProducerKeepsInv(s, e.item);
      } else {
        ConsumerKeepsInv(s);
      }
    }
  }

  lemma {:induction false} StartRingInv(n: nat)
    requires n >= 2
    ensures RingInv(StartRing(n))
  {
    Quotient(0, n, 0, 0);
  }

  /** In every interleaving, for any capacity: the items popped are the first items pushed, in
      order; at most n - 1 are outstanding; a slot about to be written is never the one about
      to be read; and a call gives up only when the queue is full, or empty, at that moment. */
  lemma {:induction false} QueueIsFifo(n: nat, schedule: seq<Event>)
    requires n >= 2
    ensures var s := RingAfter(n, schedule);
            && s.popped <= s.pushed
            && |s.pushed| - |s.popped| <= n - 1
            && (s.producer.SeenRoom? && s.consumer.SeenItem? ==> s.producer.h != s.consumer.t)
            && (s.producer.LoadedHead? ==>
                  forall item :: ProducerStep(s, item).producer.Ready? <==> |s.pushed| - |s.popped| == n - 1)
            && (s.consumer.LoadedTail? ==> (ConsumerStep(s).consumer.Idle? <==> s.pushed == s.popped))
  {
    var s := RingAfter(n, schedule);
    ReachableRingInv(n, schedule);
    TestsAreExact(s);
    if s.producer.SeenRoom? && s.consumer.SeenItem? {
      SlotsDiffer(s, |s.popped|, |s.pushed|);
    }
    assert s.pushed[..|s.pushed|] == s.pushed;
  }
}
