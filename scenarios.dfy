/**
 * Client code of the queue: the usage scenarios of the repository's unit
 * tests, each written as a method whose postcondition is the outcome the
 * test expects. Sleeping is a later value of `now`; the delay is 40 ms and
 * the transient lifetime 80 ms, as in the tests.
 */
module Scenarios {
  import opened Messages
  import opened Promotion
  import opened PeakLoads
  import opened TimeDelayQueues

  const Delay: int := 40
  const Lifetime: int := 80
  const Text: string := "\"test\""

  /** A message added just now is still invisible: getNext answers NO_MSG. */
  method NothingBeforeTheDelay(id: Uuid, sender: Uuid, receiver: Uuid) returns (next: Message)
    ensures next == NoMsg
  {
    var q := new TimeDelayQueue(Delay);
    var m := NewSimpleMessage(id, 0, sender, receiver, Text);
    var added := q.Add(m, 0);
    assert q.pending == [PendingEntry(m, 0)] && q.ready == [];
    next := q.GetNext(Delay);
  }

  /**
   * After twice the delay the message added comes out, and the queue still
   * holds it until then.
   */
  method VisibleAfterTheDelay(id: Uuid, sender: Uuid, receiver: Uuid)
    returns (heldBefore: bool, next: Message, heldAfter: bool)
    ensures heldBefore && next == NewSimpleMessage(id, 0, sender, receiver, Text) && !heldAfter
  {
    var q := new TimeDelayQueue(Delay);
    var m := NewSimpleMessage(id, 0, sender, receiver, Text);
    var added := q.Add(m, 0);
    assert q.pending == [PendingEntry(m, 0)] && q.ready == [];
    heldBefore := q.GetMsg(id);
    OnePromoted(m);
    next := q.GetNext(2 * Delay);
    assert q.pending == [] && q.ready == [];
    heldAfter := q.GetMsg(id);
  }

  /**
   * A transient message and a plain one, added together: just after the
   * delay both come out in timestamp order, the first one added first on a
   * tie (with two messages the heap keeps that order too). The queue starts
   * as the two adds leave it.
   */
  method TransientInTime(q: TimeDelayQueue, m1: Message, m2: Message)
    returns (first: Message, second: Message)
    requires q.Valid() && q.delay == Delay && q.NotBefore(Delay + 2)
    requires m1.IsTransient() && m1.GetLifetime() == Lifetime && !m2.IsTransient()
    requires m1.timestamp <= m2.timestamp
    requires q.pending == [PendingEntry(m1, 0), PendingEntry(m2, 1)] && q.ready == []
    modifies q
    ensures first == m1 && second == m2
  {
    BothPromoted(m1, m2);
    first := q.GetNext(Delay + 2);
    assert q.pending == [] && q.ready == [m2];
    second := q.GetNext(Delay + 2);
  }

  /**
   * The same two messages after the transient one's lifetime: it has been
   * dropped, and the plain one comes out.
   */
  method TransientLate(q: TimeDelayQueue, m1: Message, m2: Message)
    returns (next: Message, after: Message)
    requires q.Valid() && q.delay == Delay && q.NotBefore(Lifetime + 1)
    requires m1.IsTransient() && m1.GetLifetime() == Lifetime && !m2.IsTransient()
    requires q.pending == [PendingEntry(m1, 0), PendingEntry(m2, 0)] && q.ready == []
    modifies q
    ensures next == m2 && after == NoMsg
    ensures q.discarded == old(q.discarded) + [m1]
  {
    FirstDropped(m1, m2);
    next := q.GetNext(Lifetime + 1);
    assert q.pending == [] && q.ready == [];
    after := q.GetNext(Lifetime + 1);
  }

  /** Twice the delay after its arrival a plain message is promoted. */
  lemma OnePromoted(m: Message)
    requires !m.IsTransient()
    ensures Promote([PendingEntry(m, 0)], [], Delay, 2 * Delay) == Pass([], [m], [])
  {
    assert [PendingEntry(m, 0)][1..] == [];
  }

  /** Just after the delay, neither message has expired; both are promoted in timestamp order, the first one added first on a tie. */
  lemma BothPromoted(m1: Message, m2: Message)
    requires m1.IsTransient() && m1.GetLifetime() == Lifetime && !m2.IsTransient()
    requires m1.timestamp <= m2.timestamp
    ensures Promote([PendingEntry(m1, 0), PendingEntry(m2, 1)], [], Delay, Delay + 2) == Pass([], [m1, m2], [])
  {
    var p := [PendingEntry(m1, 0), PendingEntry(m2, 1)];
    assert p[1..] == [PendingEntry(m2, 1)] && p[1..][1..] == [];
    assert Insert([m1], m2) == [m1, m2] by {
      assert [m1][1..] == [];
    }
    assert Promote(p, [], Delay, Delay + 2) == Promote(p[1..], [m1], Delay, Delay + 2);
    assert Promote(p[1..], [m1], Delay, Delay + 2) == Promote([], [m1, m2], Delay, Delay + 2);
  }

  /** After the lifetime, the transient message is dropped and the plain one promoted. */
  lemma FirstDropped(m1: Message, m2: Message)
    requires m1.IsTransient() && m1.GetLifetime() == Lifetime && !m2.IsTransient()
    ensures Promote([PendingEntry(m1, 0), PendingEntry(m2, 0)], [], Delay, Lifetime + 1) == Pass([], [m2], [m1])
  {
    var p := [PendingEntry(m1, 0), PendingEntry(m2, 0)];
    assert p[1..] == [PendingEntry(m2, 0)] && p[1..][1..] == [];
    assert Promote(p[1..], [], Delay, Lifetime + 1) == Pass([], [m2], []);
  }

  /** Adding a message equal to one held is refused and not counted. */
  method RefusedDuplicate(id: Uuid, sender: Uuid, receiver: Uuid)
    returns (first: bool, second: bool, count: int)
    ensures first && !second && count == 1
  {
    var q := new TimeDelayQueue(Delay);
    var m := NewSimpleMessage(id, 0, sender, receiver, Text);
    var copy := NewSimpleMessage(id, 5, receiver, sender, "another text");
    first := q.Add(m, 0);
    second := q.Add(copy, 5);
    count := q.GetTotalMsgCount();
  }

  /**
   * peek and then getNext at the same time return the same message: the
   * pass run by peek leaves nothing for the second pass to do.
   */
  method PeekThenGetNext(q: TimeDelayQueue, now: int) returns (peeked: Message, next: Message)
    requires q.Valid() && q.NotBefore(now)
    modifies q
    ensures peeked == next
  {
    ghost var p0, r0 := q.pending, q.ready;
    peeked := q.Peek(now);
    PromoteIdempotent(p0, r0, q.delay, now);
    next := q.GetNext(now);
  }

  /** A message handed out by getNext is no longer in the queue. */
  method DeliveredIsGone(q: TimeDelayQueue, now: int) returns (next: Message, held: bool)
    requires q.Valid() && q.NotBefore(now)
    modifies q
    ensures next != NoMsg ==> !held
  {
    next := q.GetNext(now);
    held := q.GetMsg(next.id);
  }

  /**
   * When every logged operation falls within one window, as when all the
   * adds of a burst happen within it, the peak load counts them all.
   */
  method PeakOfBurst(q: TimeDelayQueue, window: int) returns (peak: int)
    requires q.Valid() && q.operations != []
    requires q.operations[|q.operations| - 1] - q.operations[0] <= window
    ensures peak == |q.operations|
  {
    PeakLoadOfOneBurst(q.operations, window);
    peak := q.GetPeakLoad(window);
  }
}
