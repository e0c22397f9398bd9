/**
 * The state of a time-delay queue as a value, the invariant every
 * operation keeps, and one lemma per state change showing that it keeps it.
 * The queue class reads its fields into a `Snapshot` and calls these
 * lemmas, so each of its methods reasons about one step at a time.
 */
module QueueStates {
  import opened Wrappers
  import opened Messages
  import opened Identities
  import opened Promotion
  import opened PeakLoads

  /**
   * The queue's fields, real and bookkeeping:
   *  processed   the number of successful adds
   *  pending     (message, arrival time) pairs in arrival order
   *  ready       the messages whose delay has elapsed, by timestamp
   *  operations  the time of every successful add and every getNext
   *  clock       the latest wall-clock reading of any call (none before the first)
   *  arrivalOf   the arrival time of the message last added with each identifier
   *  accepted    every message added successfully, in order
   *  delivered   every message getNext returned, in order
   *  discarded   every expired transient message a promotion pass dropped, in order
   */
  datatype Snapshot = Snapshot(processed: int, pending: seq<PendingEntry>, ready: seq<Message>,
                               operations: seq<int>, clock: Option<int>, arrivalOf: map<Uuid, int>,
                               accepted: seq<Message>, delivered: seq<Message>, discarded: seq<Message>)

  /** The messages held, pending (oldest arrival first) and then ready. */
  function Held(s: Snapshot): seq<Message>
  {
    Msgs(s.pending) + s.ready
  }

  /** Each pending entry's arrival time is the one recorded for its identifier. */
  ghost predicate ArrivalsRecorded(pending: seq<PendingEntry>, arrivalOf: map<Uuid, int>)
  {
    forall i | 0 <= i < |pending| ::
      pending[i].msg.id in arrivalOf && arrivalOf[pending[i].msg.id] == pending[i].time
  }

  /** Each ready message arrived more than `delay` before `clock`. */
  ghost predicate DelayElapsed(ready: seq<Message>, arrivalOf: map<Uuid, int>, delay: int, clock: int)
  {
    forall i | 0 <= i < |ready| :: ready[i].id in arrivalOf && arrivalOf[ready[i].id] + delay < clock
  }

  /** Recorded times are no later than the latest clock reading. */
  ghost predicate ClockBounds(pending: seq<PendingEntry>, operations: seq<int>, clock: Option<int>)
  {
    && (pending != [] ==> clock.Some? && pending[|pending| - 1].time <= clock.value)
    && (operations != [] ==> clock.Some? && operations[|operations| - 1] <= clock.value)
  }

  /** As many messages were added as are held, delivered or discarded. */
  ghost predicate Counted(s: Snapshot)
  {
    |s.accepted| == |s.pending| + |s.ready| + |s.delivered| + |s.discarded|
  }

  /**
   * Every message added is held, delivered or discarded, each exactly as
   * often as it was added. Each state change keeps this (the lemmas
   * ...KeepsAccounted below); it refines Counted.
   */
  ghost predicate Accounted(s: Snapshot)
  {
    Bag(s.accepted) == Bag(Msgs(s.pending)) + Bag(s.ready) + Bag(s.delivered) + Bag(s.discarded)
  }

  /** A ready message waited out the delay before the latest clock reading. */
  ghost predicate ReadyWaited(delay: int, s: Snapshot)
  {
    s.ready != [] ==> s.clock.Some? && DelayElapsed(s.ready, s.arrivalOf, delay, s.clock.value)
  }

  /**
   * A transient ready message outlives the delay. One whose lifetime is at
   * most the delay has expired by the time its delay elapses, so a
   * promotion pass drops it instead.
   */
  ghost predicate OutlivesDelay(ready: seq<Message>, delay: int)
  {
    forall i | 0 <= i < |ready| :: ready[i].IsTransient() ==> ready[i].GetLifetime() > delay
  }

  /** The invariant of a queue with the given delay. */
  ghost predicate Consistent(delay: int, s: Snapshot)
  {
    && s.processed == |s.accepted|
    && DistinctIds(Held(s))
    && Sorted(s.ready)
    && ArrivalsSorted(s.pending)
    && NonDecreasing(s.operations)
    && ClockBounds(s.pending, s.operations, s.clock)
    && ArrivalsRecorded(s.pending, s.arrivalOf)
    && ReadyWaited(delay, s)
    && OutlivesDelay(s.ready, delay)
    && Counted(s)
  }

  /** The wall clock does not run backwards: `now` is no earlier than any earlier reading. */
  predicate ClockAllows(s: Snapshot, now: int)
  {
    s.clock.None? || s.clock.value <= now
  }

  /** A new queue. */
  function Empty(): Snapshot
  {
    Snapshot(0, [], [], [], None, map[], [], [], [])
  }

  /** A successful add at time `now`. */
  function Added(s: Snapshot, msg: Message, now: int): Snapshot
  {
    s.(processed := s.processed + 1, pending := s.pending + [PendingEntry(msg, now)],
       operations := s.operations + [now], clock := Some(now),
       arrivalOf := s.arrivalOf[msg.id := now], accepted := s.accepted + [msg])
  }

  /** A clock reading at time `now`, logged as an operation or not. */
  function Ticked(s: Snapshot, now: int, logged: bool): Snapshot
  {
    s.(clock := Some(now), operations := if logged then s.operations + [now] else s.operations)
  }

  /** The head of the pending area is dropped as an expired transient message. */
  function DiscardedHead(s: Snapshot): Snapshot
    requires s.pending != []
  {
    s.(pending := s.pending[1..], discarded := s.discarded + [s.pending[0].msg])
  }

  /** The head of the pending area moves to the ready area. */
  function PromotedHead(s: Snapshot): Snapshot
    requires s.pending != []
  {
    s.(pending := s.pending[1..], ready := Insert(s.ready, s.pending[0].msg))
  }

  /** The head of the ready area is handed out. */
  function TookHead(s: Snapshot): Snapshot
    requires s.ready != []
  {
    s.(ready := s.ready[1..], delivered := s.delivered + [s.ready[0]])
  }

  lemma EmptyIsConsistent(delay: int, t: Snapshot)
    requires t == Empty()
    ensures Consistent(delay, t)
  {
    assert Held(t) == [];
  }

  /** The pending area is its head followed by its tail, message by message. */
  lemma MsgsOfTail(p: seq<PendingEntry>)
    requires p != []
    ensures Msgs(p) == [p[0].msg] + Msgs(p[1..])
  {
  }

  /** Appending an entry to the pending area appends its message. */
  lemma {:induction false} MsgsOfAppend(p: seq<PendingEntry>, e: PendingEntry)
    ensures Msgs(p + [e]) == Msgs(p) + [e.msg]
  {
    if p != [] {
      MsgsOfAppend(p[1..], e);
      assert (p + [e])[1..] == p[1..] + [e];
    } else {
      assert p + [e] == [e];
    }
  }

  /** A successful add of a message whose identifier is not held keeps the invariant. */
  lemma AddKeepsConsistent(delay: int, s: Snapshot, msg: Message, now: int, t: Snapshot)
    requires Consistent(delay, s) && ClockAllows(s, now) && !HasId(Held(s), msg.id)
    requires t == Added(s, msg, now)
    ensures Consistent(delay, t) && HasId(Held(t), msg.id)
  {
    AddedIsHeld(s, msg, now);
    AddKeepsDistinct(s, msg, now);
    AppendKeepsArrivalsSorted(s.pending, PendingEntry(msg, now));
    AppendKeepsNonDecreasing(s.operations, now);
    ArrivalsAfterAdding(delay, s, msg, now);
  }

  lemma AddKeepsDistinct(s: Snapshot, msg: Message, now: int)
    requires DistinctIds(Held(s)) && !HasId(Held(s), msg.id)
    ensures DistinctIds(Held(Added(s, msg, now)))
  {
    MsgsOfAppend(s.pending, PendingEntry(msg, now));
    DistinctAround(Msgs(s.pending), msg, s.ready);
  }

  /** After a successful add the new message is held. */
  lemma AddedIsHeld(s: Snapshot, msg: Message, now: int)
    ensures HasId(Held(Added(s, msg, now)), msg.id)
  {
    MsgsOfAppend(s.pending, PendingEntry(msg, now));
    HasIdAppend(Msgs(s.pending) + [msg], s.ready, msg.id);
    HasIdAppend(Msgs(s.pending), [msg], msg.id);
  }

  lemma AddKeepsAccounted(s: Snapshot, msg: Message, now: int)
    requires Accounted(s)
    ensures Accounted(Added(s, msg, now))
  {
    var t := Added(s, msg, now);
    MsgsOfAppend(s.pending, PendingEntry(msg, now));
    BagSnoc(Msgs(s.pending), msg);
    BagSnoc(s.accepted, msg);
    calc {
      Bag(Msgs(t.pending)) + Bag(t.ready) + Bag(t.delivered) + Bag(t.discarded);
      (Bag(Msgs(s.pending)) + multiset{msg}) + Bag(s.ready) + Bag(s.delivered) + Bag(s.discarded);
      (Bag(Msgs(s.pending)) + Bag(s.ready) + Bag(s.delivered) + Bag(s.discarded)) + multiset{msg};
      Bag(t.accepted);
    }
  }

  /** Recording a fresh identifier's arrival keeps the other records and adds the new one. */
  lemma ArrivalsAfterAdding(delay: int, s: Snapshot, msg: Message, now: int)
    requires ArrivalsRecorded(s.pending, s.arrivalOf) && ReadyWaited(delay, s) && ClockAllows(s, now)
    requires !HasId(Held(s), msg.id)
    ensures ArrivalsRecorded(Added(s, msg, now).pending, Added(s, msg, now).arrivalOf)
    ensures ReadyWaited(delay, Added(s, msg, now))
  {
    HasIdIff(Held(s), msg.id);
    MsgsAt(s.pending);
    var t := Added(s, msg, now);
    forall i | 0 <= i < |t.pending|
      ensures t.pending[i].msg.id in t.arrivalOf && t.arrivalOf[t.pending[i].msg.id] == t.pending[i].time
    {
      if i < |s.pending| {
        assert Held(s)[i] == s.pending[i].msg;
      }
    }
    forall i | 0 <= i < |s.ready| ensures s.ready[i].id != msg.id {
      assert Held(s)[|s.pending| + i] == s.ready[i];
    }
  }

  /** Reading the clock at a time no earlier than before, logged or not, keeps the invariant. */
  lemma TickKeepsConsistent(delay: int, s: Snapshot, now: int, logged: bool, t: Snapshot)
    requires Consistent(delay, s) && ClockAllows(s, now)
    requires t == Ticked(s, now, logged)
    ensures Consistent(delay, t)
  {
    if logged {
      AppendKeepsNonDecreasing(s.operations, now);
    }
  }

  /** Dropping the head of the pending area into the discarded messages keeps the invariant. */
  lemma DiscardKeepsConsistent(delay: int, s: Snapshot, t: Snapshot)
    requires Consistent(delay, s) && s.pending != []
    requires t == DiscardedHead(s)
    ensures Consistent(delay, t)
  {
    DiscardKeepsDistinct(s);
    TailKeepsArrivals(s.pending, s.arrivalOf);
    TailKeepsClockBounds(s.pending, s.operations, s.clock);
  }

  /** Dropping the head of the pending area keeps it in arrival order, with the arrival times recorded. */
  lemma TailKeepsArrivals(p: seq<PendingEntry>, arrivalOf: map<Uuid, int>)
    requires ArrivalsSorted(p) && ArrivalsRecorded(p, arrivalOf) && p != []
    ensures ArrivalsSorted(p[1..]) && ArrivalsRecorded(p[1..], arrivalOf)
  {
  }

  /** Dropping the head of the pending area keeps its last arrival no later than the clock. */
  lemma TailKeepsClockBounds(p: seq<PendingEntry>, operations: seq<int>, clock: Option<int>)
    requires ClockBounds(p, operations, clock) && p != []
    ensures ClockBounds(p[1..], operations, clock)
  {
  }

  lemma DiscardKeepsDistinct(s: Snapshot)
    requires DistinctIds(Held(s)) && s.pending != []
    ensures DistinctIds(Held(DiscardedHead(s)))
  {
    var rest := Held(DiscardedHead(s));
    MsgsOfTail(s.pending);
    assert Held(s) == [] + [s.pending[0].msg] + rest && [] + rest == rest;
    DistinctAround([], s.pending[0].msg, rest);
  }

  lemma DiscardKeepsAccounted(s: Snapshot)
    requires Accounted(s) && s.pending != []
    ensures Accounted(DiscardedHead(s))
  {
    var t := DiscardedHead(s);
    var head := s.pending[0].msg;
    MsgsOfTail(s.pending);
    BagCons(head, Msgs(t.pending));
    BagSnoc(s.discarded, head);
    calc {
      Bag(Msgs(s.pending)) + Bag(s.ready) + Bag(s.delivered) + Bag(s.discarded);
      (multiset{head} + Bag(Msgs(t.pending))) + Bag(s.ready) + Bag(s.delivered) + Bag(s.discarded);
      Bag(Msgs(t.pending)) + Bag(t.ready) + Bag(t.delivered) + (Bag(s.discarded) + multiset{head});
      Bag(Msgs(t.pending)) + Bag(t.ready) + Bag(t.delivered) + Bag(t.discarded);
    }
  }

  /** An inserted message is either the new one or an old one. */
  lemma InsertedFrom(s: seq<Message>, m: Message, i: int)
    requires 0 <= i < |Insert(s, m)|
    ensures Insert(s, m)[i] == m || exists j | 0 <= j < |s| :: s[j] == Insert(s, m)[i]
  {
    var x := Insert(s, m)[i];
    InsertIsPermutation(s, m);
    assert x in multiset(Insert(s, m));
    assert x in multiset(s) || x == m;
  }

  /**
   * Moving the head of the pending area into the ready area, once its delay
   * has elapsed at the current clock reading, keeps the invariant.
   */
  lemma PromoteKeepsConsistent(delay: int, s: Snapshot, now: int, t: Snapshot)
    requires Consistent(delay, s) && s.pending != [] && s.clock == Some(now)
    requires Eligible(s.pending[0], delay, now) && !Expired(s.pending[0], now)
    requires t == PromotedHead(s)
    ensures Consistent(delay, t)
  {
    PromoteKeepsDistinct(s);
    PromoteKeepsWaited(delay, s, now);
    PromoteKeepsOutliving(delay, s.ready, s.pending[0], now);
    InsertKeepsSorted(s.ready, s.pending[0].msg);
    TailKeepsArrivals(s.pending, s.arrivalOf);
    TailKeepsClockBounds(s.pending, s.operations, s.clock);
  }

  lemma PromoteKeepsDistinct(s: Snapshot)
    requires DistinctIds(Held(s)) && s.pending != []
    ensures DistinctIds(Held(PromotedHead(s)))
  {
    MsgsOfTail(s.pending);
    assert Held(s) == [s.pending[0].msg] + Msgs(s.pending[1..]) + s.ready;
    MoveKeepsDistinct(s.pending[0].msg, Msgs(s.pending[1..]), s.ready);
  }

  /** Moving the first of the held messages into the ready part keeps the identifiers distinct. */
  lemma MoveKeepsDistinct(head: Message, others: seq<Message>, r: seq<Message>)
    requires DistinctIds([head] + others + r)
    ensures DistinctIds(others + Insert(r, head))
  {
    var k := InsertPosition(r, head);
    InsertAtPosition(r, head);
    SplitRegroups(others, r, head, k);
    DistinctMove(head, others, r[..k], r[k..]);
  }

  /** Splitting the ready part at position k, and putting a message between the two halves. */
  lemma SplitRegroups(others: seq<Message>, r: seq<Message>, head: Message, k: nat)
    requires k <= |r|
    ensures r[..k] + r[k..] == r
    ensures others + (r[..k] + [head] + r[k..]) == others + r[..k] + [head] + r[k..]
  {
    var b, c := r[..k], r[k..];
    AppendAssociates(b, [head], c);
    AppendAssociates(others, b + [head], c);
    AppendAssociates(others, b, [head]);
  }

  lemma AppendAssociates(a: seq<Message>, b: seq<Message>, c: seq<Message>)
    ensures (a + b) + c == a + (b + c)
  {
  }

  lemma PromoteKeepsAccounted(s: Snapshot)
    requires Accounted(s) && s.pending != []
    ensures Accounted(PromotedHead(s))
  {
    var t := PromotedHead(s);
    var head := s.pending[0].msg;
    MsgsOfTail(s.pending);
    BagCons(head, Msgs(t.pending));
    BagInsert(s.ready, head);
    calc {
      Bag(Msgs(s.pending)) + Bag(s.ready) + Bag(s.delivered) + Bag(s.discarded);
      (multiset{head} + Bag(Msgs(t.pending))) + Bag(s.ready) + Bag(s.delivered) + Bag(s.discarded);
      Bag(Msgs(t.pending)) + (Bag(s.ready) + multiset{head}) + Bag(s.delivered) + Bag(s.discarded);
      Bag(Msgs(t.pending)) + Bag(t.ready) + Bag(t.delivered) + Bag(t.discarded);
    }
  }

  lemma PromoteKeepsWaited(delay: int, s: Snapshot, now: int)
    requires ReadyWaited(delay, s) && ArrivalsRecorded(s.pending, s.arrivalOf)
    requires s.pending != [] && s.clock == Some(now) && Eligible(s.pending[0], delay, now)
    ensures ReadyWaited(delay, PromotedHead(s))
  {
    var t := PromotedHead(s);
    forall i | 0 <= i < |t.ready| ensures t.ready[i].id in t.arrivalOf && t.arrivalOf[t.ready[i].id] + delay < now {
      InsertedFrom(s.ready, s.pending[0].msg, i);
    }
  }

  /**
   * An entry promoted once its delay has elapsed and before its lifetime
   * has run out outlives the delay, so the ready area still does.
   */
  lemma PromoteKeepsOutliving(delay: int, ready: seq<Message>, e: PendingEntry, now: int)
    requires OutlivesDelay(ready, delay)
    requires Eligible(e, delay, now) && !Expired(e, now)
    ensures OutlivesDelay(Insert(ready, e.msg), delay)
  {
    forall i | 0 <= i < |Insert(ready, e.msg)|
      ensures Insert(ready, e.msg)[i].IsTransient() ==> Insert(ready, e.msg)[i].GetLifetime() > delay
    {
      InsertedFrom(ready, e.msg, i);
    }
  }

  /** Handing out the head of the ready area keeps the invariant. */
  lemma TakeKeepsConsistent(delay: int, s: Snapshot, t: Snapshot)
    requires Consistent(delay, s) && s.ready != []
    requires t == TookHead(s)
    ensures Consistent(delay, t)
  {
    TakeKeepsDistinct(s);
    TailKeepsSorted(s.ready);
    TailKeepsWaited(delay, s);
  }

  /**
   * With distinct identifiers, the message handed out is no longer held
   * once it has left the ready area.
   */
  lemma TakenIsNotHeld(s: Snapshot, t: Snapshot)
    requires DistinctIds(Held(s)) && s.ready != []
    requires t == TookHead(s)
    ensures !HasId(Held(t), s.ready[0].id)
  {
    assert Held(s) == Msgs(s.pending) + [s.ready[0]] + s.ready[1..];
    DistinctAround(Msgs(s.pending), s.ready[0], s.ready[1..]);
  }

  lemma TakeKeepsDistinct(s: Snapshot)
    requires DistinctIds(Held(s)) && s.ready != []
    ensures DistinctIds(Held(TookHead(s)))
  {
    assert Held(s) == Msgs(s.pending) + [s.ready[0]] + s.ready[1..];
    DistinctAround(Msgs(s.pending), s.ready[0], s.ready[1..]);
  }

  lemma TakeKeepsAccounted(s: Snapshot)
    requires Accounted(s) && s.ready != []
    ensures Accounted(TookHead(s))
  {
    var t := TookHead(s);
    var head := s.ready[0];
    assert s.ready == [head] + t.ready;
    BagCons(head, t.ready);
    BagSnoc(s.delivered, head);
    calc {
      Bag(Msgs(s.pending)) + Bag(s.ready) + Bag(s.delivered) + Bag(s.discarded);
      Bag(Msgs(s.pending)) + (multiset{head} + Bag(t.ready)) + Bag(s.delivered) + Bag(s.discarded);
      Bag(Msgs(t.pending)) + Bag(t.ready) + (Bag(s.delivered) + multiset{head}) + Bag(t.discarded);
      Bag(Msgs(t.pending)) + Bag(t.ready) + Bag(t.delivered) + Bag(t.discarded);
    }
  }

  /** The rest of a sorted sequence is sorted. */
  lemma TailKeepsSorted(r: seq<Message>)
    requires Sorted(r) && r != []
    ensures Sorted(r[1..])
  {
  }

  lemma TailKeepsWaited(delay: int, s: Snapshot)
    requires ReadyWaited(delay, s) && s.ready != []
    ensures ReadyWaited(delay, TookHead(s))
  {
  }
}
