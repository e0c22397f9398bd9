/**
 * TimeDelayQueue: a buffer that keeps each added message invisible for a
 * fixed delay, then hands messages out in the order of their own
 * timestamps, dropping transient messages whose lifetime has run out, and
 * logs the time of every add and getNext for the peak-load query.
 *
 * The wall clock is the `now` argument of each call that reads it.
 */
module TimeDelayQueues {
  import opened Wrappers
  import opened Messages
  import opened Identities
  import opened Promotion
  import opened PeakLoads
  import opened QueueStates

  class TimeDelayQueue {
    /** millisecondDelay: how long an added message stays pending. */
    const delay: int
    /** msgProcessed: the number of successful adds. */
    var processed: int
    /** delayQueue: (message, arrival time) pairs in arrival order. */
    var pending: seq<PendingEntry>
    /** processQueue: the messages whose delay has elapsed, by timestamp. */
    var ready: seq<Message>
    /** operations: the time of every successful add and of every getNext. */
    var operations: seq<int>

    /** The latest wall-clock reading of any call so far (none before the first). */
    ghost var clock: Option<int>
    /** The arrival time of the message with each identifier most recently added. */
    ghost var arrivalOf: map<Uuid, int>
    /** Every message added successfully, in order. */
    ghost var accepted: seq<Message>
    /** Every message returned by getNext, in order. */
    ghost var delivered: seq<Message>
    /** Every expired transient message dropped by a promotion pass, in order. */
    ghost var discarded: seq<Message>

    /** The fields as a value. */
    ghost function State(): Snapshot
      reads this
    {
      Snapshot(processed, pending, ready, operations, clock, arrivalOf, accepted, delivered, discarded)
    }

    /** A message with this identifier is held, pending or ready. */
    ghost predicate Holds(id: Uuid)
      reads this
    {
      HasId(Held(State()), id)
    }

    /** The wall clock does not run backwards: `now` is no earlier than any earlier reading. */
    ghost predicate NotBefore(now: int)
      reads this
    {
      ClockAllows(State(), now)
    }

    ghost predicate Valid()
      reads this
    {
      Consistent(delay, State())
    }

    /** The constructor; the delay is stored as given, without a check of its sign. */
    constructor (delay: int)
      ensures Valid() && this.delay == delay
      ensures processed == 0 && pending == [] && ready == [] && operations == []
      ensures clock == None && arrivalOf == map[] && accepted == [] && delivered == [] && discarded == []
    {
      this.delay, processed, pending, ready, operations := delay, 0, [], [], [];
      clock, arrivalOf, accepted, delivered, discarded := None, map[], [], [], [];
      new;
      EmptyIsConsistent(delay, State());
    }

    /** getMsg: whether a message with this identifier is held, pending or ready. */
    function GetMsg(msgId: Uuid): (found: bool)
      reads this
      ensures found <==> Holds(msgId)
    {
      HasIdAppend(Msgs(pending), ready, msgId);
      HasIdIff(Msgs(pending), msgId);
      MsgsAt(pending);
      HasIdIff(ready, msgId);
      (exists i | 0 <= i < |pending| :: pending[i].msg.GetId() == msgId)
      || (exists i | 0 <= i < |ready| :: ready[i].GetId() == msgId)
    }

    /** inQueue: whether a message equal to `msg` is held, pending or ready. */
    function InQueue(msg: Message): (found: bool)
      reads this
      ensures found <==> Holds(msg.id)
      ensures found == GetMsg(msg.id)
    {
      HasIdAppend(Msgs(pending), ready, msg.id);
      HasIdIff(Msgs(pending), msg.id);
      MsgsAt(pending);
      HasIdIff(ready, msg.id);
      (exists i | 0 <= i < |pending| :: pending[i].msg.Equals(AMessage(msg)))
      || (exists i | 0 <= i < |ready| :: msg.Equals(AMessage(ready[i])))
    }

    /**
     * add: refuse a message whose identifier is already held; otherwise
     * append it with its arrival time to the pending area, log the time and
     * count it.
     */
    method Add(msg: Message, now: int) returns (added: bool)
      requires Valid() && NotBefore(now)
      modifies this
      ensures Valid() && NotBefore(now)
      ensures clock == if added then Some(now) else old(clock)
      ensures added == !old(GetMsg(msg.id))
      ensures added ==> && pending == old(pending) + [PendingEntry(msg, now)]
                        && operations == old(operations) + [now]
                        && processed == old(processed) + 1
                        && accepted == old(accepted) + [msg]
                        && arrivalOf == old(arrivalOf)[msg.id := now]
      ensures !added ==> && pending == old(pending) && operations == old(operations)
                         && processed == old(processed) && accepted == old(accepted)
                         && arrivalOf == old(arrivalOf)
      ensures ready == old(ready) && delivered == old(delivered) && discarded == old(discarded)
      ensures GetMsg(msg.id)
    {
      if InQueue(msg) {
        added := false;
        return;
      }
      ghost var before := State();
      pending, operations, processed := pending + [PendingEntry(msg, now)], operations + [now], processed + 1;
      arrivalOf, accepted, clock := arrivalOf[msg.id := now], accepted + [msg], Some(now);
      AddKeepsConsistent(delay, before, msg, now, State());
      added := true;
    }

    /** getTotalMsgCount: the number of successful adds since construction. */
    function GetTotalMsgCount(): (count: int)
      reads this
      requires Valid()
      ensures count == |accepted|
    {
      processed
    }

    /**
     * updateQueues: the promotion pass, run at wall-clock time `now`. Every
     * entry whose delay has elapsed that is not left pending has been moved
     * to the ready area or, if an expired transient, discarded.
     */
    method UpdateQueues(now: int)
      requires Valid() && NotBefore(now)
      modifies this
      ensures Valid() && clock == Some(now)
      ensures var pass := Promote(old(pending), old(ready), delay, now);
              && pending == pass.pending && ready == pass.ready
              && discarded == old(discarded) + pass.discarded
      ensures forall i | 0 <= i < |pending| :: !Eligible(pending[i], delay, now)
      ensures operations == old(operations) && processed == old(processed)
      ensures accepted == old(accepted) && delivered == old(delivered) && arrivalOf == old(arrivalOf)
    {
      ghost var before := State();
      clock := Some(now);
      TickKeepsConsistent(delay, before, now, false, State());
      ghost var target := Resume(pending, ready, discarded, delay, now);
      while pending != [] && Eligible(pending[0], delay, now)
        invariant Valid() && clock == Some(now)
        invariant Resume(pending, ready, discarded, delay, now) == target
        invariant operations == old(operations) && processed == old(processed)
        invariant accepted == old(accepted) && delivered == old(delivered) && arrivalOf == old(arrivalOf)
        decreases |pending|
      {
        if Expired(pending[0], now) {
          ResumeAfterDiscarding(pending, ready, discarded, delay, now);
        } else {
          ResumeAfterPromoting(pending, ready, discarded, delay, now);
        }
        AdvanceHead(now);
      }
      ResumeAtEnd(pending, ready, discarded, delay, now);
      if pending != [] {
        ArrivalsBounds(pending);
      }
    }

    /**
     * One round of the promotion loop: the head of the pending area, whose
     * delay has elapsed, is dropped if it is an expired transient message
     * and otherwise moved into the ready area.
     */
    method AdvanceHead(now: int)
      requires Valid() && clock == Some(now)
      requires pending != [] && Eligible(pending[0], delay, now)
      modifies this
      ensures Valid() && clock == Some(now)
      ensures var head := old(pending)[0];
              && pending == old(pending)[1..]
              && (Expired(head, now) ==> ready == old(ready) && discarded == old(discarded) + [head.msg])
              && (!Expired(head, now) ==> ready == Insert(old(ready), head.msg) && discarded == old(discarded))
      ensures operations == old(operations) && processed == old(processed)
      ensures accepted == old(accepted) && delivered == old(delivered) && arrivalOf == old(arrivalOf)
    {
      var curr := pending[0];
      ghost var step := State();
      if curr.msg.IsTransient() {
        if now > curr.time + curr.msg.GetLifetime() {
          pending, discarded := pending[1..], discarded + [curr.msg];
          DiscardKeepsConsistent(delay, step, State());
          return;
        }
      }
      ready, pending := Insert(ready, curr.msg), pending[1..];
      PromoteKeepsConsistent(delay, step, now, State());
    }

    /**
     * getNext: log the time, run the promotion pass, then remove and return
     * a ready message of minimal timestamp, or NO_MSG when none is ready.
     */
    method GetNext(now: int) returns (next: Message)
      requires Valid() && NotBefore(now)
      modifies this
      ensures Valid() && clock == Some(now)
      ensures operations == old(operations) + [now] && processed == old(processed)
      ensures accepted == old(accepted) && arrivalOf == old(arrivalOf)
      ensures var pass := Promote(old(pending), old(ready), delay, now);
              && pending == pass.pending
              && discarded == old(discarded) + pass.discarded
              && (pass.ready == [] ==> next == NoMsg && ready == [] && delivered == old(delivered))
              && (pass.ready != [] ==> && next == pass.ready[0] && ready == pass.ready[1..]
                                       && delivered == old(delivered) + [next])
              && (pass.ready != [] ==> !GetMsg(next.id))
              && (pass.ready != [] ==> forall m | m in pass.ready :: next.timestamp <= m.timestamp)
              && (pass.ready != [] ==> next.id in arrivalOf && arrivalOf[next.id] + delay < now)
      ensures next.IsTransient() ==> next.GetLifetime() > delay
    {
      ghost var before := State();
      clock, operations := Some(now), operations + [now];
      TickKeepsConsistent(delay, before, now, true, State());
      UpdateQueues(now);
      if ready == [] {
        next := NoMsg;
      } else {
        HeadIsMinimal(ready);
        next := ready[0];
        ghost var promoted := State();
        ready, delivered := ready[1..], delivered + [next];
        TakeKeepsConsistent(delay, promoted, State());
        TakenIsNotHeld(promoted, State());
      }
    }

    /**
     * peek: run the promotion pass, then return without removing a ready
     * message of minimal timestamp, or NO_MSG when none is ready. The log is
     * not touched.
     */
    method Peek(now: int) returns (next: Message)
      requires Valid() && NotBefore(now)
      modifies this
      ensures Valid() && clock == Some(now)
      ensures operations == old(operations) && processed == old(processed)
      ensures accepted == old(accepted) && delivered == old(delivered) && arrivalOf == old(arrivalOf)
      ensures var pass := Promote(old(pending), old(ready), delay, now);
              && pending == pass.pending && ready == pass.ready
              && discarded == old(discarded) + pass.discarded
              && (ready == [] ==> next == NoMsg)
              && (ready != [] ==> next == ready[0] && forall m | m in ready :: next.timestamp <= m.timestamp)
              && (ready != [] ==> next.id in arrivalOf && arrivalOf[next.id] + delay < now)
      ensures next.IsTransient() ==> next.GetLifetime() > delay
    {
      UpdateQueues(now);
      if ready == [] {
        next := NoMsg;
      } else {
        HeadIsMinimal(ready);
        next := ready[0];
      }
    }

    /**
     * getPeakLoad: for each logged time but the last, count it and the run of
     * consecutive later entries at most `timeWindow` after it; the result is
     * the largest such count, and 1 when there is none.
     */
    method GetPeakLoad(timeWindow: int) returns (maxOperations: int)
      ensures maxOperations == PeakLoad(operations, timeWindow)
    {
      var log := operations;
      maxOperations := 1;
      var i := 0;
      while i < |log| - 1
        invariant 0 <= i <= Max(|log| - 1, 0)
        invariant maxOperations == MaxLoad(log, timeWindow, i)
      {
        var currentOperations := 1;
        var startTime := log[i];
        var j := i;
        var nextEndTime := log[j + 1];
        while j + 1 < |log| && nextEndTime - startTime <= timeWindow
          invariant i <= j < |log|
          invariant j + 1 < |log| ==> nextEndTime == log[j + 1]
          invariant currentOperations - 1 + RunFrom(log, startTime, j + 1, timeWindow)
                    == Run(log, i, timeWindow)
          decreases |log| - j
        {
          j := j + 1;
          currentOperations := currentOperations + 1;
          if j == |log| - 1 {
            assert currentOperations - 1 + RunFrom(log, startTime, j + 1, timeWindow) == Run(log, i, timeWindow);
            break;
          }
          nextEndTime := log[j + 1];
        }
        assert currentOperations == 1 + Run(log, i, timeWindow);
        assert MaxLoad(log, timeWindow, i + 1) == Max(maxOperations, currentOperations);
        maxOperations := Max(currentOperations, maxOperations);
        i := i + 1;
      }
    }
  }
}
