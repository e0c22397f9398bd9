/**
 * The pure specification of the two areas of a time-delay queue and of the
 * promotion pass that moves entries from one to the other.
 *
 * The pending area is a FIFO of (message, arrival time) pairs. The ready
 * area stands for the priority queue ordered by the messages' own
 * timestamps; it is modelled as a sequence kept in timestamp order, where a
 * new message goes after those with an equal timestamp. Its head carries a
 * minimal timestamp, as the heap's does; among equal timestamps the
 * sequence hands messages out first-in-first-out, an order the heap does
 * not keep.
 */
module Promotion {
  import opened Messages
  import opened Identities

  /** msgTimeInfo: a message and the time at which it entered the queue. */
  datatype PendingEntry = PendingEntry(msg: Message, time: int)

  /** The outcome of one promotion pass. */
  datatype Pass = Pass(pending: seq<PendingEntry>, ready: seq<Message>, discarded: seq<Message>)

  /** PubSubMessageComparator: the sign of the comparison of the two timestamps. */
  function CompareByTimestamp(a: Message, b: Message): (c: int)
    ensures c == -1 || c == 0 || c == 1
    ensures c < 0 <==> a.timestamp < b.timestamp
    ensures c > 0 <==> b.timestamp < a.timestamp
  {
    if a.timestamp < b.timestamp then -1
    else if a.timestamp == b.timestamp then 0
    else 1
  }

  /** The comparator is a total preorder: antisymmetric in sign and transitive. */
  lemma CompareIsTotalPreorder(a: Message, b: Message, c: Message)
    ensures CompareByTimestamp(a, b) == -CompareByTimestamp(b, a)
    ensures CompareByTimestamp(a, b) <= 0 || CompareByTimestamp(b, a) <= 0
    ensures CompareByTimestamp(a, b) <= 0 && CompareByTimestamp(b, c) <= 0 ==> CompareByTimestamp(a, c) <= 0
  {
  }

  /** Delivery order: each message's timestamp is no later than the next one's. */
  ghost predicate Sorted(s: seq<Message>)
  {
    |s| < 2 || (s[0].timestamp <= s[1].timestamp && Sorted(s[1..]))
  }

  /** Arrival order: each entry arrived no later than the next one. */
  ghost predicate ArrivalsSorted(p: seq<PendingEntry>)
  {
    |p| < 2 || (p[0].time <= p[1].time && ArrivalsSorted(p[1..]))
  }

  /** In arrival order, the first entry is the earliest and the last the latest. */
  lemma {:induction false} ArrivalsBounds(p: seq<PendingEntry>)
    requires ArrivalsSorted(p) && p != []
    ensures forall i | 0 <= i < |p| :: p[0].time <= p[i].time <= p[|p| - 1].time
  {
    if |p| >= 2 {
      ArrivalsBounds(p[1..]);
      forall i | 0 <= i < |p| ensures p[0].time <= p[i].time <= p[|p| - 1].time {
        if i > 0 { assert p[i] == p[1..][i - 1]; }
        assert p[|p| - 1] == p[1..][|p| - 2];
      }
    }
  }

  /** Appending an entry that arrived no earlier than the last keeps arrival order. */
  lemma {:induction false} AppendKeepsArrivalsSorted(p: seq<PendingEntry>, e: PendingEntry)
    requires ArrivalsSorted(p) && (p != [] ==> p[|p| - 1].time <= e.time)
    ensures ArrivalsSorted(p + [e])
  {
    if |p| >= 2 {
      AppendKeepsArrivalsSorted(p[1..], e);
      assert (p + [e])[1..] == p[1..] + [e];
    }
  }

  /**
   * processQueue.add: put a message into the ready area, after every message
   * the comparator does not place after it.
   */
  function Insert(s: seq<Message>, m: Message): (r: seq<Message>)
    ensures |r| == |s| + 1
  {
    if s == [] || CompareByTimestamp(m, s[0]) < 0 then [m] + s
    else [s[0]] + Insert(s[1..], m)
  }

  /**
   * Where Insert puts the message: after the longest prefix of messages
   * whose timestamps are no later than its own.
   */
  function InsertPosition(s: seq<Message>, m: Message): (k: nat)
    ensures k <= |s|
    ensures forall j | 0 <= j < k :: s[j].timestamp <= m.timestamp
    ensures k < |s| ==> m.timestamp < s[k].timestamp
  {
    if s == [] || CompareByTimestamp(m, s[0]) < 0 then 0
    else
      var k := InsertPosition(s[1..], m);
      assert forall j | 1 <= j < k + 1 :: s[j] == s[1..][j - 1];
      k + 1
  }

  /** Insert puts the message at InsertPosition and leaves the rest in order around it. */
  lemma {:induction false} InsertAtPosition(s: seq<Message>, m: Message)
    ensures var k := InsertPosition(s, m);
            Insert(s, m) == s[..k] + [m] + s[k..]
  {
    if s != [] && CompareByTimestamp(m, s[0]) >= 0 {
      var k := InsertPosition(s[1..], m);
      InsertAtPosition(s[1..], m);
      assert s[..k + 1] == [s[0]] + s[1..][..k];
      assert s[k + 1..] == s[1..][k..];
    }
  }

  /** After an insertion an identifier is held exactly when it was held before or is the new message's. */
  lemma HasIdInsert(s: seq<Message>, m: Message, id: Uuid)
    ensures HasId(Insert(s, m), id) <==> HasId(s, id) || m.id == id
  {
    var k := InsertPosition(s, m);
    InsertAtPosition(s, m);
    assert s[..k] + s[k..] == s;
    HasIdAppend(s[..k] + [m], s[k..], id);
    HasIdAppend(s[..k], [m], id);
    HasIdAppend(s[..k], s[k..], id);
  }

  /** Inserting adds exactly the new message: the result is a permutation of the old area plus it. */
  lemma {:induction false} InsertIsPermutation(s: seq<Message>, m: Message)
    ensures multiset(Insert(s, m)) == multiset(s) + multiset{m}
  {
    if s != [] && CompareByTimestamp(m, s[0]) >= 0 {
      InsertIsPermutation(s[1..], m);
      assert s == [s[0]] + s[1..];
    }
  }

  /** Inserting into a ready area in delivery order keeps it in delivery order. */
  lemma {:induction false} InsertKeepsSorted(s: seq<Message>, m: Message)
    requires Sorted(s)
    ensures Sorted(Insert(s, m))
  {
    if s == [] || CompareByTimestamp(m, s[0]) < 0 {
      assert ([m] + s)[1..] == s;
    } else {
      var rest := Insert(s[1..], m);
      InsertKeepsSorted(s[1..], m);
      assert ([s[0]] + rest)[1..] == rest;
    }
  }

  /** The head of a sorted, non-empty ready area has a minimal timestamp. */
  lemma {:induction false} HeadIsMinimal(s: seq<Message>)
    requires Sorted(s) && s != []
    ensures forall m | m in s :: s[0].timestamp <= m.timestamp
  {
    if |s| >= 2 {
      HeadIsMinimal(s[1..]);
      forall m | m in s ensures s[0].timestamp <= m.timestamp {
        if m != s[0] { assert m in s[1..]; }
      }
    }
  }

  /** The messages of the pending entries, in order. */
  function Msgs(p: seq<PendingEntry>): (r: seq<Message>)
    ensures |r| == |p|
  {
    if p == [] then [] else [p[0].msg] + Msgs(p[1..])
  }

  /** Position i of the messages is the message of entry i. */
  lemma {:induction false} MsgsAt(p: seq<PendingEntry>)
    ensures forall i | 0 <= i < |p| :: Msgs(p)[i] == p[i].msg
  {
    if p != [] {
      MsgsAt(p[1..]);
      forall i | 0 <= i < |p| ensures Msgs(p)[i] == p[i].msg {
        if i > 0 { assert p[i] == p[1..][i - 1]; }
      }
    }
  }

  /**
   * The messages of a sequence, counted with multiplicity: `multiset(s)`
   * (BagIsMultiset), written out element by element.
   */
  function Bag(s: seq<Message>): multiset<Message>
  {
    if s == [] then multiset{} else multiset{s[0]} + Bag(s[1..])
  }

  lemma {:induction false} BagIsMultiset(s: seq<Message>)
    ensures Bag(s) == multiset(s)
  {
    if s != [] {
      BagIsMultiset(s[1..]);
      assert s == [s[0]] + s[1..];
    }
  }

  /** Putting a message in front adds exactly that message. */
  lemma BagCons(m: Message, s: seq<Message>)
    ensures Bag([m] + s) == multiset{m} + Bag(s)
  {
    assert ([m] + s)[1..] == s;
  }

  /** Putting a message at the back adds exactly that message. */
  lemma BagSnoc(s: seq<Message>, m: Message)
    ensures Bag(s + [m]) == Bag(s) + multiset{m}
  {
    BagIsMultiset(s + [m]);
    BagIsMultiset(s);
  }

  /** Inserting a message into the ready area adds exactly that message. */
  lemma BagInsert(s: seq<Message>, m: Message)
    ensures Bag(Insert(s, m)) == Bag(s) + multiset{m}
  {
    BagIsMultiset(s);
    BagIsMultiset(Insert(s, m));
    InsertIsPermutation(s, m);
  }

  /** An entry whose delay has elapsed: arrival + delay lies strictly before now. */
  predicate Eligible(e: PendingEntry, delay: int, now: int)
  {
    e.time + delay < now
  }

  /** A transient entry whose lifetime, counted from its arrival, has run out. */
  predicate Expired(e: PendingEntry, now: int)
  {
    e.msg.IsTransient() && now > e.time + e.msg.GetLifetime()
  }

  /** The length of the longest prefix of the pending area whose delay has elapsed. */
  function EligiblePrefix(p: seq<PendingEntry>, delay: int, now: int): (k: nat)
    ensures k <= |p|
    ensures forall j | 0 <= j < k :: Eligible(p[j], delay, now)
    ensures k < |p| ==> !Eligible(p[k], delay, now)
  {
    if p == [] || !Eligible(p[0], delay, now) then 0
    else 1 + EligiblePrefix(p[1..], delay, now)
  }

  /** The messages of the entries that are not expired at `now`, in order. */
  function LiveMsgs(p: seq<PendingEntry>, now: int): seq<Message>
  {
    if p == [] then []
    else if Expired(p[0], now) then LiveMsgs(p[1..], now)
    else [p[0].msg] + LiveMsgs(p[1..], now)
  }

  /** The messages of the entries that are expired at `now`, in order. */
  function ExpiredMsgs(p: seq<PendingEntry>, now: int): seq<Message>
  {
    if p == [] then []
    else if Expired(p[0], now) then [p[0].msg] + ExpiredMsgs(p[1..], now)
    else ExpiredMsgs(p[1..], now)
  }

  /**
   * updateQueues: while the oldest pending entry is eligible, drop it if it
   * is an expired transient message and otherwise move its message into the
   * ready area; stop at the first entry that is not eligible.
   */
  function Promote(pending: seq<PendingEntry>, ready: seq<Message>, delay: int, now: int): Pass
  {
    if pending == [] || !Eligible(pending[0], delay, now) then Pass(pending, ready, [])
    else if Expired(pending[0], now) then
      var rest := Promote(pending[1..], ready, delay, now);
      rest.(discarded := [pending[0].msg] + rest.discarded)
    else
      Promote(pending[1..], Insert(ready, pending[0].msg), delay, now)
  }

  /**
   * The pass removes exactly the eligible prefix of the pending area: what
   * remains is the suffix that starts at the first entry whose delay has
   * not elapsed, unchanged.
   */
  lemma {:induction false} PromoteRemovesEligiblePrefix(pending: seq<PendingEntry>, ready: seq<Message>,
                                                       delay: int, now: int)
    ensures Promote(pending, ready, delay, now).pending == pending[EligiblePrefix(pending, delay, now)..]
  {
    if pending != [] && Eligible(pending[0], delay, now) {
      var next := if Expired(pending[0], now) then ready else Insert(ready, pending[0].msg);
      PromoteRemovesEligiblePrefix(pending[1..], next, delay, now);
      assert pending[1..][EligiblePrefix(pending[1..], delay, now)..] == pending[EligiblePrefix(pending, delay, now)..];
    }
  }

  /**
   * Of the eligible prefix, the expired transient messages are discarded and
   * every other message is moved into the ready area.
   */
  lemma {:induction false} PromoteSplitsPrefix(pending: seq<PendingEntry>, ready: seq<Message>,
                                              delay: int, now: int)
    ensures var k := EligiblePrefix(pending, delay, now);
            var pass := Promote(pending, ready, delay, now);
            && pass.discarded == ExpiredMsgs(pending[..k], now)
            && multiset(pass.ready) == multiset(ready) + multiset(LiveMsgs(pending[..k], now))
  {
    var k := EligiblePrefix(pending, delay, now);
    if pending == [] || !Eligible(pending[0], delay, now) {
      assert pending[..k] == [];
    } else {
      var next := if Expired(pending[0], now) then ready else Insert(ready, pending[0].msg);
      PromoteSplitsPrefix(pending[1..], next, delay, now);
      if !Expired(pending[0], now) { InsertIsPermutation(ready, pending[0].msg); }
      assert pending[..k][1..] == pending[1..][..k - 1];
      assert pending[..k][0] == pending[0];
    }
  }

  /** A pass keeps the ready area in delivery order. */
  lemma {:induction false} PromoteKeepsReadySorted(pending: seq<PendingEntry>, ready: seq<Message>,
                                                  delay: int, now: int)
    requires Sorted(ready)
    ensures Sorted(Promote(pending, ready, delay, now).ready)
  {
    if pending != [] && Eligible(pending[0], delay, now) {
      var next := if Expired(pending[0], now) then ready else Insert(ready, pending[0].msg);
      if !Expired(pending[0], now) { InsertKeepsSorted(ready, pending[0].msg); }
      PromoteKeepsReadySorted(pending[1..], next, delay, now);
    }
  }

  /**
   * A pass resumed part-way: `discarded` holds what the steps so far have
   * dropped, and the rest of the pass runs from `pending` and `ready`.
   */
  function Resume(pending: seq<PendingEntry>, ready: seq<Message>, discarded: seq<Message>,
                  delay: int, now: int): Pass
  {
    var pass := Promote(pending, ready, delay, now);
    pass.(discarded := discarded + pass.discarded)
  }

  /** Dropping an eligible, expired head is one step of the pass. */
  lemma ResumeAfterDiscarding(pending: seq<PendingEntry>, ready: seq<Message>, discarded: seq<Message>,
                              delay: int, now: int)
    requires pending != [] && Eligible(pending[0], delay, now) && Expired(pending[0], now)
    ensures Resume(pending, ready, discarded, delay, now)
         == Resume(pending[1..], ready, discarded + [pending[0].msg], delay, now)
  {
    var rest := Promote(pending[1..], ready, delay, now).discarded;
    assert discarded + ([pending[0].msg] + rest) == (discarded + [pending[0].msg]) + rest;
  }

  /** Moving an eligible head that is not expired into the ready area is one step of the pass. */
  lemma ResumeAfterPromoting(pending: seq<PendingEntry>, ready: seq<Message>, discarded: seq<Message>,
                             delay: int, now: int)
    requires pending != [] && Eligible(pending[0], delay, now) && !Expired(pending[0], now)
    ensures Resume(pending, ready, discarded, delay, now)
         == Resume(pending[1..], Insert(ready, pending[0].msg), discarded, delay, now)
  {
  }

  /** The pass ends at an empty pending area or an ineligible head. */
  lemma ResumeAtEnd(pending: seq<PendingEntry>, ready: seq<Message>, discarded: seq<Message>,
                    delay: int, now: int)
    requires pending == [] || !Eligible(pending[0], delay, now)
    ensures Resume(pending, ready, discarded, delay, now) == Pass(pending, ready, discarded)
  {
    assert discarded + [] == discarded;
  }

  /**
   * A second pass at the same instant changes nothing, so peek and getNext
   * issued at one instant see the same ready area.
   */
  lemma PromoteIdempotent(pending: seq<PendingEntry>, ready: seq<Message>, delay: int, now: int)
    ensures var pass := Promote(pending, ready, delay, now);
            Promote(pass.pending, pass.ready, delay, now) == Pass(pass.pending, pass.ready, [])
  {
    PromoteRemovesEligiblePrefix(pending, ready, delay, now);
  }

  /** Nothing is lost in a pass: every message stays pending, becomes ready, or is discarded. */
  lemma {:induction false} PromoteConservesMessages(pending: seq<PendingEntry>, ready: seq<Message>,
                                                   delay: int, now: int)
    ensures var pass := Promote(pending, ready, delay, now);
            multiset(Msgs(pass.pending)) + multiset(pass.ready) + multiset(pass.discarded)
              == multiset(Msgs(pending)) + multiset(ready)
  {
    if pending != [] && Eligible(pending[0], delay, now) {
      var e := pending[0];
      var pass := Promote(pending, ready, delay, now);
      var before := multiset(Msgs(pending[1..])) + multiset(ready);
      assert Msgs(pending) == [e.msg] + Msgs(pending[1..]);
      assert multiset(Msgs(pending)) + multiset(ready) == before + multiset{e.msg};
      if Expired(e, now) {
        var rest := Promote(pending[1..], ready, delay, now);
        PromoteConservesMessages(pending[1..], ready, delay, now);
        assert multiset(pass.discarded) == multiset(rest.discarded) + multiset{e.msg};
        calc {
          multiset(Msgs(pass.pending)) + multiset(pass.ready) + multiset(pass.discarded);
          (multiset(Msgs(rest.pending)) + multiset(rest.ready) + multiset(rest.discarded)) + multiset{e.msg};
          before + multiset{e.msg};
        }
      } else {
        PromoteConservesMessages(pending[1..], Insert(ready, e.msg), delay, now);
        InsertIsPermutation(ready, e.msg);
        calc {
          multiset(Msgs(pass.pending)) + multiset(pass.ready) + multiset(pass.discarded);
          multiset(Msgs(pending[1..])) + multiset(Insert(ready, e.msg));
          before + multiset{e.msg};
        }
      }
    }
  }

  /**
   * A pass moves no message carrying `id` into a ready area that holds
   * none, when every eligible entry that carries it is expired.
   */
  lemma {:induction false} PromoteKeepsIdOut(pending: seq<PendingEntry>, ready: seq<Message>,
                                            delay: int, now: int, id: Uuid)
    requires !HasId(ready, id)
    requires forall j | 0 <= j < EligiblePrefix(pending, delay, now) ::
               pending[j].msg.id == id ==> Expired(pending[j], now)
    ensures !HasId(Promote(pending, ready, delay, now).ready, id)
  {
    if pending != [] && Eligible(pending[0], delay, now) {
      var e := pending[0];
      forall j | 0 <= j < EligiblePrefix(pending[1..], delay, now)
        ensures pending[1..][j].msg.id == id ==> Expired(pending[1..][j], now)
      {
        assert pending[1..][j] == pending[j + 1];
      }
      if Expired(e, now) {
        PromoteKeepsIdOut(pending[1..], ready, delay, now, id);
      } else {
        HasIdInsert(ready, e.msg, id);
        PromoteKeepsIdOut(pending[1..], Insert(ready, e.msg), delay, now, id);
      }
    }
  }

  /**
   * When no identifier is held twice, an eligible transient message whose
   * lifetime has run out never reaches the ready area: it is discarded.
   * In particular this holds of a transient message whose lifetime is at
   * most the delay, which therefore can never be delivered.
   */
  lemma ExpiredNeverReady(pending: seq<PendingEntry>, ready: seq<Message>, delay: int, now: int, j: nat)
    requires DistinctIds(Msgs(pending) + ready)
    requires j < EligiblePrefix(pending, delay, now)
    requires Expired(pending[j], now)
    ensures var pass := Promote(pending, ready, delay, now);
            pending[j].msg in pass.discarded && !HasId(pass.ready, pending[j].msg.id)
  {
    var k := EligiblePrefix(pending, delay, now);
    var held := Msgs(pending) + ready;
    var id := pending[j].msg.id;
    MsgsAt(pending);
    assert held[j] == pending[j].msg;
    PromoteSplitsPrefix(pending, ready, delay, now);
    ExpiredMsgsContains(pending[..k], now, j);
    forall i | 0 <= i < k ensures pending[i].msg.id == id ==> Expired(pending[i], now) {
      assert held[i] == pending[i].msg;
      if i < j {
        DistinctIdsAt(held, i, j);
      } else if j < i {
        DistinctIdsAt(held, j, i);
      }
    }
    HasIdIff(ready, id);
    if HasId(ready, id) {
      var t :| 0 <= t < |ready| && ready[t].id == id;
      assert held[|pending| + t] == ready[t];
      DistinctIdsAt(held, j, |pending| + t);
    }
    PromoteKeepsIdOut(pending, ready, delay, now, id);
  }

  /** The expired messages include every expired entry's message. */
  lemma {:induction false} ExpiredMsgsContains(p: seq<PendingEntry>, now: int, j: nat)
    requires j < |p| && Expired(p[j], now)
    ensures p[j].msg in ExpiredMsgs(p, now)
  {
    if j > 0 {
      ExpiredMsgsContains(p[1..], now, j - 1);
    }
  }

  /** A transient message with a lifetime no longer than the delay is expired once eligible. */
  lemma ShortLifetimeExpiresWhenEligible(e: PendingEntry, delay: int, now: int)
    requires e.msg.IsTransient() && e.msg.GetLifetime() <= delay
    requires Eligible(e, delay, now)
    ensures Expired(e, now)
  {
  }
}
