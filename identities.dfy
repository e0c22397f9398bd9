/**
 * Identifiers of sequences of messages: whether one occurs, and whether no
 * identifier occurs twice. Messages are equal for the queue exactly when
 * their identifiers are, so these are the notions inQueue and getMsg test.
 */
module Identities {
  import opened Messages

  /** Some message of `s` carries the identifier `id`. */
  predicate HasId(s: seq<Message>, id: Uuid)
  {
    s != [] && (s[0].id == id || HasId(s[1..], id))
  }

  /** No two messages of `s` carry the same identifier. */
  ghost predicate DistinctIds(s: seq<Message>)
  {
    s == [] || (!HasId(s[1..], s[0].id) && DistinctIds(s[1..]))
  }

  /** HasId is "some position holds a message with that identifier". */
  lemma {:induction false} HasIdIff(s: seq<Message>, id: Uuid)
    ensures HasId(s, id) <==> exists i | 0 <= i < |s| :: s[i].id == id
  {
    if s != [] {
      HasIdIff(s[1..], id);
      if HasId(s[1..], id) {
        var i :| 0 <= i < |s[1..]| && s[1..][i].id == id;
        assert s[i + 1].id == id;
      }
      if exists i | 0 <= i < |s| :: s[i].id == id {
        var i :| 0 <= i < |s| && s[i].id == id;
        if i > 0 { assert s[1..][i - 1].id == id; }
      }
    }
  }

  /** An identifier occurs in a concatenation exactly when it occurs in one of the parts. */
  lemma {:induction false} HasIdAppend(a: seq<Message>, b: seq<Message>, id: Uuid)
    ensures HasId(a + b, id) <==> HasId(a, id) || HasId(b, id)
  {
    if a != [] {
      HasIdAppend(a[1..], b, id);
      assert (a + b)[1..] == a[1..] + b;
    } else {
      assert a + b == b;
    }
  }

  /**
   * A message placed between two parts keeps the identifiers distinct
   * exactly when the parts together had distinct identifiers and did not
   * carry the message's identifier.
   */
  lemma {:induction false} DistinctAround(a: seq<Message>, m: Message, b: seq<Message>)
    ensures DistinctIds(a + [m] + b) <==> DistinctIds(a + b) && !HasId(a + b, m.id)
  {
    if a == [] {
      assert a + [m] + b == [m] + b && ([m] + b)[1..] == b && a + b == b;
    } else {
      var x := a[0];
      DistinctAround(a[1..], m, b);
      assert (a + [m] + b)[1..] == a[1..] + [m] + b;
      assert (a + b)[1..] == a[1..] + b;
      HasIdAppend(a[1..] + [m], b, x.id);
      HasIdAppend(a[1..], [m], x.id);
      HasIdAppend(a[1..], b, x.id);
      HasIdAppend(a[1..], b, m.id);
      HasIdAppend(a, b, m.id);
      assert HasId([m], x.id) <==> m.id == x.id;
    }
  }

  /** Two different positions of a sequence with distinct identifiers hold different identifiers. */
  lemma {:induction false} DistinctIdsAt(s: seq<Message>, i: nat, j: nat)
    requires DistinctIds(s) && i < j < |s|
    ensures s[i].id != s[j].id
  {
    if i == 0 {
      HasIdIff(s[1..], s[0].id);
      assert s[1..][j - 1] == s[j];
    } else {
      DistinctIdsAt(s[1..], i - 1, j - 1);
    }
  }

  /**
   * Moving a message from the front of a sequence to a later position keeps
   * the identifiers distinct.
   */
  lemma DistinctMove(m: Message, a: seq<Message>, b: seq<Message>, c: seq<Message>)
    requires DistinctIds([m] + a + (b + c))
    ensures DistinctIds(a + b + [m] + c)
  {
    var rest := a + (b + c);
    assert [m] + a + (b + c) == [] + [m] + rest && [] + rest == rest;
    DistinctAround([], m, rest);
    assert (a + b) + c == rest;
    DistinctAround(a + b, m, c);
  }
}
