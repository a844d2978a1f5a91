/** The list operations removeUser performs: List.remove(Object) on the member list
    and removeIf on the group's message list. */
module Members {
  import opened Domain

  lemma ContainsTail(s: seq<User>, u: User)
    requires Contains(s, u) && !SameUser(s[0], u)
    ensures Contains(s[1..], u)
  {
    var i :| 0 <= i < |s| && SameUser(s[i], u);
    assert s[1..][i - 1] == s[i];
  }

  /** Index of the first member that is u. */
  function FirstIndex(s: seq<User>, u: User): (i: nat)
    requires Contains(s, u)
    ensures i < |s| && SameUser(s[i], u)
    ensures forall j :: 0 <= j < i ==> !SameUser(s[j], u)
  {
    if SameUser(s[0], u) then 0 else ContainsTail(s, u); 1 + FirstIndex(s[1..], u)
  }

  /** List.remove(Object): drop the first occurrence of u, if any. */
  function RemoveFirst(s: seq<User>, u: User): (r: seq<User>)
    ensures Contains(s, u) ==> |r| == |s| - 1
    ensures !Contains(s, u) ==> r == s
  {
    if s == [] then []
    else if SameUser(s[0], u) then s[1..]
    else
      assert Contains(s, u) ==> Contains(s[1..], u) by {
        if Contains(s, u) { ContainsTail(s, u); }
      }
      assert !Contains(s, u) ==> !Contains(s[1..], u) by {
        if Contains(s[1..], u) {
          var i :| 0 <= i < |s[1..]| && SameUser(s[1..][i], u);
          assert SameUser(s[i + 1], u);
        }
      }
      [s[0]] + RemoveFirst(s[1..], u)
  }

  /** Removing u cuts out exactly the element at its first index and keeps the order of the rest. */
  lemma {:induction false} RemoveFirstAt(s: seq<User>, u: User)
    requires Contains(s, u)
    ensures RemoveFirst(s, u) == s[..FirstIndex(s, u)] + s[FirstIndex(s, u) + 1..]
  {
    if !SameUser(s[0], u) {
      ContainsTail(s, u);
      RemoveFirstAt(s[1..], u);
      assert s[..FirstIndex(s, u)] == [s[0]] + s[1..][..FirstIndex(s[1..], u)];
      assert s[FirstIndex(s, u) + 1..] == s[1..][FirstIndex(s[1..], u) + 1..];
    }
  }

  /** Everyone other than u keeps their membership. */
  lemma RemoveFirstKeepsOthers(s: seq<User>, u: User, v: User)
    requires !SameUser(u, v)
    ensures Contains(RemoveFirst(s, u), v) <==> Contains(s, v)
  {
    if Contains(s, u) {
      RemoveFirstAt(s, u);
      var k := FirstIndex(s, u);
      if Contains(s, v) {
        StillThere(s, k, v);
      }
      if Contains(RemoveFirst(s, u), v) {
        WasThere(s, k, v);
      }
    }
  }

  /** Cutting out an entry that is not v keeps v. */
  lemma StillThere(s: seq<User>, k: nat, v: User)
    requires k < |s| && !SameUser(s[k], v) && Contains(s, v)
    ensures Contains(s[..k] + s[k + 1..], v)
  {
    var r := s[..k] + s[k + 1..];
    var i :| 0 <= i < |s| && SameUser(s[i], v);
    if i < k { assert r[i] == s[i]; } else { assert r[i - 1] == s[i]; }
  }

  /** Whoever is left after cutting out one entry was there before. */
  lemma WasThere(s: seq<User>, k: nat, v: User)
    requires k < |s| && Contains(s[..k] + s[k + 1..], v)
    ensures Contains(s, v)
  {
    var r := s[..k] + s[k + 1..];
    var i :| 0 <= i < |r| && SameUser(r[i], v);
    if i < k { assert r[i] == s[i]; } else { assert r[i] == s[i + 1]; }
  }

  /** Only the first occurrence goes: a user listed twice is still a member afterwards. */
  lemma RemoveFirstLeavesLaterCopy(s: seq<User>, u: User, i: nat, j: nat)
    requires i < j < |s| && SameUser(s[i], u) && SameUser(s[j], u)
    ensures Contains(RemoveFirst(s, u), u)
  {
    RemoveFirstAt(s, u);
    var k := FirstIndex(s, u);
    assert k <= i;
    assert RemoveFirst(s, u)[j - 1] == s[j];
  }

  /** Every message of the list is attributed in the sender index. */
  predicate Attributed(msgs: seq<Message>, senders: map<MessageId, User>) {
    forall i :: 0 <= i < |msgs| ==> msgs[i].id in senders
  }

  /** removeIf(message -> senderMap.get(message).equals(user)): keep the messages whose sender is not u, in order. */
  function WithoutSender(msgs: seq<Message>, senders: map<MessageId, User>, u: User): (r: seq<Message>)
    requires Attributed(msgs, senders)
    ensures |r| <= |msgs|
    ensures forall i :: 0 <= i < |r| ==> r[i] in msgs && !SameUser(senders[r[i].id], u)
  {
    if msgs == [] then []
    else
      var rest := WithoutSender(msgs[1..], senders, u);
      if SameUser(senders[msgs[0].id], u) then rest else [msgs[0]] + rest
  }

  /** What is kept stays attributed. */
  lemma WithoutSenderKeepsAttributed(msgs: seq<Message>, senders: map<MessageId, User>, u: User)
    requires Attributed(msgs, senders)
    ensures Attributed(WithoutSender(msgs, senders, u), senders)
  {
    var r := WithoutSender(msgs, senders, u);
    forall i | 0 <= i < |r| ensures r[i].id in senders {
      var j :| 0 <= j < |msgs| && msgs[j] == r[i];
    }
  }

  /** Number of messages of the list that u sent. */
  function SentBy(msgs: seq<Message>, senders: map<MessageId, User>, u: User): nat
    requires Attributed(msgs, senders)
  {
    if msgs == [] then 0
    else (if SameUser(senders[msgs[0].id], u) then 1 else 0) + SentBy(msgs[1..], senders, u)
  }

  /** No message of another sender is lost, and exactly u's messages are dropped. */
  lemma {:induction false} WithoutSenderKeepsOthers(msgs: seq<Message>, senders: map<MessageId, User>, u: User)
    requires Attributed(msgs, senders)
    ensures forall m :: m in msgs && !SameUser(senders[m.id], u) ==> m in WithoutSender(msgs, senders, u)
    ensures |WithoutSender(msgs, senders, u)| == |msgs| - SentBy(msgs, senders, u)
  {
    if msgs != [] {
      WithoutSenderKeepsOthers(msgs[1..], senders, u);
      forall m | m in msgs && !SameUser(senders[m.id], u)
        ensures m in WithoutSender(msgs, senders, u)
      {
        if m != msgs[0] {
          var i :| 0 <= i < |msgs| && msgs[i] == m;
          assert msgs[1..][i - 1] == m;
        }
      }
    }
  }

  /** Filtering distributes over concatenation, so the kept messages stay in their original order. */
  lemma {:induction false} WithoutSenderAppend(a: seq<Message>, b: seq<Message>, senders: map<MessageId, User>, u: User)
    requires Attributed(a, senders) && Attributed(b, senders)
    ensures Attributed(a + b, senders)
    ensures WithoutSender(a + b, senders, u) == WithoutSender(a, senders, u) + WithoutSender(b, senders, u)
  {
    assert Attributed(a + b, senders) by {
      forall i | 0 <= i < |a + b| ensures (a + b)[i].id in senders {
        if i >= |a| { assert (a + b)[i] == b[i - |a|]; }
      }
    }
    if a != [] {
      assert (a + b)[1..] == a[1..] + b;
      WithoutSenderAppend(a[1..], b, senders, u);
    } else {
      assert a + b == b;
    }
  }

  /** Filtering twice removes nothing more. */
  lemma {:induction false} WithoutSenderIdempotent(msgs: seq<Message>, senders: map<MessageId, User>, u: User)
    requires Attributed(msgs, senders)
    ensures Attributed(WithoutSender(msgs, senders, u), senders)
    ensures WithoutSender(WithoutSender(msgs, senders, u), senders, u) == WithoutSender(msgs, senders, u)
  {
    if msgs != [] {
      WithoutSenderIdempotent(msgs[1..], senders, u);
      var rest := WithoutSender(msgs[1..], senders, u);
      if !SameUser(senders[msgs[0].id], u) {
        assert ([msgs[0]] + rest)[1..] == rest;
      }
    }
  }
}
