/** What findMessage computes: collect every group's messages, keep those strictly inside the
    time window, order them newest first with a stable sort, and pick the k-th. */
module Timeline {
  import opened Domain

  /** Every group in the iteration order has a message list. */
  predicate Listed(order: seq<GroupId>, lists: map<GroupId, seq<Message>>) {
    forall i :: 0 <= i < |order| ==> order[i] in lists
  }

  /** The groups' message lists laid end to end, in iteration order. */
  function Collect(order: seq<GroupId>, lists: map<GroupId, seq<Message>>): (all: seq<Message>)
    requires Listed(order, lists)
    ensures forall m :: m in all <==> exists i :: 0 <= i < |order| && m in lists[order[i]]
  {
    if order == [] then []
    else
      var init := order[..|order| - 1];
      assert forall i :: 0 <= i < |init| ==> init[i] == order[i];
      Collect(init, lists) + lists[order[|order| - 1]]
  }

  /** Gathering one more group appends its list. */
  lemma CollectStep(order: seq<GroupId>, lists: map<GroupId, seq<Message>>, i: nat)
    requires Listed(order, lists) && i < |order|
    ensures Listed(order[..i], lists) && Listed(order[..i + 1], lists)
    ensures Collect(order[..i + 1], lists) == Collect(order[..i], lists) + lists[order[i]]
  {
    assert order[..i + 1][..i] == order[..i];
  }

  predicate InWindow(m: Message, start: int, end: int) {
    start < m.timestamp < end
  }

  /** The messages strictly after start and strictly before end, in their original order. */
  function Window(s: seq<Message>, start: int, end: int): (w: seq<Message>)
    ensures |w| <= |s|
    ensures forall m :: m in w <==> m in s && InWindow(m, start, end)
  {
    if s == [] then []
    else
      var init := s[..|s| - 1];
      assert forall m :: m in s <==> m in init || m == s[|s| - 1];
      Window(init, start, end) + (if InWindow(s[|s| - 1], start, end) then [s[|s| - 1]] else [])
  }

  /** Filtering one more message keeps it exactly when it lies in the window. */
  lemma WindowStep(s: seq<Message>, j: nat, start: int, end: int)
    requires j < |s|
    ensures Window(s[..j + 1], start, end) == Window(s[..j], start, end) + (if InWindow(s[j], start, end) then [s[j]] else [])
  {
    assert s[..j + 1][..j] == s[..j];
  }

  predicate NewestFirst(s: seq<Message>) {
    forall i, j :: 0 <= i < j < |s| ==> s[i].timestamp >= s[j].timestamp
  }

  /** Places m after every element at least as recent, which keeps equal timestamps in arrival order. */
  function Insert(m: Message, s: seq<Message>): (r: seq<Message>)
    ensures |r| == |s| + 1
  {
    if s == [] then [m]
    else if s[0].timestamp >= m.timestamp then [s[0]] + Insert(m, s[1..])
    else [m] + s
  }

  /** Insertion adds m and nothing else. */
  lemma {:induction false} InsertPermutes(m: Message, s: seq<Message>)
    ensures multiset(Insert(m, s)) == multiset(s) + multiset{m}
  {
    if s != [] && s[0].timestamp >= m.timestamp {
      InsertPermutes(m, s[1..]);
      assert s == [s[0]] + s[1..];
    }
  }

  /** Insertion yields m and the elements of s, nothing else. */
  lemma {:induction false} InsertMembers(m: Message, s: seq<Message>)
    ensures forall x :: x in Insert(m, s) <==> x == m || x in s
  {
    if s != [] && s[0].timestamp >= m.timestamp {
      InsertMembers(m, s[1..]);
      assert s == [s[0]] + s[1..];
    }
  }

  /** A message at least as recent as every entry of a newest-first list can go in front of it. */
  lemma ConsNewestFirst(x: Message, s: seq<Message>)
    requires NewestFirst(s)
    requires forall j :: 0 <= j < |s| ==> x.timestamp >= s[j].timestamp
    ensures NewestFirst([x] + s)
  {
    var r := [x] + s;
    forall i, j | 0 <= i < j < |r| ensures r[i].timestamp >= r[j].timestamp {
      assert r[j] == s[j - 1];
      if i > 0 { assert r[i] == s[i - 1]; }
    }
  }

  /** Inserting into a newest-first list keeps it newest first. */
  lemma {:induction false} InsertNewestFirst(m: Message, s: seq<Message>)
    requires NewestFirst(s)
    ensures NewestFirst(Insert(m, s))
  {
    if s == [] {
    } else if s[0].timestamp >= m.timestamp {
      var rest := Insert(m, s[1..]);
      assert NewestFirst(s[1..]) by {
        forall i, j | 0 <= i < j < |s[1..]| ensures s[1..][i].timestamp >= s[1..][j].timestamp {
          assert s[1..][i] == s[i + 1] && s[1..][j] == s[j + 1];
        }
      }
      InsertNewestFirst(m, s[1..]);
      InsertMembers(m, s[1..]);
      forall j | 0 <= j < |rest| ensures s[0].timestamp >= rest[j].timestamp {
        if rest[j] != m {
          assert rest[j] in s[1..];
          var k :| 0 <= k < |s[1..]| && s[1..][k] == rest[j];
          assert s[k + 1] == rest[j];
        }
      }
      ConsNewestFirst(s[0], rest);
    } else {
      forall j | 0 <= j < |s| ensures m.timestamp >= s[j].timestamp {
        if j > 0 { assert s[0].timestamp >= s[j].timestamp; }
      }
      ConsNewestFirst(m, s);
    }
  }

  /** Collections.sort with a newest-first comparator: a stable sort on timestamps, descending. */
  function SortNewestFirst(s: seq<Message>): (r: seq<Message>)
    ensures |r| == |s|
  {
    if s == [] then [] else Insert(s[|s| - 1], SortNewestFirst(s[..|s| - 1]))
  }

  /** The sort returns a permutation of its input. */
  lemma {:induction false} SortNewestFirstPermutes(s: seq<Message>)
    ensures multiset(SortNewestFirst(s)) == multiset(s)
  {
    if s != [] {
      var init, last := s[..|s| - 1], s[|s| - 1];
      SortNewestFirstPermutes(init);
      InsertPermutes(last, SortNewestFirst(init));
      assert s == init + [last];
    }
  }

  /** The sort returns its messages newest first. */
  lemma {:induction false} SortNewestFirstOrders(s: seq<Message>)
    ensures NewestFirst(SortNewestFirst(s))
  {
    if s != [] {
      var init := s[..|s| - 1];
      SortNewestFirstOrders(init);
      InsertNewestFirst(s[|s| - 1], SortNewestFirst(init));
    }
  }

  /** Number of messages strictly more recent than t. */
  function CountAfter(s: seq<Message>, t: int): nat {
    if s == [] then 0 else (if s[0].timestamp > t then 1 else 0) + CountAfter(s[1..], t)
  }

  /** Number of messages at t or later. */
  function CountAtOrAfter(s: seq<Message>, t: int): nat {
    if s == [] then 0 else (if s[0].timestamp >= t then 1 else 0) + CountAtOrAfter(s[1..], t)
  }

  /** On integer timestamps, "at t or later" is "strictly after t - 1". */
  lemma {:induction false} CountAtOrAfterShift(s: seq<Message>, t: int)
    ensures CountAtOrAfter(s, t) == CountAfter(s, t - 1)
  {
    if s != [] {
      CountAtOrAfterShift(s[1..], t);
    }
  }

  lemma {:induction false} CountAfterAppend(a: seq<Message>, b: seq<Message>, t: int)
    ensures CountAfter(a + b, t) == CountAfter(a, t) + CountAfter(b, t)
  {
    if a == [] {
      assert a + b == b;
    } else {
      assert (a + b)[1..] == a[1..] + b;
      CountAfterAppend(a[1..], b, t);
    }
  }

  lemma {:induction false} CountAfterInsert(m: Message, s: seq<Message>, t: int)
    ensures CountAfter(Insert(m, s), t) == CountAfter(s, t) + (if m.timestamp > t then 1 else 0)
  {
    if s != [] && s[0].timestamp >= m.timestamp {
      CountAfterInsert(m, s[1..], t);
      assert ([s[0]] + Insert(m, s[1..]))[1..] == Insert(m, s[1..]);
    } else {
      assert ([m] + s)[1..] == s;
    }
  }

  /** Sorting neither adds nor loses messages after any instant. */
  lemma {:induction false} CountAfterSort(s: seq<Message>, t: int)
    ensures CountAfter(SortNewestFirst(s), t) == CountAfter(s, t)
  {
    if s != [] {
      var init, last := s[..|s| - 1], s[|s| - 1];
      var sorted := SortNewestFirst(init);
      assert SortNewestFirst(s) == Insert(last, sorted);
      CountAfterSort(init, t);
      CountAfterInsert(last, sorted, t);
      assert s == init + [last];
      CountAfterAppend(init, [last], t);
    }
  }

  lemma {:induction false} NoneAfter(s: seq<Message>, t: int)
    requires forall i :: 0 <= i < |s| ==> s[i].timestamp <= t
    ensures CountAfter(s, t) == 0
  {
    if s != [] {
      NoneAfter(s[1..], t);
    }
  }

  /** In a newest-first list the k-th entry has fewer than k entries newer than it and at least k entries
      at its own time or later. */
  lemma {:induction false} KthOfSorted(s: seq<Message>, k: nat)
    requires NewestFirst(s) && 1 <= k <= |s|
    ensures CountAfter(s, s[k - 1].timestamp) < k
    ensures CountAfter(s, s[k - 1].timestamp - 1) >= k
  {
    var t := s[k - 1].timestamp;
    if k == 1 {
      NoneAfter(s, t);
      assert CountAfter(s, t - 1) >= 1;
    } else {
      var tail := s[1..];
      assert tail[k - 2] == s[k - 1];
      KthOfSorted(tail, k - 1);
    }
  }

  /** findMessage as a value: the k-th most recent message of the window, or the error when there are fewer than k. */
  function KthMostRecent(all: seq<Message>, start: int, end: int, k: int): (r: Result<string>)
    requires k >= 1
  {
    var w := Window(all, start, end);
    if |w| < k then Err(NotEnoughMessages) else Ok(SortNewestFirst(w)[k - 1].content)
  }

  /** The search fails exactly when fewer than k messages fall in the window; otherwise it returns the content
      of a message of the window that is the k-th most recent: fewer than k are newer, at least k are as new. */
  lemma KthMostRecentMeaning(all: seq<Message>, start: int, end: int, k: int)
    requires k >= 1
    ensures var r := KthMostRecent(all, start, end, k);
            var w := Window(all, start, end);
            && (r.Err? <==> |w| < k)
            && (r.Err? ==> r.error == NotEnoughMessages)
            && (r.Ok? ==> exists m :: m in all && InWindow(m, start, end) && m.content == r.value
                                    && CountAfter(w, m.timestamp) < k <= CountAtOrAfter(w, m.timestamp))
  {
    var w := Window(all, start, end);
    if |w| >= k {
      var m := SortNewestFirst(w)[k - 1];
      KthOfWindowIsMember(w, k);
      KthOfWindowRank(w, k);
      assert m in all && InWindow(m, start, end);
    }
  }

  /** The k-th entry of the sorted window is one of the window's messages. */
  lemma KthOfWindowIsMember(w: seq<Message>, k: int)
    requires 1 <= k <= |w|
    ensures SortNewestFirst(w)[k - 1] in w
  {
    SortNewestFirstPermutes(w);
    assert SortNewestFirst(w)[k - 1] in multiset(SortNewestFirst(w));
  }

  /** The rank of the k-th entry of a newest-first list s, carried over to a list w with the same counts. */
  lemma {:induction false} RankCarriesOver(s: seq<Message>, w: seq<Message>, k: int)
    requires NewestFirst(s) && 1 <= k <= |s|
    requires CountAfter(w, s[k - 1].timestamp) == CountAfter(s, s[k - 1].timestamp)
    requires CountAfter(w, s[k - 1].timestamp - 1) == CountAfter(s, s[k - 1].timestamp - 1)
    ensures CountAfter(w, s[k - 1].timestamp) < k <= CountAtOrAfter(w, s[k - 1].timestamp)
  {
    KthOfSorted(s, k);
    CountAtOrAfterShift(w, s[k - 1].timestamp);
  }

  /** The k-th entry of the sorted window has fewer than k newer messages in the window and at least k messages
      at its time or later. */
  lemma KthOfWindowRank(w: seq<Message>, k: int)
    requires 1 <= k <= |w|
    ensures CountAfter(w, SortNewestFirst(w)[k - 1].timestamp) < k
    ensures k <= CountAtOrAfter(w, SortNewestFirst(w)[k - 1].timestamp)
  {
    var s := SortNewestFirst(w);
    var t := s[k - 1].timestamp;
    SortNewestFirstOrders(w);
    CountAfterSort(w, t);
    CountAfterSort(w, t - 1);
    RankCarriesOver(s, w, k);
  }
}
