/** The iteration order of the store's group-keyed hash maps: some fixed listing of the groups made so far,
    each exactly once. Where a new group lands in that listing depends on hashing, so it is a parameter. */
module Enumeration {
  import opened Domain

  predicate Distinct(s: seq<GroupId>) {
    forall i, j :: 0 <= i < j < |s| ==> s[i] != s[j]
  }

  /** s lists the ids 0 .. n - 1, each exactly once, in some order. */
  predicate Enumerates(s: seq<GroupId>, n: nat) {
    && |s| == n
    && (forall i :: 0 <= i < |s| ==> s[i] < n)
    && Distinct(s)
  }

  /** The ids below n. */
  function Below(n: nat): (r: set<GroupId>)
    ensures |r| == n
    ensures forall g: GroupId :: g in r <==> g < n
  {
    if n == 0 then {} else Below(n - 1) + {n - 1}
  }

  /** Pigeonhole: a list of distinct ids drawn from a pool is no longer than the pool. */
  lemma {:induction false} DistinctWithin(s: seq<GroupId>, pool: set<GroupId>)
    requires Distinct(s)
    requires forall i :: 0 <= i < |s| ==> s[i] in pool
    ensures |s| <= |pool|
  {
    if s != [] {
      var rest := s[1..];
      forall i | 0 <= i < |rest| ensures rest[i] in pool - {s[0]} {
        assert rest[i] == s[i + 1];
      }
      DistinctWithin(rest, pool - {s[0]});
    }
  }

  /** An enumeration of n misses none of the ids below n. */
  lemma EnumerationCovers(s: seq<GroupId>, n: nat, g: GroupId)
    requires Enumerates(s, n) && g < n
    ensures g in s
  {
    if g !in s {
      var pool := Below(n) - {g};
      forall i | 0 <= i < |s| ensures s[i] in pool {
        assert s[i] != g;
      }
      DistinctWithin(s, pool);
    }
  }

  /** Where a new key lands in the listing: at position slot, or at the end when slot is past it. */
  function Place(s: seq<GroupId>, g: GroupId, slot: nat): (r: seq<GroupId>)
    ensures |r| == |s| + 1
    ensures forall h :: h in r <==> h == g || h in s
  {
    var at := if slot < |s| then slot else |s|;
    assert forall h :: h in s <==> h in s[..at] || h in s[at..] by {
      assert s == s[..at] + s[at..];
    }
    s[..at] + [g] + s[at..]
  }

  /** Placing the next id anywhere in an enumeration of n gives an enumeration of n + 1. */
  lemma PlaceEnumerates(s: seq<GroupId>, n: nat, slot: nat)
    requires Enumerates(s, n)
    ensures Enumerates(Place(s, n, slot), n + 1)
  {
    var r := Place(s, n, slot);
    var at := if slot < |s| then slot else |s|;
    assert forall i :: 0 <= i < at ==> r[i] == s[i];
    assert r[at] == n;
    assert forall i :: at < i < |r| ==> r[i] == s[i - 1];
  }
}
