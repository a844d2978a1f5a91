/** The in-memory store: registered mobiles, groups with their members, messages and admins,
    and the two counters. */
module Repository {
  import opened Domain
  import opened Naming
  import opened Members
  import opened Timeline
  import opened Enumeration

  /** The first group, in iteration order, whose member list contains u. */
  function FirstGroupOf(order: seq<GroupId>, members: map<GroupId, seq<User>>, u: User): (r: Option<GroupId>)
    requires forall i :: 0 <= i < |order| ==> order[i] in members
    ensures r.Some? ==> r.value in members && Contains(members[r.value], u)
    ensures r.None? <==> forall i :: 0 <= i < |order| ==> !Contains(members[order[i]], u)
  {
    if order == [] then None
    else if Contains(members[order[0]], u) then Some(order[0])
    else
      var r := FirstGroupOf(order[1..], members, u);
      assert forall i :: 1 <= i < |order| ==> order[i] == order[1..][i - 1];
      r
  }

  /** The group found sits at some position of the order, and no group before it holds u. */
  lemma {:induction false} FirstGroupOfIsFirst(order: seq<GroupId>, members: map<GroupId, seq<User>>, u: User)
    requires forall i :: 0 <= i < |order| ==> order[i] in members
    requires FirstGroupOf(order, members, u).Some?
    ensures exists i :: 0 <= i < |order| && order[i] == FirstGroupOf(order, members, u).value
                        && forall j :: 0 <= j < i ==> !Contains(members[order[j]], u)
  {
    if !Contains(members[order[0]], u) {
      var tail := order[1..];
      FirstGroupOfIsFirst(tail, members, u);
      var i :| 0 <= i < |tail| && tail[i] == FirstGroupOf(tail, members, u).value
               && forall j :: 0 <= j < i ==> !Contains(members[tail[j]], u);
      assert order[i + 1] == tail[i];
      forall j | 0 <= j < i + 1 ensures !Contains(members[order[j]], u) {
        if j > 0 { assert order[j] == tail[j - 1]; }
      }
    }
  }

  /** One step of the scan: the group at position i answers, or the scan goes on from i + 1. */
  lemma FirstGroupOfStep(order: seq<GroupId>, members: map<GroupId, seq<User>>, u: User, i: nat)
    requires forall j :: 0 <= j < |order| ==> order[j] in members
    requires i < |order|
    ensures FirstGroupOf(order[i..], members, u) ==
            if Contains(members[order[i]], u) then Some(order[i]) else FirstGroupOf(order[i + 1..], members, u)
  {
    assert order[i..][0] == order[i];
    assert order[i..][1..] == order[i + 1..];
  }

  /** When exactly one group holds u, the scan finds that group whatever the iteration order. */
  lemma FirstGroupOfUnique(order: seq<GroupId>, members: map<GroupId, seq<User>>, u: User, g: GroupId)
    requires forall i :: 0 <= i < |order| ==> order[i] in members
    requires g in order && Contains(members[g], u)
    requires forall i :: 0 <= i < |order| && order[i] != g ==> !Contains(members[order[i]], u)
    ensures FirstGroupOf(order, members, u) == Some(g)
  {
    var r := FirstGroupOf(order, members, u);
    var i :| 0 <= i < |order| && order[i] == g;
    assert r.Some?;
    var j :| 0 <= j < |order| && order[j] == r.value;
  }

  /** The store's consistency, on the values of its fields: the three group maps hold exactly the groups made
      so far, the iteration order lists each of them once, and every message in a group list has a sender
      recorded. */
  ghost predicate Consistent(order: seq<GroupId>, members: map<GroupId, seq<User>>,
                             lists: map<GroupId, seq<Message>>, senders: map<MessageId, User>,
                             admins: map<GroupId, User>, made: nat)
  {
    && (forall g: GroupId :: g in members <==> g < made)
    && (forall g: GroupId :: g in lists <==> g < made)
    && (forall g: GroupId :: g in admins <==> g < made)
    && (forall g, i :: g in lists && 0 <= i < |lists[g]| ==> lists[g][i].id in senders)
    && Enumerates(order, made)
  }

  /** Every group's admin is one of its current members. */
  ghost predicate AdminsInGroups(members: map<GroupId, seq<User>>, admins: map<GroupId, User>) {
    forall g :: g in admins ==> g in members && Contains(members[g], admins[g])
  }

  /** Registering the next group, placed anywhere in the order, keeps the store consistent. */
  lemma ConsistentAddGroup(order: seq<GroupId>, members: map<GroupId, seq<User>>,
                           lists: map<GroupId, seq<Message>>, senders: map<MessageId, User>,
                           admins: map<GroupId, User>, made: nat, users: seq<User>, admin: User, slot: nat)
    requires Consistent(order, members, lists, senders, admins, made)
    ensures made !in members
    ensures Consistent(Place(order, made, slot), members[made := users], lists[made := []], senders,
                       admins[made := admin], made + 1)
  {
    PlaceEnumerates(order, made, slot);
  }

  /** A new group whose admin is its first member keeps every admin a member. */
  lemma AdminsAddGroup(members: map<GroupId, seq<User>>, admins: map<GroupId, User>, g: GroupId, users: seq<User>)
    requires |users| >= 1
    requires AdminsInGroups(members, admins)
    ensures AdminsInGroups(members[g := users], admins[g := users[0]])
  {
    assert SameUser(users[0], users[0]);
  }

  /** Appending a message attributed to its sender keeps the store consistent. */
  lemma ConsistentSend(order: seq<GroupId>, members: map<GroupId, seq<User>>,
                       lists: map<GroupId, seq<Message>>, senders: map<MessageId, User>,
                       admins: map<GroupId, User>, made: nat, g: GroupId, m: Message, sender: User)
    requires Consistent(order, members, lists, senders, admins, made) && g in members
    ensures Consistent(order, members, lists[g := lists[g] + [m]], senders[m.id := sender], admins, made)
  {
    var senders' := senders[m.id := sender];
    var lists' := lists[g := lists[g] + [m]];
    forall h | h in lists' ensures Attributed(lists'[h], senders') {
      if h == g {
        assert forall i :: 0 <= i < |lists[g]| ==> (lists[g] + [m])[i] == lists[g][i];
      } else {
        assert Attributed(lists[h], senders);
      }
    }
  }

  class WhatsappRepository {
    var userMobile: set<Mobile>
    var groupUserMap: map<GroupId, seq<User>>
    var groupMessageMap: map<GroupId, seq<Message>>
    var senderMap: map<MessageId, User>
    var adminMap: map<GroupId, User>
    var customGroupCount: nat
    var messageId: nat
    /** The order in which the group-keyed maps enumerate their groups. */
    var groupOrder: seq<GroupId>
    /** Number of Group objects made so far; the next one gets this id. */
    var groupCount: nat

    ghost predicate Valid()
      reads this
    {
      Consistent(groupOrder, groupUserMap, groupMessageMap, senderMap, adminMap, groupCount)
    }

    ghost predicate AdminsAreMembers()
      reads this
    {
      AdminsInGroups(groupUserMap, adminMap)
    }

    constructor ()
      ensures Valid() && AdminsAreMembers()
      ensures userMobile == {} && groupUserMap == map[] && groupMessageMap == map[]
      ensures senderMap == map[] && adminMap == map[]
      ensures customGroupCount == 0 && messageId == 0
      ensures groupOrder == [] && groupCount == 0
    {
      userMobile := {};
      groupUserMap := map[];
      groupMessageMap := map[];
      senderMap := map[];
      adminMap := map[];
      customGroupCount := 0;
      messageId := 0;
      groupOrder := [];
      groupCount := 0;
    }

    /** Registers a mobile number; a number already registered is refused and nothing changes. */
    method CreateUser(name: string, mobile: Mobile) returns (r: Result<string>)
      modifies this`userMobile
      ensures old(mobile in userMobile) ==> r == Err(UserAlreadyExists) && userMobile == old(userMobile)
      ensures old(mobile !in userMobile) ==> r == Ok("SUCCESS") && userMobile == old(userMobile) + {mobile}
    {
      if mobile in userMobile {
        return Err(UserAlreadyExists);
      }
      userMobile := userMobile + {mobile};
      r := Ok("SUCCESS");
    }

    /** Creates a group whose admin is users[0]: a personal chat named after users[1] when there are two users,
        otherwise a multi-member group named from the incremented counter. The new group enters the maps'
        iteration order at position slot (at the end when slot is past it), which stands for where hashing
        places it. */
    method CreateGroup(users: seq<User>, slot: nat) returns (group: Group)
      requires Valid()
      requires |users| >= 2
      modifies this`groupUserMap, this`groupMessageMap, this`adminMap, this`customGroupCount,
               this`groupOrder, this`groupCount
      ensures Valid()
      ensures old(AdminsAreMembers()) ==> AdminsAreMembers()
      ensures group.id !in old(groupUserMap) && group.id == old(groupCount) && groupCount == old(groupCount) + 1
      ensures group.numberOfParticipants == |users|
      ensures |users| == 2 ==> group.name == users[1].name && customGroupCount == old(customGroupCount)
      ensures |users| > 2 ==> customGroupCount == old(customGroupCount) + 1 && group.name == GroupName(customGroupCount)
      ensures groupUserMap == old(groupUserMap)[group.id := users]
      ensures groupMessageMap == old(groupMessageMap)[group.id := []]
      ensures adminMap == old(adminMap)[group.id := users[0]]
      ensures groupOrder == Place(old(groupOrder), group.id, slot)
    {
      if |users| == 2 {
        var id := Register(users, slot);
        group := Group(id, users[1].name, 2);
      } else {
        customGroupCount := customGroupCount + 1;
        var id := Register(users, slot);
        group := Group(id, GroupName(customGroupCount), |users|);
      }
    }

    /** The registration both branches of createGroup perform: a fresh group with members users, admin users[0]
        and an empty message list, placed in the iteration order. */
    method Register(users: seq<User>, slot: nat) returns (id: GroupId)
      requires Valid()
      requires |users| >= 1
      modifies this`groupUserMap, this`groupMessageMap, this`adminMap, this`groupOrder, this`groupCount
      ensures Valid()
      ensures old(AdminsAreMembers()) ==> AdminsAreMembers()
      ensures id !in old(groupUserMap) && id == old(groupCount) && groupCount == old(groupCount) + 1
      ensures groupUserMap == old(groupUserMap)[id := users]
      ensures groupMessageMap == old(groupMessageMap)[id := []]
      ensures adminMap == old(adminMap)[id := users[0]]
      ensures groupOrder == Place(old(groupOrder), id, slot)
    {
      id := groupCount;
      ConsistentAddGroup(groupOrder, groupUserMap, groupMessageMap, senderMap, adminMap, groupCount, users, users[0], slot);
      if AdminsAreMembers() {
        AdminsAddGroup(groupUserMap, adminMap, id, users);
      }
      groupOrder := Place(groupOrder, id, slot);
      groupCount := groupCount + 1;
      adminMap := adminMap[id := users[0]];
      groupUserMap := groupUserMap[id := users];
      groupMessageMap := groupMessageMap[id := []];
    }

    /** Allocates the next message id. */
    method CreateMessage(content: string) returns (id: nat)
      modifies this`messageId
      ensures id == old(messageId) + 1 && messageId == id
    {
      messageId := messageId + 1;
      id := messageId;
    }

    /** Appends the message to the group's list after checking that the group exists and the sender belongs
        to it; returns the new number of messages in the group. */
    method SendMessage(message: Message, sender: User, group: GroupId) returns (r: Result<nat>)
      requires Valid()
      modifies this`senderMap, this`groupMessageMap
      ensures Valid()
      ensures group !in groupUserMap ==>
                r == Err(GroupDoesNotExist) && senderMap == old(senderMap) && groupMessageMap == old(groupMessageMap)
      ensures group in groupUserMap && !Contains(groupUserMap[group], sender) ==>
                r == Err(NotAllowedToSend) && senderMap == old(senderMap) && groupMessageMap == old(groupMessageMap)
      ensures group in groupUserMap && Contains(groupUserMap[group], sender) ==>
                && senderMap == old(senderMap)[message.id := sender]
                && groupMessageMap == old(groupMessageMap)[group := old(groupMessageMap)[group] + [message]]
                && r == Ok(|old(groupMessageMap)[group]| + 1)
    {
      if group !in groupUserMap {
        return Err(GroupDoesNotExist);
      }
      var member := groupUserMap[group];
      if !Contains(member, sender) {
        return Err(NotAllowedToSend);
      }
      ConsistentSend(groupOrder, groupUserMap, groupMessageMap, senderMap, adminMap, groupCount, group, message, sender);
      senderMap := senderMap[message.id := sender];
      var messages := groupMessageMap[group] + [message];
      groupMessageMap := groupMessageMap[group := messages];
      r := Ok(|messages|);
    }

    /** Passes the admin role of a group from approver to user, checking in turn that the group exists,
        that approver is its admin and that user is a member. */
    method ChangeAdmin(approver: User, user: User, group: GroupId) returns (r: Result<string>)
      requires Valid()
      modifies this`adminMap
      ensures Valid()
      ensures old(AdminsAreMembers()) ==> AdminsAreMembers()
      ensures group !in groupUserMap ==> r == Err(GroupDoesNotExist) && adminMap == old(adminMap)
      ensures group in groupUserMap && !SameUser(old(adminMap)[group], approver) ==>
                r == Err(ApproverWithoutRights) && adminMap == old(adminMap)
      ensures group in groupUserMap && SameUser(old(adminMap)[group], approver) && !Contains(groupUserMap[group], user) ==>
                r == Err(UserNotParticipant) && adminMap == old(adminMap)
      ensures group in groupUserMap && SameUser(old(adminMap)[group], approver) && Contains(groupUserMap[group], user) ==>
                r == Ok("SUCCESS") && adminMap == old(adminMap)[group := user]
    {
      if group !in groupUserMap {
        return Err(GroupDoesNotExist);
      }
      var currAdmin := adminMap[group];
      if !SameUser(currAdmin, approver) {
        return Err(ApproverWithoutRights);
      }
      var member := groupUserMap[group];
      if !Contains(member, user) {
        return Err(UserNotParticipant);
      }
      adminMap := adminMap[group := user];
      r := Ok("SUCCESS");
    }

    /** Scans the groups in iteration order for one whose member list contains u. */
    method FindGroupByUser(u: User) returns (found: Option<GroupId>)
      requires forall j :: 0 <= j < |groupOrder| ==> groupOrder[j] in groupUserMap
      ensures found == FirstGroupOf(groupOrder, groupUserMap, u)
    {
      var i := 0;
      while i < |groupOrder|
        invariant 0 <= i <= |groupOrder|
        invariant FirstGroupOf(groupOrder, groupUserMap, u) == FirstGroupOf(groupOrder[i..], groupUserMap, u)
      {
        var g := groupOrder[i];
        FirstGroupOfStep(groupOrder, groupUserMap, u, i);
        if Contains(groupUserMap[g], u) {
          return Some(g);
        }
        i := i + 1;
      }
      found := None;
    }

    /** The scan over the iteration order covers exactly the groups of the store. */
    lemma FirstGroupOfCovers(u: User)
      requires Valid()
      ensures FirstGroupOf(groupOrder, groupUserMap, u).None? <==>
              forall g :: g in groupUserMap ==> !Contains(groupUserMap[g], u)
    {
      if FirstGroupOf(groupOrder, groupUserMap, u).None? {
        forall g | g in groupUserMap ensures !Contains(groupUserMap[g], u) {
          EnumerationCovers(groupOrder, groupCount, g);
          var i :| 0 <= i < |groupOrder| && groupOrder[i] == g;
        }
      }
    }

    /** Takes u out of the first group found to hold it: drops the first occurrence of u from the members and
        u's messages from the group's message list. The admin guard of the code never fires (see RemoveUserGuarded
        for the intended one), and the sender index keeps its entries. Returns the sum of the group's remaining
        members, the group's remaining messages and the size of the sender index. */
    method RemoveUser(u: User) returns (r: Result<int>)
      requires Valid()
      modifies this`groupUserMap, this`groupMessageMap
      ensures Valid()
      ensures var found := FirstGroupOf(groupOrder, old(groupUserMap), u);
              found.None? ==>
                r == Err(UserNotFound) && groupUserMap == old(groupUserMap) && groupMessageMap == old(groupMessageMap)
      ensures var found := FirstGroupOf(groupOrder, old(groupUserMap), u);
              found.Some? ==>
                var g := found.value;
                && groupUserMap == old(groupUserMap)[g := RemoveFirst(old(groupUserMap)[g], u)]
                && groupMessageMap == old(groupMessageMap)[g := WithoutSender(old(groupMessageMap)[g], senderMap, u)]
                && r == Ok(|groupUserMap[g]| + |groupMessageMap[g]| + |senderMap|)
    {
      var found := FindGroupByUser(u);
      if found.None? {
        return Err(UserNotFound);
      }
      // The code looks the admin up with the user as key of the group-keyed admin map, which yields null,
      // and compares the string "null" with the user: the guard is never taken.
      var n := Detach(u, found.value);
      r := Ok(n);
    }

    /** RemoveUser with the admin guard working as intended: removing the group's admin is refused and nothing
        changes; otherwise it does what RemoveUser does, and every admin stays a member. */
    method RemoveUserGuarded(u: User) returns (r: Result<int>)
      requires Valid()
      modifies this`groupUserMap, this`groupMessageMap
      ensures Valid()
      ensures old(AdminsAreMembers()) ==> AdminsAreMembers()
      ensures var found := FirstGroupOf(groupOrder, old(groupUserMap), u);
              && (found.None? ==>
                    r == Err(UserNotFound) && groupUserMap == old(groupUserMap) && groupMessageMap == old(groupMessageMap))
              && (found.Some? && SameUser(adminMap[found.value], u) ==>
                    r == Err(CannotRemoveAdmin) && groupUserMap == old(groupUserMap) && groupMessageMap == old(groupMessageMap))
              && (found.Some? && !SameUser(adminMap[found.value], u) ==>
                    var g := found.value;
                    && groupUserMap == old(groupUserMap)[g := RemoveFirst(old(groupUserMap)[g], u)]
                    && groupMessageMap == old(groupMessageMap)[g := WithoutSender(old(groupMessageMap)[g], senderMap, u)]
                    && r == Ok(|groupUserMap[g]| + |groupMessageMap[g]| + |senderMap|))
    {
      var found := FindGroupByUser(u);
      if found.None? {
        return Err(UserNotFound);
      }
      if SameUser(adminMap[found.value], u) {
        return Err(CannotRemoveAdmin);
      }
      var n := Detach(u, found.value);
      r := Ok(n);
    }

    /** The removal both versions of removeUser share: u's first occurrence leaves the group's members and u's
        messages leave its list. Returns members left + messages left + entries of the sender index. An admin
        other than u stays a member. */
    method Detach(u: User, group: GroupId) returns (n: int)
      requires Valid() && group in groupUserMap
      modifies this`groupUserMap, this`groupMessageMap
      ensures Valid()
      ensures old(AdminsAreMembers()) && !SameUser(adminMap[group], u) ==> AdminsAreMembers()
      ensures groupUserMap == old(groupUserMap)[group := RemoveFirst(old(groupUserMap)[group], u)]
      ensures groupMessageMap == old(groupMessageMap)[group := WithoutSender(old(groupMessageMap)[group], senderMap, u)]
      ensures n == |groupUserMap[group]| + |groupMessageMap[group]| + |senderMap|
    {
      var members := RemoveFirst(groupUserMap[group], u);
      if !SameUser(u, adminMap[group]) {
        RemoveFirstKeepsOthers(groupUserMap[group], u, adminMap[group]);
      }
      var messages := WithoutSender(groupMessageMap[group], senderMap, u);
      WithoutSenderKeepsAttributed(groupMessageMap[group], senderMap, u);
      groupUserMap := groupUserMap[group := members];
      groupMessageMap := groupMessageMap[group := messages];
      n := |members| + |messages| + |senderMap|;
    }

    /** Gathers every group's messages in iteration order, keeps those strictly inside (start, end), and returns
        the content of the k-th most recent; fewer than k such messages is an error. */
    method FindMessage(start: int, end: int, k: int) returns (r: Result<string>)
      requires Listed(groupOrder, groupMessageMap)
      requires k >= 1
      ensures r == KthMostRecent(Collect(groupOrder, groupMessageMap), start, end, k)
    {
      var messages: seq<Message> := [];
      var i := 0;
      while i < |groupOrder|
        invariant 0 <= i <= |groupOrder|
        invariant messages == Collect(groupOrder[..i], groupMessageMap)
      {
        CollectStep(groupOrder, groupMessageMap, i);
        messages := messages + groupMessageMap[groupOrder[i]];
        i := i + 1;
      }
      assert groupOrder[..i] == groupOrder;
      var filterMessages: seq<Message> := [];
      var j := 0;
      while j < |messages|
        invariant 0 <= j <= |messages|
        invariant filterMessages == Window(messages[..j], start, end)
      {
        WindowStep(messages, j, start, end);
        if start < messages[j].timestamp && messages[j].timestamp < end {
          filterMessages := filterMessages + [messages[j]];
        }
        j := j + 1;
      }
      assert messages[..j] == messages;
      if |filterMessages| < k {
        return Err(NotEnoughMessages);
      }
      var sorted := SortNewestFirst(filterMessages);
      r := Ok(sorted[k - 1].content);
    }
  }
}
