/** Client runs of the store, each pinning down what a short sequence of operations returns. */
module Scenarios {
  import opened Domain
  import opened Naming
  import opened Members
  import opened Timeline
  import opened Enumeration
  import opened Repository

  /** The first two multi-member names. */
  lemma FirstTwoNames()
    ensures GroupName(1) == "Group1" && GroupName(2) == "Group2"
  {
    assert NatToString(1) == "1" && NatToString(2) == "2";
  }

  /** The naming example of createGroup: {Alex, Bob, Charlie}, {Dan, Evan}, {Felix, Graham, Hugh} are named
      "Group1", "Evan" and "Group2"; the personal chat in between does not advance the counter. */
  method NamingExample() returns (g1: Group, g2: Group, g3: Group)
    ensures g1.name == "Group1" && g2.name == "Evan" && g3.name == "Group2"
    ensures g1.numberOfParticipants == 3 && g2.numberOfParticipants == 2 && g3.numberOfParticipants == 3
    ensures g1.id != g2.id && g2.id != g3.id && g1.id != g3.id
  {
    var store := new WhatsappRepository();
    var alex, bob, charlie := User("Alex", "1"), User("Bob", "2"), User("Charlie", "3");
    var dan, evan := User("Dan", "4"), User("Evan", "5");
    var felix, graham, hugh := User("Felix", "6"), User("Graham", "7"), User("Hugh", "8");
    g1 := store.CreateGroup([alex, bob, charlie], 0);
    g2 := store.CreateGroup([dan, evan], 0);
    g3 := store.CreateGroup([felix, graham, hugh], 0);
    FirstTwoNames();
  }

  /** Registering a mobile twice fails the second time, whatever the name. */
  method DuplicateMobile() returns (first: Result<string>, second: Result<string>)
    ensures first == Ok("SUCCESS") && second == Err(UserAlreadyExists)
  {
    var store := new WhatsappRepository();
    first := store.CreateUser("Alice", "+1");
    second := store.CreateUser("Alicia", "+1");
  }

  /** Successive message ids are 1, 2, 3. */
  method MessageIds() returns (a: nat, b: nat, c: nat)
    ensures a == 1 && b == 2 && c == 3
  {
    var store := new WhatsappRepository();
    a := store.CreateMessage("one");
    b := store.CreateMessage("two");
    c := store.CreateMessage("three");
  }

  const Alice := User("Alice", "+1")
  const Bob := User("Bob", "+2")
  const Charlie := User("Charlie", "+3")
  const Dan := User("Dan", "+4")
  const M1 := Message(1, "first", 10)
  const M2 := Message(2, "second", 20)
  const M3 := Message(3, "third", 30)

  /** Alice, Bob and Charlie form Group1 (group 0), Alice and Dan a personal chat named "Dan" (group 1), which
      hashing places first in the iteration order. */
  method TwoGroups() returns (store: WhatsappRepository)
    ensures fresh(store) && store.Valid() && store.groupCount == 2 && store.groupOrder == [1, 0]
    ensures store.groupUserMap[0] == [Alice, Bob, Charlie] && store.groupUserMap[1] == [Alice, Dan]
    ensures store.groupMessageMap[0] == [] && store.groupMessageMap[1] == []
    ensures store.senderMap == map[] && store.messageId == 0
  {
    store := new WhatsappRepository();
    var group1 := store.CreateGroup([Alice, Bob, Charlie], 0);
    assert store.groupOrder == [0] by { assert Place([], 0, 0) == [] + [0] + []; }
    var chat := store.CreateGroup([Alice, Dan], 0);
    assert store.groupOrder == [1, 0] by { assert Place([0], 1, 0) == [0][..0] + [1] + [0][0..]; }
    assert group1.name == "Group1" by { FirstTwoNames(); }
    assert chat.name == "Dan";
  }

  /** Bob, Charlie and Bob send one message each into Group1, which counts 1, 2, 3; Dan, not a member, is refused. */
  method ThreeMessages(store: WhatsappRepository) returns (counts: seq<Result<nat>>, refused: Result<nat>)
    requires store.Valid() && store.groupCount == 2
    requires store.groupUserMap[0] == [Alice, Bob, Charlie]
    requires store.groupMessageMap[0] == [] && store.senderMap == map[] && store.messageId == 0
    modifies store
    ensures counts == [Ok(1), Ok(2), Ok(3)]
    ensures refused == Err(NotAllowedToSend)
    ensures store.Valid() && store.groupCount == 2 && store.groupOrder == old(store.groupOrder)
    ensures store.groupUserMap == old(store.groupUserMap)
    ensures store.groupMessageMap == old(store.groupMessageMap)[0 := [M1, M2, M3]]
    ensures store.senderMap == map[1 := Bob, 2 := Charlie, 3 := Bob]
  {
    var id1 := store.CreateMessage("first");
    var id2 := store.CreateMessage("second");
    var id3 := store.CreateMessage("third");
    assert SameUser(store.groupUserMap[0][1], Bob) && SameUser(store.groupUserMap[0][2], Charlie);
    var c1 := store.SendMessage(Message(id1, "first", 10), Bob, 0);
    assert store.groupMessageMap[0] == [M1];
    var c2 := store.SendMessage(Message(id2, "second", 20), Charlie, 0);
    assert store.groupMessageMap[0] == [M1, M2];
    var c3 := store.SendMessage(Message(id3, "third", 30), Bob, 0);
    assert store.groupMessageMap[0] == [M1, M2, M3];
    counts := [c1, c2, c3];
    refused := Intruder(store);
  }

  /** Dan is not in Group1, so his message is refused and nothing changes. */
  method Intruder(store: WhatsappRepository) returns (refused: Result<nat>)
    requires store.Valid() && 0 in store.groupUserMap && store.groupUserMap[0] == [Alice, Bob, Charlie]
    modifies store
    ensures refused == Err(NotAllowedToSend)
    ensures store.Valid() && store.groupCount == old(store.groupCount) && store.groupOrder == old(store.groupOrder)
    ensures store.groupUserMap == old(store.groupUserMap) && store.groupMessageMap == old(store.groupMessageMap)
    ensures store.senderMap == old(store.senderMap) && store.messageId == old(store.messageId)
  {
    assert !Contains(store.groupUserMap[0], Dan);
    refused := store.SendMessage(Message(4, "intruder", 40), Dan, 0);
  }

  /** With the chat's list empty, the messages gathered in the order [1, 0] are Group1's. */
  lemma CollectChatThenGroup(lists: map<GroupId, seq<Message>>)
    requires 0 in lists && 1 in lists && lists[1] == []
    ensures Listed([1, 0], lists)
    ensures Collect([1, 0], lists) == lists[0]
  {
    assert [1, 0][..1] == [1] && [1][..0] == [];
    assert Collect([1], lists) == [];
  }

  /** The most recent of the three messages inside (0, 100) is the third. */
  lemma LatestOfThree()
    ensures KthMostRecent([M1, M2, M3], 0, 100, 1) == Ok("third")
  {
    assert [M1, M2, M3][..2] == [M1, M2] && [M1, M2][..1] == [M1] && [M1][..0] == [];
    assert Window([M1], 0, 100) == [M1];
    assert Window([M1, M2], 0, 100) == [M1, M2];
    assert Window([M1, M2, M3], 0, 100) == [M1, M2, M3];
    assert SortNewestFirst([M1, M2]) == [M2, M1];
    assert SortNewestFirst([M1, M2, M3]) == [M3, M2, M1];
  }

  /** findMessage over the whole store returns the third message as the most recent one. */
  method Latest(store: WhatsappRepository) returns (latest: Result<string>)
    requires store.Valid() && store.groupOrder == [1, 0]
    requires 0 in store.groupMessageMap && store.groupMessageMap[0] == [M1, M2, M3]
    requires 1 in store.groupMessageMap && store.groupMessageMap[1] == []
    ensures latest == Ok("third")
  {
    CollectChatThenGroup(store.groupMessageMap);
    LatestOfThree();
    latest := store.FindMessage(0, 100, 1);
  }

  /** Bob is in Group1 only, so the scan finds Group1. */
  lemma BobInGroup1(members: map<GroupId, seq<User>>)
    requires 0 in members && members[0] == [Alice, Bob, Charlie]
    requires 1 in members && members[1] == [Alice, Dan]
    ensures FirstGroupOf([1, 0], members, Bob) == Some(0)
  {
    assert !Contains(members[1], Bob);
    assert SameUser(members[0][1], Bob);
    assert [1, 0][1..] == [0];
  }

  /** What removing Bob leaves of Group1: Alice and Charlie, and Charlie's message. */
  lemma WithoutBob(senders: map<MessageId, User>)
    requires senders == map[1 := Bob, 2 := Charlie, 3 := Bob]
    ensures RemoveFirst([Alice, Bob, Charlie], Bob) == [Alice, Charlie]
    ensures Attributed([M1, M2, M3], senders)
    ensures WithoutSender([M1, M2, M3], senders, Bob) == [M2]
  {
    assert [Alice, Bob, Charlie][1..] == [Bob, Charlie];
    assert [M1, M2, M3][1..] == [M2, M3] && [M2, M3][1..] == [M3] && [M3][1..] == [];
    assert WithoutSender([M3], senders, Bob) == [];
    assert WithoutSender([M2, M3], senders, Bob) == [M2];
  }

  /** Removing Bob leaves Alice and Charlie and Charlie's message; the sender index keeps its three entries, so the
      result is 2 + 1 + 3. */
  method RemoveBob(store: WhatsappRepository) returns (removed: Result<int>)
    requires store.Valid() && store.groupOrder == [1, 0]
    requires 0 in store.groupUserMap && store.groupUserMap[0] == [Alice, Bob, Charlie]
    requires 1 in store.groupUserMap && store.groupUserMap[1] == [Alice, Dan]
    requires 0 in store.groupMessageMap && store.groupMessageMap[0] == [M1, M2, M3]
    requires store.senderMap == map[1 := Bob, 2 := Charlie, 3 := Bob]
    modifies store
    ensures removed == Ok(6)
    ensures 0 in store.groupUserMap && store.groupUserMap[0] == [Alice, Charlie]
    ensures 0 in store.groupMessageMap && store.groupMessageMap[0] == [M2]
  {
    BobInGroup1(store.groupUserMap);
    WithoutBob(store.senderMap);
    assert |store.senderMap| == 3;
    removed := store.RemoveUser(Bob);
  }

  /** The whole run, from an empty store. */
  method EndToEnd() returns (counts: seq<Result<nat>>, refused: Result<nat>, latest: Result<string>, removed: Result<int>)
    ensures counts == [Ok(1), Ok(2), Ok(3)]
    ensures refused == Err(NotAllowedToSend)
    ensures latest == Ok("third")
    ensures removed == Ok(6)
  {
    var store := TwoGroups();
    counts, refused := ThreeMessages(store);
    latest := Latest(store);
    removed := RemoveBob(store);
  }

  /** A store holding only Group1 (Alice, Bob, Charlie), whose admin is Alice. */
  method OneGroup() returns (store: WhatsappRepository)
    ensures fresh(store) && store.Valid() && store.AdminsAreMembers()
    ensures store.groupOrder == [0] && store.adminMap == map[0 := Alice]
    ensures store.groupUserMap == map[0 := [Alice, Bob, Charlie]] && store.groupMessageMap == map[0 := []]
    ensures store.senderMap == map[]
  {
    store := new WhatsappRepository();
    var group1 := store.CreateGroup([Alice, Bob, Charlie], 0);
    assert store.groupOrder == [0] by { assert Place([], 0, 0) == [] + [0] + []; }
  }

  /** The code as written lets the admin be removed: Alice leaves Group1 (2 + 0 + 0) and the admin map still names
      her, so the group's admin is no longer one of its members. */
  method AdminRemovedAsWritten() returns (store: WhatsappRepository, r: Result<int>)
    ensures r == Ok(2)
    ensures store.Valid() && 0 in store.adminMap && 0 in store.groupUserMap
    ensures store.adminMap[0] == Alice && !Contains(store.groupUserMap[0], Alice)
    ensures !store.AdminsAreMembers()
  {
    store := OneGroup();
    assert FirstGroupOf([0], store.groupUserMap, Alice) == Some(0) by {
      assert SameUser(store.groupUserMap[0][0], Alice);
    }
    assert RemoveFirst([Alice, Bob, Charlie], Alice) == [Bob, Charlie];
    assert WithoutSender([], store.senderMap, Alice) == [];
    r := store.RemoveUser(Alice);
    assert !Contains([Bob, Charlie], Alice);
  }

  /** With the guard working, removing the admin is refused and the group keeps its members. */
  method AdminRefusedGuarded() returns (store: WhatsappRepository, r: Result<int>)
    ensures r == Err(CannotRemoveAdmin)
    ensures store.Valid() && store.AdminsAreMembers() && store.groupUserMap == map[0 := [Alice, Bob, Charlie]]
  {
    store := OneGroup();
    assert FirstGroupOf([0], store.groupUserMap, Alice) == Some(0) by {
      assert SameUser(store.groupUserMap[0][0], Alice);
    }
    r := store.RemoveUserGuarded(Alice);
  }
}
