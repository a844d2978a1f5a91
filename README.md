# WhatsappRepository, modelled in Dafny

This project models the in-memory store of a small messaging service: the class `WhatsappRepository`. The store registers users by mobile number, creates groups (two-person chats and numbered multi-member groups), allocates message ids, and appends messages to groups after checking membership. It also lets a group's admin hand over the role, removes a user from their group together with their messages, and finds the k-th most recent message in a time window across all groups.

The class becomes the Dafny class `Repository.WhatsappRepository`, with the source's fields and one method per operation:

- `groupUserMap` (members), `groupMessageMap` (message lists), `senderMap` (sender index) and `adminMap` become `map` fields.
- `userMobile` becomes a `set` field.
- `customGroupCount` and `messageId` become counters.
- `groupOrder` is the order in which the group-keyed hash maps enumerate their groups.
- `groupCount` allocates group identities.

Failures are values of a `Result` datatype, one error kind per exception of the source. The pure pieces each operation relies on live in their own modules; each method's postcondition names them and lemmas prove their properties:

- **Naming** (`naming.dfy`): the multi-member group name, `"Group"` followed by the decimal counter.
- **Members** (`members.dfy`): `List.remove(Object)` (only the first occurrence goes) and the `removeIf` filter over the message list.
- **Timeline** (`timeline.dfy`): the gathering of messages across groups, the open time window, the newest-first stable sort, and the meaning of "k-th most recent".
- **Enumeration** (`enumeration.dfy`): the iteration order of the hash maps, an arbitrary listing of the groups that names each exactly once.

The store keeps a consistency invariant, `Valid()`:

- The three group maps hold the same groups, namely those created so far.
- The iteration order lists each of those groups once.
- Every message in a group's list has an entry in the sender index.

Every method that changes state preserves it. A second invariant, `AdminsAreMembers()`, says that every group's admin is one of its members.
- `createGroup` and `changeAdmin` preserve it.
- `removeUser` as written breaks it (see Findings).
- The guarded removal keeps it.

`scenarios.dfy` runs the store from an empty state through the naming example of the source's comments (:47-48) and an end-to-end run: two groups, three messages sent, a refused intruder, a window query and a removal. It also runs the admin-removal case.

Identity. Users are compared by mobile number: `User.equals` is not part of this model. Groups and messages are identified by surrogate ids: `Group.id` and `Message.id`.

Where the code and its own comments or documentation differ, the model follows the code:

- The multi-member group name is `"Group"+count` with no space (:61): `"Group1"`, not the `"Group 1"` of the comment at :43.
- `removeUser` drops the user's messages from the group's list only (:131). The sender index keeps their entries, and the result counts them (:137).
- The admin guard of `removeUser` never fires (:120-121). `RemoveUser` models the code; `RemoveUserGuarded` is the intended behaviour.

## Model

| member | source | states |
|---|---|---|
| Repository.WhatsappRepository.constructor | src/main/java/com/driver/WhatsappRepository.java:20-28 | all maps and the mobile set start empty and both counters start at 0; the empty store is consistent and every admin is a member |
| Repository.WhatsappRepository.CreateUser | src/main/java/com/driver/WhatsappRepository.java:29-37 | a mobile already registered gives UserAlreadyExists and leaves the set unchanged; otherwise the result is "SUCCESS" and exactly that mobile is added; nothing else can change |
| Repository.WhatsappRepository.CreateGroup | src/main/java/com/driver/WhatsappRepository.java:40-66 | with 2 users: named after users[1] and the counter unchanged; with more: counter + 1 and named GroupName of the new count; in both cases the size is recorded, a fresh group gets members = users, admin = users[0], an empty message list, and a place in the iteration order; consistency and admin membership are kept |
| Repository.WhatsappRepository.Register | src/main/java/com/driver/WhatsappRepository.java:54-56 | the three map updates both branches of createGroup share: a fresh id gets members = users, admin = users[0] and an empty message list, and enters the iteration order at slot; consistency and admin membership are kept |
| Repository.WhatsappRepository.CreateMessage | src/main/java/com/driver/WhatsappRepository.java:68-72 | returns the previous id + 1, which becomes the stored counter, so successive ids strictly increase |
| Repository.WhatsappRepository.SendMessage | src/main/java/com/driver/WhatsappRepository.java:74-90 | unknown group gives GroupDoesNotExist, then a non-member sender gives NotAllowedToSend, both with no change; otherwise the sender is recorded for the message id, the message is appended to that group's list only, and the result is the old length + 1 |
| Repository.WhatsappRepository.ChangeAdmin | src/main/java/com/driver/WhatsappRepository.java:92-112 | the three guards in the source's order (group missing, approver not the current admin, user not a member), each leaving the admin map unchanged; on success only that group's admin becomes user; admins stay members |
| Repository.WhatsappRepository.FindGroupByUser | src/main/java/com/driver/WhatsappRepository.java:140-147 | given only that every group of the iteration order has a member list, the loop returns exactly FirstGroupOf: the first group in iteration order whose members contain u, or None when none does |
| Repository.WhatsappRepository.FirstGroupOfCovers | src/main/java/com/driver/WhatsappRepository.java:141-146 | scanning the iteration order and finding nothing means no group of the store contains u, and conversely |
| Repository.WhatsappRepository.RemoveUser | src/main/java/com/driver/WhatsappRepository.java:114-139 | ends with UserNotFound and no change when no group holds u; otherwise, in the group found, the members lose u's first occurrence and the message list becomes u-free in order; the sender index is kept and the result is members + messages + sender-index size; the admin guard is absent as in the code |
| Repository.WhatsappRepository.RemoveUserGuarded | src/main/java/com/driver/WhatsappRepository.java:114-139 | as RemoveUser, except that when u is the found group's admin the result is CannotRemoveAdmin and nothing changes; every admin stays a member |
| Repository.WhatsappRepository.Detach | src/main/java/com/driver/WhatsappRepository.java:125-138 | the mutation removeUser performs on one group, with the new members, the new message list and the returned sum stated exactly; consistency is kept, and so is admin membership when the group's admin is not u |
| Repository.WhatsappRepository.FindMessage | src/main/java/com/driver/WhatsappRepository.java:149-173 | given only that every group of the iteration order has a message list, the two loops and the sort compute exactly KthMostRecent of all groups' messages gathered in iteration order |
| Repository.FirstGroupOf | src/main/java/com/driver/WhatsappRepository.java:141-146 | a group found has a member list that holds u; the result is None exactly when no group of the order holds u |
| Repository.FirstGroupOfIsFirst | src/main/java/com/driver/WhatsappRepository.java:141-146 | a group found sits at some position of the order, and no earlier group holds u |
| Repository.FirstGroupOfStep | src/main/java/com/driver/WhatsappRepository.java:141-146 | one loop step: scanning from position i finds the group at i when it holds u, and otherwise whatever scanning from i + 1 finds |
| Repository.FirstGroupOfUnique | src/main/java/com/driver/WhatsappRepository.java:141-146 | when exactly one group holds u, the scan finds it whatever the iteration order |
| Repository.ConsistentAddGroup | src/main/java/com/driver/WhatsappRepository.java:54-56 | a new group with members, an empty message list and an admin, placed anywhere in the order, keeps the store consistent, and its id was not in use |
| Repository.AdminsAddGroup | src/main/java/com/driver/WhatsappRepository.java:54-55 | adding a group whose admin is its first member keeps every admin a member |
| Repository.ConsistentSend | src/main/java/com/driver/WhatsappRepository.java:85-88 | appending a message and recording its sender keeps every listed message attributed |
| Naming.NatToString | src/main/java/com/driver/WhatsappRepository.java:61 | the decimal text of the counter is non-empty, all digits, and a single digit exactly below 10 |
| Naming.ParseNatToString | src/main/java/com/driver/WhatsappRepository.java:61 | reading the decimal text back gives the counter |
| Naming.NatToStringInjective | src/main/java/com/driver/WhatsappRepository.java:61 | different counters give different texts |
| Naming.GroupName | src/main/java/com/driver/WhatsappRepository.java:61 | the name starts with "Group", has digits after it and contains no space |
| Naming.GroupNamesDistinct | src/main/java/com/driver/WhatsappRepository.java:60-61 | multi-member groups created at different counter values have different names |
| Members.FirstIndex | src/main/java/com/driver/WhatsappRepository.java:126 | the index of a member equal to u with no earlier one |
| Members.RemoveFirst | src/main/java/com/driver/WhatsappRepository.java:126 | one member fewer when u is present; the list unchanged when u is absent |
| Members.RemoveFirstAt | src/main/java/com/driver/WhatsappRepository.java:126 | exactly the entry at u's first index is cut out, and the rest keep their order |
| Members.RemoveFirstKeepsOthers | src/main/java/com/driver/WhatsappRepository.java:126 | every user other than u is a member afterwards exactly when they were before |
| Members.RemoveFirstLeavesLaterCopy | src/main/java/com/driver/WhatsappRepository.java:126 | a user listed twice is still a member after one removal |
| Members.WithoutSender | src/main/java/com/driver/WhatsappRepository.java:131 | no longer than the list, and every kept message is from the list and not sent by u |
| Members.WithoutSenderKeepsOthers | src/main/java/com/driver/WhatsappRepository.java:131 | every message of another sender is kept, and exactly as many messages go as u sent |
| Members.WithoutSenderKeepsAttributed | src/main/java/com/driver/WhatsappRepository.java:131 | kept messages still have senders recorded |
| Members.WithoutSenderAppend | src/main/java/com/driver/WhatsappRepository.java:131 | filtering distributes over concatenation, so the kept messages stay in their original order |
| Members.WithoutSenderIdempotent | src/main/java/com/driver/WhatsappRepository.java:131 | filtering the result again removes nothing |
| Timeline.Collect | src/main/java/com/driver/WhatsappRepository.java:150-153 | a message is gathered exactly when it is in the list of some group of the order |
| Timeline.CollectStep | src/main/java/com/driver/WhatsappRepository.java:151-153 | one pass of the first loop: gathering one more group appends exactly that group's list |
| Timeline.Window | src/main/java/com/driver/WhatsappRepository.java:154-159 | no longer than the input, and a message is kept exactly when it is in the input and strictly between start and end |
| Timeline.WindowStep | src/main/java/com/driver/WhatsappRepository.java:155-159 | one pass of the second loop: the next message is appended exactly when it lies strictly inside the window |
| Timeline.Insert | src/main/java/com/driver/WhatsappRepository.java:165-170 | insertion adds one element |
| Timeline.InsertMembers | src/main/java/com/driver/WhatsappRepository.java:165-170 | after insertion, a message is present exactly when it is the inserted one or was present before |
| Timeline.InsertPermutes | src/main/java/com/driver/WhatsappRepository.java:165-170 | insertion adds the message and nothing else, as multisets |
| Timeline.InsertNewestFirst | src/main/java/com/driver/WhatsappRepository.java:165-170 | inserting into a newest-first list keeps it newest first |
| Timeline.ConsNewestFirst | src/main/java/com/driver/WhatsappRepository.java:165-170 | putting a message at least as new as all others in front of a newest-first list keeps it newest first |
| Timeline.SortNewestFirst | src/main/java/com/driver/WhatsappRepository.java:165-170 | the sort keeps the length |
| Timeline.SortNewestFirstPermutes | src/main/java/com/driver/WhatsappRepository.java:165-170 | the sorted list is a permutation of the input |
| Timeline.SortNewestFirstOrders | src/main/java/com/driver/WhatsappRepository.java:165-170 | the sorted list has non-increasing timestamps |
| Timeline.CountAfterSort | src/main/java/com/driver/WhatsappRepository.java:165-170 | sorting keeps, for every instant, the number of messages after it |
| Timeline.KthOfSorted | src/main/java/com/driver/WhatsappRepository.java:172 | in a newest-first list, fewer than k entries are newer than the k-th and at least k are as new |
| Timeline.KthMostRecentMeaning | src/main/java/com/driver/WhatsappRepository.java:149-173 | the search fails, with NotEnoughMessages, exactly when fewer than k messages lie strictly inside the window; otherwise it returns the content of a window message that has fewer than k window messages newer than it and at least k as new, so it is the k-th most recent |
| Timeline.KthOfWindowIsMember | src/main/java/com/driver/WhatsappRepository.java:172 | the k-th entry of the sorted window is a message of the window |
| Timeline.KthOfWindowRank | src/main/java/com/driver/WhatsappRepository.java:165-172 | the k-th entry of the sorted window has fewer than k newer window messages and at least k as new |
| Enumeration.EnumerationCovers | src/main/java/com/driver/WhatsappRepository.java:141 | an iteration order of n groups misses none of them |
| Enumeration.DistinctWithin | src/main/java/com/driver/WhatsappRepository.java:141 | a list of distinct groups drawn from a pool is no longer than the pool |
| Enumeration.Place | src/main/java/com/driver/WhatsappRepository.java:55 | the new group enters the iteration order once and the other groups stay |
| Enumeration.PlaceEnumerates | src/main/java/com/driver/WhatsappRepository.java:55 | wherever the new group lands, the order still lists every group exactly once |
| Scenarios.NamingExample | src/main/java/com/driver/WhatsappRepository.java:47-48 | three creations are named "Group1", "Evan", "Group2" (the comment's "Group 1" without the space) with sizes 3, 2, 3 |
| Scenarios.DuplicateMobile | src/main/java/com/driver/WhatsappRepository.java:32-37 | the same mobile registers once; the second attempt fails |
| Scenarios.MessageIds | src/main/java/com/driver/WhatsappRepository.java:68-72 | three allocations give 1, 2, 3 |
| Scenarios.ThreeMessages | src/main/java/com/driver/WhatsappRepository.java:74-90 | three sends into one group count 1, 2, 3 and a non-member is refused |
| Scenarios.Latest | src/main/java/com/driver/WhatsappRepository.java:149-173 | the most recent message of the window is the third one |
| Scenarios.RemoveBob | src/main/java/com/driver/WhatsappRepository.java:114-139 | removing a member who sent two of three messages returns 2 + 1 + 3, since the sender index is not purged |
| Scenarios.EndToEnd | src/main/java/com/driver/WhatsappRepository.java:29-173 | the whole run from an empty store yields counts 1, 2, 3, a refusal, "third", and 6 |
| Scenarios.AdminRemovedAsWritten | src/main/java/com/driver/WhatsappRepository.java:120-123 | the code removes a group's admin: the result is Ok, and afterwards the admin map names a non-member |
| Scenarios.AdminRefusedGuarded | src/main/java/com/driver/WhatsappRepository.java:120-123 | with the guard working, removing the admin gives CannotRemoveAdmin and the members stay |

## Left out

- The Spring `@Repository` annotation (:5, :7): framework wiring with no behaviour.
- `java.util.Date`: timestamps are integers, and `after`/`before` are the strict comparisons `>` and `<` (:156).
- Hash-map iteration order (:141, :151) is unspecified. It is the field `groupOrder`, an arbitrary listing of the groups that names each exactly once.
  - Where a new group lands in that listing stands for hashing. It is the extra `slot` parameter of `CreateGroup`.
  - A later rehash that reorders existing groups is not modelled.
- `equals`/`hashCode` of `User`, `Group` and `Message`: those classes are not part of this model.
  - Users are equal when their mobiles are.
  - Groups are their surrogate ids.
  - The sender index is keyed by the message id.
- The caller's `users` list, stored by reference at :55/:63 and later changed in place by `removeUser`, is copied as a sequence. The model does not capture aliasing between the caller's list and the store.
- The `User` and `Message` objects built and dropped at :35 and :70 have no effect and are not modelled.
- Exception message strings: failures are the `Error` kinds.
- `findMessage` with k <= 0 indexes out of bounds at :172. It is excluded by the precondition k >= 1.
- `createGroup` with fewer than two users is excluded by the precondition |users| >= 2, which the comment at :41 demands of callers.
- The `getOrDefault` fallbacks at :86 and :130 are never taken: every group has a message list while the store is consistent.
- Concurrency: the source has none.
- The message list `messages.add`/`removeIf` work in place on a `List`. The model replaces the map entry with the new sequence, which is the same observable state.
- Collections.sort (:165) is library code. It is modelled by a stable insertion sort with the same comparator. The model relies only on the sort's observable promise: a stable permutation ordered newest first.
- CreateMessage: does not model the 32-bit wrap-around of `messageId++` past 2147483647; the counter is unbounded.
- CreateGroup: does not model the 32-bit wrap-around of `customGroupCount++`; the counter is unbounded.
- RemoveUser: the sum of the three sizes (:138) is an unbounded integer, not a 32-bit one.

## Findings

| source | as written | input that shows it | evidently intended | confidence | as-written member | corrected member |
|---|---|---|---|---|---|---|
| src/main/java/com/driver/WhatsappRepository.java:120-123 | the guard looks up the group-keyed `adminMap` with the user as key, which gives null, then compares the String "null" with a User, which is never equal, so the admin is removed | a store with one group Alice, Bob, Charlie whose admin is Alice; removeUser(Alice) succeeds with 2 and leaves the admin map naming Alice, no longer a member | removing the admin of the found group fails with "Cannot remove admin" and changes nothing | high, not executed | Scenarios.AdminRemovedAsWritten | Repository.WhatsappRepository.RemoveUserGuarded |
