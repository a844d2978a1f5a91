/** The entities of the messaging store and the error kinds its operations report. */
module Domain {

  type Mobile = string
  /** Surrogate identity of a Group object. */
  type GroupId = nat
  /** Identity of a Message (its id). */
  type MessageId = nat

  /** A registered person; two User values denote the same person when their mobiles agree. */
  datatype User = User(name: string, mobile: Mobile)

  /** What createGroup hands back: the group's identity, its name and its size at creation. */
  datatype Group = Group(id: GroupId, name: string, numberOfParticipants: nat)

  /** A message as the caller built it; timestamps are plain integers. */
  datatype Message = Message(id: MessageId, content: string, timestamp: int)

  /** One kind per exception the store throws. */
  datatype Error =
    | UserAlreadyExists        // createUser: "User is already Exist"
    | GroupDoesNotExist        // sendMessage, changeAdmin
    | NotAllowedToSend         // sendMessage: sender is not a member
    | ApproverWithoutRights    // changeAdmin: approver is not the admin
    | UserNotParticipant       // changeAdmin: new admin is not a member
    | UserNotFound             // removeUser: no group holds the user
    | CannotRemoveAdmin        // removeUser with a working admin guard
    | NotEnoughMessages        // findMessage: fewer than k messages in the window

  datatype Result<T> = Ok(value: T) | Err(error: Error)

  datatype Option<T> = None | Some(value: T)

  /** User equality: identity is the mobile number. */
  predicate SameUser(a: User, b: User) {
    a.mobile == b.mobile
  }

  /** List.contains on a member list. */
  predicate Contains(s: seq<User>, u: User) {
    exists i :: 0 <= i < |s| && SameUser(s[i], u)
  }
}
