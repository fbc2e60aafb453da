/**
 * Concrete runs of the directory and of several chat nodes, driven through the modelled
 * handlers. A broadcast user list travels between nodes through `ToByteArray` and `Decode`;
 * JOIN and LEAVE packets travel as values, which decoding gives back unchanged
 * (`DecodeEncodeExact`).
 */
module Scenarios {
  import opened Common
  import opened Users
  import opened Codec
  import opened CodecProperties
  import opened Directory
  import opened Client

  const A: Bytes := [65]
  const B: Bytes := [66]
  const C: Bytes := [67]
  const BIRTH: Date := Date(1990, 1, 1)

  /** Adding "A" twice: true, then false, and one entry. */
  method AddSameNameTwice() returns (first: bool, second: bool, count: nat)
    ensures first && !second && count == 1
  {
    var list := new UserListImpl();
    first := list.AddDistinct(Some(User(A, None)));
    HasNameAppend([], User(A, None), A);
    second := list.AddDistinct(Some(User(A, Some(BIRTH))));
    count := list.GetNumberOfUsers();
  }

  /** `addDistinct(null)` is refused and changes nothing. */
  method AddNull() returns (added: bool, count: nat)
    ensures !added && count == 0
  {
    var list := new UserListImpl();
    added := list.AddDistinct(None);
    count := list.GetNumberOfUsers();
  }

  /**
   * After the armed runnable has run, scheduling the same runnable again does nothing, because
   * only a cancel forgets it; after a cancel it is armed again.
   */
  method RescheduleAfterFiring() returns (ran: Task?, task: Task, pendingAfterRun: bool, pendingAfterCancel: bool)
    ensures ran == task
    ensures !pendingAfterRun && pendingAfterCancel
  {
    var list := new UserListImpl();
    task := new Task();
    list.ScheduleListUpdate(task);
    ran := list.RunDueTask();
    list.ScheduleListUpdate(task);
    pendingAfterRun := list.IsPending();
    list.CancelListUpdate();
    list.ScheduleListUpdate(task);
    pendingAfterCancel := list.IsPending();
  }

  /** Which of the names A, B, C a list of two of them holds. */
  lemma HasNameOfTwo(x: User, y: User, name: Bytes)
    ensures HasName([x, y], name) <==> x.userName == name || y.userName == name
  {
    HasNameAppend([], x, name);
    assert [x] + [y] == [x, y];
    HasNameAppend([x], y, name);
  }

  /** C, knowing only itself, merges a list of users named A, B and C. */
  lemma MergeIntoC(ua: User, ub: User, uc: User, self: User)
    requires ua.userName == A && ub.userName == B && uc.userName == C && self.userName == C
    ensures NewUsers(Nullable([ua, ub, uc]), [self]) == [ua, ub]
  {
    var input := Nullable([ua, ub, uc]);
    assert input == [Some(ua), Some(ub), Some(uc)];
    assert [] + [self] == [self];
    HasNameAppend([], self, A);
    HasNameAppend([], self, B);
    HasNameAppend([], self, C);
    assert input[1..][1..][1..] == [];
    assert NewUsers(input[1..][1..], [self]) == [];
    assert NewUsers(input[1..], [self]) == [ub];
  }

  /** The records of three one-letter names. */
  lemma FormattedThree(ua: User, ub: User, uc: User)
    requires ua.userName == A && ub.userName == B && uc.userName == C
    ensures FormattedUsers([ua, ub, uc]) == [1, 65, 1, 66, 1, 67]
  {
    var users := [ua, ub, uc];
    assert users[1..] == [ub, uc] && users[1..][1..] == [uc] && users[1..][1..][1..] == [];
    assert FormattedUsers([uc]) == [1, 67];
    assert FormattedUsers([ub, uc]) == [1, 66, 1, 67];
  }

  /**
   * A's broadcast of A, B and C as every other node decodes it from the wire: the same three
   * names, in order, without birth dates.
   */
  lemma UpdateOverTheWire(update: Packet)
    requires update == UserListPacket(UserListUpdate, BIRTH, CLIENT_NAME, A,
                                      [User(A, Some(BIRTH)), User(B, Some(BIRTH)), User(C, Some(BIRTH))])
    ensures var r := Decode(Encode(update));
            && r.Ok? && r.value.packetType == UserListUpdate
            && r.value.users == Some([User(A, None), User(B, None), User(C, None)])
  {
    var users := [User(A, Some(BIRTH)), User(B, Some(BIRTH)), User(C, Some(BIRTH))];
    FormattedThree(users[0], users[1], users[2]);
    UserListOverTheWire(BIRTH, CLIENT_NAME, A, users, []);
    assert Encode(update) + [] == Encode(update);
    var parsed := Decode(Encode(update)).value.users.value;
    assert |parsed| == 3;
    assert parsed[0] in parsed && parsed[1] in parsed && parsed[2] in parsed;
    assert Names(parsed)[0] == A && Names(parsed)[1] == B && Names(parsed)[2] == C;
    assert parsed == [User(A, None), User(B, None), User(C, None)];
  }

  lemma JoinNamesOfThree(ux: User, uy: User, uz: User)
    ensures JoinNames([ux, uy, uz]) == ux.userName + SEPARATOR + uy.userName + SEPARATOR + uz.userName
  {
    assert [ux, uy, uz][1..] == [uy, uz] && [uy, uz][1..] == [uz];
    assert JoinNames([uy, uz]) == uy.userName + SEPARATOR + uz.userName;
  }

  /** B leaves a node that knows A and B. */
  lemma LeaveOfB(ua: User, ub: User)
    requires ua.userName == A && ub.userName == B
    ensures WithoutName([ua, ub], B) == [ua]
    ensures JoinNames([ua]) == A
  {
    assert [ua, ub][1..] == [ub] && [ub][1..] == [];
  }

  /** A node that knows A and B. */
  method TwoMemberNode(self: Bytes, other: Bytes) returns (node: ChatClient)
    requires self != other
    ensures fresh(node) && fresh(node.userList) && node.Valid()
    ensures node.user == User(self, Some(BIRTH))
    ensures node.userList.users == [User(self, Some(BIRTH)), User(other, Some(BIRTH))]
    ensures !node.userList.IsPending() && node.userList.currentRunnable == null
  {
    node := new ChatClient(User(self, Some(BIRTH)));
    var _ := node.Send(Join, JOIN_MESSAGE, true);
    HasNameAppend([], User(self, Some(BIRTH)), other);
    var _ := node.userList.AddDistinct(Some(User(other, Some(BIRTH))));
  }

  /** A node that knows `self` and `other` receives C's JOIN and arms its broadcast. */
  method NodeSeesJoin(self: Bytes, other: Bytes, join: Packet) returns (node: ChatClient, task: Task)
    requires self != other && self != C && other != C
    requires join == MessagePacket(Join, BIRTH, CLIENT_NAME, C, JOIN_MESSAGE)
    ensures fresh(node) && fresh(node.userList) && node.Valid() && node.user == User(self, Some(BIRTH))
    ensures node.userList.users == [User(self, Some(BIRTH)), User(other, Some(BIRTH)), User(C, Some(BIRTH))]
    ensures node.userList.IsPending() && node.userList.currentRunnable == task
  {
    node := TwoMemberNode(self, other);
    task := new Task();
    HasNameOfTwo(User(self, Some(BIRTH)), User(other, Some(BIRTH)), C);
    var _, _ := node.Receive(join, task);
  }

  /** A member that already lists three users receives the broadcast: it stops its own, merges nothing. */
  method MemberHearsUpdate(b: ChatClient, update: Packet, task: Task) returns (pending: bool, count: nat)
    requires b.Valid() && |b.userList.users| == 3
    requires update.packetType == UserListUpdate && update.users.Some?
    modifies b.userList
    ensures !pending && count == 3
  {
    var _, _ := b.Receive(update, task);
    pending := b.userList.IsPending();
    count := b.userList.GetNumberOfUsers();
  }

  /** The membership line of a directory listing C, A and B. */
  lemma LineOfThree(uc: User, ua: User, ub: User)
    requires uc.userName == C && ua.userName == A && ub.userName == B
    ensures JoinNames([uc, ua, ub]) == [67, 44, 32, 65, 44, 32, 66]
  {
    JoinNamesOfThree(uc, ua, ub);
    assert C + SEPARATOR + A + SEPARATOR + B == [67, 44, 32, 65, 44, 32, 66];
  }

  /** The directory of the newcomer C after merging a list named A, B, C, and its membership line. */
  lemma NewcomerMerge(self: User, incoming: seq<User>)
    requires self.userName == C && Names(incoming) == [A, B, C]
    ensures [self] + NewUsers(Nullable(incoming), [self]) == [self] + incoming[..2]
    ensures JoinNames([self] + incoming[..2]) == [67, 44, 32, 65, 44, 32, 66]
  {
    assert |incoming| == 3;
    var ua, ub, uc := incoming[0], incoming[1], incoming[2];
    assert incoming == [ua, ub, uc] && incoming[..2] == [ua, ub];
    assert ua.userName == A && ub.userName == B && uc.userName == C;
    MergeIntoC(ua, ub, uc, self);
    LineOfThree(self, ua, ub);
    assert [self] + [ua, ub] == [self, ua, ub];
  }

  /**
   * The newcomer, listing only itself, receives a broadcast naming A, B and C and merges A and
   * B as the broadcast carries them.
   */
  method NewcomerHearsUpdate(c: ChatClient, update: Packet, task: Task) returns (membership: Option<Bytes>)
    requires c.Valid() && c.userList.users == [User(C, Some(BIRTH))]
    requires update.packetType == UserListUpdate && update.users.Some?
    requires Names(update.users.value) == [A, B, C]
    modifies c.userList
    ensures c.userList.users == [User(C, Some(BIRTH))] + update.users.value[..2]
    ensures membership == Some([67, 44, 32, 65, 44, 32, 66])
  {
    NewcomerMerge(User(C, Some(BIRTH)), update.users.value);
    var prompted;
    membership, prompted := c.Receive(update, task);
  }

  /** A, listing A, B and C, sends its USER_LIST_UPDATE; another node receives the decoded bytes. */
  method BroadcastOfA(a: ChatClient) returns (heard: Packet)
    requires a.Valid() && a.user == User(A, Some(BIRTH))
    requires a.userList.users == [User(A, Some(BIRTH)), User(B, Some(BIRTH)), User(C, Some(BIRTH))]
    ensures heard.packetType == UserListUpdate
    ensures heard.users == Some([User(A, None), User(B, None), User(C, None)])
  {
    var update := a.SendUserListUpdate();
    var wire := ToByteArray(update);
    UpdateOverTheWire(update);
    var received := Decode(wire[..]);
    heard := received.value;
  }

  /**
   * C joins a group of A and B. Both schedule a broadcast; A's fires first and goes over the
   * wire. Its USER_LIST_UPDATE, as decoded, cancels B's pending broadcast without changing B's
   * three entries, while C, which knew only itself, merges A and B without their birth dates
   * and prints "C, A, B".
   */
  method JoinSuppression() returns (aRan: bool, bPendingBefore: bool, bPendingAfter: bool,
                                    bCount: nat, cMembership: Option<Bytes>, cUsers: seq<User>)
    ensures aRan && bPendingBefore && !bPendingAfter && bCount == 3
    ensures cMembership == Some([67, 44, 32, 65, 44, 32, 66])
    ensures cUsers == [User(C, Some(BIRTH)), User(A, None), User(B, None)]
  {
    var c := new ChatClient(User(C, Some(BIRTH)));
    var join := c.Send(Join, JOIN_MESSAGE, true);
    var a, aTask := NodeSeesJoin(A, B, join);
    var b, bTask := NodeSeesJoin(B, A, join);
    bPendingBefore := b.userList.IsPending();

    var ran := a.userList.RunDueTask();
    aRan := ran == aTask;
    var heard := BroadcastOfA(a);
    assert Names(heard.users.value) == [A, B, C];

    bPendingAfter, bCount := MemberHearsUpdate(b, heard, bTask);
    cMembership := NewcomerHearsUpdate(c, heard, bTask);
    cUsers := c.userList.users;
  }

  /** A JOIN from a name already listed schedules nothing. */
  method KnownJoinerIgnored() returns (pending: bool, count: nat)
    ensures !pending && count == 2
  {
    var a := TwoMemberNode(A, B);
    var task := new Task();
    var join := MessagePacket(Join, BIRTH, CLIENT_NAME, B, JOIN_MESSAGE);
    HasNameOfTwo(User(A, Some(BIRTH)), User(B, Some(BIRTH)), B);
    var _, _ := a.Receive(join, task);
    pending := a.userList.IsPending();
    count := a.userList.GetNumberOfUsers();
  }

  /** LEAVE of B from a node that knows A and B leaves "A". */
  method LeaveRemovesName() returns (membership: Option<Bytes>)
    ensures membership == Some(A)
  {
    var a := TwoMemberNode(A, B);
    var task := new Task();
    var leave := MessagePacket(Leave, BIRTH, CLIENT_NAME, B, LEAVE_MESSAGE);
    LeaveOfB(User(A, Some(BIRTH)), User(B, Some(BIRTH)));
    var line, _ := a.Receive(leave, task);
    membership := line;
  }

  /** An UNKNOWN packet neither prompts nor prints a membership line. */
  method UnknownSkipped() returns (prompted: bool, membership: Option<Bytes>, count: nat)
    ensures !prompted && membership.None? && count == 2
  {
    var a := TwoMemberNode(A, B);
    var task := new Task();
    var odd := MessagePacket(UnknownPacketType, BIRTH, CLIENT_NAME, C, []);
    membership, prompted := a.Receive(odd, task);
    count := a.userList.GetNumberOfUsers();
  }
}
