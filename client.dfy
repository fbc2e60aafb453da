/**
 * The chat node's decision logic (src/MulticastChatClient.java): the receiver's per-packet
 * handlers, the sender's JOIN side effect and loop, and the quit test. Console output, threads,
 * sockets and time stamps are not modelled; a packet reaches the handlers already decoded.
 */
module Client {
  import opened Common
  import opened Users
  import opened Codec
  import opened Directory
  import opened DirectoryProperties

  const CLIENT_NAME: Bytes := Latin1("MyClient")
  const JOIN_MESSAGE: Bytes := Latin1("\\join")
  const LEAVE_MESSAGE: Bytes := Latin1("\\leave")

  /** ASCII lower case: `(?i)` without UNICODE_CASE folds US-ASCII letters only. */
  function LowerAscii(b: byte): (lower: byte)
  {
    if 65 <= b <= 90 then b + 32 else b
  }

  function Folded(line: Bytes): (r: Bytes)
    ensures |r| == |line|
  {
    seq(|line|, i requires 0 <= i < |line| => LowerAscii(line[i]))
  }

  /** `line.matches("(?i)quit|q")`: the whole line is "quit" or "q", ignoring ASCII case. */
  predicate IsQuit(line: Bytes)
    ensures IsQuit(line) ==> (|line| == 1 || |line| == 4) && line[0] in {81, 113}
  {
    var folded := Folded(line);
    assert |line| > 0 ==> folded[0] == LowerAscii(line[0]);
    folded == Latin1("quit") || folded == Latin1("q")
  }

  /** The outcome of one `readLine()`: a line, or an IOException (after which the message is ""). */
  datatype ReadResult = Line(text: Bytes) | ReadFailed

  /** The message the loop goes on with after one read. */
  function MessageOf(r: ReadResult): (message: Bytes)
  {
    if r.Line? then r.text else []
  }

  /**
   * The messages the sender loop sends for the lines it reads, and whether it met a quit line.
   * A failed read yields the empty message; the first quit line ends the loop.
   */
  function ChatLines(input: seq<ReadResult>): (r: (seq<Bytes>, bool))
    ensures |r.0| <= |input|
    ensures forall m :: m in r.0 ==> !IsQuit(m)
  {
    if input == [] then ([], false)
    else
      var message := MessageOf(input[0]);
      if IsQuit(message) then ([], true)
      else
        var rest := ChatLines(input[1..]);
        ([message] + rest.0, rest.1)
  }

  /** One step of `ChatLines` from position `i`. */
  lemma ChatLinesStep(input: seq<ReadResult>, i: nat)
    requires i < |input|
    ensures var message := MessageOf(input[i]);
            var rest := ChatLines(input[i + 1..]);
            ChatLines(input[i..]) == if IsQuit(message) then ([], true) else ([message] + rest.0, rest.1)
  {
    assert input[i..][0] == input[i] && input[i..][1..] == input[i + 1..];
  }

  /** The users a USER_LIST_UPDATE packet carries, as the possibly-null elements `addAllDistinct` iterates. */
  function Nullable(users: seq<User>): (r: seq<Option<User>>)
    ensures |r| == |users| && forall i :: 0 <= i < |users| ==> r[i] == Some(users[i])
  {
    seq(|users|, i requires 0 <= i < |users| => Some(users[i]))
  }

  class ChatClient {
    /** The local user; `parseArgs` always gives it a birth date. */
    const user: User
    const userList: UserListImpl

    ghost predicate Valid()
      reads this, userList
    {
      user.birthDate.Some? && userList.Valid()
    }

    constructor (user: User)
      requires user.birthDate.Some?
      ensures this.user == user && fresh(userList)
      ensures Valid() && userList.users == [] && userList.timerTask.None? && userList.currentRunnable == null
    {
      this.user := user;
      userList := new UserListImpl();
    }

    /** The packet `send` builds for one of the local user's intents. */
    function Outgoing(packetType: PacketType, message: Bytes): (p: Packet)
      requires user.birthDate.Some?
      ensures p.packetType == packetType && p.userName == user.userName && p.message == message
    {
      MessagePacket(packetType, user.birthDate.value, CLIENT_NAME, user.userName, message)
    }

    // ------------------------------------------------------------ what each handler does

    twostate predicate SlotUnchanged()
      reads this, userList
    {
      userList.timerTask == old(userList.timerTask) && userList.currentRunnable == old(userList.currentRunnable)
    }

    /**
     * JOIN: the joiner (name and birth date) goes through `addDistinct`; only a genuinely new
     * joiner leads to `scheduleListUpdate(listUpdate)`, which arms it unless it is the runnable
     * already remembered.
     */
    twostate predicate JoinHandled(packet: Packet, listUpdate: Task)
      reads this, userList
    {
      var isNew := !HasName(old(userList.users), packet.userName);
      && userList.users == (if isNew then old(userList.users) + [SenderOf(packet)] else old(userList.users))
      && (if isNew && old(userList.currentRunnable) != listUpdate
          then userList.currentRunnable == listUpdate && userList.IsPending()
               && userList.timerTask.value.runnable == listUpdate
          else SlotUnchanged())
    }

    /** LEAVE: the sender's name is removed; nothing is scheduled or cancelled. */
    twostate predicate LeaveHandled(packet: Packet)
      reads this, userList
    {
      userList.users == WithoutName(old(userList.users), packet.userName) && SlotUnchanged()
    }

    /**
     * USER_LIST_UPDATE: the pending broadcast is always cancelled; the incoming users are merged
     * only when the directory held at most one user.
     */
    twostate predicate ListUpdateHandled(packet: Packet)
      reads this, userList
      requires packet.users.Some?
    {
      && userList.users == (if |old(userList.users)| <= 1
                            then old(userList.users) + NewUsers(Nullable(packet.users.value), old(userList.users))
                            else old(userList.users))
      && userList.timerTask == CancelledTask(old(userList.timerTask))
      && !userList.IsPending()
      && (old(userList.timerTask).Some? ==> userList.currentRunnable == null)
    }

    // ------------------------------------------------------------ receiver

    /** `handleJoin`. */
    method HandleJoin(packet: Packet, listUpdate: Task)
      requires Valid()
      modifies userList
      ensures Valid()
      ensures JoinHandled(packet, listUpdate)
      ensures DistinctNames(old(userList.users)) ==> DistinctNames(userList.users)
    {
      var joinedUser := SenderOf(packet);
      var added := userList.AddDistinct(Some(joinedUser));
      if added {
        userList.ScheduleListUpdate(listUpdate);
      }
    }

    /** `handleLeave`; returns the membership line it then prints. */
    method HandleLeave(packet: Packet) returns (membership: Bytes)
      requires Valid()
      modifies userList
      ensures Valid()
      ensures LeaveHandled(packet)
      ensures membership == JoinNames(userList.users)
      ensures DistinctNames(old(userList.users)) ==> DistinctNames(userList.users)
    {
      if DistinctNames(userList.users) {
        WithoutNameDistinct(userList.users, packet.userName);
      }
      var leftUser := SenderOf(packet);
      userList.RemoveByName(leftUser);
      membership := userList.ToString();
    }

    /** `handleUserListUpdate`; returns the membership line it then prints. */
    method HandleUserListUpdate(packet: Packet) returns (membership: Bytes)
      requires Valid()
      requires packet.users.Some?
      modifies userList
      ensures Valid()
      ensures ListUpdateHandled(packet)
      ensures membership == JoinNames(userList.users)
      ensures DistinctNames(old(userList.users)) && DistinctNames(packet.users.value) ==> DistinctNames(userList.users)
    {
      if DistinctNames(userList.users) && DistinctNames(packet.users.value) {
        MergeKeepsDistinct(Nullable(packet.users.value), userList.users);
      }
      userList.CancelListUpdate();
      var count := userList.GetNumberOfUsers();
      if count <= 1 {
        userList.AddAllDistinct(Nullable(packet.users.value));
      }
      membership := userList.ToString();
    }

    /**
     * One pass of the receive loop for a packet that arrived: the switch on its type. UNKNOWN
     * packets are skipped with `continue`, so neither the directory nor the prompt is touched;
     * every other type is followed by the prompt. (`listUpdate` is the runnable the JOIN case
     * passes to `scheduleListUpdate`.)
     */
    method Receive(packet: Packet, listUpdate: Task) returns (membership: Option<Bytes>, prompted: bool)
      requires Valid()
      requires packet.packetType == UserListUpdate ==> packet.users.Some?
      modifies userList
      ensures Valid()
      ensures prompted <==> packet.packetType != UnknownPacketType
      ensures membership.Some? <==> packet.packetType in {Leave, UserListUpdate}
      ensures membership.Some? ==> membership.value == JoinNames(userList.users)
      ensures packet.packetType == Join ==> JoinHandled(packet, listUpdate)
      ensures packet.packetType == Leave ==> LeaveHandled(packet)
      ensures packet.packetType == UserListUpdate ==> ListUpdateHandled(packet)
      ensures packet.packetType in {Message, UnknownPacketType} ==>
                userList.users == old(userList.users) && SlotUnchanged()
      ensures DistinctNames(old(userList.users)) && (packet.users.Some? ==> DistinctNames(packet.users.value)) ==>
                DistinctNames(userList.users)
    {
      membership := None;
      match packet.packetType {
        case Join =>
          HandleJoin(packet, listUpdate);
        case Leave =>
          var line := HandleLeave(packet);
          membership := Some(line);
        case Message =>
        case UserListUpdate =>
          var line := HandleUserListUpdate(packet);
          membership := Some(line);
        case UnknownPacketType =>
          return None, false;
      }
      prompted := true;
    }

    // ------------------------------------------------------------ sender

    /**
     * `send`: builds the packet and hands it to the socket; `delivered` says whether the socket
     * accepted it. Only a delivered JOIN adds the local user to the directory.
     */
    method Send(packetType: PacketType, message: Bytes, delivered: bool) returns (packet: Packet)
      requires Valid()
      modifies userList`users
      ensures Valid()
      ensures packet == Outgoing(packetType, message)
      ensures userList.users ==
                if delivered && packetType == Join && !HasName(old(userList.users), user.userName)
                then old(userList.users) + [user] else old(userList.users)
    {
      packet := Outgoing(packetType, message);
      if delivered {
        if packetType == Join {
          var _ := userList.AddDistinct(Some(user));
        }
      }
    }

    /** `sendUserListUpdate`: a USER_LIST_UPDATE packet carrying a snapshot of the directory. */
    method SendUserListUpdate() returns (packet: Packet)
      requires Valid()
      ensures packet.packetType == UserListUpdate && packet.userName == user.userName
      ensures packet.protocolVersion == CURRENT_PROTOCOL_VERSION
      ensures packet.birthDate == user.birthDate.value && packet.clientName == CLIENT_NAME
      ensures packet.users == Some(userList.users)
      ensures packet.message == FormattedUsers(userList.users)
    {
      var snapshot := userList.AsCollection();
      packet := UserListPacket(UserListUpdate, user.birthDate.value, CLIENT_NAME, user.userName, snapshot);
    }

    /**
     * The message loop of `MulticastChatSender.run`: one MESSAGE per line read, stopping at a
     * quit line (`quit` is then true) or at the end of the input.
     */
    method SendLines(input: seq<ReadResult>) returns (sent: seq<Packet>, quit: bool)
      requires Valid()
      modifies userList`users
      ensures Valid() && userList.users == old(userList.users)
      ensures quit == ChatLines(input).1
      ensures |sent| == |ChatLines(input).0|
      ensures forall k :: 0 <= k < |sent| ==> sent[k] == Outgoing(Message, ChatLines(input).0[k])
    {
      sent := [];
      ghost var messages: seq<Bytes> := [];
      var i := 0;
      quit := false;
      assert input[0..] == input && messages + ChatLines(input).0 == ChatLines(input).0;
      while i < |input| && !quit
        invariant 0 <= i <= |input|
        invariant Valid() && userList.users == old(userList.users)
        invariant !quit ==> ChatLines(input) == (messages + ChatLines(input[i..]).0, ChatLines(input[i..]).1)
        invariant quit ==> ChatLines(input) == (messages, true)
        invariant |sent| == |messages|
        invariant forall k :: 0 <= k < |messages| ==> sent[k] == Outgoing(Message, messages[k])
      {
        var message := MessageOf(input[i]);
        ChatLinesStep(input, i);
        ghost var rest := ChatLines(input[i + 1..]);
        if IsQuit(message) {
          assert messages + [] == messages;
          quit := true;
        } else {
          var packet := Send(Message, message, false);
          sent := sent + [packet];
          assert messages + ([message] + rest.0) == (messages + [message]) + rest.0;
          messages := messages + [message];
        }
        i := i + 1;
      }
    }

    /**
     * `MulticastChatSender.run`: JOIN first, then one MESSAGE per line until a quit line, then
     * LEAVE. When the input ends first, `readLine()` yields null, the quit test throws, and the
     * thread ends without a LEAVE. Only the JOIN's delivery matters to the directory.
     */
    method RunSender(input: seq<ReadResult>, joinDelivered: bool) returns (sent: seq<Packet>, left: bool)
      requires Valid()
      modifies userList`users
      ensures Valid()
      ensures left == ChatLines(input).1
      ensures |sent| == |ChatLines(input).0| + (if left then 2 else 1)
      ensures sent[0] == Outgoing(Join, JOIN_MESSAGE)
      ensures forall k :: 0 <= k < |ChatLines(input).0| ==> sent[k + 1] == Outgoing(Message, ChatLines(input).0[k])
      ensures left ==> sent[|sent| - 1] == Outgoing(Leave, LEAVE_MESSAGE)
      ensures userList.users ==
                if joinDelivered && !HasName(old(userList.users), user.userName)
                then old(userList.users) + [user] else old(userList.users)
    {
      var join := Send(Join, JOIN_MESSAGE, joinDelivered);
      ghost var joined := userList.users;
      var lines;
      lines, left := SendLines(input);
      assert userList.users == joined;
      sent := [join] + lines;
      assert forall k :: 0 <= k < |lines| ==> sent[k + 1] == lines[k];
      if left {
        var leave := Send(Leave, LEAVE_MESSAGE, false);
        assert sent + [leave] == [join] + lines + [leave];
        sent := sent + [leave];
      }
    }
  }
}
