/**
 * The multicast chat wire format (src/MulticastChatPacket.java):
 *
 *   byte 0      version (high nibble) | type id (low nibble)
 *   bytes 1-3   day (5 bits) | month (4 bits) | year (11 bits) | 4 zero fill bits
 *   then three fields, each a length byte (0..127) followed by that many ISO-8859-1 bytes:
 *   client name, user name, message.
 *
 * A USER_LIST_UPDATE message is itself a concatenation of (length byte, name) records.
 */
module Codec {
  import opened Common
  import opened Users

  const MAX_STRING_FIELD_SIZE := 127
  const MAX_PACKET_SIZE := 388
  const CURRENT_PROTOCOL_VERSION := 2

  datatype PacketType = UnknownPacketType | Join | Leave | Message | UserListUpdate
  {
    function Id(): int
    {
      match this
      case UnknownPacketType => -1
      case Join => 1
      case Leave => 2
      case Message => 3
      case UserListUpdate => 4
    }
  }

  /** `PacketType.getById`: the type whose id is `id`, and UNKNOWN_PACKET_TYPE for every other id. */
  function GetById(id: int): (t: PacketType)
    ensures t.Id() == id || (t == UnknownPacketType && !(1 <= id <= 4))
    ensures t != UnknownPacketType <==> 1 <= id <= 4
  {
    if id == 1 then Join
    else if id == 2 then Leave
    else if id == 3 then Message
    else if id == 4 then UserListUpdate
    else UnknownPacketType
  }

  /**
   * A packet's fields. `users` is the list parsed from (or formatted into) the message of a
   * USER_LIST_UPDATE packet, and None (null) otherwise. The receive time stamp is not modelled.
   */
  datatype Packet = Packet(
    protocolVersion: int,
    packetType: PacketType,
    birthDate: Date,
    clientName: Bytes,
    userName: Bytes,
    message: Bytes,
    users: Option<seq<User>>)

  /** The user a packet speaks for (`getUser`): its name with the packet's birth date. */
  function SenderOf(p: Packet): (u: User)
    ensures u.userName == p.userName && u.birthDate == Some(p.birthDate)
  {
    User(p.userName, Some(p.birthDate))
  }

  datatype DecodeError =
    | IndexOutOfBounds        // ArrayIndexOutOfBoundsException from data[k]
    | StringIndexOutOfBounds  // StringIndexOutOfBoundsException from new String(data, offset, length)
    | InvalidDate             // DateTimeException from LocalDate.of

  datatype Result<T> = Ok(value: T) | Err(error: DecodeError)

  // ---------------------------------------------------------------- user list payload

  /**
   * The records of a USER_LIST_UPDATE payload from position `i` on, each length clamped to the
   * bytes that remain after its length byte.
   */
  function ParsedFrom(bytes: Bytes, i: nat): (users: seq<User>)
    requires i <= |bytes|
    ensures |users| <= |bytes| - i
    decreases |bytes| - i
  {
    if i == |bytes| then []
    else
      var nameLength := Min(bytes[i], |bytes| - (i + 1));
      [User(bytes[i + 1..i + 1 + nameLength], None)] + ParsedFrom(bytes, i + 1 + nameLength)
  }

  /** The users of a whole payload. */
  function ParsedUsers(bytes: Bytes): (users: seq<User>)
    ensures |users| <= |bytes|
  {
    ParsedFrom(bytes, 0)
  }

  /** Parsed users are name-only, and each name is shorter than the rest of the payload it came from. */
  lemma {:induction false} ParsedFromNameOnly(bytes: Bytes, i: nat)
    requires i <= |bytes|
    ensures forall u :: u in ParsedFrom(bytes, i) ==> u.birthDate.None? && |u.userName| < |bytes| - i
    decreases |bytes| - i
  {
    if i < |bytes| {
      var nameLength := Min(bytes[i], |bytes| - (i + 1));
      ParsedFromNameOnly(bytes, i + 1 + nameLength);
    }
  }

  lemma ParsedUsersAreNameOnly(bytes: Bytes)
    ensures forall u :: u in ParsedUsers(bytes) ==> u.birthDate.None? && |u.userName| < |bytes|
  {
    ParsedFromNameOnly(bytes, 0);
  }

  /** The record at `i`, of the given clamped length, followed by the records from `next` on. */
  lemma ParsedFromRecord(bytes: Bytes, i: nat, nameLength: nat, next: nat)
    requires i < |bytes| && nameLength == Min(bytes[i], |bytes| - (i + 1)) && next == i + 1 + nameLength
    ensures ParsedFrom(bytes, i) == [User(bytes[i + 1..next], None)] + ParsedFrom(bytes, next)
  {
  }

  /** A slice of `bytes` is the same slice of `prefix + bytes`, shifted by the prefix. */
  lemma SliceAfterPrefix(prefix: Bytes, bytes: Bytes, a: nat, b: nat, shiftedA: nat, shiftedB: nat)
    requires a <= b <= |bytes| && shiftedA == |prefix| + a && shiftedB == |prefix| + b
    ensures (prefix + bytes)[shiftedA..shiftedB] == bytes[a..b]
  {
  }

  /**
   * Bytes in front of the payload do not change how the records after them are read: the parse of
   * `prefix + bytes` from `|prefix| + i` is the parse of `bytes` from `i`.
   */
  lemma {:induction false} ParsedFromShift(prefix: Bytes, bytes: Bytes, all: Bytes, i: nat, j: nat)
    requires all == prefix + bytes && i <= |bytes| && j == |prefix| + i
    ensures ParsedFrom(all, j) == ParsedFrom(bytes, i)
    decreases |bytes| - i
  {
    if i == |bytes| {
      assert j == |all|;
    } else {
      var nameLength := Min(bytes[i], |bytes| - (i + 1));
      var next := i + 1 + nameLength;
      var shiftedNext := |prefix| + next;
      assert all[j] == bytes[i] && |all| - (j + 1) == |bytes| - (i + 1);
      SliceAfterPrefix(prefix, bytes, i + 1, next, j + 1, shiftedNext);
      ParsedFromShift(prefix, bytes, all, next, shiftedNext);
      ParsedFromRecord(all, j, nameLength, shiftedNext);
      ParsedFromRecord(bytes, i, nameLength, next);
    }
  }

  /** What `parseUsers` yields: a list only for USER_LIST_UPDATE, null otherwise. */
  function UsersOf(packetType: PacketType, message: Bytes): (users: Option<seq<User>>)
    ensures users.Some? <==> packetType == UserListUpdate
  {
    if packetType != UserListUpdate then None else Some(ParsedUsers(message))
  }

  /** Reading the record at `i` moves it from the unread part to the parsed part. */
  lemma ParseStep(bytes: Bytes, i: nat, nameLength: nat, parsed: seq<User>, name: Bytes)
    requires i < |bytes| && nameLength == Min(bytes[i], |bytes| - (i + 1))
    requires name == bytes[i + 1..i + 1 + nameLength]
    ensures parsed + ParsedFrom(bytes, i) == (parsed + [User(name, None)]) + ParsedFrom(bytes, i + 1 + nameLength)
  {
  }

  /** `parseUsers`, with its loop over the payload and its defensive clamp. */
  method ParseUsers(packetType: PacketType, message: Bytes) returns (users: Option<seq<User>>)
    ensures users == UsersOf(packetType, message)
  {
    if packetType != UserListUpdate {
      return None;
    }
    var bytes := message;
    var parsed: seq<User> := [];
    var i := 0;
    while i < |bytes|
      invariant 0 <= i <= |bytes|
      invariant parsed + ParsedFrom(bytes, i) == ParsedFrom(bytes, 0)
      decreases |bytes| - i
    {
      var nameOffset := i + 1;
      var nameLength: int := bytes[i];
      nameLength := Min(nameLength, |bytes| - nameOffset);
      var name := bytes[nameOffset..nameOffset + nameLength];
      ParseStep(bytes, i, nameLength, parsed, name);
      parsed := parsed + [User(name, None)];
      i := nameOffset + nameLength;
    }
    assert parsed + [] == parsed;
    return Some(parsed);
  }

  /** One record of the user-list payload: the name's length (taken modulo 256 by the byte cast), then the name. */
  function UserRecord(u: User): (record: Bytes)
  {
    [|u.userName| % 256] + u.userName
  }

  function FormattedUsers(users: seq<User>): (records: Bytes)
  {
    if users == [] then [] else UserRecord(users[0]) + FormattedUsers(users[1..])
  }

  /** What `formatUsersForMessage` yields: the records for USER_LIST_UPDATE, "" otherwise. */
  function UsersMessage(packetType: PacketType, users: seq<User>): (message: Bytes)
    ensures packetType != UserListUpdate ==> message == []
  {
    if packetType != UserListUpdate then [] else FormattedUsers(users)
  }

  lemma {:induction false} FormattedUsersAppend(users: seq<User>, u: User)
    ensures FormattedUsers(users + [u]) == FormattedUsers(users) + UserRecord(u)
  {
    if users == [] {
      assert [u][1..] == [];
    } else {
      assert (users + [u])[1..] == users[1..] + [u];
      FormattedUsersAppend(users[1..], u);
    }
  }

  /** `formatUsersForMessage`, appending record after record to a builder. */
  method FormatUsersForMessage(packetType: PacketType, users: seq<User>) returns (message: Bytes)
    ensures message == UsersMessage(packetType, users)
  {
    if packetType != UserListUpdate {
      return [];
    }
    var sb: Bytes := [];
    var k := 0;
    while k < |users|
      invariant 0 <= k <= |users|
      invariant sb == FormattedUsers(users[..k])
    {
      var name := users[k].userName;
      var nameLength := |name| % 256;
      FormattedUsersAppend(users[..k], users[k]);
      assert users[..k + 1] == users[..k] + [users[k]];
      sb := sb + [nameLength];
      sb := sb + name;
      k := k + 1;
    }
    assert users[..k] == users;
    return sb;
  }

  /** A record whose name is under 256 bytes is read back as that name. */
  lemma ParseRecord(name: Bytes, rest: Bytes)
    requires |name| < 256
    ensures ParsedUsers([|name|] + name + rest) == [User(name, None)] + ParsedUsers(rest)
  {
    var head := [|name|] + name;
    var bytes := head + rest;
    assert bytes[0] == |name| && Min(bytes[0], |bytes| - 1) == |name|;
    assert bytes[1..1 + |name|] == name;
    ParsedFromShift(head, rest, bytes, 0, |head|);
  }

  /** Parsing the formatted list gives back every name, as name-only users, when each name is under 256 bytes. */
  lemma {:induction false} ParseFormatRoundTrip(users: seq<User>)
    requires forall i :: 0 <= i < |users| ==> |users[i].userName| < 256
    ensures Names(ParsedUsers(FormattedUsers(users))) == Names(users)
    ensures forall u :: u in ParsedUsers(FormattedUsers(users)) ==> u.birthDate.None?
  {
    if users != [] {
      var name := users[0].userName;
      var rest := FormattedUsers(users[1..]);
      assert FormattedUsers(users) == [|name|] + name + rest;
      ParseRecord(name, rest);
      ParseFormatRoundTrip(users[1..]);
      ParsedUsersAreNameOnly(FormattedUsers(users));
      var parsedRest := ParsedUsers(rest);
      assert Names([User(name, None)] + parsedRest) == [name] + Names(parsedRest);
      assert Names(users) == [name] + Names(users[1..]);
    }
  }

  /** A 256-byte name is formatted with length byte 0, so parsing does not give it back. */
  lemma OverlongNameIsLost(name: Bytes)
    requires |name| == 256
    ensures FormattedUsers([User(name, None)])[0] == 0
    ensures Names(ParsedUsers(FormattedUsers([User(name, None)]))) != [name]
  {
    var u := User(name, None);
    var bytes := FormattedUsers([u]);
    assert [u][1..] == [];
    assert FormattedUsers([u][1..]) == [];
    assert bytes == UserRecord(u);
    assert bytes == [0] + name;
    assert bytes[1..1] == [];
    assert ParsedUsers(bytes)[0].userName == [];
  }

  // ---------------------------------------------------------------- building constructors

  /** The constructor taking a message: version 2, and the users parsed from the message. */
  function MessagePacket(packetType: PacketType, birthDate: Date, clientName: Bytes, userName: Bytes,
                         message: Bytes): (p: Packet)
    ensures p.protocolVersion == CURRENT_PROTOCOL_VERSION && p.packetType == packetType
    ensures p.birthDate == birthDate && p.clientName == clientName && p.userName == userName
    ensures p.message == message
    ensures p.users.Some? <==> packetType == UserListUpdate
    ensures p.users.Some? ==> forall u :: u in p.users.value ==> u.birthDate.None?
  {
    ParsedUsersAreNameOnly(message);
    Packet(CURRENT_PROTOCOL_VERSION, packetType, birthDate, clientName, userName, message,
           UsersOf(packetType, message))
  }

  /**
   * The constructor taking a user collection: version 2, a copy of the users, and the message
   * formatted from them ("" unless the type is USER_LIST_UPDATE).
   */
  function UserListPacket(packetType: PacketType, birthDate: Date, clientName: Bytes, userName: Bytes,
                          users: seq<User>): (p: Packet)
    ensures p.protocolVersion == CURRENT_PROTOCOL_VERSION && p.packetType == packetType
    ensures p.birthDate == birthDate && p.clientName == clientName && p.userName == userName
    ensures p.users == Some(users)
    ensures packetType != UserListUpdate ==> p.message == []
    ensures packetType == UserListUpdate ==> p.message == FormattedUsers(users)
  {
    Packet(CURRENT_PROTOCOL_VERSION, packetType, birthDate, clientName, userName,
           UsersMessage(packetType, users), Some(users))
  }

  // ---------------------------------------------------------------- header byte and date bits

  /** Byte 0 as `toByteArray` writes it: `(version & 0x0F) << 4 | (typeId & 0x0F)`. */
  function HeaderByte(protocolVersion: int, typeId: int): (b: byte)
    ensures b / 16 == protocolVersion % 16 && b % 16 == typeId % 16
  {
    (protocolVersion % 16) * 16 + typeId % 16
  }

  /** `data[0] >>> 4`: the byte is sign-extended to a 32-bit int before the unsigned shift. */
  function HeaderVersion(header: byte): (v: int)
    ensures 0 <= v < 0x1000_0000
    ensures header < 128 ==> v == header / 16
    ensures header >= 128 ==> v == 0x0FFF_FFF0 + header / 16
  {
    (Signed(header) % 0x1_0000_0000) / 16
  }

  /** `PacketType.getById(data[0] & 0x0F)`. */
  function HeaderType(header: byte): (t: PacketType)
    ensures t != UnknownPacketType ==> t.Id() == header % 16
  {
    GetById(header % 16)
  }

  /** The 24-bit date field: `(day & 0x1F) << 19 | (month & 0x0F) << 15 | (year & 0x07FF) << 4`. */
  function DateBits(d: Date): (bits: nat)
    ensures bits < 0x100_0000
    ensures bits % 16 == 0
  {
    (d.day % 32) * 0x8_0000 + (d.month % 16) * 0x8000 + (d.year % 2048) * 16
  }

  /** Bytes 1-3: `dateBits >>> 16 & 0xFF`, `dateBits >>> 8 & 0xFF`, `dateBits & 0xFF`. */
  function DateBytes(bits: nat): (r: Bytes)
    requires bits < 0x100_0000
    ensures |r| == 3
  {
    [bits / 0x1_0000 % 256, bits / 0x100 % 256, bits % 256]
  }

  /** The decoder's `(data[1] & 0xFF) << 16 | (data[2] & 0xFF) << 8 | (data[3] & 0xFF)`. */
  function JoinedDateBits(b1: byte, b2: byte, b3: byte): (bits: nat)
    ensures bits < 0x100_0000
  {
    b1 * 0x1_0000 + b2 * 0x100 + b3
  }

  /**
   * `parseBirthDateBits`: day, month and year read back from their bit positions of a 32-bit
   * value (given as its unsigned pattern); `LocalDate.of` rejects a triple that is not a date.
   */
  function ParseBirthDateBits(bits: nat): (r: Result<Date>)
    requires bits < 0x1_0000_0000
    ensures r.Ok? ==> IsValidDate(r.value) && 0 <= r.value.year < 2048
    ensures r.Err? ==> r.error == InvalidDate
  {
    var day := bits / 0x8_0000 % 32;
    var month := bits / 0x8000 % 16;
    var year := bits / 16 % 2048;
    var date := Date(year, month, day);
    if IsValidDate(date) then Ok(date) else Err(InvalidDate)
  }

  // ---------------------------------------------------------------- encoder

  /** The length byte `toByteArray` writes for a field: its byte count, capped at 127. */
  function StringFieldLength(field: Bytes): (length: nat)
  {
    if |field| <= MAX_STRING_FIELD_SIZE then |field| else MAX_STRING_FIELD_SIZE
  }

  /** The part of a field that reaches the wire. */
  function Truncated(field: Bytes): (prefix: Bytes)
  {
    field[..StringFieldLength(field)]
  }

  function EncodedField(field: Bytes): (encoded: Bytes)
  {
    [StringFieldLength(field)] + Truncated(field)
  }

  /** The bytes `toByteArray` produces. */
  function Encode(p: Packet): (data: Bytes)
    ensures |data| == 7 + StringFieldLength(p.clientName) + StringFieldLength(p.userName)
                        + StringFieldLength(p.message)
    ensures |data| <= MAX_PACKET_SIZE
  {
    [HeaderByte(p.protocolVersion, p.packetType.Id())] + DateBytes(DateBits(p.birthDate))
    + EncodedField(p.clientName) + EncodedField(p.userName) + EncodedField(p.message)
  }

  /**
   * The layout of an encoded packet: each length byte is the field's byte count capped at 127,
   * and exactly that prefix of the field follows it.
   */
  lemma EncodeLayout(p: Packet)
    ensures var data := Encode(p);
            var cl, ul, ml := StringFieldLength(p.clientName), StringFieldLength(p.userName),
                              StringFieldLength(p.message);
            && cl == Min(|p.clientName|, MAX_STRING_FIELD_SIZE)
            && ul == Min(|p.userName|, MAX_STRING_FIELD_SIZE)
            && ml == Min(|p.message|, MAX_STRING_FIELD_SIZE)
            && |data| == 7 + cl + ul + ml
            && data[0] == HeaderByte(p.protocolVersion, p.packetType.Id())
            && data[1..4] == DateBytes(DateBits(p.birthDate))
            && data[4] == cl && data[5..5 + cl] == p.clientName[..cl]
            && data[5 + cl] == ul && data[6 + cl..6 + cl + ul] == p.userName[..ul]
            && data[6 + cl + ul] == ml && data[7 + cl + ul..] == p.message[..ml]
  {
    var data := Encode(p);
    var cl, ul := StringFieldLength(p.clientName), StringFieldLength(p.userName);
    var head := [HeaderByte(p.protocolVersion, p.packetType.Id())] + DateBytes(DateBits(p.birthDate));
    var c, u, m := EncodedField(p.clientName), EncodedField(p.userName), EncodedField(p.message);
    assert data == head + c + u + m;
    assert data[..4] == head;
    assert data == head + c + (u + m);
    MiddleSlice(head, c, u + m, 4, 5 + cl);
    assert data == (head + c) + u + m;
    MiddleSlice(head + c, u, m, 5 + cl, 6 + cl + ul);
    assert data[6 + cl + ul..] == m;
  }

  /** The middle part of `a + b + c`, sliced at the given bounds. */
  lemma MiddleSlice(a: Bytes, b: Bytes, c: Bytes, i: nat, j: nat)
    requires i == |a| && j == |a| + |b|
    ensures (a + b + c)[i..j] == b
  {
  }

  /** `System.arraycopy(src, 0, dest, destPos, length)`. */
  method ArrayCopy(src: Bytes, dest: array<byte>, destPos: nat, length: nat)
    requires length <= |src| && destPos + length <= dest.Length
    modifies dest
    ensures dest[..destPos] == old(dest[..destPos])
    ensures dest[destPos..destPos + length] == src[..length]
    ensures dest[destPos + length..] == old(dest[destPos + length..])
  {
    var k := 0;
    while k < length
      invariant 0 <= k <= length
      invariant forall j :: 0 <= j < dest.Length ==>
                  dest[j] == if destPos <= j < destPos + k then src[j - destPos] else old(dest[j])
    {
      dest[destPos + k] := src[k];
      k := k + 1;
    }
  }

  /** One field of `toByteArray`: its length byte at `offset`, then `System.arraycopy` of that many bytes. */
  method PutField(data: array<byte>, offset: nat, field: Bytes)
    requires offset + 1 + StringFieldLength(field) <= data.Length
    modifies data
    ensures data[..offset] == old(data[..offset])
    ensures data[offset..offset + 1 + StringFieldLength(field)] == EncodedField(field)
    ensures data[offset + 1 + StringFieldLength(field)..] == old(data[offset + 1 + StringFieldLength(field)..])
  {
    var length := StringFieldLength(field);
    data[offset] := length;
    ghost var written := data[..];
    ArrayCopy(field, data, offset + 1, length);
    assert data[offset..offset + 1 + length] == [written[offset]] + data[offset + 1..offset + 1 + length];
  }

  /** Bytes 0-3 of `toByteArray`: the header byte, then the date bits cut into three bytes. */
  method PutHeader(data: array<byte>, p: Packet)
    requires 4 <= data.Length
    modifies data
    ensures data[..4] == [HeaderByte(p.protocolVersion, p.packetType.Id())] + DateBytes(DateBits(p.birthDate))
    ensures data[4..] == old(data[4..])
  {
    data[0] := HeaderByte(p.protocolVersion, p.packetType.Id());
    var dateBits := DateBits(p.birthDate);
    data[1] := dateBits / 0x1_0000 % 256;
    data[2] := dateBits / 0x100 % 256;
    data[3] := dateBits % 256;
  }

  /** A known prefix followed by a known slice is a longer known prefix. */
  lemma PrefixGrows(s: Bytes, offset: nat, end: nat, known: Bytes, field: Bytes)
    requires offset <= end <= |s|
    requires s[..offset] == known && s[offset..end] == field
    ensures s[..end] == known + field
  {
    assert s[..end] == s[..offset] + s[offset..end];
  }

  /**
   * `toByteArray`: allocates the exact size and fills in the header, the date bytes and the three
   * length-prefixed fields, each cut to at most 127 bytes.
   */
  method ToByteArray(p: Packet) returns (data: array<byte>)
    ensures fresh(data)
    ensures data[..] == Encode(p)
    ensures data.Length <= MAX_PACKET_SIZE
  {
    var clientNameOffset := 4;
    var clientNameLength := StringFieldLength(p.clientName);
    var userNameOffset := clientNameOffset + clientNameLength + 1;
    var userNameLength := StringFieldLength(p.userName);
    var messageOffset := userNameOffset + userNameLength + 1;
    var messageLength := StringFieldLength(p.message);

    data := new byte[messageOffset + 1 + messageLength];
    PutHeader(data, p);
    ghost var head := [HeaderByte(p.protocolVersion, p.packetType.Id())] + DateBytes(DateBits(p.birthDate));

    PutField(data, clientNameOffset, p.clientName);
    ghost var upToUser := head + EncodedField(p.clientName);
    PrefixGrows(data[..], clientNameOffset, userNameOffset, head, EncodedField(p.clientName));

    PutField(data, userNameOffset, p.userName);
    ghost var upToMessage := upToUser + EncodedField(p.userName);
    PrefixGrows(data[..], userNameOffset, messageOffset, upToUser, EncodedField(p.userName));

    PutField(data, messageOffset, p.message);
    PrefixGrows(data[..], messageOffset, data.Length, upToMessage, EncodedField(p.message));
    assert data[..][..data.Length] == data[..];
  }

  // ---------------------------------------------------------------- decoder

  /**
   * The `byte[]` constructor. The declared lengths are trusted, not clamped: a negative length or
   * one that runs past the buffer is an exception, here an `Err`. Bytes after the message are ignored.
   */
  function Decode(data: Bytes): (r: Result<Packet>)
    ensures r.Ok? ==>
              var p := r.value;
              && |data| >= 4 && ParseBirthDateBits(JoinedDateBits(data[1], data[2], data[3])) == Ok(p.birthDate)
              && p.packetType == HeaderType(data[0]) && p.protocolVersion == HeaderVersion(data[0])
              && FieldsFramed(data, p)
  {
    if |data| < 4 then Err(IndexOutOfBounds)
    else
      var birthDate := ParseBirthDateBits(JoinedDateBits(data[1], data[2], data[3]));
      if birthDate.Err? then Err(birthDate.error)
      else DecodeFields(data, HeaderVersion(data[0]), HeaderType(data[0]), birthDate.value)
  }

  /** A string field at `offset`: its length byte (at most 127) there, and its bytes right after. */
  predicate FieldAt(data: Bytes, offset: nat, field: Bytes)
  {
    && |field| <= MAX_STRING_FIELD_SIZE && offset + 1 + |field| <= |data|
    && data[offset] == |field| && data[offset + 1..offset + 1 + |field|] == field
  }

  /**
   * The three string fields of a received packet as they sit in the buffer: the first length
   * byte at offset 4, each next one right after the previous field; and the users are those
   * the message holds.
   */
  predicate FieldsFramed(data: Bytes, p: Packet)
  {
    var userNameOffset := 4 + |p.clientName| + 1;
    var messageOffset := userNameOffset + |p.userName| + 1;
    && FieldAt(data, 4, p.clientName)
    && FieldAt(data, userNameOffset, p.userName)
    && FieldAt(data, messageOffset, p.message)
    && p.users == UsersOf(p.packetType, p.message)
  }

  /**
   * One string field of the constructor: `data[offset]` (out of bounds past the end) is the
   * signed length, and `new String(data, offset + 1, length)` fails for a negative length or one
   * that runs past the buffer.
   */
  function ReadField(data: Bytes, offset: nat): (r: Result<Bytes>)
    ensures r.Ok? ==> FieldAt(data, offset, r.value)
    ensures r.Err? ==>
              if |data| <= offset then r.error == IndexOutOfBounds
              else r.error == StringIndexOutOfBounds && (data[offset] >= 128 || |data| < offset + 1 + data[offset])
  {
    if |data| <= offset then Err(IndexOutOfBounds)
    else
      var length := Signed(data[offset]);
      if length < 0 || |data| - (offset + 1) < length then Err(StringIndexOutOfBounds)
      else Ok(data[offset + 1..offset + 1 + length])
  }

  /** The constructor from the client name on, once the header and the date have been read. */
  function DecodeFields(data: Bytes, protocolVersion: int, packetType: PacketType, birthDate: Date): (r: Result<Packet>)
    ensures r.Ok? ==>
              && r.value.protocolVersion == protocolVersion && r.value.packetType == packetType
              && r.value.birthDate == birthDate && FieldsFramed(data, r.value)
  {
    var clientName := ReadField(data, 4);
    if clientName.Err? then Err(clientName.error)
    else
      var userNameOffset := 4 + |clientName.value| + 1;
      var userName := ReadField(data, userNameOffset);
      if userName.Err? then Err(userName.error)
      else
        var messageOffset := userNameOffset + |userName.value| + 1;
        var message := ReadField(data, messageOffset);
        if message.Err? then Err(message.error)
        else
          Ok(Packet(protocolVersion, packetType, birthDate, clientName.value, userName.value, message.value,
                    UsersOf(packetType, message.value)))
  }
}
