# Multicast chat node: packet codec, user directory and dispatcher

This project models the core of MulticastChatClient, a peer-to-peer chat node.
The nodes talk over an IP multicast group.

- **Packet.** Every chat event travels as one packet.
  - Byte 0 holds a 4-bit protocol version and a 4-bit packet type (JOIN, LEAVE, MESSAGE, USER_LIST_UPDATE).
  - Bytes 1-3 hold a 24-bit day/month/year birth date.
  - Then come three length-prefixed ISO-8859-1 fields: client name, user name and message. Each is cut to 127 bytes.
  - A USER_LIST_UPDATE carries the sender's directory in its message as `(length, name)` records.
- **Directory.** Each node keeps one, deduplicated by name.
  - A JOIN from a new user arms a list broadcast after a random delay in [500, 5000) ms.
  - A USER_LIST_UPDATE from any node cancels the local broadcast, so one node answers for the group.
  - A node that knows at most itself merges the list it receives.
- **Sender loop.** It sends JOIN, then one MESSAGE per input line until the user types `q` or `quit`, then LEAVE.

Modules:

- `Common` (common.dfy): bytes as values 0..255, Java's sign extension of a `byte`, ISO-8859-1 text.
- `Users` (users.dfy): the `User` value, its `equals` and `equalsByName`, and the calendar rules `LocalDate.of` enforces.
- `Codec` (codec.dfy): the wire format.
  - The encoder `ToByteArray` is a method that fills an array. It is proved equal to the function `Encode`.
  - The decoder `Decode` is a function. It reads the header and the date, then hands over to `DecodeFields`, which reads the three strings with one `ReadField` each. The `byte[]` constructor's exceptions become `Err` values, in the order the code raises them.
  - The user-list sub-format is parsed and written by `ParseUsers` and `FormatUsersForMessage`. These are loops, proved against `ParsedUsers` and `UsersMessage`.
- `CodecProperties` (codec_properties.dfy): round trips for the header nibbles, the date bits and whole packets, and the decoder's error cases.
- `Directory` (directory.dfy): the class `UserListImpl`.
  - Its fields are the user sequence and a one-slot timer (`timerTask`, `currentRunnable`).
  - The runnable is a `Task` object, so the "same task" test compares references, as the Java `!=` does.
  - The timer firing is the method `RunDueTask`.
  - Java's `UserList` interface has no Dafny counterpart here. Its two constants live in this module, and its documented promises are the `ensures` clauses of `UserListImpl`'s methods.
- `DirectoryProperties` (directory_properties.dfy): merge, removal and display laws.
- `Client` (client.dfy): the class `ChatClient`.
  - It holds the receiver's per-type handlers and the switch `Receive` over them.
  - It also holds the sender's `Send` (a delivered JOIN adds the local user), `SendUserListUpdate` and the sender loop `RunSender` with its message loop `SendLines`.
- `ClientProperties` (client_properties.dfy): the quit test spelled out, and what the sender loop sends for any input.
- `Scenarios` (scenarios.dfy): concrete runs through the real methods.
  - One directory: the same name added twice, a null add, rescheduling after a broadcast fired.
  - Several nodes: C joins A and B. Both arm a broadcast. A's fires first, goes through the encoder and the decoder, and cancels B's. C merges the decoded list, whose users carry no birth dates, and prints "C, A, B".

Three consequences of the code as written are proved rather than assumed:

- **Version nibble.** The decoder shifts the sign-extended header byte (`data[0] >>> 4`). A version comes back only when its nibble is 0..7. Nibbles 8..15 come back as `0x0FFFFFF0` plus the nibble.
- **Year field.** The year field has 11 bits, so a year travels modulo 2048.
  - The receiver then rebuilds the date with `LocalDate.of`, which can reject it. The resulting DateTimeException is not caught by the receive loop (src/MulticastChatClient.java:326-339 catches only I/O exceptions), so it ends the receiving thread.
  - Example: 29 February 2148 is sent as 29 February 100, and year 100 is not a leap year.
  - `LocalDate.of`'s calendar check is modelled exactly (leap years, days per month, year range), not assumed as a precondition.
- **User-list merge.** `addAllDistinct` checks presence against the list as it was before the call. Two new users with the same name in one update are therefore both added.

## Model

| member | source | states |
|---|---|---|
| Common.Signed | src/MulticastChatPacket.java:67 | Reading a byte as an int gives a value in -128..127 with the same low 8 bits. It is negative exactly when the byte's top bit is set. |
| Users.DaysInMonth | src/MulticastChatPacket.java:218 | A month has 28 to 31 days. It has 29 exactly in February of a leap year. |
| Users.HasNameAppend | src/UserListImpl.java:33 | Appending a user to a list adds exactly that user's name to the names the list holds. |
| Users.Equals | src/User.java:49-56 | `equals` holds only for a non-null User with the same name and the same birth date (or both dates missing); in particular it implies `equalsByName`. |
| Users.EqualsIsValueEquality | src/User.java:49-56 | `equals` holds exactly when name and birth date both agree (two missing dates agree). Null or a non-User is never equal. |
| Users.EqualsByNameIsEquivalence | src/User.java:64-66 | `equalsByName` is reflexive, symmetric and transitive, and `equals` implies it. |
| Users.NameOnlyDiffersFromDated | src/User.java:18-32 | A name-only user and a dated user with the same name are equal by name but not by `equals`, in both directions. |
| Codec.GetById | src/MulticastChatPacket.java:335-341 | `getById` never fails. Ids 1-4 give the type with that id, and every other id gives UNKNOWN_PACKET_TYPE. |
| Codec.SenderOf | src/MulticastChatPacket.java:299-301 | `getUser` is the packet's user name with the packet's birth date. |
| Codec.ParsedFrom | src/MulticastChatPacket.java:150-160 | Parsing from offset i yields at most one user per byte left after i. |
| Codec.ParsedFromNameOnly | src/MulticastChatPacket.java:151-157 | Every user parsed from offset i is name-only, with a name shorter than the bytes left after i. |
| Codec.ParsedFromShift | src/MulticastChatPacket.java:150-160 | The parse from an offset reads only the bytes after it: bytes placed in front do not change it. |
| Codec.ParsedUsers | src/MulticastChatPacket.java:149-161 | The clamped record parse yields at most one user per payload byte. |
| Codec.ParsedUsersAreNameOnly | src/MulticastChatPacket.java:149-161 | Every parsed user is name-only, with a name shorter than the payload. |
| Codec.ParseRecord | src/MulticastChatPacket.java:151-157 | A length byte, a name of that length and more bytes parse as that user followed by the parse of the rest. |
| Codec.UsersOf | src/MulticastChatPacket.java:141-145 | A user collection exists exactly for USER_LIST_UPDATE packets; every other type gives null. |
| Codec.ParseUsers | src/MulticastChatPacket.java:141-163 | The index loop computes exactly the clamped record parse of the message. |
| Codec.UsersMessage | src/MulticastChatPacket.java:174-177 | A packet that is not a USER_LIST_UPDATE gets the empty message. |
| Codec.FormattedUsersAppend | src/MulticastChatPacket.java:187-195 | Formatting one more user appends that user's length byte and name. |
| Codec.FormatUsersForMessage | src/MulticastChatPacket.java:174-197 | The StringBuilder loop produces exactly the record encoding of the users, or "" for other types. |
| Codec.ParseFormatRoundTrip | src/MulticastChatPacket.java:141-197 | When every name is shorter than 256 bytes, parsing the formatted list gives back the same names in order, all name-only. |
| Codec.OverlongNameIsLost | src/MulticastChatPacket.java:189 | A 256-byte name gets length byte 0 and does not come back. |
| Codec.MessagePacket | src/MulticastChatPacket.java:93-105 | The message constructor stores every field and sets version 2. Users exist exactly for USER_LIST_UPDATE, and they are name-only. |
| Codec.UserListPacket | src/MulticastChatPacket.java:118-130 | The collection constructor sets version 2 and copies the users. The message is their record encoding for USER_LIST_UPDATE, and "" otherwise. |
| Codec.HeaderByte | src/MulticastChatPacket.java:249 | The header's high nibble is the version mod 16, and its low nibble is the type id mod 16. |
| Codec.HeaderVersion | src/MulticastChatPacket.java:61 | The version read back is below 2^28. It is the high nibble when the byte is below 128, and `0x0FFFFFF0` plus the nibble otherwise. |
| Codec.HeaderType | src/MulticastChatPacket.java:62 | A known type read back has the low nibble as its id. |
| Codec.DateBits | src/MulticastChatPacket.java:252-254 | The packed date fits in 24 bits, and its 4 fill bits are zero. |
| Codec.ParseBirthDateBits | src/MulticastChatPacket.java:213-219 | The parse gives a valid calendar date with a year in 0..2047, or the DateTimeException of `LocalDate.of`. |
| Codec.Encode | src/MulticastChatPacket.java:228-247 | An encoded packet is 7 + cl + ul + ml bytes long, where each field length is capped at 127. So it never exceeds 388 bytes. |
| Codec.EncodeLayout | src/MulticastChatPacket.java:229-266 | Byte by byte: the header, three date bytes, and for each field a length byte min(length, 127) followed by that prefix of the field. |
| Codec.PutHeader | src/MulticastChatPacket.java:249-257 | The first four bytes become the header byte and the three date bytes, and every byte from offset 4 on is unchanged. |
| Codec.ArrayCopy | src/MulticastChatPacket.java:260 | `System.arraycopy` writes the first `length` source bytes at the offset and leaves the rest of the array unchanged. |
| Codec.PutField | src/MulticastChatPacket.java:259-266 | Writing one field puts its capped length byte and its prefix at the offset, and changes nothing else. |
| Codec.ToByteArray | src/MulticastChatPacket.java:228-269 | `toByteArray` returns a fresh array whose contents are exactly the encoding, at most 388 bytes. |
| Codec.Decode | src/MulticastChatPacket.java:60-81 | On success the buffer has at least 4 bytes and a date that parses to the packet's birth date. Type and version come from byte 0, and the fields are framed as `FieldsFramed` describes: each at most 127 bytes, each the slice after its length byte, users parsed from the message. |
| Codec.ReadField | src/MulticastChatPacket.java:67-76 | A field read succeeds only with a length byte below 128 whose bytes fit in the buffer, and returns exactly those bytes. It fails out of bounds when the length byte is missing, and with a string-index error for a negative or overlong length. |
| Codec.DecodeFields | src/MulticastChatPacket.java:67-78 | After the date, the three fields are read in turn from offset 4. On success the result keeps the given header and date and is framed in the buffer. |
| CodecProperties.HeaderRoundTrip | src/MulticastChatPacket.java:249 | The type comes back from the header, and UNKNOWN is written as 15 and read back as UNKNOWN. The version comes back exactly when its nibble is below 8, and as `0x0FFFFFF0` plus the nibble otherwise. |
| CodecProperties.SmallVersionRoundTrip | src/MulticastChatPacket.java:61 | Versions 0..7 come back unchanged. |
| CodecProperties.DateBytesRoundTrip | src/MulticastChatPacket.java:255-257 | The three date bytes rejoin to the 24 bits they were cut from. |
| CodecProperties.DateFieldsReadBack | src/MulticastChatPacket.java:213-219 | A day, month and year placed at their bit positions are read back. The result is that date when it is valid, and DateTimeException otherwise. |
| CodecProperties.DateBitsRoundTrip | src/MulticastChatPacket.java:252-254 | A valid date with a year below 2048 is packed as day·2^19 + month·2^15 + year·2^4, and parsing gives it back. |
| CodecProperties.WrappedYear | src/MulticastChatPacket.java:252-257 | Any valid date is received with its year mod 2048, or as DateTimeException when that reduced date is invalid. |
| CodecProperties.DecodedDateBits | src/MulticastChatPacket.java:64 | The decoder reads back the 24 date bits the encoder wrote, whatever bytes follow the packet. |
| CodecProperties.LeapDayOf2148IsRejected | src/MulticastChatPacket.java:252-257 | Any packet dated 29 February 2148 encodes to bytes that the decoder rejects with DateTimeException. |
| CodecProperties.DecodeErrors | src/MulticastChatPacket.java:60-76 | The decoder raises, in order: out of bounds below 4 bytes; DateTimeException for an invalid date; out of bounds at exactly 4 bytes; a string-index error for a negative client-name length. Below 7 bytes it always fails. |
| CodecProperties.ParseThenPack | src/MulticastChatPacket.java:213-219 | Every 24-bit value with zero fill bits that parses to a date is exactly that date's packing. So packing is a bijection onto the dates with years 0..2047. |
| CodecProperties.Received | src/MulticastChatPacket.java:60-81 | A received packet keeps the type and birth date. Its fields are the 127-byte prefixes of the sent ones, and its users are parsed from the truncated message. |
| CodecProperties.ReadFieldFramed | src/MulticastChatPacket.java:67-76 | A length byte below 128 followed by that many bytes reads back exactly those bytes. |
| CodecProperties.DecodeFramed | src/MulticastChatPacket.java:67-78 | The converse of `DecodeFields`'s guarantee: any buffer in which a packet's three fields are framed is read back as exactly that packet. |
| CodecProperties.FieldAtOfEncoded | src/MulticastChatPacket.java:259-266 | A field written as its capped length byte and that prefix is framed at its own offset, whatever bytes come before or after it. |
| CodecProperties.EncodedFieldsFramed | src/MulticastChatPacket.java:228-269 | The encoder places the three truncated fields exactly where the decoder looks for them: at offset 4, and after each field's length byte and bytes. Trailing bytes change nothing. |
| CodecProperties.DecodeEncode | src/MulticastChatPacket.java:228-269 | For a date with a year in 0..2047, decoding an encoded packet followed by any trailing bytes succeeds and gives the received packet. |
| CodecProperties.DecodeEncodeExact | src/MulticastChatPacket.java:60-81 | A packet with version 0..7, fields of at most 127 bytes and users consistent with its message survives encoding and decoding unchanged. |
| CodecProperties.UserListOverTheWire | src/MulticastChatPacket.java:118-130 | A USER_LIST_UPDATE built from a snapshot whose records fit one field (names under 256 bytes) is decoded with the same names, as name-only users. |
| Directory.NewUsers | src/UserListImpl.java:47-50 | The merge appends only non-null inputs whose name was absent before the call, and never more users than were given. |
| Directory.WithoutName | src/UserListImpl.java:61 | After removal no entry has the name, and every entry kept was in the list. |
| Directory.UserListImpl.constructor | src/UserListImpl.java:12-17 | A new directory is empty, with no timer task and no remembered runnable. |
| Directory.UserListImpl.AddDistinct | src/UserListImpl.java:28-38 | It returns true exactly for a non-null user whose name is absent, and then appends the user at the end. Otherwise nothing changes. Unique names stay unique. |
| Directory.UserListImpl.AddAllDistinct | src/UserListImpl.java:46-52 | The list becomes the old list followed by the merge of the input against the old list. |
| Directory.UserListImpl.RemoveByName | src/UserListImpl.java:60-62 | The list becomes the old list without the entries of that name, in order. |
| Directory.UserListImpl.AsCollection | src/UserListImpl.java:70-72 | The snapshot equals the current list. |
| Directory.UserListImpl.GetNumberOfUsers | src/UserListImpl.java:74-77 | The count is the list's length. |
| Directory.UserListImpl.ToString | src/UserListImpl.java:122-127 | The text is the names joined by ", " in list order. |
| Directory.UserListImpl.ScheduleListUpdate | src/UserListImpl.java:85-101 | The remembered runnable does nothing. Any other runnable becomes remembered and armed, the old task cancelled, with a delay in [500, 5000). |
| Directory.UserListImpl.CancelListUpdate | src/UserListImpl.java:107-112 | Afterwards nothing is pending. An existing task becomes cancelled and the runnable is forgotten; before any task exists, nothing changes. |
| Directory.UserListImpl.RunDueTask | src/UserListImpl.java:90-95 | Only a pending task runs, and it runs the remembered runnable. That task becomes executed, keeping its runnable and delay; a slot with nothing pending stays exactly as it was. Afterwards nothing is pending, and the runnable stays remembered. |
| DirectoryProperties.NewUsersComplete | src/UserListImpl.java:47-50 | Every non-null input whose name was absent is merged. |
| DirectoryProperties.NewUsersConcat | src/UserListImpl.java:47-51 | Merging a concatenated input is merging each part, so input order is kept. |
| DirectoryProperties.NewUsersAreNew | src/UserList.java:26-32 | A merged user was in the input, and its name was not in the list. |
| DirectoryProperties.NewUsersDistinct | src/UserListImpl.java:47-50 | Input with distinct names merges to users with distinct names. |
| DirectoryProperties.MergeKeepsDistinct | src/UserListImpl.java:46-52 | If the list and the input each have unique names, the list has unique names after the merge. |
| DirectoryProperties.SameNameTwiceBothMerged | src/UserListImpl.java:49 | Two new users with the same name are both appended, which breaks name uniqueness. |
| DirectoryProperties.WithoutNameKeepsOthers | src/UserListImpl.java:61 | Every entry with another name survives removal. |
| DirectoryProperties.WithoutAbsentName | src/UserListImpl.java:61 | Removing an absent name changes nothing. |
| DirectoryProperties.WithoutNameConcat | src/UserListImpl.java:61 | Removal works entry by entry, so the order of the kept entries is kept. |
| DirectoryProperties.WithoutNameDistinct | src/UserListImpl.java:61 | Removal keeps names unique. |
| DirectoryProperties.JoinNamesAppend | src/UserListImpl.java:123-127 | Appending a user to a non-empty list appends ", " and the user's name to its text. |
| Client.ChatLines | src/MulticastChatClient.java:200-219 | The sender loop sends at most one message per read, and no message it sends is a quit line. |
| Client.ChatClient.constructor | src/MulticastChatClient.java:44-45 | A client starts with its user and an empty directory with no task. |
| Client.ChatClient.Outgoing | src/MulticastChatClient.java:234-237 | `send` builds a packet of the given type with the local user's name and the given message. |
| Client.ChatClient.HandleJoin | src/MulticastChatClient.java:355-372 | The joiner, name and birth date, is added if its name is new. Only then is the broadcast scheduled, unless that runnable is already remembered. A known joiner changes nothing. Unique names stay unique. |
| Client.ChatClient.HandleLeave | src/MulticastChatClient.java:379-393 | The sender's name is removed and the timer is untouched. The printed line is the remaining names. Unique names stay unique. |
| Client.ChatClient.HandleUserListUpdate | src/MulticastChatClient.java:415-424 | The pending broadcast is always cancelled. The incoming users are merged only when the directory held at most one user. The printed line is the resulting names. |
| Client.ChatClient.Receive | src/MulticastChatClient.java:295-324 | Each type goes to its handler, and MESSAGE changes nothing. UNKNOWN is skipped without a prompt. A membership line is printed exactly for LEAVE and USER_LIST_UPDATE. Unique names stay unique when the incoming list has unique names. |
| Client.ChatClient.Send | src/MulticastChatClient.java:234-252 | The packet is built as `Outgoing`. Only a delivered JOIN adds the local user to the directory. |
| Client.ChatClient.SendUserListUpdate | src/MulticastChatClient.java:257-273 | The broadcast is a protocol-version-2 USER_LIST_UPDATE from the local user. It carries the directory as it is when sent, and its message is the record encoding of that snapshot. |
| Client.ChatClient.SendLines | src/MulticastChatClient.java:199-219 | The loop sends one MESSAGE per line that `ChatLines` accepts, in order, reports whether a quit line stopped it, and leaves the directory unchanged. |
| Client.ChatClient.RunSender | src/MulticastChatClient.java:196-226 | The sender sends JOIN first, then one MESSAGE per line the loop accepts, then LEAVE only if a quit line ended the loop. The directory gains the local user only if the JOIN was delivered. |
| Client.IsQuit | src/MulticastChatClient.java:36 | A quit line is one or four bytes long and starts with `q` or `Q`; `QuitSpellings` gives the exact set. |
| ClientProperties.QuitSpellings | src/MulticastChatClient.java:36 | A line is a quit line exactly when it is `q` or `quit` with each letter in either ASCII case. |
| ClientProperties.FailedReadIsSent | src/MulticastChatClient.java:201-218 | A failed read sends an empty MESSAGE and the loop goes on. |
| ClientProperties.ChatLinesWithoutQuit | src/MulticastChatClient.java:200-219 | Without a quit line, every read is sent in order and no LEAVE follows. |
| ClientProperties.ChatLinesQuitAt | src/MulticastChatClient.java:216 | The first quit line ends the loop: exactly the reads before it are sent, followed by LEAVE. |
| Scenarios.AddSameNameTwice | src/UserListImpl.java:28-38 | Adding "A" twice returns true, then false, and one entry remains. |
| Scenarios.AddNull | src/UserListImpl.java:29-31 | Adding null returns false and the list stays empty. |
| Scenarios.RescheduleAfterFiring | src/UserListImpl.java:85-112 | After the armed runnable ran, scheduling it again arms nothing; after a cancel it is armed again. |
| Scenarios.NodeSeesJoin | src/MulticastChatClient.java:366-371 | A node that knows A and B lists C after C's JOIN, and arms its broadcast. |
| Scenarios.MemberHearsUpdate | src/MulticastChatClient.java:415-420 | A node listing three users that receives a list update stops its own broadcast and keeps three users. |
| Scenarios.UpdateOverTheWire | src/MulticastChatPacket.java:141-161 | A's USER_LIST_UPDATE listing dated A, B and C decodes to a USER_LIST_UPDATE whose users are name-only A, B and C. |
| Scenarios.BroadcastOfA | src/MulticastChatClient.java:257-273 | What another node receives from A's broadcast, sent through `ToByteArray` and read back by `Decode`, is a USER_LIST_UPDATE with name-only A, B and C. |
| Scenarios.NewcomerHearsUpdate | src/MulticastChatClient.java:415-424 | The newcomer C, listing only itself, receives any list update naming A, B and C. Its directory becomes C followed by the first two incoming users as they arrived, and it prints "C, A, B". |
| Scenarios.JoinSuppression | src/MulticastChatClient.java:355-424 | C joins A and B. A's broadcast fires and is encoded and decoded; it cancels B's pending one, B keeps three users, and C lists itself with name-only A and B and prints "C, A, B". |
| Scenarios.KnownJoinerIgnored | src/MulticastChatClient.java:366-371 | A JOIN from a name already listed arms nothing and adds nothing. |
| Scenarios.LeaveRemovesName | src/MulticastChatClient.java:379-393 | After B leaves a node that knows A and B, the membership line is "A". |
| Scenarios.UnknownSkipped | src/MulticastChatClient.java:311-312 | An UNKNOWN packet prints neither a prompt nor a membership line, and changes nothing. |

## Left out

- Sockets and datagrams (MulticastChatSocket.java is not part of this model).
  - A packet reaches `Receive` already decoded. `Send` takes the socket's success or failure as its `delivered` argument.
  - The receive buffer has 388 bytes. The decoder therefore accepts trailing bytes after the encoded fields.
- Threads and their shutdown are not modelled:
  - the receive loop around the switch, `canStop` and `stopReceiving`;
  - the one-second `sleep` back-off;
  - socket-timeout and `SocketException` handling;
  - `main`, and `close()` of the client and of `UserListImpl`.
  - `Receive` is one pass of the loop with `canStop` false.
- The `java.util.Timer` thread and `Random`:
  - the delay is any value in [500, 5000);
  - firing is the explicit step `RunDueTask`;
  - the fired runnable's broadcast is the separate call `SendUserListUpdate`.
- `parseArgs` and the default address, port, name and date. Command-line parsing depends on library integer parsing.
- Console output: the Finnish message templates, `DateTimeFormatter`, the prompt text and the `LocalDateTime.now()` receive time stamp.
  - The membership line is returned without its "Paikalla olevat käyttäjät: " prefix.
- Charset conversion. Strings are sequences of ISO-8859-1 byte values, so a Java `String` with a character above 255 is not represented.
- `User.hashCode` (src/User.java:42-46). Nothing in the core depends on it.
- Null arguments: a null packet or user passed to `removeByName` or the handlers, and a null birth date given to `toByteArray`. These are NullPointerExceptions the callers never cause.
- A null runnable passed to `scheduleListUpdate`. The callers never pass one. The call itself does not fail: with no runnable remembered it does nothing (src/UserListImpl.java:86), and otherwise it cancels the old task, forgets the runnable and arms a task that throws on the timer thread when it fires (line 93). `Task` references in the model are never null.
- Synchronization. `UserListImpl` has none, yet the sender, receiver and timer threads all call it. The model treats each directory operation as one atomic step; interleavings inside an operation, which the Java does not exclude, are not modelled.
- Decode failures in the receive loop. Any `Err` of `Decode` is a runtime exception that src/MulticastChatClient.java:326-339 does not catch, so the receiving thread ends. The model states which inputs fail (`DecodeErrors`, `LeapDayOf2148IsRejected`) but not the thread ending.
- Client.ChatClient.HandleUserListUpdate: requires the packet to carry users. Only a USER_LIST_UPDATE reaches it, and `Codec.UsersOf` shows that decoding always supplies users for that type.
- Client.ChatClient.RunSender: end of input is the end of the sequence. There `readLine()` returns null, the quit test throws, and the thread ends without LEAVE.
- Directory.UserListImpl.ScheduleListUpdate: states the range of the new task's delay, not its value, which is random.
- The runnable `() -> sender.sendUserListUpdate()` is passed to the handlers as a parameter. The model covers both a runtime that creates one instance per call and one that reuses a single instance.
- The receiver switch's `default:` branch cannot be reached, because every packet type has its own case. It is not modelled.
- The root-level MulticastChatPacket.java is an older protocol-version-1 copy of the codec that src/MulticastChatPacket.java supersedes. It is not part of this model.
