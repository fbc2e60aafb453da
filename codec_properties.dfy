/** What the wire format guarantees: header, date and whole-packet round trips. */
module CodecProperties {
  import opened Common
  import opened Users
  import opened Codec

  /**
   * The type nibble always comes back (UNKNOWN_PACKET_TYPE is written as 15 and read back as
   * UNKNOWN); the version comes back only when its low nibble is below 8, because the decoder
   * shifts the sign-extended byte.
   */
  lemma HeaderRoundTrip(version: int, t: PacketType)
    ensures HeaderType(HeaderByte(version, t.Id())) == t
    ensures t == UnknownPacketType ==> HeaderByte(version, t.Id()) % 16 == 15
    ensures HeaderVersion(HeaderByte(version, t.Id())) == version % 16 <==> version % 16 < 8
    ensures version % 16 >= 8 ==> HeaderVersion(HeaderByte(version, t.Id())) == 0x0FFF_FFF0 + version % 16
  {
  }

  lemma SmallVersionRoundTrip(version: int, t: PacketType)
    requires 0 <= version < 8
    ensures HeaderVersion(HeaderByte(version, t.Id())) == version
  {
    HeaderRoundTrip(version, t);
  }

  lemma DivMod(x: int, k: int, q: int, r: int)
    requires k > 0 && 0 <= r < k && x == q * k + r
    ensures x / k == q && x % k == r
  {
    var q', r' := x / k, x % k;
    assert (q - q') * k == r' - r;
    if q > q' {
      assert (q - q') * k >= k by { MulAtLeast(q - q', k); }
    } else if q < q' {
      assert (q' - q) * k >= k by { MulAtLeast(q' - q, k); }
    }
  }

  lemma MulAtLeast(a: int, k: int)
    requires a >= 1 && k > 0
    ensures a * k >= k
  {
  }

  /** Splitting a 24-bit value into three bytes and joining them again is the identity. */
  lemma DateBytesRoundTrip(bits: nat)
    requires bits < 0x100_0000
    ensures var b := DateBytes(bits); JoinedDateBits(b[0], b[1], b[2]) == bits
  {
    var hi, r := bits / 0x1_0000, bits % 0x1_0000;
    var mid, lo := r / 0x100, r % 0x100;
    assert hi < 256;
    assert bits == (hi * 256 + mid) * 256 + lo;
    DivMod(bits, 256, hi * 256 + mid, lo);
    DivMod(hi * 256 + mid, 256, hi, mid);
    assert DateBytes(bits) == [hi, mid, lo];
  }

  /** Day, month and year placed at their bit positions are read back, and `LocalDate.of` judges them. */
  lemma {:induction false} DateFieldsReadBack(day: nat, month: nat, year: nat)
    requires day < 32 && month < 16 && year < 2048
    ensures ParseBirthDateBits(day * 0x8_0000 + month * 0x8000 + year * 16) ==
              if IsValidDate(Date(year, month, day)) then Ok(Date(year, month, day)) else Err(InvalidDate)
  {
    var bits := day * 0x8_0000 + month * 0x8000 + year * 16;
    DivMod(bits, 0x8_0000, day, month * 0x8000 + year * 16);
    DivMod(bits, 0x8000, day * 16 + month, year * 16);
    DivMod(day * 16 + month, 16, day, month);
    DivMod(bits, 16, day * 0x8000 + month * 0x800 + year, 0);
    DivMod(day * 0x8000 + month * 0x800 + year, 2048, day * 16 + month, year);
  }

  /** Day, month and year of a valid date with a year below 2048 are read back from their bits. */
  lemma DateBitsRoundTrip(d: Date)
    requires IsValidDate(d) && 0 <= d.year < 2048
    ensures DateBits(d) == d.day * 0x8_0000 + d.month * 0x8000 + d.year * 16
    ensures ParseBirthDateBits(DateBits(d)) == Ok(d)
  {
    DateFieldsReadBack(d.day, d.month, d.year);
  }

  /**
   * Any valid date goes over the wire with its year reduced modulo 2048 (the 11-bit field); the
   * receiver gets that date back, or a DateTimeException when the reduced year makes it invalid.
   */
  lemma WrappedYear(d: Date)
    requires IsValidDate(d)
    ensures var w := Date(d.year % 2048, d.month, d.day);
            ParseBirthDateBits(DateBits(d)) == if IsValidDate(w) then Ok(w) else Err(InvalidDate)
  {
    var year := d.year % 2048;
    assert d.day % 32 == d.day && d.month % 16 == d.month;
    assert DateBits(d) == d.day * 0x8_0000 + d.month * 0x8000 + year * 16;
    DateFieldsReadBack(d.day, d.month, year);
  }

  /** The decoder reads back the 24 date bits the encoder wrote, whatever follows the packet. */
  lemma DecodedDateBits(p: Packet, tail: Bytes)
    ensures var data := Encode(p) + tail;
            |data| >= 4 && JoinedDateBits(data[1], data[2], data[3]) == DateBits(p.birthDate)
  {
    var bits := DateBits(p.birthDate);
    var dateBytes := DateBytes(bits);
    var data := Encode(p) + tail;
    assert data[1] == dateBytes[0] && data[2] == dateBytes[1] && data[3] == dateBytes[2];
    DateBytesRoundTrip(bits);
  }

  /** 29 February 2148 is a date, but it is sent as 29 February 100, which is not. */
  lemma LeapDayOf2148IsRejected(p: Packet, tail: Bytes)
    requires p.birthDate == Date(2148, 2, 29)
    ensures Decode(Encode(p) + tail) == Err(InvalidDate)
  {
    var d := p.birthDate;
    assert IsLeapYear(2148) && !IsLeapYear(100);
    assert IsValidDate(d);
    assert d.year % 2048 == 100;
    WrappedYear(d);
    assert ParseBirthDateBits(DateBits(d)) == Err(InvalidDate);
    DecodedDateBits(p, tail);
    var data := Encode(p) + tail;
    assert ParseBirthDateBits(JoinedDateBits(data[1], data[2], data[3])) == Err(InvalidDate);
  }

  /** The exceptions of the `byte[]` constructor, in the order its statements meet them. */
  lemma DecodeErrors(data: Bytes)
    ensures |data| < 4 ==> Decode(data) == Err(IndexOutOfBounds)
    ensures |data| >= 4 && ParseBirthDateBits(JoinedDateBits(data[1], data[2], data[3])).Err? ==>
              Decode(data) == Err(InvalidDate)
    ensures |data| == 4 && ParseBirthDateBits(JoinedDateBits(data[1], data[2], data[3])).Ok? ==>
              Decode(data) == Err(IndexOutOfBounds)
    ensures |data| >= 5 && ParseBirthDateBits(JoinedDateBits(data[1], data[2], data[3])).Ok? && data[4] >= 128 ==>
              Decode(data) == Err(StringIndexOutOfBounds)
    ensures |data| < 7 ==> Decode(data).Err?
  {
  }

  /**
   * Conversely, a 24-bit value with zero fill bits that parses to a date is exactly that date's
   * bits: packing is a bijection between such values and the valid dates with years 0..2047.
   */
  lemma {:induction false} ParseThenPack(bits: nat)
    requires bits < 0x100_0000 && bits % 16 == 0
    requires ParseBirthDateBits(bits).Ok?
    ensures DateBits(ParseBirthDateBits(bits).value) == bits
  {
    var d := ParseBirthDateBits(bits).value;
    var day, rest1 := bits / 0x8_0000, bits % 0x8_0000;
    var month, rest2 := rest1 / 0x8000, rest1 % 0x8000;
    var year := rest2 / 16;
    assert bits == day * 0x8_0000 + rest1;
    assert rest1 == month * 0x8000 + rest2;
    assert rest2 == year * 16 + rest2 % 16;
    DivMod(bits, 16, day * 0x8000 + month * 0x800 + year, rest2 % 16);
    assert rest2 % 16 == 0;
    DivMod(bits, 0x8_0000, day, rest1);
    DivMod(bits, 0x8000, day * 16 + month, rest2);
    DivMod(day * 16 + month, 16, day, month);
    DivMod(bits / 16, 2048, day * 16 + month, year);
    assert d == Date(year, month, day);
  }

  /**
   * What a receiver obtains for packet `p`: the type, the birth date, the 127-byte prefixes of
   * the three fields, the users parsed from the truncated message, and the version as the
   * decoder reads the header nibble back.
   */
  function Received(p: Packet): (q: Packet)
    ensures q.packetType == p.packetType && q.birthDate == p.birthDate
    ensures q.clientName == p.clientName[..Min(|p.clientName|, MAX_STRING_FIELD_SIZE)]
    ensures q.userName == p.userName[..Min(|p.userName|, MAX_STRING_FIELD_SIZE)]
    ensures q.message == p.message[..Min(|p.message|, MAX_STRING_FIELD_SIZE)]
    ensures q.users == UsersOf(p.packetType, q.message)
  {
    Packet(HeaderVersion(HeaderByte(p.protocolVersion, p.packetType.Id())), p.packetType, p.birthDate,
           Truncated(p.clientName), Truncated(p.userName), Truncated(p.message),
           UsersOf(p.packetType, Truncated(p.message)))
  }

  /** A length byte below 128 followed by that many bytes is read back as exactly those bytes. */
  lemma ReadFieldFramed(data: Bytes, offset: nat, field: Bytes)
    requires FieldAt(data, offset, field)
    ensures ReadField(data, offset) == Ok(field)
  {
    assert Signed(data[offset]) == |field|;
  }

  /**
   * The field reader accepts any buffer holding three length-prefixed fields of at most 127
   * bytes from offset 4 on, and returns exactly those fields: the converse of `FieldsFramed`.
   */
  lemma DecodeFramed(data: Bytes, p: Packet)
    requires FieldsFramed(data, p)
    ensures DecodeFields(data, p.protocolVersion, p.packetType, p.birthDate) == Ok(p)
  {
    var userNameOffset := 4 + |p.clientName| + 1;
    ReadFieldFramed(data, 4, p.clientName);
    ReadFieldFramed(data, userNameOffset, p.userName);
    ReadFieldFramed(data, userNameOffset + |p.userName| + 1, p.message);
  }

  /** An encoded field is framed at its own position, whatever comes before and after it. */
  lemma FieldAtOfEncoded(before: Bytes, field: Bytes, after: Bytes, offset: nat)
    requires offset == |before|
    ensures FieldAt(before + EncodedField(field) + after, offset, Truncated(field))
  {
    var data := before + EncodedField(field) + after;
    var t := Truncated(field);
    assert data[offset] == |t|;
    assert data[offset + 1..offset + 1 + |t|] == t;
  }

  /** The three fields of an encoded packet, followed by any bytes, are framed as a receiver reads them. */
  lemma EncodedFieldsFramed(p: Packet, tail: Bytes)
    ensures FieldsFramed(Encode(p) + tail, Received(p))
  {
    var h := [HeaderByte(p.protocolVersion, p.packetType.Id())] + DateBytes(DateBits(p.birthDate));
    var c, u, m := EncodedField(p.clientName), EncodedField(p.userName), EncodedField(p.message);
    var data := Encode(p) + tail;
    var r := Received(p);
    assert r.clientName == Truncated(p.clientName) && r.userName == Truncated(p.userName);
    assert r.message == Truncated(p.message);
    var userNameOffset := 4 + |r.clientName| + 1;
    var messageOffset := userNameOffset + |r.userName| + 1;
    assert data == h + c + (u + m + tail);
    assert data == (h + c) + u + (m + tail);
    assert data == (h + c + u) + m + tail;
    FieldAtOfEncoded(h, p.clientName, u + m + tail, 4);
    FieldAtOfEncoded(h + c, p.userName, m + tail, userNameOffset);
    FieldAtOfEncoded(h + c + u, p.message, tail, messageOffset);
  }

  /** The first byte of an encoded packet is its header byte, whatever follows. */
  lemma EncodedHeader(p: Packet, tail: Bytes)
    ensures (Encode(p) + tail)[0] == HeaderByte(p.protocolVersion, p.packetType.Id())
  {
    var e := Encode(p);
    assert e[0] == HeaderByte(p.protocolVersion, p.packetType.Id());
  }

  /**
   * Decoding an encoded packet, followed by any trailing bytes of the receive buffer, succeeds
   * and yields `Received(p)`.
   */
  lemma {:induction false} DecodeEncode(p: Packet, tail: Bytes)
    requires IsValidDate(p.birthDate) && 0 <= p.birthDate.year < 2048
    ensures Decode(Encode(p) + tail) == Ok(Received(p))
  {
    var data := Encode(p) + tail;
    EncodedHeader(p, tail);
    HeaderRoundTrip(p.protocolVersion, p.packetType);
    DecodedDateBits(p, tail);
    DateBitsRoundTrip(p.birthDate);
    EncodedFieldsFramed(p, tail);
    DecodeFramed(data, Received(p));
  }

  /** A packet whose fields fit, whose version is 0..7 and whose users agree with its message survives the wire unchanged. */
  lemma DecodeEncodeExact(p: Packet, tail: Bytes)
    requires IsValidDate(p.birthDate) && 0 <= p.birthDate.year < 2048
    requires 0 <= p.protocolVersion < 8
    requires |p.clientName| <= MAX_STRING_FIELD_SIZE && |p.userName| <= MAX_STRING_FIELD_SIZE
    requires |p.message| <= MAX_STRING_FIELD_SIZE
    requires p.users == UsersOf(p.packetType, p.message)
    ensures Decode(Encode(p) + tail) == Ok(p)
  {
    DecodeEncode(p, tail);
    var q := Received(p);
    SmallVersionRoundTrip(p.protocolVersion, p.packetType);
    assert q.protocolVersion == p.protocolVersion;
    assert q.clientName == p.clientName by { assert p.clientName[..|p.clientName|] == p.clientName; }
    assert q.userName == p.userName by { assert p.userName[..|p.userName|] == p.userName; }
    assert q.message == p.message by { assert p.message[..|p.message|] == p.message; }
    assert q == p;
  }

  /**
   * A USER_LIST_UPDATE built from a directory snapshot whose records fit in one message field
   * (and whose names are under 256 bytes) is received with the same names, as name-only users.
   */
  lemma UserListOverTheWire(birthDate: Date, clientName: Bytes, userName: Bytes, users: seq<User>, tail: Bytes)
    requires IsValidDate(birthDate) && 0 <= birthDate.year < 2048
    requires forall i :: 0 <= i < |users| ==> |users[i].userName| < 256
    requires |FormattedUsers(users)| <= MAX_STRING_FIELD_SIZE
    ensures var r := Decode(Encode(UserListPacket(UserListUpdate, birthDate, clientName, userName, users)) + tail);
            && r.Ok? && r.value.packetType == UserListUpdate && r.value.users.Some?
            && Names(r.value.users.value) == Names(users)
            && forall u :: u in r.value.users.value ==> u.birthDate.None?
  {
    var p := UserListPacket(UserListUpdate, birthDate, clientName, userName, users);
    DecodeEncode(p, tail);
    assert Received(p).message == p.message by { assert p.message[..|p.message|] == p.message; }
    ParseFormatRoundTrip(users);
  }
}
