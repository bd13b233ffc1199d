/** The STUN response parser (src/session/ice/stun_client.rs, parse_stun_response). */
module Stun {
  import opened Common
  import opened Bytes

  datatype StunError = TooShort | CookieMismatch | AddressNotFound

  /** An IPv4 address and port; the source prints it as "a.b.c.d:port". */
  datatype Address = Address(a: u8, b: u8, c: u8, d: u8, port: u16)

  const HEADER: nat := 20
  const MAGIC_COOKIE: seq<u8> := [0x21, 0x12, 0xA4, 0x42]
  const XOR_MAPPED_ADDRESS: u16 := 0x0020
  const IPV4: u8 := 0x01

  function FromBe16(hi: u8, lo: u8): u16 {
    hi * 0x100 + lo
  }

  function Be16(x: u16): seq<u8> {
    [x / 0x100, x % 0x100]
  }

  function Padding(len: nat): (p: nat)
    ensures p < 4 && (len + p) % 4 == 0
  {
    (4 - len % 4) % 4
  }

  predicate IsMappedAddress(attrType: u16, value: seq<u8>) {
    attrType == XOR_MAPPED_ADDRESS && |value| >= 8 && value[1] == IPV4
  }

  /** Undoes the exclusive or with the magic cookie. */
  function Decode(value: seq<u8>): Address
    requires |value| >= 8
  {
    Address(Xor(value[4], 0x21), Xor(value[5], 0x12), Xor(value[6], 0xA4), Xor(value[7], 0x42),
            FromBe16(Xor(value[2], 0x21), Xor(value[3], 0x12)))
  }

  /** The attribute walk from `pos`, over the bytes below `limit`. */
  function Walk(data: seq<u8>, pos: nat, limit: nat): Option<Address>
    decreases |data| - pos
  {
    if pos >= limit || pos + 4 > |data| then None
    else
      var attrType, len := FromBe16(data[pos], data[pos + 1]), FromBe16(data[pos + 2], data[pos + 3]);
      var start := pos + 4;
      if start + len <= |data| && IsMappedAddress(attrType, data[start..start + len])
      then Some(Decode(data[start..start + len]))
      else Walk(data, start + len + Padding(len), limit)
  }

  function Parse(data: seq<u8>): Result<Address, StunError> {
    if |data| < HEADER then Err(TooShort)
    else if data[4..8] != MAGIC_COOKIE then Err(CookieMismatch)
    else
      match Walk(data, HEADER, HEADER + FromBe16(data[2], data[3]))
      case Some(address) => Ok(address)
      case None => Err(AddressNotFound)
  }

  /** The parser's loop: it stays in bounds and ends on every byte string. */
  method ParseStunResponse(data: seq<u8>) returns (r: Result<Address, StunError>)
    ensures r == Parse(data)
  {
    hide Xor, Padding, FromBe16;
    if |data| < HEADER {
      return Err(TooShort);
    }
    if data[4..8] != MAGIC_COOKIE {
      return Err(CookieMismatch);
    }
    var limit := HEADER + FromBe16(data[2], data[3]);
    var pos: nat := HEADER;
    while pos < limit && pos + 4 <= |data|
      invariant Walk(data, pos, limit) == Walk(data, HEADER, limit)
      decreases |data| - pos
    {
      var attrType := FromBe16(data[pos], data[pos + 1]);
      var len := FromBe16(data[pos + 2], data[pos + 3]);
      pos := pos + 4;
      if attrType == XOR_MAPPED_ADDRESS && pos + len <= |data| {
        var value := data[pos..pos + len];
        if |value| >= 8 && value[1] == IPV4 {
          var port := FromBe16(Xor(value[2], 0x21), Xor(value[3], 0x12));
          return Ok(Address(Xor(value[4], 0x21), Xor(value[5], 0x12), Xor(value[6], 0xA4), Xor(value[7], 0x42), port));
        }
      }
      pos := pos + len + Padding(len);
    }
    return Err(AddressNotFound);
  }

  // ----- what a server sends (RFC 5389, sections 6 and 15)

  /** An attribute with its value and the bytes that pad it to a multiple of four. */
  datatype Attribute = Attribute(attrType: u16, value: seq<u8>, padding: seq<u8>)
  {
    predicate WellFormed() {
      |value| < TWO_16 && |padding| == Padding(|value|)
    }
  }

  function Encode(a: Attribute): seq<u8>
    requires a.WellFormed()
  {
    Be16(a.attrType) + Be16(|a.value|) + a.value + a.padding
  }

  predicate AllWellFormed(attrs: seq<Attribute>) {
    forall a :: a in attrs ==> a.WellFormed()
  }

  function EncodeAll(attrs: seq<Attribute>): seq<u8>
    requires AllWellFormed(attrs)
  {
    if attrs == [] then [] else Encode(attrs[0]) + EncodeAll(attrs[1..])
  }

  /** A response: message type, length, cookie, transaction id, attributes, and whatever follows them. */
  function Message(kind: u16, attrs: seq<Attribute>, transaction: seq<u8>, after: seq<u8>): seq<u8>
    requires AllWellFormed(attrs) && |EncodeAll(attrs)| < TWO_16 && |transaction| == 12
  {
    Be16(kind) + Be16(|EncodeAll(attrs)|) + MAGIC_COOKIE + transaction + EncodeAll(attrs) + after
  }

  /** The first IPv4 XOR-MAPPED-ADDRESS of a list of attributes. */
  function FirstAddress(attrs: seq<Attribute>): Option<Address> {
    if attrs == [] then None
    else if IsMappedAddress(attrs[0].attrType, attrs[0].value) then Some(Decode(attrs[0].value))
    else FirstAddress(attrs[1..])
  }

  /** Both are in network byte order. */
  lemma NetworkOrder(x: u16, hi: u8, lo: u8)
    ensures Be16(x) == BeBytes(x, 2) && FromBe16(hi, lo) == FromBe([hi, lo])
  {
    assert BeBytes(x, 2) == BeBytes(x / 0x100, 1) + [x % 0x100];
    assert BeBytes(x / 0x100, 1) == BeBytes(0, 0) + [x / 0x100];
    assert [hi, lo][..1] == [hi] && [hi][..0] == [];
    assert FromBe([hi]) == hi;
  }

  /** An attribute of type 0x0020 for family 1, with room for an address and a port. */
  predicate IsXorMappedIpv4(a: Attribute) {
    a.attrType == 0x20 && |a.value| >= 8 && a.value[1] == 1
  }

  lemma {:induction false} FirstAddressAt(attrs: seq<Attribute>, i: nat)
    requires i <= |attrs| && forall j :: 0 <= j < i ==> !IsXorMappedIpv4(attrs[j])
    ensures i < |attrs| && IsXorMappedIpv4(attrs[i]) ==> FirstAddress(attrs) == Some(Decode(attrs[i].value))
    ensures i == |attrs| ==> FirstAddress(attrs) == None
  {
    if i > 0 {
      FirstAddressAt(attrs[1..], i - 1);
    }
  }

  /** The two refusals, for every byte string. */
  lemma RefusedExact(data: seq<u8>)
    ensures Parse(data) == Err(TooShort) <==> |data| < 20
    ensures Parse(data) == Err(CookieMismatch) <==> |data| >= 20 && data[4..8] != [0x21, 0x12, 0xA4, 0x42]
  {
  }

  lemma Be16RoundTrip(x: u16)
    ensures FromBe16(Be16(x)[0], Be16(x)[1]) == x
  {
  }

  /** One turn of the walk reads the attribute written at `pos` and moves just past it. */
  lemma WalkOne(before: seq<u8>, a: Attribute, after: seq<u8>, limit: nat)
    requires a.WellFormed() && |before| < limit
    ensures var data := before + Encode(a) + after;
      Walk(data, |before|, limit)
      == if IsMappedAddress(a.attrType, a.value) then Some(Decode(a.value))
         else Walk(data, |before + Encode(a)|, limit)
  {
    hide Xor, Decode, IsMappedAddress;
    var data, pos, len := before + Encode(a) + after, |before|, |a.value|;
    var code := Encode(a);
    assert code[0] == Be16(a.attrType)[0] && code[1] == Be16(a.attrType)[1];
    assert code[2] == Be16(len)[0] && code[3] == Be16(len)[1];
    assert data[pos] == code[0] && data[pos + 1] == code[1] && data[pos + 2] == code[2] && data[pos + 3] == code[3];
    Be16RoundTrip(a.attrType);
    Be16RoundTrip(len);
    assert code[4..4 + len] == a.value;
    assert data[pos + 4..pos + 4 + len] == a.value;
  }

  lemma EncodeLength(a: Attribute)
    requires a.WellFormed()
    ensures |Encode(a)| >= 4
  {
  }

  lemma WalkEnds(data: seq<u8>, limit: nat)
    ensures Walk(data, limit, limit) == None
  {
  }

  lemma FirstAttribute(attrs: seq<Attribute>)
    requires AllWellFormed(attrs) && attrs != []
    ensures AllWellFormed(attrs[1..]) && attrs[0].WellFormed()
    ensures EncodeAll(attrs) == Encode(attrs[0]) + EncodeAll(attrs[1..])
    ensures FirstAddress(attrs) == if IsMappedAddress(attrs[0].attrType, attrs[0].value)
                                   then Some(Decode(attrs[0].value)) else FirstAddress(attrs[1..])
  {
    hide Encode, Decode, IsMappedAddress;
  }

  lemma Regroup(a: seq<u8>, b: seq<u8>, c: seq<u8>, d: seq<u8>)
    ensures a + (b + c) + d == a + b + (c + d) == (a + b) + c + d
    ensures |a + (b + c)| == |(a + b) + c|
  {
  }

  lemma {:induction false} WalkFindsFirst(before: seq<u8>, attrs: seq<Attribute>, after: seq<u8>)
    requires AllWellFormed(attrs)
    ensures Walk(before + EncodeAll(attrs) + after, |before|, |before + EncodeAll(attrs)|) == FirstAddress(attrs)
    decreases attrs
  {
    if attrs == [] {
      hide Walk;
      WalkEnds(before + EncodeAll(attrs) + after, |before|);
    } else {
      hide Walk, Encode, EncodeAll, Decode, IsMappedAddress, FirstAddress;
      FirstAttribute(attrs);
      var a, rest := attrs[0], attrs[1..];
      EncodeLength(a);
      Regroup(before, Encode(a), EncodeAll(rest), after);
      WalkOne(before, a, EncodeAll(rest) + after, |before + EncodeAll(attrs)|);
      WalkFindsFirst(before + Encode(a), rest, after);
    }
  }

  /** Every well-formed response parses to its first IPv4 mapped address, or to an error if it has none. */
  lemma ParseFindsFirst(kind: u16, attrs: seq<Attribute>, transaction: seq<u8>, after: seq<u8>)
    requires AllWellFormed(attrs) && |EncodeAll(attrs)| < TWO_16 && |transaction| == 12
    ensures var found := FirstAddress(attrs);
      Parse(Message(kind, attrs, transaction, after))
      == if found.Some? then Ok(found.value) else Err(AddressNotFound)
  {
    var len := |EncodeAll(attrs)|;
    var header := Be16(kind) + Be16(len) + MAGIC_COOKIE + transaction;
    var data := Message(kind, attrs, transaction, after);
    assert data == header + EncodeAll(attrs) + after;
    assert data[4..8] == header[4..8] == MAGIC_COOKIE;
    assert data[2] == Be16(len)[0] && data[3] == Be16(len)[1];
    Be16RoundTrip(len);
    WalkFindsFirst(header, attrs, after);
  }

  /** The value a server writes for an address: the exclusive or with the cookie. */
  function MappedValue(x: Address, reserved: u8, extra: seq<u8>): seq<u8> {
    [reserved, IPV4, Xor(x.port / 0x100, 0x21), Xor(x.port % 0x100, 0x12),
     Xor(x.a, 0x21), Xor(x.b, 0x12), Xor(x.c, 0xA4), Xor(x.d, 0x42)] + extra
  }

  /** Decoding undoes the server's encoding. */
  lemma DecodeMapped(x: Address, reserved: u8, extra: seq<u8>)
    ensures IsMappedAddress(XOR_MAPPED_ADDRESS, MappedValue(x, reserved, extra))
    ensures Decode(MappedValue(x, reserved, extra)) == x
  {
    XorInvolution(x.port / 0x100, 0x21);
    XorInvolution(x.port % 0x100, 0x12);
    XorInvolution(x.a, 0x21);
    XorInvolution(x.b, 0x12);
    XorInvolution(x.c, 0xA4);
    XorInvolution(x.d, 0x42);
  }
}
