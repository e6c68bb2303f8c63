/**
 The STUN binding response parser of the bridge (nat_discovery.py), against the wire format of
 sections 6, 15, 15.1 and 15.2 of RFC 5389.

 `Walk` reads the attribute area; `Wire` writes it, from attributes that carry their own padding.
 The two are tied together in both directions, and the parser is proved against `Parse`.
 */
module StunCodec {
  import opened Wrappers
  import opened Bits

  const MAGIC_COOKIE: nat := 0x2112A442
  const BINDING_SUCCESS: nat := 0x0101
  const MAPPED_ADDRESS: nat := 0x0001
  const XOR_MAPPED_ADDRESS: nat := 0x0020
  const RESPONSE_ORIGIN: nat := 0x802B
  const OTHER_ADDRESS: nat := 0x802C

  datatype Error =
    | ResponseTooShort
    | BadCookie
    | TransactionMismatch
    | NotSuccess
    | BadLength
    | TruncatedHeader
    | TruncatedAttribute
    | AddressTooShort
    | BadIPv4Attribute
    | BadIPv6Attribute
    | UnknownFamily
    | NoMappedAddress

  datatype Address = IPv4(octets: Bytes) | IPv6(octets: Bytes)

  datatype Endpoint = Endpoint(address: Address, port: nat)

  datatype Attr = Attr(typ: nat, value: Bytes)

  datatype Parsed = Parsed(mapped: Endpoint, origin: Option<Endpoint>, other: Option<Endpoint>)

  // ---------- Attributes on the wire ----------

  /** An attribute together with the padding bytes that follow its value. */
  datatype Item = Item(typ: nat, value: Bytes, pad: Bytes)

  function PadLength(n: nat): nat {
    (4 - n % 4) % 4
  }

  function RoundUp(n: nat): nat {
    (n + 3) / 4 * 4
  }

  lemma RoundUpPads(n: nat)
    ensures RoundUp(n) == n + PadLength(n)
  {
  }

  ghost predicate Fits(i: Item) {
    i.typ < 0x1_0000 && |i.value| < 0x1_0000
  }

  /** Every attribute is padded to a multiple of four bytes; the last may lose part of its padding. */
  ghost predicate Framed(items: seq<Item>) {
    forall k :: 0 <= k < |items| ==>
      && Fits(items[k])
      && |items[k].pad| <= PadLength(|items[k].value|)
      && (k < |items| - 1 ==> |items[k].pad| == PadLength(|items[k].value|))
  }

  function WireItem(i: Item): Bytes
    requires Fits(i)
  {
    PackU16(i.typ) + PackU16(|i.value|) + i.value + i.pad
  }

  function Wire(items: seq<Item>): Bytes
    requires Framed(items)
  {
    if items == [] then [] else WireItem(items[0]) + Wire(items[1..])
  }

  function Attrs(items: seq<Item>): seq<Attr> {
    if items == [] then [] else [Attr(items[0].typ, items[0].value)] + Attrs(items[1..])
  }

  /** The attributes of a message body, in order. */
  function Walk(body: Bytes): Result<seq<Attr>, Error>
    decreases |body|
  {
    if body == [] then Ok([])
    else if |body| < 4 then Err(TruncatedHeader)
    else
      var n := U16(body, 2);
      if 4 + n > |body| then Err(TruncatedAttribute)
      else match Walk(After(body))
        case Err(e) => Err(e)
        case Ok(rest) => Ok([Attr(U16(body, 0), body[4..4 + n])] + rest)
  }

  /** What remains of a body behind its first attribute and that attribute's padding. */
  function After(body: Bytes): (rest: Bytes)
    requires 4 <= |body|
    ensures |rest| < |body|
  {
    var next := 4 + RoundUp(U16(body, 2));
    if next <= |body| then body[next..] else []
  }

  lemma {:induction false} WalkOfWire(items: seq<Item>)
    requires Framed(items)
    ensures Walk(Wire(items)) == Ok(Attrs(items))
  {
    if items != [] {
      var i, rest := items[0], Wire(items[1..]);
      var n := |i.value|;
      var body := Wire(items);
      assert body == PackU16(i.typ) + PackU16(n) + i.value + i.pad + rest;
      assert U16(body, 0) == i.typ && U16(body, 2) == n;
      assert body[4..4 + n] == i.value;
      RoundUpPads(n);
      if |items| > 1 {
        assert After(body) == rest;
      } else {
        assert After(body) == [] == rest;
      }
      WalkOfWire(items[1..]);
    }
  }

  /** Where the padding of the first attribute stops. */
  lemma AfterIsSuffix(body: Bytes) returns (stop: nat)
    requires 4 <= |body| && 4 + U16(body, 2) <= |body|
    ensures 4 + U16(body, 2) <= stop <= |body| && After(body) == body[stop..]
    ensures stop == |body| || stop == 4 + U16(body, 2) + PadLength(U16(body, 2))
    ensures stop <= 4 + U16(body, 2) + PadLength(U16(body, 2))
  {
    RoundUpPads(U16(body, 2));
    stop := |body| - |After(body)|;
  }

  lemma FirstItem(body: Bytes) returns (i: Item)
    requires 4 <= |body| && 4 + U16(body, 2) <= |body|
    ensures Fits(i) && WireItem(i) + After(body) == body
    ensures Attr(i.typ, i.value) == Attr(U16(body, 0), body[4..4 + U16(body, 2)])
    ensures |i.pad| <= PadLength(|i.value|) && (After(body) != [] ==> |i.pad| == PadLength(|i.value|))
  {
    var n := U16(body, 2);
    var stop := AfterIsSuffix(body);
    assert U16(body, 0) < 0x1_0000 && n < 0x1_0000;
    i := Item(U16(body, 0), body[4..4 + n], body[4 + n..stop]);
    hide U16, After, PadLength, WireItem;
    ItemWire(body, stop);
    assert body[..stop] + body[stop..] == body;
  }

  lemma ItemWire(body: Bytes, stop: nat)
    requires 4 <= |body| && 4 + U16(body, 2) <= stop <= |body|
    ensures var n := U16(body, 2);
            WireItem(Item(U16(body, 0), body[4..4 + n], body[4 + n..stop])) == body[..stop]
  {
    var n := U16(body, 2);
    PackOfU16(body, 0);
    PackOfU16(body, 2);
    hide U16, PackU16;
    assert body[0..2] + body[2..4] + body[4..4 + n] + body[4 + n..stop] == body[..stop];
  }

  lemma {:induction false} WireOfWalk(body: Bytes) returns (items: seq<Item>)
    requires Walk(body).Ok?
    ensures Framed(items) && Wire(items) == body && Attrs(items) == Walk(body).value
    decreases |body|
  {
    if body == [] {
      items := [];
    } else {
      var first := FirstItem(body);
      var rest := WireOfWalk(After(body));
      items := [first] + rest;
      assert items[1..] == rest;
      assert rest != [] ==> After(body) != [];
    }
  }

  /** The attributes read from a body, with their padding, tile it exactly; and every such tiling is read back. */
  lemma WalkTiles(body: Bytes, attrs: seq<Attr>)
    ensures Walk(body) == Ok(attrs)
            <==> exists items :: Framed(items) && Wire(items) == body && Attrs(items) == attrs
  {
    if Walk(body) == Ok(attrs) {
      var items := WireOfWalk(body);
    }
    forall items | Framed(items) && Wire(items) == body && Attrs(items) == attrs
      ensures Walk(body) == Ok(attrs)
    {
      WalkOfWire(items);
    }
  }

  // ---------- Addresses ----------

  function Mask(txid: Bytes): Bytes {
    PackU32(MAGIC_COOKIE) + txid
  }

  function DecodeAddress(value: Bytes, xor: bool, txid: Bytes): Result<Endpoint, Error>
    requires |txid| == 12
  {
    if |value| < 4 then Err(AddressTooShort)
    else
      var port := if xor then Xor16(U16(value, 2), MAGIC_COOKIE / 0x1_0000) else U16(value, 2);
      if value[1] == 1 then
        if |value| != 8 then Err(BadIPv4Attribute)
        else Ok(Endpoint(IPv4(Unmask(value[4..8], xor, PackU32(MAGIC_COOKIE))), port))
      else if value[1] == 2 then
        if |value| != 20 then Err(BadIPv6Attribute)
        else Ok(Endpoint(IPv6(Unmask(value[4..20], xor, Mask(txid))), port))
      else Err(UnknownFamily)
  }

  function Unmask(packed: Bytes, xor: bool, mask: Bytes): Bytes
    requires |packed| <= |mask|
  {
    if xor then XorBytes(packed, mask) else packed
  }

  ghost predicate ValidEndpoint(e: Endpoint) {
    e.port < 0x1_0000 && |e.address.octets| == if e.address.IPv4? then 4 else 16
  }

  /** The value of a MAPPED-ADDRESS, or of an XOR-MAPPED-ADDRESS, for an endpoint. */
  function EncodeAddress(e: Endpoint, xor: bool, txid: Bytes): Bytes
    requires ValidEndpoint(e) && |txid| == 12
  {
    var port := if xor then Xor16(e.port, 0x2112) else e.port;
    var family: byte := if e.address.IPv4? then 1 else 2;
    [0, family] + PackU16(port) + Unmask(e.address.octets, xor, Mask(txid))
  }

  lemma EncodedLayout(e: Endpoint, xor: bool, txid: Bytes)
    requires ValidEndpoint(e) && |txid| == 12
    ensures var value := EncodeAddress(e, xor, txid);
            && |value| == 4 + |e.address.octets|
            && value[1] == (if e.address.IPv4? then 1 else 2)
            && U16(value, 2) == (if xor then Xor16(e.port, 0x2112) else e.port)
            && value[4..|value|] == Unmask(e.address.octets, xor, Mask(txid))
  {
  }

  lemma UnmaskInvolution(octets: Bytes, xor: bool, txid: Bytes, mask: Bytes)
    requires |txid| == 12 && |octets| <= |mask| && mask <= Mask(txid)
    ensures Unmask(Unmask(octets, xor, Mask(txid)), xor, mask) == octets
  {
    assert XorBytes(octets, Mask(txid)) == XorBytes(octets, mask);
    XorBytesInvolution(octets, mask);
  }

  lemma DecodeByLayout(value: Bytes, e: Endpoint, xor: bool, txid: Bytes)
    requires ValidEndpoint(e) && |txid| == 12 && |value| == 4 + |e.address.octets|
    requires value[1] == if e.address.IPv4? then 1 else 2
    requires e.port == if xor then Xor16(U16(value, 2), 0x2112) else U16(value, 2)
    requires e.address.octets
             == Unmask(value[4..|value|], xor, if e.address.IPv4? then PackU32(MAGIC_COOKIE) else Mask(txid))
    ensures DecodeAddress(value, xor, txid) == Ok(e)
  {
    hide Xor16, XorBytes, U16;
  }

  lemma DecodeOfEncode(e: Endpoint, xor: bool, txid: Bytes)
    requires ValidEndpoint(e) && |txid| == 12
    ensures DecodeAddress(EncodeAddress(e, xor, txid), xor, txid) == Ok(e)
  {
    hide Xor16, XorBytes, U16, EncodeAddress;
    EncodedLayout(e, xor, txid);
    Xor16Involution(e.port, 0x2112);
    var mask := if e.address.IPv4? then PackU32(MAGIC_COOKIE) else Mask(txid);
    UnmaskInvolution(e.address.octets, xor, txid, mask);
    var value := EncodeAddress(e, xor, txid);
    DecodeByLayout(value, e, xor, txid);
  }

  /** Which values of an address attribute are refused, and why. */
  lemma DecodeRefusals(value: Bytes, xor: bool, txid: Bytes)
    requires |txid| == 12
    ensures var r := DecodeAddress(value, xor, txid);
            && (r.Ok? <==> (|value| == 8 && value[1] == 1) || (|value| == 20 && value[1] == 2))
            && (r == Err(AddressTooShort) <==> |value| < 4)
            && (r == Err(BadIPv4Attribute) <==> |value| >= 4 && value[1] == 1 && |value| != 8)
            && (r == Err(BadIPv6Attribute) <==> |value| >= 4 && value[1] == 2 && |value| != 20)
            && (r == Err(UnknownFamily) <==> |value| >= 4 && value[1] != 1 && value[1] != 2)
  {
    hide Xor16, XorBytes, U16;
  }

  lemma DecodedLayout(value: Bytes, xor: bool, txid: Bytes)
    requires |txid| == 12 && DecodeAddress(value, xor, txid).Ok?
    ensures var e := DecodeAddress(value, xor, txid).value;
            && ValidEndpoint(e) && |value| == 4 + |e.address.octets| && value[1] == (if e.address.IPv4? then 1 else 2)
            && e.port == (if xor then Xor16(U16(value, 2), 0x2112) else U16(value, 2))
            && e.address.octets == Unmask(value[4..|value|], xor, if e.address.IPv4? then PackU32(MAGIC_COOKIE) else Mask(txid))
  {
    hide Xor16, XorBytes, U16;
  }

  lemma MaskInvolution(octets: Bytes, xor: bool, txid: Bytes, mask: Bytes)
    requires |txid| == 12 && |octets| <= |mask| && mask <= Mask(txid)
    ensures |Unmask(octets, xor, mask)| == |octets|
    ensures Unmask(Unmask(octets, xor, mask), xor, Mask(txid)) == octets
  {
    assert XorBytes(XorBytes(octets, mask), Mask(txid)) == XorBytes(XorBytes(octets, mask), mask);
    XorBytesInvolution(octets, mask);
  }

  lemma SameTail(v: Bytes, w: Bytes)
    requires |v| == |w| >= 4 && v[1] == w[1] && U16(v, 2) == U16(w, 2) && v[4..|v|] == w[4..|w|]
    ensures v[1..] == w[1..]
  {
    PackOfU16(v, 2);
    PackOfU16(w, 2);
    hide U16, PackU16;
    assert v[1..] == [v[1]] + v[2..4] + v[4..|v|] && w[1..] == [w[1]] + w[2..4] + w[4..|w|];
  }

  /** Every value that decodes is the encoding of what it decodes to, but for its first byte, which is not looked at. */
  lemma EncodeOfDecode(value: Bytes, xor: bool, txid: Bytes)
    requires |txid| == 12 && DecodeAddress(value, xor, txid).Ok?
    ensures var e := DecodeAddress(value, xor, txid).value;
            ValidEndpoint(e) && EncodeAddress(e, xor, txid)[1..] == value[1..]
  {
    DecodedLayout(value, xor, txid);
    var e := DecodeAddress(value, xor, txid).value;
    EncodedLayout(e, xor, txid);
    MaskInvolution(value[4..|value|], xor, txid, if e.address.IPv4? then PackU32(MAGIC_COOKIE) else Mask(txid));
    Xor16Involution(U16(value, 2), 0x2112);
    hide Xor16, XorBytes, U16, EncodeAddress, DecodeAddress, Unmask, Mask;
    SameTail(EncodeAddress(e, xor, txid), value);
  }

  /** Two endpoints with the same encoding are the same. */
  lemma EncodeInjective(a: Endpoint, b: Endpoint, xor: bool, txid: Bytes)
    requires ValidEndpoint(a) && ValidEndpoint(b) && |txid| == 12
    requires EncodeAddress(a, xor, txid) == EncodeAddress(b, xor, txid)
    ensures a == b
  {
    DecodeOfEncode(a, xor, txid);
    DecodeOfEncode(b, xor, txid);
  }

  // ---------- Messages ----------

  /** The values of the attributes of type `t`, in order. */
  function Values(attrs: seq<Attr>, t: nat): seq<Bytes> {
    if attrs == [] then []
    else (if attrs[0].typ == t then [attrs[0].value] else []) + Values(attrs[1..], t)
  }

  lemma {:induction false} ValuesAppend(attrs: seq<Attr>, a: Attr, t: nat)
    ensures Values(attrs + [a], t) == Values(attrs, t) + if a.typ == t then [a.value] else []
  {
    if attrs == [] {
      assert attrs + [a] == [a];
    } else {
      ValuesAppend(attrs[1..], a, t);
      assert (attrs + [a])[1..] == attrs[1..] + [a];
    }
  }

  function DecodeFirst(attrs: seq<Attr>, t: nat, xor: bool, txid: Bytes): Result<Option<Endpoint>, Error>
    requires |txid| == 12
  {
    var values := Values(attrs, t);
    if values == [] then Ok(None)
    else match DecodeAddress(values[0], xor, txid)
      case Ok(e) => Ok(Some(e))
      case Err(e) => Err(e)
  }

  /** What a list of attributes says: XOR-MAPPED-ADDRESS has precedence over MAPPED-ADDRESS. */
  function Interpret(attrs: seq<Attr>, txid: Bytes): Result<Parsed, Error>
    requires |txid| == 12
  {
    var t := if Values(attrs, XOR_MAPPED_ADDRESS) != [] then XOR_MAPPED_ADDRESS else MAPPED_ADDRESS;
    match DecodeFirst(attrs, t, t == XOR_MAPPED_ADDRESS, txid)
    case Err(e) => Err(e)
    case Ok(None) => Err(NoMappedAddress)
    case Ok(Some(mapped)) =>
      match DecodeFirst(attrs, RESPONSE_ORIGIN, false, txid)
      case Err(e) => Err(e)
      case Ok(origin) =>
        match DecodeFirst(attrs, OTHER_ADDRESS, false, txid)
        case Err(e) => Err(e)
        case Ok(other) => Ok(Parsed(mapped, origin, other))
  }

  function Parse(data: Bytes, txid: Bytes): Result<Parsed, Error> {
    if |data| < 20 then Err(ResponseTooShort)
    else if U32(data, 4) != MAGIC_COOKIE then Err(BadCookie)
    else if data[8..20] != txid then Err(TransactionMismatch)
    else if U16(data, 0) != BINDING_SUCCESS then Err(NotSuccess)
    else if U16(data, 2) != |data| - 20 then Err(BadLength)
    else match Walk(data[20..])
      case Err(e) => Err(e)
      case Ok(attrs) => Interpret(attrs, txid)
  }

  /** A STUN message of the given type (section 6 of RFC 5389). */
  function Message(typ: nat, txid: Bytes, items: seq<Item>): Bytes
    requires typ < 0x1_0000 && |txid| == 12 && Framed(items) && |Wire(items)| < 0x1_0000
  {
    PackU16(typ) + PackU16(|Wire(items)|) + PackU32(MAGIC_COOKIE) + txid + Wire(items)
  }

  lemma MessageLayout(typ: nat, txid: Bytes, items: seq<Item>)
    requires typ < 0x1_0000 && |txid| == 12 && Framed(items) && |Wire(items)| < 0x1_0000
    ensures var m := Message(typ, txid, items);
            && |m| == 20 + |Wire(items)| && U16(m, 0) == typ && U16(m, 2) == |m| - 20
            && U32(m, 4) == MAGIC_COOKIE && m[8..20] == txid && m[20..] == Wire(items)
  {
  }

  /** Round trip: what the attributes of an encoded response say is what the parser returns. */
  lemma ParseOfMessage(txid: Bytes, items: seq<Item>)
    requires |txid| == 12 && Framed(items) && |Wire(items)| < 0x1_0000
    ensures Parse(Message(BINDING_SUCCESS, txid, items), txid) == Interpret(Attrs(items), txid)
  {
    MessageLayout(BINDING_SUCCESS, txid, items);
    WalkOfWire(items);
  }

  lemma HeadBytes(data: Bytes)
    requires |data| >= 8
    ensures PackU16(U16(data, 0)) + PackU16(U16(data, 2)) + PackU32(U32(data, 4)) == data[..8]
    ensures U16(data, 2) < 0x1_0000
  {
    PackOfU16(data, 0);
    PackOfU16(data, 2);
    PackOfU32(data, 4);
    hide U32, PackU16, PackU32;
    assert data[..8] == data[0..2] + data[2..4] + data[4..8];
  }

  lemma HeaderDeterminesMessage(data: Bytes, items: seq<Item>)
    requires |data| >= 20 && Framed(items) && data[20..] == Wire(items)
    requires U32(data, 4) == MAGIC_COOKIE && U16(data, 2) == |data| - 20
    ensures |Wire(items)| < 0x1_0000
    ensures data == Message(U16(data, 0), data[8..20], items)
  {
    HeadBytes(data);
    hide U16, U32, PackU16, PackU32, Wire, Framed;
    assert data == data[..8] + data[8..20] + data[20..];
  }

  /** Every accepted datagram is such a message, with the expected transaction id. */
  lemma AcceptedIsMessage(data: Bytes, txid: Bytes) returns (items: seq<Item>)
    requires Parse(data, txid).Ok?
    ensures |txid| == 12 && Framed(items) && |Wire(items)| < 0x1_0000
    ensures data == Message(BINDING_SUCCESS, txid, items)
    ensures Parse(data, txid) == Interpret(Attrs(items), txid)
  {
    items := WireOfWalk(data[20..]);
    HeaderDeterminesMessage(data, items);
  }

  /** The reflexive address of an endpoint survives encoding and parsing: the first XOR-MAPPED-ADDRESS,
      or the first MAPPED-ADDRESS when there is none, decodes to the endpoint it was made from. */
  lemma MappedAddressRoundTrip(txid: Bytes, items: seq<Item>, e: Endpoint)
    requires |txid| == 12 && Framed(items) && |Wire(items)| < 0x1_0000 && ValidEndpoint(e)
    requires var attrs := Attrs(items);
             var xored, plain := Values(attrs, XOR_MAPPED_ADDRESS), Values(attrs, MAPPED_ADDRESS);
             || (xored != [] && xored[0] == EncodeAddress(e, true, txid))
             || (xored == [] && plain != [] && plain[0] == EncodeAddress(e, false, txid))
    ensures var r := Parse(Message(BINDING_SUCCESS, txid, items), txid);
            if r.Ok? then r.value.mapped == e
            else DecodeFirst(Attrs(items), RESPONSE_ORIGIN, false, txid).Err?
                 || DecodeFirst(Attrs(items), OTHER_ADDRESS, false, txid).Err?
  {
    hide Parse, Message, Framed, Wire, Attrs, Values, EncodeAddress, DecodeAddress;
    ParseOfMessage(txid, items);
    DecodeOfEncode(e, true, txid);
    DecodeOfEncode(e, false, txid);
  }

  /** The endpoint of an optional attribute: none without it, and otherwise the first one, which must be good. */
  ghost predicate Says(values: seq<Bytes>, e: Option<Endpoint>, txid: Bytes)
    requires |txid| == 12
  {
    if values == [] then e.None? else e.Some? && DecodeAddress(values[0], false, txid) == Ok(e.value)
  }

  /** What a response says, by the numbers of its attributes: the reflexive address is the first 0x0020, or without any
      the first 0x0001; 0x802B is the address it came from, and 0x802C the other address of the server. */
  lemma InterpretMeans(attrs: seq<Attr>, txid: Bytes, p: Parsed)
    requires |txid| == 12
    ensures Interpret(attrs, txid) == Ok(p)
            <==> ((if Values(attrs, 0x0020) != [] then DecodeAddress(Values(attrs, 0x0020)[0], true, txid) == Ok(p.mapped)
                   else Values(attrs, 0x0001) != [] && DecodeAddress(Values(attrs, 0x0001)[0], false, txid) == Ok(p.mapped))
                  && Says(Values(attrs, 0x802B), p.origin, txid) && Says(Values(attrs, 0x802C), p.other, txid))
  {
    hide DecodeAddress, Values;
  }

  /** The value of an address attribute in bytes: zero, the family, the port, and the octets, the last two masked with the
      magic cookie and the transaction id if asked for. */
  lemma EncodedInBytes(e: Endpoint, xor: bool, txid: Bytes)
    requires ValidEndpoint(e) && |txid| == 12
    ensures var value, mask := EncodeAddress(e, xor, txid), [0x21, 0x12, 0xA4, 0x42] + txid;
            && |value| == (if e.address.IPv4? then 8 else 20) && value[..2] == [0, if e.address.IPv4? then 1 else 2]
            && 256 * (value[2] as int) + value[3] as int == (if xor then Xor16(e.port, 0x2112) else e.port)
            && forall k :: 0 <= k < |e.address.octets| ==>
                 value[4 + k] == if xor then Xor8(e.address.octets[k], mask[k]) else e.address.octets[k]
  {
    EncodedLayout(e, xor, txid);
    assert PackU32(MAGIC_COOKIE) == [0x21, 0x12, 0xA4, 0x42];
    hide Xor8, Xor16;
  }

  /** The header of a response in bytes: type, length of the attributes, magic cookie, transaction id. */
  lemma HeaderInBytes(data: Bytes, txid: Bytes)
    requires Parse(data, txid).Ok?
    ensures |data| < 0x1_0014 && data[..4] == [0x01, 0x01, (|data| - 20) / 256, (|data| - 20) % 256]
    ensures data[4..8] == [0x21, 0x12, 0xA4, 0x42] && data[8..20] == txid
  {
    hide Walk, Interpret;
  }

  /** The cause of each refusal of a datagram by its header. */
  lemma HeaderRefusals(data: Bytes, txid: Bytes)
    ensures var r := Parse(data, txid);
            && (r == Err(ResponseTooShort) <==> |data| < 20)
            && (r == Err(BadCookie) ==> |data| >= 20 && data[4..8] != [0x21, 0x12, 0xA4, 0x42])
            && (r == Err(TransactionMismatch) ==> |data| >= 20 && data[8..20] != txid)
            && (r == Err(NotSuccess) ==> |data| >= 20 && data[..2] != [1, 1])
            && (r == Err(BadLength) ==> |data| >= 20 && U16(data, 2) != |data| - 20)
  {
    if |data| >= 20 {
      HeaderBytes(data);
      WalkRefuses(data[20..]);
      if Walk(data[20..]).Ok? && data[8..20] == txid {
        InterpretRefuses(Walk(data[20..]).value, txid);
      }
    }
    hide Walk, Interpret, U16, U32;
  }

  lemma HeaderBytes(data: Bytes)
    requires |data| >= 20
    ensures data[4..8] == [0x21, 0x12, 0xA4, 0x42] ==> U32(data, 4) == MAGIC_COOKIE
    ensures data[..2] == [1, 1] ==> U16(data, 0) == BINDING_SUCCESS
  {
    if data[4..8] == [0x21, 0x12, 0xA4, 0x42] {
      assert data[4] == data[4..8][0] && data[5] == data[4..8][1] && data[6] == data[4..8][2] && data[7] == data[4..8][3];
    }
    if data[..2] == [1, 1] {
      assert data[0] == data[..2][0] && data[1] == data[..2][1];
    }
  }

  lemma InterpretRefuses(attrs: seq<Attr>, txid: Bytes)
    requires |txid| == 12
    ensures Interpret(attrs, txid).Err? ==>
              Interpret(attrs, txid).error in {NoMappedAddress, AddressTooShort, BadIPv4Attribute, BadIPv6Attribute, UnknownFamily}
  {
    forall value: Bytes, xor | DecodeAddress(value, xor, txid).Err?
      ensures DecodeAddress(value, xor, txid).error in {AddressTooShort, BadIPv4Attribute, BadIPv6Attribute, UnknownFamily}
    {
      DecodeErrs(value, xor, txid);
    }
    hide DecodeAddress, Values;
  }

  lemma DecodeErrs(value: Bytes, xor: bool, txid: Bytes)
    requires |txid| == 12 && DecodeAddress(value, xor, txid).Err?
    ensures DecodeAddress(value, xor, txid).error in {AddressTooShort, BadIPv4Attribute, BadIPv6Attribute, UnknownFamily}
  {
    hide Xor16, XorBytes, U16, Unmask;
  }

  lemma {:induction false} WalkRefuses(body: Bytes)
    ensures Walk(body).Err? ==> Walk(body).error in {TruncatedHeader, TruncatedAttribute}
    decreases |body|
  {
    if |body| >= 4 {
      WalkRefuses(After(body));
    }
  }

  // ---------- The parser ----------

  ghost predicate Groups(dict: map<nat, seq<Bytes>>, attrs: seq<Attr>) {
    && (forall t :: t in dict <==> Values(attrs, t) != [])
    && (forall t :: t in dict ==> dict[t] == Values(attrs, t))
  }

  function Prepend(attrs: seq<Attr>, r: Result<seq<Attr>, Error>): Result<seq<Attr>, Error> {
    match r
    case Ok(rest) => Ok(attrs + rest)
    case Err(e) => Err(e)
  }

  lemma GroupsEmpty()
    ensures Groups(map[], [])
  {
  }

  lemma GroupsExtend(dict: map<nat, seq<Bytes>>, attrs: seq<Attr>, a: Attr)
    requires Groups(dict, attrs)
    ensures Groups(dict[a.typ := (if a.typ in dict then dict[a.typ] else []) + [a.value]], attrs + [a])
  {
    forall t: nat ensures Values(attrs + [a], t) == Values(attrs, t) + if a.typ == t then [a.value] else [] {
      ValuesAppend(attrs, a, t);
    }
  }

  lemma PrependStep(parsed: seq<Attr>, body: Bytes)
    requires 4 <= |body| && 4 + U16(body, 2) <= |body|
    ensures var a := Attr(U16(body, 0), body[4..4 + U16(body, 2)]);
            Prepend(parsed, Walk(body)) == Prepend(parsed + [a], Walk(After(body)))
  {
    WalkStep(body);
    hide Walk, After, U16;
    var a := Attr(U16(body, 0), body[4..4 + U16(body, 2)]);
    var rest := Walk(After(body));
    if rest.Ok? {
      assert parsed + ([a] + rest.value) == (parsed + [a]) + rest.value;
    }
  }

  lemma WalkStep(body: Bytes)
    ensures body == [] ==> Walk(body) == Ok([])
    ensures 0 < |body| < 4 ==> Walk(body) == Err(TruncatedHeader)
    ensures 4 <= |body| && 4 + U16(body, 2) > |body| ==> Walk(body) == Err(TruncatedAttribute)
    ensures 4 <= |body| && 4 + U16(body, 2) <= |body| ==>
              Walk(body) == Prepend([Attr(U16(body, 0), body[4..4 + U16(body, 2)])], Walk(After(body)))
  {
  }

  ghost function Remaining(data: Bytes, offset: nat): Bytes {
    if offset <= |data| then data[offset..] else []
  }

  lemma RemainingStep(data: Bytes, offset: nat)
    requires offset + 4 <= |data|
    ensures var body := Remaining(data, offset);
            && U16(body, 0) == U16(data, offset) && U16(body, 2) == U16(data, offset + 2)
            && After(body) == Remaining(data, offset + 4 + RoundUp(U16(body, 2)))
            && (4 + U16(body, 2) <= |body| ==>
                  body[4..4 + U16(body, 2)] == data[offset + 4..offset + 4 + U16(body, 2)])
  {
    var body, n := Remaining(data, offset), U16(data, offset + 2);
    assert U16(body, 2) == n;
    if 4 + n <= |body| {
      assert data[offset..][4..4 + n] == data[offset + 4..offset + 4 + n];
    }
    if 4 + RoundUp(n) <= |body| {
      assert data[offset..][4 + RoundUp(n)..] == data[offset + 4 + RoundUp(n)..];
    }
  }

  method ParseAttributes(data: Bytes) returns (r: Result<map<nat, seq<Bytes>>, Error>)
    requires |data| >= 20
    ensures var walked := Walk(data[20..]);
            if walked.Err? then r == Err(walked.error) else r.Ok? && Groups(r.value, walked.value)
  {
    hide Walk, U16, After, Groups, Values;
    GroupsEmpty();
    var attrs: map<nat, seq<Bytes>> := map[];
    ghost var parsed: seq<Attr> := [];
    ghost var whole := Walk(data[20..]);
    if whole.Ok? {
      assert parsed + whole.value == whole.value;
    }
    var offset, end := 20, |data|;
    while offset < end
      invariant 20 <= offset
      invariant Groups(attrs, parsed)
      invariant whole == Prepend(parsed, Walk(Remaining(data, offset)))
    {
      ghost var body := Remaining(data, offset);
      WalkStep(body);
      if offset + 4 > end {
        return Err(TruncatedHeader);
      }
      RemainingStep(data, offset);
      var attrType, attrLen := U16(data, offset), U16(data, offset + 2);
      var start := offset + 4;
      var stop := start + attrLen;
      if stop > end {
        return Err(TruncatedAttribute);
      }
      var value := data[start..stop];
      PrependStep(parsed, body);
      GroupsExtend(attrs, parsed, Attr(attrType, value));
      attrs := attrs[attrType := (if attrType in attrs then attrs[attrType] else []) + [value]];
      parsed := parsed + [Attr(attrType, value)];
      offset := start + (attrLen + 3) / 4 * 4;
    }
    WalkStep(Remaining(data, offset));
    assert whole == Prepend(parsed, Ok([]));
    assert parsed + [] == parsed;
    assert whole == Ok(parsed);
    r := Ok(attrs);
  }

  method ParseStunResponse(data: Bytes, expectedTransactionId: Bytes) returns (r: Result<Parsed, Error>)
    ensures r == Parse(data, expectedTransactionId)
  {
    hide Walk, Values, DecodeAddress, U16, U32;
    if |data| < 20 {
      return Err(ResponseTooShort);
    }
    var msgType, length, cookie, txid := U16(data, 0), U16(data, 2), U32(data, 4), data[8..20];
    if cookie != MAGIC_COOKIE {
      return Err(BadCookie);
    }
    if txid != expectedTransactionId {
      return Err(TransactionMismatch);
    }
    if msgType != BINDING_SUCCESS {
      return Err(NotSuccess);
    }
    if length != |data| - 20 {
      return Err(BadLength);
    }
    var walked := ParseAttributes(data);
    if walked.Err? {
      return Err(walked.error);
    }
    var attrs := walked.value;
    var mapped: Endpoint;
    if XOR_MAPPED_ADDRESS in attrs {
      var decoded := DecodeAddress(attrs[XOR_MAPPED_ADDRESS][0], true, txid);
      if decoded.Err? {
        return Err(decoded.error);
      }
      mapped := decoded.value;
    } else if MAPPED_ADDRESS in attrs {
      var decoded := DecodeAddress(attrs[MAPPED_ADDRESS][0], false, txid);
      if decoded.Err? {
        return Err(decoded.error);
      }
      mapped := decoded.value;
    } else {
      return Err(NoMappedAddress);
    }
    var origin := Addr(attrs, RESPONSE_ORIGIN, txid);
    if origin.Err? {
      return Err(origin.error);
    }
    var other := Addr(attrs, OTHER_ADDRESS, txid);
    if other.Err? {
      return Err(other.error);
    }
    r := Ok(Parsed(mapped, origin.value, other.value));
  }

  function Addr(attrs: map<nat, seq<Bytes>>, t: nat, txid: Bytes): Result<Option<Endpoint>, Error>
    requires |txid| == 12
  {
    if t !in attrs || attrs[t] == [] then Ok(None)
    else match DecodeAddress(attrs[t][0], false, txid)
      case Ok(e) => Ok(Some(e))
      case Err(e) => Err(e)
  }
}
