/**
 The STUN parser of the Android client (TraversalClient.kt), and how it compares with the parser of
 the bridge. The client keeps the last MAPPED-ADDRESS it meets and stops at the first
 XOR-MAPPED-ADDRESS; the bridge reads every attribute and uses the first of each type.
 */
module StunClient {
  import opened Wrappers
  import opened Bits
  import opened StunCodec

  datatype Refusal =
    | TooShort
    | Unsuccessful
    | WrongCookie
    | WrongTransaction
    | WrongLength
    | AttributeTruncated
    | AttributeInvalid
    | AddressSize
    | NotIPv4
    | Missing

  function ClientDecode(value: Bytes, xor: bool): Result<Endpoint, Refusal> {
    if |value| < 8 then Err(AddressSize)
    else if value[1] != 1 then Err(NotIPv4)
    else
      var port := if xor then Xor16(U16(value, 2), MAGIC_COOKIE / 0x1_0000) else U16(value, 2);
      Ok(Endpoint(IPv4(Unmask(value[4..8], xor, PackU32(MAGIC_COOKIE))), port))
  }

  /** The mapped address kept after reading `body`, when `mapped` was kept before it. */
  function Scan(body: Bytes, mapped: Option<Endpoint>): Result<Option<Endpoint>, Refusal>
    decreases |body|
  {
    if body == [] then Ok(mapped)
    else if |body| < 4 then Err(AttributeTruncated)
    else
      var t, n := U16(body, 0), U16(body, 2);
      if 4 + n > |body| then Err(AttributeInvalid)
      else if t != XOR_MAPPED_ADDRESS && t != MAPPED_ADDRESS then Scan(After(body), mapped)
      else
        match ClientDecode(body[4..4 + n], t == XOR_MAPPED_ADDRESS)
        case Err(e) => Err(e)
        case Ok(e) => if t == XOR_MAPPED_ADDRESS then Ok(Some(e)) else Scan(After(body), Some(e))
  }

  function ClientParse(data: Bytes, txid: Bytes): Result<Endpoint, Refusal> {
    if |data| < 20 then Err(TooShort)
    else if U16(data, 0) != BINDING_SUCCESS then Err(Unsuccessful)
    else if U32(data, 4) != MAGIC_COOKIE then Err(WrongCookie)
    else if data[8..20] != txid then Err(WrongTransaction)
    else if U16(data, 2) != |data| - 20 then Err(WrongLength)
    else match Scan(data[20..], None)
      case Err(e) => Err(e)
      case Ok(None) => Err(Missing)
      case Ok(Some(e)) => Ok(e)
  }

  // ---------- The client's code ----------

  method ParseAddress(value: Bytes, xor: bool) returns (r: Result<Endpoint, Refusal>)
    ensures r == ClientDecode(value, xor)
  {
    if |value| < 8 {
      return Err(AddressSize);
    }
    var family, port := value[1], U16(value, 2);
    if family != 1 {
      return Err(NotIPv4);
    }
    var address := new byte[4](i requires 0 <= i < 4 => value[4 + i]);
    if xor {
      port := Xor16(port, MAGIC_COOKIE / 0x1_0000);
      var cookie := PackU32(MAGIC_COOKIE);
      for i := 0 to 4
        invariant forall k :: 0 <= k < i ==> address[k] == Xor8(value[4 + k], cookie[k])
        invariant forall k :: i <= k < 4 ==> address[k] == value[4 + k]
      {
        address[i] := Xor8(address[i], cookie[i]);
      }
    }
    assert address[..] == Unmask(value[4..8], xor, PackU32(MAGIC_COOKIE));
    r := Ok(Endpoint(IPv4(address[..]), port));
  }

  method ParseResponse(data: Bytes, expectedTransactionId: Bytes) returns (r: Result<Endpoint, Refusal>)
    ensures r == ClientParse(data, expectedTransactionId)
  {
    if |data| < 20 {
      return Err(TooShort);
    }
    var typ, length, cookie, transactionId := U16(data, 0), U16(data, 2), U32(data, 4), data[8..20];
    if typ != BINDING_SUCCESS {
      return Err(Unsuccessful);
    }
    if cookie != MAGIC_COOKIE {
      return Err(WrongCookie);
    }
    if transactionId != expectedTransactionId {
      return Err(WrongTransaction);
    }
    if length != |data| - 20 {
      return Err(WrongLength);
    }
    r := ScanAttributes(data);
  }

  lemma ScanStep(data: Bytes, offset: nat, mapped: Option<Endpoint>)
    requires offset < |data|
    ensures Scan(Remaining(data, offset), mapped)
            == if offset + 4 > |data| then Err(AttributeTruncated)
               else
                 var t, n := U16(data, offset), U16(data, offset + 2);
                 if offset + 4 + n > |data| then Err(AttributeInvalid)
                 else
                   var next := Remaining(data, offset + 4 + RoundUp(n));
                   if t != XOR_MAPPED_ADDRESS && t != MAPPED_ADDRESS then Scan(next, mapped)
                   else
                     match ClientDecode(data[offset + 4..offset + 4 + n], t == XOR_MAPPED_ADDRESS)
                     case Err(e) => Err(e)
                     case Ok(e) => if t == XOR_MAPPED_ADDRESS then Ok(Some(e)) else Scan(next, Some(e))
  {
    hide ClientDecode, U16, After;
    if offset + 4 <= |data| {
      RemainingStep(data, offset);
    }
  }

  method ScanAttributes(data: Bytes) returns (r: Result<Endpoint, Refusal>)
    requires |data| >= 20
    ensures match Scan(data[20..], None)
            case Err(e) => r == Err(e)
            case Ok(None) => r == Err(Missing)
            case Ok(Some(e)) => r == Ok(e)
  {
    hide ClientDecode, Scan, U16;
    var offset := 20;
    var mapped: Option<Endpoint> := None;
    while offset < |data|
      invariant 20 <= offset
      invariant Scan(data[20..], None) == Scan(Remaining(data, offset), mapped)
    {
      ScanStep(data, offset, mapped);
      if offset + 4 > |data| {
        return Err(AttributeTruncated);
      }
      var attrType, attrLength := U16(data, offset), U16(data, offset + 2);
      var start := offset + 4;
      var stop := start + attrLength;
      if stop > |data| {
        return Err(AttributeInvalid);
      }
      var value := data[start..stop];
      if attrType == XOR_MAPPED_ADDRESS || attrType == MAPPED_ADDRESS {
        var parsed := ParseAddress(value, attrType == XOR_MAPPED_ADDRESS);
        if parsed.Err? {
          return Err(parsed.error);
        }
        mapped := Some(parsed.value);
        if attrType == XOR_MAPPED_ADDRESS {
          return Ok(parsed.value);
        }
      }
      offset := start + (attrLength + 3) / 4 * 4;
    }
    assert Remaining(data, offset) == [];
    ScanEmpty(mapped);
    if mapped.None? {
      return Err(Missing);
    }
    r := Ok(mapped.value);
  }

  lemma ScanEmpty(mapped: Option<Endpoint>)
    ensures Scan([], mapped) == Ok(mapped)
  {
  }

  // ---------- What the client accepts ----------

  /** The client accepts a datagram exactly if its header is that of a success response to its request, of the stated
      length, and the scan of its attributes keeps an address, which is the result. */
  lemma ClientAccepts(data: Bytes, txid: Bytes, e: Endpoint)
    ensures ClientParse(data, txid) == Ok(e)
            <==> (|data| >= 20 && U16(data, 0) == 0x0101 && U16(data, 2) == |data| - 20 && U32(data, 4) == 0x2112A442
                  && data[8..20] == txid && Scan(data[20..], None) == Ok(Some(e)))
  {
    hide Scan, U16, U32;
  }

  /** The client decodes a value exactly if it has eight bytes at least and is of the family of IPv4, and it decodes the
      first eight of them like the bridge. */
  lemma ClientDecodes(value: Bytes, xor: bool, txid: Bytes)
    requires |txid| == 12
    ensures ClientDecode(value, xor).Ok? <==> |value| >= 8 && value[1] == 1
    ensures ClientDecode(value, xor).Ok? ==> DecodeAddress(value[..8], xor, txid) == Ok(ClientDecode(value, xor).value)
  {
    if |value| >= 8 {
      assert value[..8][4..8] == value[4..8];
    }
    hide Xor16, XorBytes;
  }

  /** Round trip for the client: an IPv4 endpoint in the only address attribute of a response, masked or not, is what the
      client gets. */
  lemma ClientRoundTrip(txid: Bytes, items: seq<Item>, e: Endpoint)
    requires |txid| == 12 && Framed(items) && |Wire(items)| < 0x1_0000 && ValidEndpoint(e) && e.address.IPv4?
    requires var xored, plain := Values(Attrs(items), 0x0020), Values(Attrs(items), 0x0001);
             || (xored == [EncodeAddress(e, true, txid)] && plain == [])
             || (xored == [] && plain == [EncodeAddress(e, false, txid)])
    ensures ClientParse(Message(0x0101, txid, items), txid) == Ok(e)
  {
    var data, attrs := Message(0x0101, txid, items), Attrs(items);
    MessageLayout(0x0101, txid, items);
    WalkOfWire(items);
    forall xor ensures ClientDecode(EncodeAddress(e, xor, txid), xor) == Ok(e) {
      EncodedLayout(e, xor, txid);
      DecodeOfEncode(e, xor, txid);
      ClientDecodes(EncodeAddress(e, xor, txid), xor, txid);
      assert EncodeAddress(e, xor, txid)[..8] == EncodeAddress(e, xor, txid);
    }
    hide ClientDecode, EncodeAddress, DecodeAddress, U16, U32, Message, Wire, Framed, Walk, Attrs, Values, Scan;
    AllDecoded(data[20..], None);
    ScanKeeps(data[20..], None);
  }

  /** If every address attribute can be decoded, the scan comes through. */
  lemma {:induction false} AllDecoded(body: Bytes, mapped: Option<Endpoint>)
    requires Walk(body).Ok?
    requires forall v <- Values(Walk(body).value, 0x0020) :: ClientDecode(v, true).Ok?
    requires forall v <- Values(Walk(body).value, 0x0001) :: ClientDecode(v, false).Ok?
    ensures Scan(body, mapped).Ok?
    decreases |body|
  {
    hide ClientDecode;
    if body != [] {
      var t, value := U16(body, 0), body[4..4 + U16(body, 2)];
      var attrs := Walk(body).value;
      assert attrs[0] == Attr(t, value) && attrs[1..] == Walk(After(body)).value;
      if t != XOR_MAPPED_ADDRESS {
        AllDecoded(After(body), if t == MAPPED_ADDRESS then Some(ClientDecode(value, false).value) else mapped);
      }
    }
  }

  // ---------- The two parsers together ----------

  lemma DecodersAgree(value: Bytes, xor: bool, txid: Bytes)
    requires |txid| == 12
    requires DecodeAddress(value, xor, txid).Ok? && ClientDecode(value, xor).Ok?
    ensures DecodeAddress(value, xor, txid).value == ClientDecode(value, xor).value
  {
  }

  /** What the client keeps, in terms of all the attributes of a body that the bridge could read. */
  function Kept(attrs: seq<Attr>, mapped: Option<Endpoint>): Option<Endpoint>
    requires Values(attrs, XOR_MAPPED_ADDRESS) != [] ==>
               ClientDecode(Values(attrs, XOR_MAPPED_ADDRESS)[0], true).Ok?
    requires Values(attrs, XOR_MAPPED_ADDRESS) == [] ==>
               forall v <- Values(attrs, MAPPED_ADDRESS) :: ClientDecode(v, false).Ok?
  {
    var xored, plain := Values(attrs, XOR_MAPPED_ADDRESS), Values(attrs, MAPPED_ADDRESS);
    if xored != [] then Some(ClientDecode(xored[0], true).value)
    else if plain != [] then Some(ClientDecode(plain[|plain| - 1], false).value)
    else mapped
  }

  lemma {:induction false} ScanKeeps(body: Bytes, mapped: Option<Endpoint>)
    requires Walk(body).Ok? && Scan(body, mapped).Ok?
    ensures var attrs := Walk(body).value;
            var xored, plain := Values(attrs, XOR_MAPPED_ADDRESS), Values(attrs, MAPPED_ADDRESS);
            && (xored != [] ==> ClientDecode(xored[0], true).Ok?)
            && (xored == [] ==> forall v <- plain :: ClientDecode(v, false).Ok?)
            && Scan(body, mapped).value == Kept(attrs, mapped)
    decreases |body|
  {
    hide ClientDecode;
    if body != [] {
      var t, value := U16(body, 0), body[4..4 + U16(body, 2)];
      var rest := Walk(After(body)).value;
      assert Walk(body).value[1..] == rest;
      if t != XOR_MAPPED_ADDRESS {
        ScanKeeps(After(body), if t == MAPPED_ADDRESS then Some(ClientDecode(value, false).value) else mapped);
      }
    }
  }

  /** When both parsers accept a datagram they agree on it if it holds an XOR-MAPPED-ADDRESS, and
      otherwise exactly when its first and its last MAPPED-ADDRESS say the same to the client. */
  lemma ParsersAgree(data: Bytes, txid: Bytes)
    requires Parse(data, txid).Ok? && ClientParse(data, txid).Ok?
    ensures var attrs := Walk(data[20..]).value;
            var xored, plain := Values(attrs, XOR_MAPPED_ADDRESS), Values(attrs, MAPPED_ADDRESS);
            && (xored != [] || plain != [])
            && (Parse(data, txid).value.mapped == ClientParse(data, txid).value
                <==> xored != [] || ClientDecode(plain[0], false) == ClientDecode(plain[|plain| - 1], false))
  {
    hide ClientDecode, DecodeAddress, EncodeAddress, Unmask, Values, Walk, Scan, U16, U32;
    var attrs := Walk(data[20..]).value;
    var xored, plain := Values(attrs, XOR_MAPPED_ADDRESS), Values(attrs, MAPPED_ADDRESS);
    ScanKeeps(data[20..], None);
    if xored != [] {
      DecodersAgree(xored[0], true, txid);
    } else {
      DecodersAgree(plain[0], false, txid);
    }
  }

  /** In particular a single MAPPED-ADDRESS is enough. */
  lemma SingleMappedAddressAgrees(data: Bytes, txid: Bytes)
    requires Parse(data, txid).Ok? && ClientParse(data, txid).Ok?
    requires |Values(Walk(data[20..]).value, MAPPED_ADDRESS)| == 1
    ensures Parse(data, txid).value.mapped == ClientParse(data, txid).value
  {
    ParsersAgree(data, txid);
  }

  /** With two MAPPED-ADDRESS attributes the bridge takes the first and the client the last: for any two
      distinct IPv4 endpoints there is a response on which the two parsers disagree. */
  lemma TwoMappedAddressesDisagree(a: Endpoint, b: Endpoint, txid: Bytes) returns (data: Bytes)
    requires ValidEndpoint(a) && ValidEndpoint(b) && a.address.IPv4? && b.address.IPv4? && |txid| == 12
    ensures Parse(data, txid) == Ok(Parsed(a, None, None)) && ClientParse(data, txid) == Ok(b)
  {
    var va, vb := EncodeAddress(a, false, txid), EncodeAddress(b, false, txid);
    EncodedLayout(a, false, txid);
    EncodedLayout(b, false, txid);
    DecodeOfEncode(a, false, txid);
    DecodeOfEncode(b, false, txid);
    DecodersAgree(va, false, txid);
    DecodersAgree(vb, false, txid);
    hide EncodeAddress;
    data := TwoMapped(va, vb, txid);
    BothParse(data, txid, va, vb, a, b);
  }

  lemma BothParse(data: Bytes, txid: Bytes, va: Bytes, vb: Bytes, a: Endpoint, b: Endpoint)
    requires |txid| == 12 && |data| == 44 && U16(data, 0) == BINDING_SUCCESS && U16(data, 2) == 24
    requires U32(data, 4) == MAGIC_COOKIE && data[8..20] == txid
    requires Walk(data[20..]) == Ok([Attr(MAPPED_ADDRESS, va), Attr(MAPPED_ADDRESS, vb)])
    requires DecodeAddress(va, false, txid) == Ok(a) && ClientDecode(va, false).Ok? && ClientDecode(vb, false) == Ok(b)
    ensures Parse(data, txid) == Ok(Parsed(a, None, None)) && ClientParse(data, txid) == Ok(b)
  {
    hide ClientDecode, DecodeAddress, Values, Walk, Scan, U16, U32;
    TwoValues(va, vb);
    ScanOfTwo(data[20..], va, vb);
  }

  lemma TwoItems(va: Bytes, vb: Bytes) returns (items: seq<Item>)
    requires |va| == 8 && |vb| == 8
    ensures Framed(items) && |Wire(items)| == 24
    ensures Attrs(items) == [Attr(MAPPED_ADDRESS, va), Attr(MAPPED_ADDRESS, vb)]
  {
    var second := [Item(MAPPED_ADDRESS, vb, [])];
    assert second[1..] == [];
    assert |Wire(second)| == |WireItem(second[0])| + |Wire([])| == 12;
    assert Attrs(second) == [Attr(MAPPED_ADDRESS, vb)];
    items := [Item(MAPPED_ADDRESS, va, [])] + second;
    assert items[1..] == second;
  }

  lemma TwoMapped(va: Bytes, vb: Bytes, txid: Bytes) returns (data: Bytes)
    requires |va| == 8 && |vb| == 8 && |txid| == 12
    ensures |data| == 44 && U16(data, 0) == BINDING_SUCCESS && U16(data, 2) == 24
    ensures U32(data, 4) == MAGIC_COOKIE && data[8..20] == txid
    ensures Walk(data[20..]) == Ok([Attr(MAPPED_ADDRESS, va), Attr(MAPPED_ADDRESS, vb)])
  {
    hide Wire, Message, Walk, U16, U32, Attrs;
    var items := TwoItems(va, vb);
    data := Message(BINDING_SUCCESS, txid, items);
    MessageLayout(BINDING_SUCCESS, txid, items);
    WalkOfWire(items);
  }

  lemma TwoValues(va: Bytes, vb: Bytes)
    ensures var attrs := [Attr(MAPPED_ADDRESS, va), Attr(MAPPED_ADDRESS, vb)];
            && Values(attrs, MAPPED_ADDRESS) == [va, vb]
            && forall t | t != MAPPED_ADDRESS :: Values(attrs, t) == []
  {
    var attrs := [Attr(MAPPED_ADDRESS, va), Attr(MAPPED_ADDRESS, vb)];
    assert attrs[1..] == [Attr(MAPPED_ADDRESS, vb)] && attrs[1..][1..] == [];
    assert Values(attrs[1..], MAPPED_ADDRESS) == [vb];
    forall t: nat | t != MAPPED_ADDRESS ensures Values(attrs, t) == [] {
      assert Values(attrs[1..], t) == [];
    }
  }

  lemma WalkHead(body: Bytes, a: Attr, rest: seq<Attr>)
    requires Walk(body).Ok? && Walk(body).value == [a] + rest
    ensures 4 <= |body| && 4 + U16(body, 2) <= |body|
    ensures U16(body, 0) == a.typ && body[4..4 + U16(body, 2)] == a.value && Walk(After(body)) == Ok(rest)
  {
    assert body != [];
    var tail := Walk(After(body)).value;
    assert Walk(body).value[0] == a && Walk(body).value[1..] == tail == rest;
  }

  lemma ScanOfTwo(body: Bytes, va: Bytes, vb: Bytes)
    requires Walk(body) == Ok([Attr(MAPPED_ADDRESS, va), Attr(MAPPED_ADDRESS, vb)])
    requires ClientDecode(va, false).Ok? && ClientDecode(vb, false).Ok?
    ensures Scan(body, None) == Ok(Some(ClientDecode(vb, false).value))
  {
    hide ClientDecode;
    WalkHead(body, Attr(MAPPED_ADDRESS, va), [Attr(MAPPED_ADDRESS, vb)]);
    var last := After(body);
    WalkHead(last, Attr(MAPPED_ADDRESS, vb), []);
    assert After(last) == [];
    var second := Some(ClientDecode(vb, false).value);
    ScanEmpty(second);
    assert Scan(last, Some(ClientDecode(va, false).value)) == Scan([], second);
  }
}
