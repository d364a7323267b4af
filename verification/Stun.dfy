/**
  The STUN binding client (`stun.rs`): the request it sends and the attribute walk over a
  response, with the formats of sections 6, 15 and 15.2 of RFC 5389.
 */
module Stun {
  import opened Bits
  import opened Prelude

  const BINDING_REQUEST: U16 := 0x0001
  const BINDING_SUCCESS: U16 := 0x0101
  const XOR_MAPPED_ADDRESS: U16 := 0x0020
  const COOKIE: Bytes := [0x21, 0x12, 0xA4, 0x42]
  const HEADER_LEN: nat := 20

  datatype Endpoint = Endpoint(ip: Bytes, port: U16)

  datatype StunError =
    | ShortHeader | NotSuccess | TruncatedBody | BadCookie | BadTransaction
    | TruncatedAttribute | ShortAddress | NotIpv4 | MissingAddress

  function U16At(s: Bytes, i: nat): U16
    requires i + 2 <= |s|
  {
    s[i] as int * 256 + s[i + 1] as int
  }

  function Two(n: U16): Bytes { [n / 256, n % 256] }

  /** `(len + 3) & !3`. */
  function Padded(len: nat): nat { (len + 3) / 4 * 4 }

  /** The least multiple of four that is at least `len`. */
  lemma PaddedLeast(len: nat)
    ensures Padded(len) % 4 == 0 && Padded(len) >= len && forall m :: m % 4 == 0 && m >= len ==> m >= Padded(len)
  {
  }

  // ----- the obfuscation -----

  function Xor8(a: Byte, b: Byte): Byte { Pow2Values(); Xor(a, b, 8) }

  function Xor16(a: U16, b: U16): U16 { Pow2Values(); Xor(a, b, 16) }

  lemma Xor8Twice(a: Byte, b: Byte)
    ensures Xor8(Xor8(a, b), b) == a
  {
    Pow2Values();
    XorTwice(a, b, 8);
  }

  lemma Xor16Twice(a: U16, b: U16)
    ensures Xor16(Xor16(a, b), b) == a
  {
    Pow2Values();
    XorTwice(a, b, 16);
  }

  /** The port and address of an XOR-MAPPED-ADDRESS value. */
  function EndpointOf(v: Bytes): Endpoint
    requires |v| >= 8
  {
    Endpoint([Xor8(v[4], 0x21), Xor8(v[5], 0x12), Xor8(v[6], 0xA4), Xor8(v[7], 0x42)], Xor16(U16At(v, 2), 0x2112))
  }

  /** How a server writes an endpoint: a reserved byte, the IPv4 family, port and address obfuscated. */
  function MappedValue(reserved: Byte, e: Endpoint, extra: Bytes): Bytes
    requires |e.ip| == 4
  {
    [reserved, 0x01] + Two(Xor16(e.port, 0x2112)) +
    [Xor8(e.ip[0], 0x21), Xor8(e.ip[1], 0x12), Xor8(e.ip[2], 0xA4), Xor8(e.ip[3], 0x42)] + extra
  }

  lemma MappedFields(reserved: Byte, e: Endpoint, extra: Bytes)
    requires |e.ip| == 4
    ensures var v := MappedValue(reserved, e, extra);
            && |v| >= 8 && U16At(v, 2) == Xor16(e.port, 0x2112)
            && v[4] == Xor8(e.ip[0], 0x21) && v[5] == Xor8(e.ip[1], 0x12)
            && v[6] == Xor8(e.ip[2], 0xA4) && v[7] == Xor8(e.ip[3], 0x42)
  {
    var v := MappedValue(reserved, e, extra);
    var port := Two(Xor16(e.port, 0x2112));
    assert v[2] == port[0] && v[3] == port[1];
  }

  lemma MappedRoundTrip(reserved: Byte, e: Endpoint, extra: Bytes)
    requires |e.ip| == 4
    ensures EndpointOf(MappedValue(reserved, e, extra)) == e
  {
    MappedFields(reserved, e, extra);
    Xor16Twice(e.port, 0x2112);
    Xor8Twice(e.ip[0], 0x21);
    Xor8Twice(e.ip[1], 0x12);
    Xor8Twice(e.ip[2], 0xA4);
    Xor8Twice(e.ip[3], 0x42);
    assert e.ip == [e.ip[0], e.ip[1], e.ip[2], e.ip[3]];
  }

  function ParseAddress(v: Bytes): Result<Endpoint, StunError> {
    if |v| < 8 then Err(ShortAddress)
    else if v[1] != 0x01 then Err(NotIpv4)
    else Ok(EndpointOf(v))
  }

  // ----- the walk -----

  /** The attribute walk over what is left of a message body. */
  function Walk(rest: Bytes): Result<Endpoint, StunError>
    decreases |rest|
  {
    if |rest| < 4 then Err(MissingAddress)
    else
      var kind, len := U16At(rest, 0), U16At(rest, 2);
      if 4 + len > |rest| then Err(TruncatedAttribute)
      else if kind == XOR_MAPPED_ADDRESS then ParseAddress(rest[4..4 + len])
      else if 4 + Padded(len) > |rest| then Err(MissingAddress)
      else Walk(rest[4 + Padded(len)..])
  }

  function Parse(response: Bytes, transaction: Bytes): Result<Endpoint, StunError> {
    if |response| < HEADER_LEN then Err(ShortHeader)
    else if U16At(response, 0) != BINDING_SUCCESS then Err(NotSuccess)
    else if |response| < HEADER_LEN + U16At(response, 2) then Err(TruncatedBody)
    else if response[4..8] != COOKIE then Err(BadCookie)
    else if response[8..20] != transaction then Err(BadTransaction)
    else Walk(response[HEADER_LEN..HEADER_LEN + U16At(response, 2)])
  }

  /** `parse_binding_response`: the walk advances an offset and never leaves the declared body. */
  method ParseBindingResponse(response: Bytes, transaction: Bytes) returns (r: Result<Endpoint, StunError>)
    ensures r == Parse(response, transaction)
  {
    if |response| < HEADER_LEN { return Err(ShortHeader); }
    if U16At(response, 0) != BINDING_SUCCESS { return Err(NotSuccess); }
    var messageLen := U16At(response, 2);
    if |response| < HEADER_LEN + messageLen { return Err(TruncatedBody); }
    if response[4..8] != COOKIE { return Err(BadCookie); }
    if response[8..20] != transaction { return Err(BadTransaction); }
    r := FindAddress(response, HEADER_LEN + messageLen);
  }

  function WalkFrom(response: Bytes, offset: nat, end: nat): Result<Endpoint, StunError>
    requires end <= |response|
  {
    if offset <= end then Walk(response[offset..end]) else Err(MissingAddress)
  }

  /** The attribute loop of `parse_binding_response`. */
  method FindAddress(response: Bytes, end: nat) returns (r: Result<Endpoint, StunError>)
    requires HEADER_LEN <= end <= |response|
    ensures r == Walk(response[HEADER_LEN..end])
  {
    var offset := HEADER_LEN;
    while offset + 4 <= end
      invariant HEADER_LEN <= offset
      invariant Walk(response[HEADER_LEN..end]) == WalkFrom(response, offset, end)
      decreases end - offset
    {
      var kind, len := U16At(response, offset), U16At(response, offset + 2);
      WalkStep(response, offset, end);
      offset := offset + 4;
      if offset + len > end { return Err(TruncatedAttribute); }
      if kind == XOR_MAPPED_ADDRESS {
        return ParseAddress(response[offset..offset + len]);
      }
      offset := offset + Padded(len);
    }
    r := Err(MissingAddress);
  }

  /** One turn of the loop, in absolute offsets. */
  lemma WalkStep(response: Bytes, offset: nat, end: nat)
    requires offset + 4 <= end <= |response|
    ensures var kind, len := U16At(response, offset), U16At(response, offset + 2);
            WalkFrom(response, offset, end) ==
            if offset + 4 + len > end then Err(TruncatedAttribute)
            else if kind == XOR_MAPPED_ADDRESS then ParseAddress(response[offset + 4..offset + 4 + len])
            else WalkFrom(response, offset + 4 + Padded(len), end)
  {
    var rest := response[offset..end];
    var len: nat := U16At(response, offset + 2);
    assert U16At(rest, 0) == U16At(response, offset) && U16At(rest, 2) == len;
    if offset + 4 + len <= end { SliceOfSlice(response, offset, end, 4, 4 + len); }
    if offset + 4 + Padded(len) <= end { SliceOfSlice(response, offset, end, 4 + Padded(len), |rest|); }
  }

  lemma SliceOfSlice(s: Bytes, from: nat, to: nat, a: nat, b: nat)
    requires from <= to <= |s| && a <= b <= to - from
    ensures s[from..to][a..b] == s[from + a..from + b]
    ensures b == to - from ==> s[from..to][a..] == s[from + a..to]
  {
    var inner, outer := s[from..to][a..b], s[from + a..from + b];
    assert |inner| == |outer|;
    forall i | 0 <= i < |inner| ensures inner[i] == outer[i] {
      assert inner[i] == s[from..to][a + i] == s[from + (a + i)];
    }
  }

  // ----- attribute lists -----

  datatype Attribute = Attribute(kind: U16, value: Bytes, padding: Bytes)

  predicate WellFormed(a: Attribute) {
    |a.value| < TWO_16 && |a.value| + |a.padding| == Padded(|a.value|)
  }

  function Bare(kind: U16, value: Bytes): Bytes
    requires |value| < TWO_16
  {
    Two(kind) + Two(|value|) + value
  }

  function EncodeAttribute(a: Attribute): Bytes
    requires WellFormed(a)
  {
    Bare(a.kind, a.value) + a.padding
  }

  function EncodeList(attrs: seq<Attribute>): Bytes
    requires forall a :: a in attrs ==> WellFormed(a)
  {
    if attrs == [] then [] else assert attrs[0] in attrs; EncodeAttribute(attrs[0]) + EncodeList(attrs[1..])
  }

  /** Attributes that the walk steps over. */
  predicate Skippable(attrs: seq<Attribute>) {
    forall a :: a in attrs ==> WellFormed(a) && a.kind != XOR_MAPPED_ADDRESS
  }

  lemma ReadHeader(kind: U16, value: Bytes, after: Bytes)
    requires |value| < TWO_16
    ensures var s := Bare(kind, value) + after;
            && |s| == 4 + |value| + |after|
            && U16At(s, 0) == kind && U16At(s, 2) == |value| && s[4..4 + |value|] == value
  {
    var s := Bare(kind, value) + after;
    assert s[0] == kind / 256 && s[1] == kind % 256 && s[2] == |value| / 256 && s[3] == |value| % 256;
  }

  lemma WalkSkipsOne(a: Attribute, rest: Bytes)
    requires WellFormed(a) && a.kind != XOR_MAPPED_ADDRESS
    ensures Walk(EncodeAttribute(a) + rest) == Walk(rest)
  {
    var s := EncodeAttribute(a) + rest;
    assert s == Bare(a.kind, a.value) + (a.padding + rest);
    ReadHeader(a.kind, a.value, a.padding + rest);
    assert s[4 + Padded(|a.value|)..] == rest;
  }

  /** The walk steps over every attribute that is not the one it looks for. */
  lemma {:induction false} WalkSkips(attrs: seq<Attribute>, rest: Bytes)
    requires Skippable(attrs)
    ensures Walk(EncodeList(attrs) + rest) == Walk(rest)
    decreases |attrs|
  {
    if attrs == [] {
      assert EncodeList(attrs) + rest == rest;
    } else {
      assert attrs[0] in attrs;
      WalkSkips(attrs[1..], rest);
      WalkSkipsOne(attrs[0], EncodeList(attrs[1..]) + rest);
      assert EncodeList(attrs) + rest == EncodeAttribute(attrs[0]) + (EncodeList(attrs[1..]) + rest);
    }
  }

  /** Past any such attributes, the walk returns what the first mapped address says. */
  lemma WalkFinds(attrs: seq<Attribute>, value: Bytes, more: Bytes)
    requires Skippable(attrs) && |value| < TWO_16
    ensures Walk(EncodeList(attrs) + (Bare(XOR_MAPPED_ADDRESS, value) + more)) == ParseAddress(value)
  {
    WalkSkips(attrs, Bare(XOR_MAPPED_ADDRESS, value) + more);
    ReadHeader(XOR_MAPPED_ADDRESS, value, more);
  }

  /** Such attributes, then a mapped address, then anything. */
  ghost predicate Decomposes(rest: Bytes, attrs: seq<Attribute>, value: Bytes, more: Bytes) {
    Skippable(attrs) && |value| < TWO_16 && rest == EncodeList(attrs) + (Bare(XOR_MAPPED_ADDRESS, value) + more)
  }

  lemma TwoAt(s: Bytes, i: nat)
    requires i + 2 <= |s|
    ensures Two(U16At(s, i)) == [s[i], s[i + 1]]
  {
    var a, b := s[i] as int, s[i + 1] as int;
    assert (a * 256 + b) / 256 == a && (a * 256 + b) % 256 == b;
  }

  lemma CutAttribute(s: Bytes, len: nat)
    requires |s| >= 4 && len == U16At(s, 2) && 4 + len <= |s|
    ensures s == Bare(U16At(s, 0), s[4..4 + len]) + s[4 + len..]
  {
    TwoAt(s, 0);
    TwoAt(s, 2);
    assert s == [s[0], s[1]] + [s[2], s[3]] + s[4..4 + len] + s[4 + len..];
  }

  lemma ConsAttribute(a: Attribute, attrs: seq<Attribute>, rest: Bytes, value: Bytes, more: Bytes)
    requires WellFormed(a) && a.kind != XOR_MAPPED_ADDRESS && Decomposes(rest, attrs, value, more)
    ensures Decomposes(EncodeAttribute(a) + rest, [a] + attrs, value, more)
  {
    assert ([a] + attrs)[1..] == attrs;
    var found := Bare(XOR_MAPPED_ADDRESS, value) + more;
    assert EncodeAttribute(a) + (EncodeList(attrs) + found) == (EncodeAttribute(a) + EncodeList(attrs)) + found;
  }

  /** The attribute at the front of `s`, when its padding is there too. */
  function FrontAttribute(s: Bytes): Attribute
    requires |s| >= 4 && 4 + Padded(U16At(s, 2)) <= |s|
  {
    var len := U16At(s, 2);
    Attribute(U16At(s, 0), s[4..4 + len], s[4 + len..4 + Padded(len)])
  }

  lemma FrontAttributeEncodes(s: Bytes)
    requires |s| >= 4 && 4 + Padded(U16At(s, 2)) <= |s|
    ensures WellFormed(FrontAttribute(s)) && s == EncodeAttribute(FrontAttribute(s)) + s[4 + Padded(U16At(s, 2))..]
  {
    var len := U16At(s, 2);
    CutAttribute(s, len);
    assert s[4 + len..] == s[4 + len..4 + Padded(len)] + s[4 + Padded(len)..];
  }

  /** Conversely, a walk that found an address went past such attributes to a mapped address. */
  lemma {:induction false} WalkSound(s: Bytes) returns (attrs: seq<Attribute>, value: Bytes, more: Bytes)
    requires Walk(s).Ok?
    ensures Decomposes(s, attrs, value, more) && ParseAddress(value) == Walk(s)
    decreases |s|
  {
    var len := U16At(s, 2);
    if U16At(s, 0) == XOR_MAPPED_ADDRESS {
      CutAttribute(s, len);
      attrs, value, more := [], s[4..4 + len], s[4 + len..];
      assert [] + (Bare(XOR_MAPPED_ADDRESS, value) + more) == s;
    } else {
      var rest := s[4 + Padded(len)..];
      attrs, value, more := WalkSound(rest);
      FrontAttributeEncodes(s);
      ConsAttribute(FrontAttribute(s), attrs, rest, value, more);
      attrs := [FrontAttribute(s)] + attrs;
    }
  }

  // ----- whole messages -----

  function Response(transaction: Bytes, body: Bytes): Bytes
    requires |body| < TWO_16
  {
    Two(BINDING_SUCCESS) + Two(|body|) + COOKIE + transaction + body
  }

  lemma ResponseFields(transaction: Bytes, body: Bytes, trailing: Bytes)
    requires |body| < TWO_16 && |transaction| == 12
    ensures var s := Response(transaction, body) + trailing;
            && |s| >= HEADER_LEN + |body|
            && s[0] == 1 && s[1] == 1 && s[2] == |body| / 256 && s[3] == |body| % 256
            && s[4..8] == COOKIE && s[8..20] == transaction && s[20..20 + |body|] == body
  {
    var s := Response(transaction, body) + trailing;
    var head := Two(BINDING_SUCCESS) + Two(|body|);
    assert s == head + (COOKIE + (transaction + (body + trailing)));
    assert s[4..] == COOKIE + (transaction + (body + trailing));
    assert s[8..] == transaction + (body + trailing);
    assert s[20..] == body + trailing;
  }

  lemma ResponseParses(transaction: Bytes, body: Bytes, trailing: Bytes)
    requires |body| < TWO_16 && |transaction| == 12
    ensures Parse(Response(transaction, body) + trailing, transaction) == Walk(body)
  {
    ResponseFields(transaction, body, trailing);
    ParseByFields(Response(transaction, body) + trailing, transaction, body);
  }

  lemma ParseByFields(s: Bytes, transaction: Bytes, body: Bytes)
    requires |body| < TWO_16 && |s| >= HEADER_LEN + |body|
    requires s[0] == 1 && s[1] == 1 && s[2] == |body| / 256 && s[3] == |body| % 256
    requires s[4..8] == COOKIE && s[8..20] == transaction && s[20..20 + |body|] == body
    ensures Parse(s, transaction) == Walk(body)
  {
    assert U16At(s, 0) == BINDING_SUCCESS && U16At(s, 2) == |body|;
  }

  /**
    Parsing inverts encoding past any prefix: for every list of other attributes, padded with
    anything, a mapped IPv4 endpoint after them, anything after that in the body and anything
    after the body, the endpoint comes back.
   */
  lemma ParseInvertsEncoding(
    transaction: Bytes, attrs: seq<Attribute>, reserved: Byte, e: Endpoint, extra: Bytes, more: Bytes, trailing: Bytes)
    requires |transaction| == 12 && Skippable(attrs) && |e.ip| == 4 && |MappedValue(reserved, e, extra)| < TWO_16
    requires |EncodeList(attrs) + (Bare(XOR_MAPPED_ADDRESS, MappedValue(reserved, e, extra)) + more)| < TWO_16
    ensures var body := EncodeList(attrs) + (Bare(XOR_MAPPED_ADDRESS, MappedValue(reserved, e, extra)) + more);
            Parse(Response(transaction, body) + trailing, transaction) == Ok(e)
  {
    var value := MappedValue(reserved, e, extra);
    WalkFinds(attrs, value, more);
    MappedRoundTrip(reserved, e, extra);
    ResponseParses(transaction, EncodeList(attrs) + (Bare(XOR_MAPPED_ADDRESS, value) + more), trailing);
  }

  /** Whatever parses had that shape: only the header and the declared body are ever looked at. */
  lemma ParsedHadAddress(response: Bytes, transaction: Bytes) returns (attrs: seq<Attribute>, value: Bytes, more: Bytes)
    requires Parse(response, transaction).Ok?
    ensures Decomposes(response[HEADER_LEN..HEADER_LEN + U16At(response, 2)], attrs, value, more)
    ensures |value| >= 8 && value[1] == 0x01 && Parse(response, transaction) == Ok(EndpointOf(value))
  {
    var body := response[HEADER_LEN..HEADER_LEN + U16At(response, 2)];
    attrs, value, more := WalkSound(body);
  }

  /** Bytes after the declared body are ignored. */
  lemma TrailingIgnored(response: Bytes, transaction: Bytes)
    requires |response| >= HEADER_LEN && |response| >= HEADER_LEN + U16At(response, 2)
    ensures Parse(response, transaction) == Parse(response[..HEADER_LEN + U16At(response, 2)], transaction)
  {
    var n := HEADER_LEN + U16At(response, 2);
    var cut := response[..n];
    assert cut[4..8] == response[4..8] && cut[8..20] == response[8..20];
    assert cut[HEADER_LEN..n] == response[HEADER_LEN..n];
  }

  /** `build_binding_request`: the header of a request with an empty body. */
  function BindingRequest(transaction: Bytes): Bytes {
    Two(BINDING_REQUEST) + Two(0) + COOKIE + transaction
  }

  /** A request is never taken for a response, not even to itself. */
  lemma RequestIsNoResponse(transaction: Bytes)
    requires |transaction| == 12
    ensures |BindingRequest(transaction)| == HEADER_LEN
    ensures Parse(BindingRequest(transaction), transaction) == Err(NotSuccess)
  {
    assert BindingRequest(transaction)[1] == 1 && BindingRequest(transaction)[0] == 0;
  }

  /** The fixed bytes of a request: type 0x0001, no body, the magic cookie, then the transaction id. */
  lemma RequestLayout(transaction: Bytes)
    ensures BindingRequest(transaction) == [0x00, 0x01, 0x00, 0x00, 0x21, 0x12, 0xA4, 0x42] + transaction
  {
    assert Two(1) + Two(0) + COOKIE == [0x00, 0x01, 0x00, 0x00, 0x21, 0x12, 0xA4, 0x42];
  }

  /** The fixed bytes of a success response with a mapped IPv4 address first in its body. */
  lemma ResponseLayout(transaction: Bytes, value: Bytes)
    requires |value| < 0x100
    ensures Response(transaction, Bare(XOR_MAPPED_ADDRESS, value)) ==
            [0x01, 0x01, (4 + |value|) / 256, (4 + |value|) % 256, 0x21, 0x12, 0xA4, 0x42] + transaction
            + ([0x00, 0x20, 0x00, |value|] + value)
  {
    var n := 4 + |value|;
    assert Two(BINDING_SUCCESS) + Two(n) + COOKIE == [0x01, 0x01, n / 256, n % 256, 0x21, 0x12, 0xA4, 0x42];
    assert Two(XOR_MAPPED_ADDRESS) + Two(|value|) == [0x00, 0x20, 0x00, |value|];
  }
}
