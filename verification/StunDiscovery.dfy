// The attribute walk over a STUN binding response (stun.cpp), after sections 15, 15.1
// and 15.2 of RFC 5389.
module StunDiscovery {
  import opened Wrappers
  import opened Bytes

  const HEADER_SIZE: nat := 20
  const BINDING_RESPONSE: u16 := 0x0101
  const MAPPED_ADDRESS: u16 := 0x0001
  const XOR_MAPPED_ADDRESS: u16 := 0x0020
  const IPV4: Byte := 0x01

  // The magic cookie, and its upper half, as on the wire.
  const COOKIE: seq<Byte> := [0x21, 0x12, 0xA4, 0x42]

  // An IPv4 address as its four bytes, and a port.
  datatype Address = Address(ip: seq<Byte>, port: u16)

  datatype Attribute = Attribute(kind: u16, value: seq<Byte>)

  // ----- fields of two and four bytes

  // ntohs of the two bytes at i.
  function Short(bytes: seq<Byte>, i: nat): u16
    requires i + 2 <= |bytes|
  {
    IndexRange(bytes[i]);
    IndexRange(bytes[i + 1]);
    256 * Index(bytes[i]) + Index(bytes[i + 1])
  }

  function XorBytes(a: seq<Byte>, b: seq<Byte>): (x: seq<Byte>)
    requires |a| == |b|
    ensures |x| == |a| && forall i :: 0 <= i < |x| ==> x[i] == Add(a[i], b[i])
  {
    seq(|a|, i requires 0 <= i < |a| => Add(a[i], b[i]))
  }

  // ----- what an attribute says

  // The port is XORed with the fixed cookie, the address with the cookie of the response.
  function XorMapped(value: seq<Byte>, cookie: seq<Byte>): Option<Address>
    requires |cookie| == 4
  {
    if |value| < 8 || value[1] != IPV4 then None
    else Some(Address(XorBytes(value[4..8], cookie), Short(XorBytes(value[2..4], COOKIE[..2]), 0)))
  }

  function Mapped(value: seq<Byte>): Option<Address> {
    if |value| < 8 || value[1] != IPV4 then None
    else Some(Address(value[4..8], Short(value, 2)))
  }

  function AddressIn(a: Attribute, cookie: seq<Byte>): Option<Address>
    requires |cookie| == 4
  {
    if a.kind == XOR_MAPPED_ADDRESS then XorMapped(a.value, cookie)
    else if a.kind == MAPPED_ADDRESS then Mapped(a.value)
    else None
  }

  function FirstAddress(attributes: seq<Attribute>, cookie: seq<Byte>): Option<Address>
    requires |cookie| == 4
  {
    if attributes == [] then None
    else if AddressIn(attributes[0], cookie).Some? then AddressIn(attributes[0], cookie)
    else FirstAddress(attributes[1..], cookie)
  }

  // ----- reading attributes from bytes

  // Attributes are aligned to four bytes.
  function Padding(n: nat): nat { if n % 4 == 0 then 0 else 4 - n % 4 }

  // The attributes that are there completely, padding aside, up to the first that is not.
  function Parse(bytes: seq<Byte>): seq<Attribute>
    decreases |bytes|
  {
    if |bytes| < 4 then []
    else
      var n := Short(bytes, 2);
      if 4 + n > |bytes| then []
      else
        var next := 4 + n + Padding(n);
        [Attribute(Short(bytes, 0), bytes[4..4 + n])] + Parse(if next <= |bytes| then bytes[next..] else [])
  }

  function Minimum(a: nat, b: nat): nat { if a <= b then a else b }

  // The address a response gives to the request with this transaction id.
  function Answer(response: seq<Byte>, transaction: seq<Byte>): Option<Address> {
    if |response| < HEADER_SIZE || Short(response, 0) != BINDING_RESPONSE || response[8..20] != transaction then None
    else
      var end := Minimum(HEADER_SIZE + Short(response, 2), |response|);
      FirstAddress(Parse(response[HEADER_SIZE..end]), response[4..8])
  }

  method ParseXorMappedAddress(value: seq<Byte>, cookie: seq<Byte>) returns (result: Option<Address>)
    requires |cookie| == 4
    ensures result == XorMapped(value, cookie)
  {
    if |value| < 8 { return None; }
    if value[1] != IPV4 { return None; }
    var port := [Add(value[2], 0x21), Add(value[3], 0x12)];
    var ip := [];
    for i := 0 to 4
      invariant |ip| == i && forall j :: 0 <= j < i ==> ip[j] == Add(value[4 + j], cookie[j])
    {
      ip := ip + [Add(value[4 + i], cookie[i])];
    }
    assert ip == XorBytes(value[4..8], cookie);
    assert port == XorBytes(value[2..4], COOKIE[..2]);
    return Some(Address(ip, Short(port, 0)));
  }

  method ParseMappedAddress(value: seq<Byte>) returns (result: Option<Address>)
    ensures result == Mapped(value)
  {
    if |value| < 8 { return None; }
    if value[1] != IPV4 { return None; }
    return Some(Address(value[4..8], Short(value, 2)));
  }

  // What follows offset, up to end.
  function Rest(bytes: seq<Byte>, offset: nat, end: nat): seq<Byte>
    requires end <= |bytes|
  {
    if offset <= end then bytes[offset..end] else []
  }

  lemma {:induction false} SliceOfSlice(bytes: seq<Byte>, a: nat, b: nat, i: nat, j: nat)
    requires a <= b <= |bytes| && i <= j <= b - a
    ensures bytes[a..b][i..j] == bytes[a + i..a + j]
    ensures j == b - a ==> bytes[a..b][i..] == bytes[a + i..b]
  {
    var x, y := bytes[a..b][i..j], bytes[a + i..a + j];
    assert forall k :: 0 <= k < |x| ==> x[k] == bytes[a + i + k] == y[k];
    assert x == y;
  }

  lemma {:induction false} ShortOfSlice(bytes: seq<Byte>, a: nat, b: nat, i: nat)
    requires a + i + 2 <= b <= |bytes|
    ensures Short(bytes[a..b], i) == Short(bytes, a + i)
  {}

  lemma {:induction false} ParseStep(bytes: seq<Byte>, offset: nat, end: nat)
    requires offset + 4 <= end <= |bytes|
    ensures var n := Short(bytes, offset + 2);
      && (offset + 4 + n > end ==> Parse(Rest(bytes, offset, end)) == [])
      && (offset + 4 + n <= end ==>
          var a := Attribute(Short(bytes, offset), bytes[offset + 4..offset + 4 + n]);
          Parse(Rest(bytes, offset, end)) == [a] + Parse(Rest(bytes, offset + 4 + n + Padding(n), end)))
  {
    hide Padding, Short;
    var rest := bytes[offset..end];
    var n := Short(bytes, offset + 2);
    ShortOfSlice(bytes, offset, end, 0);
    ShortOfSlice(bytes, offset, end, 2);
    if offset + 4 + n <= end {
      var next := 4 + n + Padding(n);
      SliceOfSlice(bytes, offset, end, 4, 4 + n);
      if next <= |rest| {
        SliceOfSlice(bytes, offset, end, next, |rest|);
      } else {
        assert Rest(bytes, offset + next, end) == [];
      }
    }
  }

  lemma {:induction false} NothingToParse(bytes: seq<Byte>)
    requires |bytes| < 4
    ensures Parse(bytes) == []
  {}

  lemma {:induction false} FirstAddressStep(a: Attribute, rest: seq<Attribute>, cookie: seq<Byte>)
    requires |cookie| == 4
    ensures FirstAddress([a] + rest, cookie) ==
      if AddressIn(a, cookie).Some? then AddressIn(a, cookie) else FirstAddress(rest, cookie)
  {
    assert ([a] + rest)[1..] == rest;
  }

  // A field of the bytes received.
  function ShortAt(buf: array<Byte>, received: nat, i: nat): (n: u16)
    requires i + 2 <= received <= buf.Length
    reads buf
    ensures n == Short(buf[..received], i)
  {
    Short(buf[i..i + 2], 0)
  }

  // The walk reads the buffer up to end and no further.
  method WalkAttributes(buf: array<Byte>, end: nat, cookie: seq<Byte>) returns (result: Option<Address>)
    requires HEADER_SIZE <= end <= buf.Length && |cookie| == 4
    ensures result == FirstAddress(Parse(buf[HEADER_SIZE..end]), cookie)
  {
    hide Parse, Short, XorMapped, Mapped, Padding, FirstAddress;
    ghost var bytes := buf[..end];
    var offset := HEADER_SIZE;
    SliceOfSlice(buf[..], 0, end, HEADER_SIZE, end);
    while offset + 4 <= end
      invariant HEADER_SIZE <= offset
      invariant FirstAddress(Parse(buf[HEADER_SIZE..end]), cookie)
        == FirstAddress(Parse(Rest(bytes, offset, end)), cookie)
      decreases end + 4 - offset
    {
      ParseStep(bytes, offset, end);
      var kind := ShortAt(buf, end, offset);
      var n := ShortAt(buf, end, offset + 2);
      offset := offset + 4;
      if offset + n > end {
        NoAddress(cookie);
        return None;
      }
      var value := buf[offset..offset + n];
      assert value == bytes[offset..offset + n];
      FirstAddressStep(Attribute(kind, value), Parse(Rest(bytes, offset + n + Padding(n), end)), cookie);
      if kind == XOR_MAPPED_ADDRESS {
        var address := ParseXorMappedAddress(value, cookie);
        if address.Some? { return address; }
      } else if kind == MAPPED_ADDRESS {
        var address := ParseMappedAddress(value);
        if address.Some? { return address; }
      }
      AlignedAfter(n);
      offset := offset + n;
      if n % 4 != 0 { offset := offset + (4 - n % 4); }
    }
    NothingToParse(Rest(bytes, offset, end));
    NoAddress(cookie);
    return None;
  }

  lemma {:induction false} AlignedAfter(n: nat)
    ensures Padding(n) == if n % 4 != 0 then 4 - n % 4 else 0
  {}

  lemma {:induction false} NoAddress(cookie: seq<Byte>)
    requires |cookie| == 4
    ensures FirstAddress([], cookie) == None
  {}

  // The buffer holds the received bytes at its front; nothing behind them matters.
  method ReadResponse(buf: array<Byte>, received: nat, transaction: seq<Byte>) returns (result: Option<Address>)
    requires received <= buf.Length
    ensures result == Answer(buf[..received], transaction)
  {
    hide Parse, Short, FirstAddress;
    ghost var response := buf[..received];
    if received < HEADER_SIZE { return None; }
    if ShortAt(buf, received, 0) != BINDING_RESPONSE { return None; }
    SliceOfSlice(buf[..], 0, received, 8, 20);
    if buf[8..20] != transaction { return None; }
    var end := HEADER_SIZE + ShortAt(buf, received, 2);
    if end > received { end := received; }
    SliceOfSlice(buf[..], 0, received, 4, 8);
    SliceOfSlice(buf[..], 0, received, HEADER_SIZE, end);
    result := WalkAttributes(buf, end, buf[4..8]);
  }
}
