// Responses as a STUN server writes them, and what the client reads from them.
module StunResponses {
  import opened Wrappers
  import opened Bytes
  import opened StunDiscovery

  // An attribute with the bytes, whatever they are, that align the next one.
  datatype Padded = Padded(attribute: Attribute, filler: seq<Byte>)

  predicate WellFormed(p: Padded) {
    |p.attribute.value| < 0x1_0000 && |p.filler| == Padding(|p.attribute.value|)
  }

  predicate AllWellFormed(list: seq<Padded>) {
    forall i :: 0 <= i < |list| ==> WellFormed(list[i])
  }

  // htons
  function Pack(n: u16): (bytes: seq<Byte>)
    ensures |bytes| == 2
  {
    [OfNat(n / 256), OfNat(n % 256)]
  }

  function Encode(p: Padded): seq<Byte>
    requires WellFormed(p)
  {
    Pack(p.attribute.kind) + Pack(|p.attribute.value|) + p.attribute.value + p.filler
  }

  function EncodeAll(list: seq<Padded>): seq<Byte>
    requires AllWellFormed(list)
  {
    if list == [] then [] else Encode(list[0]) + EncodeAll(list[1..])
  }

  function Attributes(list: seq<Padded>): (a: seq<Attribute>)
    ensures |a| == |list| && forall i :: 0 <= i < |a| ==> a[i] == list[i].attribute
  {
    seq(|list|, i requires 0 <= i < |list| => list[i].attribute)
  }

  // How many attributes fit in n bytes, the last one's filler aside.
  function Fitting(list: seq<Padded>, n: nat): (k: nat)
    requires AllWellFormed(list)
    ensures k <= |list|
  {
    if list == [] || 4 + |list[0].attribute.value| > n then 0
    else
      var size := |Encode(list[0])|;
      1 + Fitting(list[1..], if size <= n then n - size else 0)
  }

  lemma {:induction false} UnpackShort(n: u16, before: seq<Byte>, after: seq<Byte>)
    ensures Short(before + Pack(n) + after, |before|) == n
  {
    hide Index, OfNat;
    IndexOfNat(n / 256);
    IndexOfNat(n % 256);
    var all := before + Pack(n) + after;
    assert all[|before|] == OfNat(n / 256) && all[|before| + 1] == OfNat(n % 256);
  }

  // Reading one whole attribute from the front of n bytes.
  lemma {:induction false} ParseFirst(p: Padded, rest: seq<Byte>, n: nat)
    requires WellFormed(p) && n <= |Encode(p) + rest|
    ensures var size := |Encode(p)|;
      Parse((Encode(p) + rest)[..n]) ==
        (if 4 + |p.attribute.value| > n then []
         else [p.attribute] + Parse(if size <= n then rest[..n - size] else []))
  {
    hide Pack, Short, Padding;
    var value := p.attribute.value;
    var all := Encode(p) + rest;
    var bytes := all[..n];
    if n >= 4 {
      FieldsOf(p, rest, n);
      if 4 + |value| <= n && |Encode(p)| <= n {
        assert bytes[|Encode(p)|..] == rest[..n - |Encode(p)|];
      }
    }
  }

  lemma {:induction false} FieldsOf(p: Padded, rest: seq<Byte>, n: nat)
    requires WellFormed(p) && 4 <= n <= |Encode(p) + rest|
    ensures var bytes := (Encode(p) + rest)[..n];
      && Short(bytes, 0) == p.attribute.kind && Short(bytes, 2) == |p.attribute.value|
      && (4 + |p.attribute.value| <= n ==> bytes[4..4 + |p.attribute.value|] == p.attribute.value)
  {
    hide Pack, Short, Padding;
    var kind, size, value := Pack(p.attribute.kind), Pack(|p.attribute.value|), p.attribute.value;
    var all := Encode(p) + rest;
    var tail := value + p.filler + rest;
    assert all == [] + kind + (size + tail);
    UnpackShort(p.attribute.kind, [], size + tail);
    assert all == kind + size + tail;
    UnpackShort(|value|, kind, tail);
    ShortOfSlice(all, 0, n, 0);
    ShortOfSlice(all, 0, n, 2);
  }

  lemma {:induction false} AttributesCons(list: seq<Padded>, k: nat)
    requires k < |list|
    ensures Attributes(list[..k + 1]) == [list[0].attribute] + Attributes(list[1..][..k])
  {}

  // The walk reads exactly the attributes whose values have arrived.
  lemma {:induction false} ParseReadsBack(list: seq<Padded>, n: nat)
    requires AllWellFormed(list) && n <= |EncodeAll(list)|
    ensures Parse(EncodeAll(list)[..n]) == Attributes(list[..Fitting(list, n)])
    decreases |list|
  {
    hide Encode, Parse, WellFormed, Padding;
    if list == [] {
      NothingToParse([]);
    } else {
      var p, rest := list[0], EncodeAll(list[1..]);
      var size := |Encode(p)|;
      ParseFirst(p, rest, n);
      if 4 + |p.attribute.value| <= n {
        var left := if size <= n then n - size else 0;
        ParseReadsBack(list[1..], left);
        NothingToParse([]);
        AttributesCons(list, Fitting(list[1..], left));
        assert left == 0 ==> rest[..left] == [];
      }
    }
  }

  lemma {:induction false} AllFit(list: seq<Padded>)
    requires AllWellFormed(list)
    ensures Fitting(list, |EncodeAll(list)|) == |list|
  {
    if list != [] { AllFit(list[1..]); }
  }

  // ----- whole responses

  function Response(list: seq<Padded>, cookie: seq<Byte>, transaction: seq<Byte>): seq<Byte>
    requires AllWellFormed(list) && |EncodeAll(list)| < 0x1_0000
  {
    Pack(BINDING_RESPONSE) + Pack(|EncodeAll(list)|) + cookie + transaction + EncodeAll(list)
  }

  // A response followed by anything and cut to the received bytes gives the first address among
  // the attributes that arrived; cut within its header or meant for another request, it gives none.
  lemma {:induction false} ResponseIsRead(list: seq<Padded>, cookie: seq<Byte>, transaction: seq<Byte>,
                                          extra: seq<Byte>, received: nat, request: seq<Byte>)
    requires AllWellFormed(list) && |EncodeAll(list)| < 0x1_0000
    requires |cookie| == 4 && |transaction| == 12 && received <= |Response(list, cookie, transaction) + extra|
    ensures Answer((Response(list, cookie, transaction) + extra)[..received], request) ==
      if received < HEADER_SIZE || transaction != request then None
      else FirstAddress(Attributes(list[..Fitting(list, Minimum(|EncodeAll(list)|, received - HEADER_SIZE))]), cookie)
  {
    hide Short, Pack, Parse, EncodeAll, FirstAddress, Response;
    if received >= HEADER_SIZE {
      var body := EncodeAll(list);
      var bytes := (Response(list, cookie, transaction) + extra)[..received];
      var n := Minimum(|body|, received - HEADER_SIZE);
      HeaderFields(list, cookie, transaction, extra, received);
      BodyOfResponse(list, cookie, transaction, extra, received);
      assert Minimum(HEADER_SIZE + |body|, received) == HEADER_SIZE + n;
      ParseReadsBack(list, n);
    }
  }

  lemma {:induction false} BodyOfResponse(list: seq<Padded>, cookie: seq<Byte>, transaction: seq<Byte>,
                                          extra: seq<Byte>, received: nat)
    requires AllWellFormed(list) && |EncodeAll(list)| < 0x1_0000
    requires |cookie| == 4 && |transaction| == 12
    requires HEADER_SIZE <= received <= |Response(list, cookie, transaction) + extra|
    ensures var n := Minimum(|EncodeAll(list)|, received - HEADER_SIZE);
      (Response(list, cookie, transaction) + extra)[..received][HEADER_SIZE..HEADER_SIZE + n] == EncodeAll(list)[..n]
  {
    hide Pack, EncodeAll;
    var all := Response(list, cookie, transaction) + extra;
    var n := Minimum(|EncodeAll(list)|, received - HEADER_SIZE);
    SliceOfSlice(all, 0, received, HEADER_SIZE, HEADER_SIZE + n);
    assert all == (Pack(BINDING_RESPONSE) + Pack(|EncodeAll(list)|) + cookie + transaction) + (EncodeAll(list) + extra);
    assert all[HEADER_SIZE..HEADER_SIZE + n] == EncodeAll(list)[..n];
  }

  lemma {:induction false} HeaderFields(list: seq<Padded>, cookie: seq<Byte>, transaction: seq<Byte>,
                                        extra: seq<Byte>, received: nat)
    requires AllWellFormed(list) && |EncodeAll(list)| < 0x1_0000
    requires |cookie| == 4 && |transaction| == 12
    requires HEADER_SIZE <= received <= |Response(list, cookie, transaction) + extra|
    ensures var bytes := (Response(list, cookie, transaction) + extra)[..received];
      && Short(bytes, 0) == BINDING_RESPONSE && Short(bytes, 2) == |EncodeAll(list)|
      && bytes[4..8] == cookie && bytes[8..20] == transaction
  {
    hide Short, Pack, EncodeAll;
    var all := Response(list, cookie, transaction) + extra;
    var kind, size := Pack(BINDING_RESPONSE), Pack(|EncodeAll(list)|);
    var tail := cookie + transaction + EncodeAll(list) + extra;
    assert all == [] + kind + (size + tail);
    UnpackShort(BINDING_RESPONSE, [], size + tail);
    assert all == kind + size + tail;
    UnpackShort(|EncodeAll(list)|, kind, tail);
    ShortOfSlice(all, 0, received, 0);
    ShortOfSlice(all, 0, received, 2);
  }

  // The first attribute that gives an address decides, whatever comes before and after it.
  lemma {:induction false} FirstUsable(attributes: seq<Attribute>, cookie: seq<Byte>, i: nat)
    requires |cookie| == 4 && i < |attributes| && AddressIn(attributes[i], cookie).Some?
    requires forall j :: 0 <= j < i ==> AddressIn(attributes[j], cookie).None?
    ensures FirstAddress(attributes, cookie) == AddressIn(attributes[i], cookie)
  {
    if i > 0 { FirstUsable(attributes[1..], cookie, i - 1); }
  }

  lemma {:induction false} NoneUsable(attributes: seq<Attribute>, cookie: seq<Byte>)
    requires |cookie| == 4 && forall j :: 0 <= j < |attributes| ==> AddressIn(attributes[j], cookie).None?
    ensures FirstAddress(attributes, cookie) == None
  {
    if attributes != [] { NoneUsable(attributes[1..], cookie); }
  }

  // ----- the values a server writes

  function MappedValue(a: Address, reserved: Byte, more: seq<Byte>): seq<Byte> {
    [reserved, IPV4] + Pack(a.port) + a.ip + more
  }

  function XorMappedValue(a: Address, reserved: Byte, more: seq<Byte>): seq<Byte>
    requires |a.ip| == 4
  {
    [reserved, IPV4] + XorBytes(Pack(a.port), COOKIE[..2]) + XorBytes(a.ip, COOKIE) + more
  }

  lemma {:induction false} MappedRoundTrip(a: Address, reserved: Byte, more: seq<Byte>)
    requires |a.ip| == 4
    ensures Mapped(MappedValue(a, reserved, more)) == Some(a)
  {
    hide Pack, Short;
    var value := MappedValue(a, reserved, more);
    assert value == [reserved, IPV4] + Pack(a.port) + (a.ip + more);
    UnpackShort(a.port, [reserved, IPV4], a.ip + more);
    assert value[4..8] == a.ip;
  }

  lemma {:induction false} XorTwice(a: seq<Byte>, b: seq<Byte>)
    requires |a| == |b|
    ensures XorBytes(XorBytes(a, b), b) == a
  {
    hide Add;
    forall i | 0 <= i < |a| ensures Add(Add(a[i], b[i]), b[i]) == a[i] {
      AddCommutes(a[i], b[i]);
      AddCommutes(Add(b[i], a[i]), b[i]);
      AddCancels(b[i], a[i]);
    }
  }

  lemma {:induction false} XorTwiceIff(a: seq<Byte>, b: seq<Byte>, c: seq<Byte>)
    requires |a| == |b| == |c|
    ensures XorBytes(XorBytes(a, b), c) == a <==> b == c
  {
    hide Add;
    XorTwice(a, b);
    if XorBytes(XorBytes(a, b), c) == a {
      forall i | 0 <= i < |a| ensures b[i] == c[i] {
        assert Add(Add(a[i], b[i]), c[i]) == a[i];
        AddAssociates(a[i], b[i], c[i]);
        AddCancels(a[i], Add(b[i], c[i]));
        AddSelf(a[i]);
        AddIsZero(b[i], c[i]);
      }
    }
  }

  // The port comes back always, the address exactly when the response carries the standard cookie.
  lemma {:induction false} XorRoundTrip(a: Address, reserved: Byte, more: seq<Byte>, cookie: seq<Byte>)
    requires |a.ip| == 4 && |cookie| == 4
    ensures var read := XorMapped(XorMappedValue(a, reserved, more), cookie);
      read.Some? && read.value.port == a.port && (read == Some(a) <==> cookie == COOKIE)
  {
    hide Pack, Short, XorBytes;
    var port, ip := XorBytes(Pack(a.port), COOKIE[..2]), XorBytes(a.ip, COOKIE);
    var value := XorMappedValue(a, reserved, more);
    assert value[2..4] == port && value[4..8] == ip;
    XorTwice(Pack(a.port), COOKIE[..2]);
    UnpackShort(a.port, [], []);
    assert [] + Pack(a.port) + [] == Pack(a.port);
    XorTwiceIff(a.ip, COOKIE, cookie);
  }

  // From server to client: whatever attributes give no address come before it, and whatever
  // come after, the mapped address the server wrote is the one the client reads.
  lemma {:induction false} AddressArrives(list: seq<Padded>, transaction: seq<Byte>, extra: seq<Byte>, received: nat,
                                          i: nat, a: Address, reserved: Byte, more: seq<Byte>)
    requires AllWellFormed(list) && |EncodeAll(list)| < 0x1_0000 && |transaction| == 12 && |a.ip| == 4
    requires HEADER_SIZE + |EncodeAll(list)| <= received <= |Response(list, COOKIE, transaction) + extra|
    requires i < |list| && (list[i].attribute == Attribute(XOR_MAPPED_ADDRESS, XorMappedValue(a, reserved, more))
                            || list[i].attribute == Attribute(MAPPED_ADDRESS, MappedValue(a, reserved, more)))
    requires forall j :: 0 <= j < i ==> AddressIn(list[j].attribute, COOKIE).None?
    ensures Answer((Response(list, COOKIE, transaction) + extra)[..received], transaction) == Some(a)
  {
    hide Response, Answer, EncodeAll, Fitting, WellFormed, XorMappedValue, MappedValue, XorMapped, Mapped;
    ResponseIsRead(list, COOKIE, transaction, extra, received, transaction);
    AllFit(list);
    assert list[..|list|] == list;
    XorRoundTrip(a, reserved, more, COOKIE);
    MappedRoundTrip(a, reserved, more);
    FirstUsable(Attributes(list), COOKIE, i);
  }

  // ----- responses byte by byte

  lemma {:induction false} TwoDigits(high: nat, low: nat)
    requires low < 256
    ensures (256 * high + low) / 256 == high && (256 * high + low) % 256 == low
  {}

  lemma {:induction false} PackedBytes(n: u16, high: Byte, low: Byte)
    requires n == 256 * Index(high) + Index(low)
    ensures Pack(n) == [high, low]
  {
    hide OfNat, Index;
    IndexRange(high);
    IndexRange(low);
    TwoDigits(Index(high), Index(low));
    ByteOfIndex(high);
    ByteOfIndex(low);
  }

  lemma {:induction false} ByteOfIndex(b: Byte)
    ensures OfNat(Index(b)) == b
  {
    hide OfNat, Index;
    IndexRange(b);
    IndexOfNat(Index(b));
    IndexInjective(OfNat(Index(b)), b);
  }

  lemma {:induction false} PackedNumbers()
    ensures Pack(0x0101) == [0x01, 0x01] && Pack(0x0001) == [0x00, 0x01] && Pack(0x0020) == [0x00, 0x20]
    ensures Pack(0x8022) == [0x80, 0x22] && Pack(8) == [0x00, 0x08] && Pack(12) == [0x00, 0x0C]
  {
    PackedBytes(0x0101, 0x01, 0x01);
    PackedBytes(0x0001, 0x00, 0x01);
    PackedBytes(0x0020, 0x00, 0x20);
    PackedBytes(0x8022, 0x80, 0x22);
    PackedBytes(8, 0x00, 0x08);
    PackedBytes(12, 0x00, 0x0C);
  }

  // The two bytes of a port, high byte first.
  function PortBytes(port: u16): (bytes: seq<Byte>)
    ensures |bytes| == 2 && port == 256 * Index(bytes[0]) + Index(bytes[1])
  {
    PackedPort(port);
    Pack(port)
  }

  lemma {:induction false} PackedPort(port: u16)
    ensures port == 256 * Index(Pack(port)[0]) + Index(Pack(port)[1])
  {
    hide Index, OfNat;
    IndexOfNat(port / 256);
    IndexOfNat(port % 256);
  }

  // A mapped address as an attribute, byte by byte: XORed under type 0x0020, plain under type 0x0001.
  function AddressBytes(a: Address, xor: bool): seq<Byte>
    requires |a.ip| == 4
  {
    var p := PortBytes(a.port);
    if xor then
      [0x00, 0x20] + [0x00, 0x08] + [0x00, 0x01] + [p[0] ^ 0x21, p[1] ^ 0x12]
        + [a.ip[0] ^ 0x21, a.ip[1] ^ 0x12, a.ip[2] ^ 0xA4, a.ip[3] ^ 0x42]
    else
      [0x00, 0x01] + [0x00, 0x08] + [0x00, 0x01] + p + a.ip
  }

  function AddressAttribute(a: Address, xor: bool): (p: Padded)
    requires |a.ip| == 4
    ensures WellFormed(p)
  {
    Padded(if xor then Attribute(XOR_MAPPED_ADDRESS, XorMappedValue(a, 0, []))
           else Attribute(MAPPED_ADDRESS, MappedValue(a, 0, [])), [])
  }

  lemma {:induction false} XorPort(p: seq<Byte>)
    requires |p| == 2
    ensures XorBytes(p, COOKIE[..2]) == [p[0] ^ 0x21, p[1] ^ 0x12]
  {}

  lemma {:induction false} XorIp(ip: seq<Byte>)
    requires |ip| == 4
    ensures XorBytes(ip, COOKIE) == [ip[0] ^ 0x21, ip[1] ^ 0x12, ip[2] ^ 0xA4, ip[3] ^ 0x42]
  {}

  lemma {:induction false} Joined(kind: seq<Byte>, size: seq<Byte>, family: seq<Byte>, port: seq<Byte>, ip: seq<Byte>)
    ensures kind + size + (family + port + ip + []) + [] == kind + size + family + port + ip
  {}

  lemma {:induction false} AttributeBytes(a: Address, xor: bool)
    requires |a.ip| == 4
    ensures WellFormed(AddressAttribute(a, xor)) && Encode(AddressAttribute(a, xor)) == AddressBytes(a, xor)
  {
    PackedNumbers();
    XorPort(Pack(a.port));
    XorIp(a.ip);
    assert |AddressAttribute(a, xor).attribute.value| == 8;
    hide Pack, OfNat, Index, XorBytes;
    if xor {
      Joined([0x00, 0x20], [0x00, 0x08], [0x00, 0x01], XorBytes(Pack(a.port), COOKIE[..2]), XorBytes(a.ip, COOKIE));
    } else {
      Joined([0x00, 0x01], [0x00, 0x08], [0x00, 0x01], Pack(a.port), a.ip);
    }
  }

  // A mapped address behind attributes that give none.
  lemma {:induction false} AddressBehind(list: seq<Padded>, a: Address, xor: bool, transaction: seq<Byte>)
    requires AllWellFormed(list) && |a.ip| == 4 && |transaction| == 12
    requires forall j :: 0 <= j < |list| ==> AddressIn(list[j].attribute, COOKIE).None?
    requires |EncodeAll(list + [AddressAttribute(a, xor)])| < 0x1_0000
    ensures Answer(Response(list + [AddressAttribute(a, xor)], COOKIE, transaction), transaction) == Some(a)
  {
    hide Answer, WellFormed, Encode, EncodeAll, AddressIn, AddressBytes;
    var all := list + [AddressAttribute(a, xor)];
    ResponseSize(all, transaction);
    hide Response;
    var response := Response(all, COOKIE, transaction);
    assert (response + [])[..|response|] == response;
    AddressArrives(all, transaction, [], |response|, |list|, a, 0, []);
  }

  lemma {:induction false} ResponseSize(list: seq<Padded>, transaction: seq<Byte>)
    requires AllWellFormed(list) && |EncodeAll(list)| < 0x1_0000 && |transaction| == 12
    ensures |Response(list, COOKIE, transaction)| == HEADER_SIZE + |EncodeAll(list)|
  {
    hide EncodeAll;
  }

  // A response with the standard cookie and a mapped address, as it stands on the wire, is understood.
  lemma {:induction false} ResponseBytes(a: Address, xor: bool, transaction: seq<Byte>)
    requires |a.ip| == 4 && |transaction| == 12
    ensures var header := [0x01, 0x01, 0x00, 0x0C, 0x21, 0x12, 0xA4, 0x42];
      Answer(header + transaction + AddressBytes(a, xor), transaction) == Some(a)
  {
    var second := AddressAttribute(a, xor);
    AttributeBytes(a, xor);
    AddressSize(a, xor);
    OneAttributeResponse(second, transaction);
    hide Answer, Encode, EncodeAll, AddressBytes, WellFormed, Response, AddressAttribute;
    assert [] + [second] == [second];
    AddressBehind([], a, xor, transaction);
  }

  lemma {:induction false} OneAttributeResponse(p: Padded, transaction: seq<Byte>)
    requires WellFormed(p) && |Encode(p)| == 12
    ensures EncodeAll([p]) == Encode(p)
    ensures var header := [0x01, 0x01, 0x00, 0x0C, 0x21, 0x12, 0xA4, 0x42];
      Response([p], COOKIE, transaction) == header + transaction + Encode(p)
  {
    PackedNumbers();
    assert EncodeAll([p]) == Encode(p) + EncodeAll([]) == Encode(p);
    hide Pack, Encode, EncodeAll;
  }

  lemma {:induction false} AddressSize(a: Address, xor: bool)
    requires |a.ip| == 4
    ensures |AddressBytes(a, xor)| == 12
  {}

  // So is one that names the server's software first, in any number of bytes, aligned to four.
  lemma {:induction false} SoftwareFirst(a: Address, xor: bool, transaction: seq<Byte>, name: seq<Byte>,
                                         filler: seq<Byte>)
    requires |a.ip| == 4 && |transaction| == 12 && |name| < 0x1_0000 - 20
    requires |filler| < 4 && (|name| + |filler|) % 4 == 0
    ensures var length, size := PortBytes(|name| + |filler| + 16), PortBytes(|name|);
      var header := [0x01, 0x01] + length + [0x21, 0x12, 0xA4, 0x42];
      var software := [0x80, 0x22] + size + name + filler;
      Answer(header + transaction + software + AddressBytes(a, xor), transaction) == Some(a)
  {
    var first := Padded(Attribute(0x8022, name), filler);
    SoftwareBytes(name, filler);
    NoAddressInSoftware(name);
    AddressSize(a, xor);
    assert |Encode(first) + AddressBytes(a, xor)| == |name| + |filler| + 16;
    hide *;
    BehindFirst(first, a, xor, transaction, PortBytes(|name| + |filler| + 16));
  }

  lemma {:induction false} BehindFirst(first: Padded, a: Address, xor: bool, transaction: seq<Byte>, length: seq<Byte>)
    requires WellFormed(first) && |a.ip| == 4 && |transaction| == 12 && AddressIn(first.attribute, COOKIE).None?
    requires |Encode(first) + AddressBytes(a, xor)| < 0x1_0000
    requires length == PortBytes(|Encode(first) + AddressBytes(a, xor)|)
    ensures var header := [0x01, 0x01] + length + [0x21, 0x12, 0xA4, 0x42];
      Answer(header + transaction + Encode(first) + AddressBytes(a, xor), transaction) == Some(a)
  {
    var second := AddressAttribute(a, xor);
    AttributeBytes(a, xor);
    hide Answer, AddressBytes, AddressIn, Encode, EncodeAll, WellFormed, PortBytes, Pack, Response, AddressAttribute;
    TwoAttributeResponse(first, second, transaction, length);
    assert [first] + [second] == [first, second];
    AddressBehind([first], a, xor, transaction);
  }

  lemma {:induction false} TwoAttributes(first: Padded, second: Padded)
    requires WellFormed(first) && WellFormed(second)
    ensures EncodeAll([first, second]) == Encode(first) + Encode(second)
  {
    hide Encode;
    assert [first, second][1..] == [second];
    assert EncodeAll([second]) == Encode(second) + EncodeAll([]) == Encode(second);
  }

  lemma {:induction false} TwoAttributeResponse(first: Padded, second: Padded, transaction: seq<Byte>,
                                                length: seq<Byte>)
    requires WellFormed(first) && WellFormed(second) && |Encode(first) + Encode(second)| < 0x1_0000
    requires length == PortBytes(|Encode(first) + Encode(second)|)
    ensures EncodeAll([first, second]) == Encode(first) + Encode(second)
    ensures Response([first, second], COOKIE, transaction) ==
      [0x01, 0x01] + length + [0x21, 0x12, 0xA4, 0x42] + transaction + Encode(first) + Encode(second)
  {
    TwoAttributes(first, second);
    PackedNumbers();
    hide Encode, EncodeAll, OfNat, Index;
    assert length == Pack(|Encode(first) + Encode(second)|);
    hide Pack, PortBytes;
  }

  lemma {:induction false} NoAddressInSoftware(name: seq<Byte>)
    ensures AddressIn(Attribute(0x8022, name), COOKIE) == None
  {}

  lemma {:induction false} SoftwareBytes(name: seq<Byte>, filler: seq<Byte>)
    requires |name| < 0x1_0000 && |filler| < 4 && (|name| + |filler|) % 4 == 0
    ensures var first := Padded(Attribute(0x8022, name), filler);
      WellFormed(first) && Encode(first) == [0x80, 0x22] + PortBytes(|name|) + name + filler
  {
    PackedNumbers();
    hide OfNat, Index;
  }

  // An attribute gives an address exactly when it is of one of the two types, holds 8 bytes and names IPv4.
  lemma {:induction false} UsableIff(a: Attribute, cookie: seq<Byte>)
    requires |cookie| == 4
    ensures AddressIn(a, cookie).Some? <==> (a.kind == 0x0001 || a.kind == 0x0020) && |a.value| >= 8 && a.value[1] == 1
  {
    hide Short, XorBytes;
  }

  // Only a binding response to the request gives an address.
  lemma {:induction false} OnlyResponsesAnswer(bytes: seq<Byte>, transaction: seq<Byte>)
    requires Answer(bytes, transaction).Some?
    ensures |bytes| >= 20 && bytes[0] == 0x01 && bytes[1] == 0x01 && bytes[8..20] == transaction
  {
    hide Parse, FirstAddress, Index;
    IndexRange(bytes[0]);
    IndexRange(bytes[1]);
    OneIsOne();
    IndexInjective(bytes[0], 0x01);
    IndexInjective(bytes[1], 0x01);
  }

  lemma {:induction false} OneIsOne()
    ensures Index(0x01) == 1
  {}
}
