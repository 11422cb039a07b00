// Length-prefixed messages over a TCP stream (session.cpp).
module SessionFraming {
  import opened Wrappers
  import opened Bytes

  const HEADER_SIZE: nat := 8
  const MAX_PAYLOAD: nat := 4096

  datatype Message = Message(kind: u32, payload: seq<Byte>)

  // ----- bytes on the wire

  // A 32-bit field, lowest byte first.
  function Word(n: u32): (bytes: seq<Byte>)
    ensures |bytes| == 4
  {
    [OfNat(n % 256), OfNat(n / 256 % 256), OfNat(n / 65536 % 256), OfNat(n / 16777216)]
  }

  function WordAt(bytes: seq<Byte>, i: nat): u32
    requires i + 4 <= |bytes|
  {
    IndexRange(bytes[i]);
    IndexRange(bytes[i + 1]);
    IndexRange(bytes[i + 2]);
    IndexRange(bytes[i + 3]);
    Index(bytes[i]) + 256 * Index(bytes[i + 1]) + 65536 * Index(bytes[i + 2]) + 16777216 * Index(bytes[i + 3])
  }

  function Header(kind: u32, length: u32): (bytes: seq<Byte>)
    ensures |bytes| == HEADER_SIZE
  {
    Word(kind) + Word(length)
  }

  function Wire(m: Message): seq<Byte>
    requires |m.payload| < 0x1_0000_0000
  {
    Header(m.kind, |m.payload|) + m.payload
  }

  // The message at the front of a stream; none when it announces too much or has not all arrived.
  function Front(stream: seq<Byte>): Option<Message> {
    if |stream| < HEADER_SIZE then None
    else
      var length := WordAt(stream, 4);
      if length > MAX_PAYLOAD || |stream| < HEADER_SIZE + length then None
      else Some(Message(WordAt(stream, 0), stream[HEADER_SIZE..HEADER_SIZE + length]))
  }

  // What is left behind a front that is not received: all behind the header of a message that announces too
  // much, and nothing behind one that has not all arrived.
  function BehindRefused(stream: seq<Byte>): seq<Byte> {
    if |stream| >= HEADER_SIZE && WordAt(stream, 4) > MAX_PAYLOAD then stream[HEADER_SIZE..] else []
  }

  // ----- the socket

  // The pieces say how many bytes the next calls move at most, a number that is not positive
  // standing for a failed call; calls beyond them are not cut short.
  predicate Flows(pieces: seq<int>) {
    forall i :: 0 <= i < |pieces| ==> pieces[i] > 0
  }

  function Piece(pieces: seq<int>, wanted: int): (n: int)
    ensures wanted > 0 ==> n <= wanted
    ensures Flows(pieces) && wanted > 0 ==> n > 0
  {
    if wanted <= 0 then -1
    else if pieces == [] || pieces[0] > wanted then wanted
    else pieces[0]
  }

  class Socket {
    var outgoing: seq<Byte>
    var incoming: seq<Byte>
    var pieces: seq<int>

    constructor (stream: seq<Byte>, pieces: seq<int>)
      ensures outgoing == [] && incoming == stream && this.pieces == pieces
    {
      outgoing, incoming := [], stream;
      this.pieces := pieces;
    }

    // send: appends some of the bytes from start on.
    method Send(buf: array<Byte>, start: nat, wanted: int) returns (n: int)
      requires start + wanted <= buf.Length
      modifies this`outgoing, this`pieces
      ensures n == Piece(old(pieces), wanted)
      ensures outgoing == old(outgoing) + if n > 0 then buf[start..start + n] else []
      ensures pieces == Rest(old(pieces)) && (Flows(old(pieces)) ==> Flows(pieces))
    {
      n := Piece(pieces, wanted);
      if n > 0 { outgoing := outgoing + buf[start..start + n]; }
      if pieces != [] { pieces := pieces[1..]; }
    }

    // recv: moves some of the stream to the buffer from start on; fails when nothing is there.
    method Recv(buf: array<Byte>, start: nat, wanted: int) returns (n: int)
      requires start + wanted <= buf.Length
      modifies this`incoming, this`pieces, buf
      ensures n <= 0 ==> incoming == old(incoming) && buf[..] == old(buf[..])
      ensures n > 0 ==> n <= wanted && n <= |old(incoming)| && incoming == old(incoming)[n..]
      ensures n > 0 ==> buf[..] == old(buf[..start]) + old(incoming)[..n] + old(buf[start + n..])
      ensures Flows(old(pieces)) ==> Flows(pieces) && (wanted > 0 && old(incoming) != [] ==> n > 0)
    {
      n := Piece(pieces, wanted);
      if n > |incoming| { n := |incoming|; }
      if n > 0 {
        forall i | 0 <= i < n { buf[start + i] := incoming[i]; }
        incoming := incoming[n..];
      }
      if pieces != [] { pieces := pieces[1..]; }
    }
  }

  // (int) of an unsigned length.
  function AsInt(n: u32): int { if n < 0x8000_0000 then n else n - 0x1_0000_0000 }

  // Exactly the first n bytes of all have gone out.
  predicate HasSent(before: seq<Byte>, after: seq<Byte>, all: seq<Byte>, n: nat) {
    n <= |all| && after == before + all[..n]
  }

  lemma {:induction false} SendsMore(before: seq<Byte>, after: seq<Byte>, all: seq<Byte>, n: nat, more: seq<Byte>)
    requires HasSent(before, after, all, n) && n + |more| <= |all| && all[n..n + |more|] == more
    ensures HasSent(before, after + more, all, n + |more|)
  {
    assert all[..n + |more|] == all[..n] + more;
  }

  lemma {:induction false} SentNothing(before: seq<Byte>, all: seq<Byte>)
    ensures HasSent(before, before, all, 0)
  {}

  function Content(payload: array?<Byte>, length: nat): seq<Byte>
    requires payload != null ==> length <= payload.Length
    reads payload
  {
    if payload != null then payload[..length] else []
  }

  // What is left of the pieces after a first call, and after `length` bytes more.
  function Rest(pieces: seq<int>): seq<int> {
    if pieces == [] then [] else pieces[1..]
  }

  function RestAfter(pieces: seq<int>, length: nat): seq<int>
    requires Flows(pieces)
    decreases length
  {
    if length == 0 then pieces else RestAfter(Rest(pieces), length - Piece(pieces, length))
  }

  // All has gone out on success, and a shorter part of it on failure.
  ghost predicate SendsAllOrPart(before: seq<Byte>, after: seq<Byte>, all: seq<Byte>, ok: bool) {
    exists n: nat :: HasSent(before, after, all, n) && (ok <==> n == |all|)
  }

  lemma {:induction false} SentPart(before: seq<Byte>, after: seq<Byte>, all: seq<Byte>, n: nat, ok: bool)
    requires HasSent(before, after, all, n) && (ok <==> n == |all|)
    ensures SendsAllOrPart(before, after, all, ok)
  {}

  // Sends the first bytes of the buffer, piece by piece. A length that does not fit an int makes the first call fail.
  method SendBytes(sock: Socket, buf: array<Byte>, length: u32) returns (ok: bool)
    requires length <= buf.Length
    modifies sock`outgoing, sock`pieces
    ensures SendsAllOrPart(old(sock.outgoing), sock.outgoing, buf[..length], ok)
    ensures Flows(old(sock.pieces)) ==>
      && Flows(sock.pieces) && (ok <==> length < 0x8000_0000)
      && (ok ==> sock.pieces == RestAfter(old(sock.pieces), length))
  {
    hide HasSent, SendsAllOrPart;
    ghost var before, pieces, all := sock.outgoing, sock.pieces, buf[..length];
    SentNothing(before, all);
    var remaining := length;
    while remaining > 0
      invariant 0 <= remaining <= length && all == buf[..length]
      invariant HasSent(before, sock.outgoing, all, length - remaining)
      invariant remaining < length ==> length < 0x8000_0000
      invariant Flows(pieces) ==> Flows(sock.pieces) && RestAfter(sock.pieces, remaining) == RestAfter(pieces, length)
    {
      ghost var outgoing := sock.outgoing;
      var n := sock.Send(buf, length - remaining, AsInt(remaining));
      if n <= 0 {
        assert sock.outgoing == outgoing;
        SentPart(before, sock.outgoing, all, length - remaining, false);
        return false;
      }
      SendsMore(before, outgoing, all, length - remaining, buf[length - remaining..length - remaining + n]);
      remaining := remaining - n;
    }
    SentPart(before, sock.outgoing, all, length, true);
    ok := true;
  }

  // Sends a message; without a payload only the header goes out, whatever length it announces. A socket that
  // flows takes it exactly if it takes the header in one piece, and the length of a payload fits an int.
  method SendMsg(sock: Socket, kind: u32, payload: array?<Byte>, length: u32) returns (ok: bool)
    requires payload != null ==> length <= payload.Length
    modifies sock`outgoing, sock`pieces
    ensures SendsAllOrPart(old(sock.outgoing), sock.outgoing, Header(kind, length) + Content(payload, length), ok)
    ensures Flows(old(sock.pieces)) ==>
      && Flows(sock.pieces)
      && (ok <==> Piece(old(sock.pieces), HEADER_SIZE) == HEADER_SIZE && (payload == null || length < 0x8000_0000))
      && (ok ==> sock.pieces == RestAfter(Rest(old(sock.pieces)), |Content(payload, length)|))
  {
    hide HasSent, SendsAllOrPart, Header, RestAfter;
    var header := new Byte[HEADER_SIZE](i requires 0 <= i < HEADER_SIZE => Header(kind, length)[i]);
    assert header[..] == Header(kind, length);
    ghost var content, before, pieces := Content(payload, length), sock.outgoing, sock.pieces;
    var n := sock.Send(header, 0, HEADER_SIZE);
    PartOfHeader(before, sock.outgoing, header[..], content, n);
    if n != HEADER_SIZE {
      SentPart(before, sock.outgoing, header[..] + content, if n > 0 then n else 0, false);
      return false;
    }
    ok := true;
    if length > 0 && payload != null {
      ghost var mid := sock.outgoing;
      ok := SendBytes(sock, payload, length);
      SendsRest(before, mid, sock.outgoing, header[..], content, ok);
    } else {
      assert content == [];
      SentPart(before, sock.outgoing, header[..] + content, HEADER_SIZE, true);
      NoRest(sock.pieces);
    }
  }

  lemma {:induction false} PartOfHeader(before: seq<Byte>, after: seq<Byte>, header: seq<Byte>, content: seq<Byte>,
                                        n: int)
    requires n <= |header| && after == before + if n > 0 then header[0..n] else []
    ensures HasSent(before, after, header + content, if n > 0 then n else 0)
  {}

  lemma {:induction false} SendsRest(before: seq<Byte>, mid: seq<Byte>, after: seq<Byte>, header: seq<Byte>,
                                     content: seq<Byte>, ok: bool)
    requires HasSent(before, mid, header + content, |header|) && SendsAllOrPart(mid, after, content, ok)
    ensures SendsAllOrPart(before, after, header + content, ok)
  {
    var n: nat :| HasSent(mid, after, content, n) && (ok <==> n == |content|);
    assert (header + content)[..|header| + n] == (header + content)[..|header|] + content[..n];
    SentPart(before, after, header + content, |header| + n, ok);
  }

  lemma {:induction false} NoRest(pieces: seq<int>)
    ensures Flows(pieces) ==> RestAfter(pieces, 0) == pieces
  {}

  // Fills the buffer from the stream, however the stream is cut.
  method Fill(sock: Socket, buf: array<Byte>) returns (ok: bool)
    modifies sock`incoming, sock`pieces, buf
    ensures ok ==> buf.Length <= |old(sock.incoming)|
    ensures ok ==> buf[..] == old(sock.incoming)[..buf.Length] && sock.incoming == old(sock.incoming)[buf.Length..]
    ensures Flows(old(sock.pieces)) ==> Flows(sock.pieces) && (ok <==> buf.Length <= |old(sock.incoming)|)
    ensures Flows(old(sock.pieces)) && !ok ==> sock.incoming == []
  {
    var remaining := buf.Length;
    while remaining > 0
      invariant 0 <= remaining <= buf.Length
      invariant buf.Length - remaining <= |old(sock.incoming)|
      invariant buf[..buf.Length - remaining] == old(sock.incoming)[..buf.Length - remaining]
      invariant sock.incoming == old(sock.incoming)[buf.Length - remaining..]
      invariant Flows(old(sock.pieces)) ==> Flows(sock.pieces)
    {
      var n := sock.Recv(buf, buf.Length - remaining, remaining);
      if n <= 0 { return false; }
      remaining := remaining - n;
    }
    ok := true;
  }

  // Receives a message, refusing one that announces more than 4096 bytes.
  method RecvMsg(sock: Socket) returns (ok: bool, m: Message)
    modifies sock`incoming, sock`pieces
    ensures ok ==> Front(old(sock.incoming)) == Some(m)
    ensures ok ==> sock.incoming == old(sock.incoming)[HEADER_SIZE + |m.payload|..]
    ensures Flows(old(sock.pieces)) ==> Flows(sock.pieces) && (ok <==> Front(old(sock.incoming)).Some?)
    ensures Flows(old(sock.pieces)) && !ok ==> sock.incoming == BehindRefused(old(sock.incoming))
  {
    ghost var stream := sock.incoming;
    m := Message(0, []);
    var header := new Byte[HEADER_SIZE];
    ok := Fill(sock, header);
    if !ok { return; }
    WordOfPrefix(stream, 4);
    var kind, length := WordAt(header[..], 0), WordAt(header[..], 4);
    if length > MAX_PAYLOAD { return false, m; }
    var payload := new Byte[length];
    if length > 0 {
      ok := Fill(sock, payload);
      if !ok { return; }
    }
    m := Message(kind, payload[..]);
    FrontOf(stream, header[..], payload[..]);
  }

  lemma {:induction false} FrontOf(stream: seq<Byte>, header: seq<Byte>, payload: seq<Byte>)
    requires |header| == HEADER_SIZE <= |stream| && header == stream[..HEADER_SIZE]
    requires HEADER_SIZE + |payload| <= |stream| && payload == stream[HEADER_SIZE..][..|payload|]
    requires |payload| == WordAt(header, 4) <= MAX_PAYLOAD
    ensures Front(stream) == Some(Message(WordAt(header, 0), payload))
    ensures stream[HEADER_SIZE..][|payload|..] == stream[HEADER_SIZE + |payload|..]
  {
    WordOfPrefix(stream, 0);
    WordOfPrefix(stream, 4);
    assert stream[HEADER_SIZE..HEADER_SIZE + |payload|] == payload;
  }

  lemma {:induction false} WordOfPrefix(stream: seq<Byte>, i: nat)
    requires i + 4 <= HEADER_SIZE <= |stream|
    ensures WordAt(stream[..HEADER_SIZE], i) == WordAt(stream, i)
  {}

  // ----- whole streams

  function WireAll(messages: seq<Message>): seq<Byte>
    requires forall i :: 0 <= i < |messages| ==> |messages[i].payload| < 0x1_0000_0000
  {
    if messages == [] then [] else Wire(messages[0]) + WireAll(messages[1..])
  }

  // What n calls of RecvMsg in a row give, as far as they succeed, and the stream behind that.
  function Receive(stream: seq<Byte>, n: nat): (seq<Message>, seq<Byte>) {
    var front := Front(stream);
    if n == 0 || front.None? then ([], stream)
    else
      var (messages, rest) := Receive(stream[HEADER_SIZE + |front.value.payload|..], n - 1);
      ([front.value] + messages, rest)
  }

  lemma {:induction false} Digits(n: u32)
    ensures n / 16777216 < 256
    ensures n == n % 256 + 256 * (n / 256 % 256) + 65536 * (n / 65536 % 256) + 16777216 * (n / 16777216)
  {
    assert n / 65536 == n / 65536 % 256 + 256 * (n / 16777216);
    assert n / 256 == n / 256 % 256 + 256 * (n / 65536);
  }

  lemma {:induction false} ByteValue(n: nat)
    requires n < 256
    ensures Index(OfNat(n)) == n
  {
    hide Index, OfNat;
    IndexOfNat(n);
  }

  lemma {:induction false} WordRoundTrip(n: u32, before: seq<Byte>, after: seq<Byte>)
    ensures WordAt(before + Word(n) + after, |before|) == n
  {
    hide Index, OfNat;
    Digits(n);
    ByteValue(n % 256);
    ByteValue(n / 256 % 256);
    ByteValue(n / 65536 % 256);
    ByteValue(n / 16777216);
    WordAtBytes(before, OfNat(n % 256), OfNat(n / 256 % 256), OfNat(n / 65536 % 256), OfNat(n / 16777216), after);
  }

  lemma {:induction false} WordAtBytes(before: seq<Byte>, a: Byte, b: Byte, c: Byte, d: Byte, after: seq<Byte>)
    ensures var word := Index(a) + 256 * Index(b) + 65536 * Index(c) + 16777216 * Index(d);
      WordAt(before + [a, b, c, d] + after, |before|) == word
  {
    hide Index;
    var all := before + [a, b, c, d] + after;
    assert all[|before|] == a && all[|before| + 1] == b && all[|before| + 2] == c && all[|before| + 3] == d;
  }

  lemma {:induction false} HeaderRoundTrip(kind: u32, length: u32, after: seq<Byte>)
    ensures var all := Header(kind, length) + after; WordAt(all, 0) == kind && WordAt(all, 4) == length
  {
    hide Word, WordAt;
    var all := Header(kind, length) + after;
    assert all == [] + Word(kind) + (Word(length) + after);
    WordRoundTrip(kind, [], Word(length) + after);
    assert all == Word(kind) + Word(length) + after;
    WordRoundTrip(length, Word(kind), after);
  }

  // On the wire a message is 8 bytes of header, both fields lowest byte first, and its payload.
  lemma {:induction false} WireBytes(m: Message, i: nat)
    requires |m.payload| < 0x1_0000_0000 && i < 8 + |m.payload|
    ensures |Wire(m)| == 8 + |m.payload|
    ensures var n := |m.payload|;
      if i < 8 then
        Index(Wire(m)[i]) == [m.kind, m.kind / 256, m.kind / 65536, m.kind / 16777216,
                              n, n / 256, n / 65536, n / 16777216][i] % 256
      else Wire(m)[i] == m.payload[i - 8]
  {
    WordBytes(m.kind);
    WordBytes(|m.payload|);
    hide Word, Index;
  }

  lemma {:induction false} WordBytes(n: u32)
    ensures Index(Word(n)[0]) == n % 256 && Index(Word(n)[1]) == n / 256 % 256
    ensures Index(Word(n)[2]) == n / 65536 % 256 && Index(Word(n)[3]) == n / 16777216 % 256
  {
    hide Index, OfNat;
    IndexOfNat(n % 256);
    IndexOfNat(n / 256 % 256);
    IndexOfNat(n / 65536 % 256);
    IndexOfNat(n / 16777216);
  }

  // Of any stream that starts with a message, exactly the messages of at most 4096 bytes are received.
  lemma {:induction false} FrontIffSmall(m: Message, rest: seq<Byte>)
    requires |m.payload| < 0x1_0000_0000
    ensures Front(Wire(m) + rest) == if |m.payload| <= 4096 then Some(m) else None
  {
    hide Header, WordAt;
    var all := Wire(m) + rest;
    assert all == Header(m.kind, |m.payload|) + (m.payload + rest);
    HeaderRoundTrip(m.kind, |m.payload|, m.payload + rest);
    assert all[HEADER_SIZE..HEADER_SIZE + |m.payload|] == m.payload;
  }

  // A message cut short is not received.
  lemma {:induction false} CutShort(m: Message, n: nat)
    requires |m.payload| < 0x1_0000_0000 && n < |Wire(m)|
    ensures Front(Wire(m)[..n]) == None
  {
    hide Header;
    if n >= HEADER_SIZE {
      HeaderRoundTrip(m.kind, |m.payload|, m.payload);
      var stream := Wire(m)[..n];
      assert stream[4] == Wire(m)[4] && stream[5] == Wire(m)[5] && stream[6] == Wire(m)[6] && stream[7] == Wire(m)[7];
    }
  }

  // Whatever follows them, the messages come out as they went in, up to the first that is too long.
  lemma {:induction false} MessagesArrive(messages: seq<Message>, rest: seq<Byte>)
    requires forall i :: 0 <= i < |messages| ==> |messages[i].payload| <= 4096
    ensures Receive(WireAll(messages) + rest, |messages|) == (messages, rest)
  {
    hide Wire, Front;
    if messages == [] {
      assert [] + rest == rest;
    } else {
      var m, others := messages[0], WireAll(messages[1..]);
      var stream := WireAll(messages) + rest;
      assert stream == Wire(m) + (others + rest);
      FrontIffSmall(m, others + rest);
      WireSize(m);
      assert stream[HEADER_SIZE + |m.payload|..] == others + rest;
      MessagesArrive(messages[1..], rest);
      assert [m] + messages[1..] == messages;
    }
  }

  lemma {:induction false} WireSize(m: Message)
    requires |m.payload| < 0x1_0000_0000
    ensures |Wire(m)| == HEADER_SIZE + |m.payload|
  {}

  // A longer message stops the receiver: neither it nor anything after it is received.
  lemma {:induction false} LongMessageStops(messages: seq<Message>, long: Message, rest: seq<Byte>, n: nat)
    requires forall i :: 0 <= i < |messages| ==> |messages[i].payload| <= 4096
    requires 4096 < |long.payload| < 0x1_0000_0000 && n >= |messages|
    ensures Receive(WireAll(messages) + Wire(long) + rest, n).0 == messages
  {
    hide Wire, Front;
    if messages == [] {
      assert WireAll(messages) + Wire(long) + rest == Wire(long) + rest;
      FrontIffSmall(long, rest);
    } else {
      var m, others := messages[0], WireAll(messages[1..]);
      var stream := WireAll(messages) + Wire(long) + rest;
      assert stream == Wire(m) + (others + Wire(long) + rest);
      FrontIffSmall(m, others + Wire(long) + rest);
      WireSize(m);
      assert stream[HEADER_SIZE + |m.payload|..] == others + Wire(long) + rest;
      LongMessageStops(messages[1..], long, rest, n - 1);
      assert [m] + messages[1..] == messages;
    }
  }

  // Its header is consumed, its payload left in the stream; of a message cut short nothing is left.
  lemma {:induction false} LeftBehind(m: Message, rest: seq<Byte>, n: nat)
    requires |m.payload| < 0x1_0000_0000 && n < |Wire(m)|
    ensures |m.payload| > 4096 ==> BehindRefused(Wire(m) + rest) == m.payload + rest
    ensures |m.payload| <= 4096 ==> BehindRefused(Wire(m)[..n]) == []
  {
    hide Header, WordAt;
    HeaderRoundTrip(m.kind, |m.payload|, m.payload + rest);
    assert Wire(m) + rest == Header(m.kind, |m.payload|) + (m.payload + rest);
    if n >= HEADER_SIZE {
      HeaderRoundTrip(m.kind, |m.payload|, m.payload[..n - HEADER_SIZE]);
      assert Wire(m)[..n] == Header(m.kind, |m.payload|) + m.payload[..n - HEADER_SIZE];
    }
  }

  // ----- the loops in a row

  // Whether a socket that flows takes every header in one piece, wherever it cuts the payloads.
  predicate HeadersWhole(messages: seq<Message>, pieces: seq<int>)
    requires Flows(pieces)
  {
    messages == [] ||
    (Piece(pieces, HEADER_SIZE) == HEADER_SIZE &&
     (RestFlows(pieces, |messages[0].payload|);
      HeadersWhole(messages[1..], RestAfter(Rest(pieces), |messages[0].payload|))))
  }

  lemma {:induction false} RestFlows(pieces: seq<int>, length: nat)
    requires Flows(pieces)
    ensures Flows(Rest(pieces)) && Flows(RestAfter(Rest(pieces), length))
  {
    RestAfterFlows(Rest(pieces), length);
  }

  lemma {:induction false} RestAfterFlows(pieces: seq<int>, length: nat)
    requires Flows(pieces)
    ensures Flows(RestAfter(pieces, length))
    decreases length
  {
    if length > 0 { RestAfterFlows(Rest(pieces), length - Piece(pieces, length)); }
  }

  // Sends one message after the other.
  method SendAll(sock: Socket, messages: seq<Message>) returns (ok: bool)
    requires forall i :: 0 <= i < |messages| ==> |messages[i].payload| < 0x8000_0000
    modifies sock`outgoing, sock`pieces
    ensures ok ==> sock.outgoing == old(sock.outgoing) + WireAll(messages)
    ensures Flows(old(sock.pieces)) ==> (ok <==> HeadersWhole(messages, old(sock.pieces)))
  {
    hide Wire, Header, RestAfter, SendsAllOrPart;
    ghost var before, pieces := sock.outgoing, sock.pieces;
    var i := 0;
    assert messages[0..] == messages && before + [] == before;
    while i < |messages|
      invariant 0 <= i <= |messages|
      invariant before + WireAll(messages) == sock.outgoing + WireAll(messages[i..])
      invariant Flows(pieces) ==>
        Flows(sock.pieces) && (HeadersWhole(messages, pieces) <==> HeadersWhole(messages[i..], sock.pieces))
    {
      var m := messages[i];
      var payload := new Byte[|m.payload|](j requires 0 <= j < |m.payload| => m.payload[j]);
      assert payload[..] == m.payload && payload[..|m.payload|] == m.payload;
      ghost var outgoing, here := sock.outgoing, sock.pieces;
      assert messages[i..][0] == m && messages[i..][1..] == messages[i + 1..];
      var taken := SendMsg(sock, m.kind, payload, |m.payload|);
      if !taken { return false; }
      SentIsWire(outgoing, sock.outgoing, m);
      assert (outgoing + Wire(m)) + WireAll(messages[i + 1..]) == outgoing + (Wire(m) + WireAll(messages[i + 1..]));
      i := i + 1;
    }
    assert messages[i..] == [];
    ok := true;
  }

  lemma {:induction false} SentIsWire(before: seq<Byte>, after: seq<Byte>, m: Message)
    requires |m.payload| < 0x8000_0000
    requires SendsAllOrPart(before, after, Header(m.kind, |m.payload|) + m.payload, true)
    ensures after == before + Wire(m)
  {
    hide Header;
    var all := Header(m.kind, |m.payload|) + m.payload;
    assert all[..|all|] == all;
  }

  // Receives up to n messages, until one does not come.
  method RecvAll(sock: Socket, n: nat) returns (messages: seq<Message>)
    requires Flows(sock.pieces)
    modifies sock`incoming, sock`pieces
    ensures messages == Receive(old(sock.incoming), n).0
    ensures |messages| == n ==> sock.incoming == Receive(old(sock.incoming), n).1
  {
    hide Front;
    ghost var stream := sock.incoming;
    messages := [];
    assert messages + Receive(stream, n).0 == Receive(stream, n).0;
    for i := 0 to n
      invariant |messages| == i && Flows(sock.pieces)
      invariant Receive(stream, n).0 == messages + Receive(sock.incoming, n - i).0
      invariant Receive(stream, n).1 == Receive(sock.incoming, n - i).1
    {
      ghost var here := sock.incoming;
      var ok, m := RecvMsg(sock);
      if !ok {
        assert Receive(here, n - i).0 == [];
        assert messages + [] == messages;
        return;
      }
      ghost var rest := Receive(sock.incoming, n - i - 1).0;
      assert messages + ([m] + rest) == (messages + [m]) + rest;
      messages := messages + [m];
    }
    assert messages + [] == messages;
  }

  // From one end to the other: however the sending socket cuts the payloads and the receiving one the stream,
  // and whatever follows, the messages received are those sent.
  method Exchange(messages: seq<Message>, sendPieces: seq<int>, recvPieces: seq<int>, more: seq<Byte>)
    returns (sent: bool, received: seq<Message>)
    requires forall i :: 0 <= i < |messages| ==> |messages[i].payload| <= 4096
    requires Flows(sendPieces) && Flows(recvPieces)
    ensures sent <==> HeadersWhole(messages, sendPieces)
    ensures sent ==> received == messages
  {
    hide WireAll, Receive, HeadersWhole;
    var sender := new Socket([], sendPieces);
    sent := SendAll(sender, messages);
    received := [];
    if sent {
      assert [] + WireAll(messages) == WireAll(messages);
      var receiver := new Socket(sender.outgoing + more, recvPieces);
      MessagesArrive(messages, more);
      received := RecvAll(receiver, |messages|);
    }
  }
}
