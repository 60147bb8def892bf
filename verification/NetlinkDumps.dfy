/** What the kernel writes into a dump, and that the decoder reads it back. */
module NetlinkDumps {
  import opened Net
  import opened Words
  import opened Netlink

  // ---- Messages on the wire ----

  datatype Message = Message(ty: U16, flags: U16, sequence: U32, portId: U32, payload: seq<Byte>) {
    predicate Valid() { 16 + |payload| <= U32_MAX }
  }

  function Zeros(n: nat): seq<Byte> {
    seq(n, _ => 0)
  }

  function Header(m: Message): (r: seq<Byte>)
    requires m.Valid()
    ensures |r| == 16
  {
    ToLe32(16 + |m.payload|) + ToLe16(m.ty) + ToLe16(m.flags) + ToLe32(m.sequence) + ToLe32(m.portId)
  }

  function Padding(m: Message): seq<Byte> {
    Zeros((4 - |m.payload| % 4) % 4)
  }

  /** Header, payload, and zeros up to the next multiple of four. */
  function Encode(m: Message): seq<Byte>
    requires m.Valid()
  {
    Header(m) + m.payload + Padding(m)
  }

  ghost predicate AllValid(ms: seq<Message>) {
    forall i :: 0 <= i < |ms| ==> ms[i].Valid()
  }

  function EncodeAll(ms: seq<Message>): seq<Byte>
    requires AllValid(ms)
  {
    if ms == [] then [] else Encode(ms[0]) + EncodeAll(ms[1..])
  }

  /** What a list of messages means, without any bytes. */
  function Interpret(ms: seq<Message>, kind: Protocol, table: Table): Parsed {
    if ms == [] then Parsed(Ok(false), table)
    else
      var step := Act(ms[0].ty, ms[0].payload, kind, table);
      if step.Stop? then Parsed(step.result, table) else Interpret(ms[1..], kind, step.table)
  }

  lemma FirstLength(m: Message, rest: seq<Byte>)
    requires m.Valid()
    ensures var bytes := Encode(m) + rest;
            |bytes| >= HEADER_LEN && WordAt(bytes, 0) == HEADER_LEN + |m.payload| <= |bytes|
  {
    var bytes := Encode(m) + rest;
    assert bytes[0..4] == Header(m)[0..4] == ToLe32(HEADER_LEN + |m.payload|);
    Le32RoundTrip(HEADER_LEN + |m.payload|);
  }

  lemma FirstType(m: Message, rest: seq<Byte>)
    requires m.Valid()
    ensures var bytes := Encode(m) + rest; Le16(bytes[4], bytes[5]) == m.ty
  {
    var bytes := Encode(m) + rest;
    assert bytes[4] == Header(m)[4] == ToLe16(m.ty)[0];
    assert bytes[5] == Header(m)[5] == ToLe16(m.ty)[1];
  }

  lemma Cut(a: seq<Byte>, b: seq<Byte>, c: seq<Byte>, d: seq<Byte>)
    ensures (a + b + c + d)[|a|..|a| + |b|] == b
    ensures (a + b + c + d)[|a| + |b| + |c|..] == d
  {
  }

  lemma AlignPads(len: nat)
    requires len + 3 <= U64_MAX
    ensures NlmsgAlign(len) == len + (4 - len % 4) % 4
  {
    AlignIsLeast(len);
    RoundedUp(len, NlmsgAlign(len));
  }

  lemma RoundedUp(len: nat, aligned: nat)
    requires aligned % 4 == 0 && len <= aligned < len + 4
    ensures aligned == len + (4 - len % 4) % 4
  {
  }

  lemma FourMore(n: nat)
    ensures (HEADER_LEN + n) % 4 == n % 4
  {
  }

  lemma EncodedLength(m: Message)
    requires m.Valid()
    ensures |Encode(m)| == HEADER_LEN + |m.payload| + |Padding(m)|
    ensures |Padding(m)| == (4 - (HEADER_LEN + |m.payload|) % 4) % 4
  {
    FourMore(|m.payload|);
  }

  lemma PaddedLength(m: Message)
    requires m.Valid()
    ensures NlmsgAlign(HEADER_LEN + |m.payload|) == |Encode(m)| == HEADER_LEN + |m.payload| + |Padding(m)|
  {
    EncodedLength(m);
    var len := HEADER_LEN + |m.payload|;
    AlignPads(len);
  }

  /** The first message of a stream is read back, and skipped to its last byte. */
  lemma FirstMessage(m: Message, rest: seq<Byte>)
    requires m.Valid()
    ensures var bytes := Encode(m) + rest;
            && |bytes| >= HEADER_LEN
            && 0 < WordAt(bytes, 0) <= |bytes|
            && Le16(bytes[4], bytes[5]) == m.ty
            && Payload(bytes, WordAt(bytes, 0)) == m.payload
            && Skip(bytes, WordAt(bytes, 0)) == rest
  {
    FirstLength(m, rest);
    FirstType(m, rest);
    PaddedLength(m);
    Cut(Header(m), m.payload, Padding(m), rest);
  }

  /** Decoding undoes encoding, for every list of messages, whatever they are; fewer than sixteen
      stray bytes at the end change nothing. */
  lemma {:induction false} ParseEncoded(ms: seq<Message>, tail: seq<Byte>, kind: Protocol, table: Table)
    requires AllValid(ms) && |tail| < HEADER_LEN
    ensures ParseRest(EncodeAll(ms) + tail, kind, table) == Interpret(ms, kind, table)
    decreases |ms|
  {
    if ms == [] {
      assert EncodeAll(ms) + tail == tail;
    } else {
      var rest := EncodeAll(ms[1..]) + tail;
      assert EncodeAll(ms) + tail == Encode(ms[0]) + rest;
      FirstMessage(ms[0], rest);
      var step := Act(ms[0].ty, ms[0].payload, kind, table);
      if step.Next? { ParseEncoded(ms[1..], tail, kind, step.table); }
    }
  }

  /** How a number of 32 bits with a sign is written. */
  function SignedWord(n: int): U32
    requires -0x8000_0000 <= n < 0x8000_0000
  {
    if n < 0 then n + 0x1_0000_0000 else n
  }

  /** An error message ends the decoding as an error whatever its number, zero included: the kernel
      writes the number negated, and the lowest one, which has no opposite, stays itself. */
  lemma ErrorsEndDecoding(m: Message, rest: seq<Byte>, kind: Protocol, table: Table, n: int)
    requires m.Valid() && m.ty == 2 && |m.payload| >= 20
    requires -0x8000_0000 <= n < 0x8000_0000 && WordAt(m.payload, 0) == SignedWord(n)
    ensures ParseRest(Encode(m) + rest, kind, table)
         == Parsed(Err(KernelError(if n == -0x8000_0000 then n else -n)), table)
  {
    FirstMessage(m, rest);
  }

  /** One that is too short is a malformed message. */
  lemma ShortErrorsEndDecoding(m: Message, rest: seq<Byte>, kind: Protocol, table: Table)
    requires m.Valid() && m.ty == 2 && |m.payload| < 20
    ensures ParseRest(Encode(m) + rest, kind, table) == Parsed(Err(ParseError), table)
  {
    FirstMessage(m, rest);
  }

  lemma EmptyMessageActs(ty: U16, kind: Protocol, table: Table)
    ensures Act(ty, [], kind, table)
         == if ty == 3 then Stop(Ok(true))
            else if ty == 2 || ty == 20 then Stop(Err(ParseError))
            else Next(table)
  {
  }

  lemma ShortSkip(bytes: seq<Byte>, len: U32)
    requires HEADER_LEN <= |bytes| && 1 <= len < HEADER_LEN
    ensures Payload(bytes, len) == [] && (len + 3) / 4 * 4 <= |bytes| && Skip(bytes, len) == bytes[(len + 3) / 4 * 4..]
  {
    AlignIsLeast(len);
  }

  /** A length between 1 and 15, shorter than the header it stands in, is taken for an empty
      message, and the next header is read from inside this one. */
  lemma ShortLengthsAreTaken(bytes: seq<Byte>, kind: Protocol, table: Table)
    requires HEADER_LEN <= |bytes| && 1 <= WordAt(bytes, 0) < HEADER_LEN
    ensures var ty := Le16(bytes[4], bytes[5]);
            ParseRest(bytes, kind, table)
            == if ty == 3 then Parsed(Ok(true), table)
               else if ty == 2 || ty == 20 then Parsed(Err(ParseError), table)
               else ParseRest(Skip(bytes, WordAt(bytes, 0)), kind, table)
    ensures Skip(bytes, WordAt(bytes, 0)) == bytes[(WordAt(bytes, 0) + 3) / 4 * 4..]
  {
    ShortSkip(bytes, WordAt(bytes, 0));
    EmptyMessageActs(Le16(bytes[4], bytes[5]), kind, table);
  }

  /** A length of zero, or beyond the datagram, is malformed. */
  lemma BadLengthsFail(bytes: seq<Byte>, kind: Protocol, table: Table)
    requires |bytes| >= 16 && (WordAt(bytes, 0) == 0 || WordAt(bytes, 0) > |bytes|)
    ensures ParseRest(bytes, kind, table) == Parsed(Err(ParseError), table)
  {
  }

  /** So is a socket message that is too short, or of another family than the two. */
  lemma BadSocketsFail(m: Message, rest: seq<Byte>, kind: Protocol, table: Table)
    requires m.Valid() && m.ty == 20
    requires |m.payload| < 72 || (m.payload[0] != 2 && m.payload[0] != 10)
    ensures ParseRest(Encode(m) + rest, kind, table) == Parsed(Err(ParseError), table)
  {
    FirstMessage(m, rest);
  }

  /** Messages of other types are passed over. */
  lemma OtherMessagesPass(m: Message, rest: seq<Byte>, kind: Protocol, table: Table)
    requires m.Valid() && m.ty != 2 && m.ty != 3 && m.ty != 20
    ensures ParseRest(Encode(m) + rest, kind, table) == ParseRest(rest, kind, table)
  {
    FirstMessage(m, rest);
  }

  /** An empty datagram is malformed, and no datagram a failed receive. */
  lemma EmptyDatagramsFail(rest: seq<seq<Byte>>, kind: Protocol, table: Table)
    ensures Query([[]] + rest, kind, table) == Queried(Err(ParseError), table, 1)
    ensures Query([], kind, table) == Queried(Err(RecvFailed), table, 0)
  {
  }

  // ---- Datagram boundaries do not matter ----

  function Flatten(chunks: seq<seq<Message>>): seq<Message> {
    if chunks == [] then [] else chunks[0] + Flatten(chunks[1..])
  }

  ghost predicate ValidChunks(chunks: seq<seq<Message>>) {
    forall i :: 0 <= i < |chunks| ==> chunks[i] != [] && AllValid(chunks[i])
  }

  function Datagrams(chunks: seq<seq<Message>>): seq<seq<Byte>>
    requires ValidChunks(chunks)
  {
    if chunks == [] then [] else [EncodeAll(chunks[0])] + Datagrams(chunks[1..])
  }

  lemma {:induction false} InterpretConcat(a: seq<Message>, b: seq<Message>, kind: Protocol, table: Table)
    ensures var first := Interpret(a, kind, table);
            Interpret(a + b, kind, table)
            == if first.result == Ok(false) then Interpret(b, kind, first.table) else first
    decreases |a|
  {
    if a == [] {
      assert a + b == b;
    } else {
      assert (a + b)[1..] == a[1..] + b;
      var step := Act(a[0].ty, a[0].payload, kind, table);
      if step.Next? { InterpretConcat(a[1..], b, kind, step.table); }
    }
  }

  /** What the dump as a whole comes to; running out of messages is a failed receive. */
  function Conclude(p: Parsed): (Result<()>, Table) {
    (match p.result
     case Err(e) => Err(e)
     case Ok(done) => if done then Ok(()) else Err(RecvFailed),
     p.table)
  }

  lemma EncodedIsLong(ms: seq<Message>)
    requires ms != [] && AllValid(ms)
    ensures EncodeAll(ms) != []
  {
    FirstLength(ms[0], EncodeAll(ms[1..]));
  }

  /** One turn of the receive loop, in terms of messages. */
  lemma QueryFirst(chunks: seq<seq<Message>>, kind: Protocol, table: Table)
    requires ValidChunks(chunks) && chunks != []
    ensures var parsed := Interpret(chunks[0], kind, table);
            Query(Datagrams(chunks), kind, table)
            == match parsed.result
               case Err(e) => Queried(Err(e), parsed.table, 1)
               case Ok(done) =>
                 if done then Queried(Ok(()), parsed.table, 1)
                 else
                   var rest := Query(Datagrams(chunks[1..]), kind, parsed.table);
                   rest.(used := rest.used + 1)
  {
    var first := chunks[0];
    EncodedIsLong(first);
    ParseEncoded(first, [], kind, table);
    assert EncodeAll(first) + [] == EncodeAll(first);
    assert Datagrams(chunks)[1..] == Datagrams(chunks[1..]);
  }

  /** However the messages of a dump are cut into datagrams, the receive loop comes to the
      conclusion that the list of messages determines. */
  lemma {:induction false} BoundariesDoNotMatter(chunks: seq<seq<Message>>, kind: Protocol, table: Table)
    requires ValidChunks(chunks)
    ensures var q := Query(Datagrams(chunks), kind, table);
            (q.result, q.table) == Conclude(Interpret(Flatten(chunks), kind, table))
    decreases |chunks|
  {
    if chunks != [] {
      var parsed := Interpret(chunks[0], kind, table);
      QueryFirst(chunks, kind, table);
      InterpretConcat(chunks[0], Flatten(chunks[1..]), kind, table);
      if parsed.result == Ok(false) {
        BoundariesDoNotMatter(chunks[1..], kind, parsed.table);
      }
    }
  }

  /** The messages of the first `n` datagrams neither end the dump nor spoil it. */
  ghost predicate Undecided(chunks: seq<seq<Message>>, n: nat, kind: Protocol, table: Table)
    requires n <= |chunks|
  {
    Interpret(Flatten(chunks[..n]), kind, table).result == Ok(false)
  }

  lemma UndecidedStep(chunks: seq<seq<Message>>, n: nat, kind: Protocol, table: Table)
    requires 0 < n <= |chunks|
    ensures var parsed := Interpret(chunks[0], kind, table);
            Undecided(chunks, n, kind, table)
            <==> parsed.result == Ok(false) && Undecided(chunks[1..], n - 1, kind, parsed.table)
  {
    assert chunks[..n][1..] == chunks[1..][..n - 1];
    InterpretConcat(chunks[0], Flatten(chunks[1..][..n - 1]), kind, table);
  }

  /** The receive loop stops with the datagram that holds the first deciding message: nothing
      before it decides, and it does. */
  lemma {:induction false} StopsAtFirstDecision(chunks: seq<seq<Message>>, kind: Protocol, table: Table)
    requires ValidChunks(chunks)
    ensures var used := Query(Datagrams(chunks), kind, table).used;
            && used <= |chunks|
            && (forall n :: 0 <= n < used ==> Undecided(chunks, n, kind, table))
            && (used < |chunks| ==> !Undecided(chunks, used, kind, table))
    decreases |chunks|
  {
    if chunks != [] {
      var parsed := Interpret(chunks[0], kind, table);
      QueryFirst(chunks, kind, table);
      if parsed.result == Ok(false) {
        StopsAtFirstDecision(chunks[1..], kind, parsed.table);
      }
      forall n | 0 < n <= |chunks| {
        UndecidedStep(chunks, n, kind, table);
      }
    }
  }

  // ---- Sockets ----

  /** A socket as the kernel knows it. Both ends are of one family. */
  datatype Socket = Socket(local: SocketAddr, remote: SocketAddr, state: Byte, uid: U32, inode: U32) {
    predicate Valid() { local.ip.V4? <==> remote.ip.V4? }
    function Family(): Byte { if local.ip.V4? then 2 else 10 }
  }

  /** Fields of a dump message that the decoder does not look at. */
  datatype Unread = Unread(timer: Byte, retrans: Byte, middle: seq<Byte>, attributes: seq<Byte>,
                           flags: U16, sequence: U32, portId: U32)
  {
    predicate Valid() { |middle| == 24 && |attributes| <= 0xFFFF }
  }

  /** Addresses and ports lie in memory in network order. */
  function AddressBytes(ip: IpAddr): Octets16 {
    if ip.V4? then ip.v4 + Zeros(12) else ip.v6
  }

  function PortBytes(port: U16): seq<Byte> {
    [port / 256, port % 256]
  }

  function DiagPayload(s: Socket, u: Unread): seq<Byte>
    requires s.Valid() && u.Valid()
  {
    [s.Family(), s.state, u.timer, u.retrans] + PortBytes(s.local.port) + PortBytes(s.remote.port)
    + AddressBytes(s.local.ip) + AddressBytes(s.remote.ip) + u.middle + ToLe32(s.uid) + ToLe32(s.inode) + u.attributes
  }

  function EntryOf(s: Socket, kind: Protocol): SocketEntry {
    SocketEntry(s.inode, s.local, s.remote, TcpStateToStr(s.state), s.uid, kind)
  }

  lemma AddressReads(b: Octets16)
    ensures ToBe32(FromBe32(WordAt(b, 0))) == b[0..4]
    ensures Ipv6FromBeWords(WordsAt(b, 0)) == b
  {
    forall i | i in {0, 4, 8, 12} ensures ToBe32(FromBe32(WordAt(b, i))) == b[i..i + 4] {
      NetworkOrder(WordAt(b, i));
      ToLe32RoundTrip(b[i..i + 4]);
    }
    assert b == b[0..4] + b[4..8] + b[8..12] + b[12..16];
  }

  lemma AddrFromDiag(addr: SocketAddr, family: Byte, b: Octets16)
    requires family == if addr.ip.V4? then 2 else 10
    requires b == AddressBytes(addr.ip)
    ensures SocketAddrFromDiag(family, WordsAt(b, 0), Le16(PortBytes(addr.port)[0], PortBytes(addr.port)[1]))
         == Some(addr)
  {
    AddressReads(b);
    PortOrder(addr.port);
    if addr.ip.V4? { assert b[0..4] == addr.ip.v4; }
  }

  lemma WordsInside(b: seq<Byte>, i: nat, part: Octets16)
    requires i + 16 <= |b| && b[i..i + 16] == part
    ensures WordsAt(b, i) == WordsAt(part, 0)
  {
    assert forall k :: 0 <= k < 16 ==> b[i + k] == part[k];
    assert b[i..i + 4] == part[0..4] && b[i + 4..i + 8] == part[4..8];
    assert b[i + 8..i + 12] == part[8..12] && b[i + 12..i + 16] == part[12..16];
  }

  function Front(s: Socket, u: Unread): seq<Byte> {
    [s.Family(), s.state, u.timer, u.retrans] + PortBytes(s.local.port) + PortBytes(s.remote.port)
  }

  lemma PayloadFront(s: Socket, u: Unread)
    requires s.Valid() && u.Valid()
    ensures var p := DiagPayload(s, u); |p| >= DIAG_LEN && p[..8] == Front(s, u)
    ensures DiagPayload(s, u)[8..24] == AddressBytes(s.local.ip)
    ensures DiagPayload(s, u)[24..40] == AddressBytes(s.remote.ip)
  {
  }

  lemma PayloadBack(s: Socket, u: Unread)
    requires s.Valid() && u.Valid()
    ensures WordAt(DiagPayload(s, u), 64) == s.uid && WordAt(DiagPayload(s, u), 68) == s.inode
  {
    var p := DiagPayload(s, u);
    var front := Front(s, u) + AddressBytes(s.local.ip) + AddressBytes(s.remote.ip) + u.middle;
    assert p == front + ToLe32(s.uid) + ToLe32(s.inode) + u.attributes;
    assert p[64..68] == ToLe32(s.uid);
    assert p[68..72] == ToLe32(s.inode);
    Le32RoundTrip(s.uid);
    Le32RoundTrip(s.inode);
  }

  lemma PayloadEnds(s: Socket, u: Unread)
    requires s.Valid() && u.Valid() && |DiagPayload(s, u)| >= DIAG_LEN
    ensures var p := DiagPayload(s, u);
            && SocketAddrFromDiag(s.Family(), WordsAt(p, 8),
                                  Le16(PortBytes(s.local.port)[0], PortBytes(s.local.port)[1]))
               == Some(s.local)
            && SocketAddrFromDiag(s.Family(), WordsAt(p, 24),
                                  Le16(PortBytes(s.remote.port)[0], PortBytes(s.remote.port)[1]))
               == Some(s.remote)
  {
    var p := DiagPayload(s, u);
    PayloadFront(s, u);
    WordsInside(p, 8, AddressBytes(s.local.ip));
    WordsInside(p, 24, AddressBytes(s.remote.ip));
    AddrFromDiag(s.local, s.Family(), AddressBytes(s.local.ip));
    AddrFromDiag(s.remote, s.Family(), AddressBytes(s.remote.ip));
  }

  lemma FrontReads(p: seq<Byte>, s: Socket, u: Unread)
    requires |p| >= 8 && p[..8] == Front(s, u)
    ensures p[0] == s.Family() && p[1] == s.state
    ensures p[4] == PortBytes(s.local.port)[0] && p[5] == PortBytes(s.local.port)[1]
    ensures p[6] == PortBytes(s.remote.port)[0] && p[7] == PortBytes(s.remote.port)[1]
  {
    assert forall i :: 0 <= i < 8 ==> p[i] == p[..8][i];
  }

  /** The decoder reads the socket the kernel wrote, whatever stands in the other fields. */
  lemma DiagReadsBack(s: Socket, u: Unread, kind: Protocol)
    requires s.Valid() && u.Valid()
    ensures ParseInetDiagMessage(DiagPayload(s, u), kind) == Ok(EntryOf(s, kind))
  {
    PayloadFront(s, u);
    FrontReads(DiagPayload(s, u), s, u);
    PayloadBack(s, u);
    PayloadEnds(s, u);
  }

  // ---- A whole dump ----

  /** The table of a list of sockets: of two with one inode, the later stands. */
  function TableOf(sockets: seq<Socket>, kind: Protocol, table: Table): Table
    decreases |sockets|
  {
    if sockets == [] then table
    else TableOf(sockets[1..], kind, table[sockets[0].inode := EntryOf(sockets[0], kind)])
  }

  datatype Reported = Reported(socket: Socket, unread: Unread) {
    predicate Valid() { socket.Valid() && unread.Valid() }
  }

  function SocketMessage(r: Reported): Message
    requires r.Valid()
  {
    Message(20, r.unread.flags, r.unread.sequence, r.unread.portId,
            DiagPayload(r.socket, r.unread))
  }

  predicate AllReported(rs: seq<Reported>) {
    forall r :: r in rs ==> r.Valid()
  }

  function DumpMessages(rs: seq<Reported>): seq<Message>
    requires AllReported(rs)
  {
    if rs == [] then [] else [SocketMessage(rs[0])] + DumpMessages(rs[1..])
  }

  lemma SocketActs(r: Reported, kind: Protocol, table: Table)
    requires r.Valid()
    ensures Act(SocketMessage(r).ty, SocketMessage(r).payload, kind, table)
         == Next(table[r.socket.inode := EntryOf(r.socket, kind)])
  {
    DiagReadsBack(r.socket, r.unread, kind);
  }

  function SocketsOf(rs: seq<Reported>): seq<Socket> {
    if rs == [] then [] else [rs[0].socket] + SocketsOf(rs[1..])
  }

  lemma {:induction false} DumpMeansTable(rs: seq<Reported>, done: Message, after: seq<Message>, kind: Protocol,
                                          table: Table)
    requires AllReported(rs)
    requires done.ty == 3
    ensures Interpret(DumpMessages(rs) + [done] + after, kind, table)
         == Parsed(Ok(true), TableOf(SocketsOf(rs), kind, table))
    decreases |rs|
  {
    var all := DumpMessages(rs) + [done] + after;
    if rs == [] {
      assert all[0] == done;
    } else {
      assert all[0] == SocketMessage(rs[0]);
      assert all[1..] == DumpMessages(rs[1..]) + [done] + after;
      SocketActs(rs[0], kind, table);
      assert SocketsOf(rs)[1..] == SocketsOf(rs[1..]);
      DumpMeansTable(rs[1..], done, after, kind, table[rs[0].socket.inode := EntryOf(rs[0].socket, kind)]);
    }
  }

  /** Any dump of any sockets, cut into datagrams anywhere, yields exactly their table. */
  lemma DumpIsDecoded(chunks: seq<seq<Message>>, rs: seq<Reported>, done: Message, after: seq<Message>,
                      kind: Protocol, table: Table)
    requires ValidChunks(chunks) && AllReported(rs)
    requires done.ty == 3 && Flatten(chunks) == DumpMessages(rs) + [done] + after
    ensures Query(Datagrams(chunks), kind, table).result == Ok(())
    ensures Query(Datagrams(chunks), kind, table).table == TableOf(SocketsOf(rs), kind, table)
  {
    BoundariesDoNotMatter(chunks, kind, table);
    DumpMeansTable(rs, done, after, kind, table);
  }

  // ---- One dump after another ----

  /** What stands behind a dump that has ended is left alone. */
  lemma {:induction false} QueryStops(a: seq<seq<Byte>>, b: seq<seq<Byte>>, kind: Protocol, table: Table)
    requires Query(a, kind, table).result.Ok?
    ensures Query(a + b, kind, table) == Query(a, kind, table)
    decreases |a|
  {
    var parsed := ParseRest(a[0], kind, table);
    if !parsed.result.value {
      assert (a + b)[1..] == a[1..] + b;
      QueryStops(a[1..], b, kind, parsed.table);
    }
  }

  lemma {:induction false} FlattenFront(chunks: seq<seq<Message>>, n: nat)
    requires n <= |chunks|
    ensures Flatten(chunks[..n]) <= Flatten(chunks)
    ensures forall k :: n <= k <= |chunks| ==> |Flatten(chunks[..n])| <= |Flatten(chunks[..k])|
    decreases n
  {
    if n > 0 {
      FlattenFront(chunks[1..], n - 1);
      assert chunks[..n][1..] == chunks[1..][..n - 1];
      forall k | n <= k <= |chunks| ensures |Flatten(chunks[..n])| <= |Flatten(chunks[..k])| {
        assert chunks[..k][1..] == chunks[1..][..k - 1];
      }
    }
  }

  lemma {:induction false} MessageCount(rs: seq<Reported>)
    requires AllReported(rs)
    ensures |DumpMessages(rs)| == |rs|
    decreases |rs|
  {
    if |rs| > 0 { MessageCount(rs[1..]); }
  }

  lemma SocketGoesOn(r: Reported, ms: seq<Message>, kind: Protocol, table: Table)
    requires r.Valid()
    ensures Interpret([SocketMessage(r)] + ms, kind, table)
         == Interpret(ms, kind, table[r.socket.inode := EntryOf(r.socket, kind)])
  {
    SocketActs(r, kind, table);
    assert ([SocketMessage(r)] + ms)[1..] == ms;
  }

  /** Without a done message a dump goes on, with the table of the sockets so far. */
  lemma {:induction false} SocketsGoOn(rs: seq<Reported>, kind: Protocol, table: Table)
    requires AllReported(rs)
    ensures Interpret(DumpMessages(rs), kind, table) == Parsed(Ok(false), TableOf(SocketsOf(rs), kind, table))
    decreases |rs|
  {
    if |rs| > 0 {
      var next := table[rs[0].socket.inode := EntryOf(rs[0].socket, kind)];
      SocketGoesOn(rs[0], DumpMessages(rs[1..]), kind, table);
      SocketsGoOn(rs[1..], kind, next);
      assert SocketsOf(rs)[1..] == SocketsOf(rs[1..]);
    }
  }

  lemma {:induction false} FirstSockets(rs: seq<Reported>, n: nat)
    requires AllReported(rs) && n <= |rs|
    ensures AllReported(rs[..n]) && n <= |DumpMessages(rs)| && DumpMessages(rs)[..n] == DumpMessages(rs[..n])
    decreases n
  {
    MessageCount(rs);
    if n > 0 {
      FirstSockets(rs[1..], n - 1);
      assert rs[..n][1..] == rs[1..][..n - 1];
    }
  }

  lemma SocketsUndecided(rs: seq<Reported>, n: nat, kind: Protocol, table: Table)
    requires AllReported(rs) && n <= |rs|
    ensures n <= |DumpMessages(rs)| && Interpret(DumpMessages(rs)[..n], kind, table).result == Ok(false)
  {
    FirstSockets(rs, n);
    SocketsGoOn(rs[..n], kind, table);
  }

  /** One answer of the kernel: messages cut into datagrams somewhere, for some sockets, ended by a
      done message in the last datagram, which others may follow there. */
  datatype Dump = Dump(chunks: seq<seq<Message>>, reported: seq<Reported>, done: Message, after: seq<Message>) {
    ghost predicate Valid() {
      && ValidChunks(chunks) && AllReported(reported)
      && done.ty == 3 && Flatten(chunks) == DumpMessages(reported) + [done] + after
      && |chunks| > 0 && |Flatten(chunks[..|chunks| - 1])| <= |reported|
    }
  }

  lemma FrontUndecided(d: Dump, n: nat, kind: Protocol, table: Table)
    requires d.Valid() && n < |d.chunks|
    ensures Undecided(d.chunks, n, kind, table)
  {
    FlattenFront(d.chunks, n);
    MessageCount(d.reported);
    SocketsUndecided(d.reported, |Flatten(d.chunks[..n])|, kind, table);
    assert Flatten(d.chunks[..n]) == Flatten(d.chunks)[..|Flatten(d.chunks[..n])|];
    assert Flatten(d.chunks[..n]) == DumpMessages(d.reported)[..|Flatten(d.chunks[..n])|];
  }

  /** A dump is read to its last datagram and no further, whatever follows. */
  lemma DumpIsTaken(d: Dump, rest: seq<seq<Byte>>, kind: Protocol, table: Table)
    requires d.Valid()
    ensures Query(Datagrams(d.chunks) + rest, kind, table)
         == Queried(Ok(()), TableOf(SocketsOf(d.reported), kind, table), |Datagrams(d.chunks)|)
  {
    DumpIsDecoded(d.chunks, d.reported, d.done, d.after, kind, table);
    QueryStops(Datagrams(d.chunks), rest, kind, table);
    StopsAtFirstDecision(d.chunks, kind, table);
    DatagramCount(d.chunks);
    var used := Query(Datagrams(d.chunks), kind, table).used;
    if used < |d.chunks| { FrontUndecided(d, used, kind, table); }
  }

  lemma {:induction false} DatagramCount(chunks: seq<seq<Message>>)
    requires ValidChunks(chunks)
    ensures |Datagrams(chunks)| == |chunks|
    decreases |chunks|
  {
    if chunks != [] { DatagramCount(chunks[1..]); }
  }

  // ---- The request ----

  /** The request is itself one well-formed message: a dump of every state, no endpoint filter. */
  method BuildInetDiagRequest(family: Byte, protocol: Byte) returns (request: seq<Byte>)
    ensures request == Encode(Message(20, 0x0301, 1, 0,
                                      [family, protocol, 0, 0] + ToLe32(U32_MAX) + Zeros(48)))
    ensures WordAt(request, 0) == |request| == 72
  {
    ghost var m := Message(20, 0x0301, 1, 0,
                           [family, protocol, 0, 0] + ToLe32(U32_MAX) + Zeros(48));
    var header := ToLe32(HEADER_LEN + 56) + ToLe16(SOCK_DIAG_BY_FAMILY_TYPE) + ToLe16(NLMSG_FLAG_DUMP_REQUEST)
                + ToLe32(NETLINK_REQUEST_SEQUENCE) + ToLe32(0);
    var id := ToLe16(0) + ToLe16(0) + Zeros(16) + Zeros(16) + ToLe32(0) + Zeros(8);
    assert id == Zeros(48);
    request := [];
    request := request + header;
    request := request + ([family, protocol, 0, 0] + ToLe32(U32_MAX) + id);
    assert header == Header(m) && request == header + m.payload + Padding(m);
    FirstLength(m, []);
    assert Encode(m) + [] == request;
  }
}
