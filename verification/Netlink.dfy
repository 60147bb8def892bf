/** The decoder of sock_diag dumps: a stream of length-prefixed messages, each padded to four
    bytes, spread over any number of datagrams (RFC 3549 section 2.3.2). */
module Netlink {
  import opened Net
  import opened Words

  const AF_INET_FAMILY: Byte := 2
  const AF_INET6_FAMILY: Byte := 10
  const SOCK_DIAG_BY_FAMILY_TYPE: U16 := 20
  const NLMSG_DONE_TYPE: U16 := 3
  const NLMSG_ERROR_TYPE: U16 := 2
  const NLMSG_FLAG_DUMP_REQUEST: U16 := 0x0301
  const NETLINK_REQUEST_SEQUENCE: U32 := 1
  const HEADER_LEN: nat := 16
  const DIAG_LEN: nat := 72
  const ERROR_LEN: nat := 20

  datatype Error = RecvFailed | KernelError(errno: int) | ParseError
  datatype Result<+T> = Ok(value: T) | Err(error: Error)

  datatype SocketEntry = SocketEntry(
    inode: U64, localAddr: SocketAddr, remoteAddr: SocketAddr, state: string, uid: U32, protocol: Protocol)

  type Table = map<U64, SocketEntry>

  // ---- One message ----

  function NlmsgAlign(len: nat): nat
    requires len + 3 <= U64_MAX
  {
    BitAnd(len + 3, NOT_THREE)
  }

  /** The bit trick gives the least multiple of four that is no smaller. */
  lemma AlignIsLeast(len: nat)
    requires len + 3 <= U64_MAX
    ensures NlmsgAlign(len) % 4 == 0 && len <= NlmsgAlign(len) < len + 4
  {
    ClearLowBits(len + 3);
  }

  function TcpStateToStr(state: Byte): string {
    match state
    case 1 => "ESTABLISHED"
    case 2 => "SYN_SENT"
    case 3 => "SYN_RECV"
    case 4 => "FIN_WAIT1"
    case 5 => "FIN_WAIT2"
    case 6 => "TIME_WAIT"
    case 7 => "CLOSE"
    case 8 => "CLOSE_WAIT"
    case 9 => "LAST_ACK"
    case 10 => "LISTEN"
    case 11 => "CLOSING"
    case _ => "UNKNOWN"
  }

  type Words4 = w: seq<U32> | |w| == 4 witness [0, 0, 0, 0]

  function WordAt(b: seq<Byte>, i: nat): U32
    requires i + 4 <= |b|
  {
    Le32(b[i..i + 4])
  }

  function WordsAt(b: seq<Byte>, i: nat): Words4
    requires i + 16 <= |b|
  {
    [WordAt(b, i), WordAt(b, i + 4), WordAt(b, i + 8), WordAt(b, i + 12)]
  }

  function Ipv6FromBeWords(words: Words4): Octets16 {
    ToBe32(FromBe32(words[0])) + ToBe32(FromBe32(words[1])) + ToBe32(FromBe32(words[2])) + ToBe32(FromBe32(words[3]))
  }

  /** The bytes of the first `n` words. */
  function BeBytes(words: Words4, n: nat): seq<Byte>
    requires n <= 4
  {
    if n == 0 then [] else BeBytes(words, n - 1) + ToBe32(FromBe32(words[n - 1]))
  }

  lemma FourWords(words: Words4)
    ensures BeBytes(words, 4) == Ipv6FromBeWords(words)
  {
    assert BeBytes(words, 1) == ToBe32(FromBe32(words[0]));
    assert BeBytes(words, 2) == BeBytes(words, 1) + ToBe32(FromBe32(words[1]));
    assert BeBytes(words, 3) == BeBytes(words, 2) + ToBe32(FromBe32(words[2]));
  }

  /** Fills the address word by word. */
  method FillIpv6FromBeWords(words: Words4) returns (bytes: Octets16)
    ensures bytes == Ipv6FromBeWords(words)
  {
    var buffer := new Byte[16](_ => 0);
    for index := 0 to 4
      invariant buffer[..4 * index] == BeBytes(words, index)
    {
      StoreWord(buffer, 4 * index, ToBe32(FromBe32(words[index])));
    }
    FourWords(words);
    assert buffer[..16] == buffer[..];
    bytes := buffer[..];
  }

  function SocketAddrFromDiag(family: Byte, words: Words4, rawPort: U16): Option<SocketAddr> {
    var port := FromBe16(rawPort);
    if family == AF_INET_FAMILY then Some(SocketAddr(V4(ToBe32(FromBe32(words[0]))), port))
    else if family == AF_INET6_FAMILY then Some(SocketAddr(V6(Ipv6FromBeWords(words)), port))
    else None
  }

  function ParseInetDiagMessage(payload: seq<Byte>, kind: Protocol): Result<SocketEntry> {
    if |payload| < DIAG_LEN then Err(ParseError)
    else
      var local := SocketAddrFromDiag(payload[0], WordsAt(payload, 8), Le16(payload[4], payload[5]));
      var remote := SocketAddrFromDiag(payload[0], WordsAt(payload, 24), Le16(payload[6], payload[7]));
      if local.None? || remote.None? then Err(ParseError)
      else Ok(SocketEntry(WordAt(payload, 68), local.value, remote.value, TcpStateToStr(payload[1]),
                          WordAt(payload, 64), kind))
  }

  method ReadSocketAddr(family: Byte, words: Words4, rawPort: U16) returns (r: Option<SocketAddr>)
    ensures r == SocketAddrFromDiag(family, words, rawPort)
  {
    var port := FromBe16(rawPort);
    if family == AF_INET_FAMILY { return Some(SocketAddr(V4(ToBe32(FromBe32(words[0]))), port)); }
    if family == AF_INET6_FAMILY {
      var bytes := FillIpv6FromBeWords(words);
      return Some(SocketAddr(V6(bytes), port));
    }
    r := None;
  }

  method ReadInetDiagMessage(payload: seq<Byte>, kind: Protocol) returns (r: Result<SocketEntry>)
    ensures r == ParseInetDiagMessage(payload, kind)
  {
    if |payload| < DIAG_LEN { return Err(ParseError); }
    var local := ReadSocketAddr(payload[0], WordsAt(payload, 8), Le16(payload[4], payload[5]));
    if local.None? { return Err(ParseError); }
    var remote := ReadSocketAddr(payload[0], WordsAt(payload, 24), Le16(payload[6], payload[7]));
    if remote.None? { return Err(ParseError); }
    var inode, uid := WordAt(payload, 68), WordAt(payload, 64);
    r := Ok(SocketEntry(inode, local.value, remote.value, TcpStateToStr(payload[1]), uid, kind));
  }

  /** Reads an `i32`. */
  function Signed32(w: U32): int {
    if w < 0x8000_0000 then w else w - 0x1_0000_0000
  }

  /** The error number, negated in 32 bits. */
  function ParseKernelError(payload: seq<Byte>): Result<int> {
    if |payload| < ERROR_LEN then Err(ParseError)
    else
      var error := Signed32(WordAt(payload, 0));
      Ok(if error == -0x8000_0000 then error else -error)
  }

  // ---- One datagram ----

  /** What one message does: it ends the decoding, or leaves a table to go on with. */
  datatype Step = Stop(result: Result<bool>) | Next(table: Table)

  function Act(ty: U16, payload: seq<Byte>, kind: Protocol, table: Table): Step {
    if ty == NLMSG_DONE_TYPE then Stop(Ok(true))
    else if ty == NLMSG_ERROR_TYPE then
      var e := ParseKernelError(payload);
      Stop(Err(if e.Ok? then KernelError(e.value) else e.error))
    else if ty == SOCK_DIAG_BY_FAMILY_TYPE then
      var entry := ParseInetDiagMessage(payload, kind);
      if entry.Err? then Stop(Err(entry.error)) else Next(table[entry.value.inode := entry.value])
    else Next(table)
  }

  datatype Parsed = Parsed(result: Result<bool>, table: Table)

  function Skip(bytes: seq<Byte>, len: U32): seq<Byte> {
    var n := NlmsgAlign(len);
    if n <= |bytes| then bytes[n..] else []
  }

  /** A length below that of the header leaves an empty payload. */
  function Payload(bytes: seq<Byte>, len: nat): seq<Byte>
    requires HEADER_LEN <= |bytes| && len <= |bytes|
  {
    bytes[HEADER_LEN..HEADER_LEN + if len < HEADER_LEN then 0 else len - HEADER_LEN]
  }

  /** Everything the decoder does with the bytes it has not read yet. */
  function ParseRest(bytes: seq<Byte>, kind: Protocol, table: Table): Parsed
    decreases |bytes|
  {
    if |bytes| < HEADER_LEN then Parsed(Ok(false), table)
    else
      var len := WordAt(bytes, 0);
      if len == 0 || len > |bytes| then Parsed(Err(ParseError), table)
      else
        var step := Act(Le16(bytes[4], bytes[5]), Payload(bytes, len), kind, table);
        if step.Stop? then Parsed(step.result, table)
        else
          AlignIsLeast(len);
          ParseRest(Skip(bytes, len), kind, step.table)
  }

  function From(bytes: seq<Byte>, offset: nat): seq<Byte> {
    if offset <= |bytes| then bytes[offset..] else []
  }

  lemma SkipIsFrom(bytes: seq<Byte>, offset: nat, len: U32)
    requires offset <= |bytes| && 0 < len
    ensures Skip(bytes[offset..], len) == From(bytes, offset + NlmsgAlign(len))
    ensures NlmsgAlign(len) > 0
  {
    AlignIsLeast(len);
  }

  /** Handles one message; the caller's table changes only if decoding goes on. */
  method HandleMessage(messageType: U16, payload: seq<Byte>, kind: Protocol, table: Table) returns (step: Step)
    ensures step == Act(messageType, payload, kind, table)
  {
    if messageType == NLMSG_DONE_TYPE { return Stop(Ok(true)); }
    if messageType == NLMSG_ERROR_TYPE {
      var kernelError := ParseKernelError(payload);
      if kernelError.Err? { return Stop(Err(kernelError.error)); }
      return Stop(Err(KernelError(kernelError.value)));
    }
    if messageType == SOCK_DIAG_BY_FAMILY_TYPE {
      var entry := ReadInetDiagMessage(payload, kind);
      if entry.Err? { return Stop(Err(entry.error)); }
      return Next(table[entry.value.inode := entry.value]);
    }
    step := Next(table);
  }

  /** What the decoder does with the bytes from `offset` on, message by message. */
  lemma NextMessage(bytes: seq<Byte>, offset: nat, kind: Protocol, table: Table)
    requires offset + HEADER_LEN <= |bytes|
    ensures var rest := bytes[offset..]; var len := WordAt(rest, 0);
            ParseRest(From(bytes, offset), kind, table)
            == if len == 0 || len > |rest| then Parsed(Err(ParseError), table)
               else
                 var step := Act(Le16(rest[4], rest[5]), Payload(rest, len), kind, table);
                 if step.Stop? then Parsed(step.result, table)
                 else ParseRest(From(bytes, offset + NlmsgAlign(len)), kind, step.table)
    ensures WordAt(bytes[offset..], 0) > 0 ==> NlmsgAlign(WordAt(bytes[offset..], 0)) > 0
  {
    var rest := bytes[offset..];
    if WordAt(rest, 0) > 0 { SkipIsFrom(bytes, offset, WordAt(rest, 0)); }
  }

  /** Reads the message at `offset`: either decoding ends, or it goes on at `next`. */
  method ReadMessage(bytes: seq<Byte>, offset: nat, kind: Protocol, table: Table) returns (step: Step, next: nat)
    requires offset + HEADER_LEN <= |bytes|
    ensures next > offset
    ensures ParseRest(From(bytes, offset), kind, table)
         == if step.Stop? then Parsed(step.result, table) else ParseRest(From(bytes, next), kind, step.table)
  {
    NextMessage(bytes, offset, kind, table);
    var rest := bytes[offset..];
    var messageLen := WordAt(rest, 0);
    if messageLen == 0 { return Stop(Err(ParseError)), offset + 1; }
    if offset + messageLen > |bytes| { return Stop(Err(ParseError)), offset + 1; }
    step := HandleMessage(Le16(rest[4], rest[5]), Payload(rest, messageLen), kind, table);
    next := offset + NlmsgAlign(messageLen);
  }

  /** The decoder's loop. It terminates on every input and never reads outside it. */
  method ParseResponseMessages(bytes: seq<Byte>, kind: Protocol, before: Table)
      returns (result: Result<bool>, table: Table)
    ensures Parsed(result, table) == ParseRest(bytes, kind, before)
  {
    var offset := 0;
    table := before;
    while offset + HEADER_LEN <= |bytes|
      invariant ParseRest(bytes, kind, before) == ParseRest(From(bytes, offset), kind, table)
      decreases |bytes| - offset
    {
      var step, next := ReadMessage(bytes, offset, kind, table);
      if step.Stop? { return step.result, table; }
      table := step.table;
      offset := next;
    }
    return Ok(false), table;
  }

  /** Whatever the bytes, every entry stays filed under its own inode. */
  ghost predicate FiledByInode(table: Table) {
    forall k :: k in table ==> table[k].inode == k
  }

  lemma {:induction false} ParseKeepsFiling(bytes: seq<Byte>, kind: Protocol, table: Table)
    requires FiledByInode(table)
    ensures FiledByInode(ParseRest(bytes, kind, table).table)
    decreases |bytes|
  {
    if |bytes| >= HEADER_LEN && 0 < WordAt(bytes, 0) <= |bytes| {
      var len := WordAt(bytes, 0);
      var step := Act(Le16(bytes[4], bytes[5]), Payload(bytes, len), kind, table);
      if step.Next? {
        AlignIsLeast(len);
        ParseKeepsFiling(Skip(bytes, len), kind, step.table);
      }
    }
  }

  // ---- A dump: datagrams until one of them ends it ----

  datatype Queried = Queried(result: Result<()>, table: Table, used: nat)

  /** `used` counts the datagrams received. */
  function Query(datagrams: seq<seq<Byte>>, kind: Protocol, table: Table): (q: Queried)
    ensures q.used <= |datagrams|
    decreases |datagrams|
  {
    if datagrams == [] then Queried(Err(RecvFailed), table, 0)
    else if datagrams[0] == [] then Queried(Err(ParseError), table, 1)
    else
      var parsed := ParseRest(datagrams[0], kind, table);
      if parsed.result.Err? then Queried(Err(parsed.result.error), parsed.table, 1)
      else if parsed.result.value then Queried(Ok(()), parsed.table, 1)
      else
        var rest := Query(datagrams[1..], kind, parsed.table);
        rest.(used := rest.used + 1)
  }

  /** The receive loop. `datagrams` is what the socket will deliver; receiving fails after that. */
  method QueryFamilyProtocol(datagrams: seq<seq<Byte>>, kind: Protocol, before: Table)
      returns (result: Result<()>, table: Table, used: nat)
    ensures Queried(result, table, used) == Query(datagrams, kind, before)
  {
    table, used := before, 0;
    while true
      invariant used <= |datagrams|
      invariant Query(datagrams, kind, before)
             == (var rest := Query(datagrams[used..], kind, table); rest.(used := rest.used + used))
      decreases |datagrams| - used
    {
      if used == |datagrams| { return Err(RecvFailed), table, used; }
      var received := datagrams[used];
      assert datagrams[used..][1..] == datagrams[used + 1..];
      used := used + 1;
      if received == [] { return Err(ParseError), table, used; }
      var done: Result<bool>;
      done, table := ParseResponseMessages(received, kind, table);
      if done.Err? { return Err(done.error), table, used; }
      if done.value { break; }
    }
    result := Ok(());
  }

  // ---- All four dumps ----

  /** The table so far, and the datagrams that the socket has still to deliver. */
  datatype Progress = Progress(table: Table, rest: seq<seq<Byte>>)

  function AndThen(r: Result<Progress>, kind: Protocol): Result<Progress> {
    if r.Err? then r
    else
      var q := Query(r.value.rest, kind, r.value.table);
      if q.result.Err? then Err(q.result.error) else Ok(Progress(q.table, r.value.rest[q.used..]))
  }

  /** All four dumps come over one socket: what one of them leaves, the next one reads. */
  function QueryAll(datagrams: seq<seq<Byte>>): Result<Table> {
    var r := AndThen(AndThen(AndThen(AndThen(Ok(Progress(map[], datagrams)), Tcp), Udp), Tcp), Udp);
    if r.Err? then Err(r.error) else Ok(r.value.table)
  }

  /** Asks for the four tables in turn; the first failure discards what was read. */
  method QuerySockets(datagrams: seq<seq<Byte>>) returns (r: Result<Table>)
    ensures r == QueryAll(datagrams)
  {
    var rest := datagrams;
    var result, table, used := QueryFamilyProtocol(rest, Tcp, map[]);
    if result.Err? { return Err(result.error); }
    rest := rest[used..];
    result, table, used := QueryFamilyProtocol(rest, Udp, table);
    if result.Err? { return Err(result.error); }
    rest := rest[used..];
    result, table, used := QueryFamilyProtocol(rest, Tcp, table);
    if result.Err? { return Err(result.error); }
    rest := rest[used..];
    result, table, used := QueryFamilyProtocol(rest, Udp, table);
    if result.Err? { return Err(result.error); }
    r := Ok(table);
  }

  lemma {:induction false} QueryKeepsFiling(datagrams: seq<seq<Byte>>, kind: Protocol, table: Table)
    requires FiledByInode(table)
    ensures FiledByInode(Query(datagrams, kind, table).table)
    decreases |datagrams|
  {
    if datagrams != [] && datagrams[0] != [] {
      ParseKeepsFiling(datagrams[0], kind, table);
      QueryKeepsFiling(datagrams[1..], kind, ParseRest(datagrams[0], kind, table).table);
    }
  }

  lemma AndThenKeepsFiling(r: Result<Progress>, kind: Protocol)
    requires r.Ok? ==> FiledByInode(r.value.table)
    ensures var next := AndThen(r, kind); next.Ok? ==> FiledByInode(next.value.table)
  {
    if r.Ok? { QueryKeepsFiling(r.value.rest, kind, r.value.table); }
  }

  /** Whatever the kernel answers, the resulting table is filed by inode. */
  lemma QueryAllFiles(datagrams: seq<seq<Byte>>)
    ensures QueryAll(datagrams).Ok? ==> FiledByInode(QueryAll(datagrams).value)
  {
    var a: Result<Progress> := Ok(Progress(map[], datagrams));
    AndThenKeepsFiling(a, Tcp);
    AndThenKeepsFiling(AndThen(a, Tcp), Udp);
    AndThenKeepsFiling(AndThen(AndThen(a, Tcp), Udp), Tcp);
    AndThenKeepsFiling(AndThen(AndThen(AndThen(a, Tcp), Udp), Tcp), Udp);
  }
}
