/** The two ways of listing sockets agree: what netlink says of a list of sockets, and what the
    text tables say of it. */
module DecoderAgreement {
  import opened Net
  import opened Words
  import opened Text
  import opened Netlink
  import opened NetlinkDumps
  import opened ProcFallback

  // ---- One endpoint ----

  /** The kernel prints addresses word by word, each word as the host reads it from memory. */
  function IpText(ip: IpAddr): string {
    if ip.V4? then Hex(Le32(ip.v4), 8)
    else Hex(WordAt(ip.v6, 0), 8) + Hex(WordAt(ip.v6, 4), 8) + Hex(WordAt(ip.v6, 8), 8) + Hex(WordAt(ip.v6, 12), 8)
  }

  function EndpointText(addr: SocketAddr): string {
    IpText(addr.ip) + [':'] + Hex(addr.port, 4)
  }

  lemma WordReads(b: Octets4)
    ensures |Hex(Le32(b), 8)| == 8 && FromStrRadix(Hex(Le32(b), 8), 16, U32_MAX) == Some(Le32(b))
    ensures ToLe32(Le32(b)) == b
    ensures forall c :: c in Hex(Le32(b), 8) ==> '0' <= c <= '9' || 'A' <= c <= 'F'
  {
    WordFits(Le32(b));
    HexParses(Le32(b), 8, U32_MAX);
    HexLetters(Le32(b), 8);
    ToLe32RoundTrip(b);
  }

  lemma Quarters(a: string, b: string, c: string, d: string)
    requires |a| == |b| == |c| == |d| == 8
    ensures var s := a + b + c + d; s[0..8] == a && s[8..16] == b && s[16..24] == c && s[24..32] == d
  {
  }

  lemma HexWordLength(b: Octets4)
    ensures |Hex(Le32(b), 8)| == 8
  {
    WordReads(b);
  }

  lemma GroupReads(hex: string, n: nat, front: seq<Byte>, b: Octets4)
    requires 8 * n + 8 <= |hex| && HexWords(hex, n) == Some(front)
    requires hex[8 * n..8 * (n + 1)] == Hex(Le32(b), 8)
    ensures HexWords(hex, n + 1) == Some(front + b)
  {
    WordReads(b);
  }

  lemma FourGroups(a: Octets4, b: Octets4, c: Octets4, d: Octets4)
    ensures var hex := Hex(Le32(a), 8) + Hex(Le32(b), 8) + Hex(Le32(c), 8) + Hex(Le32(d), 8);
            |hex| == 32 && HexWords(hex, 4) == Some([] + a + b + c + d)
  {
    var hex := Hex(Le32(a), 8) + Hex(Le32(b), 8) + Hex(Le32(c), 8) + Hex(Le32(d), 8);
    HexWordLength(a);
    HexWordLength(b);
    HexWordLength(c);
    HexWordLength(d);
    Quarters(Hex(Le32(a), 8), Hex(Le32(b), 8), Hex(Le32(c), 8), Hex(Le32(d), 8));
    GroupReads(hex, 0, [], a);
    GroupReads(hex, 1, [] + a, b);
    GroupReads(hex, 2, [] + a + b, c);
    GroupReads(hex, 3, [] + a + b + c, d);
  }

  lemma Rejoined(v6: Octets16)
    ensures [] + v6[0..4] + v6[4..8] + v6[8..12] + v6[12..16] == v6
  {
  }

  lemma Ipv6Reads(v6: Octets16)
    ensures |IpText(V6(v6))| == 32 && HexWords(IpText(V6(v6)), 4) == Some(v6)
  {
    FourGroups(v6[0..4], v6[4..8], v6[8..12], v6[12..16]);
    Rejoined(v6);
  }

  lemma WordHasNoColon(b: Octets4)
    ensures ':' !in Hex(Le32(b), 8)
  {
    WordReads(b);
  }

  lemma NoColon(ip: IpAddr)
    ensures ':' !in IpText(ip)
  {
    if ip.V4? {
      WordHasNoColon(ip.v4);
    } else {
      WordHasNoColon(ip.v6[0..4]);
      WordHasNoColon(ip.v6[4..8]);
      WordHasNoColon(ip.v6[8..12]);
      WordHasNoColon(ip.v6[12..16]);
    }
  }

  lemma IpReads(ip: IpAddr)
    ensures ':' !in IpText(ip) && ParseProcIp(IpText(ip), ip.V4?) == Some(ip)
  {
    NoColon(ip);
    if ip.V4? { WordReads(ip.v4); } else { Ipv6Reads(ip.v6); }
  }

  /** The text of an endpoint is read back as that endpoint. */
  lemma EndpointReads(addr: SocketAddr)
    ensures EndpointOf(EndpointText(addr), addr.ip.V4?) == Some(addr)
  {
    var ip, port := IpText(addr.ip), Hex(addr.port, 4);
    IpReads(addr.ip);
    WordFits(addr.port);
    HexParses(addr.port, 4, U16_MAX);
    HexLetters(addr.port, 4);
    BeforeFirst(ip, ':', port);
    BeforeFirst(port, ':', "");
    assert EndpointText(addr)[|ip| + 1..] == port;
  }

  /** The raw words of one address, in a netlink message and in a text table, are decoded alike. */
  lemma EndpointsAgree(addr: SocketAddr)
    ensures EndpointOf(EndpointText(addr), addr.ip.V4?)
         == SocketAddrFromDiag(if addr.ip.V4? then 2 else 10,
                               WordsAt(AddressBytes(addr.ip), 0),
                               Le16(PortBytes(addr.port)[0], PortBytes(addr.port)[1]))
  {
    EndpointReads(addr);
    AddrFromDiag(addr, if addr.ip.V4? then 2 else 10, AddressBytes(addr.ip));
  }

  /** The kernel's TCP states from 1 on. */
  const TCP_STATES: seq<string> := ["ESTABLISHED", "SYN_SENT", "SYN_RECV", "FIN_WAIT1", "FIN_WAIT2", "TIME_WAIT",
                                    "CLOSE", "CLOSE_WAIT", "LAST_ACK", "LISTEN", "CLOSING"]

  /** Both tables of TCP states give every byte the same label, which is the kernel's. */
  lemma StatesAgree(state: Byte)
    ensures ParseTcpState(Hex(state, 2), Tcp) == TcpStateToStr(state)
    ensures TcpStateToStr(state) == if 1 <= state <= 11 then TCP_STATES[state - 1] else "UNKNOWN"
  {
    WordFits(state);
    HexParses(state, 2, 255);
  }

  // ---- One row ----

  /** Columns that the reader does not look at, and the blanks between the columns. */
  datatype Extra = Extra(slot: string, middle: seq<string>, more: seq<string>, pads: seq<nat>) {
    predicate Valid() {
      && IsWord(slot) && |middle| == 5 && |pads| == 10 + |more|
      && (forall i :: 0 <= i < |middle| ==> IsWord(middle[i]))
      && (forall i :: 0 <= i < |more| ==> IsWord(more[i]))
      && forall i :: 0 < i < |pads| ==> pads[i] > 0
    }
  }

  function Columns(s: Socket, x: Extra): seq<string> {
    [x.slot, EndpointText(s.local), EndpointText(s.remote), Hex(s.state, 2)] + x.middle + [Decimal(s.inode)] + x.more
  }

  lemma HexIsWord(n: nat, w: nat)
    requires w > 0 && HexFits(n, w)
    ensures IsWord(Hex(n, w))
  {
    HexLetters(n, w);
  }

  lemma EndpointIsWord(addr: SocketAddr)
    ensures IsWord(EndpointText(addr))
  {
    WordFits(addr.port);
    HexIsWord(addr.port, 4);
    if addr.ip.V4? {
      WordFits(Le32(addr.ip.v4));
      HexIsWord(Le32(addr.ip.v4), 8);
    } else {
      forall i | i in {0, 4, 8, 12} ensures IsWord(Hex(WordAt(addr.ip.v6, i), 8)) {
        WordFits(WordAt(addr.ip.v6, i));
        HexIsWord(WordAt(addr.ip.v6, i), 8);
      }
    }
  }

  lemma ColumnsAreWords(s: Socket, x: Extra)
    requires x.Valid()
    ensures forall i :: 0 <= i < |Columns(s, x)| ==> IsWord(Columns(s, x)[i])
  {
    EndpointIsWord(s.local);
    EndpointIsWord(s.remote);
    WordFits(s.state);
    HexIsWord(s.state, 2);
    DecimalReads(s.inode);
  }

  /** What the text tables know of an entry: no user, and no state unless it is TCP. */
  function AsProc(e: SocketEntry): SocketEntry {
    SocketEntry(e.inode, e.localAddr, e.remoteAddr, if e.protocol == Tcp then e.state else "UNCONN", 0,
                e.protocol)
  }

  lemma ColumnsAt(s: Socket, x: Extra)
    requires x.Valid()
    ensures var c := Columns(s, x);
            && |c| >= PROC_NET_MIN_COLUMNS && c[1] == EndpointText(s.local) && c[2] == EndpointText(s.remote)
            && c[3] == Hex(s.state, 2) && c[9] == Decimal(s.inode)
  {
  }

  lemma ColumnsRead(s: Socket, x: Extra, kind: Protocol)
    requires s.Valid() && x.Valid()
    ensures EntryOfColumns(Columns(s, x), kind, s.local.ip.V4?) == Some(AsProc(EntryOf(s, kind)))
  {
    ColumnsAt(s, x);
    EndpointReads(s.local);
    EndpointReads(s.remote);
    StatesAgree(s.state);
    DecimalParses(s.inode, U64_MAX);
  }

  lemma RowReads(s: Socket, x: Extra, kind: Protocol)
    requires s.Valid() && x.Valid()
    ensures |Columns(s, x)| == |x.pads|
    ensures EntryOfColumns(SplitWhitespace(Line(Columns(s, x), x.pads)), kind, s.local.ip.V4?)
         == Some(AsProc(EntryOf(s, kind)))
  {
    ColumnsAreWords(s, x);
    SplitLine(Columns(s, x), x.pads);
    ColumnsRead(s, x, kind);
  }

  // ---- One table ----

  datatype Printed = Printed(socket: Socket, extra: Extra)

  predicate AllPrinted(ps: seq<Printed>, isIpv4: bool) {
    forall p :: p in ps ==> p.socket.Valid() && p.extra.Valid() && p.socket.local.ip.V4? == isIpv4
  }

  function PrintedLine(p: Printed): string
    requires p.extra.Valid()
  {
    assert |Columns(p.socket, p.extra)| == 10 + |p.extra.more|;
    Line(Columns(p.socket, p.extra), p.extra.pads)
  }

  function PrintedLines(ps: seq<Printed>): seq<string>
    requires forall p :: p in ps ==> p.extra.Valid()
  {
    if ps == [] then []
    else
      assert ps[0] in ps;
      [PrintedLine(ps[0])] + PrintedLines(ps[1..])
  }

  function PrintedSockets(ps: seq<Printed>): seq<Socket> {
    if ps == [] then [] else [ps[0].socket] + PrintedSockets(ps[1..])
  }

  function TableAsProc(t: Table): Table {
    map k | k in t :: AsProc(t[k])
  }

  lemma InsertAsProc(table: Table, entry: SocketEntry)
    ensures TableAsProc(table)[entry.inode := AsProc(entry)] == TableAsProc(table[entry.inode := entry])
  {
  }

  lemma {:induction false} RowsRead(lines: seq<string>, n: nat, ps: seq<Printed>, kind: Protocol, isIpv4: bool,
                                    table: Table)
    requires AllPrinted(ps, isIpv4) && 0 < n <= |lines| && lines[n..] == PrintedLines(ps)
    ensures ReadRows(lines, n, kind, isIpv4, TableAsProc(table))
         == Fine(TableAsProc(TableOf(PrintedSockets(ps), kind, table)))
    decreases |ps|
  {
    if ps != [] {
      var p := ps[0];
      assert p in ps;
      assert lines[n] == lines[n..][0] == PrintedLine(p);
      assert lines[n + 1..] == lines[n..][1..] == PrintedLines(ps[1..]);
      RowReads(p.socket, p.extra, kind);
      var entry := EntryOf(p.socket, kind);
      InsertAsProc(table, entry);
      assert PrintedSockets(ps)[1..] == PrintedSockets(ps[1..]);
      RowsRead(lines, n + 1, ps[1..], kind, isIpv4, table[entry.inode := entry]);
    }
  }

  /** A printed table is read as the table of its sockets, but for the two columns it lacks. */
  lemma FileReads(heading: string, ps: seq<Printed>, kind: Protocol, isIpv4: bool, table: Table)
    requires AllPrinted(ps, isIpv4)
    ensures ReadFile(Some([heading] + PrintedLines(ps)), kind, isIpv4, TableAsProc(table))
         == Fine(TableAsProc(TableOf(PrintedSockets(ps), kind, table)))
  {
    var lines := [heading] + PrintedLines(ps);
    assert lines[1..] == PrintedLines(ps);
    RowsRead(lines, 1, ps, kind, isIpv4, table);
  }

  // ---- All four tables ----

  lemma {:induction false} TableOfMerges(sockets: seq<Socket>, kind: Protocol, table: Table)
    ensures TableOf(sockets, kind, table) == table + TableOf(sockets, kind, map[])
    decreases |sockets|
  {
    if sockets != [] {
      var s := sockets[0];
      TableOfMerges(sockets[1..], kind, table[s.inode := EntryOf(s, kind)]);
      TableOfMerges(sockets[1..], kind, map[][s.inode := EntryOf(s, kind)]);
    }
  }

  lemma {:induction false} TableIsOfKind(sockets: seq<Socket>, kind: Protocol)
    ensures forall k :: k in TableOf(sockets, kind, map[]) ==> TableOf(sockets, kind, map[])[k].protocol == kind
    decreases |sockets|
  {
    if sockets != [] {
      TableIsOfKind(sockets[1..], kind);
      TableOfMerges(sockets[1..], kind, map[][sockets[0].inode := EntryOf(sockets[0], kind)]);
    }
  }

  /** The order in which netlink is asked: IPv4 first. */
  function ByNetlink(tcp4: seq<Socket>, udp4: seq<Socket>, tcp6: seq<Socket>, udp6: seq<Socket>): Table {
    TableOf(udp6, Udp, TableOf(tcp6, Tcp, TableOf(udp4, Udp, TableOf(tcp4, Tcp, map[]))))
  }

  /** The order in which the text tables are read: TCP first. */
  function ByProc(tcp4: seq<Socket>, udp4: seq<Socket>, tcp6: seq<Socket>, udp6: seq<Socket>): Table {
    TableOf(udp6, Udp, TableOf(udp4, Udp, TableOf(tcp6, Tcp, TableOf(tcp4, Tcp, map[]))))
  }

  function Inodes(sockets: seq<Socket>): set<U64> {
    set s | s in sockets :: s.inode
  }

  lemma {:induction false} TableKeys(sockets: seq<Socket>, kind: Protocol)
    ensures TableOf(sockets, kind, map[]).Keys == Inodes(sockets)
    decreases |sockets|
  {
    if sockets != [] {
      TableKeys(sockets[1..], kind);
      TableOfMerges(sockets[1..], kind, map[][sockets[0].inode := EntryOf(sockets[0], kind)]);
      assert Inodes(sockets) == {sockets[0].inode} + Inodes(sockets[1..]);
    }
  }

  lemma Merged(tcp4: seq<Socket>, udp4: seq<Socket>, tcp6: seq<Socket>, udp6: seq<Socket>)
    ensures var a, b := TableOf(tcp4, Tcp, map[]), TableOf(udp4, Udp, map[]);
            var c, d := TableOf(tcp6, Tcp, map[]), TableOf(udp6, Udp, map[]);
            && ByNetlink(tcp4, udp4, tcp6, udp6) == a + b + c + d
            && ByProc(tcp4, udp4, tcp6, udp6) == a + c + b + d
  {
    var a := TableOf(tcp4, Tcp, map[]);
    TableOfMerges(udp4, Udp, a);
    TableOfMerges(tcp6, Tcp, TableOf(udp4, Udp, a));
    TableOfMerges(udp6, Udp, TableOf(tcp6, Tcp, TableOf(udp4, Udp, a)));
    TableOfMerges(tcp6, Tcp, a);
    TableOfMerges(udp4, Udp, TableOf(tcp6, Tcp, a));
    TableOfMerges(udp6, Udp, TableOf(udp4, Udp, TableOf(tcp6, Tcp, a)));
  }

  lemma Overrides(a: Table, b: Table, c: Table, d: Table, k: U64)
    ensures k in b && k in c && k !in d ==>
              (a + b + c + d)[k] == c[k] && (a + c + b + d)[k] == b[k]
    ensures !(k in b && k in c && k !in d) && k in a + b + c + d ==> (a + b + c + d)[k] == (a + c + b + d)[k]
    ensures k in a + b + c + d <==> k in a + c + b + d
  {
  }

  lemma MergesAgree(a: Table, b: Table, c: Table, d: Table)
    requires forall k :: k in b ==> b[k].protocol == Udp
    requires forall k :: k in c ==> c[k].protocol == Tcp
    ensures TableAsProc(a + b + c + d) == TableAsProc(a + c + b + d) <==> b.Keys * c.Keys <= d.Keys
  {
    var x, y := a + b + c + d, a + c + b + d;
    forall k { Overrides(a, b, c, d, k); }
    if !(b.Keys * c.Keys <= d.Keys) {
      var k :| k in b && k in c && k !in d;
      Overrides(a, b, c, d, k);
      assert TableAsProc(x)[k].protocol == Tcp && TableAsProc(y)[k].protocol == Udp;
    }
  }

  /** The two paths agree on every set of sockets, up to the user and the state of UDP sockets,
      exactly when no inode of an IPv4 UDP socket is also one of an IPv6 TCP socket, unless an
      IPv6 UDP socket has it too. */
  lemma PathsAgree(tcp4: seq<Socket>, udp4: seq<Socket>, tcp6: seq<Socket>, udp6: seq<Socket>)
    ensures TableAsProc(ByNetlink(tcp4, udp4, tcp6, udp6)) == TableAsProc(ByProc(tcp4, udp4, tcp6, udp6))
       <==> Inodes(udp4) * Inodes(tcp6) <= Inodes(udp6)
  {
    Merged(tcp4, udp4, tcp6, udp6);
    TableIsOfKind(udp4, Udp);
    TableIsOfKind(tcp6, Tcp);
    TableKeys(udp4, Udp);
    TableKeys(tcp6, Tcp);
    TableKeys(udp6, Udp);
    MergesAgree(TableOf(tcp4, Tcp, map[]), TableOf(udp4, Udp, map[]), TableOf(tcp6, Tcp, map[]),
                TableOf(udp6, Udp, map[]));
  }

  /** From the text on one side and the datagrams on the other: what the kernel prints is read as
      the table that `ByProc` names. */
  lemma ProcNetReads(tcp4: seq<Printed>, tcp6: seq<Printed>, udp4: seq<Printed>, udp6: seq<Printed>, heading: string)
    requires AllPrinted(tcp4, true) && AllPrinted(udp4, true) && AllPrinted(tcp6, false) && AllPrinted(udp6, false)
    ensures ProcNet(Some([heading] + PrintedLines(tcp4)), Some([heading] + PrintedLines(tcp6)),
                    Some([heading] + PrintedLines(udp4)), Some([heading] + PrintedLines(udp6)))
         == Fine(TableAsProc(ByProc(PrintedSockets(tcp4), PrintedSockets(udp4), PrintedSockets(tcp6),
                                    PrintedSockets(udp6))))
  {
    var a := TableOf(PrintedSockets(tcp4), Tcp, map[]);
    var b := TableOf(PrintedSockets(tcp6), Tcp, a);
    var c := TableOf(PrintedSockets(udp4), Udp, b);
    assert TableAsProc(map[]) == map[];
    FileReads(heading, tcp4, Tcp, true, map[]);
    FileReads(heading, tcp6, Tcp, false, a);
    FileReads(heading, udp4, Udp, true, b);
    FileReads(heading, udp6, Udp, false, c);
    var first := ReadFile(Some([heading] + PrintedLines(tcp4)), Tcp, true, map[]);
    var second := Then(first, Some([heading] + PrintedLines(tcp6)), Tcp, false);
    assert first == Fine(TableAsProc(a)) && second == Fine(TableAsProc(b));
  }

  /** One more dump on the socket: its table is added, and its datagrams are taken. */
  lemma NextDump(d: Dump, rest: seq<seq<Byte>>, kind: Protocol, table: Table)
    requires d.Valid()
    ensures AndThen(Ok(Progress(table, Datagrams(d.chunks) + rest)), kind)
         == Ok(Progress(TableOf(SocketsOf(d.reported), kind, table), rest))
  {
    DumpIsTaken(d, rest, kind, table);
    assert (Datagrams(d.chunks) + rest)[|Datagrams(d.chunks)|..] == rest;
  }

  ghost function FourDumps(tcp4: Dump, udp4: Dump, tcp6: Dump, udp6: Dump): seq<seq<Byte>>
    requires tcp4.Valid() && udp4.Valid() && tcp6.Valid() && udp6.Valid()
  {
    Datagrams(tcp4.chunks) + (Datagrams(udp4.chunks) + (Datagrams(tcp6.chunks) + (Datagrams(udp6.chunks) + [])))
  }

  lemma NetlinkReads(tcp4: Dump, udp4: Dump, tcp6: Dump, udp6: Dump)
    requires tcp4.Valid() && udp4.Valid() && tcp6.Valid() && udp6.Valid()
    ensures QueryAll(FourDumps(tcp4, udp4, tcp6, udp6))
         == Ok(ByNetlink(SocketsOf(tcp4.reported), SocketsOf(udp4.reported), SocketsOf(tcp6.reported),
                         SocketsOf(udp6.reported)))
  {
    var a := TableOf(SocketsOf(tcp4.reported), Tcp, map[]);
    var b := TableOf(SocketsOf(udp4.reported), Udp, a);
    var c := TableOf(SocketsOf(tcp6.reported), Tcp, b);
    var fourth := Datagrams(udp6.chunks) + [];
    var third := Datagrams(tcp6.chunks) + fourth;
    NextDump(tcp4, Datagrams(udp4.chunks) + third, Tcp, map[]);
    NextDump(udp4, third, Udp, a);
    NextDump(tcp6, fourth, Tcp, b);
    NextDump(udp6, [], Udp, c);
  }

  /** If the socket falls silent before the fourth dump, the whole query fails. */
  lemma MissingDumpFails(tcp4: Dump, udp4: Dump, tcp6: Dump)
    requires tcp4.Valid() && udp4.Valid() && tcp6.Valid()
    ensures QueryAll([]) == Err(RecvFailed)
    ensures QueryAll(Datagrams(tcp4.chunks) + []) == Err(RecvFailed)
    ensures QueryAll(Datagrams(tcp4.chunks) + (Datagrams(udp4.chunks) + [])) == Err(RecvFailed)
    ensures QueryAll(Datagrams(tcp4.chunks) + (Datagrams(udp4.chunks) + (Datagrams(tcp6.chunks) + [])))
         == Err(RecvFailed)
  {
    var a := TableOf(SocketsOf(tcp4.reported), Tcp, map[]);
    var b := TableOf(SocketsOf(udp4.reported), Udp, a);
    var third := Datagrams(tcp6.chunks) + [];
    NextDump(tcp4, [], Tcp, map[]);
    NextDump(tcp4, Datagrams(udp4.chunks) + [], Tcp, map[]);
    NextDump(udp4, [], Udp, a);
    NextDump(tcp4, Datagrams(udp4.chunks) + third, Tcp, map[]);
    NextDump(udp4, third, Udp, a);
    NextDump(tcp6, [], Tcp, b);
  }

  /** What the kernel reports of one table of sockets: in a dump, and in print. */
  datatype Report = Report(dump: Dump, printed: seq<Printed>) {
    ghost predicate Valid(isIpv4: bool) {
      dump.Valid() && AllPrinted(printed, isIpv4) && SocketsOf(dump.reported) == PrintedSockets(printed)
    }

    ghost function Used(): set<U64> { Inodes(PrintedSockets(printed)) }

    function Text(heading: string): File
      requires forall p :: p in printed ==> p.extra.Valid()
    {
      Some([heading] + PrintedLines(printed))
    }
  }

  /** End to end: whatever sockets the kernel has, however it cuts its dumps and spaces its tables,
      both paths read them, and agree up to user and UDP state under that same condition. */
  lemma DecodersAgree(tcp4: Report, udp4: Report, tcp6: Report, udp6: Report, heading: string)
    requires tcp4.Valid(true) && udp4.Valid(true) && tcp6.Valid(false) && udp6.Valid(false)
    ensures var byDump := QueryAll(FourDumps(tcp4.dump, udp4.dump, tcp6.dump, udp6.dump));
            var byText := ProcNet(tcp4.Text(heading), tcp6.Text(heading), udp4.Text(heading), udp6.Text(heading));
            && byDump.Ok? && byText.Fine?
            && (TableAsProc(byDump.value) == byText.value <==> udp4.Used() * tcp6.Used() <= udp6.Used())
  {
    NetlinkReads(tcp4.dump, udp4.dump, tcp6.dump, udp6.dump);
    ProcNetReads(tcp4.printed, tcp6.printed, udp4.printed, udp6.printed, heading);
    PathsAgree(PrintedSockets(tcp4.printed), PrintedSockets(udp4.printed),
               PrintedSockets(tcp6.printed), PrintedSockets(udp6.printed));
  }
}
