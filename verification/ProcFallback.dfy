/** Sockets read from the text tables under /proc/net. */
module ProcFallback {
  import opened Net
  import opened Words
  import opened Text
  import opened Netlink

  const PROC_NET_MIN_COLUMNS: nat := 10
  const PROC_IPV4_HEX_LEN: nat := 8
  const PROC_IPV6_HEX_LEN: nat := 32
  const UNKNOWN_UID: U32 := 0

  datatype FallbackError = FileOpen | ParseLine
  datatype Read<+T> = Fine(value: T) | Failed(error: FallbackError)

  function ParseTcpState(stateHex: string, protocol: Protocol): string {
    if protocol != Tcp then "UNCONN"
    else
      var value := FromStrRadix(stateHex, 16, 255);
      if value.None? then "UNKNOWN"
      else match value.value
        case 0x01 => "ESTABLISHED"
        case 0x02 => "SYN_SENT"
        case 0x03 => "SYN_RECV"
        case 0x04 => "FIN_WAIT1"
        case 0x05 => "FIN_WAIT2"
        case 0x06 => "TIME_WAIT"
        case 0x07 => "CLOSE"
        case 0x08 => "CLOSE_WAIT"
        case 0x09 => "LAST_ACK"
        case 0x0A => "LISTEN"
        case 0x0B => "CLOSING"
        case _ => "UNKNOWN"
  }

  /** The bytes of the words that the first `n` groups of eight digits stand for. */
  function HexWords(hex: string, n: nat): Option<seq<Byte>>
    requires 8 * n <= |hex|
  {
    if n == 0 then Some([])
    else
      var front := HexWords(hex, n - 1);
      var word := FromStrRadix(hex[8 * (n - 1)..8 * n], 16, U32_MAX);
      if front.None? || word.None? then None else Some(front.value + ToLe32(word.value))
  }

  lemma {:induction false} HexWordsLength(hex: string, n: nat)
    requires 8 * n <= |hex|
    ensures HexWords(hex, n).Some? ==> |HexWords(hex, n).value| == 4 * n
  {
    if n > 0 { HexWordsLength(hex, n - 1); }
  }

  function ParseProcIp(hex: string, isIpv4: bool): Option<IpAddr> {
    if isIpv4 then
      if |hex| != PROC_IPV4_HEX_LEN then None
      else
        var raw := FromStrRadix(hex, 16, U32_MAX);
        if raw.None? then None else Some(V4(ToLe32(raw.value)))
    else
      if |hex| != PROC_IPV6_HEX_LEN then None
      else
        HexWordsLength(hex, 4);
        var bytes := HexWords(hex, 4);
        if bytes.None? then None else Some(V6(bytes.value))
  }

  /** What an endpoint text means: the part before the first colon, and that before the next. */
  function EndpointOf(text: string, isIpv4: bool): Option<SocketAddr> {
    var ipHex := Before(text, ':');
    if |ipHex| >= |text| then None
    else
      var port := FromStrRadix(Before(text[|ipHex| + 1..], ':'), 16, U16_MAX);
      if port.None? then None
      else
        var ip := ParseProcIp(ipHex, isIpv4);
        if ip.None? then None else Some(SocketAddr(ip.value, port.value))
  }

  method ParseProcSocketAddr(text: string, isIpv4: bool) returns (r: Option<SocketAddr>)
    ensures r == EndpointOf(text, isIpv4)
  {
    var ipHex := Before(text, ':');
    if |ipHex| >= |text| { return None; }
    var port := FromStrRadix(Before(text[|ipHex| + 1..], ':'), 16, U16_MAX);
    if port.None? { return None; }
    if isIpv4 {
      if |ipHex| != PROC_IPV4_HEX_LEN { return None; }
      var raw := FromStrRadix(ipHex, 16, U32_MAX);
      if raw.None? { return None; }
      return Some(SocketAddr(V4(ToLe32(raw.value)), port.value));
    }
    if |ipHex| != PROC_IPV6_HEX_LEN { return None; }
    var bytes := FillIpv6(ipHex);
    if bytes.None? { return None; }
    return Some(SocketAddr(V6(bytes.value), port.value));
  }

  /** Fills sixteen bytes from four words; stops at the first group that is no word. */
  method FillIpv6(hex: string) returns (r: Option<seq<Byte>>)
    requires |hex| == PROC_IPV6_HEX_LEN
    ensures r == HexWords(hex, 4) && (r.Some? ==> |r.value| == 16)
  {
    var bytes := new Byte[16](_ => 0);
    for wordIndex := 0 to 4
      invariant HexWords(hex, wordIndex) == Some(bytes[..4 * wordIndex])
    {
      var rawWord := FromStrRadix(hex[8 * wordIndex..8 * (wordIndex + 1)], 16, U32_MAX);
      NextWord(hex, wordIndex);
      if rawWord.None? {
        FailsForGood(hex, wordIndex + 1, 4);
        return None;
      }
      StoreWord(bytes, 4 * wordIndex, ToLe32(rawWord.value));
    }
    assert bytes[..16] == bytes[..];
    r := Some(bytes[..]);
  }

  lemma NextWord(hex: string, n: nat)
    requires 8 * (n + 1) <= |hex|
    ensures var front, word := HexWords(hex, n), FromStrRadix(hex[8 * n..8 * (n + 1)], 16, U32_MAX);
            HexWords(hex, n + 1)
            == if front.None? || word.None? then None else Some(front.value + ToLe32(word.value))
  {
  }

  lemma {:induction false} FailsForGood(hex: string, n: nat, m: nat)
    requires n <= m && 8 * m <= |hex| && HexWords(hex, n).None?
    ensures HexWords(hex, m).None?
    decreases m
  {
    if n < m { FailsForGood(hex, n, m - 1); }
  }

  // ---- Tables ----

  function EntryOfColumns(columns: seq<string>, protocol: Protocol, isIpv4: bool): Option<SocketEntry> {
    if |columns| < PROC_NET_MIN_COLUMNS then None
    else
      var local := EndpointOf(columns[1], isIpv4);
      var remote := EndpointOf(columns[2], isIpv4);
      var inode := FromStrRadix(columns[9], 10, U64_MAX);
      if local.None? || remote.None? || inode.None? then None
      else Some(SocketEntry(inode.value, local.value, remote.value, ParseTcpState(columns[3], protocol), UNKNOWN_UID,
                            protocol))
  }

  /** The rows from line `n` on, added to a table; the heading in line 0 does not count. */
  function ReadRows(lines: seq<string>, n: nat, protocol: Protocol, isIpv4: bool, table: Table): Read<Table>
    requires n <= |lines|
    decreases |lines| - n
  {
    if n == |lines| then Fine(table)
    else if n == 0 then ReadRows(lines, 1, protocol, isIpv4, table)
    else
      var entry := EntryOfColumns(SplitWhitespace(lines[n]), protocol, isIpv4);
      if entry.None? then Failed(ParseLine)
      else ReadRows(lines, n + 1, protocol, isIpv4, table[entry.value.inode := entry.value])
  }

  /** A file is its lines, if it can be opened. */
  type File = Option<seq<string>>

  function ReadFile(file: File, protocol: Protocol, isIpv4: bool, table: Table): Read<Table> {
    if file.None? then Failed(FileOpen) else ReadRows(file.value, 0, protocol, isIpv4, table)
  }

  lemma RowStep(lines: seq<string>, n: nat, protocol: Protocol, isIpv4: bool, table: Table, entry: Option<SocketEntry>)
    requires 0 < n < |lines| && entry == EntryOfColumns(SplitWhitespace(lines[n]), protocol, isIpv4)
    ensures ReadRows(lines, n, protocol, isIpv4, table)
         == if entry.None? then Failed(ParseLine)
            else ReadRows(lines, n + 1, protocol, isIpv4, table[entry.value.inode := entry.value])
  {
  }

  method ReadProcFile(file: File, protocol: Protocol, isIpv4: bool, before: Table) returns (r: Read<Table>)
    ensures r == ReadFile(file, protocol, isIpv4, before)
  {
    if file.None? { return Failed(FileOpen); }
    var lines := file.value;
    var table: Table := before;
    for lineIndex := 0 to |lines|
      invariant ReadRows(lines, 0, protocol, isIpv4, before) == ReadRows(lines, lineIndex, protocol, isIpv4, table)
    {
      if lineIndex != 0 {
        var columns := SplitWhitespace(lines[lineIndex]);
        var entry := ReadRow(columns, protocol, isIpv4);
        RowStep(lines, lineIndex, protocol, isIpv4, table, entry);
        if entry.None? { return Failed(ParseLine); }
        table := table[entry.value.inode := entry.value];
      }
    }
    return Fine(table);
  }

  method ReadRow(columns: seq<string>, protocol: Protocol, isIpv4: bool) returns (r: Option<SocketEntry>)
    ensures r == EntryOfColumns(columns, protocol, isIpv4)
  {
    if |columns| < PROC_NET_MIN_COLUMNS { return None; }
    var localAddr := ParseProcSocketAddr(columns[1], isIpv4);
    if localAddr.None? { return None; }
    var remoteAddr := ParseProcSocketAddr(columns[2], isIpv4);
    if remoteAddr.None? { return None; }
    var state := ParseTcpState(columns[3], protocol);
    var inode := FromStrRadix(columns[9], 10, U64_MAX);
    if inode.None? { return None; }
    return Some(SocketEntry(inode.value, localAddr.value, remoteAddr.value, state, UNKNOWN_UID, protocol));
  }

  /** A row that is not one fails the whole file, wherever it stands below the heading. */
  lemma {:induction false} BadRowFails(lines: seq<string>, n: nat, bad: nat, protocol: Protocol, isIpv4: bool,
                                       table: Table)
    requires 0 < n <= bad < |lines| && EntryOfColumns(SplitWhitespace(lines[bad]), protocol, isIpv4).None?
    ensures ReadRows(lines, n, protocol, isIpv4, table) == Failed(ParseLine)
    decreases bad - n
  {
    var entry := EntryOfColumns(SplitWhitespace(lines[n]), protocol, isIpv4);
    RowStep(lines, n, protocol, isIpv4, table, entry);
    if n < bad && entry.Some? {
      BadRowFails(lines, n + 1, bad, protocol, isIpv4, table[entry.value.inode := entry.value]);
    }
  }

  /** What is no row: fewer than ten columns, or an endpoint or an inode that is none. */
  lemma BadColumns(columns: seq<string>, protocol: Protocol, isIpv4: bool)
    ensures EntryOfColumns(columns, protocol, isIpv4).None?
       <==> || |columns| < 10 || EndpointOf(columns[1], isIpv4).None? || EndpointOf(columns[2], isIpv4).None?
            || FromStrRadix(columns[9], 10, 0xFFFF_FFFF_FFFF_FFFF).None?
  {
  }

  /** What is no endpoint: no colon, an address of another length than 8 or 32, or a port that is no
      number of 16 bits. */
  lemma BadEndpoints(text: string, isIpv4: bool)
    ensures ':' !in text ==> EndpointOf(text, isIpv4) == None
    ensures |Before(text, ':')| != (if isIpv4 then 8 else 32) ==> EndpointOf(text, isIpv4) == None
    ensures forall a, b :: text == a + [':'] + b && ':' !in a && ':' !in b && FromStrRadix(b, 16, 0xFFFF).None? ==>
              EndpointOf(text, isIpv4) == None
  {
    BeforeSplits(text, ':');
    forall a, b | text == a + [':'] + b && ':' !in a && ':' !in b
      ensures Before(text, ':') == a && Before(text[|a| + 1..], ':') == b
    {
      BeforeFirst(a, ':', b);
      BeforeFirst(b, ':', "");
      assert text[|a| + 1..] == b;
    }
  }

  /** The four tables, in the order in which they are read; the first failure ends the reading. */
  method ReadProcNet(tcp: File, tcp6: File, udp: File, udp6: File) returns (r: Read<Table>)
    ensures r == ProcNet(tcp, tcp6, udp, udp6)
  {
    r := ReadProcFile(tcp, Tcp, true, map[]);
    if r.Failed? { return; }
    r := ReadProcFile(tcp6, Tcp, false, r.value);
    if r.Failed? { return; }
    r := ReadProcFile(udp, Udp, true, r.value);
    if r.Failed? { return; }
    r := ReadProcFile(udp6, Udp, false, r.value);
  }

  function Then(r: Read<Table>, file: File, protocol: Protocol, isIpv4: bool): Read<Table> {
    if r.Failed? then r else ReadFile(file, protocol, isIpv4, r.value)
  }

  function ProcNet(tcp: File, tcp6: File, udp: File, udp6: File): Read<Table> {
    Then(Then(Then(ReadFile(tcp, Tcp, true, map[]), tcp6, Tcp, false), udp, Udp, true), udp6, Udp, false)
  }

  lemma {:induction false} ReadRowsKeepsFiling(lines: seq<string>, n: nat, protocol: Protocol, isIpv4: bool,
                                               table: Table)
    requires 0 < n <= |lines| && FiledByInode(table)
    ensures ReadRows(lines, n, protocol, isIpv4, table).Fine? ==>
              FiledByInode(ReadRows(lines, n, protocol, isIpv4, table).value)
    decreases |lines| - n
  {
    if n < |lines| {
      var entry := EntryOfColumns(SplitWhitespace(lines[n]), protocol, isIpv4);
      RowStep(lines, n, protocol, isIpv4, table, entry);
      if entry.Some? {
        var next := table[entry.value.inode := entry.value];
        assert FiledByInode(next);
        ReadRowsKeepsFiling(lines, n + 1, protocol, isIpv4, next);
      }
    }
  }

  lemma ThenKeepsFiling(r: Read<Table>, file: File, protocol: Protocol, isIpv4: bool)
    requires r.Fine? ==> FiledByInode(r.value)
    ensures var next := Then(r, file, protocol, isIpv4); next.Fine? ==> FiledByInode(next.value)
  {
    if r.Fine? && file.Some? && |file.value| > 0 { ReadRowsKeepsFiling(file.value, 1, protocol, isIpv4, r.value); }
  }

  /** A file that cannot be opened fails the whole reading. */
  lemma MissingFileFails(tcp: File, tcp6: File, udp: File, udp6: File)
    requires tcp.None? || tcp6.None? || udp.None? || udp6.None?
    ensures ProcNet(tcp, tcp6, udp, udp6).Failed?
  {
  }

  /** Whatever the files hold, the resulting table is filed by inode. */
  lemma ProcNetFiles(tcp: File, tcp6: File, udp: File, udp6: File)
    ensures ProcNet(tcp, tcp6, udp, udp6).Fine? ==> FiledByInode(ProcNet(tcp, tcp6, udp, udp6).value)
  {
    var a := ReadFile(tcp, Tcp, true, map[]);
    ThenKeepsFiling(Fine(map[]), tcp, Tcp, true);
    var b := Then(a, tcp6, Tcp, false);
    ThenKeepsFiling(a, tcp6, Tcp, false);
    ThenKeepsFiling(b, udp, Udp, true);
    ThenKeepsFiling(Then(b, udp, Udp, true), udp6, Udp, false);
  }
}
