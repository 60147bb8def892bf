/** From the kernel to the cache: which table a refresh leaves behind. */
module ResolverSources {
  import opened Net
  import opened Netlink
  import opened NetlinkDumps
  import opened ProcFallback
  import opened DecoderAgreement
  import R = Resolver

  /** When netlink answers with its four dumps, the cache holds exactly the kernel's sockets, whatever
      the text tables say. */
  method RefreshByNetlink(cache: R.ResolverCache, sys: R.System, now: Instant,
                          tcp4: Dump, udp4: Dump, tcp6: Dump, udp6: Dump) returns (ok: bool)
    requires cache.Valid() && tcp4.Valid() && udp4.Valid() && tcp6.Valid() && udp6.Valid()
    requires sys.datagrams == FourDumps(tcp4, udp4, tcp6, udp6)
    modifies cache
    ensures ok && cache.Valid() && cache.lastRefresh == now
    ensures cache.socketEntries == ByNetlink(SocketsOf(tcp4.reported), SocketsOf(udp4.reported),
                                             SocketsOf(tcp6.reported), SocketsOf(udp6.reported))
  {
    NetlinkReads(tcp4, udp4, tcp6, udp6);
    ok := cache.Refresh(sys, now);
  }

  /** When netlink fails in any way and the text tables can be read, the cache holds what they print of
      the kernel's sockets. */
  method RefreshByText(cache: R.ResolverCache, sys: R.System, now: Instant, heading: string,
                       tcp4: seq<Printed>, udp4: seq<Printed>, tcp6: seq<Printed>, udp6: seq<Printed>)
      returns (ok: bool)
    requires cache.Valid() && QueryAll(sys.datagrams).Err?
    requires AllPrinted(tcp4, true) && AllPrinted(udp4, true) && AllPrinted(tcp6, false) && AllPrinted(udp6, false)
    requires sys.tcp == Some([heading] + PrintedLines(tcp4)) && sys.tcp6 == Some([heading] + PrintedLines(tcp6))
    requires sys.udp == Some([heading] + PrintedLines(udp4)) && sys.udp6 == Some([heading] + PrintedLines(udp6))
    modifies cache
    ensures ok && cache.Valid() && cache.lastRefresh == now
    ensures cache.socketEntries == TableAsProc(ByProc(PrintedSockets(tcp4), PrintedSockets(udp4),
                                                      PrintedSockets(tcp6), PrintedSockets(udp6)))
  {
    ProcNetReads(tcp4, tcp6, udp4, udp6, heading);
    ok := cache.Refresh(sys, now);
  }

  /** Netlink that never answers is such a failure. */
  lemma SilentNetlinkFails()
    ensures QueryAll([]) == Err(RecvFailed)
  {
  }
}
