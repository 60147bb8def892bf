/** The resolver's cache: sockets joined with their owners, and the two views of the join. */
module Resolver {
  import opened Net
  import N = Netlink
  import P = ProcFallback
  import opened AggregatorModel
  import A = Attribution

  const RESOLVER_REFRESH_PERIOD: nat := SECOND
  const UNKNOWN_LABEL := "[unknown]"

  type Table = N.Table

  /** Who holds a socket open, as the scan of the process table found it. */
  datatype PidEntry = PidEntry(pid: U32, tid: U32, process: string, threadName: string, uid: U32)

  type Pids = map<U64, PidEntry>
  type Uids = map<U32, string>

  function UserName(uid: U32, uids: Uids): string {
    if uid in uids then uids[uid] else UNKNOWN_LABEL
  }

  /** The owner of a socket for attribution. */
  function OwnerInfo(inode: U64, pids: Pids, uids: Uids): ProcessInfo {
    if inode in pids then
      var p := pids[inode];
      ProcessInfo(p.pid, p.tid, p.process, p.threadName, p.uid, UserName(p.uid, uids))
    else ProcessInfo(0, 0, UNKNOWN_LABEL, UNKNOWN_LABEL, 0, UNKNOWN_LABEL)
  }

  /** The same socket as a row of the connection list. */
  function ConnectionOf(e: N.SocketEntry, pids: Pids, uids: Uids): ResolvedConnection {
    var p := if e.inode in pids then pids[e.inode] else PidEntry(0, 0, UNKNOWN_LABEL, UNKNOWN_LABEL, e.uid);
    ResolvedConnection(e.localAddr, e.remoteAddr, e.protocol, e.state, e.inode,
                       p.pid, p.tid, p.process, p.threadName, p.uid, UserName(p.uid, uids))
  }

  function OwnersOf(sockets: Table, pids: Pids, uids: Uids): map<U64, ProcessInfo> {
    map k | k in sockets :: OwnerInfo(k, pids, uids)
  }

  /** `connections` lists every socket of the table once, in some order. */
  ghost predicate Lists(connections: seq<ResolvedConnection>, sockets: Table, pids: Pids, uids: Uids) {
    && |connections| == |sockets|
    && (forall i :: 0 <= i < |connections| ==> IsRowOf(connections[i], sockets, pids, uids))
    && (forall i, j :: 0 <= i < j < |connections| ==> connections[i].inode != connections[j].inode)
    && (forall k :: k in sockets ==> HasRowFor(connections, k))
  }

  ghost predicate IsRowOf(c: ResolvedConnection, sockets: Table, pids: Pids, uids: Uids) {
    c.inode in sockets && c == ConnectionOf(sockets[c.inode], pids, uids)
  }

  ghost predicate HasRowFor(connections: seq<ResolvedConnection>, k: U64) {
    exists i :: 0 <= i < |connections| && connections[i].inode == k
  }

  /** The name of a user, if the system knows one. */
  ghost predicate IsUserName(name: string, uid: U32, uids: Uids) {
    name == if uid in uids then uids[uid] else "[unknown]"
  }

  /** The owner of an inode, field by field: its holder, or nobody. */
  ghost predicate HeldBy(info: ProcessInfo, inode: U64, pids: Pids, uids: Uids) {
    if inode in pids then
      var p := pids[inode];
      && info.pid == p.pid && info.tid == p.tid && info.name == p.process && info.threadName == p.threadName
      && info.uid == p.uid && IsUserName(info.username, p.uid, uids)
    else info == ProcessInfo(0, 0, "[unknown]", "[unknown]", 0, "[unknown]")
  }

  /** A row of the list, field by field: the socket, with its holder, or with nobody of its own user. */
  ghost predicate RowFor(c: ResolvedConnection, e: N.SocketEntry, pids: Pids, uids: Uids) {
    && c.localAddr == e.localAddr && c.remoteAddr == e.remoteAddr && c.protocol == e.protocol && c.state == e.state
    && c.inode == e.inode
    && if e.inode in pids then
         var p := pids[e.inode];
         && c.pid == p.pid && c.tid == p.tid && c.process == p.process && c.threadName == p.threadName
         && c.uid == p.uid && IsUserName(c.username, p.uid, uids)
       else
         && c.pid == c.tid == 0 && c.process == c.threadName == "[unknown]"
         && c.uid == e.uid && IsUserName(c.username, e.uid, uids)
  }

  // ---- Building the views ----

  method BuildInodeProcessMap(sockets: Table, pids: Pids, uids: Uids) returns (owners: map<U64, ProcessInfo>)
    ensures owners == OwnersOf(sockets, pids, uids)
    ensures owners.Keys == sockets.Keys && forall k :: k in owners ==> HeldBy(owners[k], k, pids, uids)
  {
    owners := map[];
    var rest := sockets.Keys;
    while rest != {}
      invariant rest <= sockets.Keys && owners.Keys == sockets.Keys - rest
      invariant forall k :: k in owners ==> owners[k] == OwnerInfo(k, pids, uids)
      decreases rest
    {
      var inode :| inode in rest;
      if inode in pids {
        var p := pids[inode];
        owners := owners[inode := ProcessInfo(p.pid, p.tid, p.process, p.threadName, p.uid, UserName(p.uid, uids))];
      } else {
        owners := owners[inode := ProcessInfo(0, 0, UNKNOWN_LABEL, UNKNOWN_LABEL, 0, UNKNOWN_LABEL)];
      }
      rest := rest - {inode};
    }
  }

  /** The rows so far are those of all sockets but `rest`. */
  ghost predicate ListsExcept(connections: seq<ResolvedConnection>, rest: set<U64>, sockets: Table, pids: Pids,
                              uids: Uids)
  {
    && rest <= sockets.Keys && |connections| + |rest| == |sockets|
    && (forall i :: 0 <= i < |connections| ==>
          IsRowOf(connections[i], sockets, pids, uids) && connections[i].inode !in rest)
    && (forall i, j :: 0 <= i < j < |connections| ==> connections[i].inode != connections[j].inode)
    && (forall k :: k in sockets && k !in rest ==> HasRowFor(connections, k))
  }

  lemma ListOneMore(connections: seq<ResolvedConnection>, rest: set<U64>, k: U64, sockets: Table, pids: Pids,
                    uids: Uids)
    requires ListsExcept(connections, rest, sockets, pids, uids) && k in rest && N.FiledByInode(sockets)
    ensures ListsExcept(connections + [ConnectionOf(sockets[k], pids, uids)], rest - {k}, sockets, pids, uids)
  {
    var row := ConnectionOf(sockets[k], pids, uids);
    var all := connections + [row];
    assert row.inode == k;
    forall q | q in sockets && q !in rest - {k} ensures HasRowFor(all, q) {
      if q == k {
        assert all[|connections|].inode == k;
      } else {
        var i :| 0 <= i < |connections| && connections[i].inode == q;
        assert all[i].inode == q;
      }
    }
  }

  method BuildConnections(sockets: Table, pids: Pids, uids: Uids) returns (connections: seq<ResolvedConnection>)
    requires N.FiledByInode(sockets)
    ensures Lists(connections, sockets, pids, uids)
    ensures forall i :: 0 <= i < |connections| ==>
              connections[i].inode in sockets && RowFor(connections[i], sockets[connections[i].inode], pids, uids)
  {
    connections := [];
    var rest := sockets.Keys;
    while rest != {}
      invariant ListsExcept(connections, rest, sockets, pids, uids)
      decreases rest
    {
      var k :| k in rest;
      var entry := sockets[k];
      var p := if entry.inode in pids then pids[entry.inode]
               else PidEntry(0, 0, UNKNOWN_LABEL, UNKNOWN_LABEL, entry.uid);
      ListOneMore(connections, rest, k, sockets, pids, uids);
      connections := connections + [ResolvedConnection(
        entry.localAddr, entry.remoteAddr, entry.protocol, entry.state, entry.inode,
        p.pid, p.tid, p.process, p.threadName, p.uid, UserName(p.uid, uids))];
      rest := rest - {k};
    }
  }

  // ---- The cache ----

  /** What one refresh reads from the system. */
  datatype System = System(datagrams: seq<seq<Byte>>, tcp: P.File, tcp6: P.File, udp: P.File, udp6: P.File, pids: Pids)

  predicate FlowMatches(e: N.SocketEntry, flow: FlowKey) {
    Matches(e.localAddr, e.remoteAddr, e.protocol, flow)
  }

  /** The flow is one of the socket's own two: from its local to its remote end, or back. */
  ghost predicate SocketOf(e: N.SocketEntry, flow: FlowKey) {
    || flow == FlowKey(e.localAddr.ip, e.remoteAddr.ip, e.localAddr.port, e.remoteAddr.port, e.protocol)
    || flow == FlowKey(e.remoteAddr.ip, e.localAddr.ip, e.remoteAddr.port, e.localAddr.port, e.protocol)
  }

  ghost predicate SomeSocketMatches(sockets: Table, flow: FlowKey) {
    exists k :: k in sockets && SocketOf(sockets[k], flow)
  }

  ghost predicate OwnsMatch(info: ProcessInfo, sockets: Table, pids: Pids, uids: Uids, flow: FlowKey) {
    exists k :: k in sockets && SocketOf(sockets[k], flow) && HeldBy(info, k, pids, uids)
  }

  lemma MatchIsOwn(e: N.SocketEntry, flow: FlowKey)
    ensures FlowMatches(e, flow) <==> SocketOf(e, flow)
  {
    A.MatchesExactly(e.localAddr, e.remoteAddr, e.protocol, flow);
  }

  /** The order in which a hash map is walked: any that names every key. */
  ghost predicate Walks(order: seq<U64>, keys: set<U64>) {
    forall k :: k in keys <==> k in order
  }

  /** The owner of the first socket on the walk that matches. */
  function FirstOwner(flow: FlowKey, order: seq<U64>, sockets: Table, owners: map<U64, ProcessInfo>)
      : Option<ProcessInfo>
    decreases |order|
  {
    if |order| == 0 then None
    else
      var k := order[0];
      if k in sockets && FlowMatches(sockets[k], flow) && sockets[k].inode in owners then Some(owners[sockets[k].inode])
      else FirstOwner(flow, order[1..], sockets, owners)
  }

  /** On one snapshot and one walk, a flow and its mirror have the same owner. */
  lemma {:induction false} MirrorOwner(flow: FlowKey, order: seq<U64>, sockets: Table, owners: map<U64, ProcessInfo>)
    ensures FirstOwner(flow.Mirror(), order, sockets, owners) == FirstOwner(flow, order, sockets, owners)
    decreases |order|
  {
    if |order| > 0 { MirrorOwner(flow, order[1..], sockets, owners); }
  }

  lemma {:induction false} WalkFinds(flow: FlowKey, order: seq<U64>, sockets: Table, pids: Pids, uids: Uids)
    requires N.FiledByInode(sockets) && forall k :: k in order ==> k in sockets
    ensures var r := FirstOwner(flow, order, sockets, OwnersOf(sockets, pids, uids));
            && (r.Some? <==> exists k :: k in order && SocketOf(sockets[k], flow))
            && (r.Some? ==> OwnsMatch(r.value, sockets, pids, uids, flow))
    decreases |order|
  {
    if |order| > 0 {
      WalkFinds(flow, order[1..], sockets, pids, uids);
      assert order == [order[0]] + order[1..];
      MatchIsOwn(sockets[order[0]], flow);
      if SocketOf(sockets[order[0]], flow) {
        assert HeldBy(OwnerInfo(order[0], pids, uids), order[0], pids, uids);
      }
    }
  }

  /** A walk finds an owner if and only if some socket is the flow's, and then the holder of such a one. */
  lemma OwnerOnWalk(flow: FlowKey, order: seq<U64>, sockets: Table, pids: Pids, uids: Uids)
    requires N.FiledByInode(sockets) && Walks(order, sockets.Keys)
    ensures var r := FirstOwner(flow, order, sockets, OwnersOf(sockets, pids, uids));
            && (r.Some? <==> SomeSocketMatches(sockets, flow))
            && (r.Some? ==> OwnsMatch(r.value, sockets, pids, uids, flow))
  {
    assert forall k :: k in order <==> k in sockets;
    WalkFinds(flow, order, sockets, pids, uids);
  }

  class ResolverCache {
    const uidMap: Uids
    var inodeToProcess: map<U64, ProcessInfo>
    var socketEntries: Table
    var connections: seq<ResolvedConnection>
    var lastRefresh: Instant
    ghost var Pids: Pids

    /** The three views are views of one table and one scan. */
    ghost predicate Valid()
      reads this
    {
      && N.FiledByInode(socketEntries)
      && inodeToProcess == OwnersOf(socketEntries, Pids, uidMap)
      && Lists(connections, socketEntries, Pids, uidMap)
    }

    constructor (uids: Uids, start: Instant)
      ensures Valid() && uidMap == uids && socketEntries == map[] && lastRefresh == start
    {
      uidMap := uids;
      inodeToProcess, socketEntries, connections, Pids := map[], map[], [], map[];
      lastRefresh := start;
    }

    /** Replaces all views, or none. */
    method Refresh(sys: System, now: Instant) returns (ok: bool)
      requires Valid()
      modifies this
      ensures Valid()
      ensures ok <==> N.QueryAll(sys.datagrams).Ok? || P.ProcNet(sys.tcp, sys.tcp6, sys.udp, sys.udp6).Fine?
      ensures N.QueryAll(sys.datagrams).Ok? ==> socketEntries == N.QueryAll(sys.datagrams).value
      ensures N.QueryAll(sys.datagrams).Err? && P.ProcNet(sys.tcp, sys.tcp6, sys.udp, sys.udp6).Fine? ==>
                socketEntries == P.ProcNet(sys.tcp, sys.tcp6, sys.udp, sys.udp6).value
      ensures ok ==> Pids == sys.pids && lastRefresh == now
      ensures !ok ==> unchanged(this)
    {
      var queried := N.QuerySockets(sys.datagrams);
      N.QueryAllFiles(sys.datagrams);
      var sockets: Table := map[];
      if queried.Ok? {
        sockets := queried.value;
      } else {
        var fallback := P.ReadProcNet(sys.tcp, sys.tcp6, sys.udp, sys.udp6);
        P.ProcNetFiles(sys.tcp, sys.tcp6, sys.udp, sys.udp6);
        if fallback.Failed? { return false; }
        sockets := fallback.value;
      }
      var owners := BuildInodeProcessMap(sockets, sys.pids, uidMap);
      var rows := BuildConnections(sockets, sys.pids, uidMap);
      socketEntries, inodeToProcess, connections, Pids := sockets, owners, rows, sys.pids;
      lastRefresh := now;
      return true;
    }

    /** At most one refresh per period, and nothing else: the views are those of the system just
        read, or the old ones. */
    twostate predicate Settled(sys: System, check: Instant, now: Instant)
      reads this
    {
      var due := check >= old(lastRefresh) + 1_000_000_000;
      if due && (N.QueryAll(sys.datagrams).Ok? || P.ProcNet(sys.tcp, sys.tcp6, sys.udp, sys.udp6).Fine?) then
        && socketEntries == (if N.QueryAll(sys.datagrams).Ok? then N.QueryAll(sys.datagrams).value
                             else P.ProcNet(sys.tcp, sys.tcp6, sys.udp, sys.udp6).value)
        && Pids == sys.pids && lastRefresh == now
      else unchanged(this)
    }

    method RefreshIfNeeded(sys: System, check: Instant, now: Instant) returns (ok: bool)
      requires Valid()
      modifies this
      ensures Valid() && Settled(sys, check, now)
      ensures ok <==> || check < old(lastRefresh) + 1_000_000_000 || N.QueryAll(sys.datagrams).Ok?
                      || P.ProcNet(sys.tcp, sys.tcp6, sys.udp, sys.udp6).Fine?
    {
      if Elapsed(lastRefresh, check) < RESOLVER_REFRESH_PERIOD { return true; }
      ok := Refresh(sys, now);
    }

    /** Finds the owner of the first socket that matches the flow, in whatever order the table is
        walked. */
    method ResolveFlowOwner(flow: FlowKey, sys: System, check: Instant, now: Instant, walk: set<U64> -> seq<U64>)
        returns (r: Option<ProcessInfo>)
      requires Valid() && forall keys :: Walks(walk(keys), keys)
      modifies this
      ensures Valid() && Settled(sys, check, now)
      ensures r == FirstOwner(flow, walk(socketEntries.Keys), socketEntries, inodeToProcess)
      ensures r.Some? <==> SomeSocketMatches(socketEntries, flow)
      ensures r.Some? ==> OwnsMatch(r.value, socketEntries, Pids, uidMap, flow)
    {
      var _ := RefreshIfNeeded(sys, check, now);
      r := FindOwner(flow, walk(socketEntries.Keys));
    }

    method FindOwner(flow: FlowKey, order: seq<U64>) returns (r: Option<ProcessInfo>)
      requires Valid() && Walks(order, socketEntries.Keys)
      ensures r == FirstOwner(flow, order, socketEntries, inodeToProcess)
      ensures r.Some? <==> SomeSocketMatches(socketEntries, flow)
      ensures r.Some? ==> OwnsMatch(r.value, socketEntries, Pids, uidMap, flow)
    {
      OwnerOnWalk(flow, order, socketEntries, Pids, uidMap);
      r := WalkSockets(flow, order);
    }

    method WalkSockets(flow: FlowKey, order: seq<U64>) returns (r: Option<ProcessInfo>)
      requires Valid() && Walks(order, socketEntries.Keys)
      ensures r == FirstOwner(flow, order, socketEntries, inodeToProcess)
    {
      for n := 0 to |order|
        invariant FirstOwner(flow, order, socketEntries, inodeToProcess)
               == FirstOwner(flow, order[n..], socketEntries, inodeToProcess)
      {
        var entry := socketEntries[order[n]];
        assert order[n..][1..] == order[n + 1..];
        if FlowMatches(entry, flow) && entry.inode in inodeToProcess {
          return Some(inodeToProcess[entry.inode]);
        }
      }
      r := None;
    }

    method ListConnections(sys: System, check: Instant, now: Instant) returns (rows: seq<ResolvedConnection>)
      requires Valid()
      modifies this
      ensures Valid() && Settled(sys, check, now)
      ensures rows == connections
    {
      var _ := RefreshIfNeeded(sys, check, now);
      rows := connections;
    }

    /** A process is known exactly while one of its sockets is. */
    method ProcessByPid(pid: U32, sys: System, check: Instant, now: Instant) returns (r: Option<ProcessInfo>)
      requires Valid()
      modifies this
      ensures Valid() && Settled(sys, check, now)
      ensures r.None? <==> forall k :: k in inodeToProcess ==> inodeToProcess[k].pid != pid
      ensures r.Some? ==> r.value.pid == pid && r.value in inodeToProcess.Values
    {
      var _ := RefreshIfNeeded(sys, check, now);
      r := FindPid(pid);
    }

    method FindPid(pid: U32) returns (r: Option<ProcessInfo>)
      ensures r.None? <==> forall k :: k in inodeToProcess ==> inodeToProcess[k].pid != pid
      ensures r.Some? ==> r.value.pid == pid && r.value in inodeToProcess.Values
    {
      var rest := inodeToProcess.Keys;
      while rest != {}
        invariant rest <= inodeToProcess.Keys
        invariant forall k :: k in inodeToProcess && k !in rest ==> inodeToProcess[k].pid != pid
        decreases rest
      {
        var k :| k in rest;
        if inodeToProcess[k].pid == pid { return Some(inodeToProcess[k]); }
        rest := rest - {k};
      }
      r := None;
    }
  }

  // ---- The two views agree ----

  lemma {:induction false} LookupFinds(flow: FlowKey, cache: seq<ResolvedConnection>, i: nat)
    requires i <= |cache|
    ensures var r := LookupFrom(flow, cache, i);
            && (r.Some? ==> exists j :: i <= j < |cache| && r.value == InfoOf(cache[j])
                              && Matches(cache[j].localAddr, cache[j].remoteAddr, cache[j].protocol, flow))
            && (r.None? ==> forall j :: i <= j < |cache| ==>
                              !Matches(cache[j].localAddr, cache[j].remoteAddr, cache[j].protocol, flow))
    decreases |cache| - i
  {
    if i < |cache| { LookupFinds(flow, cache, i + 1); }
  }

  /** On one snapshot, the connection list yields an owner exactly when the socket table does,
      and it is the row of a matching socket. */
  lemma LookupsAgree(connections: seq<ResolvedConnection>, sockets: Table, pids: Pids, uids: Uids, flow: FlowKey)
    requires N.FiledByInode(sockets) && Lists(connections, sockets, pids, uids)
    ensures LookupFrom(flow, connections, 0).Some? <==> SomeSocketMatches(sockets, flow)
    ensures LookupFrom(flow, connections, 0).Some? ==>
              exists k :: k in sockets && FlowMatches(sockets[k], flow)
                          && LookupFrom(flow, connections, 0).value == InfoOf(ConnectionOf(sockets[k], pids, uids))
  {
    LookupFinds(flow, connections, 0);
    var r := LookupFrom(flow, connections, 0);
    if r.Some? {
      var j :| 0 <= j < |connections| && r.value == InfoOf(connections[j])
               && Matches(connections[j].localAddr, connections[j].remoteAddr, connections[j].protocol, flow);
      assert IsRowOf(connections[j], sockets, pids, uids);
      assert FlowMatches(sockets[connections[j].inode], flow);
    } else {
      forall k | k in sockets ensures !FlowMatches(sockets[k], flow) {
        assert HasRowFor(connections, k);
        var i :| 0 <= i < |connections| && connections[i].inode == k;
        assert IsRowOf(connections[i], sockets, pids, uids);
      }
    }
  }

  /** For one socket, the two views name the same thread in the same words. They name the same
      user exactly when the scan found a holder, or the socket belongs to a user 0 without name. */
  lemma OwnersAgree(e: N.SocketEntry, pids: Pids, uids: Uids)
    ensures var a, b := OwnerInfo(e.inode, pids, uids), InfoOf(ConnectionOf(e, pids, uids));
            && a.pid == b.pid && a.tid == b.tid && a.name == b.name && a.threadName == b.threadName
            && (a == b <==> e.inode in pids || (e.uid == 0 && UserName(0, uids) == UNKNOWN_LABEL))
  {
  }

  /** When a single socket matches, attribution does not depend on which view is asked: every
      answer the table can give and the answer of the list name the same thread. */
  lemma SingleMatchIsUnambiguous(connections: seq<ResolvedConnection>, sockets: Table, pids: Pids, uids: Uids,
                                 flow: FlowKey, k: U64, answer: ProcessInfo)
    requires N.FiledByInode(sockets) && Lists(connections, sockets, pids, uids)
    requires k in sockets && FlowMatches(sockets[k], flow)
    requires forall q :: q in sockets && FlowMatches(sockets[q], flow) ==> q == k
    requires OwnsMatch(answer, sockets, pids, uids, flow)
    ensures LookupFrom(flow, connections, 0).Some?
    ensures ThreadKeyOf(LookupFrom(flow, connections, 0).value) == ThreadKeyOf(answer)
  {
    LookupsAgree(connections, sockets, pids, uids, flow);
    OwnersAgree(sockets[k], pids, uids);
  }

  /** The list names a process exactly when the owner map does. */
  lemma PidsAgree(connections: seq<ResolvedConnection>, sockets: Table, pids: Pids, uids: Uids, pid: U32)
    requires N.FiledByInode(sockets) && Lists(connections, sockets, pids, uids)
    ensures (exists k :: k in sockets && OwnersOf(sockets, pids, uids)[k].pid == pid)
       <==> (exists i :: 0 <= i < |connections| && connections[i].pid == pid)
  {
    if k :| k in sockets && OwnersOf(sockets, pids, uids)[k].pid == pid {
      assert HasRowFor(connections, k);
      var i :| 0 <= i < |connections| && connections[i].inode == k;
      assert IsRowOf(connections[i], sockets, pids, uids);
      OwnersAgree(sockets[k], pids, uids);
    }
    if i :| 0 <= i < |connections| && connections[i].pid == pid {
      assert IsRowOf(connections[i], sockets, pids, uids);
      OwnersAgree(sockets[connections[i].inode], pids, uids);
    }
  }
}
