/** Who a record is counted for, in plain fields. */
module Attribution {
  import opened Net
  import opened TrafficLog
  import opened AggregatorModel

  /** A socket matches a flow if and only if the flow is one of its own two: from its local to its
      remote end, or back. */
  lemma MatchesExactly(local: SocketAddr, remote: SocketAddr, protocol: Protocol, flow: FlowKey)
    ensures Matches(local, remote, protocol, flow)
       <==> || flow == FlowKey(local.ip, remote.ip, local.port, remote.port, protocol)
            || flow == FlowKey(remote.ip, local.ip, remote.port, local.port, protocol)
  {
  }

  /** So sockets of different protocols or different pairs of ends never match one flow. */
  lemma OneFlowOnePair(a: SocketAddr, b: SocketAddr, p: Protocol, c: SocketAddr, d: SocketAddr, q: Protocol,
                       flow: FlowKey)
    requires Matches(a, b, p, flow) && Matches(c, d, q, flow)
    ensures p == q && ((a == c && b == d) || (a == d && b == c))
  {
  }

  /** The connection is one of the flow: the same protocol and the same two ends, either way round. */
  ghost predicate OfFlow(c: ResolvedConnection, flow: FlowKey) {
    || flow == FlowKey(c.localAddr.ip, c.remoteAddr.ip, c.localAddr.port, c.remoteAddr.port, c.protocol)
    || flow == FlowKey(c.remoteAddr.ip, c.localAddr.ip, c.remoteAddr.port, c.localAddr.port, c.protocol)
  }

  ghost predicate FirstOfFlow(cache: seq<ResolvedConnection>, flow: FlowKey, i: nat) {
    i < |cache| && OfFlow(cache[i], flow) && forall j :: 0 <= j < i ==> !OfFlow(cache[j], flow)
  }

  lemma {:induction false} LookupIsFirst(flow: FlowKey, cache: seq<ResolvedConnection>, n: nat, i: nat)
    requires n <= i && FirstOfFlow(cache, flow, i)
    ensures LookupFrom(flow, cache, n)
         == Some(ProcessInfo(cache[i].pid, cache[i].tid, cache[i].process, cache[i].threadName, cache[i].uid,
                             cache[i].username))
    decreases i - n
  {
    MatchesExactly(cache[n].localAddr, cache[n].remoteAddr, cache[n].protocol, flow);
    if n < i { LookupIsFirst(flow, cache, n + 1, i); }
  }

  lemma {:induction false} LookupFails(flow: FlowKey, cache: seq<ResolvedConnection>, n: nat)
    requires n <= |cache| && forall i :: n <= i < |cache| ==> !OfFlow(cache[i], flow)
    ensures LookupFrom(flow, cache, n) == None
    decreases |cache| - n
  {
    if n < |cache| {
      MatchesExactly(cache[n].localAddr, cache[n].remoteAddr, cache[n].protocol, flow);
      LookupFails(flow, cache, n + 1);
    }
  }

  /** The resolver's answer comes first; without one, the first cached connection of the flow; without
      one, nobody. */
  lemma OwnersInTurn(a: Arrival, cache: seq<ResolvedConnection>)
    ensures a.resolved.Some? ==> OwnerOf(a, cache) == a.resolved.value
    ensures forall i: nat :: a.resolved.None? && FirstOfFlow(cache, a.record.key, i) ==>
              OwnerOf(a, cache) == ProcessInfo(cache[i].pid, cache[i].tid, cache[i].process, cache[i].threadName,
                                               cache[i].uid, cache[i].username)
    ensures a.resolved.None? && (forall i :: 0 <= i < |cache| ==> !OfFlow(cache[i], a.record.key)) ==>
              OwnerOf(a, cache) == ProcessInfo(0, 0, "[unknown]", "[unknown]", 0, "[unknown]")
  {
    forall i: nat | FirstOfFlow(cache, a.record.key, i)
      ensures LookupFrom(a.record.key, cache, 0)
           == Some(ProcessInfo(cache[i].pid, cache[i].tid, cache[i].process, cache[i].threadName, cache[i].uid,
                               cache[i].username))
    {
      LookupIsFirst(a.record.key, cache, 0, i);
    }
    if forall i :: 0 <= i < |cache| ==> !OfFlow(cache[i], a.record.key) {
      LookupFails(a.record.key, cache, 0);
    }
  }

  /** One record is counted once for its thread, under the ends as its direction says, and nowhere else. */
  lemma RecordGoesToOwner(s: State, a: Arrival)
    ensures var info, key, after := OwnerOf(a, s.cache), a.record.key, ProcessRecord(s, a);
            var c := if a.record.direction.Tx?
                     then ConnectionKey(info.pid, info.tid, SocketAddr(key.srcIp, key.srcPort),
                                        SocketAddr(key.dstIp, key.dstPort), key.protocol)
                     else ConnectionKey(info.pid, info.tid, SocketAddr(key.dstIp, key.dstPort),
                                        SocketAddr(key.srcIp, key.srcPort), key.protocol);
            && after.threads.Keys == s.threads.Keys + {ThreadKey(info.pid, info.tid)}
            && after.conns.Keys == s.conns.Keys + {c}
            && (forall k :: k in s.threads && k != ThreadKey(info.pid, info.tid) ==> after.threads[k] == s.threads[k])
            && (forall d :: d in s.conns && d != c ==> after.conns[d] == s.conns[d])
            && after.threads[ThreadKey(info.pid, info.tid)].info == info
  {
  }
}
