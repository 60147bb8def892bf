/** Machine integers, addresses and flow records shared by every crate. */
module Net {

  datatype Option<+T> = None | Some(value: T)

  const U16_MAX: nat := 0xFFFF
  const U32_MAX: nat := 0xFFFF_FFFF
  const U64_MAX: nat := 0xFFFF_FFFF_FFFF_FFFF

  type Byte = n: nat | n < 256
  type U16 = n: nat | n <= U16_MAX
  type U32 = n: nat | n <= U32_MAX
  type U64 = n: nat | n <= U64_MAX

  /** What a counter of 64 bits shows of a count that has no bound. */
  function Sat(n: nat): U64 {
    if n > U64_MAX then U64_MAX else n
  }

  /** `u64::saturating_add`. */
  function SaturatingAdd(a: U64, b: U64): U64 {
    Sat(a + b)
  }

  /** The unchecked `+` on `u64`, as an optimised build computes it. */
  function WrappingAdd(a: U64, b: U64): U64 {
    (a + b) % (U64_MAX + 1)
  }

  type Octets4 = s: seq<Byte> | |s| == 4 witness [0, 0, 0, 0]
  type Octets16 = s: seq<Byte> | |s| == 16 witness [0, 0, 0, 0, 0, 0, 0, 0, 0, 0, 0, 0, 0, 0, 0, 0]

  datatype IpAddr = V4(v4: Octets4) | V6(v6: Octets16)
  datatype SocketAddr = SocketAddr(ip: IpAddr, port: U16)
  datatype Protocol = Tcp | Udp | Other(number: Byte)
  datatype Direction = Tx | Rx

  datatype FlowKey = FlowKey(srcIp: IpAddr, dstIp: IpAddr, srcPort: U16, dstPort: U16, protocol: Protocol) {
    function Source(): SocketAddr { SocketAddr(srcIp, srcPort) }
    function Destination(): SocketAddr { SocketAddr(dstIp, dstPort) }

    /** The same conversation seen from the other end. */
    function Mirror(): FlowKey { FlowKey(dstIp, srcIp, dstPort, srcPort, protocol) }
  }

  datatype FlowRecord = FlowRecord(key: FlowKey, byteCount: U32, direction: Direction)

  datatype ProcessInfo = ProcessInfo(pid: U32, tid: U32, name: string, threadName: string, uid: U32, username: string)

  datatype ResolvedConnection = ResolvedConnection(
    localAddr: SocketAddr, remoteAddr: SocketAddr, protocol: Protocol, state: string, inode: U64,
    pid: U32, tid: U32, process: string, threadName: string, uid: U32, username: string)

  /** A reading of the monotone clock, in nanoseconds. */
  type Instant = nat

  const SECOND: nat := 1_000_000_000

  /** `Instant::elapsed`, which never goes below zero. */
  function Elapsed(since: Instant, now: Instant): nat {
    if now <= since then 0 else now - since
  }
}
