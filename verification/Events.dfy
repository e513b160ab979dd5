/** Raw events, window hashes, and what one event adds to its host's: services/features/compute.py:160-230. */
module Events {
  import opened Options

  datatype Kind = Flow | Packet

  datatype Flag = Syn | Ack | Rst | Fin | Psh | Urg

  /** The measurements a raw event may carry. */
  datatype Raw =
    | PktsFwd | PktsBwd | FlagsSeen(flag: Flag) | BytesFwd | BytesBwd | Duration | IatMean | IatMax
    | TcpFlags | FrameLen | Ttl | TcpWindow | Frag | TcpLen | Retransmission

  datatype Event = Event(src: Option<int>, dst: Option<int>, dstPort: Option<int>, ts: int, kind: Kind,
                         fields: map<Raw, real>)

  /** The fields of a window hash: running scalars, then value-count buckets. */
  datatype Field =
    | NFlows | NPackets | PktCount | FlowPkts | FlagCount(flag: Flag) | BytesUp | BytesDown
    | DurSum | DurSq | IatSum | IatSq | NTtl | TtlSum | TtlSq | NTcpWindow | TcpWindowSum
    | FragCount | NPayload | PayloadSum | PayloadSq | RetransCount
    | Peer(ip: int) | Port(port: int) | WindowSize(size: int) | PayloadSize(size: int) | FlowIatMax(micros: int)

  type Hash = map<Field, real>

  const FLAG_BITS: seq<(Flag, nat)> := [(Syn, 0x02), (Ack, 0x10), (Rst, 0x04), (Fin, 0x01), (Psh, 0x08), (Urg, 0x20)]

  function Get(h: Hash, f: Field): real {
    if f in h then h[f] else 0.0
  }

  function Bump(h: Hash, f: Field, amount: real): Hash {
    h[f := Get(h, f) + amount]
  }

  function Read(fields: map<Raw, real>, r: Raw): real {
    if r in fields then fields[r] else 0.0
  }

  /** `int` of a float: toward zero. */
  function Truncate(x: real): int {
    if x >= 0.0 then x.Floor else -((-x).Floor)
  }

  /** `round` to the nearest integer, ties to even. */
  function RoundHalfEven(x: real): int {
    var down := x.Floor;
    var rest := x - down as real;
    if rest < 0.5 || (rest == 0.5 && down % 2 == 0) then down else down + 1
  }

  function Square(x: real): real {
    x * x
  }

  /** The increments of one event, one after the other. */
  type Bumps = seq<(Field, real)>

  function FlowFlagBumps(fields: map<Raw, real>, n: nat): Bumps
    requires n <= |FLAG_BITS|
  {
    if n == 0 then []
    else
      var flag := FLAG_BITS[n - 1].0;
      var count := Read(fields, FlagsSeen(flag));
      FlowFlagBumps(fields, n - 1) + if count != 0.0 then [(FlagCount(flag), count)] else []
  }

  /** `flags & bit`, for a bit that is a power of two. */
  predicate HasBit(flags: int, bit: nat)
    decreases bit
  {
    if bit <= 1 then bit == 1 && flags % 2 == 1 else HasBit(flags / 2, bit / 2)
  }

  function PacketFlagBumps(flags: int, n: nat): Bumps
    requires n <= |FLAG_BITS|
  {
    if n == 0 then []
    else
      var (flag, bit) := FLAG_BITS[n - 1];
      PacketFlagBumps(flags, n - 1) + if HasBit(flags, bit) then [(FlagCount(flag), 1.0)] else []
  }

  function AddressBumps(e: Event): Bumps {
    (if e.dst.Some? then [(Peer(e.dst.value), 1.0)] else [])
    + if e.dstPort.Some? then [(Port(e.dstPort.value), 1.0)] else []
  }

  function FlowCountBumps(fields: map<Raw, real>): Bumps {
    var packets := Read(fields, PktsFwd) + Read(fields, PktsBwd);
    [(NFlows, 1.0), (PktCount, packets), (FlowPkts, packets)]
  }

  function FlowByteBumps(fields: map<Raw, real>): Bumps {
    [(BytesUp, Read(fields, BytesFwd)), (BytesDown, Read(fields, BytesBwd))]
  }

  function FlowTimeBumps(fields: map<Raw, real>): Bumps {
    var duration, iat := Read(fields, Duration), Read(fields, IatMean);
    [(DurSum, duration), (DurSq, Square(duration)), (IatSum, iat), (IatSq, Square(iat))]
  }

  /** The longest gap, in microseconds, is counted in a bucket of its own. */
  function FlowGapBumps(fields: map<Raw, real>): Bumps {
    [(FlowIatMax(RoundHalfEven(Read(fields, IatMax) * 1000000.0)), 1.0)]
  }

  function FlowBumps(fields: map<Raw, real>): Bumps {
    FlowCountBumps(fields) + FlowFlagBumps(fields, 6) + FlowByteBumps(fields) + FlowTimeBumps(fields)
    + FlowGapBumps(fields)
  }

  const PACKET_COUNT_BUMPS: Bumps := [(NPackets, 1.0), (PktCount, 1.0)]

  function FrameBumps(fields: map<Raw, real>): Bumps {
    [(BytesUp, Read(fields, FrameLen))]
  }

  function TtlBumps(fields: map<Raw, real>): Bumps {
    if Ttl in fields then
      var ttl := fields[Ttl];
      [(NTtl, 1.0), (TtlSum, ttl), (TtlSq, Square(ttl))]
    else []
  }

  function WindowBumps(fields: map<Raw, real>): Bumps {
    if TcpWindow in fields then
      var window := fields[TcpWindow];
      [(NTcpWindow, 1.0), (TcpWindowSum, window), (WindowSize(Truncate(window)), 1.0)]
    else []
  }

  function FragBumps(fields: map<Raw, real>): Bumps {
    if Read(fields, Frag) != 0.0 then [(FragCount, 1.0)] else []
  }

  function PayloadBumps(fields: map<Raw, real>): Bumps {
    if TcpLen in fields then
      var payload := fields[TcpLen];
      [(NPayload, 1.0), (PayloadSum, payload), (PayloadSq, Square(payload)), (PayloadSize(Truncate(payload)), 1.0)]
    else []
  }

  function RetransBumps(fields: map<Raw, real>): Bumps {
    if Read(fields, Retransmission) != 0.0 then [(RetransCount, 1.0)] else []
  }

  function PacketBumps(fields: map<Raw, real>): Bumps {
    PACKET_COUNT_BUMPS + PacketFlagBumps(Truncate(Read(fields, TcpFlags)), 6) + FrameBumps(fields) + TtlBumps(fields)
    + WindowBumps(fields) + FragBumps(fields) + PayloadBumps(fields) + RetransBumps(fields)
  }

  function KindBumps(e: Event): Bumps {
    match e.kind
    case Flow => FlowBumps(e.fields)
    case Packet => PacketBumps(e.fields)
  }

  function EventBumps(e: Event): Bumps {
    AddressBumps(e) + KindBumps(e)
  }

  function BumpAll(h: Hash, bs: Bumps): Hash {
    if bs == [] then h else Bump(BumpAll(h, bs[..|bs| - 1]), bs[|bs| - 1].0, bs[|bs| - 1].1)
  }

  function EventIncrements(e: Event): Hash {
    BumpAll(map[], EventBumps(e))
  }

  function EventCount(h: Hash): real {
    Get(h, NFlows) + Get(h, NPackets)
  }

  function Peers(h: Hash): set<int> {
    set f | f in h && f.Peer? :: f.ip
  }
}
