/**
 * What one raw event carries of every field, read off its measurements alone, and the
 * law that this is what it adds to its host's window.
 */
module Carried {
  import opened Options
  import opened Events

  // ------------------------------------------------------------ one event

  function Value(e: Event, r: Raw): real {
    if r in e.fields then e.fields[r] else 0.0
  }

  /** n is x without its fraction. */
  predicate IsTruncation(x: real, n: int) {
    if x >= 0.0 then n as real <= x < n as real + 1.0 else n as real - 1.0 < x <= n as real
  }

  /** n is nearest to x, and even when two are. */
  predicate IsRounding(x: real, n: int) {
    var off := x - n as real;
    -0.5 <= off <= 0.5 && (off == 0.5 || off == -0.5 ==> n % 2 == 0)
  }

  /** The header bit of a flag (RFC 793, section 3.1). */
  function Bit(flag: Flag): nat {
    match flag
    case Fin => 1
    case Syn => 2
    case Rst => 4
    case Psh => 8
    case Ack => 16
    case Urg => 32
  }

  ghost predicate Raises(e: Event, flag: Flag) {
    exists n: int :: IsTruncation(Value(e, TcpFlags), n) && n / Bit(flag) % 2 == 1
  }

  /** A packet's measurement cut to the integer n. */
  predicate Measures(e: Event, r: Raw, n: int) {
    e.kind == Packet && r in e.fields && IsTruncation(e.fields[r], n)
  }

  function Count(b: bool): real {
    if b then 1.0 else 0.0
  }

  function OfFlow(e: Event, x: real): real {
    if e.kind == Flow then x else 0.0
  }

  /** Of a packet, and only when it was measured. */
  function OfPacket(e: Event, r: Raw, x: real): real {
    if e.kind == Packet && r in e.fields then x else 0.0
  }

  function Squared(x: real): real {
    x * x
  }

  /** What one event carries of one field. */
  ghost function Carries(e: Event, f: Field): real {
    match f
    case NFlows => Count(e.kind == Flow)
    case NPackets => Count(e.kind == Packet)
    case PktCount => if e.kind == Flow then Value(e, PktsFwd) + Value(e, PktsBwd) else 1.0
    case FlowPkts => OfFlow(e, Value(e, PktsFwd) + Value(e, PktsBwd))
    case FlagCount(flag) => if e.kind == Flow then Value(e, FlagsSeen(flag)) else Count(Raises(e, flag))
    case BytesUp => if e.kind == Flow then Value(e, BytesFwd) else Value(e, FrameLen)
    case BytesDown => OfFlow(e, Value(e, BytesBwd))
    case DurSum => OfFlow(e, Value(e, Duration))
    case DurSq => OfFlow(e, Squared(Value(e, Duration)))
    case IatSum => OfFlow(e, Value(e, IatMean))
    case IatSq => OfFlow(e, Squared(Value(e, IatMean)))
    case NTtl => OfPacket(e, Ttl, 1.0)
    case TtlSum => OfPacket(e, Ttl, Value(e, Ttl))
    case TtlSq => OfPacket(e, Ttl, Squared(Value(e, Ttl)))
    case NTcpWindow => OfPacket(e, TcpWindow, 1.0)
    case TcpWindowSum => OfPacket(e, TcpWindow, Value(e, TcpWindow))
    case FragCount => Count(e.kind == Packet && Value(e, Frag) != 0.0)
    case NPayload => OfPacket(e, TcpLen, 1.0)
    case PayloadSum => OfPacket(e, TcpLen, Value(e, TcpLen))
    case PayloadSq => OfPacket(e, TcpLen, Squared(Value(e, TcpLen)))
    case RetransCount => Count(e.kind == Packet && Value(e, Retransmission) != 0.0)
    case Peer(ip) => Count(e.dst == Some(ip))
    case Port(port) => Count(e.dstPort == Some(port))
    case WindowSize(size) => Count(Measures(e, TcpWindow, size))
    case PayloadSize(size) => Count(Measures(e, TcpLen, size))
    case FlowIatMax(micros) => Count(e.kind == Flow && IsRounding(Value(e, IatMax) * 1000000.0, micros))
  }

  // ------------------------------------------------------- sums of bumps

  /** What a run of increments adds to one field. */
  function SumFor(bs: Bumps, f: Field): real {
    if bs == [] then 0.0
    else SumFor(bs[..|bs| - 1], f) + if bs[|bs| - 1].0 == f then bs[|bs| - 1].1 else 0.0
  }

  predicate Touches(bs: Bumps, f: Field) {
    bs != [] && (bs[|bs| - 1].0 == f || Touches(bs[..|bs| - 1], f))
  }

  lemma {:induction false} BumpAllAdds(h: Hash, bs: Bumps, f: Field)
    ensures Get(BumpAll(h, bs), f) == Get(h, f) + SumFor(bs, f)
    ensures f in BumpAll(h, bs) <==> f in h || Touches(bs, f)
  {
    if bs != [] {
      BumpAllAdds(h, bs[..|bs| - 1], f);
    }
  }

  lemma SumSnoc(bs: Bumps, g: Field, amount: real, f: Field)
    ensures SumFor(bs + [(g, amount)], f) == SumFor(bs, f) + if g == f then amount else 0.0
    ensures Touches(bs + [(g, amount)], f) <==> g == f || Touches(bs, f)
  {
    assert (bs + [(g, amount)])[..|bs|] == bs;
  }

  lemma {:induction false} SumConcat(a: Bumps, b: Bumps, f: Field)
    ensures SumFor(a + b, f) == SumFor(a, f) + SumFor(b, f)
    ensures Touches(a + b, f) <==> Touches(a, f) || Touches(b, f)
    decreases |b|
  {
    if b == [] {
      assert a + b == a;
    } else {
      assert (a + b)[..|a + b| - 1] == a + b[..|b| - 1];
      SumConcat(a, b[..|b| - 1], f);
    }
  }

  function At(f: Field, g: Field, amount: real): real {
    if f == g then amount else 0.0
  }

  lemma SumOfOne(g: Field, a: real, f: Field)
    ensures SumFor([(g, a)], f) == At(f, g, a)
    ensures Touches([(g, a)], f) <==> f == g
  {
    SumSnoc([], g, a, f);
    assert [] + [(g, a)] == [(g, a)];
  }

  lemma SumOfTwo(g1: Field, a1: real, g2: Field, a2: real, f: Field)
    ensures SumFor([(g1, a1), (g2, a2)], f) == At(f, g1, a1) + At(f, g2, a2)
    ensures Touches([(g1, a1), (g2, a2)], f) <==> f == g1 || f == g2
  {
    SumOfOne(g1, a1, f);
    SumSnoc([(g1, a1)], g2, a2, f);
    assert [(g1, a1)] + [(g2, a2)] == [(g1, a1), (g2, a2)];
  }

  lemma SumOfThree(g1: Field, a1: real, g2: Field, a2: real, g3: Field, a3: real, f: Field)
    ensures SumFor([(g1, a1), (g2, a2), (g3, a3)], f) == At(f, g1, a1) + At(f, g2, a2) + At(f, g3, a3)
    ensures Touches([(g1, a1), (g2, a2), (g3, a3)], f) <==> f == g1 || f == g2 || f == g3
  {
    SumOfTwo(g1, a1, g2, a2, f);
    SumSnoc([(g1, a1), (g2, a2)], g3, a3, f);
    assert [(g1, a1), (g2, a2)] + [(g3, a3)] == [(g1, a1), (g2, a2), (g3, a3)];
  }

  lemma SumOfFour(g1: Field, a1: real, g2: Field, a2: real, g3: Field, a3: real, g4: Field, a4: real, f: Field)
    ensures SumFor([(g1, a1), (g2, a2), (g3, a3), (g4, a4)], f)
         == At(f, g1, a1) + At(f, g2, a2) + At(f, g3, a3) + At(f, g4, a4)
    ensures Touches([(g1, a1), (g2, a2), (g3, a3), (g4, a4)], f) <==> f == g1 || f == g2 || f == g3 || f == g4
  {
    SumOfThree(g1, a1, g2, a2, g3, a3, f);
    SumSnoc([(g1, a1), (g2, a2), (g3, a3)], g4, a4, f);
    assert [(g1, a1), (g2, a2), (g3, a3)] + [(g4, a4)] == [(g1, a1), (g2, a2), (g3, a3), (g4, a4)];
  }

  // -------------------------------------------------------------- numbers

  lemma TruncateIs(x: real, n: int)
    ensures Truncate(x) == n <==> IsTruncation(x, n)
  {
  }

  lemma RoundIs(x: real, n: int)
    ensures RoundHalfEven(x) == n <==> IsRounding(x, n)
  {
  }

  lemma FlagBits()
    ensures |FLAG_BITS| == 6
    ensures forall i | 0 <= i < 6 :: FLAG_BITS[i].1 == Bit(FLAG_BITS[i].0)
    ensures forall i, j | 0 <= i < j < 6 :: FLAG_BITS[i].0 != FLAG_BITS[j].0
  {
    assert FLAG_BITS[0].0 == Syn && FLAG_BITS[1].0 == Ack && FLAG_BITS[2].0 == Rst;
    assert FLAG_BITS[3].0 == Fin && FLAG_BITS[4].0 == Psh && FLAG_BITS[5].0 == Urg;
  }

  /** The flag stands among the first n of the list. */
  predicate Listed(flag: Flag, n: nat)
    requires n <= |FLAG_BITS|
  {
    exists i | 0 <= i < n :: FLAG_BITS[i].0 == flag
  }

  lemma ListedSnoc(flag: Flag, n: nat)
    requires 0 < n <= 6
    ensures Listed(flag, n) <==> FLAG_BITS[n - 1].0 == flag || Listed(flag, n - 1)
    ensures Listed(FLAG_BITS[n - 1].0, n) && !Listed(FLAG_BITS[n - 1].0, n - 1)
  {
    FlagBits();
  }

  lemma AllListed(flag: Flag)
    ensures Listed(flag, 6)
  {
    assert FLAG_BITS[0].0 == Syn && FLAG_BITS[1].0 == Ack && FLAG_BITS[2].0 == Rst;
    assert FLAG_BITS[3].0 == Fin && FLAG_BITS[4].0 == Psh && FLAG_BITS[5].0 == Urg;
  }

  lemma HasBitHalves(flags: int, bit: nat)
    requires bit > 0
    ensures HasBit(flags, 2 * bit) <==> HasBit(flags / 2, bit)
  {
    assert 2 * bit / 2 == bit;
  }

  lemma HasBitIs(flags: int, flag: Flag)
    ensures HasBit(flags, Bit(flag)) <==> flags / Bit(flag) % 2 == 1
  {
    HasBitHalves(flags, 1);
    HasBitHalves(flags, 2);
    HasBitHalves(flags / 2, 1);
    HasBitHalves(flags, 4);
    HasBitHalves(flags / 2, 2);
    HasBitHalves(flags / 4, 1);
    HasBitHalves(flags, 8);
    HasBitHalves(flags / 2, 4);
    HasBitHalves(flags / 4, 2);
    HasBitHalves(flags / 8, 1);
    HasBitHalves(flags, 16);
    HasBitHalves(flags / 2, 8);
    HasBitHalves(flags / 4, 4);
    HasBitHalves(flags / 8, 2);
    HasBitHalves(flags / 16, 1);
    assert flags / 2 / 2 == flags / 4 && flags / 4 / 2 == flags / 8;
    assert flags / 8 / 2 == flags / 16 && flags / 16 / 2 == flags / 32;
  }

  lemma FlagsRaised(e: Event, flag: Flag)
    ensures Raises(e, flag) <==> HasBit(Truncate(Read(e.fields, TcpFlags)), Bit(flag))
  {
    var x := Value(e, TcpFlags);
    TruncateIs(x, Truncate(x));
    HasBitIs(Truncate(x), flag);
    if n: int :| IsTruncation(x, n) && n / Bit(flag) % 2 == 1 {
      TruncateIs(x, n);
    }
  }

  // ----------------------------------------------------- one event's bumps

  lemma {:induction false} FlowFlagsAdd(e: Event, n: nat, f: Field)
    requires n <= 6
    ensures SumFor(FlowFlagBumps(e.fields, n), f)
         == if f.FlagCount? && Listed(f.flag, n) then Value(e, FlagsSeen(f.flag)) else 0.0
    ensures Touches(FlowFlagBumps(e.fields, n), f) ==> f.FlagCount?
  {
    if n > 0 {
      var flag := FLAG_BITS[n - 1].0;
      var rest, count := FlowFlagBumps(e.fields, n - 1), Read(e.fields, FlagsSeen(flag));
      FlowFlagsAdd(e, n - 1, f);
      SumSnoc(rest, FlagCount(flag), count, f);
      assert rest + [] == rest;
      if f.FlagCount? {
        ListedSnoc(f.flag, n);
        ListedSnoc(flag, n);
      }
    }
  }

  lemma {:induction false} PacketFlagsAdd(flags: int, n: nat, f: Field)
    requires n <= 6
    ensures SumFor(PacketFlagBumps(flags, n), f)
         == Count(f.FlagCount? && Listed(f.flag, n) && HasBit(flags, Bit(f.flag)))
    ensures Touches(PacketFlagBumps(flags, n), f) ==> f.FlagCount?
  {
    if n > 0 {
      var (flag, bit) := FLAG_BITS[n - 1];
      var rest := PacketFlagBumps(flags, n - 1);
      FlagBits();
      PacketFlagsAdd(flags, n - 1, f);
      SumSnoc(rest, FlagCount(flag), 1.0, f);
      assert rest + [] == rest;
      if f.FlagCount? {
        ListedSnoc(f.flag, n);
        ListedSnoc(flag, n);
      }
    }
  }

  lemma AddressAdds(e: Event, f: Field)
    ensures SumFor(AddressBumps(e), f)
         == if f.Peer? then Count(e.dst == Some(f.ip)) else if f.Port? then Count(e.dstPort == Some(f.port)) else 0.0
    ensures Touches(AddressBumps(e), f) <==> (f.Peer? && e.dst == Some(f.ip)) || (f.Port? && e.dstPort == Some(f.port))
  {
    var dst: Bumps := if e.dst.Some? then [(Peer(e.dst.value), 1.0)] else [];
    var port: Bumps := if e.dstPort.Some? then [(Port(e.dstPort.value), 1.0)] else [];
    SumConcat(dst, port, f);
    if e.dst.Some? { SumOfOne(Peer(e.dst.value), 1.0, f); }
    if e.dstPort.Some? { SumOfOne(Port(e.dstPort.value), 1.0, f); }
  }

  /** What the parts of a flow's or a packet's measurements come to, by field. */
  ghost predicate PartIs(bs: Bumps, f: Field, amount: real) {
    SumFor(bs, f) == amount && (Touches(bs, f) ==> !f.Peer? && !f.Port?)
  }

  lemma PartsAdd(a: Bumps, b: Bumps, f: Field, x: real, y: real)
    requires PartIs(a, f, x) && PartIs(b, f, y)
    ensures PartIs(a + b, f, x + y)
  {
    SumConcat(a, b, f);
  }

  lemma FlowCountsAdd(e: Event, f: Field)
    ensures var packets := Value(e, PktsFwd) + Value(e, PktsBwd);
            PartIs(FlowCountBumps(e.fields), f,
                   At(f, NFlows, 1.0) + At(f, PktCount, packets) + At(f, FlowPkts, packets))
  {
    var packets := Value(e, PktsFwd) + Value(e, PktsBwd);
    SumOfThree(NFlows, 1.0, PktCount, packets, FlowPkts, packets, f);
  }

  lemma FlowBytesAdd(e: Event, f: Field)
    ensures PartIs(FlowByteBumps(e.fields), f,
                   At(f, BytesUp, Value(e, BytesFwd)) + At(f, BytesDown, Value(e, BytesBwd)))
  {
    SumOfTwo(BytesUp, Value(e, BytesFwd), BytesDown, Value(e, BytesBwd), f);
  }

  lemma FlowTimesAdd(e: Event, f: Field)
    ensures PartIs(FlowTimeBumps(e.fields), f,
                   At(f, DurSum, Value(e, Duration)) + At(f, DurSq, Squared(Value(e, Duration)))
                   + At(f, IatSum, Value(e, IatMean)) + At(f, IatSq, Squared(Value(e, IatMean))))
  {
    var dur, iat := Read(e.fields, Duration), Read(e.fields, IatMean);
    SumOfFour(DurSum, dur, DurSq, Square(dur), IatSum, iat, IatSq, Square(iat), f);
    assert Squared(dur) == Square(dur) && Squared(iat) == Square(iat);
  }

  lemma FlowGapsAdd(e: Event, f: Field)
    ensures PartIs(FlowGapBumps(e.fields), f,
                   Count(f.FlowIatMax? && IsRounding(Value(e, IatMax) * 1000000.0, f.micros)))
  {
    var x := Value(e, IatMax) * 1000000.0;
    SumOfOne(FlowIatMax(RoundHalfEven(x)), 1.0, f);
    if f.FlowIatMax? { RoundIs(x, f.micros); }
  }

  lemma FlowFlagsPart(e: Event, f: Field)
    ensures PartIs(FlowFlagBumps(e.fields, 6), f, if f.FlagCount? then Value(e, FlagsSeen(f.flag)) else 0.0)
  {
    FlowFlagsAdd(e, 6, f);
    if f.FlagCount? { AllListed(f.flag); }
  }

  lemma FivePartsAdd(a: Bumps, b: Bumps, c: Bumps, d: Bumps, g: Bumps, f: Field,
                     x: real, y: real, z: real, u: real, v: real)
    requires PartIs(a, f, x) && PartIs(b, f, y) && PartIs(c, f, z) && PartIs(d, f, u) && PartIs(g, f, v)
    ensures PartIs(a + b + c + d + g, f, x + y + z + u + v)
  {
    PartsAdd(a, b, f, x, y);
    PartsAdd(a + b, c, f, x + y, z);
    PartsAdd(a + b + c, d, f, x + y + z, u);
    PartsAdd(a + b + c + d, g, f, x + y + z + u, v);
  }

  lemma FlowParts(e: Event, f: Field)
    ensures PartIs(FlowBumps(e.fields), f,
                   SumFor(FlowCountBumps(e.fields), f) + SumFor(FlowFlagBumps(e.fields, 6), f)
                   + SumFor(FlowByteBumps(e.fields), f) + SumFor(FlowTimeBumps(e.fields), f)
                   + SumFor(FlowGapBumps(e.fields), f))
  {
    var a, b, c := FlowCountBumps(e.fields), FlowFlagBumps(e.fields, 6), FlowByteBumps(e.fields);
    var d, g := FlowTimeBumps(e.fields), FlowGapBumps(e.fields);
    assert PartIs(a, f, SumFor(a, f)) by { FlowCountsAdd(e, f); }
    assert PartIs(b, f, SumFor(b, f)) by { FlowFlagsPart(e, f); }
    assert PartIs(c, f, SumFor(c, f)) by { FlowBytesAdd(e, f); }
    assert PartIs(d, f, SumFor(d, f)) by { FlowTimesAdd(e, f); }
    assert PartIs(g, f, SumFor(g, f)) by { FlowGapsAdd(e, f); }
    FivePartsAdd(a, b, c, d, g, f, SumFor(a, f), SumFor(b, f), SumFor(c, f), SumFor(d, f), SumFor(g, f));
  }

  lemma FlowAdds(e: Event, f: Field)
    ensures PartIs(FlowBumps(e.fields), f, FlowSum(e, f))
  {
    FlowParts(e, f);
    FlowCountsAdd(e, f);
    FlowFlagsPart(e, f);
    FlowBytesAdd(e, f);
    FlowTimesAdd(e, f);
    FlowGapsAdd(e, f);
  }

  ghost function FlowSum(e: Event, f: Field): real {
    var packets := Value(e, PktsFwd) + Value(e, PktsBwd);
    At(f, NFlows, 1.0) + At(f, PktCount, packets) + At(f, FlowPkts, packets)
    + (if f.FlagCount? then Value(e, FlagsSeen(f.flag)) else 0.0)
    + (At(f, BytesUp, Value(e, BytesFwd)) + At(f, BytesDown, Value(e, BytesBwd)))
    + (At(f, DurSum, Value(e, Duration)) + At(f, DurSq, Squared(Value(e, Duration)))
       + At(f, IatSum, Value(e, IatMean)) + At(f, IatSq, Squared(Value(e, IatMean))))
    + Count(f.FlowIatMax? && IsRounding(Value(e, IatMax) * 1000000.0, f.micros))
  }

  /** Everything but the addresses. */
  ghost function Measured(e: Event, f: Field): real {
    if f.Peer? || f.Port? then 0.0 else Carries(e, f)
  }

  lemma FlowSumIs(e: Event, f: Field)
    requires e.kind == Flow
    ensures FlowSum(e, f) == Measured(e, f)
  {
  }

  lemma PacketCountsAdd(f: Field)
    ensures PartIs(PACKET_COUNT_BUMPS, f, At(f, NPackets, 1.0) + At(f, PktCount, 1.0))
  {
    SumOfTwo(NPackets, 1.0, PktCount, 1.0, f);
  }

  lemma PacketFlagsPart(e: Event, f: Field)
    ensures PartIs(PacketFlagBumps(Truncate(Read(e.fields, TcpFlags)), 6), f,
                   Count(f.FlagCount? && Raises(e, f.flag)))
  {
    PacketFlagsAdd(Truncate(Read(e.fields, TcpFlags)), 6, f);
    if f.FlagCount? {
      AllListed(f.flag);
      FlagsRaised(e, f.flag);
    }
  }

  lemma FrameAdds(e: Event, f: Field)
    ensures PartIs(FrameBumps(e.fields), f, At(f, BytesUp, Value(e, FrameLen)))
  {
    SumOfOne(BytesUp, Read(e.fields, FrameLen), f);
  }

  lemma TtlAdds(e: Event, f: Field)
    ensures PartIs(TtlBumps(e.fields), f,
                   if Ttl !in e.fields then 0.0
                   else At(f, NTtl, 1.0) + At(f, TtlSum, Value(e, Ttl)) + At(f, TtlSq, Squared(Value(e, Ttl))))
  {
    if Ttl in e.fields {
      var x := e.fields[Ttl];
      SumOfThree(NTtl, 1.0, TtlSum, x, TtlSq, Square(x), f);
      assert Squared(x) == Square(x);
    }
  }

  lemma WindowAdds(e: Event, f: Field)
    ensures PartIs(WindowBumps(e.fields), f,
                   if TcpWindow !in e.fields then 0.0
                   else At(f, NTcpWindow, 1.0) + At(f, TcpWindowSum, Value(e, TcpWindow))
                        + Count(f.WindowSize? && IsTruncation(e.fields[TcpWindow], f.size)))
  {
    if TcpWindow in e.fields {
      var x := e.fields[TcpWindow];
      SumOfThree(NTcpWindow, 1.0, TcpWindowSum, x, WindowSize(Truncate(x)), 1.0, f);
      if f.WindowSize? { TruncateIs(x, f.size); }
    }
  }

  lemma FragAdds(e: Event, f: Field)
    ensures PartIs(FragBumps(e.fields), f, At(f, FragCount, Count(Value(e, Frag) != 0.0)))
  {
    SumOfOne(FragCount, 1.0, f);
  }

  lemma PayloadAdds(e: Event, f: Field)
    ensures PartIs(PayloadBumps(e.fields), f,
                   if TcpLen !in e.fields then 0.0
                   else At(f, NPayload, 1.0) + At(f, PayloadSum, Value(e, TcpLen))
                        + At(f, PayloadSq, Squared(Value(e, TcpLen)))
                        + Count(f.PayloadSize? && IsTruncation(e.fields[TcpLen], f.size)))
  {
    if TcpLen in e.fields {
      var x := e.fields[TcpLen];
      SumOfFour(NPayload, 1.0, PayloadSum, x, PayloadSq, Square(x), PayloadSize(Truncate(x)), 1.0, f);
      assert Squared(x) == Square(x);
      if f.PayloadSize? { TruncateIs(x, f.size); }
    }
  }

  lemma RetransAdds(e: Event, f: Field)
    ensures PartIs(RetransBumps(e.fields), f, At(f, RetransCount, Count(Value(e, Retransmission) != 0.0)))
  {
    SumOfOne(RetransCount, 1.0, f);
  }

  /** The packet's own counters, flags, length, time to live and window. */
  function PacketHead(fields: map<Raw, real>): Bumps {
    PACKET_COUNT_BUMPS + PacketFlagBumps(Truncate(Read(fields, TcpFlags)), 6) + FrameBumps(fields) + TtlBumps(fields)
    + WindowBumps(fields)
  }

  lemma PacketHeadParts(e: Event, f: Field)
    ensures PartIs(PacketHead(e.fields), f,
                   SumFor(PACKET_COUNT_BUMPS, f) + SumFor(PacketFlagBumps(Truncate(Read(e.fields, TcpFlags)), 6), f)
                   + SumFor(FrameBumps(e.fields), f) + SumFor(TtlBumps(e.fields), f)
                   + SumFor(WindowBumps(e.fields), f))
  {
    var a, b, c := PACKET_COUNT_BUMPS, PacketFlagBumps(Truncate(Read(e.fields, TcpFlags)), 6), FrameBumps(e.fields);
    var d, g := TtlBumps(e.fields), WindowBumps(e.fields);
    assert PartIs(a, f, SumFor(a, f)) by { PacketCountsAdd(f); }
    assert PartIs(b, f, SumFor(b, f)) by { PacketFlagsPart(e, f); }
    assert PartIs(c, f, SumFor(c, f)) by { FrameAdds(e, f); }
    assert PartIs(d, f, SumFor(d, f)) by { TtlAdds(e, f); }
    assert PartIs(g, f, SumFor(g, f)) by { WindowAdds(e, f); }
    FivePartsAdd(a, b, c, d, g, f, SumFor(a, f), SumFor(b, f), SumFor(c, f), SumFor(d, f), SumFor(g, f));
  }

  ghost function PacketHeadSum(e: Event, f: Field): real {
    At(f, NPackets, 1.0) + At(f, PktCount, 1.0) + Count(f.FlagCount? && Raises(e, f.flag))
    + At(f, BytesUp, Value(e, FrameLen))
    + (if Ttl !in e.fields then 0.0
       else At(f, NTtl, 1.0) + At(f, TtlSum, Value(e, Ttl)) + At(f, TtlSq, Squared(Value(e, Ttl))))
    + if TcpWindow !in e.fields then 0.0
      else At(f, NTcpWindow, 1.0) + At(f, TcpWindowSum, Value(e, TcpWindow))
           + Count(f.WindowSize? && IsTruncation(e.fields[TcpWindow], f.size))
  }

  lemma PacketHeadAdds(e: Event, f: Field)
    ensures PartIs(PacketHead(e.fields), f, PacketHeadSum(e, f))
  {
    PacketHeadParts(e, f);
    PacketCountsAdd(f);
    PacketFlagsPart(e, f);
    FrameAdds(e, f);
    TtlAdds(e, f);
    WindowAdds(e, f);
  }

  ghost function PacketTailSum(e: Event, f: Field): real {
    At(f, FragCount, Count(Value(e, Frag) != 0.0))
    + (if TcpLen !in e.fields then 0.0
       else At(f, NPayload, 1.0) + At(f, PayloadSum, Value(e, TcpLen)) + At(f, PayloadSq, Squared(Value(e, TcpLen)))
            + Count(f.PayloadSize? && IsTruncation(e.fields[TcpLen], f.size)))
    + At(f, RetransCount, Count(Value(e, Retransmission) != 0.0))
  }

  lemma FourPartsAdd(a: Bumps, b: Bumps, c: Bumps, d: Bumps, f: Field, x: real, y: real, z: real, u: real)
    requires PartIs(a, f, x) && PartIs(b, f, y) && PartIs(c, f, z) && PartIs(d, f, u)
    ensures PartIs(a + b + c + d, f, x + y + z + u)
  {
    PartsAdd(a, b, f, x, y);
    PartsAdd(a + b, c, f, x + y, z);
    PartsAdd(a + b + c, d, f, x + y + z, u);
  }

  lemma PacketAdds(e: Event, f: Field)
    ensures PartIs(PacketBumps(e.fields), f, PacketHeadSum(e, f) + PacketTailSum(e, f))
  {
    var a, b, c, d := PacketHead(e.fields), FragBumps(e.fields), PayloadBumps(e.fields), RetransBumps(e.fields);
    assert PartIs(a, f, SumFor(a, f)) && SumFor(a, f) == PacketHeadSum(e, f) by { PacketHeadAdds(e, f); }
    FragAdds(e, f);
    PayloadAdds(e, f);
    RetransAdds(e, f);
    FourPartsAdd(a, b, c, d, f, SumFor(a, f), SumFor(b, f), SumFor(c, f), SumFor(d, f));
  }

  predicate OfTail(f: Field) {
    f.FragCount? || f.NPayload? || f.PayloadSum? || f.PayloadSq? || f.PayloadSize? || f.RetransCount?
  }

  lemma PacketHeadIs(e: Event, f: Field)
    requires e.kind == Packet
    ensures PacketHeadSum(e, f) == if OfTail(f) then 0.0 else Measured(e, f)
  {
  }

  lemma PacketTailIs(e: Event, f: Field)
    requires e.kind == Packet
    ensures PacketTailSum(e, f) == if OfTail(f) then Measured(e, f) else 0.0
  {
  }

  lemma FlowPart(e: Event, f: Field)
    requires e.kind == Flow
    ensures PartIs(KindBumps(e), f, Measured(e, f))
  {
    FlowAdds(e, f);
    FlowSumIs(e, f);
  }

  lemma PacketPart(e: Event, f: Field)
    requires e.kind == Packet
    ensures PartIs(KindBumps(e), f, Measured(e, f))
  {
    PacketAdds(e, f);
    PacketHeadIs(e, f);
    PacketTailIs(e, f);
  }

  lemma WithAddresses(e: Event, bs: Bumps, f: Field)
    requires PartIs(bs, f, Measured(e, f))
    ensures SumFor(AddressBumps(e) + bs, f) == Carries(e, f)
    ensures f.Peer? ==> (Touches(AddressBumps(e) + bs, f) <==> e.dst == Some(f.ip))
  {
    AddressAdds(e, f);
    SumConcat(AddressBumps(e), bs, f);
  }

  lemma BumpsCarry(e: Event, f: Field)
    ensures SumFor(EventBumps(e), f) == Carries(e, f)
    ensures f.Peer? ==> (Touches(EventBumps(e), f) <==> e.dst == Some(f.ip))
  {
    if e.kind == Flow { FlowPart(e, f); } else { PacketPart(e, f); }
    WithAddresses(e, KindBumps(e), f);
  }

  /** Every field grows by what the event carries of it, and a peer is named just when it is the destination. */
  lemma EventCarries(e: Event, f: Field)
    ensures Get(EventIncrements(e), f) == Carries(e, f)
    ensures f.Peer? ==> (f in EventIncrements(e) <==> e.dst == Some(f.ip))
  {
    BumpAllAdds(map[], EventBumps(e), f);
    BumpsCarry(e, f);
  }
}
