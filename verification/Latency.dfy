/** One correlated record: its latencies and how they add up. */
module Latency {
  import opened MachineWords
  import opened Events
  import opened Matching

  datatype CorrelatedEvent = CorrelatedEvent(
    tsNic: uint64,
    tsKernel: uint64,
    tsUser: uint64,
    tsDeserialized: uint64,
    srcSend: uint64,
    mskSend: uint64,
    seqNo: uint64,
    tcpSeq: uint32,
    sockPtr: uint64,
    sockFd: int32,
    symbol: string)
  {
    function NicToKernel(): uint64 {
      if tsKernel > tsNic then tsKernel - tsNic else 0
    }

    function KernelToUser(): uint64 {
      if tsUser > tsKernel then tsUser - tsKernel else 0
    }

    function CpuDeserialization(): uint64 {
      if tsDeserialized > tsUser then tsDeserialized - tsUser else 0
    }

    function MskSend(): uint64 {
      if mskSend > tsDeserialized then mskSend - tsDeserialized else 0
    }
  }

  /** What a pass reports for one matched user event. */
  datatype Report = Report(
    ce: CorrelatedEvent,
    hasNic: bool,
    bnToNic: uint64,
    bnToUser: uint64,
    total: uint64)
  {
    function NicToKernel(): uint64 {
      if hasNic then ce.NicToKernel() else 0
    }
  }

  function Correlated(u: UnifiedEvent, k: UnifiedEvent, hasNic: bool, n: UnifiedEvent): CorrelatedEvent {
    CorrelatedEvent(
      if hasNic then n.tsNic else 0, k.tsKernel, u.tsUser, u.tsDeserialized, u.srcSend, u.tsMskSend, u.seqNo,
      if u.tcpSeq != 0 then u.tcpSeq else if hasNic then n.tcpSeq else k.tcpSeq,
      if u.sockPtr != 0 then u.sockPtr else k.sockPtr,
      u.sockFd, u.symbol)
  }

  /** `offset` is the epoch clock minus the steady clock, taken once at start. */
  function Reported(u: UnifiedEvent, k: UnifiedEvent, hasNic: bool, n: UnifiedEvent, offset: uint64): Report {
    var ce := Correlated(u, k, hasNic, n);
    var bnToNic :=
      if hasNic && u.srcSend > 0 && offset > 0 then Sub64(Add64(ce.tsNic, offset), u.srcSend) else 0;
    var bnToUser :=
      if u.tsUserEpoch > u.srcSend && u.srcSend > 0 then u.tsUserEpoch - u.srcSend else 0;
    var total := Add64(Add64(bnToUser, ce.CpuDeserialization()), ce.MskSend());
    Report(ce, hasNic, bnToNic, bnToUser, total)
  }

  // ---- Each latency by itself ----

  /** Each segment between two layers is the difference of their clock readings, and 0 when
      those are out of order or the NIC event is missing. */
  lemma SegmentsAreDifferences(u: UnifiedEvent, k: UnifiedEvent, hasNic: bool, n: UnifiedEvent, offset: uint64)
    ensures var r := Reported(u, k, hasNic, n, offset);
            && r.NicToKernel() == (if hasNic && n.tsNic <= k.tsKernel then k.tsKernel - n.tsNic else 0)
            && r.ce.KernelToUser() == (if k.tsKernel <= u.tsUser then u.tsUser - k.tsKernel else 0)
            && r.ce.CpuDeserialization()
               == (if u.tsUser <= u.tsDeserialized then u.tsDeserialized - u.tsUser else 0)
            && r.ce.MskSend() == (if u.tsDeserialized <= u.tsMskSend then u.tsMskSend - u.tsDeserialized else 0)
  {}

  /** The exchange latencies: to the user by the epoch clock; to the NIC by the steady clock
      brought to the epoch, a wrapped difference. */
  lemma ExchangeLatencies(u: UnifiedEvent, k: UnifiedEvent, hasNic: bool, n: UnifiedEvent, offset: uint64)
    ensures var r := Reported(u, k, hasNic, n, offset);
            && r.bnToUser == (if 0 < u.srcSend < u.tsUserEpoch then u.tsUserEpoch - u.srcSend else 0)
            && (hasNic && u.srcSend > 0 && offset > 0 ==> (n.tsNic + offset - u.srcSend - r.bnToNic) % TWO_64 == 0)
            && (!hasNic || u.srcSend == 0 || offset == 0 ==> r.bnToNic == 0)
  {
    if hasNic && u.srcSend > 0 && offset > 0 {
      var m := BnToNicTurns(u, n.tsNic, offset);
      WholeTurnsOnly(n.tsNic + offset - u.srcSend - Reported(u, k, hasNic, n, offset).bnToNic, -m);
    }
  }

  lemma WholeTurnsOnly(x: int, m: int)
    requires x == m * TWO_64
    ensures x % TWO_64 == 0
  {}

  /** The total runs from the exchange's sending to the completed forwarding: for readings in
      order, with or without a NIC event, it is the epoch part and the steady part added. */
  lemma TotalRunsFromExchangeToForwarding(u: UnifiedEvent, k: UnifiedEvent, hasNic: bool, n: UnifiedEvent,
                                          offset: uint64)
    requires 0 < u.srcSend < u.tsUserEpoch && u.tsUser <= u.tsDeserialized <= u.tsMskSend
    ensures var r, span := Reported(u, k, hasNic, n, offset), (u.tsUserEpoch - u.srcSend) + (u.tsMskSend - u.tsUser);
            r.total == if span < TWO_64 then span else span - TWO_64
  {}

  /** A report is filed under its user event's number and symbol; a missing TCP number is
      taken from the NIC event, or without one from the kernel event. */
  lemma ReportNamesItsEvents(u: UnifiedEvent, k: UnifiedEvent, hasNic: bool, n: UnifiedEvent, offset: uint64)
    ensures var ce := Reported(u, k, hasNic, n, offset).ce;
            && ce.seqNo == u.seqNo && ce.symbol == u.symbol && ce.sockFd == u.sockFd
            && (u.tcpSeq != 0 ==> ce.tcpSeq == u.tcpSeq)
            && (u.tcpSeq == 0 && hasNic ==> ce.tcpSeq == n.tcpSeq)
            && (u.tcpSeq == 0 && !hasNic ==> ce.tcpSeq == k.tcpSeq)
            && (u.sockPtr != 0 ==> ce.sockPtr == u.sockPtr) && (u.sockPtr == 0 ==> ce.sockPtr == k.sockPtr)
  {}

  /** The five displayed segments, added as 64-bit numbers. */
  function SegmentSum(r: Report): uint64 {
    Add64(Add64(Add64(Add64(r.bnToNic, r.NicToKernel()), r.ce.KernelToUser()), r.ce.CpuDeserialization()),
          r.ce.MskSend())
  }

  /** How far the two clocks drifted between start and this message. */
  function Drift(u: UnifiedEvent, offset: uint64): uint64 {
    Sub64(Sub64(u.tsUserEpoch, u.tsUser), offset)
  }

  /** Sums and differences of 64-bit numbers, up to whole turns of the counter. */
  lemma SegmentTurns(r: Report) returns (m: int)
    ensures SegmentSum(r) ==
            r.bnToNic + r.NicToKernel() + r.ce.KernelToUser() + r.ce.CpuDeserialization() + r.ce.MskSend() + m * TWO_64
  {
    var a := Add64(r.bnToNic, r.NicToKernel());
    var b := Add64(a, r.ce.KernelToUser());
    var c := Add64(b, r.ce.CpuDeserialization());
    m := -(if a < r.bnToNic then 1 else 0) - (if b < a then 1 else 0) - (if c < b then 1 else 0)
      - (if SegmentSum(r) < c then 1 else 0);
  }

  lemma DriftTurns(u: UnifiedEvent, offset: uint64) returns (m: int)
    ensures Drift(u, offset) == u.tsUserEpoch - u.tsUser - offset + m * TWO_64
  {
    var a := Sub64(u.tsUserEpoch, u.tsUser);
    m := (if u.tsUserEpoch < u.tsUser then 1 else 0) + (if a < offset then 1 else 0);
  }

  lemma BnToNicTurns(u: UnifiedEvent, ts: uint64, offset: uint64) returns (m: int)
    ensures Sub64(Add64(ts, offset), u.srcSend) == ts + offset - u.srcSend + m * TWO_64
  {
    var a := Add64(ts, offset);
    m := -(if a < ts then 1 else 0) + (if a < u.srcSend then 1 else 0);
  }

  lemma TotalTurns(u: UnifiedEvent, r: Report) returns (m: int)
    requires r.total == Add64(Add64(r.bnToUser, r.ce.CpuDeserialization()), r.ce.MskSend())
    ensures r.total == r.bnToUser + r.ce.CpuDeserialization() + r.ce.MskSend() + m * TWO_64
  {
    var a := Add64(r.bnToUser, r.ce.CpuDeserialization());
    m := -(if a < r.bnToUser then 1 else 0) - (if r.total < a then 1 else 0);
  }

  /** The displayed Total is the sum of the five segments plus the clock drift exactly when
      the NIC, kernel and user timestamps are in order. (The two last segments enter both
      sides, so their own order does not matter.) */
  lemma TotalIsSumPlusDrift(u: UnifiedEvent, k: UnifiedEvent, n: UnifiedEvent, offset: uint64)
    requires 0 < u.srcSend < u.tsUserEpoch && offset > 0
    ensures var r := Reported(u, k, true, n, offset);
            r.total == Add64(SegmentSum(r), Drift(u, offset)) <==> n.tsNic <= k.tsKernel <= u.tsUser
  {
    var r := Reported(u, k, true, n, offset);
    var a := SegmentTurns(r);
    var b := DriftTurns(u, offset);
    var c := BnToNicTurns(u, n.tsNic, offset);
    var e := TotalTurns(u, r);
    var front := r.NicToKernel() + r.ce.KernelToUser();
    var gap := u.tsUser - n.tsNic - front;
    assert r.total - (SegmentSum(r) + Drift(u, offset)) == gap + (e - a - b - c) * TWO_64;
    WholeTurns(r.total, SegmentSum(r), Drift(u, offset), gap, e - a - b - c);
  }

  lemma WholeTurns(x: uint64, y: uint64, z: uint64, gap: int, m: int)
    requires x - (y + z) == gap + m * TWO_64
    ensures gap == 0 ==> x == Add64(y, z)
    ensures -TWO_64 < gap < TWO_64 && x == Add64(y, z) ==> gap == 0
  {}

  /** For records matched by time the order is guaranteed, so the accounting always holds. */
  lemma NearestMatchesAddUp(ks: seq<UnifiedEvent>, ns: seq<UnifiedEvent>, u: UnifiedEvent, offset: uint64)
    requires u.tcpSeq == 0 && 0 < u.srcSend < u.tsUserEpoch && offset > 0
    requires MatchOf(ks, ns, u).Some? && MatchOf(ks, ns, u).value.n.Some? && MatchOf(ks, ns, u).value.k.tcpSeq == 0
    ensures var m := MatchOf(ks, ns, u).value;
            var r := Reported(u, m.k, true, m.n.value, offset);
            r.total == Add64(SegmentSum(r), Drift(u, offset))
  {
    NearestMatchIsOrdered(ks, ns, u);
    var m := MatchOf(ks, ns, u).value;
    TotalIsSumPlusDrift(u, m.k, m.n.value, offset);
  }
}
