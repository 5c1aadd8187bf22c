/** Where the logged numbers come from: every log record of a run consists of differences
    of clock readings that one message and its kernel and NIC events brought. */
module Provenance {
  import opened MachineWords
  import opened Options
  import opened Events
  import opened Matching
  import opened Latency
  import opened LogFormat
  import opened Correlator
  import opened MessageHandler
  import opened Multiplicity

  /** The six numbers of one log line. */
  datatype Latencies = Latencies(bnNic: nat, nicKernel: nat, kernelUser: nat, cpu: nat, msk: nat, total: nat)

  function LatenciesOf(r: LogRecord): Latencies {
    Latencies(r.bnToNic, r.nicToKernel, r.kernelToUser, r.cpu, r.msk, r.total)
  }

  /** `k` is a kernel event of `ks` at or before this time, and no other such is later. */
  ghost predicate IsLatestKernel(k: UnifiedEvent, ks: seq<UnifiedEvent>, time: uint64) {
    && k in ks && 0 < k.tsKernel <= time
    && forall other | other in ks && 0 < other.tsKernel <= time :: other.tsKernel <= k.tsKernel
  }

  ghost predicate IsLatestNic(n: UnifiedEvent, ns: seq<UnifiedEvent>, time: uint64) {
    && n in ns && 0 < n.tsNic <= time
    && forall other | other in ns && 0 < other.tsNic <= time :: other.tsNic <= n.tsNic
  }

  /** The two latencies at the network card: differences to a NIC event `n`, by time the latest
      one not after the kernel event. */
  ghost predicate MeasuredFromNic(x: Latencies, k: UnifiedEvent, n: UnifiedEvent, ns: seq<UnifiedEvent>,
                                  sent: uint64, offset: uint64) {
    && n in ns && (k.tcpSeq == 0 ==> IsLatestNic(n, ns, k.tsKernel))
    && x.nicKernel == (if n.tsNic <= k.tsKernel then k.tsKernel - n.tsNic else 0)
    && x.bnNic == if offset > 0 then (n.tsNic + offset - sent) % TWO_64 else 0
  }

  /** Or zeros; by time only when no NIC event is before the kernel event. */
  ghost predicate NotMeasuredFromNic(x: Latencies, k: UnifiedEvent, ns: seq<UnifiedEvent>) {
    && x.nicKernel == 0 && x.bnNic == 0
    && (k.tcpSeq == 0 ==> forall n | n in ns :: !(0 < n.tsNic <= k.tsKernel))
  }

  /** The numbers are those of this message: the exchange's event time to the epoch clock at the
      callback, the callback to the end of parsing, that to the end of forwarding, and back
      from the callback to the latest kernel event and its NIC event. */
  ghost predicate Explains(x: Latencies, m: Message, ks: seq<UnifiedEvent>, ns: seq<UnifiedEvent>, offset: uint64) {
    var sent: uint64 := m.eventTimeMs * 1000000 % TWO_64;
    && 0 < sent < m.tsUserEpoch
    && x.cpu == (if m.tsUser <= m.tsDeserialized then m.tsDeserialized - m.tsUser else 0)
    && x.msk == (if m.tsDeserialized <= m.tsMskSend then m.tsMskSend - m.tsDeserialized else 0)
    && x.total == (m.tsUserEpoch - sent + x.cpu + x.msk) % TWO_64
    && exists k ::
         && IsLatestKernel(k, ks, m.tsUser)
         && x.kernelUser == m.tsUser - k.tsKernel
         && (NotMeasuredFromNic(x, k, ns) || exists n :: MeasuredFromNic(x, k, n, ns, sent, offset))
  }

  lemma MatchOfCallback(ks: seq<UnifiedEvent>, ns: seq<UnifiedEvent>, u: UnifiedEvent)
    requires u.tcpSeq == 0 && u.sockPtr == 0 && MatchOf(ks, ns, u).Some?
    ensures var m := MatchOf(ks, ns, u).value;
            && IsLatestKernel(m.k, ks, u.tsUser)
            && (m.n.Some? ==> m.n.value in ns && (m.k.tcpSeq == 0 ==> IsLatestNic(m.n.value, ns, m.k.tsKernel)))
            && (m.n.None? && m.k.tcpSeq == 0 ==> forall n | n in ns :: !(0 < n.tsNic <= m.k.tsKernel))
  {
    ClientEventTakesLatestKernel(ks, u);
    var m := MatchOf(ks, ns, u).value;
    if m.k.tcpSeq == 0 {
      KernelEventTakesLatestNic(ns, m.k);
    }
    hide KernelChoice, NicChoice;
  }

  lemma ReportOfMatch(w: Windows, offset: uint64, u: UnifiedEvent)
    requires MatchOf(w.kernels, w.nics, u).Some?
    ensures var m := MatchOf(w.kernels, w.nics, u).value;
            ReportOn(w, offset, u) ==
            Some(Reported(u, m.k, m.n.Some?, if m.n.Some? then m.n.value else u, offset))
  {
    hide MatchOf, Reported;
  }

  lemma ColumnsExplained(x: LogRecord, m: Message, k: UnifiedEvent, hasNic: bool, n: UnifiedEvent,
                         ks: seq<UnifiedEvent>, ns: seq<UnifiedEvent>, offset: uint64)
    requires var sent := m.eventTimeMs * 1000000 % TWO_64;
             && 0 < sent < m.tsUserEpoch
             && x.nicToKernel == (if hasNic && n.tsNic <= k.tsKernel then k.tsKernel - n.tsNic else 0)
             && x.kernelToUser == (if k.tsKernel <= m.tsUser then m.tsUser - k.tsKernel else 0)
             && x.cpu == (if m.tsUser <= m.tsDeserialized then m.tsDeserialized - m.tsUser else 0)
             && x.msk == (if m.tsDeserialized <= m.tsMskSend then m.tsMskSend - m.tsDeserialized else 0)
             && x.total == (m.tsUserEpoch - sent + x.cpu + x.msk) % TWO_64
             && (hasNic && offset > 0 ==> x.bnToNic == (n.tsNic + offset - sent) % TWO_64)
             && (!hasNic || offset == 0 ==> x.bnToNic == 0)
    requires IsLatestKernel(k, ks, m.tsUser)
    requires hasNic ==> n in ns && (k.tcpSeq == 0 ==> IsLatestNic(n, ns, k.tsKernel))
    requires !hasNic && k.tcpSeq == 0 ==> forall other | other in ns :: !(0 < other.tsNic <= k.tsKernel)
    ensures Explains(LatenciesOf(x), m, ks, ns, offset)
  {
    assert k.tsKernel <= m.tsUser;
    hide IsLatestKernel, IsLatestNic;
    if hasNic {
      assert MeasuredFromNic(LatenciesOf(x), k, n, ns, m.eventTimeMs * 1000000 % TWO_64, offset);
    } else {
      assert NotMeasuredFromNic(LatenciesOf(x), k, ns);
    }
  }

  /** The record of a callback's event holds the differences of its message's readings. */
  lemma RecordExplained(w: Windows, m: Message, seqNo: uint64, sockFd: int32, pid: uint32, offset: uint64)
    requires var u := UserEvent(m, seqNo, sockFd, pid);
             0 < u.srcSend < u.tsUserEpoch && ReportOn(w, offset, u).Some?
    ensures var r := RecordOf(ReportOn(w, offset, UserEvent(m, seqNo, sockFd, pid)).value);
            Explains(LatenciesOf(r), m, w.kernels, w.nics, offset) && r.symbol == m.symbol && r.seqNo == seqNo
  {
    var u := UserEvent(m, seqNo, sockFd, pid);
    assert MatchOf(w.kernels, w.nics, u).Some? by { ReportKeepsNumber(w, offset, u); }
    hide *;
    UserEventCarries(m, seqNo, sockFd, pid);
    MatchOfCallback(w.kernels, w.nics, u);
    ReportOfMatch(w, offset, u);
    var found := MatchOf(w.kernels, w.nics, u).value;
    var n := if found.n.Some? then found.n.value else u;
    RecordHoldsDifferences(u, found.k, found.n.Some?, n, offset);
    var r := RecordOf(Reported(u, found.k, found.n.Some?, n, offset));
    ColumnsExplained(r, m, found.k, found.n.Some?, n, w.kernels, w.nics, offset);
  }

  // ---- Every report is made by some pass ----

  /** A pass after `p` events makes this report, on a user event among the last 4096. */
  ghost predicate MadeAfter(r: Report, evs: seq<UnifiedEvent>, offset: uint64, p: nat) {
    && p <= |evs|
    && exists u :: u in Latest(evs[..p]).users && ReportOn(Latest(evs[..p]), offset, u) == Some(r)
  }

  lemma {:induction false} PassMakes(w: Windows, offset: uint64, us: seq<UnifiedEvent>, r: Report)
    requires r in Pass(w, offset, us)
    ensures exists u :: u in us && ReportOn(w, offset, u) == Some(r)
  {
    var n := |us| - 1;
    hide ReportOn;
    if r in Pass(w, offset, us[..n]) {
      PassMakes(w, offset, us[..n], r);
      var u :| u in us[..n] && ReportOn(w, offset, u) == Some(r);
      assert u in us;
    } else {
      assert us[n] in us && ReportOn(w, offset, us[n]) == Some(r);
    }
  }

  lemma NowMade(evs: seq<UnifiedEvent>, offset: uint64, r: Report)
    requires r in Pass(Latest(evs), offset, Latest(evs).users)
    ensures MadeAfter(r, evs, offset, |evs|)
  {
    PassMakes(Latest(evs), offset, Latest(evs).users, r);
    hide ReportOn, Pass, Latest;
    assert evs[..|evs|] == evs;
  }

  lemma MadeBefore(evs: seq<UnifiedEvent>, n: nat, offset: uint64, r: Report, p: nat)
    requires n <= |evs| && MadeAfter(r, evs[..n], offset, p)
    ensures MadeAfter(r, evs, offset, p)
  {
    hide ReportOn, Latest;
    assert evs[..n][..p] == evs[..p];
  }

  lemma MadeNowOrBefore(evs: seq<UnifiedEvent>, offset: uint64, r: Report)
    requires r in RunReports(evs, offset)
    ensures evs != []
    ensures r in RunReports(evs[..|evs| - 1], offset) || r in Pass(Latest(evs), offset, Latest(evs).users)
  {
    PassSeesLastEvents(evs);
    hide Pass, DriveAll, OfKind, LastN;
  }

  lemma {:induction false} RunMakes(evs: seq<UnifiedEvent>, offset: uint64, r: Report)
    requires r in RunReports(evs, offset)
    ensures exists p: nat :: MadeAfter(r, evs, offset, p)
    decreases |evs|
  {
    hide RunReports, MadeAfter, Pass, Latest;
    MadeNowOrBefore(evs, offset, r);
    var n := |evs| - 1;
    if r in RunReports(evs[..n], offset) {
      RunMakes(evs[..n], offset, r);
      var p: nat :| MadeAfter(r, evs[..n], offset, p);
      MadeBefore(evs, n, offset, r, p);
    } else {
      NowMade(evs, offset, r);
    }
  }

  lemma ThreadMakes(evs: seq<UnifiedEvent>, offset: uint64, r: Report)
    requires r in ThreadReports(evs, offset)
    ensures exists p: nat :: MadeAfter(r, evs, offset, p)
  {
    if r in RunReports(evs, offset) {
      RunMakes(evs, offset, r);
    } else {
      PassSeesLastEvents(evs);
      NowMade(evs, offset, r);
    }
  }

  lemma {:induction false} RecordMade(rs: seq<Report>, x: LogRecord)
    requires x in Records(rs)
    ensures exists r :: r in rs && x == RecordOf(r) && r.bnToUser > 0
  {
    var n := |rs| - 1;
    hide RecordOf;
    if x in Records(rs[..n]) {
      RecordMade(rs[..n], x);
      var r :| r in rs[..n] && x == RecordOf(r) && r.bnToUser > 0;
      assert r in rs;
    } else {
      assert rs[n] in rs && x == RecordOf(rs[n]);
    }
  }

  /** These six numbers are explained by message number `q`, seen by the pass after `p` events:
      its event is among the last 4096 of its kind then, and it is measured against the last
      4096 kernel and NIC events. */
  ghost predicate ExplainedBy(x: Latencies, ms: seq<Message>, evs: seq<UnifiedEvent>, offset: uint64, p: nat, q: nat)
  {
    && p <= |evs| && 1 <= q <= |ms|
    && (exists u :: u in LastN(OfKind(evs[..p], USERSPACE), 4096) && u.seqNo == q)
    && Explains(x, ms[q - 1], LastN(OfKind(evs[..p], KERNEL), 4096), LastN(OfKind(evs[..p], NIC), 4096), offset)
  }

  ghost predicate Explained(x: Latencies, ms: seq<Message>, evs: seq<UnifiedEvent>, offset: uint64) {
    exists p: nat, q: nat :: ExplainedBy(x, ms, evs, offset, p, q)
  }

  /** A log record that a pass makes of a message's event is explained by that message. */
  lemma ReportExplained(evs: seq<UnifiedEvent>, ms: seq<Message>, sockFd: int32, pid: uint32, offset: uint64,
                        p: nat, q: nat, r: Report)
    requires p <= |evs| && 1 <= q <= |ms| < TWO_64 && r.bnToUser > 0
    requires var u := UserEvent(ms[q - 1], q, sockFd, pid);
             u in Latest(evs[..p]).users && ReportOn(Latest(evs[..p]), offset, u) == Some(r)
    ensures Explained(LatenciesOf(RecordOf(r)), ms, evs, offset)
  {
    var w, u := Latest(evs[..p]), UserEvent(ms[q - 1], q, sockFd, pid);
    MeasuredIsPositive(w, offset, u, r);
    UserEventCarries(ms[q - 1], q, sockFd, pid);
    hide UserEvent, OfKind, LastN, RecordOf, LatenciesOf, Explains, ReportOn;
    RecordExplained(w, ms[q - 1], q, sockFd, pid, offset);
    assert ExplainedBy(LatenciesOf(RecordOf(r)), ms, evs, offset, p, q);
  }

  lemma MeasuredIsPositive(w: Windows, offset: uint64, u: UnifiedEvent, r: Report)
    requires ReportOn(w, offset, u) == Some(r)
    ensures r.bnToUser > 0 <==> 0 < u.srcSend < u.tsUserEpoch
  {
    hide MatchOf;
  }
}
