/** The event correlator: three windows, one pass over them, and the thread that
    feeds it from the queue and starts a pass every 200 events. */
module Correlator {
  import opened MachineWords
  import opened Options
  import opened Events
  import opened Matching
  import opened Latency
  import opened LogFormat

  const MAX_WINDOW: nat := 4096
  const PASS_EVERY: nat := 200

  datatype Windows = Windows(nics: seq<UnifiedEvent>, kernels: seq<UnifiedEvent>, users: seq<UnifiedEvent>)

  function Added(w: Windows, ev: UnifiedEvent): Windows {
    if ev.kind == NIC then w.(nics := w.nics + [ev])
    else if ev.kind == KERNEL then w.(kernels := w.kernels + [ev])
    else if ev.kind == USERSPACE then w.(users := w.users + [ev])
    else w
  }

  function Trimmed(w: Windows): Windows {
    Windows(LastN(w.nics, MAX_WINDOW), LastN(w.kernels, MAX_WINDOW), LastN(w.users, MAX_WINDOW))
  }

  /** The report on one user event, None when no kernel event matches it. */
  ghost function ReportOn(w: Windows, offset: uint64, u: UnifiedEvent): Option<Report> {
    match MatchOf(w.kernels, w.nics, u)
    case None => None
    case Some(m) =>
      Some(match m.n
           case None => Reported(u, m.k, false, u, offset)
           case Some(n) => Reported(u, m.k, true, n, offset))
  }

  /** What a pass over the windows reports for a list of user events. */
  ghost function Pass(w: Windows, offset: uint64, us: seq<UnifiedEvent>): seq<Report> {
    if us == [] then []
    else
      Pass(w, offset, us[..|us| - 1]) + Reports(ReportOn(w, offset, us[|us| - 1]))
  }

  function RecordOf(r: Report): LogRecord {
    LogRecord(r.ce.seqNo, r.ce.tcpSeq, r.ce.symbol, if r.hasNic then r.bnToNic else 0, r.NicToKernel(),
              r.ce.KernelToUser(), r.ce.CpuDeserialization(), r.ce.MskSend(), r.total)
  }

  /** What a log record says, in terms of the clock readings of the events: each column holds
      the difference it is named after. */
  lemma RecordHoldsDifferences(u: UnifiedEvent, k: UnifiedEvent, hasNic: bool, n: UnifiedEvent, offset: uint64)
    requires 0 < u.srcSend < u.tsUserEpoch
    ensures var x := RecordOf(Reported(u, k, hasNic, n, offset));
            && x.seqNo == u.seqNo && x.symbol == u.symbol
            && x.tcpSeq == (if u.tcpSeq != 0 then u.tcpSeq else if hasNic then n.tcpSeq else k.tcpSeq)
            && x.nicToKernel == (if hasNic && n.tsNic <= k.tsKernel then k.tsKernel - n.tsNic else 0)
            && x.kernelToUser == (if k.tsKernel <= u.tsUser then u.tsUser - k.tsKernel else 0)
            && x.cpu == (if u.tsUser <= u.tsDeserialized then u.tsDeserialized - u.tsUser else 0)
            && x.msk == (if u.tsDeserialized <= u.tsMskSend then u.tsMskSend - u.tsDeserialized else 0)
            && x.total == (u.tsUserEpoch - u.srcSend + x.cpu + x.msk) % TWO_64
            && (hasNic && offset > 0 ==> x.bnToNic == (n.tsNic + offset - u.srcSend) % TWO_64)
            && (!hasNic || offset == 0 ==> x.bnToNic == 0)
  {
    var r := Reported(u, k, hasNic, n, offset);
    SegmentsAreDifferences(u, k, hasNic, n, offset);
    ExchangeLatencies(u, k, hasNic, n, offset);
    var m := TotalTurns(u, r);
    ReducedBy(r.bnToUser + r.ce.CpuDeserialization() + r.ce.MskSend(), r.total, m);
    if hasNic && offset > 0 {
      var b := BnToNicTurns(u, n.tsNic, offset);
      ReducedBy(n.tsNic + offset - u.srcSend, r.bnToNic, b);
    }
  }

  lemma ReducedBy(x: int, y: uint64, m: int)
    requires y == x + m * TWO_64
    ensures y == x % TWO_64
  {
    assert x == y + (-m) * TWO_64;
    if m < 0 {
      assert x >= 0;
    }
  }

  /** Only reports with a positive exchange-to-user latency go to the log file. */
  function Records(rs: seq<Report>): seq<LogRecord> {
    if rs == [] then []
    else Records(rs[..|rs| - 1]) + if rs[|rs| - 1].bnToUser > 0 then [RecordOf(rs[|rs| - 1])] else []
  }

  class EventCorrelator {
    var nics: seq<UnifiedEvent>
    var kernels: seq<UnifiedEvent>
    var users: seq<UnifiedEvent>
    var reports: seq<Report>     // given to the console logger so far
    var written: seq<string>     // given to the asynchronous writer so far
    const hasWriter: bool
    const offset: uint64

    ghost function View(): Windows
      reads this
    {
      Windows(nics, kernels, users)
    }

    constructor (hasWriter: bool, offset: uint64)
      ensures View() == Windows([], [], []) && reports == [] && written == []
      ensures this.hasWriter == hasWriter && this.offset == offset
    {
      nics, kernels, users, reports, written := [], [], [], [], [];
      this.hasWriter, this.offset := hasWriter, offset;
    }

    method AddEvent(ev: UnifiedEvent)
      modifies this
      ensures View() == Added(old(View()), ev)
      ensures nics == old(nics) + (if ev.kind == 1 then [ev] else [])
      ensures kernels == old(kernels) + (if ev.kind == 2 then [ev] else [])
      ensures users == old(users) + (if ev.kind == 3 then [ev] else [])
      ensures reports == old(reports) && written == old(written)
    {
      if ev.kind == NIC {
        nics := nics + [ev];
      } else if ev.kind == KERNEL {
        kernels := kernels + [ev];
      } else if ev.kind == USERSPACE {
        users := users + [ev];
      }
    }

    method TrimDeques(maxSize: nat)
      modifies this
      ensures nics == LastN(old(nics), maxSize)
      ensures kernels == LastN(old(kernels), maxSize)
      ensures users == LastN(old(users), maxSize)
      ensures reports == old(reports) && written == old(written)
    {
      if |nics| > maxSize {
        nics := nics[|nics| - maxSize..];
      }
      if |kernels| > maxSize {
        kernels := kernels[|kernels| - maxSize..];
      }
      if |users| > maxSize {
        users := users[|users| - maxSize..];
      }
    }

    /** The body of a pass for one user event. */
    method CorrelateUser(ue: UnifiedEvent, zero: UnifiedEvent)
      modifies this`reports, this`written
      ensures var found := Reports(ReportOn(View(), offset, ue));
              && reports == old(reports) + found
              && written == old(written) + if hasWriter then Lines(Records(found)) else []
    {
      var hasK, bestK := MatchKernel(kernels, ue, zero);
      if hasK {
        var hasN, bestN := MatchNic(nics, bestK, zero);
        var r := Reported(ue, bestK, hasN, bestN, offset);
        ReportOnFound(View(), offset, ue, bestK, hasN, bestN);
        reports := reports + [r];
        RecordsOfOne(r);
        if hasWriter && r.bnToUser > 0 {
          written := written + [Line(RecordOf(r))];
        }
      }
    }

    method CorrelateUsers(zero: UnifiedEvent)
      modifies this`reports, this`written
      ensures var found := Pass(View(), offset, users);
              && reports == old(reports) + found
              && written == old(written) + if hasWriter then Lines(Records(found)) else []
    {
      hide ReportOn, Reports, Records, Lines, Pass;
      ghost var w := View();
      PassStart(w, offset, users);
      for ui := 0 to |users|
        invariant reports == old(reports) + Pass(w, offset, users[..ui])
        invariant written ==
                  old(written) + if hasWriter then Lines(Records(Pass(w, offset, users[..ui]))) else []
      {
        PassStep(w, offset, users, ui, old(reports), old(written));
        CorrelateUser(users[ui], zero);
      }
      assert users[..|users|] == users;
    }

    /** A pass trims the windows, reports every matched user event in window order, and
        leaves the trimmed windows as they are: the three cuts at its end never apply. */
    method CorrelateAndLog(zero: UnifiedEvent)
      modifies this
      ensures View() == Trimmed(old(View()))
      ensures var found := Pass(View(), offset, users);
              && reports == old(reports) + found
              && written == old(written) + if hasWriter then Lines(Records(found)) else []
    {
      hide Pass, Records, Lines;
      TrimDeques(MAX_WINDOW);
      CorrelateUsers(zero);
      FinalCuts();
    }

    /** The coarser cuts at the end of a pass. */
    method FinalCuts()
      modifies this`nics, this`kernels, this`users
      ensures users == if |old(users)| > 4096 then old(users)[2048..] else old(users)
      ensures kernels == if |old(kernels)| > 8192 then old(kernels)[4096..] else old(kernels)
      ensures nics == if |old(nics)| > 8192 then old(nics)[4096..] else old(nics)
    {
      if |users| > 4096 {
        users := users[2048..];
      }
      if |kernels| > 8192 {
        kernels := kernels[4096..];
      }
      if |nics| > 8192 {
        nics := nics[4096..];
      }
    }
  }

  lemma Regroup<T>(a: seq<T>, b: seq<T>, c: seq<T>)
    ensures (a + b) + c == a + (b + c)
  {}

  function Reports(r: Option<Report>): seq<Report> {
    if r.Some? then [r.value] else []
  }

  lemma RecordsOfOne(r: Report)
    ensures Lines(Records([r])) == if r.bnToUser > 0 then [Line(RecordOf(r))] else []
  {}

  lemma PassStart(w: Windows, offset: uint64, us: seq<UnifiedEvent>)
    ensures Pass(w, offset, us[..0]) == [] && Lines(Records([])) == []
  {}

  /** What a pass has reported and written grows by what the next user event contributes. */
  lemma PassStep(w: Windows, offset: uint64, us: seq<UnifiedEvent>, i: nat, rs: seq<Report>, ls: seq<string>)
    requires i < |us|
    ensures var before, after := Pass(w, offset, us[..i]), Pass(w, offset, us[..i + 1]);
            var found := Reports(ReportOn(w, offset, us[i]));
            && rs + after == (rs + before) + found
            && ls + Lines(Records(after)) == (ls + Lines(Records(before))) + Lines(Records(found))
  {
    var before, found := Pass(w, offset, us[..i]), Reports(ReportOn(w, offset, us[i]));
    assert us[..i + 1][..i] == us[..i];
    RecordsConcat(before, found);
    hide ReportOn, Reports, Records, Lines;
    Regroup(rs, before, found);
    Regroup(ls, Lines(Records(before)), Lines(Records(found)));
  }

  /** A report does not depend on the stand-in used for a missing NIC event. */
  lemma ReportOnFound(w: Windows, offset: uint64, u: UnifiedEvent, k: UnifiedEvent, hasN: bool, n: UnifiedEvent)
    requires KernelChoice(w.kernels, u).Some? && k == w.kernels[KernelChoice(w.kernels, u).value]
    requires hasN == NicChoice(w.nics, k).Some? && (hasN ==> n == w.nics[NicChoice(w.nics, k).value])
    ensures ReportOn(w, offset, u) == Some(Reported(u, k, hasN, n, offset))
  {}

  // ---- What a pass reports ----

  ghost predicate Increasing(us: seq<UnifiedEvent>) {
    forall i, j | 0 <= i < j < |us| :: us[i].seqNo < us[j].seqNo
  }

  /** The user events that have a kernel match, in order. */
  ghost function Matched(w: Windows, us: seq<UnifiedEvent>): seq<UnifiedEvent> {
    if us == [] then []
    else
      var rest, u := Matched(w, us[..|us| - 1]), us[|us| - 1];
      if MatchOf(w.kernels, w.nics, u).Some? then rest + [u] else rest
  }

  lemma ReportKeepsNumber(w: Windows, offset: uint64, u: UnifiedEvent)
    ensures ReportOn(w, offset, u).Some? <==> MatchOf(w.kernels, w.nics, u).Some?
    ensures ReportOn(w, offset, u).Some? ==> ReportOn(w, offset, u).value.ce.seqNo == u.seqNo
  {}

  /** A pass makes one report for each matched user event, in order, under its number. */
  lemma {:induction false} PassReportsMatched(w: Windows, offset: uint64, us: seq<UnifiedEvent>)
    ensures var rs, ms := Pass(w, offset, us), Matched(w, us);
            |rs| == |ms| &&
            forall i | 0 <= i < |rs| :: ReportOn(w, offset, ms[i]) == Some(rs[i]) && rs[i].ce.seqNo == ms[i].seqNo
  {
    hide ReportOn, MatchOf;
    if us == [] {
    } else {
      PassReportsMatched(w, offset, us[..|us| - 1]);
      ReportKeepsNumber(w, offset, us[|us| - 1]);
    }
  }

  lemma {:induction false} MatchedAreThoseWithMatch(w: Windows, us: seq<UnifiedEvent>, u: UnifiedEvent)
    ensures u in Matched(w, us) <==> u in us && MatchOf(w.kernels, w.nics, u).Some?
  {
    hide MatchOf;
    if us == [] {
    } else {
      MatchedAreThoseWithMatch(w, us[..|us| - 1], u);
      assert us == us[..|us| - 1] + [us[|us| - 1]];
    }
  }

  /** For user events numbered in order the reports of a pass strictly increase. */
  lemma {:induction false} MatchedIncrease(w: Windows, us: seq<UnifiedEvent>)
    requires Increasing(us)
    ensures Increasing(Matched(w, us))
  {
    hide MatchOf;
    if us == [] {
    } else {
      var n := |us| - 1;
      MatchedIncrease(w, us[..n]);
      forall u | u in Matched(w, us[..n])
        ensures u.seqNo < us[n].seqNo
      {
        MatchedAreThoseWithMatch(w, us[..n], u);
      }
    }
  }

  // ---- The correlation thread ----

  datatype Driver = Driver(w: Windows, cnt: uint32)

  const START: Driver := Driver(Windows([], [], []), 0)

  function Counted(cnt: uint32): uint32 {
    if cnt + 1 == TWO_32 then 0 else cnt + 1
  }

  /** One popped event: add it, and run a pass when the 32-bit counter says so. */
  function Drive(d: Driver, ev: UnifiedEvent): Driver {
    var w, cnt := Added(d.w, ev), Counted(d.cnt);
    Driver(if cnt % PASS_EVERY == 0 then Trimmed(w) else w, cnt)
  }

  function DriveAll(evs: seq<UnifiedEvent>): Driver {
    if evs == [] then START else Drive(DriveAll(evs[..|evs| - 1]), evs[|evs| - 1])
  }

  /** What all passes started by the counter report over a run. */
  ghost function RunReports(evs: seq<UnifiedEvent>, offset: uint64): seq<Report> {
    if evs == [] then []
    else
      var d := DriveAll(evs);
      RunReports(evs[..|evs| - 1], offset) + if d.cnt % PASS_EVERY == 0 then Pass(d.w, offset, d.w.users) else []
  }

  /** What the correlation thread reports on the events it popped, final pass included. */
  ghost function ThreadReports(evs: seq<UnifiedEvent>, offset: uint64): seq<Report> {
    var w := Trimmed(DriveAll(evs).w);
    RunReports(evs, offset) + Pass(w, offset, w.users)
  }

  /** The loop of the correlation thread on the events it pops until it is told to stop,
      with the final pass. Pops that find the queue empty change nothing. */
  method CorrelationThread(popped: seq<UnifiedEvent>, hasWriter: bool, offset: uint64, zero: UnifiedEvent)
    returns (corr: EventCorrelator)
    ensures fresh(corr) && corr.View() == Trimmed(DriveAll(popped).w)
    ensures corr.reports == ThreadReports(popped, offset)
    ensures hasWriter ==> corr.written == Lines(Records(corr.reports))
  {
    corr := new EventCorrelator(hasWriter, offset);
    var cnt: uint32 := 0;
    for i := 0 to |popped|
      invariant corr.offset == offset && corr.hasWriter == hasWriter
      invariant Driver(corr.View(), cnt) == DriveAll(popped[..i])
      invariant corr.reports == RunReports(popped[..i], offset)
      invariant hasWriter ==> corr.written == Lines(Records(corr.reports))
    {
      assert popped[..i + 1][..i] == popped[..i];
      corr.AddEvent(popped[i]);
      cnt := Counted(cnt);
      if cnt % 200 == 0 {
        ghost var before := corr.reports;
        corr.CorrelateAndLog(zero);
        RecordsConcat(before, Pass(corr.View(), offset, corr.users));
      }
    }
    assert popped[..|popped|] == popped;
    ghost var before := corr.reports;
    corr.CorrelateAndLog(zero);
    RecordsConcat(before, Pass(corr.View(), offset, corr.users));
  }

  lemma {:induction false} RecordsConcat(a: seq<Report>, b: seq<Report>)
    ensures Records(a + b) == Records(a) + Records(b)
    ensures Lines(Records(a + b)) == Lines(Records(a)) + Lines(Records(b))
  {
    hide RecordOf, Line;
    if b == [] {
      assert a + b == a;
    } else {
      var n := |b| - 1;
      RecordsConcat(a, b[..n]);
      assert (a + b)[..|a + b| - 1] == a + b[..n];
    }
    LinesConcat(Records(a), Records(b));
  }

  lemma LinesConcat(a: seq<LogRecord>, b: seq<LogRecord>)
    ensures Lines(a + b) == Lines(a) + Lines(b)
  {}

  // ---- Whole runs ----

  /** A window after `full` events of its kind: at least the last 4096 of them, and at most
      `slack` more. */
  ghost predicate Keeps(w: seq<UnifiedEvent>, full: seq<UnifiedEvent>, slack: nat) {
    IsSuffix(w, full) && (|w| < |full| ==> |w| >= MAX_WINDOW) && |w| <= MAX_WINDOW + slack
  }

  lemma KeepsTrimmed(w: seq<UnifiedEvent>, full: seq<UnifiedEvent>, slack: nat)
    requires Keeps(w, full, slack)
    ensures LastN(w, MAX_WINDOW) == LastN(full, MAX_WINDOW)
    ensures Keeps(LastN(w, MAX_WINDOW), full, 0)
  {}

  lemma KeepsAdded(w: seq<UnifiedEvent>, full: seq<UnifiedEvent>, slack: nat, ev: UnifiedEvent)
    requires Keeps(w, full, slack)
    ensures Keeps(w, full, slack + 1) && Keeps(w + [ev], full + [ev], slack + 1)
  {}

  ghost predicate WindowsKeep(w: Windows, evs: seq<UnifiedEvent>, slack: nat) {
    && Keeps(w.nics, OfKind(evs, NIC), slack)
    && Keeps(w.kernels, OfKind(evs, KERNEL), slack)
    && Keeps(w.users, OfKind(evs, USERSPACE), slack)
  }

  lemma OfKindSnoc(evs: seq<UnifiedEvent>, ev: UnifiedEvent, kind: uint32)
    ensures OfKind(evs + [ev], kind) == if ev.kind == kind then OfKind(evs, kind) + [ev] else OfKind(evs, kind)
  {}

  lemma AddedKeeps(w: Windows, evs: seq<UnifiedEvent>, slack: nat, ev: UnifiedEvent)
    requires WindowsKeep(w, evs, slack)
    ensures WindowsKeep(Added(w, ev), evs + [ev], slack + 1)
  {
    hide Keeps, OfKind;
    OfKindSnoc(evs, ev, NIC);
    OfKindSnoc(evs, ev, KERNEL);
    OfKindSnoc(evs, ev, USERSPACE);
    KeepsAdded(w.nics, OfKind(evs, NIC), slack, ev);
    KeepsAdded(w.kernels, OfKind(evs, KERNEL), slack, ev);
    KeepsAdded(w.users, OfKind(evs, USERSPACE), slack, ev);
  }

  lemma TrimmedKeeps(w: Windows, evs: seq<UnifiedEvent>, slack: nat)
    requires WindowsKeep(w, evs, slack)
    ensures WindowsKeep(Trimmed(w), evs, 0)
  {
    hide Keeps, OfKind;
    KeepsTrimmed(w.nics, OfKind(evs, NIC), slack);
    KeepsTrimmed(w.kernels, OfKind(evs, KERNEL), slack);
    KeepsTrimmed(w.users, OfKind(evs, USERSPACE), slack);
  }

  /** Whole-run invariant, through any number of wraps of the counter: after any events each
      window is a suffix of the events of its kind, never above 4096 + 199 (so 4296 when a
      pass begins), and a pass is due whenever the slack would exceed that. */
  lemma {:induction false} RunKeepsWindows(evs: seq<UnifiedEvent>)
    ensures WindowsKeep(DriveAll(evs).w, evs, DriveAll(evs).cnt % PASS_EVERY)
  {
    if evs == [] {
    } else {
      hide WindowsKeep, Drive;
      var n := |evs| - 1;
      RunKeepsWindows(evs[..n]);
      DriveKeeps(DriveAll(evs[..n]), evs[..n], evs[n]);
      assert evs == evs[..n] + [evs[n]];
    }
  }

  /** In numbers: every window is at all times a suffix of its kind that holds at least the last
      4096 events, and it never holds more than 4295. */
  lemma WindowsStaySmall(evs: seq<UnifiedEvent>)
    ensures var w := DriveAll(evs).w;
            && IsSuffix(w.nics, OfKind(evs, NIC)) && |w.nics| <= 4295
            && (|w.nics| >= 4096 || w.nics == OfKind(evs, NIC))
            && IsSuffix(w.kernels, OfKind(evs, KERNEL)) && |w.kernels| <= 4295
            && (|w.kernels| >= 4096 || w.kernels == OfKind(evs, KERNEL))
            && IsSuffix(w.users, OfKind(evs, USERSPACE)) && |w.users| <= 4295
            && (|w.users| >= 4096 || w.users == OfKind(evs, USERSPACE))
  {
    RunKeepsWindows(evs);
    hide DriveAll, OfKind;
  }

  lemma DriveKeeps(d: Driver, evs: seq<UnifiedEvent>, ev: UnifiedEvent)
    requires WindowsKeep(d.w, evs, d.cnt % PASS_EVERY)
    ensures WindowsKeep(Drive(d, ev).w, evs + [ev], Drive(d, ev).cnt % PASS_EVERY)
  {
    hide WindowsKeep, Added, Trimmed;
    CountedStep(d.cnt);
    AddedKeeps(d.w, evs, d.cnt % PASS_EVERY, ev);
    TrimmedKeeps(Added(d.w, ev), evs + [ev], d.cnt % PASS_EVERY + 1);
  }

  lemma CountedStep(cnt: uint32)
    ensures Counted(cnt) % PASS_EVERY == 0 || Counted(cnt) % PASS_EVERY == cnt % PASS_EVERY + 1
  {}

  /** Every pass, periodic or final, works on exactly the last 4096 events of each kind. */
  lemma PassSeesLastEvents(evs: seq<UnifiedEvent>)
    ensures DriveAll(evs).cnt % 200 == 0 ==> Trimmed(DriveAll(evs).w) == DriveAll(evs).w
    ensures Trimmed(DriveAll(evs).w) ==
            Windows(LastN(OfKind(evs, NIC), 4096), LastN(OfKind(evs, KERNEL), 4096),
                    LastN(OfKind(evs, USERSPACE), 4096))
  {
    hide DriveAll, OfKind, Keeps, LastN;
    var d := DriveAll(evs);
    RunKeepsWindows(evs);
    KeepsTrimmed(d.w.nics, OfKind(evs, NIC), d.cnt % PASS_EVERY);
    KeepsTrimmed(d.w.kernels, OfKind(evs, KERNEL), d.cnt % PASS_EVERY);
    KeepsTrimmed(d.w.users, OfKind(evs, USERSPACE), d.cnt % PASS_EVERY);
    if d.cnt % PASS_EVERY == 0 {
      SmallIsTrimmed(d.w, evs);
    }
  }

  lemma SmallIsTrimmed(w: Windows, evs: seq<UnifiedEvent>)
    requires WindowsKeep(w, evs, 0)
    ensures Trimmed(w) == w
  {}

  /** A pass gives a user event the match that the search over everything ever popped gives
      it, whenever that kernel and NIC event are among the last 4096 of their kind. */
  lemma PassAgreesWithHistory(evs: seq<UnifiedEvent>, u: UnifiedEvent)
    requires var ks, ns := OfKind(evs, KERNEL), OfKind(evs, NIC);
             KernelChoice(ks, u).Some? ==>
               && KernelChoice(ks, u).value >= |ks| - MAX_WINDOW
               && (NicChoice(ns, ks[KernelChoice(ks, u).value]).Some? ==>
                     NicChoice(ns, ks[KernelChoice(ks, u).value]).value >= |ns| - MAX_WINDOW)
    ensures var w := Trimmed(DriveAll(evs).w);
            MatchOf(w.kernels, w.nics, u) == MatchOf(OfKind(evs, KERNEL), OfKind(evs, NIC), u)
  {
    var ks, ns := OfKind(evs, KERNEL), OfKind(evs, NIC);
    PassSeesLastEvents(evs);
    hide MatchOf, DriveAll, OfKind;
    var dk := if |ks| > MAX_WINDOW then |ks| - MAX_WINDOW else 0;
    var dn := if |ns| > MAX_WINDOW then |ns| - MAX_WINDOW else 0;
    assert ks[0..] == ks && ns[0..] == ns;
    WindowedMatchAgrees(ks, ns, u, dk, dn);
  }

  /** Wrap-around only brings a pass forward: from any count, the next one is due within
      200 events. */
  lemma NextPassWithin200(evs: seq<UnifiedEvent>, more: seq<UnifiedEvent>) returns (m: nat)
    requires |more| == 200
    ensures 0 < m <= 200 && DriveAll(evs + more[..m]).cnt % 200 == 0
  {
    hide DriveAll;
    var c := DriveAll(evs).cnt;
    var gap := PASS_EVERY - c % PASS_EVERY;
    NextMultiple(c);
    m := if c + gap < TWO_32 then gap else TWO_32 - c;
    CountAfter(evs, more, m);
  }

  lemma NextMultiple(c: nat)
    ensures (c + (PASS_EVERY - c % PASS_EVERY)) % PASS_EVERY == 0
  {}

  lemma {:induction false} CountAfter(evs: seq<UnifiedEvent>, more: seq<UnifiedEvent>, m: nat)
    requires m <= |more| <= PASS_EVERY
    ensures var c := DriveAll(evs).cnt;
            DriveAll(evs + more[..m]).cnt == if c + m < TWO_32 then c + m else c + m - TWO_32
  {
    if m == 0 {
      assert evs + more[..0] == evs;
    } else {
      CountAfter(evs, more, m - 1);
      var all := evs + more[..m];
      assert all[..|all| - 1] == evs + more[..m - 1];
      assert DriveAll(all).cnt == Counted(DriveAll(evs + more[..m - 1]).cnt);
      hide DriveAll;
    }
  }
}
