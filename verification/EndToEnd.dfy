/** The layers composed: from the message callback through the shared queue and the
    correlator, and from the correlator through the log file to the reading script. */
module EndToEnd {
  import opened MachineWords
  import opened Options
  import opened Events
  import opened Matching
  import opened Latency
  import opened Correlator
  import opened LogFormat
  import opened LogReader
  import opened LogRoundTrip
  import opened MessageHandler
  import opened Multiplicity
  import opened Provenance
  import AsyncLog
  import Ring = RingMachine
  import RingFifo

  // ---- Callback to correlator ----

  /** Ring events are words; `decode` reads the record laid out in them. */
  function Decoded(decode: Ring.Event -> UnifiedEvent, evs: seq<Ring.Event>): seq<UnifiedEvent> {
    seq(|evs|, i requires 0 <= i < |evs| => decode(evs[i]))
  }

  /** Two user events with their numbers in the order of their places. */
  ghost predicate Numbered(evs: seq<UnifiedEvent>) {
    forall i, j | 0 <= i < j < |evs| && evs[i].kind == evs[j].kind == USERSPACE :: evs[i].seqNo < evs[j].seqNo
  }

  lemma {:induction false} InKind(evs: seq<UnifiedEvent>, kind: uint32, ev: UnifiedEvent)
    ensures ev in OfKind(evs, kind) <==> ev in evs && ev.kind == kind
  {
    if evs == [] {
    } else {
      InKind(evs[..|evs| - 1], kind, ev);
      assert evs == evs[..|evs| - 1] + [evs[|evs| - 1]];
    }
  }

  /** Every user event of a list has a smaller number than `last`. */
  ghost predicate UsersBelow(evs: seq<UnifiedEvent>, last: UnifiedEvent) {
    forall u | u in evs && u.kind == USERSPACE :: u.seqNo < last.seqNo
  }

  lemma NumberedSnoc(evs: seq<UnifiedEvent>, last: UnifiedEvent)
    ensures Numbered(evs + [last]) <==> Numbered(evs) && (last.kind == USERSPACE ==> UsersBelow(evs, last))
  {
    var all := evs + [last];
    if Numbered(all) {
      forall i, j | 0 <= i < j < |evs| && evs[i].kind == evs[j].kind == USERSPACE
        ensures evs[i].seqNo < evs[j].seqNo
      {
        assert all[i].seqNo < all[j].seqNo;
      }
      forall u | u in evs && u.kind == last.kind == USERSPACE
        ensures u.seqNo < last.seqNo
      {
        var i :| 0 <= i < |evs| && evs[i] == u;
        assert all[i].seqNo < all[|evs|].seqNo;
      }
    }
  }

  lemma IncreasingSnoc(us: seq<UnifiedEvent>, last: UnifiedEvent)
    requires forall u | u in us :: u.kind == USERSPACE
    ensures Increasing(us + [last]) <==> Increasing(us) && UsersBelow(us, last)
  {
    var all := us + [last];
    if Increasing(all) {
      forall u | u in us
        ensures u.seqNo < last.seqNo
      {
        var i :| 0 <= i < |us| && us[i] == u;
        assert all[i].seqNo < all[|us|].seqNo;
      }
      forall i, j | 0 <= i < j < |us|
        ensures us[i].seqNo < us[j].seqNo
      {
        assert all[i].seqNo < all[j].seqNo;
      }
    }
  }

  lemma {:induction false} NumberedMeansIncreasing(evs: seq<UnifiedEvent>)
    ensures Numbered(evs) <==> Increasing(OfKind(evs, USERSPACE))
  {
    if evs == [] {
    } else {
      var n := |evs| - 1;
      var us, last := OfKind(evs[..n], USERSPACE), evs[n];
      NumberedMeansIncreasing(evs[..n]);
      assert evs == evs[..n] + [last];
      NumberedSnoc(evs[..n], last);
      forall u
        ensures u in us <==> u in evs[..n] && u.kind == USERSPACE
      {
        InKind(evs[..n], USERSPACE, u);
      }
      hide Numbered, Increasing;
      IncreasingSnoc(us, last);
    }
  }

  /** The queue keeps the numbering: dropped pushes only leave gaps. */
  lemma QueueKeepsNumbers(d: Ring.Discipline, s: Ring.State, acts: seq<Ring.Action>, s': Ring.State,
                          decode: Ring.Event -> UnifiedEvent)
    requires d.Serial() && Ring.Init(s) && Ring.Exec(d, s, acts) == Some(s') && |s'.accepted| < TWO_64
    requires Numbered(Decoded(decode, s'.started))
    ensures Numbered(Decoded(decode, s'.popped))
  {
    RingFifo.FifoForEveryInterleaving(d, s, acts, s');
    var all, out := Decoded(decode, s'.started), Decoded(decode, s'.popped);
    hide Ring.Exec, Ring.Init;
    forall i, j | 0 <= i < j < |out| && out[i].kind == out[j].kind == USERSPACE
      ensures out[i].seqNo < out[j].seqNo
    {
      assert out[i] == all[s'.ids[i]] && out[j] == all[s'.ids[j]];
    }
  }

  lemma NumberedPrefix(evs: seq<UnifiedEvent>, n: nat)
    requires Numbered(evs) && n <= |evs|
    ensures Numbered(evs[..n])
  {}

  lemma LastNIncreasing(us: seq<UnifiedEvent>, n: nat)
    requires Increasing(us)
    ensures Increasing(LastN(us, n))
  {}

  lemma UserEventsIncrease(ms: seq<Message>, sockFd: int32, pid: uint32)
    requires |ms| < TWO_64 - 1
    ensures Increasing(UserEvents(ms, sockFd, pid))
  {}

  /** End to end with serialised pushes. Let the user events pushed be those of the message
      callback. Then in the pass after any number of popped events, the user window is in
      strictly increasing number, the pass reports exactly the user events with a kernel
      match, each once, and its reports strictly increase in number. */
  lemma EveryPassIncreases(d: Ring.Discipline, s: Ring.State, acts: seq<Ring.Action>, s': Ring.State,
                           decode: Ring.Event -> UnifiedEvent, ms: seq<Message>, sockFd: int32, pid: uint32,
                           n: nat, offset: uint64)
    requires d.Serial() && Ring.Init(s) && Ring.Exec(d, s, acts) == Some(s') && |s'.accepted| < TWO_64
    requires |ms| < TWO_64 - 1
    requires OfKind(Decoded(decode, s'.started), USERSPACE) == UserEvents(ms, sockFd, pid)
    requires n <= |s'.popped|
    ensures var w := Trimmed(DriveAll(Decoded(decode, s'.popped)[..n]).w);
            var rs := Pass(w, offset, w.users);
            && Increasing(w.users)
            && (forall i, j | 0 <= i < j < |rs| :: rs[i].ce.seqNo < rs[j].ce.seqNo)
            && (forall r | r in rs :: exists u :: u in w.users && ReportOn(w, offset, u) == Some(r))
            && (forall u | u in w.users && MatchOf(w.kernels, w.nics, u).Some? ::
                  exists r :: r in rs && ReportOn(w, offset, u) == Some(r))
  {
    var evs := Decoded(decode, s'.popped)[..n];
    UserEventsIncrease(ms, sockFd, pid);
    NumberedMeansIncreasing(Decoded(decode, s'.started));
    QueueKeepsNumbers(d, s, acts, s', decode);
    hide Ring.Exec, Ring.Init, Numbered, Increasing, DriveAll;
    NumberedPrefix(Decoded(decode, s'.popped), n);
    NumberedMeansIncreasing(evs);
    PassSeesLastEvents(evs);
    var w := Trimmed(DriveAll(evs).w);
    LastNIncreasing(OfKind(evs, USERSPACE), MAX_WINDOW);
    PassOverIncreasing(w, offset);
  }

  lemma PassOverIncreasing(w: Windows, offset: uint64)
    requires Increasing(w.users)
    ensures var rs := Pass(w, offset, w.users);
            && (forall i, j | 0 <= i < j < |rs| :: rs[i].ce.seqNo < rs[j].ce.seqNo)
            && (forall r | r in rs :: exists u :: u in w.users && ReportOn(w, offset, u) == Some(r))
            && (forall u | u in w.users && MatchOf(w.kernels, w.nics, u).Some? ::
                  exists r :: r in rs && ReportOn(w, offset, u) == Some(r))
  {
    var rs, ms := Pass(w, offset, w.users), Matched(w, w.users);
    PassReportsMatched(w, offset, w.users);
    MatchedIncrease(w, w.users);
    hide Pass, Matched, ReportOn, MatchOf;
    forall r | r in rs
      ensures exists u :: u in w.users && ReportOn(w, offset, u) == Some(r)
    {
      var i :| 0 <= i < |rs| && rs[i] == r;
      MatchedAreThoseWithMatch(w, w.users, ms[i]);
      assert ms[i] in w.users && ReportOn(w, offset, ms[i]) == Some(r);
    }
    forall u | u in w.users && MatchOf(w.kernels, w.nics, u).Some?
      ensures exists r :: r in rs && ReportOn(w, offset, u) == Some(r)
    {
      MatchedAreThoseWithMatch(w, w.users, u);
      var i :| 0 <= i < |ms| && ms[i] == u;
      assert rs[i] in rs && ReportOn(w, offset, u) == Some(rs[i]);
    }
  }

  /** Whatever is popped was pushed. */
  lemma PoppedWasStarted(d: Ring.Discipline, s: Ring.State, acts: seq<Ring.Action>, s': Ring.State,
                         decode: Ring.Event -> UnifiedEvent, ev: UnifiedEvent)
    requires d.Serial() && Ring.Init(s) && Ring.Exec(d, s, acts) == Some(s') && |s'.accepted| < TWO_64
    requires ev in Decoded(decode, s'.popped)
    ensures ev in Decoded(decode, s'.started)
  {
    RingFifo.FifoForEveryInterleaving(d, s, acts, s');
    hide Ring.Exec, Ring.Init;
    var all, out := Decoded(decode, s'.started), Decoded(decode, s'.popped);
    var i :| 0 <= i < |out| && out[i] == ev;
    assert all[s'.ids[i]] == ev;
  }

  /** A popped user event is the one made for some message. */
  lemma PoppedUserIsCallback(d: Ring.Discipline, s: Ring.State, acts: seq<Ring.Action>, s': Ring.State,
                             decode: Ring.Event -> UnifiedEvent, ms: seq<Message>, sockFd: int32, pid: uint32,
                             u: UnifiedEvent)
    requires d.Serial() && Ring.Init(s) && Ring.Exec(d, s, acts) == Some(s') && |s'.accepted| < TWO_64
    requires |ms| < TWO_64 - 1
    requires OfKind(Decoded(decode, s'.started), USERSPACE) == UserEvents(ms, sockFd, pid)
    requires u in Decoded(decode, s'.popped) && u.kind == USERSPACE
    ensures 1 <= u.seqNo <= |ms| && u == UserEvent(ms[u.seqNo - 1], u.seqNo, sockFd, pid)
  {
    hide Ring.Exec, Ring.Init, OfKind, UserEvent, Decoded;
    PoppedWasStarted(d, s, acts, s', decode, u);
    InKind(Decoded(decode, s'.started), USERSPACE, u);
    var i :| 0 <= i < |ms| && UserEvents(ms, sockFd, pid)[i] == u;
    assert u.seqNo == i + 1 by {
      UserEventCarries(ms[i], i + 1, sockFd, pid);
    }
  }

  /** So is a user event in the window of a pass. */
  lemma WindowUserIsCallback(d: Ring.Discipline, s: Ring.State, acts: seq<Ring.Action>, s': Ring.State,
                             decode: Ring.Event -> UnifiedEvent, ms: seq<Message>, sockFd: int32, pid: uint32,
                             n: nat, u: UnifiedEvent)
    requires d.Serial() && Ring.Init(s) && Ring.Exec(d, s, acts) == Some(s') && |s'.accepted| < TWO_64
    requires |ms| < TWO_64 - 1 && n <= |s'.popped|
    requires OfKind(Decoded(decode, s'.started), USERSPACE) == UserEvents(ms, sockFd, pid)
    requires u in LastN(OfKind(Decoded(decode, s'.popped)[..n], USERSPACE), MAX_WINDOW)
    ensures 1 <= u.seqNo <= |ms| && u == UserEvent(ms[u.seqNo - 1], u.seqNo, sockFd, pid)
  {
    InKind(Decoded(decode, s'.popped)[..n], USERSPACE, u);
    hide Ring.Exec, Ring.Init, OfKind, UserEvent, Decoded;
    PoppedUserIsCallback(d, s, acts, s', decode, ms, sockFd, pid, u);
  }

  /** In every pass, with callbacks that read a clock that does not go back, the kernel times
      given to the user events never go back either, and no match is followed by a miss; nor
      do the NIC times, between kernel events of equal sequence number. */
  lemma EveryPassKeepsTimelines(d: Ring.Discipline, s: Ring.State, acts: seq<Ring.Action>, s': Ring.State,
                                decode: Ring.Event -> UnifiedEvent, ms: seq<Message>, sockFd: int32, pid: uint32,
                                n: nat)
    requires d.Serial() && Ring.Init(s) && Ring.Exec(d, s, acts) == Some(s') && |s'.accepted| < TWO_64
    requires |ms| < TWO_64 - 1 && n <= |s'.popped|
    requires OfKind(Decoded(decode, s'.started), USERSPACE) == UserEvents(ms, sockFd, pid)
    requires forall a, b | 0 <= a <= b < |ms| :: ms[a].tsUser <= ms[b].tsUser
    ensures var w := Trimmed(DriveAll(Decoded(decode, s'.popped)[..n]).w);
            forall i, j | 0 <= i < j < |w.users| && MatchOf(w.kernels, w.nics, w.users[i]).Some? ::
              && MatchOf(w.kernels, w.nics, w.users[j]).Some?
              && Follows(MatchOf(w.kernels, w.nics, w.users[i]).value, MatchOf(w.kernels, w.nics, w.users[j]).value)
  {
    var evs := Decoded(decode, s'.popped)[..n];
    var w := Trimmed(DriveAll(evs).w);
    EveryPassIncreases(d, s, acts, s', decode, ms, sockFd, pid, n, 0);
    PassSeesLastEvents(evs);
    hide Ring.Exec, Ring.Init, MatchOf, DriveAll, Trimmed, Pass, ReportOn, UserEvent, OfKind, LastN;
    forall i, j | 0 <= i < j < |w.users| && MatchOf(w.kernels, w.nics, w.users[i]).Some?
      ensures MatchOf(w.kernels, w.nics, w.users[j]).Some?
      ensures Follows(MatchOf(w.kernels, w.nics, w.users[i]).value, MatchOf(w.kernels, w.nics, w.users[j]).value)
    {
      var u, u' := w.users[i], w.users[j];
      WindowUserIsCallback(d, s, acts, s', decode, ms, sockFd, pid, n, u);
      WindowUserIsCallback(d, s, acts, s', decode, ms, sockFd, pid, n, u');
      UserEventCarries(ms[u.seqNo - 1], u.seqNo, sockFd, pid);
      UserEventCarries(ms[u'.seqNo - 1], u'.seqNo, sockFd, pid);
      assert u.seqNo < u'.seqNo;
      TimelinesNeverCross(w.kernels, w.nics, u, u');
    }
  }

  // ---- Correlator to script ----

  lemma FileHoldsLines(s: AsyncLog.State, acts: seq<AsyncLog.Action>, s': AsyncLog.State, rs: seq<LogRecord>)
    requires AsyncLog.Init(s) && AsyncLog.Exec(s, acts) == Some(s') && s'.writer.Finished?
    requires s'.submitted == Lines(rs) && s'.atStop == Some(|rs|)
    ensures s'.core.file == Lines(rs)
  {
    AsyncLog.EveryLineIsWritten(s, acts, s');
    hide AsyncLog.Exec, AsyncLog.Init, Line;
  }

  /** For every interleaving of the submitting threads with the writer thread: once the
      writer has finished, with nothing submitted after the destructor began, the script's
      six lists on the file are the values of the records submitted, in order. */
  lemma ScriptReadsWhatWasSubmitted(s: AsyncLog.State, acts: seq<AsyncLog.Action>, s': AsyncLog.State,
                                    rs: seq<LogRecord>, k: Key)
    requires AsyncLog.Init(s) && AsyncLog.Exec(s, acts) == Some(s') && s'.writer.Finished?
    requires s'.submitted == Lines(rs) && s'.atStop == Some(|rs|)
    requires forall r | r in rs :: SilentSymbol(r.symbol)
    ensures Collect(k.Name(), Concat(s'.core.file)) == Values(k, rs)
  {
    FileHoldsLines(s, acts, s', rs);
    RoundTrip(k, rs);
  }

  lemma {:induction false} RecordSymbols(reports: seq<Report>)
    ensures forall r | r in Records(reports) :: exists p :: p in reports && p.ce.symbol == r.symbol
  {
    if reports == [] {
    } else {
      RecordSymbols(reports[..|reports| - 1]);
      var last := reports[|reports| - 1];
      forall r | r in Records(reports)
        ensures exists p :: p in reports && p.ce.symbol == r.symbol
      {
        if r in Records(reports[..|reports| - 1]) {
          var p :| p in reports[..|reports| - 1] && p.ce.symbol == r.symbol;
          assert p in reports;
        } else {
          assert last in reports && last.ce.symbol == r.symbol;
        }
      }
    }
  }

  /** What the correlation thread hands to the writer is what the script reads back, when
      the reported symbols contain no match of the script's patterns. */
  lemma ScriptReadsTheReports(s: AsyncLog.State, acts: seq<AsyncLog.Action>, s': AsyncLog.State,
                              reports: seq<Report>, k: Key)
    requires AsyncLog.Init(s) && AsyncLog.Exec(s, acts) == Some(s') && s'.writer.Finished?
    requires s'.submitted == Lines(Records(reports)) && s'.atStop == Some(|Records(reports)|)
    requires forall p | p in reports :: SilentSymbol(p.ce.symbol)
    ensures Collect(k.Name(), Concat(s'.core.file)) == Values(k, Records(reports))
  {
    RecordSymbols(reports);
    forall r | r in Records(reports)
      ensures SilentSymbol(r.symbol)
    {
      var p :| p in reports && p.ce.symbol == r.symbol;
    }
    ScriptReadsWhatWasSubmitted(s, acts, s', Records(reports), k);
  }

  // ---- Callback to script ----

  /** How often each callback's event is reported and logged: once per pass that finds it. */
  lemma EveryCallbackIsLoggedPerPass(d: Ring.Discipline, s: Ring.State, acts: seq<Ring.Action>, s': Ring.State,
                                     decode: Ring.Event -> UnifiedEvent, ms: seq<Message>, sockFd: int32,
                                     pid: uint32, offset: uint64, q: uint64)
    requires d.Serial() && Ring.Init(s) && Ring.Exec(d, s, acts) == Some(s') && |s'.accepted| < TWO_64
    requires |ms| < TWO_64 - 1
    requires OfKind(Decoded(decode, s'.started), USERSPACE) == UserEvents(ms, sockFd, pid)
    ensures var evs := Decoded(decode, s'.popped);
            var reports := ThreadReports(evs, offset);
            && Times(reports, q, false) == |Hits(evs, q, false)| + (if Hit(evs, q, false) then 1 else 0)
            && TimesInLog(Records(reports), q) == |Hits(evs, q, true)| + (if Hit(evs, q, true) then 1 else 0)
  {
    UserEventsIncrease(ms, sockFd, pid);
    NumberedMeansIncreasing(Decoded(decode, s'.started));
    QueueKeepsNumbers(d, s, acts, s', decode);
    NumberedMeansIncreasing(Decoded(decode, s'.popped));
    hide Ring.Exec, Ring.Init, Numbered, Increasing, Decoded, OfKind, ThreadReports;
    ReportedOncePerPass(Decoded(decode, s'.popped), offset, q);
  }

  /** Some kernel event is not after this callback; and to be logged, the exchange time of its
      message is known and before the epoch clock of the callback. */
  ghost predicate Findable(kernels: seq<UnifiedEvent>, m: Message, logged: bool) {
    && (exists k :: k in kernels && 0 < k.tsKernel <= m.tsUser)
    && (logged ==> 0 < m.eventTimeMs * 1000000 % TWO_64 < m.tsUserEpoch)
  }

  lemma CallbackCounts(w: Windows, m: Message, q: uint64, sockFd: int32, pid: uint32, logged: bool)
    ensures Counts(w, UserEvent(m, q, sockFd, pid), q, logged) <==> Findable(w.kernels, m, logged)
  {
    var u := UserEvent(m, q, sockFd, pid);
    UserEventCarries(m, q, sockFd, pid);
    ClientEventTakesLatestKernel(w.kernels, u);
    hide KernelChoice, NicChoice, UserEvent;
  }

  /** A pass finds callback number `q` exactly when its event is among the last 4096 user events
      and it is findable among the last 4096 kernel events. */
  lemma CallbackIsFoundExactlyWhen(d: Ring.Discipline, s: Ring.State, acts: seq<Ring.Action>, s': Ring.State,
                                   decode: Ring.Event -> UnifiedEvent, ms: seq<Message>, sockFd: int32,
                                   pid: uint32, n: nat, q: uint64, logged: bool)
    requires d.Serial() && Ring.Init(s) && Ring.Exec(d, s, acts) == Some(s') && |s'.accepted| < TWO_64
    requires |ms| < TWO_64 - 1 && n <= |s'.popped|
    requires OfKind(Decoded(decode, s'.started), USERSPACE) == UserEvents(ms, sockFd, pid)
    ensures var evs := Decoded(decode, s'.popped)[..n];
            Hit(evs, q, logged) <==>
              && (exists u :: u in LastN(OfKind(evs, USERSPACE), 4096) && u.seqNo == q)
              && 1 <= q <= |ms| && Findable(LastN(OfKind(evs, KERNEL), 4096), ms[q - 1], logged)
  {
    hide Ring.Exec, Ring.Init, OfKind, UserEvents, UserEvent, LastN, Counts, Findable;
    assert n <= |Decoded(decode, s'.popped)|;
    hide Decoded;
    var w := Latest(Decoded(decode, s'.popped)[..n]);
    forall u | u in w.users && u.seqNo == q
      ensures 1 <= q <= |ms| && (Counts(w, u, q, logged) <==> Findable(w.kernels, ms[q - 1], logged))
    {
      WindowUserIsCallback(d, s, acts, s', decode, ms, sockFd, pid, n, u);
      CallbackCounts(w, ms[q - 1], q, sockFd, pid, logged);
    }
    CountsOnlyItsNumber(w, w.users, q, logged);
  }

  lemma CountsOnlyItsNumber(w: Windows, us: seq<UnifiedEvent>, q: uint64, logged: bool)
    ensures Found(w, us, q, logged) <==> exists u :: u in us && u.seqNo == q && Counts(w, u, q, logged)
  {
    hide MatchOf;
  }

  /** Every report is made by some pass on the event of some message. */
  lemma ReportIsOfCallback(d: Ring.Discipline, s: Ring.State, acts: seq<Ring.Action>, s': Ring.State,
                           decode: Ring.Event -> UnifiedEvent, ms: seq<Message>, sockFd: int32, pid: uint32,
                           offset: uint64, r: Report) returns (p: nat, q: nat)
    requires d.Serial() && Ring.Init(s) && Ring.Exec(d, s, acts) == Some(s') && |s'.accepted| < TWO_64
    requires |ms| < TWO_64 - 1
    requires OfKind(Decoded(decode, s'.started), USERSPACE) == UserEvents(ms, sockFd, pid)
    requires r in ThreadReports(Decoded(decode, s'.popped), offset)
    ensures p <= |s'.popped| && 1 <= q <= |ms|
    ensures var w := Latest(Decoded(decode, s'.popped)[..p]);
            var u := UserEvent(ms[q - 1], q, sockFd, pid);
            u in w.users && ReportOn(w, offset, u) == Some(r)
  {
    hide Ring.Exec, Ring.Init, OfKind, UserEvents, ThreadReports, ReportOn, UserEvent;
    var evs := Decoded(decode, s'.popped);
    ThreadMakes(evs, offset, r);
    p :| MadeAfter(r, evs, offset, p);
    var w := Latest(evs[..p]);
    var u :| u in w.users && ReportOn(w, offset, u) == Some(r);
    WindowUserIsCallback(d, s, acts, s', decode, ms, sockFd, pid, p, u);
    q := u.seqNo;
  }

  /** Every symbol in a report is one that a message brought. */
  lemma ReportedSymbolsAreReceived(d: Ring.Discipline, s: Ring.State, acts: seq<Ring.Action>, s': Ring.State,
                                   decode: Ring.Event -> UnifiedEvent, ms: seq<Message>, sockFd: int32, pid: uint32,
                                   offset: uint64, r: Report)
    requires d.Serial() && Ring.Init(s) && Ring.Exec(d, s, acts) == Some(s') && |s'.accepted| < TWO_64
    requires |ms| < TWO_64 - 1
    requires OfKind(Decoded(decode, s'.started), USERSPACE) == UserEvents(ms, sockFd, pid)
    requires r in ThreadReports(Decoded(decode, s'.popped), offset)
    ensures exists m :: m in ms && m.symbol == r.ce.symbol
  {
    var p, q := ReportIsOfCallback(d, s, acts, s', decode, ms, sockFd, pid, offset, r);
    hide Ring.Exec, Ring.Init, OfKind, Decoded, UserEvents, ThreadReports, MatchOf;
    assert ms[q - 1] in ms && ms[q - 1].symbol == r.ce.symbol;
  }

  /** Every record of a run is explained by the clock readings of its message. */
  lemma RecordsAreExplained(d: Ring.Discipline, s: Ring.State, acts: seq<Ring.Action>, s': Ring.State,
                            decode: Ring.Event -> UnifiedEvent, ms: seq<Message>, sockFd: int32, pid: uint32,
                            offset: uint64, x: LogRecord)
    requires d.Serial() && Ring.Init(s) && Ring.Exec(d, s, acts) == Some(s') && |s'.accepted| < TWO_64
    requires |ms| < TWO_64 - 1
    requires OfKind(Decoded(decode, s'.started), USERSPACE) == UserEvents(ms, sockFd, pid)
    requires x in Records(ThreadReports(Decoded(decode, s'.popped), offset))
    ensures Explained(LatenciesOf(x), ms, Decoded(decode, s'.popped), offset)
  {
    var evs := Decoded(decode, s'.popped);
    RecordMade(ThreadReports(evs, offset), x);
    var r :| r in ThreadReports(evs, offset) && x == RecordOf(r) && r.bnToUser > 0;
    hide Ring.Exec, Ring.Init, OfKind, Decoded, UserEvents, ThreadReports, Records, Explained, RecordOf, LatenciesOf;
    var p, q := ReportIsOfCallback(d, s, acts, s', decode, ms, sockFd, pid, offset, r);
    ReportExplained(evs, ms, sockFd, pid, offset, p, q, r);
  }

  /** The whole path. The messages of the callback go through any serialised interleaving of
      the ring, the correlation thread works on all popped events, and its lines go through
      any interleaving of the asynchronous writer: then the script's six lists are the values
      of the thread's records, provided no message's symbol contains a match of the
      script's patterns (in particular if none contains a '='). */
  lemma ScriptReadsTheRun(d: Ring.Discipline, s: Ring.State, acts: seq<Ring.Action>, s': Ring.State,
                          decode: Ring.Event -> UnifiedEvent, ms: seq<Message>, sockFd: int32, pid: uint32,
                          offset: uint64, t: AsyncLog.State, steps: seq<AsyncLog.Action>, t': AsyncLog.State, k: Key)
    requires d.Serial() && Ring.Init(s) && Ring.Exec(d, s, acts) == Some(s') && |s'.accepted| < TWO_64
    requires |ms| < TWO_64 - 1
    requires OfKind(Decoded(decode, s'.started), USERSPACE) == UserEvents(ms, sockFd, pid)
    requires AsyncLog.Init(t) && AsyncLog.Exec(t, steps) == Some(t') && t'.writer.Finished?
    requires forall m | m in ms :: SilentSymbol(m.symbol)
    ensures var records := Records(ThreadReports(Decoded(decode, s'.popped), offset));
            t'.submitted == Lines(records) && t'.atStop == Some(|records|) ==>
              Collect(k.Name(), Concat(t'.core.file)) == Values(k, records)
  {
    hide Ring.Exec, Ring.Init, AsyncLog.Exec, AsyncLog.Init, OfKind, UserEvents, Decoded, SilentSymbol, ThreadReports;
    hide Records, Lines, Collect, Values, Concat;
    var reports := ThreadReports(Decoded(decode, s'.popped), offset);
    forall r | r in reports
      ensures SilentSymbol(r.ce.symbol)
    {
      ReportedSymbolsAreReceived(d, s, acts, s', decode, ms, sockFd, pid, offset, r);
    }
    if t'.submitted == Lines(Records(reports)) && t'.atStop == Some(|Records(reports)|) {
      ScriptReadsTheReports(t, steps, t', reports, k);
    }
  }

  /** The script's six lists have one entry for each of `n` lines. */
  ghost predicate Columns(file: string, n: nat) {
    && |Collect("BN->NIC", file)| == |Collect("NIC->Kernel", file)| == |Collect("Kernel->User", file)| == n
    && |Collect("CPU", file)| == |Collect("MSK", file)| == |Collect("Total", file)| == n
  }

  ghost function Row(file: string, n: nat, i: nat): Latencies
    requires Columns(file, n) && i < n
  {
    Latencies(Collect("BN->NIC", file)[i], Collect("NIC->Kernel", file)[i], Collect("Kernel->User", file)[i],
              Collect("CPU", file)[i], Collect("MSK", file)[i], Collect("Total", file)[i])
  }

  lemma RowsAreRecords(file: string, rs: seq<LogRecord>)
    requires file == Concat(Lines(rs)) && forall r | r in rs :: SilentSymbol(r.symbol)
    ensures Columns(file, |rs|) && forall i | 0 <= i < |rs| :: Row(file, |rs|, i) == LatenciesOf(rs[i])
  {
    RoundTripByName(rs);
    hide Collect, Concat, Lines, SilentSymbol;
  }

  /** What the numbers that the script reads mean. After such a run each row of its six lists is
      explained by the clock readings that one message and its kernel and NIC events brought. */
  lemma ScriptReadsClockDifferences(d: Ring.Discipline, s: Ring.State, acts: seq<Ring.Action>, s': Ring.State,
                                    decode: Ring.Event -> UnifiedEvent, ms: seq<Message>, sockFd: int32,
                                    pid: uint32, offset: uint64, t: AsyncLog.State, steps: seq<AsyncLog.Action>,
                                    t': AsyncLog.State)
    requires d.Serial() && Ring.Init(s) && Ring.Exec(d, s, acts) == Some(s') && |s'.accepted| < TWO_64
    requires |ms| < TWO_64 - 1
    requires OfKind(Decoded(decode, s'.started), USERSPACE) == UserEvents(ms, sockFd, pid)
    requires AsyncLog.Init(t) && AsyncLog.Exec(t, steps) == Some(t') && t'.writer.Finished?
    requires forall m | m in ms :: SilentSymbol(m.symbol)
    ensures var evs := Decoded(decode, s'.popped);
            var records := Records(ThreadReports(evs, offset));
            var file := Concat(t'.core.file);
            t'.submitted == Lines(records) && t'.atStop == Some(|records|) ==>
              && Columns(file, |records|)
              && forall i | 0 <= i < |records| :: Explained(Row(file, |records|, i), ms, evs, offset)
  {
    hide Ring.Exec, Ring.Init, AsyncLog.Exec, AsyncLog.Init, OfKind, UserEvents, Decoded, SilentSymbol, ThreadReports;
    hide Records, Lines, Collect, Concat, Columns, Row, Explained;
    var evs := Decoded(decode, s'.popped);
    var records := Records(ThreadReports(evs, offset));
    if t'.submitted == Lines(records) && t'.atStop == Some(|records|) {
      FileHoldsLines(t, steps, t', records);
      RecordSymbols(ThreadReports(evs, offset));
      forall x | x in records
        ensures SilentSymbol(x.symbol) && Explained(LatenciesOf(x), ms, evs, offset)
      {
        var r :| r in ThreadReports(evs, offset) && r.ce.symbol == x.symbol;
        ReportedSymbolsAreReceived(d, s, acts, s', decode, ms, sockFd, pid, offset, r);
        RecordsAreExplained(d, s, acts, s', decode, ms, sockFd, pid, offset, x);
      }
      RowsAreRecords(Concat(t'.core.file), records);
    }
  }
}
