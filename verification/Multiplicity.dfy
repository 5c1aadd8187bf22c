/** How often one user event is reported and logged over a whole run. Matched user
    events stay in their window, so every later pass reports them again. */
module Multiplicity {
  import opened MachineWords
  import opened Events
  import opened Matching
  import opened Latency
  import opened LogFormat
  import opened Correlator

  /** How many reports carry the number `q`; with `logged`, how many of those reach the log. */
  function Times(rs: seq<Report>, q: uint64, logged: bool): nat {
    if rs == [] then 0
    else
      var last := rs[|rs| - 1];
      Times(rs[..|rs| - 1], q, logged) + if last.ce.seqNo == q && (logged ==> last.bnToUser > 0) then 1 else 0
  }

  lemma {:induction false} TimesConcat(a: seq<Report>, b: seq<Report>, q: uint64, logged: bool)
    ensures Times(a + b, q, logged) == Times(a, q, logged) + Times(b, q, logged)
  {
    if b == [] {
      assert a + b == a;
    } else {
      var n := |b| - 1;
      TimesConcat(a, b[..n], q, logged);
      assert (a + b)[..|a + b| - 1] == a + b[..n];
    }
  }

  /** How many records carry the number `q`. */
  function TimesInLog(rs: seq<LogRecord>, q: uint64): nat {
    if rs == [] then 0
    else TimesInLog(rs[..|rs| - 1], q) + if rs[|rs| - 1].seqNo == q then 1 else 0
  }

  lemma {:induction false} LogHoldsTheLogged(rs: seq<Report>, q: uint64)
    ensures TimesInLog(Records(rs), q) == Times(rs, q, true)
  {
    if rs == [] {
    } else {
      var n := |rs| - 1;
      LogHoldsTheLogged(rs[..n], q);
      if rs[n].bnToUser > 0 {
        assert Records(rs)[..|Records(rs)| - 1] == Records(rs[..n]);
      } else {
        assert Records(rs) == Records(rs[..n]);
      }
    }
  }

  /** The exchange latency is positive. */
  predicate Measured(u: UnifiedEvent) {
    u.tsUserEpoch > u.srcSend > 0
  }

  /** A pass over these windows finds the user event numbered `q`, and a kernel event for it. */
  ghost predicate Found(w: Windows, us: seq<UnifiedEvent>, q: uint64, logged: bool) {
    exists u :: u in us && Counts(w, u, q, logged)
  }

  ghost predicate Counts(w: Windows, u: UnifiedEvent, q: uint64, logged: bool) {
    u.seqNo == q && MatchOf(w.kernels, w.nics, u).Some? && (logged ==> Measured(u))
  }

  lemma OneReport(w: Windows, offset: uint64, u: UnifiedEvent, q: uint64, logged: bool)
    ensures Times(Reports(ReportOn(w, offset, u)), q, logged) == if Counts(w, u, q, logged) then 1 else 0
  {
    hide MatchOf;
    var rs := Reports(ReportOn(w, offset, u));
    if rs != [] {
      assert Times(rs[..0], q, logged) == 0;
    }
  }

  /** The last user event of an increasing list is found by its own number and no other is. */
  lemma FoundAtTheEnd(w: Windows, us: seq<UnifiedEvent>, u: UnifiedEvent, q: uint64, logged: bool)
    requires Increasing(us + [u])
    ensures Increasing(us)
    ensures Found(w, us + [u], q, logged) <==> Found(w, us, q, logged) || Counts(w, u, q, logged)
    ensures !(Found(w, us, q, logged) && Counts(w, u, q, logged))
  {
    var all := us + [u];
    hide MatchOf, Measured;
    forall v | v in us
      ensures v.seqNo < u.seqNo
    {
      var i :| 0 <= i < |us| && us[i] == v;
      assert all[i].seqNo < all[|us|].seqNo;
    }
    forall i, j | 0 <= i < j < |us|
      ensures us[i].seqNo < us[j].seqNo
    {
      assert all[i].seqNo < all[j].seqNo;
    }
    assert u in all;
  }

  /** In one pass a user event is reported at most once. */
  lemma {:induction false} PassTimes(w: Windows, offset: uint64, us: seq<UnifiedEvent>, q: uint64, logged: bool)
    requires Increasing(us)
    ensures Times(Pass(w, offset, us), q, logged) == if Found(w, us, q, logged) then 1 else 0
  {
    if us == [] {
    } else {
      var n := |us| - 1;
      var front, u := us[..n], us[n];
      assert us == front + [u];
      assert Pass(w, offset, us) == Pass(w, offset, front) + Reports(ReportOn(w, offset, u));
      hide Pass, ReportOn, Reports, Times, Increasing, Found, Counts;
      FoundAtTheEnd(w, front, u, q, logged);
      PassTimes(w, offset, front, q, logged);
      TimesConcat(Pass(w, offset, front), Reports(ReportOn(w, offset, u)), q, logged);
      OneReport(w, offset, u, q, logged);
    }
  }

  /** The events of the last 4096 of each kind. */
  function Latest(evs: seq<UnifiedEvent>): Windows {
    Windows(LastN(OfKind(evs, NIC), 4096), LastN(OfKind(evs, KERNEL), 4096), LastN(OfKind(evs, USERSPACE), 4096))
  }

  ghost predicate Hit(evs: seq<UnifiedEvent>, q: uint64, logged: bool) {
    Found(Latest(evs), Latest(evs).users, q, logged)
  }

  /** After how many events a pass is due: the 32-bit counter is a multiple of 200. */
  predicate Due(m: nat) {
    m % TWO_32 % 200 == 0
  }

  /** The passes of a run that find user event `q`, each named by the number of events before it. */
  ghost function Hits(evs: seq<UnifiedEvent>, q: uint64, logged: bool): set<nat> {
    set m: nat | 0 < m <= |evs| && Due(m) && Hit(evs[..m], q, logged)
  }

  lemma {:induction false} CounterIsLength(evs: seq<UnifiedEvent>)
    ensures DriveAll(evs).cnt == |evs| % TWO_32
  {
    if evs == [] {
    } else {
      CounterIsLength(evs[..|evs| - 1]);
    }
  }

  lemma HitsGrow(evs: seq<UnifiedEvent>, q: uint64, logged: bool)
    requires evs != []
    ensures var n := |evs| - 1;
            |Hits(evs, q, logged)| ==
            |Hits(evs[..n], q, logged)| + if Due(|evs|) && Hit(evs, q, logged) then 1 else 0
  {
    hide Hit, Due;
    var n := |evs| - 1;
    var before, after := Hits(evs[..n], q, logged), Hits(evs, q, logged);
    forall m: nat | m <= n
      ensures evs[..n][..m] == evs[..m]
    {
    }
    assert evs[..|evs|] == evs;
    if Due(|evs|) && Hit(evs, q, logged) {
      assert after == before + {|evs|};
    } else {
      assert after == before;
    }
  }

  lemma PrefixIncreases(evs: seq<UnifiedEvent>)
    requires evs != [] && Increasing(OfKind(evs, USERSPACE))
    ensures Increasing(OfKind(evs[..|evs| - 1], USERSPACE))
  {
    var us, all := OfKind(evs[..|evs| - 1], USERSPACE), OfKind(evs, USERSPACE);
    assert us <= all;
    forall i, j | 0 <= i < j < |us|
      ensures us[i].seqNo < us[j].seqNo
    {
      assert all[i].seqNo < all[j].seqNo;
    }
  }

  lemma LatestIncreases(evs: seq<UnifiedEvent>)
    requires Increasing(OfKind(evs, USERSPACE))
    ensures Increasing(Latest(evs).users)
  {}

  /** A user event is reported once for each due pass at which it is among the last 4096 user
      events and has a kernel match: not once, and not once per match. */
  lemma {:induction false} DuePassesReport(evs: seq<UnifiedEvent>, offset: uint64, q: uint64, logged: bool)
    requires Increasing(OfKind(evs, USERSPACE))
    ensures Times(RunReports(evs, offset), q, logged) == |Hits(evs, q, logged)|
  {
    if evs == [] {
      assert Hits(evs, q, logged) == {};
    } else {
      var n := |evs| - 1;
      PrefixIncreases(evs);
      DuePassesReport(evs[..n], offset, q, logged);
      HitsGrow(evs, q, logged);
      CounterIsLength(evs);
      PassSeesLastEvents(evs);
      LatestIncreases(evs);
      PassTimes(Latest(evs), offset, Latest(evs).users, q, logged);
      var d := DriveAll(evs);
      var found := if d.cnt % PASS_EVERY == 0 then Pass(d.w, offset, d.w.users) else [];
      assert RunReports(evs, offset) == RunReports(evs[..n], offset) + found;
      hide RunReports, Pass, DriveAll, Hits, Found, Increasing, OfKind;
      TimesConcat(RunReports(evs[..n], offset), found, q, logged);
    }
  }

  /** Over a whole run, the final pass included, the number of reports (`logged`: of log lines)
      with the number `q` is the number of passes that find that user event. */
  lemma ReportedOncePerPass(evs: seq<UnifiedEvent>, offset: uint64, q: uint64)
    requires Increasing(OfKind(evs, USERSPACE))
    ensures var reports := ThreadReports(evs, offset);
            && Times(reports, q, false) == |Hits(evs, q, false)| + (if Hit(evs, q, false) then 1 else 0)
            && TimesInLog(Records(reports), q) == |Hits(evs, q, true)| + (if Hit(evs, q, true) then 1 else 0)
  {
    PassSeesLastEvents(evs);
    LatestIncreases(evs);
    var w := Latest(evs);
    var last := Pass(w, offset, w.users);
    forall logged: bool
      ensures Times(RunReports(evs, offset) + last, q, logged)
           == |Hits(evs, q, logged)| + if Hit(evs, q, logged) then 1 else 0
    {
      DuePassesReport(evs, offset, q, logged);
      PassTimes(w, offset, w.users, q, logged);
      TimesConcat(RunReports(evs, offset), last, q, logged);
    }
    LogHoldsTheLogged(RunReports(evs, offset) + last, q);
    hide RunReports, Pass, Hits, Hit, Records, TimesInLog;
  }
}
