/** The log of the ring is complete and its refusals mean something: every call is
    logged once, and a refusal is right about the counter value that it read. */
module RingLog {
  import opened MachineWords
  import opened Options
  import opened RingMachine
  import opened RingFifo

  // ---- Every call is logged once, in every run under any discipline ----

  /** The events of the push calls of a run, in order. */
  function PushCalls(acts: seq<Action>): seq<Event> {
    if acts == [] then []
    else (if acts[0].PushCall? then [acts[0].ev] else []) + PushCalls(acts[1..])
  }

  function PopCalls(acts: seq<Action>): nat {
    if acts == [] then 0 else (if acts[0].PopCall? then 1 else 0) + PopCalls(acts[1..])
  }

  predicate LogsPush(op: Op, ev: Event) {
    (op.PushOk? || op.PushFull?) && op.ev == ev
  }

  predicate LogsPop(op: Op) {
    op.PopOk? || op.PopEmpty?
  }

  /** How many pushes of this event, accepted or refused, are logged; how many pops are. */
  function LoggedPushes(ops: seq<Op>, ev: Event): nat {
    if ops == [] then 0
    else LoggedPushes(ops[..|ops| - 1], ev) + if LogsPush(ops[|ops| - 1], ev) then 1 else 0
  }

  function LoggedPops(ops: seq<Op>): nat {
    if ops == [] then 0 else LoggedPops(ops[..|ops| - 1]) + if LogsPop(ops[|ops| - 1]) then 1 else 0
  }

  function Occurrences(evs: seq<Event>, ev: Event): nat {
    if evs == [] then 0 else Occurrences(evs[..|evs| - 1], ev) + if evs[|evs| - 1] == ev then 1 else 0
  }

  /** A push of this event that has been called but has not reached its deciding access. */
  predicate Undecided(started: seq<Event>, c: Pusher, ev: Event) {
    (c.PCalled? || c.PHead? || c.PCopying?) && c.id < |started| && started[c.id] == ev
  }

  function UndecidedPushes(started: seq<Event>, cs: seq<Pusher>, ev: Event): nat {
    if cs == [] then 0
    else UndecidedPushes(started, cs[..|cs| - 1], ev) + if Undecided(started, cs[|cs| - 1], ev) then 1 else 0
  }

  predicate UndecidedPop(s: State)
    requires s.tails != []
  {
    s.popper.QCalled? || s.popper.QCopying? || (s.popper.QHead? && s.Tail() < s.popper.h)
  }

  lemma PopsAreNotPushes(op: Op, ev: Event)
    ensures !(LogsPop(op) && LogsPush(op, ev))
  {}

  lemma LoggedSnoc(ops: seq<Op>, op: Op, ev: Event)
    ensures LoggedPushes(ops + [op], ev) == LoggedPushes(ops, ev) + if LogsPush(op, ev) then 1 else 0
    ensures LoggedPops(ops + [op]) == LoggedPops(ops) + if LogsPop(op) then 1 else 0
  {
    assert (ops + [op])[..|ops|] == ops;
  }

  lemma OccurrencesSnoc(evs: seq<Event>, last: Event, ev: Event)
    ensures Occurrences(evs + [last], ev) == Occurrences(evs, ev) + if last == ev then 1 else 0
  {
    assert (evs + [last])[..|evs|] == evs;
  }

  lemma {:induction false} PusherMoves(started: seq<Event>, cs: seq<Pusher>, p: nat, c: Pusher, ev: Event)
    requires p < |cs|
    ensures UndecidedPushes(started, cs[p := c], ev) + (if Undecided(started, cs[p], ev) then 1 else 0)
         == UndecidedPushes(started, cs, ev) + if Undecided(started, c, ev) then 1 else 0
  {
    hide Undecided;
    var n, ds := |cs| - 1, cs[p := c];
    if p == n {
      assert ds[..n] == cs[..n];
    } else {
      PusherMoves(started, cs[..n], p, c, ev);
      assert ds[..n] == cs[..n][p := c];
    }
  }

  lemma {:induction false} StartedGrows(started: seq<Event>, last: Event, cs: seq<Pusher>, ev: Event)
    requires forall p | 0 <= p < |cs| && (cs[p].PCalled? || cs[p].PHead? || cs[p].PCopying?) :: cs[p].id < |started|
    ensures UndecidedPushes(started + [last], cs, ev) == UndecidedPushes(started, cs, ev)
  {
    if cs == [] {
    } else {
      StartedGrows(started, last, cs[..|cs| - 1], ev);
    }
  }

  lemma {:induction false} NothingUndecided(started: seq<Event>, cs: seq<Pusher>, ev: Event)
    requires forall p | 0 <= p < |cs| :: cs[p] == PIdle
    ensures UndecidedPushes(started, cs, ev) == 0
  {
    if cs == [] {
    } else {
      NothingUndecided(started, cs[..|cs| - 1], ev);
    }
  }

  /** Pushes of this event that are logged or undecided. */
  function Accounted(s: State, ev: Event): nat {
    LoggedPushes(s.ops, ev) + UndecidedPushes(s.started, s.pushers, ev)
  }

  /** Pops that are logged or undecided. */
  function AccountedPops(s: State): nat
    requires s.tails != []
  {
    LoggedPops(s.ops) + if UndecidedPop(s) then 1 else 0
  }

  lemma CallIsUndecided(d: Discipline, s: State, p: nat, called: Event, ev: Event)
    requires WellFormed(s) && Enabled(d, s, PushCall(p, called))
    ensures var s' := Next(d, s, PushCall(p, called));
            s'.started == s.started + [called] && Accounted(s', ev) == Accounted(s, ev) + if called == ev then 1 else 0
  {
    assert forall q | 0 <= q < |s.pushers| :: PusherShape(s, s.pushers[q]);
    StartedGrows(s.started, called, s.pushers, ev);
    PusherMoves(s.started + [called], s.pushers, p, PCalled(|s.started|, |s.ops|), ev);
    hide WellFormed, UndecidedPushes, LoggedPushes;
  }

  /** What one access changes for the log: the pusher moves, and if it decides it is logged. */
  lemma PushStepShape(d: Discipline, s: State, a: Action, ev: Event)
    requires WellFormed(s) && Enabled(d, s, a) && !IsPopStep(a) && !a.PushCall?
    ensures var s', c, c' := Next(d, s, a), s.pushers[a.p], Next(d, s, a).pushers[a.p];
            && s'.started == s.started && s'.pushers == s.pushers[a.p := c']
            && (|| (s'.ops == s.ops && (Undecided(s.started, c, ev) <==> Undecided(s.started, c', ev)))
                || (exists op :: s'.ops == s.ops + [op] && !Undecided(s.started, c', ev) &&
                                 (LogsPush(op, ev) <==> Undecided(s.started, c, ev))))
  {
    var s' := Next(d, s, a);
    assert PusherShape(s, s.pushers[a.p]);
    hide WellFormed, IsPow2;
    if |s'.ops| > |s.ops| {
      assert s'.ops == s.ops + [s'.ops[|s.ops|]];
    }
  }

  lemma PushStepAccounts(d: Discipline, s: State, a: Action, ev: Event)
    requires WellFormed(s) && Enabled(d, s, a) && !IsPopStep(a) && !a.PushCall?
    ensures Next(d, s, a).started == s.started && Accounted(Next(d, s, a), ev) == Accounted(s, ev)
  {
    var s' := Next(d, s, a);
    PushStepShape(d, s, a, ev);
    hide WellFormed, Enabled, Next, UndecidedPushes, LoggedPushes, Undecided, LogsPush;
    PusherMoves(s.started, s.pushers, a.p, s'.pushers[a.p], ev);
    if s'.ops != s.ops {
      var op :| s'.ops == s.ops + [op] && !Undecided(s.started, s'.pushers[a.p], ev) &&
                (LogsPush(op, ev) <==> Undecided(s.started, s.pushers[a.p], ev));
      LoggedSnoc(s.ops, op, ev);
    }
  }

  /** The popper's steps: it moves alone, and logs no push. */
  lemma PopStepShape(d: Discipline, s: State, a: Action)
    requires WellFormed(s) && Enabled(d, s, a) && IsPopStep(a)
    ensures var s' := Next(d, s, a);
            && s'.started == s.started && s'.pushers == s.pushers && s'.tails != []
            && (|| (s'.ops == s.ops && ((UndecidedPop(s) || a.PopCall?) <==> UndecidedPop(s'))
                    && !(UndecidedPop(s) && a.PopCall?))
                || (exists op :: s'.ops == s.ops + [op] && LogsPop(op) && UndecidedPop(s) && !UndecidedPop(s')
                                 && !a.PopCall?))
  {
    var s' := Next(d, s, a);
    hide IsPow2;
    if |s'.ops| > |s.ops| {
      assert s'.ops == s.ops + [s'.ops[|s.ops|]];
    }
  }

  lemma PopStepAccounts(d: Discipline, s: State, a: Action, ev: Event)
    requires WellFormed(s) && Enabled(d, s, a) && IsPopStep(a)
    ensures var s' := Next(d, s, a);
            && s'.started == s.started && Accounted(s', ev) == Accounted(s, ev) && s'.tails != []
            && AccountedPops(s') == AccountedPops(s) + if a.PopCall? then 1 else 0
  {
    var s' := Next(d, s, a);
    PopStepShape(d, s, a);
    hide WellFormed, Enabled, Next, UndecidedPushes, LoggedPushes, UndecidedPop, LoggedPops, LogsPush, LogsPop, IsPow2;
    if s'.ops != s.ops {
      var op :| s'.ops == s.ops + [op] && LogsPop(op) && UndecidedPop(s) && !UndecidedPop(s');
      LoggedSnoc(s.ops, op, ev);
      assert !LogsPush(op, ev) by { PopsAreNotPushes(op, ev); }
    }
  }

  lemma PushStepAccountsPops(d: Discipline, s: State, a: Action)
    requires WellFormed(s) && Enabled(d, s, a) && !IsPopStep(a)
    ensures Next(d, s, a).tails == s.tails && AccountedPops(Next(d, s, a)) == AccountedPops(s)
  {
    var s' := Next(d, s, a);
    hide WellFormed, IsPow2, LoggedPops;
    if |s'.ops| > |s.ops| {
      LoggedSnoc(s.ops, s'.ops[|s.ops|], []);
      assert s'.ops == s.ops + [s'.ops[|s.ops|]];
    }
  }

  lemma StepAccounts(d: Discipline, s: State, a: Action, ev: Event)
    requires WellFormed(s) && Enabled(d, s, a)
    ensures var s', calls := Next(d, s, a), PushCalls([a]);
            && s'.started == s.started + calls && s'.tails != []
            && Accounted(s', ev) == Accounted(s, ev) + Occurrences(calls, ev)
            && AccountedPops(s') == AccountedPops(s) + if a.PopCall? then 1 else 0
  {
    OneCall(a);
    hide Enabled, Next, Accounted, AccountedPops, IsPow2, PushCalls;
    if IsPopStep(a) {
      PopStepAccounts(d, s, a, ev);
    } else {
      PushStepAccountsPops(d, s, a);
      if a.PushCall? {
        OccurrencesSnoc([], a.ev, ev);
        assert [] + [a.ev] == [a.ev];
        CallIsUndecided(d, s, a.p, a.ev, ev);
      } else {
        PushStepAccounts(d, s, a, ev);
      }
    }
  }

  lemma OneCall(a: Action)
    ensures PushCalls([a]) == if a.PushCall? then [a.ev] else []
  {
    assert [a][1..] == [];
  }

  lemma {:induction false} OccurrencesConcat(a: seq<Event>, b: seq<Event>, ev: Event)
    ensures Occurrences(a + b, ev) == Occurrences(a, ev) + Occurrences(b, ev)
  {
    if b == [] {
      assert a + b == a;
    } else {
      var n := |b| - 1;
      OccurrencesConcat(a, b[..n], ev);
      assert (a + b)[..|a + b| - 1] == a + b[..n];
    }
  }

  lemma FirstCall(acts: seq<Action>)
    requires acts != []
    ensures PushCalls(acts) == PushCalls([acts[0]]) + PushCalls(acts[1..])
  {
    OneCall(acts[0]);
  }

  lemma {:induction false} RunAccounts(d: Discipline, s: State, acts: seq<Action>, s': State, ev: Event)
    requires WellFormed(s) && Exec(d, s, acts) == Some(s')
    ensures s'.started == s.started + PushCalls(acts) && s'.tails != []
    ensures Accounted(s', ev) == Accounted(s, ev) + Occurrences(PushCalls(acts), ev)
    ensures AccountedPops(s') == AccountedPops(s) + PopCalls(acts)
    decreases |acts|
  {
    hide Next, Enabled, IsPow2, Accounted, AccountedPops, PushCalls, Occurrences;
    if acts == [] {
      assert PushCalls(acts) == [] && Occurrences([], ev) == 0 by { NoCalls(ev); }
    } else {
      var a, rest := acts[0], acts[1..];
      NextWellFormed(d, s, a);
      StepAccounts(d, s, a, ev);
      FirstCall(acts);
      OccurrencesConcat(PushCalls([a]), PushCalls(rest), ev);
      hide WellFormed;
      RunAccounts(d, Next(d, s, a), rest, s', ev);
    }
  }

  lemma NoCalls(ev: Event)
    ensures PushCalls([]) == [] && Occurrences([], ev) == 0
  {}

  /** After any run: the started pushes are those that were called, in order; each event that
      was called is logged as often as it was called, but for pushes that have not reached
      their deciding access; and likewise each pop. So every call is logged exactly once. */
  lemma EveryCallIsLoggedOnce(d: Discipline, s: State, acts: seq<Action>, s': State, ev: Event)
    requires Init(s) && Exec(d, s, acts) == Some(s')
    ensures s'.started == PushCalls(acts)
    ensures Occurrences(PushCalls(acts), ev) == LoggedPushes(s'.ops, ev) + UndecidedPushes(s'.started, s'.pushers, ev)
    ensures s'.tails != [] && PopCalls(acts) == LoggedPops(s'.ops) + if UndecidedPop(s') then 1 else 0
  {
    NothingUndecided(s.started, s.pushers, ev);
    RunAccounts(d, s, acts, s', ev);
  }

  // ---- The stamps tell when a call began and returned ----

  /** Nothing is in flight. */
  ghost predicate Quiet(s: State) {
    (forall p | 0 <= p < |s.pushers| :: s.pushers[p].PIdle?) && s.popper.QIdle?
  }

  predicate BeganSince(c: Pusher, n: nat) {
    match c
    case PIdle => true
    case PCalled(_, called) => called >= n
    case PHead(_, _, called) => called >= n
    case PCopying(_, _, _, called) => called >= n
    case PDone(_, lin) => lin >= n
  }

  predicate PopBeganSince(s: State, n: nat)
    requires s.tails != []
  {
    match s.popper
    case QIdle => true
    case QCalled(called) => called >= n
    case QHead(h, called, lin) => called >= n && (s.Tail() >= h ==> lin >= n)
    case QCopying(_, _, called) => called >= n
    case QDone(_, _, lin) => lin >= n
  }

  /** Everything in flight, and every operation logged beyond the first `|old|`, began after
      those were logged; and their stamps are as they were. */
  ghost predicate Since(ops: seq<Op>, stamps: seq<Stamp>, s: State)
    requires WellFormed(s)
  {
    && ops <= s.ops && stamps <= s.stamps && |ops| == |stamps|
    && (forall p | 0 <= p < |s.pushers| :: BeganSince(s.pushers[p], |ops|))
    && PopBeganSince(s, |ops|)
    && (forall j | |ops| <= j < |s.stamps| :: s.stamps[j].called >= |ops|)
  }

  lemma PushStepKeepsSince(d: Discipline, ops: seq<Op>, stamps: seq<Stamp>, s: State, a: Action)
    requires WellFormed(s) && Enabled(d, s, a) && Since(ops, stamps, s) && WellFormed(Next(d, s, a)) && !IsPopStep(a)
    ensures Since(ops, stamps, Next(d, s, a))
  {
    assert BeganSince(s.pushers[a.p], |ops|);
    hide IsPow2;
  }

  lemma PopStepKeepsSince(d: Discipline, ops: seq<Op>, stamps: seq<Stamp>, s: State, a: Action)
    requires WellFormed(s) && Enabled(d, s, a) && Since(ops, stamps, s) && WellFormed(Next(d, s, a)) && IsPopStep(a)
    ensures Since(ops, stamps, Next(d, s, a))
  {
    hide IsPow2, BeganSince;
  }

  lemma {:induction false} RunKeepsSince(d: Discipline, ops: seq<Op>, stamps: seq<Stamp>, s: State,
                                         acts: seq<Action>, s': State)
    requires WellFormed(s) && Since(ops, stamps, s) && Exec(d, s, acts) == Some(s')
    ensures WellFormed(s') && Since(ops, stamps, s')
    decreases |acts|
  {
    hide Next, Enabled, WellFormed, Since;
    if acts == [] {
    } else {
      NextWellFormed(d, s, acts[0]);
      if IsPopStep(acts[0]) {
        PopStepKeepsSince(d, ops, stamps, s, acts[0]);
      } else {
        PushStepKeepsSince(d, ops, stamps, s, acts[0]);
      }
      RunKeepsSince(d, ops, stamps, Next(d, s, acts[0]), acts[1..], s');
    }
  }

  /** Whatever is called after a quiet point is stamped as begun after every operation logged
      before it, and the log and the stamps up to there never change again. */
  lemma StampsTellWhenCallsBegan(d: Discipline, m: State, acts: seq<Action>, s: State)
    requires WellFormed(m) && Quiet(m) && Exec(d, m, acts) == Some(s)
    ensures m.ops <= s.ops && m.stamps <= s.stamps
    ensures forall j | |m.ops| <= j < |s.stamps| :: s.stamps[j].called >= |m.ops|
  {
    RunKeepsSince(d, m.ops, m.stamps, m, acts, s);
  }

  /** Answers given since the first `n` operations were logged are stamped so. */
  ghost predicate AnsweredSince(n: nat, stamps: seq<Stamp>, s: State) {
    && |s.ops| >= n && |stamps| <= |s.stamps|
    && forall i | 0 <= i < |s.stamps| && s.stamps[i].returned.Some? ::
         (i < |stamps| && stamps[i].returned.Some?) || s.stamps[i].returned.value.0 >= n
  }

  lemma StepKeepsAnsweredSince(d: Discipline, n: nat, stamps: seq<Stamp>, s: State, a: Action)
    requires WellFormed(s) && Enabled(d, s, a) && AnsweredSince(n, stamps, s)
    ensures AnsweredSince(n, stamps, Next(d, s, a))
  {
    hide IsPow2;
  }

  lemma {:induction false} RunKeepsAnsweredSince(d: Discipline, n: nat, stamps: seq<Stamp>, s: State,
                                                 acts: seq<Action>, s': State)
    requires WellFormed(s) && AnsweredSince(n, stamps, s) && Exec(d, s, acts) == Some(s')
    ensures AnsweredSince(n, stamps, s')
    decreases |acts|
  {
    hide Next, Enabled, WellFormed, AnsweredSince;
    if acts == [] {
    } else {
      NextWellFormed(d, s, acts[0]);
      StepKeepsAnsweredSince(d, n, stamps, s, acts[0]);
      RunKeepsAnsweredSince(d, n, stamps, Next(d, s, acts[0]), acts[1..], s');
    }
  }

  /** At any point `m` of a run, what is answered later is stamped with at least the number of
      operations logged by then. */
  lemma StampsTellWhenCallsReturned(d: Discipline, m: State, acts: seq<Action>, s: State)
    requires WellFormed(m) && Exec(d, m, acts) == Some(s)
    ensures forall i | 0 <= i < |s.stamps| && s.stamps[i].returned.Some? ::
              (i < |m.stamps| && m.stamps[i].returned.Some?) || s.stamps[i].returned.value.0 >= |m.ops|
  {
    RunKeepsAnsweredSince(d, |m.ops|, m.stamps, m, acts, s);
  }

  // ---- What a refusal says, stale or not ----

  /** At every reachable state: a push that reads the i-th value of `tail` is refused exactly
      when the queue would be full if only the first i pops had happened; a pop that reads
      the i-th value of `head`, exactly when the first i accepted events are popped already. */
  lemma RefusalsAreRightAboutTheirLoad(d: Discipline, s0: State, acts: seq<Action>, s: State, a: Action)
    requires d.Serial() && Init(s0) && Exec(d, s0, acts) == Some(s) && |s.accepted| < TWO_64 && Enabled(d, s, a)
    ensures a.PushLoadTail? ==>
              var ev := s.started[s.pushers[a.p].id];
              && a.i <= |s.popped|
              && (Next(d, s, a).ops == s.ops + [PushFull(ev)] <==> |s.accepted| - a.i >= s.cap)
              && (Next(d, s, a).pushers[a.p].PCopying? <==> |s.accepted| - a.i < s.cap)
    ensures a.PopLoadHead? ==>
              && a.i <= |s.accepted|
              && (Next(d, s, a).ops == s.ops + [PopEmpty] <==> a.i <= |s.popped|)
  {
    InitInv(s0);
    RunKeepsInv(d, s0, acts, s);
    hide Exec, Init, IsPow2, InOrder, Delivered, OnePush, PopperOk, Newest;
    if a.PushLoadTail? {
      assert PusherOk(s, s.pushers[a.p]);
    }
  }
}
