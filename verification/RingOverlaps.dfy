/** Why pushes must take turns, and why fewer than 2^64 of them may be accepted:
    concrete runs, for every capacity and event width, in which an event is lost,
    torn, or stranded although every single access is sequentially consistent. */
module RingOverlaps {
  import opened MachineWords
  import opened Options
  import opened RingMachine
  import opened RingFifo
  import opened RingRuns

  const OVERLAPPING := Discipline(false, true, true)
  const ONE_AT_A_TIME := Discipline(true, true, true)
  const FORGETFUL := Discipline(true, false, false)

  /** Two pushes that both find the same free slot, before either copies a word. */
  lemma BothFindTheSlot(s: State, e0: Event, e1: Event) returns (s': State)
    requires Init(s) && s.cap > 0 && |s.pushers| >= 2 && |e0| == |e1| == s.width
    ensures WellFormed(s') && Reaches(OVERLAPPING, s, s')
    ensures s' == s.(started := [e0, e1],
                     pushers := s.pushers[0 := PCopying(0, 0, 0, 0)][1 := PCopying(1, 0, 0, 0)])
  {
    hide Reaches;
    var d := OVERLAPPING;
    var a := Claim(d, s, 0, e0, 0);
    var b := Claim(d, a, 1, e1, 0);
    Then(d, s, a, b);
    var c := Test(d, b, 0, 0);
    Then(d, s, b, c);
    s' := Test(d, c, 1, 0);
    Then(d, s, c, s');
    assert s'.pushers == s.pushers[0 := PCopying(0, 0, 0, 0)][1 := PCopying(1, 0, 0, 0)];
  }

  /** Both then return true, `head` moves by one, and the only event ever popped is the second. */
  lemma OverlappingPushesLoseAnEvent(s: State, e0: Event, e1: Event) returns (s': State)
    requires Init(s) && s.cap > 0 && |s.pushers| >= 2 && |e0| == |e1| == s.width
    ensures WellFormed(s') && Reaches(OVERLAPPING, s, s')
    ensures s'.ops == [PushOk(e0), PushOk(e1), PopOk(e1)]
    ensures forall i | 0 <= i < 3 :: s'.stamps[i].returned.Some? && s'.stamps[i].returned.value.1.ok
    ensures s'.Head() == 1 == s'.Tail() && s'.popped == [e1] && s'.accepted == [e0, e1]
  {
    hide Reaches;
    var d := OVERLAPPING;
    var a := BothFindTheSlot(s, e0, e1);
    var b := Finish(d, a, 0);
    Then(d, s, a, b);
    var c := Finish(d, b, 1);
    Then(d, s, b, c);
    s' := Pop(d, c);
    Then(d, s, c, s');
  }

  /** The same overlap, word by word: what is popped starts with one event and continues
      with the other, so for two events differing in both parts it is neither. */
  lemma OverlappingPushesTearAnEvent(s: State, e0: Event, e1: Event) returns (s': State)
    requires Init(s) && s.cap > 0 && |s.pushers| >= 2 && |e0| == |e1| == s.width >= 2
    ensures WellFormed(s') && Reaches(OVERLAPPING, s, s')
    ensures s'.popped == [e1[..1] + e0[1..]]
    ensures e0[0] != e1[0] && e0[1..] != e1[1..] ==> s'.popped[0] != e0 && s'.popped[0] != e1
  {
    hide Reaches;
    var d := OVERLAPPING;
    var a := BothFindTheSlot(s, e0, e1);
    SlotInRing(a, 0);
    var b := Fill(d, a, 0, 1);
    Then(d, s, a, b);
    var c := Finish(d, b, 1);
    Then(d, s, b, c);
    SlotInRing(c, 0);
    assert c.slots[0] == e1;
    var e := Fill(d, c, 0, s.width);
    Then(d, s, c, e);
    assert e.slots[0] == e1[..1] + e0[1..];
    s' := Pop(d, e);
    Then(d, s, e, s');
    var torn := e1[..1] + e0[1..];
    assert torn[0] == e1[0] && torn[1..] == e0[1..];
  }

  /** `head` counts the accepted events, and the popped ones are the oldest of those. */
  ghost predicate Fifo(s: State) {
    && s.heads != [] && s.Head() == |s.accepted|
    && |s.popped| <= |s.accepted| && s.popped == s.accepted[..|s.popped|]
  }

  ghost predicate FifoInEveryRun(d: Discipline, s: State)
    requires WellFormed(s)
  {
    forall acts, s' | Exec(d, s, acts) == Some(s') && |s'.accepted| < TWO_64 :: Fifo(s')
  }

  /** Pushes take turns, or no two can overlap, and each loads the newest `head`; or there is
      nothing to be done at all. */
  ghost predicate Orderly(d: Discipline, s: State) {
    || s.cap == 0
    || s.pushers == []
    || ((d.turns || |s.pushers| == 1) && (d.known || d.latest))
  }

  lemma RunIsFifo(d: Discipline, s: State, acts: seq<Action>, s': State)
    requires Init(s) && Exec(d, s, acts) == Some(s') && |s'.accepted| < TWO_64
    requires Orderly(d, s)
    ensures Fifo(s')
  {
    if s.cap == 0 {
      CapacityZeroRefusesAll(d, s, acts, s');
    } else {
      var e := Discipline(true, true, d.latest);
      CoveredRun(e, d, s, acts, s');
      FifoForEveryInterleaving(e, s, acts, s');
    }
  }

  lemma RunRefutesFifo(d: Discipline, e: Discipline, s: State, s': State)
    requires WellFormed(s) && Covers(d, e, s) && Reaches(e, s, s')
    requires |s'.accepted| < TWO_64 && !Fifo(s')
    ensures !FifoInEveryRun(d, s)
  {
    CoveredReaches(d, e, s, s');
    var acts :| Exec(d, s, acts) == Some(s');
  }

  lemma OverlapIsNotFifo(d: Discipline, s: State)
    requires Init(s) && !d.turns && s.cap > 0 && |s.pushers| >= 2
    ensures !FifoInEveryRun(d, s)
  {
    var ev := seq(s.width, _ => 0);
    var s' := OverlappingPushesLoseAnEvent(s, ev, ev);
    RunRefutesFifo(d, OVERLAPPING, s, s');
  }

  /** Without overlap but with an old `head`: the second push is called after the first has
      returned, loads the initial `head` and takes the slot of the first. */
  lemma OldHeadLosesAnEvent(s: State, e0: Event, e1: Event) returns (s': State)
    requires Init(s) && s.cap > 0 && s.pushers != [] && |e0| == |e1| == s.width
    ensures WellFormed(s') && Reaches(FORGETFUL, s, s')
    ensures s'.ops == [PushOk(e0), PushOk(e1)] && s'.accepted == [e0, e1]
    ensures s'.Head() == 1 && s'.slots[0] == e1
  {
    hide Reaches;
    var d := FORGETFUL;
    var a := Push(d, s, 0, e0, 0);
    var b := Claim(d, a, 0, e1, 0);
    Then(d, s, a, b);
    var c := Test(d, b, 0, 0);
    Then(d, s, b, c);
    s' := Finish(d, c, 0);
    Then(d, s, c, s');
  }

  lemma OldHeadIsNotFifo(d: Discipline, s: State)
    requires Init(s) && !d.known && !d.latest && s.cap > 0 && s.pushers != []
    ensures !FifoInEveryRun(d, s)
  {
    var ev := seq(s.width, _ => 0);
    var s' := OldHeadLosesAnEvent(s, ev, ev);
    RunRefutesFifo(d, FORGETFUL, s, s');
  }

  /** The exact condition, for every initial queue and every discipline: each run that accepts
      fewer than 2^64 pushes is first in, first out if and only if pushes take turns (or only
      one process pushes) and each loads the newest `head`; or nobody pushes, or the ring
      has no slots. Loads of the other side's counter may be as stale as one likes. */
  lemma FifoExactlyWhenOrderly(d: Discipline, s: State)
    requires Init(s)
    ensures FifoInEveryRun(d, s) <==>
            s.cap == 0 || s.pushers == [] || ((d.turns || |s.pushers| == 1) && (d.known || d.latest))
  {
    if Orderly(d, s) {
      forall acts, s' | Exec(d, s, acts) == Some(s') && |s'.accepted| < TWO_64
        ensures Fifo(s')
      {
        RunIsFifo(d, s, acts, s');
      }
    } else if d.known || d.latest {
      OverlapIsNotFifo(d, s);
    } else {
      OldHeadIsNotFifo(d, s);
    }
  }

  /** `head` behind `tail`, nothing in flight. */
  ghost predicate Wedged(s: State) {
    && WellFormed(s)
    && s.Head() < s.Tail() <= s.Head() + (TWO_64 - s.cap)
    && (forall p | 0 <= p < |s.pushers| :: s.pushers[p] == PIdle)
    && s.popper == QIdle
  }

  /** One slow push overlapped by two quick ones, each popped at once. */
  lemma OverlappingPushesWedge(s: State, e0: Event, e1: Event, e2: Event) returns (s': State)
    requires Init(s) && s.cap > 0 && |s.pushers| >= 2 && |e0| == |e1| == |e2| == s.width
    ensures Wedged(s') && Reaches(OVERLAPPING, s, s')
    ensures s'.heads == [0, 1, 2, 1] && s'.tails == [0, 1, 2]
    ensures s'.cap == s.cap && s'.width == s.width && s'.pushers == s.pushers
  {
    hide Reaches;
    var d := OVERLAPPING;
    var a := Claim(d, s, 0, e0, 0);
    var b := Test(d, a, 0, 0);
    Then(d, s, a, b);
    var c := Push(d, b, 1, e1, 0);
    Then(d, s, b, c);
    var e := Pop(d, c);
    Then(d, s, c, e);
    var f := Push(d, e, 1, e2, 1);
    Then(d, s, e, f);
    var g := Pop(d, f);
    Then(d, s, f, g);
    s' := Finish(d, g, 0);
    Then(d, s, g, s');
    PowerFitsHalf(s.cap);
  }

  /** What stays true of a wedged ring `s0` while calls come and go. */
  ghost predicate Stuck(s0: State, s: State) {
    && WellFormed(s) && WellFormed(s0)
    && s.cap == s0.cap && s.Head() == s0.Head() && s.Tail() == s0.Tail()
    && s.Head() < s.Tail() <= s.Head() + (TWO_64 - s.cap)
    && (forall p | 0 <= p < |s.pushers| ::
          match s.pushers[p]
          case PHead(_, h, _) => h == s.Head()
          case PCopying(_, _, _, _) => false
          case PDone(ok, _) => !ok
          case _ => true)
    && (match s.popper
        case QHead(h, _, _) => h == s.Head()
        case QCopying(_, _, _) => false
        case QDone(ok, _, _) => !ok
        case _ => true)
    && s0.ops <= s.ops
    && (forall i | |s0.ops| <= i < |s.ops| :: s.ops[i].PushFull? || s.ops[i].PopEmpty?)
  }

  lemma PushKeepsStuck(d: Discipline, s0: State, s: State, a: Action)
    requires d.latest && Stuck(s0, s) && Enabled(d, s, a) && !IsPopStep(a)
    ensures Stuck(s0, Next(d, s, a))
  {
    NextWellFormed(d, s, a);
    hide WellFormed;
  }

  lemma PopKeepsStuck(d: Discipline, s0: State, s: State, a: Action)
    requires d.latest && Stuck(s0, s) && Enabled(d, s, a) && IsPopStep(a)
    ensures Stuck(s0, Next(d, s, a))
  {
    NextWellFormed(d, s, a);
    hide WellFormed;
  }

  lemma StepKeepsStuck(d: Discipline, s0: State, s: State, a: Action)
    requires d.latest && Stuck(s0, s) && Enabled(d, s, a)
    ensures Stuck(s0, Next(d, s, a))
  {
    if IsPopStep(a) {
      PopKeepsStuck(d, s0, s, a);
    } else {
      PushKeepsStuck(d, s0, s, a);
    }
  }

  lemma {:induction false} RunKeepsStuck(d: Discipline, s0: State, s: State, acts: seq<Action>, s': State)
    requires d.latest && Stuck(s0, s) && Exec(d, s, acts) == Some(s')
    ensures Stuck(s0, s')
    decreases |acts|
  {
    if acts == [] {
    } else {
      StepKeepsStuck(d, s0, s, acts[0]);
      hide Next, Enabled;
      RunKeepsStuck(d, s0, Next(d, s, acts[0]), acts[1..], s');
    }
  }

  /** Every operation since `s` is a refusal. */
  ghost predicate OnlyRefusals(s: State, s': State) {
    && s.ops <= s'.ops
    && forall i | |s.ops| <= i < |s'.ops| :: s'.ops[i].PushFull? || s'.ops[i].PopEmpty?
  }

  /** With latest-value loads a wedged ring never recovers: whatever is called afterwards, by
      any number of pushers in any interleaving, every push is refused as full and every
      pop as empty. */
  lemma WedgedForever(d: Discipline, s: State, acts: seq<Action>, s': State)
    requires d.latest && Wedged(s) && Exec(d, s, acts) == Some(s')
    ensures OnlyRefusals(s, s')
  {
    RunKeepsStuck(d, s, s, acts, s');
  }

  ghost predicate NeverRecovers(d: Discipline, w: State)
    requires WellFormed(w)
  {
    forall acts, s' | Exec(d, w, acts) == Some(s') :: OnlyRefusals(w, s')
  }

  lemma AcceptedPushRefutes(d: Discipline, w: State, s': State)
    requires WellFormed(w) && Reaches(d, w, s')
    requires |w.ops| < |s'.ops| && s'.ops[|w.ops|].PushOk?
    ensures !NeverRecovers(d, w)
  {
    var acts :| Exec(d, w, acts) == Some(s');
    assert !OnlyRefusals(w, s');
  }

  /** A push that loads an old `tail` is accepted by the wedged ring; the next one brings
      `head` past `tail`, and then a pop succeeds. */
  lemma StaleLoadFreesTheRing(d: Discipline, w: State, ev: Event) returns (s': State)
    requires !d.latest && Wedged(w) && w.cap > 0 && w.pushers != [] && |ev| == w.width
    requires w.Head() == 1 && w.tails == [0, 1, 2]
    ensures WellFormed(s') && Reaches(d, w, s')
    ensures s'.ops == w.ops + [PushOk(ev), PushOk(ev), PopOk(ev)]
    ensures !NeverRecovers(d, w)
  {
    hide Reaches, NeverRecovers;
    var a := Push(d, w, 0, ev, 1);
    var b := Push(d, a, 0, ev, 2);
    Then(d, w, a, b);
    s' := Pop(d, b);
    Then(d, w, b, s');
    AcceptedPushRefutes(d, w, s');
  }

  /** The wedged ring of the run above stays wedged in every continuation if and only if loads
      return the latest value. */
  lemma WedgedForeverExactlyWithLatestLoads(d: Discipline, s: State, ev: Event) returns (w: State)
    requires Init(s) && s.cap > 0 && |s.pushers| >= 2 && |ev| == s.width
    ensures Wedged(w) && Reaches(OVERLAPPING, s, w)
    ensures NeverRecovers(d, w) <==> d.latest
  {
    w := OverlappingPushesWedge(s, ev, ev, ev);
    if d.latest {
      forall acts, s' | Exec(d, w, acts) == Some(s')
        ensures OnlyRefusals(w, s')
      {
        WedgedForever(d, w, acts, s');
      }
    } else {
      var s' := StaleLoadFreesTheRing(d, w, ev);
    }
  }

  /** n pushes, each popped at once, by a single pusher. */
  lemma {:induction false} Cycle(s: State, ev: Event, n: nat) returns (s': State)
    requires Init(s) && s.cap > 0 && |s.pushers| >= 1 && |ev| == s.width && n < TWO_64
    ensures WellFormed(s') && Reaches(ONE_AT_A_TIME, s, s')
    ensures s'.Head() == s'.Tail() == |s'.accepted| == |s'.popped| == n
    ensures s'.cap == s.cap && s'.width == s.width && s'.pushers == s.pushers && s'.popper == QIdle
  {
    hide Reaches;
    var d := ONE_AT_A_TIME;
    if n == 0 {
      s' := s;
      Stay(d, s);
    } else {
      var a := Cycle(s, ev, n - 1);
      var b := Push(d, a, 0, ev, |a.tails| - 1);
      Then(d, s, a, b);
      s' := Pop(d, b);
      Then(d, s, b, s');
    }
  }

  /** The tail counts the pops, and a pop is under way only below its last value. */
  ghost predicate TailCounts(s: State) {
    && WellFormed(s)
    && |s.tails| == |s.popped| + 1
    && (forall i | 0 <= i < |s.tails| :: s.tails[i] == i)
    && (s.popper.QCopying? ==> s.popper.t == |s.popped| < TWO_64 - 1)
  }

  lemma StepKeepsTailCounts(d: Discipline, s: State, a: Action)
    requires TailCounts(s) && Enabled(d, s, a)
    ensures TailCounts(Next(d, s, a))
  {
    NextWellFormed(d, s, a);
    hide WellFormed;
  }

  lemma {:induction false} RunKeepsTailCounts(d: Discipline, s: State, acts: seq<Action>, s': State)
    requires TailCounts(s) && Exec(d, s, acts) == Some(s')
    ensures TailCounts(s')
    decreases |acts|
  {
    if acts == [] {
    } else {
      StepKeepsTailCounts(d, s, acts[0]);
      hide Next, Enabled;
      RunKeepsTailCounts(d, Next(d, s, acts[0]), acts[1..], s');
    }
  }

  /** The bound of the FIFO theorem is exact: no run, whatever its pushes and loads do, pops
      2^64 events, so none that accepts 2^64 pushes delivers them all. */
  lemma FewerThanTwo64Pops(d: Discipline, s: State, acts: seq<Action>, s': State)
    requires Init(s) && Exec(d, s, acts) == Some(s')
    ensures |s'.popped| < TWO_64
    ensures |s'.accepted| >= TWO_64 ==> |s'.popped| < |s'.accepted|
  {
    RunKeepsTailCounts(d, s, acts, s');
    assert s'.tails[|s'.popped|] == |s'.popped|;
  }

  /** And pushes do reach it: from one process, each event popped at once, the push that brings
      the accepted count to 2^64 wraps `head` to 0, below `tail`. */
  lemma PushNumberTwo64IsStranded(s: State, ev: Event) returns (s': State)
    requires Init(s) && s.cap > 0 && |s.pushers| >= 1 && |ev| == s.width
    ensures WellFormed(s') && Reaches(ONE_AT_A_TIME, s, s')
    ensures |s'.accepted| == TWO_64 && |s'.popped| == TWO_64 - 1
    ensures s'.Head() == 0 && s'.Tail() == TWO_64 - 1 && s'.popper == QIdle
  {
    hide Reaches;
    var d := ONE_AT_A_TIME;
    var a := Cycle(s, ev, TWO_64 - 1);
    s' := Push(d, a, 0, ev, |a.tails| - 1);
    Then(d, s, a, s');
  }

  /** With `tail` at its last value no pop can succeed. */
  ghost predicate Stranded(s: State, n: nat) {
    && WellFormed(s) && s.Tail() == TWO_64 - 1 && |s.popped| == n
    && (match s.popper
        case QCopying(_, _, _) => false
        case QDone(ok, _, _) => !ok
        case _ => true)
  }

  lemma StepKeepsStranded(d: Discipline, s: State, a: Action, n: nat)
    requires Stranded(s, n) && Enabled(d, s, a)
    ensures Stranded(Next(d, s, a), n)
  {
    NextWellFormed(d, s, a);
    hide WellFormed;
  }

  lemma {:induction false} NoPopAfterWrap(d: Discipline, s: State, acts: seq<Action>, s': State)
    requires Stranded(s, |s.popped|) && Exec(d, s, acts) == Some(s')
    ensures Stranded(s', |s.popped|)
    decreases |acts|
  {
    if acts == [] {
    } else {
      StepKeepsStranded(d, s, acts[0], |s.popped|);
      hide Next, Enabled;
      NoPopAfterWrap(d, Next(d, s, acts[0]), acts[1..], s');
    }
  }
}
