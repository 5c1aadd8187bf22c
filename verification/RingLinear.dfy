/** Linearizability of the ring under serialised pushes. The logged operations,
    in the order of their deciding accesses, are a run of a sequential bounded
    FIFO; each lies between its call's beginning and end and carries its answer. */
module RingLinear {
  import opened MachineWords
  import opened Options
  import opened RingMachine
  import opened RingFifo

  /** The sequential bounded FIFO. When `strict` is false a refusal may be spurious. */
  ghost function Apply(cap: nat, strict: bool, q: seq<Event>, op: Op): Option<seq<Event>> {
    match op
    case PushOk(ev) => if |q| < cap then Some(q + [ev]) else None
    case PushFull(_) => if strict && |q| < cap then None else Some(q)
    case PopOk(ev) => if q != [] && q[0] == ev then Some(q[1..]) else None
    case PopEmpty => if strict && q != [] then None else Some(q)
  }

  /** The contents after a sequence of operations, None when one of them is illegal. */
  ghost function Replay(cap: nat, strict: bool, ops: seq<Op>): Option<seq<Event>> {
    if ops == [] then Some([])
    else
      match Replay(cap, strict, ops[..|ops| - 1])
      case None => None
      case Some(q) => Apply(cap, strict, q, ops[|ops| - 1])
  }

  ghost predicate Answers(op: Op, a: Answer) {
    match op
    case PushOk(_) => a.ok
    case PushFull(_) => !a.ok
    case PopOk(ev) => a.ok && a.ev == ev
    case PopEmpty => !a.ok
  }

  /** The i-th operation takes effect inside its call and is answered truthfully. */
  ghost predicate StampOk(s: State, i: nat)
    requires i < |s.ops| == |s.stamps|
  {
    && s.stamps[i].called <= i
    && (s.stamps[i].returned.Some? ==>
          i < s.stamps[i].returned.value.0 <= |s.ops| && Answers(s.ops[i], s.stamps[i].returned.value.1))
  }

  ghost predicate Unanswered(s: State, lin: nat) {
    lin < |s.ops| == |s.stamps| && s.stamps[lin].returned.None?
  }

  ghost predicate PusherLin(s: State, c: Pusher) {
    match c
    case PIdle => true
    case PCalled(_, called) => called <= |s.ops|
    case PHead(_, _, called) => called <= |s.ops|
    case PCopying(_, _, _, called) => called <= |s.ops|
    case PDone(ok, lin) =>
      && Unanswered(s, lin)
      && (if ok then s.ops[lin].PushOk? else s.ops[lin].PushFull?)
  }

  ghost predicate PopperLin(s: State)
    requires s.tails != []
  {
    match s.popper
    case QIdle => true
    case QCalled(called) => called <= |s.ops|
    case QHead(h, called, lin) =>
      && called <= |s.ops|
      && (s.Tail() >= h ==> Unanswered(s, lin) && s.ops[lin].PopEmpty?)
    case QCopying(_, _, called) => called <= |s.ops|
    case QDone(ok, ev, lin) =>
      && Unanswered(s, lin)
      && (s.ops[lin].PopOk? || s.ops[lin].PopEmpty?)
      && Answers(s.ops[lin], Answer(ok, ev))
  }

  /** A logged but unanswered operation belongs to a call that is about to return. */
  ghost predicate Pending(s: State, lin: nat)
    requires s.tails != []
  {
    || (exists p :: 0 <= p < |s.pushers| && s.pushers[p].PDone? && s.pushers[p].lin == lin)
    || (s.popper.QDone? && s.popper.lin == lin)
    || (s.popper.QHead? && s.Tail() >= s.popper.h && s.popper.lin == lin)
  }

  ghost predicate Calls(s: State)
    requires WellFormed(s)
  {
    && (forall i | 0 <= i < |s.ops| :: StampOk(s, i))
    && (forall p | 0 <= p < |s.pushers| :: PusherLin(s, s.pushers[p]))
    && PopperLin(s)
    && (forall i | 0 <= i < |s.stamps| && s.stamps[i].returned.None? :: Pending(s, i))
  }

  ghost predicate Legal(d: Discipline, s: State)
    requires Inv(s)
  {
    Replay(s.cap, d.latest, s.ops) == Some(s.accepted[|s.popped|..])
  }

  lemma ReplaySnoc(cap: nat, strict: bool, ops: seq<Op>, op: Op)
    requires Replay(cap, strict, ops).Some?
    ensures Replay(cap, strict, ops + [op]) == Apply(cap, strict, Replay(cap, strict, ops).value, op)
  {}

  lemma PushStoreShape(d: Discipline, s: State, p: nat)
    requires Inv(s) && Enabled(d, s, PushStore(p))
    ensures var s', ev := Next(d, s, PushStore(p)), s.started[s.pushers[p].id];
            && s'.cap == s.cap && s'.popped == s.popped && |s.popped| <= |s.accepted|
            && s'.accepted == s.accepted + [ev] && s'.ops == s.ops + [PushOk(ev)]
            && |s.accepted| - |s.popped| < s.cap
  {
    assert PusherOk(s, s.pushers[p]);
    hide IsPow2, InOrder, Delivered, OnePush, PopperOk, Newest;
  }

  lemma PushStoreLegal(d: Discipline, s: State, p: nat)
    requires Inv(s) && Enabled(d, s, PushStore(p)) && Legal(d, s) && |s.accepted| + 1 < TWO_64
    ensures Inv(Next(d, s, PushStore(p))) && Legal(d, Next(d, s, PushStore(p)))
  {
    PushStoreKeeps(d, s, p);
    var q, ev := s.accepted[|s.popped|..], s.started[s.pushers[p].id];
    PushStoreShape(d, s, p);
    ReplaySnoc(s.cap, d.latest, s.ops, PushOk(ev));
    hide WellFormed, Enabled, Next, Inv, Counters, Replay;
    assert (s.accepted + [ev])[|s.popped|..] == q + [ev];
  }

  lemma PushRefusalLegal(d: Discipline, s: State, p: nat, i: nat)
    requires Inv(s) && Enabled(d, s, PushLoadTail(p, i)) && Legal(d, s)
    ensures Inv(Next(d, s, PushLoadTail(p, i))) && Legal(d, Next(d, s, PushLoadTail(p, i)))
  {
    PushLoadTailKeeps(d, s, p, i);
    var ev := s.started[s.pushers[p].id];
    assert PusherOk(s, s.pushers[p]);
    ReplaySnoc(s.cap, d.latest, s.ops, PushFull(ev));
    hide IsPow2, InOrder, Delivered, OnePush, PopperOk, Replay, Newest;
  }

  lemma PopRefusalShape(d: Discipline, s: State, i: nat)
    requires Inv(s) && Enabled(d, s, PopLoadHead(i))
    ensures var s' := Next(d, s, PopLoadHead(i));
            && s'.cap == s.cap && s'.accepted == s.accepted && s'.popped == s.popped
            && (|| s'.ops == s.ops
                || (s'.ops == s.ops + [PopEmpty] && (d.latest ==> s.accepted[|s.popped|..] == [])))
  {
    hide IsPow2, InOrder, Delivered, OnePush, PusherOk, Newest;
  }

  lemma PopRefusalLegal(d: Discipline, s: State, i: nat)
    requires Inv(s) && Enabled(d, s, PopLoadHead(i)) && Legal(d, s)
    ensures Inv(Next(d, s, PopLoadHead(i))) && Legal(d, Next(d, s, PopLoadHead(i)))
  {
    PopLoadHeadKeeps(d, s, i);
    PopRefusalShape(d, s, i);
    ReplaySnoc(s.cap, d.latest, s.ops, PopEmpty);
    hide WellFormed, Enabled, Next, Inv, Counters, Replay;
  }

  lemma PoppedIsOldest(d: Discipline, s: State)
    requires Inv(s) && Enabled(d, s, PopStore)
    ensures |s.popped| < |s.accepted| && s.popper.buf == s.accepted[|s.popped|]
  {
    hide IsPow2, InOrder, OnePush, PusherOk, Newest;
    assert s.popper.buf == Cell(s.slots, s.popper.t)[..s.width] == Cell(s.slots, s.popper.t);
  }

  lemma PopStoreLegal(d: Discipline, s: State)
    requires Inv(s) && Enabled(d, s, PopStore) && Legal(d, s)
    ensures Inv(Next(d, s, PopStore)) && Legal(d, Next(d, s, PopStore))
  {
    PopStoreKeeps(d, s);
    PoppedIsOldest(d, s);
    ReplaySnoc(s.cap, d.latest, s.ops, PopOk(s.popper.buf));
    hide IsPow2, InOrder, OnePush, PusherOk, PopperOk, Delivered, Counters, Replay, Newest;
    assert s.accepted[|s.popped|..][1..] == s.accepted[|s.popped| + 1..];
  }

  /** Each logged operation is legal for the FIFO at the access that decides it. */
  lemma StepKeepsLegal(d: Discipline, s: State, a: Action)
    requires d.Serial() && Inv(s) && Enabled(d, s, a) && Legal(d, s)
    requires |Next(d, s, a).accepted| < TWO_64
    ensures Inv(Next(d, s, a)) && Legal(d, Next(d, s, a))
  {
    StepKeepsInv(d, s, a);
    match a
    case PushLoadTail(p, i) => PushRefusalLegal(d, s, p, i);
    case PushStore(p) => PushStoreLegal(d, s, p);
    case PopLoadHead(i) => PopRefusalLegal(d, s, i);
    case PopStore => PopStoreLegal(d, s);
    case _ =>
  }

  lemma PushStampsKept(d: Discipline, s: State, a: Action, i: nat)
    requires WellFormed(s) && Enabled(d, s, a) && Calls(s) && WellFormed(Next(d, s, a)) && !IsPopStep(a)
    requires i < |Next(d, s, a).ops|
    ensures StampOk(Next(d, s, a), i)
  {
    hide IsPow2, PopperLin, Pending;
    assert i < |s.ops| ==> StampOk(s, i);
  }

  lemma PopStampsKept(d: Discipline, s: State, a: Action, i: nat)
    requires WellFormed(s) && Enabled(d, s, a) && Calls(s) && WellFormed(Next(d, s, a)) && IsPopStep(a)
    requires i < |Next(d, s, a).ops|
    ensures StampOk(Next(d, s, a), i)
  {
    hide IsPow2, PusherLin, Pending;
    assert i < |s.ops| ==> StampOk(s, i);
  }

  lemma StampsKept(d: Discipline, s: State, a: Action)
    requires WellFormed(s) && Enabled(d, s, a) && Calls(s) && WellFormed(Next(d, s, a))
    ensures forall i | 0 <= i < |Next(d, s, a).ops| :: StampOk(Next(d, s, a), i)
  {
    hide Enabled, Calls, StampOk, IsPow2;
    forall i | 0 <= i < |Next(d, s, a).ops|
      ensures StampOk(Next(d, s, a), i)
    {
      if IsPopStep(a) {
        PopStampsKept(d, s, a, i);
      } else {
        PushStampsKept(d, s, a, i);
      }
    }
  }

  /** An operation that was pending before a step and is still unanswered is pending after it. */
  lemma PendingStays(d: Discipline, s: State, a: Action, i: nat)
    requires WellFormed(s) && Enabled(d, s, a) && WellFormed(Next(d, s, a))
    requires Pending(s, i) && i < |s.stamps| && s.stamps[i].returned.None?
    requires Next(d, s, a).stamps[i].returned.None?
    ensures Pending(Next(d, s, a), i)
  {
    hide IsPow2;
    var s' := Next(d, s, a);
    if q :| 0 <= q < |s.pushers| && s.pushers[q].PDone? && s.pushers[q].lin == i {
      assert s'.pushers[q] == s.pushers[q];
    }
  }

  /** An operation logged by a step is pending after it. */
  lemma LoggedIsPending(d: Discipline, s: State, a: Action)
    requires WellFormed(s) && Enabled(d, s, a) && WellFormed(Next(d, s, a))
    ensures var s' := Next(d, s, a);
            |s'.stamps| >= |s.stamps| && forall i | |s.stamps| <= i < |s'.stamps| :: Pending(s', i)
  {
    var s' := Next(d, s, a);
    if (a.PushLoadTail? || a.PushStore?) && |s'.stamps| > |s.stamps| {
      assert s'.pushers[a.p] == PDone(a.PushStore?, |s.stamps|);
    }
  }

  lemma UnansweredBefore(d: Discipline, s: State, a: Action, i: nat)
    requires WellFormed(s) && Enabled(d, s, a) && i < |s.stamps|
    ensures i < |Next(d, s, a).stamps|
    ensures Next(d, s, a).stamps[i].returned.None? ==> s.stamps[i].returned.None?
  {
    hide IsPow2;
  }

  lemma PendingKept(d: Discipline, s: State, a: Action)
    requires WellFormed(s) && Enabled(d, s, a) && Calls(s) && WellFormed(Next(d, s, a))
    ensures var s' := Next(d, s, a);
            forall i | 0 <= i < |s'.stamps| && s'.stamps[i].returned.None? :: Pending(s', i)
  {
    var s' := Next(d, s, a);
    LoggedIsPending(d, s, a);
    hide WellFormed, Enabled, Next, Pending, PusherLin, PopperLin, StampOk;
    forall i | 0 <= i < |s'.stamps| && s'.stamps[i].returned.None?
      ensures Pending(s', i)
    {
      if i < |s.stamps| {
        UnansweredBefore(d, s, a, i);
        PendingStays(d, s, a, i);
      }
    }
  }

  lemma PushStepKeepsPushers(d: Discipline, s: State, a: Action)
    requires WellFormed(s) && OnePush(s) && Enabled(d, s, a) && Calls(s) && WellFormed(Next(d, s, a)) && !IsPopStep(a)
    ensures var s' := Next(d, s, a); forall p | 0 <= p < |s'.pushers| :: PusherLin(s', s'.pushers[p])
  {
    var s' := Next(d, s, a);
    hide PopperLin, Pending, IsPow2;
    forall p | 0 <= p < |s'.pushers|
      ensures PusherLin(s', s'.pushers[p])
    {
      assert PusherLin(s, s.pushers[p]);
    }
  }

  lemma PushStepKeepsPopper(d: Discipline, s: State, a: Action)
    requires WellFormed(s) && Enabled(d, s, a) && Calls(s) && WellFormed(Next(d, s, a)) && !IsPopStep(a)
    ensures PopperLin(Next(d, s, a))
  {
    hide Pending, IsPow2;
  }

  lemma PopStepKeepsPushers(d: Discipline, s: State, a: Action)
    requires WellFormed(s) && Enabled(d, s, a) && Calls(s) && WellFormed(Next(d, s, a)) && IsPopStep(a)
    ensures var s' := Next(d, s, a); forall p | 0 <= p < |s'.pushers| :: PusherLin(s', s'.pushers[p])
  {
    var s' := Next(d, s, a);
    hide Pending, IsPow2;
    forall p | 0 <= p < |s'.pushers|
      ensures PusherLin(s', s'.pushers[p])
    {
      assert PusherLin(s, s.pushers[p]);
    }
  }

  lemma PopStepKeepsPopper(d: Discipline, s: State, a: Action)
    requires WellFormed(s) && Enabled(d, s, a) && Calls(s) && WellFormed(Next(d, s, a)) && IsPopStep(a)
    ensures PopperLin(Next(d, s, a))
  {
    hide PusherLin, Pending, IsPow2;
  }

  lemma StepKeepsCalls(d: Discipline, s: State, a: Action)
    requires WellFormed(s) && OnePush(s) && Enabled(d, s, a) && Calls(s) && WellFormed(Next(d, s, a))
    ensures Calls(Next(d, s, a))
  {
    StampsKept(d, s, a);
    PendingKept(d, s, a);
    if IsPopStep(a) {
      PopStepKeepsPushers(d, s, a);
      PopStepKeepsPopper(d, s, a);
    } else {
      PushStepKeepsPushers(d, s, a);
      PushStepKeepsPopper(d, s, a);
    }
    hide WellFormed, Enabled, Next, StampOk, Pending, PusherLin, PopperLin;
  }

  lemma {:induction false} RunKeepsLin(d: Discipline, s: State, acts: seq<Action>, s': State)
    requires d.Serial() && Inv(s) && Exec(d, s, acts) == Some(s') && |s'.accepted| < TWO_64
    requires Legal(d, s) && Calls(s)
    ensures Inv(s') && Legal(d, s') && Calls(s')
    decreases |acts|
  {
    if acts == [] {
    } else {
      var s1 := Next(d, s, acts[0]);
      NextWellFormed(d, s, acts[0]);
      RunGrows(d, s1, acts[1..], s');
      StepKeepsLegal(d, s, acts[0]);
      StepKeepsCalls(d, s, acts[0]);
      RunKeepsLin(d, s1, acts[1..], s');
    }
  }

  /** The logged operations are a legal run of the sequential FIFO that ends with the
      undelivered events; with up-to-date loads refusals are legal too, so a refused push
      found the queue full and a refused pop found it empty. */
  lemma Linearizable(d: Discipline, s: State, acts: seq<Action>, s': State)
    requires d.Serial() && Init(s) && Exec(d, s, acts) == Some(s') && |s'.accepted| < TWO_64
    ensures InOrder(s') && |s'.popped| <= |s'.accepted|
    ensures Replay(s'.cap, d.latest, s'.ops) == Some(s'.accepted[|s'.popped|..])
    ensures forall i | 0 <= i < |s'.ops| :: StampOk(s', i)
    ensures forall i, j | 0 <= i < |s'.ops| && 0 <= j < |s'.ops| ::
              s'.stamps[i].returned.Some? && s'.stamps[i].returned.value.0 <= s'.stamps[j].called ==> i < j
    ensures (forall p | 0 <= p < |s'.pushers| :: s'.pushers[p].PIdle?) && s'.popper.QIdle? ==>
              forall i | 0 <= i < |s'.ops| :: s'.stamps[i].returned.Some?
  {
    InitInv(s);
    RunKeepsLin(d, s, acts, s');
    forall i, j | 0 <= i < |s'.ops| && 0 <= j < |s'.ops|
      ensures s'.stamps[i].returned.Some? && s'.stamps[i].returned.value.0 <= s'.stamps[j].called ==> i < j
    {
      assert StampOk(s', i) && StampOk(s', j);
    }
  }
}
