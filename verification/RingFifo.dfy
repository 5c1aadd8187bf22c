/** Serialised pushes and one popper: for every interleaving, with loads of the
    other side's counter as stale as one likes, the ring is a bounded FIFO. */
module RingFifo {
  import opened MachineWords
  import opened Options
  import opened RingMachine

  /** The slot of the i-th position. */
  ghost function Cell(slots: seq<Event>, i: nat): Event
    requires slots != []
  {
    slots[i % |slots|]
  }

  /** Each counter's n-th value is n, and the fill level stays within the capacity. */
  ghost predicate Counters(s: State) {
    && |s.accepted| < TWO_64
    && |s.heads| == |s.accepted| + 1 && |s.tails| == |s.popped| + 1
    && (forall i | 0 <= i < |s.heads| :: s.heads[i] == i)
    && (forall i | 0 <= i < |s.tails| :: s.tails[i] == i)
    && |s.popped| <= |s.accepted| <= |s.popped| + s.cap
  }

  /** Accepted pushes are some of the started ones, in order. */
  ghost predicate InOrder(s: State) {
    && |s.ids| == |s.accepted|
    && (forall j | 0 <= j < |s.ids| :: s.ids[j] < |s.started| && s.started[s.ids[j]] == s.accepted[j])
    && (forall i, j | 0 <= i < j < |s.ids| :: s.ids[i] < s.ids[j])
  }

  /** Popped events are the oldest accepted ones; the ring holds the others. */
  ghost predicate Delivered(s: State)
    requires WellFormed(s) && Counters(s) && InOrder(s)
  {
    && s.popped == s.accepted[..|s.popped|]
    && (s.cap > 0 ==>
          forall i | |s.popped| <= i < |s.accepted| :: Cell(s.slots, i) == s.accepted[i])
  }

  ghost predicate PusherOk(s: State, c: Pusher)
    requires WellFormed(s) && PusherShape(s, c)
  {
    match c
    case PIdle => true
    case PCalled(id, _) => Newest(s, id)
    case PHead(id, h, _) => Newest(s, id) && h == |s.accepted|
    case PCopying(id, h, k, _) =>
      && Newest(s, id) && h == |s.accepted| < |s.popped| + s.cap
      && Cell(s.slots, h)[..k] == s.started[id][..k]
    case PDone(_, _) => true
  }

  ghost predicate Newest(s: State, id: nat) {
    forall j | 0 <= j < |s.ids| :: s.ids[j] < id
  }

  ghost predicate PopperOk(s: State)
    requires WellFormed(s)
  {
    match s.popper
    case QHead(h, _, _) => h <= |s.accepted|
    case QCopying(t, buf, _) =>
      t == |s.popped| < |s.accepted| && buf == Cell(s.slots, t)[..|buf|]
    case _ => true
  }

  ghost predicate OnePush(s: State) {
    forall p, q | 0 <= p < |s.pushers| && 0 <= q < |s.pushers| && p != q ::
      s.pushers[p].PIdle? || s.pushers[q].PIdle?
  }

  ghost predicate Inv(s: State) {
    && WellFormed(s) && Counters(s) && InOrder(s) && Delivered(s)
    && OnePush(s)
    && (forall p | 0 <= p < |s.pushers| :: PusherOk(s, s.pushers[p]))
    && PopperOk(s)
  }

  lemma InitInv(s: State)
    requires Init(s)
    ensures Inv(s)
  {}

  /** The slot a push writes is none of the slots that hold undelivered events. */
  lemma CopyTouchesNoLiveSlot(s: State, h: nat)
    requires WellFormed(s) && Counters(s) && s.cap > 0
    requires h == |s.accepted| < |s.popped| + s.cap
    ensures forall i | |s.popped| <= i < |s.accepted| :: i % s.cap != h % s.cap
  {
    forall i | |s.popped| <= i < |s.accepted|
      ensures i % s.cap != h % s.cap
    {
      SlotsDiffer(i, h, s.cap);
    }
  }

  lemma PushCopyDelivers(d: Discipline, s: State, p: nat)
    requires Inv(s) && Enabled(d, s, PushCopy(p))
    ensures var s' := Next(d, s, PushCopy(p));
            WellFormed(s') && Counters(s') && InOrder(s') && Delivered(s') && PusherOk(s', s'.pushers[p])
  {
    var c, s' := s.pushers[p], Next(d, s, PushCopy(p));
    NextWellFormed(d, s, PushCopy(p));
    SlotInRing(s, c.h);
    CopyTouchesNoLiveSlot(s, c.h);
    hide IsPow2;
    assert Cell(s'.slots, c.h)[..c.k + 1] == Cell(s.slots, c.h)[..c.k] + [s.started[c.id][c.k]];
    forall i | |s.popped| <= i < |s.accepted|
      ensures Cell(s'.slots, i) == Cell(s.slots, i)
    {
    }
  }

  lemma PushCopyKeeps(d: Discipline, s: State, p: nat)
    requires Inv(s) && Enabled(d, s, PushCopy(p))
    ensures Inv(Next(d, s, PushCopy(p)))
  {
    var c, s' := s.pushers[p], Next(d, s, PushCopy(p));
    PushCopyDelivers(d, s, p);
    SlotInRing(s, c.h);
    CopyTouchesNoLiveSlot(s, c.h);
    hide IsPow2, Delivered, InOrder, Newest;
  }

  lemma PushStoreCounts(d: Discipline, s: State, p: nat)
    requires Inv(s) && Enabled(d, s, PushStore(p)) && |s.accepted| + 1 < TWO_64
    ensures var s' := Next(d, s, PushStore(p)); WellFormed(s') && Counters(s') && InOrder(s')
  {
    var c := s.pushers[p];
    NextWellFormed(d, s, PushStore(p));
    hide IsPow2, PopperOk, OnePush, Delivered, Cell;
    assert Add64(c.h, 1) == c.h + 1;
  }

  /** A push about to store `head` has filled its slot. */
  lemma SlotIsFilled(d: Discipline, s: State, p: nat)
    requires Inv(s) && Enabled(d, s, PushStore(p))
    ensures var c := s.pushers[p]; c.h == |s.accepted| && Cell(s.slots, c.h) == s.started[c.id]
  {
    var c := s.pushers[p];
    assert PusherOk(s, c) && PusherShape(s, c);
    hide Counters, InOrder, Delivered, PopperOk, OnePush, Newest, IsPow2;
    assert Cell(s.slots, c.h) == Cell(s.slots, c.h)[..c.k] == s.started[c.id][..c.k] == s.started[c.id];
  }

  lemma PushStoreDelivers(d: Discipline, s: State, p: nat)
    requires Inv(s) && Enabled(d, s, PushStore(p)) && |s.accepted| + 1 < TWO_64
    ensures var s' := Next(d, s, PushStore(p));
            WellFormed(s') && Counters(s') && InOrder(s') && Delivered(s')
  {
    PushStoreCounts(d, s, p);
    SlotIsFilled(d, s, p);
    hide IsPow2, PusherOk, PopperOk, OnePush, InOrder, Counters, WellFormed, Cell;
  }

  lemma PushStoreKeeps(d: Discipline, s: State, p: nat)
    requires Inv(s) && Enabled(d, s, PushStore(p)) && |s.accepted| + 1 < TWO_64
    ensures Inv(Next(d, s, PushStore(p)))
  {
    PushStoreDelivers(d, s, p);
  }

  lemma PopCopyKeeps(d: Discipline, s: State)
    requires Inv(s) && Enabled(d, s, PopCopy)
    ensures Inv(Next(d, s, PopCopy))
  {
    SlotInRing(s, s.popper.t);
    NextWellFormed(d, s, PopCopy);
    var s' := Next(d, s, PopCopy);
    assert s'.slots == s.slots;
  }

  lemma PopStoreDelivers(d: Discipline, s: State)
    requires Inv(s) && Enabled(d, s, PopStore)
    ensures var s' := Next(d, s, PopStore); WellFormed(s') && Counters(s') && Delivered(s')
  {
    var c, s' := s.popper, Next(d, s, PopStore);
    NextWellFormed(d, s, PopStore);
    assert Add64(c.t, 1) == c.t + 1;
    assert c.buf == Cell(s.slots, c.t) == s.accepted[c.t];
    assert s'.popped == s.popped + [c.buf] == s'.accepted[..|s'.popped|];
  }

  lemma PopStoreKeeps(d: Discipline, s: State)
    requires Inv(s) && Enabled(d, s, PopStore)
    ensures Inv(Next(d, s, PopStore))
  {
    var s' := Next(d, s, PopStore);
    PopStoreDelivers(d, s);
    forall q | 0 <= q < |s'.pushers|
      ensures PusherOk(s', s'.pushers[q])
    {
      assert PusherOk(s, s.pushers[q]);
    }
  }

  lemma PushCallKeeps(d: Discipline, s: State, p: nat, ev: Event)
    requires d.Serial() && Inv(s) && Enabled(d, s, PushCall(p, ev))
    ensures Inv(Next(d, s, PushCall(p, ev)))
  {}

  lemma PushLoadHeadKeeps(d: Discipline, s: State, p: nat, i: nat)
    requires d.Serial() && Inv(s) && Enabled(d, s, PushLoadHead(p, i))
    ensures Inv(Next(d, s, PushLoadHead(p, i)))
  {}

  lemma PushLoadTailKeeps(d: Discipline, s: State, p: nat, i: nat)
    requires Inv(s) && Enabled(d, s, PushLoadTail(p, i))
    ensures Inv(Next(d, s, PushLoadTail(p, i)))
  {
    NextWellFormed(d, s, PushLoadTail(p, i));
    var h := s.pushers[p].h;
    assert s.tails[i] == i <= |s.popped| && Sub64(h, i) == h - i;
    if h - i < s.cap {
      assert Cell(s.slots, h)[..0] == [];
    }
  }

  lemma PushReturnKeeps(d: Discipline, s: State, p: nat)
    requires Inv(s) && Enabled(d, s, PushReturn(p))
    ensures Inv(Next(d, s, PushReturn(p)))
  {}

  lemma PopLoadHeadKeeps(d: Discipline, s: State, i: nat)
    requires Inv(s) && Enabled(d, s, PopLoadHead(i))
    ensures Inv(Next(d, s, PopLoadHead(i)))
  {
    NextWellFormed(d, s, PopLoadHead(i));
  }

  lemma PopLoadTailKeeps(d: Discipline, s: State)
    requires Inv(s) && Enabled(d, s, PopLoadTail)
    ensures Inv(Next(d, s, PopLoadTail))
  {
    NextWellFormed(d, s, PopLoadTail);
    hide IsPow2, Newest;
  }

  lemma PopCallReturnKeeps(d: Discipline, s: State, a: Action)
    requires Inv(s) && Enabled(d, s, a) && (a.PopCall? || a.PopReturn?)
    ensures Inv(Next(d, s, a))
  {
    NextWellFormed(d, s, a);
    hide IsPow2, InOrder, Newest, Cell;
  }

  lemma StepKeepsInv(d: Discipline, s: State, a: Action)
    requires d.Serial() && Inv(s) && Enabled(d, s, a)
    requires |Next(d, s, a).accepted| < TWO_64
    ensures Inv(Next(d, s, a))
  {
    match a
    case PushCall(p, ev) => PushCallKeeps(d, s, p, ev);
    case PushCopy(p) => PushCopyKeeps(d, s, p);
    case PushStore(p) => PushStoreKeeps(d, s, p);
    case PopCopy => PopCopyKeeps(d, s);
    case PopStore => PopStoreKeeps(d, s);
    case PushLoadHead(p, i) => PushLoadHeadKeeps(d, s, p, i);
    case PushLoadTail(p, i) => PushLoadTailKeeps(d, s, p, i);
    case PushReturn(p) => PushReturnKeeps(d, s, p);
    case PopLoadHead(i) => PopLoadHeadKeeps(d, s, i);
    case PopLoadTail => PopLoadTailKeeps(d, s);
    case _ => PopCallReturnKeeps(d, s, a);
  }

  lemma StepGrows(d: Discipline, s: State, a: Action)
    requires WellFormed(s) && Enabled(d, s, a)
    ensures var s' := Next(d, s, a);
            |s.accepted| <= |s'.accepted| && s'.cap == s.cap && s'.width == s.width
  {
    hide WellFormed;
  }

  /** History only grows. */
  lemma {:induction false} RunGrows(d: Discipline, s: State, acts: seq<Action>, s': State)
    requires WellFormed(s) && Exec(d, s, acts) == Some(s')
    ensures |s.accepted| <= |s'.accepted|
    ensures s'.cap == s.cap && s'.width == s.width
    decreases |acts|
  {
    if acts == [] {
    } else {
      NextWellFormed(d, s, acts[0]);
      StepGrows(d, s, acts[0]);
      hide Next, Enabled, WellFormed;
      RunGrows(d, Next(d, s, acts[0]), acts[1..], s');
    }
  }

  lemma {:induction false} RunKeepsInv(d: Discipline, s: State, acts: seq<Action>, s': State)
    requires d.Serial() && Inv(s) && Exec(d, s, acts) == Some(s') && |s'.accepted| < TWO_64
    ensures Inv(s')
    decreases |acts|
  {
    if acts == [] {
    } else {
      NextWellFormed(d, s, acts[0]);
      RunGrows(d, Next(d, s, acts[0]), acts[1..], s');
      StepKeepsInv(d, s, acts[0]);
      RunKeepsInv(d, Next(d, s, acts[0]), acts[1..], s');
    }
  }

  /** The headline for serialised pushes. After any run that accepted fewer than 2^64
      pushes: what was popped is, word for word, a prefix of what was accepted; accepted
      pushes are started pushes in their order; the fill level is between 0 and the
      capacity; both counters are exact; and no slot is read while it is written. */
  lemma FifoForEveryInterleaving(d: Discipline, s: State, acts: seq<Action>, s': State)
    requires d.Serial() && Init(s) && Exec(d, s, acts) == Some(s') && |s'.accepted| < TWO_64
    ensures InOrder(s') && |s'.popped| <= |s'.accepted| && s'.popped == s'.accepted[..|s'.popped|]
    ensures s'.Head() == |s'.accepted| && s'.Tail() == |s'.popped|
    ensures 0 <= s'.Head() - s'.Tail() <= s'.cap
    ensures forall p | 0 <= p < |s'.pushers| && s'.pushers[p].PCopying? && s'.popper.QCopying? ::
              s'.SlotOf(s'.pushers[p].h) != s'.SlotOf(s'.popper.t)
  {
    InitInv(s);
    RunKeepsInv(d, s, acts, s');
    forall p | 0 <= p < |s'.pushers| && s'.pushers[p].PCopying? && s'.popper.QCopying?
      ensures s'.SlotOf(s'.pushers[p].h) != s'.SlotOf(s'.popper.t)
    {
      SlotInRing(s', s'.pushers[p].h);
      SlotInRing(s', s'.popper.t);
      SlotsDiffer(s'.popper.t, s'.pushers[p].h, s'.cap);
    }
  }

  /** Nothing is ever copied, and every operation is a refusal. */
  ghost predicate RefusesAll(s: State) {
    && WellFormed(s) && s.cap == 0
    && s.accepted == [] && s.popped == []
    && (forall p | 0 <= p < |s.pushers| :: !s.pushers[p].PCopying?)
    && !s.popper.QCopying?
    && (forall i | 0 <= i < |s.ops| :: s.ops[i].PushFull? || s.ops[i].PopEmpty?)
  }

  lemma StepKeepsRefusing(d: Discipline, s: State, a: Action)
    requires RefusesAll(s) && Enabled(d, s, a)
    ensures RefusesAll(Next(d, s, a))
  {
    NextWellFormed(d, s, a);
    hide IsPow2;
  }

  /** The creation check also admits capacity 0. Such a ring refuses every push and every
      pop, under any discipline, and never addresses a slot. */
  lemma {:induction false} CapacityZeroRefusesAll(d: Discipline, s: State, acts: seq<Action>, s': State)
    requires (RefusesAll(s) || (Init(s) && s.cap == 0)) && Exec(d, s, acts) == Some(s')
    ensures RefusesAll(s')
    decreases |acts|
  {
    if acts == [] {
    } else {
      StepKeepsRefusing(d, s, acts[0]);
      hide Next, Enabled;
      CapacityZeroRefusesAll(d, Next(d, s, acts[0]), acts[1..], s');
    }
  }
}
