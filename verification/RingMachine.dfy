/** The shared-memory ring as a machine of single memory accesses.

    Any number of pushers and one popper run `shared_queue_push` and
    `shared_queue_pop` at the granularity of one counter load, one counter store
    or one copied word, interleaved in any order. A counter is the list of all
    values it ever held, so that a load may return an earlier value than the
    latest: this covers everything acquire and release ordering permits.

    Counters are 64-bit and wrap, slots are addressed through the mask, and the
    two tests are the source's own (`head - tail >= capacity`, `tail >= head`).
    Local computation between two accesses belongs to the access before it. */
module RingMachine {
  import opened MachineWords
  import opened Options

  type Word = uint64
  type Event = seq<Word>

  /** What a call amounted to. Every call logs one, at the access that decides it. */
  datatype Op = PushOk(ev: Event) | PushFull(ev: Event) | PopOk(ev: Event) | PopEmpty

  /** The value a call handed back; `ev` is what `pop` stored through its pointer. */
  datatype Answer = Answer(ok: bool, ev: Event)

  /** How many operations were logged when the call began and when it returned. */
  datatype Stamp = Stamp(called: nat, returned: Option<(nat, Answer)>)

  datatype Pusher =
    | PIdle
    | PCalled(id: nat, called: nat)
    | PHead(id: nat, h: uint64, called: nat)
    | PCopying(id: nat, h: uint64, k: nat, called: nat)
    | PDone(ok: bool, lin: nat)

  datatype Popper =
    | QIdle
    | QCalled(called: nat)
    | QHead(h: uint64, called: nat, lin: nat)
    | QCopying(t: uint64, buf: Event, called: nat)
    | QDone(ok: bool, ev: Event, lin: nat)

  datatype State = State(
    width: nat,               // words per event
    cap: uint64,
    mask: uint64,
    heads: seq<uint64>,       // every value of `head`, oldest first
    tails: seq<uint64>,       // every value of `tail`
    slots: seq<Event>,
    pushers: seq<Pusher>,
    popper: Popper,
    // history, read by no step
    started: seq<Event>,      // one event per push call
    ids: seq<nat>,            // which calls stored `head`, in that order
    accepted: seq<Event>,     // and with which events
    popped: seq<Event>,       // events handed out by pops, in order
    ops: seq<Op>,
    stamps: seq<Stamp>
  ) {
    function Head(): uint64
      requires heads != []
    {
      heads[|heads| - 1]
    }

    function Tail(): uint64
      requires tails != []
    {
      tails[|tails| - 1]
    }

    function SlotOf(x: uint64): nat {
      BitAnd(x, mask)
    }

    function Log(op: Op, called: nat): State {
      this.(ops := ops + [op], stamps := stamps + [Stamp(called, None)])
    }

    function Answered(lin: nat, a: Answer): State
      requires lin < |stamps|
    {
      this.(stamps := stamps[lin := stamps[lin].(returned := Some((|ops|, a)))])
    }

    function WithPusher(p: nat, c: Pusher): State
      requires p < |pushers|
    {
      this.(pushers := pushers[p := c])
    }

    function WithPopper(c: Popper): State {
      this.(popper := c)
    }
  }

  datatype Action =
    | PushCall(p: nat, ev: Event)
    | PushLoadHead(p: nat, i: nat)
    | PushLoadTail(p: nat, i: nat)
    | PushCopy(p: nat)
    | PushStore(p: nat)
    | PushReturn(p: nat)
    | PopCall
    | PopLoadHead(i: nat)
    | PopLoadTail
    | PopCopy
    | PopStore
    | PopReturn

  /** `turns`: a push begins only when no other is in flight. `known`: it loads the newest
      `head`, whoever stored that. `latest`: every load returns the latest value. */
  datatype Discipline = Discipline(turns: bool, known: bool, latest: bool) {
    /** Pushes take turns and each knows what the one before it stored. */
    predicate Serial() {
      turns && (known || latest)
    }
  }

  ghost predicate WellFormed(s: State) {
    && (s.cap == 0 || IsPow2(s.cap))
    && s.mask == Sub64(s.cap, 1)
    && |s.slots| == s.cap
    && (forall j | 0 <= j < |s.slots| :: |s.slots[j]| == s.width)
    && s.heads != [] && s.tails != []
    && (s.cap == 0 ==> forall i | 0 <= i < |s.heads| :: s.heads[i] == 0)
    && (forall i | 0 <= i < |s.started| :: |s.started[i]| == s.width)
    && |s.ops| == |s.stamps|
    && (forall p | 0 <= p < |s.pushers| :: PusherShape(s, s.pushers[p]))
    && PopperShape(s, s.popper)
  }

  predicate PusherShape(s: State, c: Pusher) {
    match c
    case PIdle => true
    case PCalled(id, _) => id < |s.started|
    case PHead(id, _, _) => id < |s.started|
    case PCopying(id, _, k, _) => id < |s.started| && k <= s.width && s.cap > 0
    case PDone(_, lin) => lin < |s.stamps|
  }

  predicate PopperShape(s: State, c: Popper) {
    match c
    case QIdle => true
    case QCalled(_) => true
    case QHead(h, _, lin) =>
      && s.tails != []
      && (s.cap == 0 ==> h == 0)
      && (s.Tail() >= h ==> lin < |s.stamps|)
    case QCopying(t, buf, _) => |buf| <= s.width && s.cap > 0
    case QDone(_, _, lin) => lin < |s.stamps|
  }

  /** The queue as `create_shared_queue` leaves it; the slots hold anything. */
  ghost predicate Init(s: State) {
    && WellFormed(s)
    && s.heads == [0] && s.tails == [0]
    && (forall p | 0 <= p < |s.pushers| :: s.pushers[p] == PIdle)
    && s.popper == QIdle
    && s.started == [] && s.ids == [] && s.accepted == [] && s.popped == [] && s.ops == [] && s.stamps == []
  }

  ghost predicate Enabled(d: Discipline, s: State, a: Action)
    requires WellFormed(s)
  {
    match a
    case PushCall(p, ev) =>
      && p < |s.pushers| && s.pushers[p].PIdle? && |ev| == s.width
      && (d.turns ==> forall q | 0 <= q < |s.pushers| :: s.pushers[q].PIdle?)
    case PushLoadHead(p, i) =>
      && p < |s.pushers| && s.pushers[p].PCalled? && i < |s.heads|
      && (d.known || d.latest ==> i == |s.heads| - 1)
    case PushLoadTail(p, i) =>
      && p < |s.pushers| && s.pushers[p].PHead? && i < |s.tails|
      && (d.latest ==> i == |s.tails| - 1)
    case PushCopy(p) => p < |s.pushers| && s.pushers[p].PCopying? && s.pushers[p].k < s.width
    case PushStore(p) => p < |s.pushers| && s.pushers[p].PCopying? && s.pushers[p].k == s.width
    case PushReturn(p) => p < |s.pushers| && s.pushers[p].PDone?
    case PopCall => s.popper.QIdle?
    case PopLoadHead(i) => s.popper.QCalled? && i < |s.heads| && (d.latest ==> i == |s.heads| - 1)
    case PopLoadTail => s.popper.QHead?
    case PopCopy => s.popper.QCopying? && |s.popper.buf| < s.width
    case PopStore => s.popper.QCopying? && |s.popper.buf| == s.width
    case PopReturn => s.popper.QDone?
  }

  /** Every slot address the code forms is inside the ring. */
  lemma SlotInRing(s: State, x: uint64)
    requires WellFormed(s) && s.cap > 0
    ensures s.SlotOf(x) == x % s.cap < |s.slots|
  {
    assert s.mask == s.cap - 1;
    MaskIsMod(x, s.cap);
  }

  ghost function Next(d: Discipline, s: State, a: Action): State
    requires WellFormed(s) && Enabled(d, s, a)
  {
    match a
    case PushCall(p, ev) =>
      s.(started := s.started + [ev]).WithPusher(p, PCalled(|s.started|, |s.ops|))
    case PushLoadHead(p, i) =>
      var c := s.pushers[p];
      s.WithPusher(p, PHead(c.id, s.heads[i], c.called))
    case PushLoadTail(p, i) =>
      var c := s.pushers[p];
      if Sub64(c.h, s.tails[i]) >= s.cap then
        s.Log(PushFull(s.started[c.id]), c.called).WithPusher(p, PDone(false, |s.ops|))
      else
        s.WithPusher(p, PCopying(c.id, c.h, 0, c.called))
    case PushCopy(p) =>
      var c := s.pushers[p];
      SlotInRing(s, c.h);
      var j := s.SlotOf(c.h);
      s.(slots := s.slots[j := s.slots[j][c.k := s.started[c.id][c.k]]])
       .WithPusher(p, c.(k := c.k + 1))
    case PushStore(p) =>
      var c := s.pushers[p];
      s.(heads := s.heads + [Add64(c.h, 1)], ids := s.ids + [c.id], accepted := s.accepted + [s.started[c.id]])
       .Log(PushOk(s.started[c.id]), c.called).WithPusher(p, PDone(true, |s.ops|))
    case PushReturn(p) =>
      s.Answered(s.pushers[p].lin, Answer(s.pushers[p].ok, [])).WithPusher(p, PIdle)
    case PopCall => s.WithPopper(QCalled(|s.ops|))
    case PopLoadHead(i) =>
      // `tail` is the popper's own counter, so an empty verdict is settled here.
      var c, h := s.popper, s.heads[i];
      if s.Tail() >= h then s.Log(PopEmpty, c.called).WithPopper(QHead(h, c.called, |s.ops|))
      else s.WithPopper(QHead(h, c.called, |s.ops|))
    case PopLoadTail =>
      var c := s.popper;
      if s.Tail() >= c.h then s.WithPopper(QDone(false, [], c.lin))
      else s.WithPopper(QCopying(s.Tail(), [], c.called))
    case PopCopy =>
      var c := s.popper;
      SlotInRing(s, c.t);
      s.WithPopper(c.(buf := c.buf + [s.slots[s.SlotOf(c.t)][|c.buf|]]))
    case PopStore =>
      var c := s.popper;
      s.(tails := s.tails + [Add64(c.t, 1)], popped := s.popped + [c.buf])
       .Log(PopOk(c.buf), c.called).WithPopper(QDone(true, c.buf, |s.ops|))
    case PopReturn =>
      s.Answered(s.popper.lin, Answer(s.popper.ok, s.popper.ev)).WithPopper(QIdle)
  }

  predicate IsPopStep(a: Action) {
    a.PopCall? || a.PopLoadHead? || a.PopLoadTail? || a.PopCopy? || a.PopStore? || a.PopReturn?
  }

  lemma CopyWellFormed(d: Discipline, s: State, p: nat)
    requires WellFormed(s) && Enabled(d, s, PushCopy(p))
    ensures WellFormed(Next(d, s, PushCopy(p)))
  {
    SlotInRing(s, s.pushers[p].h);
  }

  lemma StoreWellFormed(d: Discipline, s: State, p: nat)
    requires WellFormed(s) && Enabled(d, s, PushStore(p))
    ensures WellFormed(Next(d, s, PushStore(p)))
  {
    hide IsPow2;
  }

  lemma PushControlWellFormed(d: Discipline, s: State, a: Action)
    requires WellFormed(s) && Enabled(d, s, a)
    requires a.PushCall? || a.PushLoadHead? || a.PushLoadTail? || a.PushReturn?
    ensures WellFormed(Next(d, s, a))
  {
    hide IsPow2;
  }

  lemma PopLogWellFormed(d: Discipline, s: State, a: Action)
    requires WellFormed(s) && Enabled(d, s, a) && (a.PopLoadHead? || a.PopStore?)
    ensures WellFormed(Next(d, s, a))
  {
    hide IsPow2;
  }

  lemma PopControlWellFormed(d: Discipline, s: State, a: Action)
    requires WellFormed(s) && Enabled(d, s, a) && (a.PopCall? || a.PopLoadTail? || a.PopCopy? || a.PopReturn?)
    ensures WellFormed(Next(d, s, a))
  {
    hide IsPow2;
  }

  lemma NextWellFormed(d: Discipline, s: State, a: Action)
    requires WellFormed(s) && Enabled(d, s, a)
    ensures WellFormed(Next(d, s, a))
  {
    hide WellFormed, Next;
    match a
    case PushCopy(p) => CopyWellFormed(d, s, p);
    case PushStore(p) => StoreWellFormed(d, s, p);
    case PushCall(_, _) => PushControlWellFormed(d, s, a);
    case PushLoadHead(_, _) => PushControlWellFormed(d, s, a);
    case PushLoadTail(_, _) => PushControlWellFormed(d, s, a);
    case PushReturn(_) => PushControlWellFormed(d, s, a);
    case PopLoadHead(_) => PopLogWellFormed(d, s, a);
    case PopStore => PopLogWellFormed(d, s, a);
    case _ => PopControlWellFormed(d, s, a);
  }

  /** Running a list of actions, or None when one of them is not enabled. */
  ghost function Exec(d: Discipline, s: State, acts: seq<Action>): (r: Option<State>)
    requires WellFormed(s)
    ensures r.Some? ==> WellFormed(r.value)
    decreases |acts|
  {
    if acts == [] then Some(s)
    else if Enabled(d, s, acts[0]) then
      NextWellFormed(d, s, acts[0]);
      Exec(d, Next(d, s, acts[0]), acts[1..])
    else None
  }
}
