/** The ring without the one-push-at-a-time discipline. What still holds: every
    word handed out was given to some push. What fails: two overlapping pushes can
    lose an event, hand out a torn one, or leave `head` behind `tail`. */
module RingRaces {
  import opened MachineWords
  import opened Options
  import opened RingMachine

  // ---- What every run keeps, under any discipline ----

  /** Some push was called with an event whose w-th word is x. */
  ghost predicate Given(s: State, w: nat, x: Word) {
    exists i :: 0 <= i < |s.started| && w < |s.started[i]| && s.started[i][w] == x
  }

  ghost predicate AllGiven(s: State, ev: Event) {
    forall w | 0 <= w < |ev| :: Given(s, w, ev[w])
  }

  /** The slots of the first `n` positions hold only given words. */
  ghost predicate Ready(s: State, n: nat) {
    0 < s.cap == |s.slots| ==> forall j | 0 <= j < n :: AllGiven(s, s.slots[j % s.cap])
  }

  ghost predicate GivenInv(s: State) {
    && WellFormed(s)
    && (forall i | 0 <= i < |s.heads| :: Ready(s, s.heads[i]))
    && (forall p | 0 <= p < |s.pushers| ::
          match s.pushers[p]
          case PHead(_, h, _) => Ready(s, h)
          case PCopying(_, h, k, _) => Ready(s, h) && AllGiven(s, s.slots[h % s.cap][..k])
          case _ => true)
    && (match s.popper
        case QHead(h, _, _) => Ready(s, h)
        case QCopying(t, buf, _) => AllGiven(s, s.slots[t % s.cap]) && AllGiven(s, buf)
        case _ => true)
    && (forall i | 0 <= i < |s.popped| :: |s.popped[i]| == s.width && AllGiven(s, s.popped[i]))
  }

  lemma GivenGrows(s: State, s': State)
    requires s.started <= s'.started
    ensures forall w: nat, x :: Given(s, w, x) ==> Given(s', w, x)
    ensures forall ev :: AllGiven(s, ev) ==> AllGiven(s', ev)
    ensures s.slots == s'.slots && s.cap == s'.cap ==> forall n :: Ready(s, n) ==> Ready(s', n)
  {}

  /** Writing a given word into a slot keeps every slot given that was. */
  lemma WriteKeepsGiven(s: State, s': State, j: nat, k: nat, x: Word)
    requires 0 < s.cap == |s.slots| && j < s.cap && k < |s.slots[j]| && Given(s, k, x)
    requires s'.started == s.started && s'.cap == s.cap && |s'.slots| == |s.slots|
    requires forall i | 0 <= i < s.cap && i != j :: s'.slots[i] == s.slots[i]
    requires var ev: Event := s.slots[j][k := x]; s'.slots[j] == ev
    ensures forall ev :: AllGiven(s, ev) ==> AllGiven(s', ev)
    ensures forall i | 0 <= i < s.cap :: AllGiven(s, s.slots[i]) ==> AllGiven(s', s'.slots[i])
    ensures forall i, n | 0 <= i < s.cap && 0 <= n <= |s.slots[i]| ::
              AllGiven(s, s.slots[i][..n]) ==> AllGiven(s', s'.slots[i][..n])
    ensures forall n :: Ready(s, n) ==> Ready(s', n)
  {}

  lemma CopyKeepsGiven(d: Discipline, s: State, p: nat)
    requires GivenInv(s) && Enabled(d, s, PushCopy(p))
    ensures GivenInv(Next(d, s, PushCopy(p)))
  {
    var c, s' := s.pushers[p], Next(d, s, PushCopy(p));
    NextWellFormed(d, s, PushCopy(p));
    SlotInRing(s, c.h);
    var ev := s.started[c.id];
    assert Given(s, c.k, ev[c.k]);
    WriteKeepsGiven(s, s', s.SlotOf(c.h), c.k, ev[c.k]);
    assert s'.slots[c.h % s.cap][..c.k + 1] == s'.slots[c.h % s.cap][..c.k] + [ev[c.k]];
    assert AllGiven(s', s'.slots[c.h % s.cap][..c.k]);
  }

  lemma PushStoreKeepsGiven(d: Discipline, s: State, p: nat)
    requires GivenInv(s) && Enabled(d, s, PushStore(p))
    ensures GivenInv(Next(d, s, PushStore(p)))
  {
    var c, s' := s.pushers[p], Next(d, s, PushStore(p));
    NextWellFormed(d, s, PushStore(p));
    GivenGrows(s, s');
    hide IsPow2, Given, AllGiven;
    assert Ready(s, c.h + 1) by {
      assert s.slots[c.h % s.cap][..s.width] == s.slots[c.h % s.cap];
    }
    assert Ready(s', s'.Head());
    hide Ready;
  }

  lemma PushLoadTailKeepsGiven(d: Discipline, s: State, p: nat, i: nat)
    requires GivenInv(s) && Enabled(d, s, PushLoadTail(p, i))
    ensures GivenInv(Next(d, s, PushLoadTail(p, i)))
  {
    var s' := Next(d, s, PushLoadTail(p, i));
    NextWellFormed(d, s, PushLoadTail(p, i));
    GivenGrows(s, s');
    if s'.pushers[p].PCopying? {
      assert s'.slots[s'.pushers[p].h % s.cap][..0] == [];
    }
    assert AllGiven(s', []);
    hide IsPow2, Given, AllGiven, Ready;
  }

  lemma PushControlKeepsGiven(d: Discipline, s: State, a: Action)
    requires GivenInv(s) && Enabled(d, s, a)
    requires a.PushCall? || a.PushLoadHead? || a.PushReturn?
    ensures GivenInv(Next(d, s, a))
  {
    NextWellFormed(d, s, a);
    GivenGrows(s, Next(d, s, a));
    hide IsPow2, Given, AllGiven, Ready;
  }

  lemma PopLoadTailKeepsGiven(d: Discipline, s: State)
    requires GivenInv(s) && Enabled(d, s, PopLoadTail)
    ensures GivenInv(Next(d, s, PopLoadTail))
  {
    NextWellFormed(d, s, PopLoadTail);
    GivenGrows(s, Next(d, s, PopLoadTail));
    hide IsPow2, Given;
  }

  lemma PopCopyKeepsGiven(d: Discipline, s: State)
    requires GivenInv(s) && Enabled(d, s, PopCopy)
    ensures GivenInv(Next(d, s, PopCopy))
  {
    NextWellFormed(d, s, PopCopy);
    GivenGrows(s, Next(d, s, PopCopy));
    SlotInRing(s, s.popper.t);
    hide IsPow2, Given;
  }

  lemma PopStoreKeepsGiven(d: Discipline, s: State)
    requires GivenInv(s) && Enabled(d, s, PopStore)
    ensures GivenInv(Next(d, s, PopStore))
  {
    NextWellFormed(d, s, PopStore);
    GivenGrows(s, Next(d, s, PopStore));
    hide IsPow2, Given, AllGiven, Ready;
  }

  lemma PopControlKeepsGiven(d: Discipline, s: State, a: Action)
    requires GivenInv(s) && Enabled(d, s, a) && (a.PopCall? || a.PopLoadHead? || a.PopReturn?)
    ensures GivenInv(Next(d, s, a))
  {
    NextWellFormed(d, s, a);
    GivenGrows(s, Next(d, s, a));
    hide IsPow2, Given, AllGiven, Ready;
  }

  lemma StepKeepsGiven(d: Discipline, s: State, a: Action)
    requires GivenInv(s) && Enabled(d, s, a)
    ensures GivenInv(Next(d, s, a))
  {
    match a
    case PushCopy(p) => CopyKeepsGiven(d, s, p);
    case PushStore(p) => PushStoreKeepsGiven(d, s, p);
    case PushCall(_, _) => PushControlKeepsGiven(d, s, a);
    case PushLoadHead(_, _) => PushControlKeepsGiven(d, s, a);
    case PushLoadTail(p, i) => PushLoadTailKeepsGiven(d, s, p, i);
    case PushReturn(_) => PushControlKeepsGiven(d, s, a);
    case PopLoadTail => PopLoadTailKeepsGiven(d, s);
    case PopCopy => PopCopyKeepsGiven(d, s);
    case PopStore => PopStoreKeepsGiven(d, s);
    case _ => PopControlKeepsGiven(d, s, a);
  }

  lemma {:induction false} RunKeepsGiven(d: Discipline, s: State, acts: seq<Action>, s': State)
    requires GivenInv(s) && Exec(d, s, acts) == Some(s')
    ensures GivenInv(s')
    decreases |acts|
  {
    if acts == [] {
    } else {
      StepKeepsGiven(d, s, acts[0]);
      RunKeepsGiven(d, Next(d, s, acts[0]), acts[1..], s');
    }
  }

  /** Overlapping pushes included: each word of a popped event is the word in that place
      of an event some push was given. So if an event is copied in one access (one word),
      every popped event was given to some push. */
  lemma PoppedWordsWereGiven(d: Discipline, s: State, acts: seq<Action>, s': State)
    requires Init(s) && Exec(d, s, acts) == Some(s')
    ensures forall i | 0 <= i < |s'.popped| :: AllGiven(s', s'.popped[i])
    ensures s'.width == 1 ==> forall i | 0 <= i < |s'.popped| :: s'.popped[i] in s'.started
  {
    RunKeepsGiven(d, s, acts, s');
    if s'.width == 1 {
      forall i | 0 <= i < |s'.popped|
        ensures s'.popped[i] in s'.started
      {
        var ev := s'.popped[i];
        assert AllGiven(s', ev);
        assert Given(s', 0, ev[0]);
        var k :| 0 <= k < |s'.started| && 0 < |s'.started[k]| && s'.started[k][0] == ev[0];
        assert ev == s'.started[k];
      }
    }
  }
}
