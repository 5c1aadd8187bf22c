/** Building runs of the ring: whole phases of a push or a pop done without
    interruption, each with the exact state it leads to. */
module RingRuns {
  import opened MachineWords
  import opened Options
  import opened RingMachine

  ghost predicate Reaches(d: Discipline, s: State, s': State)
    requires WellFormed(s)
  {
    exists acts :: Exec(d, s, acts) == Some(s')
  }

  lemma ExecNothing(d: Discipline, s: State)
    requires WellFormed(s)
    ensures Exec(d, s, []) == Some(s)
  {}

  lemma Stay(d: Discipline, s: State)
    requires WellFormed(s)
    ensures Reaches(d, s, s)
  {
    ExecNothing(d, s);
  }

  lemma One(d: Discipline, s: State, a: Action) returns (s': State)
    requires WellFormed(s) && Enabled(d, s, a)
    ensures WellFormed(s') && s' == Next(d, s, a) && Reaches(d, s, s')
  {
    s' := Next(d, s, a);
    NextWellFormed(d, s, a);
    assert [a][1..] == [];
    assert Exec(d, s', []) == Some(s');
    assert Exec(d, s, [a]) == Some(s');
  }

  lemma ExecStep(d: Discipline, s: State, acts: seq<Action>)
    requires WellFormed(s) && acts != [] && Exec(d, s, acts).Some?
    ensures Enabled(d, s, acts[0]) && WellFormed(Next(d, s, acts[0]))
    ensures Exec(d, s, acts) == Exec(d, Next(d, s, acts[0]), acts[1..])
  {
    NextWellFormed(d, s, acts[0]);
    hide Next, Enabled, WellFormed;
  }

  lemma StepExec(d: Discipline, s: State, a: Action, acts: seq<Action>)
    requires WellFormed(s) && Enabled(d, s, a) && WellFormed(Next(d, s, a))
    ensures Exec(d, s, [a] + acts) == Exec(d, Next(d, s, a), acts)
  {
    hide Next, Enabled, WellFormed;
    assert ([a] + acts)[1..] == acts;
  }

  lemma {:induction false} ExecConcat(d: Discipline, s: State, a: seq<Action>, b: seq<Action>, m: State)
    requires WellFormed(s) && Exec(d, s, a) == Some(m)
    ensures WellFormed(m) && Exec(d, s, a + b) == Exec(d, m, b)
    decreases |a|
  {
    hide Next, Enabled, WellFormed, Exec;
    if a == [] {
      assert Exec(d, s, a) == Some(s) by { ExecNothing(d, s); }
      assert a + b == b;
    } else {
      ExecStep(d, s, a);
      ExecConcat(d, Next(d, s, a[0]), a[1..], b, m);
      StepExec(d, s, a[0], a[1..] + b);
      assert a + b == [a[0]] + (a[1..] + b);
    }
  }

  lemma Then(d: Discipline, s: State, m: State, s': State)
    requires WellFormed(s) && Reaches(d, s, m) && WellFormed(m) && Reaches(d, m, s')
    ensures Reaches(d, s, s')
  {
    var a :| Exec(d, s, a) == Some(m);
    var b :| Exec(d, m, b) == Some(s');
    ExecConcat(d, s, a, b, m);
  }

  /** Every run of `s` under `e` is one under `d`: what `d` demands `e` demands as well, or too
      few processes push to violate it. */
  ghost predicate Covers(d: Discipline, e: Discipline, s: State) {
    && (d.turns ==> e.turns || |s.pushers| <= 1)
    && (d.known ==> e.known || e.latest || s.pushers == [])
    && (d.latest ==> e.latest)
  }

  lemma CoveredStep(d: Discipline, e: Discipline, s: State, a: Action)
    requires WellFormed(s) && Covers(d, e, s) && Enabled(e, s, a)
    ensures Enabled(d, s, a) && Next(d, s, a) == Next(e, s, a) && Covers(d, e, Next(e, s, a))
  {}

  lemma {:induction false} CoveredRun(d: Discipline, e: Discipline, s: State, acts: seq<Action>, s': State)
    requires WellFormed(s) && Covers(d, e, s) && Exec(e, s, acts) == Some(s')
    ensures Exec(d, s, acts) == Some(s')
    decreases |acts|
  {
    if acts == [] {
    } else {
      CoveredStep(d, e, s, acts[0]);
      NextWellFormed(e, s, acts[0]);
      hide Enabled, Next, Covers;
      CoveredRun(d, e, Next(e, s, acts[0]), acts[1..], s');
    }
  }

  lemma CoveredReaches(d: Discipline, e: Discipline, s: State, s': State)
    requires WellFormed(s) && Covers(d, e, s) && Reaches(e, s, s')
    ensures Reaches(d, s, s')
  {
    var acts :| Exec(e, s, acts) == Some(s');
    CoveredRun(d, e, s, acts, s');
  }

  /** Call and load the i-th value of `head`. */
  lemma Claim(d: Discipline, s: State, p: nat, ev: Event, i: nat) returns (s': State)
    requires WellFormed(s) && Enabled(d, s, PushCall(p, ev))
    requires i < |s.heads| && (d.known || d.latest ==> i == |s.heads| - 1)
    ensures WellFormed(s') && Reaches(d, s, s')
    ensures s' == s.(started := s.started + [ev],
                     pushers := s.pushers[p := PHead(|s.started|, s.heads[i], |s.ops|)])
  {
    hide Reaches;
    var m := One(d, s, PushCall(p, ev));
    s' := One(d, m, PushLoadHead(p, i));
    Then(d, s, m, s');
    assert s'.pushers == s.pushers[p := PHead(|s.started|, s.heads[i], |s.ops|)];
  }

  /** Load the i-th value of `tail` and find room. */
  lemma Test(d: Discipline, s: State, p: nat, i: nat) returns (s': State)
    requires WellFormed(s) && Enabled(d, s, PushLoadTail(p, i))
    requires Sub64(s.pushers[p].h, s.tails[i]) < s.cap
    ensures WellFormed(s') && Reaches(d, s, s')
    ensures var c := s.pushers[p];
            s' == s.(pushers := s.pushers[p := PCopying(c.id, c.h, 0, c.called)])
  {
    hide Reaches;
    s' := One(d, s, PushLoadTail(p, i));
  }

  /** A slot in which the words from `k` to `m` are those of `ev`. */
  function Splice(before: Event, ev: Event, k: nat, m: nat): Event
    requires k <= m <= |ev| == |before|
  {
    before[..k] + ev[k..m] + before[m..]
  }

  lemma SpliceStep(before: Event, ev: Event, k: nat, m: nat)
    requires k < m <= |ev| == |before|
    ensures var next: Event := before[k := ev[k]]; Splice(next, ev, k + 1, m) == Splice(before, ev, k, m)
  {
    assert ev[k..m] == [ev[k]] + ev[k + 1..m];
  }

  ghost function Filled(s: State, p: nat, m: nat): State
    requires WellFormed(s) && p < |s.pushers| && s.pushers[p].PCopying?
    requires s.pushers[p].k <= m <= s.width
  {
    SlotInRing(s, s.pushers[p].h);
    var c, j := s.pushers[p], s.SlotOf(s.pushers[p].h);
    s.(slots := s.slots[j := Splice(s.slots[j], s.started[c.id], c.k, m)],
       pushers := s.pushers[p := c.(k := m)])
  }

  /** Copying one word by hand changes nothing about where copying up to the m-th leads. */
  lemma FilledStep(d: Discipline, s: State, p: nat, m: nat)
    requires WellFormed(s) && Enabled(d, s, PushCopy(p)) && s.pushers[p].k < m <= s.width
    ensures var s1 := Next(d, s, PushCopy(p));
            && WellFormed(s1) && p < |s1.pushers| && s1.width == s.width
            && s1.pushers[p].PCopying? && s1.pushers[p].k == s.pushers[p].k + 1
            && Filled(s1, p, m) == Filled(s, p, m)
  {
    var c, s1 := s.pushers[p], Next(d, s, PushCopy(p));
    NextWellFormed(d, s, PushCopy(p));
    SlotInRing(s, c.h);
    var j := s.SlotOf(c.h);
    SpliceStep(s.slots[j], s.started[c.id], c.k, m);
    hide IsPow2, Splice;
    assert Filled(s1, p, m).slots == Filled(s, p, m).slots;
    assert Filled(s1, p, m).pushers == Filled(s, p, m).pushers;
  }

  lemma NothingToFill(s: State, p: nat)
    requires WellFormed(s) && p < |s.pushers| && s.pushers[p].PCopying?
    ensures Filled(s, p, s.pushers[p].k) == s
  {
    var c := s.pushers[p];
    SlotInRing(s, c.h);
    var j := s.SlotOf(c.h);
    assert Splice(s.slots[j], s.started[c.id], c.k, c.k) == s.slots[j];
  }

  /** Copy words up to the m-th. */
  lemma {:induction false} Fill(d: Discipline, s: State, p: nat, m: nat) returns (s': State)
    requires WellFormed(s) && p < |s.pushers| && s.pushers[p].PCopying?
    requires s.pushers[p].k <= m <= s.width
    ensures WellFormed(s') && Reaches(d, s, s') && s' == Filled(s, p, m)
    decreases m - s.pushers[p].k
  {
    if s.pushers[p].k == m {
      s' := s;
      Stay(d, s);
      NothingToFill(s, p);
    } else {
      hide Reaches, Filled, WellFormed, Next;
      FilledStep(d, s, p, m);
      var s1 := One(d, s, PushCopy(p));
      s' := Fill(d, s1, p, m);
      Then(d, s, s1, s');
    }
  }

  /** Store `head` and return. */
  lemma Commit(d: Discipline, s: State, p: nat) returns (s': State)
    requires WellFormed(s) && Enabled(d, s, PushStore(p))
    ensures WellFormed(s') && Reaches(d, s, s')
    ensures var c := s.pushers[p]; var ev := s.started[c.id];
            s' == s.(heads := s.heads + [Add64(c.h, 1)], ids := s.ids + [c.id], accepted := s.accepted + [ev],
                     ops := s.ops + [PushOk(ev)],
                     stamps := s.stamps + [Stamp(c.called, Some((|s.ops| + 1, Answer(true, []))))],
                     pushers := s.pushers[p := PIdle])
  {
    hide Reaches;
    var c := s.pushers[p];
    var m := One(d, s, PushStore(p));
    s' := One(d, m, PushReturn(p));
    Then(d, s, m, s');
    assert s'.pushers == s.pushers[p := PIdle];
    assert s'.stamps == s.stamps + [Stamp(c.called, Some((|s.ops| + 1, Answer(true, []))))];
  }

  /** Copy everything, store and return. */
  lemma Finish(d: Discipline, s: State, p: nat) returns (s': State)
    requires WellFormed(s) && p < |s.pushers| && s.pushers[p].PCopying? && s.pushers[p].k == 0
    ensures WellFormed(s') && Reaches(d, s, s')
    ensures var c := s.pushers[p]; var ev := s.started[c.id];
            s' == s.(heads := s.heads + [Add64(c.h, 1)], ids := s.ids + [c.id], accepted := s.accepted + [ev],
                     slots := s.slots[c.h % s.cap := ev],
                     ops := s.ops + [PushOk(ev)],
                     stamps := s.stamps + [Stamp(c.called, Some((|s.ops| + 1, Answer(true, []))))],
                     pushers := s.pushers[p := PIdle])
  {
    hide Reaches;
    var c := s.pushers[p];
    SlotInRing(s, c.h);
    assert Splice(s.slots[c.h % s.cap], s.started[c.id], 0, s.width) == s.started[c.id];
    var m := Fill(d, s, p, s.width);
    s' := Commit(d, m, p);
    Then(d, s, m, s');
  }

  /** A whole push with the queue to itself that loads the i-th value of `tail`. */
  lemma Push(d: Discipline, s: State, p: nat, ev: Event, i: nat) returns (s': State)
    requires WellFormed(s) && Enabled(d, s, PushCall(p, ev))
    requires i < |s.tails| && (d.latest ==> i == |s.tails| - 1) && Sub64(s.Head(), s.tails[i]) < s.cap
    ensures WellFormed(s') && Reaches(d, s, s')
    ensures s' == s.(started := s.started + [ev], ids := s.ids + [|s.started|], accepted := s.accepted + [ev],
                     heads := s.heads + [Add64(s.Head(), 1)],
                     slots := s.slots[s.Head() % s.cap := ev],
                     ops := s.ops + [PushOk(ev)],
                     stamps := s.stamps + [Stamp(|s.ops|, Some((|s.ops| + 1, Answer(true, []))))])
  {
    hide Reaches;
    var a := Claim(d, s, p, ev, |s.heads| - 1);
    var b := Test(d, a, p, i);
    Then(d, s, a, b);
    s' := Finish(d, b, p);
    Then(d, s, b, s');
    assert s'.pushers == s.pushers;
  }

  /** Read the rest of the slot. */
  lemma {:induction false} Read(d: Discipline, s: State) returns (s': State)
    requires WellFormed(s) && s.popper.QCopying?
    requires s.cap > 0 && s.popper.buf == s.slots[s.popper.t % s.cap][..|s.popper.buf|]
    ensures WellFormed(s') && Reaches(d, s, s')
    ensures s' == s.(popper := s.popper.(buf := s.slots[s.popper.t % s.cap]))
    decreases s.width - |s.popper.buf|
  {
    SlotInRing(s, s.popper.t);
    if |s.popper.buf| == s.width {
      s' := s;
      Stay(d, s);
    } else {
      var m := One(d, s, PopCopy);
      s' := Read(d, m);
      Then(d, s, m, s');
    }
  }

  lemma Look(d: Discipline, s: State) returns (s': State)
    requires WellFormed(s) && s.popper.QIdle? && s.Tail() < s.Head()
    ensures WellFormed(s') && Reaches(d, s, s')
    ensures s' == s.(popper := QHead(s.Head(), |s.ops|, |s.ops|))
  {
    hide Reaches;
    var a := One(d, s, PopCall);
    s' := One(d, a, PopLoadHead(|s.heads| - 1));
    Then(d, s, a, s');
  }

  lemma Enter(d: Discipline, s: State) returns (s': State)
    requires WellFormed(s) && s.popper.QIdle? && s.Tail() < s.Head()
    ensures WellFormed(s') && Reaches(d, s, s')
    ensures s' == s.(popper := QCopying(s.Tail(), [], |s.ops|))
  {
    hide Reaches;
    var a := Look(d, s);
    s' := One(d, a, PopLoadTail);
    Then(d, s, a, s');
  }

  lemma Leave(d: Discipline, s: State) returns (s': State)
    requires WellFormed(s) && Enabled(d, s, PopStore)
    ensures WellFormed(s') && Reaches(d, s, s')
    ensures var c := s.popper;
            s' == s.(tails := s.tails + [Add64(c.t, 1)], popped := s.popped + [c.buf], ops := s.ops + [PopOk(c.buf)],
                     stamps := s.stamps + [Stamp(c.called, Some((|s.ops| + 1, Answer(true, c.buf))))],
                     popper := QIdle)
  {
    hide Reaches;
    var c := s.popper;
    var m := One(d, s, PopStore);
    s' := One(d, m, PopReturn);
    Then(d, s, m, s');
    assert s'.stamps == s.stamps + [Stamp(c.called, Some((|s.ops| + 1, Answer(true, c.buf))))];
  }

  /** A whole pop with the queue to itself. */
  lemma Pop(d: Discipline, s: State) returns (s': State)
    requires WellFormed(s) && s.popper.QIdle? && s.Tail() < s.Head() && s.cap > 0
    ensures WellFormed(s') && Reaches(d, s, s')
    ensures var ev := s.slots[s.Tail() % s.cap];
            s' == s.(tails := s.tails + [s.Tail() + 1], popped := s.popped + [ev], ops := s.ops + [PopOk(ev)],
                     stamps := s.stamps + [Stamp(|s.ops|, Some((|s.ops| + 1, Answer(true, ev))))])
  {
    hide Reaches;
    SlotInRing(s, s.Tail());
    var a := Enter(d, s);
    assert s.slots[s.Tail() % s.cap][..0] == [];
    var b := Read(d, a);
    Then(d, s, a, b);
    s' := Leave(d, b);
    Then(d, s, b, s');
  }
}
