/** The two eBPF probes around `tcp_recvmsg`: entry and return are paired through
    a bounded map keyed by thread, and a ring buffer whose reservation may fail. */
module RecvProbes {
  import opened MachineWords
  import opened Options
  import Events

  const MAX_ENTRIES: nat := 1024
  const KERNEL_EVENT: uint32 := 2

  type Tid = uint64

  datatype RecvContext = RecvContext(ts: uint64, sockPtr: uint64, pid: uint32)

  datatype KernelEvent = KernelEvent(
    kind: uint32, seqNo: uint64, tsNic: uint64, tsKernel: uint64, tsUser: uint64, sockFd: int32,
    sockPtr: uint64, tcpSeq: uint32, pid: uint32, pktLen: uint32, dataLen: uint32, srcPort: uint16, dstPort: uint16)

  /** The upper half of the identifier is the process. */
  function PidOf(tid: Tid): uint32 {
    tid / TWO_32
  }

  function EntryContext(tid: Tid, ts: uint64, sock: uint64): RecvContext {
    RecvContext(ts, sock, PidOf(tid))
  }

  /** The event for a call that began with this context and copied this many bytes. */
  function EventFor(c: RecvContext, bytes: int): KernelEvent {
    KernelEvent(KERNEL_EVENT, 0, 0, c.ts, 0, -1, c.sockPtr, 0, c.pid, bytes % TWO_32, 0, 0, 0)
  }

  /** Updating a full hash map fails for a new key and succeeds for one it holds. */
  function Updated(m: map<Tid, RecvContext>, tid: Tid, c: RecvContext): map<Tid, RecvContext> {
    if tid in m || |m| < MAX_ENTRIES then m[tid := c] else m
  }

  /** What the two probes share. */
  datatype Core = Core(recvCtx: map<Tid, RecvContext>, submitted: seq<KernelEvent>)

  function Entered(c: Core, tid: Tid, now: uint64, sock: uint64): Core {
    c.(recvCtx := Updated(c.recvCtx, tid, EntryContext(tid, now, sock)))
  }

  function Returned(c: Core, tid: Tid, bytes: int, reserved: bool): Core {
    Core(c.recvCtx - {tid},
         if tid in c.recvCtx && bytes > 0 && reserved
         then c.submitted + [EventFor(c.recvCtx[tid], bytes)] else c.submitted)
  }

  class Probes {
    var recvCtx: map<Tid, RecvContext>
    var submitted: seq<KernelEvent>

    ghost function View(): Core
      reads this
    {
      Core(recvCtx, submitted)
    }

    constructor ()
      ensures View() == Core(map[], [])
    {
      recvCtx, submitted := map[], [];
    }

    method Kprobe(tid: Tid, now: uint64, sock: uint64)
      modifies this
      ensures View() == Entered(old(View()), tid, now, sock)
      ensures tid in old(recvCtx) || |old(recvCtx)| < 1024 ==>
                recvCtx == old(recvCtx)[tid := RecvContext(now, sock, tid / 0x1_0000_0000)]
      ensures tid !in old(recvCtx) && |old(recvCtx)| >= 1024 ==> recvCtx == old(recvCtx)
      ensures submitted == old(submitted)
    {
      var rctx := RecvContext(now, sock, PidOf(tid));
      if tid in recvCtx || |recvCtx| < MAX_ENTRIES {
        recvCtx := recvCtx[tid := rctx];
      }
    }

    /** `reserved` tells whether the ring buffer had room. */
    method Kretprobe(tid: Tid, bytes: int, reserved: bool)
      modifies this
      ensures View() == Returned(old(View()), tid, bytes, reserved)
      ensures recvCtx == old(recvCtx) - {tid}
      ensures if tid in old(recvCtx) && bytes > 0 && reserved then
                var c := old(recvCtx)[tid];
                |submitted| == |old(submitted)| + 1 && submitted[..|old(submitted)|] == old(submitted)
                && Tells(submitted[|old(submitted)|], c.ts, c.sockPtr, c.pid, bytes)
              else submitted == old(submitted)
    {
      if tid !in recvCtx {
        return;
      }
      var rctx := recvCtx[tid];
      if bytes <= 0 {
        recvCtx := recvCtx - {tid};
        return;
      }
      if !reserved {
        recvCtx := recvCtx - {tid};
        return;
      }
      var e := KernelEvent(KERNEL_EVENT, 0, 0, rctx.ts, 0, -1, rctx.sockPtr, 0, rctx.pid, bytes % TWO_32, 0, 0, 0);
      submitted := submitted + [e];
      recvCtx := recvCtx - {tid};
    }
  }

  /** The event is one of the kernel, stamped with the time of entry in the kernel's place and
      nowhere else; it names the socket and the process and gives the number of bytes. */
  ghost predicate Tells(e: KernelEvent, ts: uint64, sock: uint64, pid: uint32, bytes: int) {
    && e.kind == Events.KERNEL
    && e.tsKernel == ts && e.tsNic == 0 && e.tsUser == 0
    && e.sockPtr == sock && e.pid == pid && e.sockFd == -1
    && (e.pktLen - bytes) % 0x1_0000_0000 == 0
    && e.seqNo == 0 && e.tcpSeq == 0 && e.dataLen == 0 && e.srcPort == 0 && e.dstPort == 0
  }

  // ---- All interleavings of threads ----

  /** A call that a thread is in: when it entered, for which socket. */
  datatype Entry = Entry(ts: uint64, sock: uint64)

  /** A call that returned a positive number of bytes with both ends of it on record. */
  datatype Call = Call(tid: Tid, ts: uint64, sock: uint64, bytes: int)

  datatype State = State(
    core: Core,
    // history
    inside: map<Tid, Entry>,   // threads in the call
    owed: seq<Call>,           // the observed positive returns, each with its true entry
    at: seq<nat>               // which owed call each submitted event answers
  )

  datatype Action =
    | Enter(tid: Tid, now: uint64, sock: uint64)
    | EnterUnseen(tid: Tid, now: uint64, sock: uint64)   // the entry probe was missed
    | Return(tid: Tid, bytes: int, reserved: bool)
    | ReturnUnseen(tid: Tid)                             // the return probe was missed

  /** Which mishaps a run may contain. */
  datatype Mishaps = Mishaps(
    entriesMissed: bool,
    returnsMissed: bool,
    crowded: bool,         // more than 1024 threads inside the call
    refused: bool          // failed reservations in the ring buffer
  )

  const NONE := Mishaps(false, false, false, false)

  const INITIAL: State := State(Core(map[], []), map[], [], [])

  predicate Enabled(mis: Mishaps, s: State, a: Action) {
    match a
    case Enter(tid, _, _) => tid !in s.inside && (!mis.crowded ==> |s.inside| < 1024)
    case EnterUnseen(tid, _, _) => mis.entriesMissed && tid !in s.inside && (!mis.crowded ==> |s.inside| < 1024)
    case Return(tid, _, reserved) => tid in s.inside && (!mis.refused ==> reserved)
    case ReturnUnseen(tid) => mis.returnsMissed && tid in s.inside
  }

  function Next(s: State, a: Action): State
    requires a.Return? ==> a.tid in s.inside
  {
    match a
    case Enter(tid, now, sock) =>
      s.(core := Entered(s.core, tid, now, sock), inside := s.inside[tid := Entry(now, sock)])
    case EnterUnseen(tid, now, sock) => s.(inside := s.inside[tid := Entry(now, sock)])
    case Return(tid, bytes, reserved) =>
      var core, e := Returned(s.core, tid, bytes, reserved), s.inside[tid];
      s.(core := core, inside := s.inside - {tid},
         owed := if bytes > 0 then s.owed + [Call(tid, e.ts, e.sock, bytes)] else s.owed,
         at := if |core.submitted| > |s.core.submitted| then s.at + [|s.owed|] else s.at)
    case ReturnUnseen(tid) => s.(inside := s.inside - {tid})
  }

  function Exec(mis: Mishaps, s: State, acts: seq<Action>): Option<State>
    decreases |acts|
  {
    if acts == [] then Some(s)
    else if Enabled(mis, s, acts[0]) then Exec(mis, Next(s, acts[0]), acts[1..])
    else None
  }

  /** The event tells of this call, and of the process that made it. */
  ghost predicate TellsOf(e: KernelEvent, c: Call) {
    && Tells(e, c.ts, c.sock, e.pid, c.bytes)
    && e.pid * 0x1_0000_0000 <= c.tid < (e.pid + 1) * 0x1_0000_0000
  }

  /** Every submitted event tells of one of the owed calls, in order, none twice. */
  ghost predicate Answers(s: State) {
    && |s.at| == |s.core.submitted|
    && (forall i | 0 <= i < |s.at| :: s.at[i] < |s.owed| && TellsOf(s.core.submitted[i], s.owed[s.at[i]]))
    && (forall i, j | 0 <= i < j < |s.at| :: s.at[i] < s.at[j])
  }

  /** Every owed call is told of, in order. */
  ghost predicate AllAnswered(s: State) {
    && |s.core.submitted| == |s.owed|
    && forall i | 0 <= i < |s.owed| :: TellsOf(s.core.submitted[i], s.owed[i])
  }

  function ContextOf(tid: Tid, e: Entry): RecvContext {
    EntryContext(tid, e.ts, e.sock)
  }

  lemma EventTellsOfItsCall(tid: Tid, e: Entry, bytes: int)
    ensures TellsOf(EventFor(ContextOf(tid, e), bytes), Call(tid, e.ts, e.sock, bytes))
  {}

  ghost predicate Inv(mis: Mishaps, s: State) {
    && Answers(s)
    && |s.core.recvCtx| <= MAX_ENTRIES
    && (forall tid | tid in s.core.recvCtx && tid in s.inside :: s.core.recvCtx[tid] == ContextOf(tid, s.inside[tid]))
    && (!mis.returnsMissed ==> s.core.recvCtx.Keys <= s.inside.Keys)
    && (mis == NONE ==> s.core.recvCtx.Keys == s.inside.Keys && AllAnswered(s))
  }

  lemma RemovedStaysSmall(m: map<Tid, RecvContext>, tid: Tid)
    ensures |m - {tid}| <= |m|
  {}

  lemma EnterKeepsInv(mis: Mishaps, s: State, tid: Tid, now: uint64, sock: uint64)
    requires Inv(mis, s) && Enabled(mis, s, Enter(tid, now, sock))
    ensures Inv(mis, Next(s, Enter(tid, now, sock)))
  {}

  lemma OneMoreTold(s: State, core: Core, e: KernelEvent, c: Call)
    requires Answers(s) && TellsOf(e, c) && core.submitted == s.core.submitted + [e]
    ensures Answers(s.(core := core, owed := s.owed + [c], at := s.at + [|s.owed|]))
    ensures AllAnswered(s) ==> AllAnswered(s.(core := core, owed := s.owed + [c], at := s.at + [|s.owed|]))
  {
    hide TellsOf;
  }

  lemma OneMoreOwed(s: State, c: Call)
    requires Answers(s)
    ensures Answers(s.(owed := s.owed + [c]))
  {
    hide TellsOf;
  }

  /** A return that is answered, and one that is not. */
  lemma ReturnShape(s: State, tid: Tid, bytes: int, reserved: bool)
    requires tid in s.inside && (tid in s.core.recvCtx ==> s.core.recvCtx[tid] == ContextOf(tid, s.inside[tid]))
    ensures var s' := Next(s, Return(tid, bytes, reserved));
            var e, c := EventFor(ContextOf(tid, s.inside[tid]), bytes),
                        Call(tid, s.inside[tid].ts, s.inside[tid].sock, bytes);
            && s'.inside == s.inside - {tid} && s'.core.recvCtx == s.core.recvCtx - {tid}
            && if tid in s.core.recvCtx && bytes > 0 && reserved then
                 && s'.core.submitted == s.core.submitted + [e]
                 && s'.owed == s.owed + [c] && s'.at == s.at + [|s.owed|]
               else
                 && s'.core.submitted == s.core.submitted && s'.at == s.at
                 && s'.owed == if bytes > 0 then s.owed + [c] else s.owed
  {
    hide EventFor, ContextOf;
  }

  lemma ReturnKeepsAnswers(mis: Mishaps, s: State, tid: Tid, bytes: int, reserved: bool)
    requires Inv(mis, s) && Enabled(mis, s, Return(tid, bytes, reserved))
    ensures Answers(Next(s, Return(tid, bytes, reserved)))
    ensures mis == NONE ==> AllAnswered(Next(s, Return(tid, bytes, reserved)))
  {
    var s' := Next(s, Return(tid, bytes, reserved));
    var c := Call(tid, s.inside[tid].ts, s.inside[tid].sock, bytes);
    ReturnShape(s, tid, bytes, reserved);
    EventTellsOfItsCall(tid, s.inside[tid], bytes);
    hide TellsOf, EventFor, ContextOf, Next;
    if tid in s.core.recvCtx && bytes > 0 && reserved {
      OneMoreTold(s, s'.core, EventFor(ContextOf(tid, s.inside[tid]), bytes), c);
      hide Answers, AllAnswered;
      assert s' == s.(core := s'.core, owed := s.owed + [c], at := s.at + [|s.owed|]).(inside := s'.inside);
      SameAnswers(s.(core := s'.core, owed := s.owed + [c], at := s.at + [|s.owed|]), s');
    } else if bytes > 0 {
      OneMoreOwed(s, c);
      SameAnswers(s.(owed := s.owed + [c]), s');
      hide Answers, AllAnswered;
    } else {
      SameAnswers(s, s');
      hide Answers, AllAnswered;
    }
  }

  lemma SameAnswers(s: State, s': State)
    requires s'.core.submitted == s.core.submitted && s'.owed == s.owed && s'.at == s.at
    ensures Answers(s) <==> Answers(s')
    ensures AllAnswered(s) <==> AllAnswered(s')
  {
    hide TellsOf;
  }

  lemma ReturnKeepsInv(mis: Mishaps, s: State, tid: Tid, bytes: int, reserved: bool)
    requires Inv(mis, s) && Enabled(mis, s, Return(tid, bytes, reserved))
    ensures Inv(mis, Next(s, Return(tid, bytes, reserved)))
  {
    RemovedStaysSmall(s.core.recvCtx, tid);
    ReturnKeepsAnswers(mis, s, tid, bytes, reserved);
    hide EventFor, Answers, AllAnswered, EntryContext;
  }

  /** Without a map entry of its own a call entered unseen submits nothing. */
  lemma EnterUnseenKeepsInv(mis: Mishaps, s: State, tid: Tid, now: uint64, sock: uint64)
    requires !mis.returnsMissed && Inv(mis, s) && Enabled(mis, s, EnterUnseen(tid, now, sock))
    ensures Inv(mis, Next(s, EnterUnseen(tid, now, sock)))
  {
    assert tid !in s.core.recvCtx;
    hide TellsOf;
  }

  lemma StepKeepsInv(mis: Mishaps, s: State, a: Action)
    requires !(mis.entriesMissed && mis.returnsMissed) && Inv(mis, s) && Enabled(mis, s, a)
    ensures Inv(mis, Next(s, a))
  {
    match a
    case Enter(tid, now, sock) => EnterKeepsInv(mis, s, tid, now, sock);
    case EnterUnseen(tid, now, sock) => EnterUnseenKeepsInv(mis, s, tid, now, sock);
    case Return(tid, bytes, reserved) => ReturnKeepsInv(mis, s, tid, bytes, reserved);
    case ReturnUnseen(_) =>
  }

  lemma {:induction false} RunKeepsInv(mis: Mishaps, s: State, acts: seq<Action>)
    requires !(mis.entriesMissed && mis.returnsMissed) && Inv(mis, s)
    ensures Exec(mis, s, acts).Some? ==> Inv(mis, Exec(mis, s, acts).value)
    decreases |acts|
  {
    if acts == [] {
    } else if Enabled(mis, s, acts[0]) {
      StepKeepsInv(mis, s, acts[0]);
      RunKeepsInv(mis, Next(s, acts[0]), acts[1..]);
    }
  }

  lemma {:induction false} ExecConcat(mis: Mishaps, s: State, a: seq<Action>, b: seq<Action>, m: State)
    requires Exec(mis, s, a) == Some(m)
    ensures Exec(mis, s, a + b) == Exec(mis, m, b)
    decreases |a|
  {
    hide Next;
    if a == [] {
      assert a + b == b;
    } else {
      ExecConcat(mis, Next(s, a[0]), a[1..], b, m);
      assert (a + b)[1..] == a[1..] + b;
    }
  }

  lemma ExecTwo(mis: Mishaps, s: State, a: Action, b: Action)
    requires Enabled(mis, s, a) && Enabled(mis, Next(s, a), b)
    ensures Exec(mis, s, [a, b]) == Some(Next(Next(s, a), b))
  {
    hide Next;
    assert [a, b][1..] == [b] && [b][1..] == [];
    assert Exec(mis, Next(s, a), [b]) == Exec(mis, Next(Next(s, a), b), []);
  }

  predicate Permits(mis: Mishaps, less: Mishaps) {
    && (less.entriesMissed ==> mis.entriesMissed)
    && (less.returnsMissed ==> mis.returnsMissed)
    && (less.crowded ==> mis.crowded)
    && (less.refused ==> mis.refused)
  }

  lemma {:induction false} PermissiveExec(mis: Mishaps, less: Mishaps, s: State, acts: seq<Action>, s': State)
    requires Permits(mis, less) && Exec(less, s, acts) == Some(s')
    ensures Exec(mis, s, acts) == Some(s')
    decreases |acts|
  {
    hide Next;
    if acts == [] {
    } else {
      PermissiveExec(mis, less, Next(s, acts[0]), acts[1..], s');
    }
  }

  /** Missing an entry probe after a missed return is not harmless: the event of the second
      call then carries the entry of the first. */
  lemma MissedEntryAfterMissedReturn(tid: Tid, t0: uint64, t1: uint64, sock: uint64)
    requires t0 != t1
    ensures var acts := [Enter(tid, t0, sock), ReturnUnseen(tid), EnterUnseen(tid, t1, sock), Return(tid, 1, true)];
            var r := Exec(Mishaps(true, true, false, false), INITIAL, acts);
            && r.Some? && |r.value.core.submitted| == 1 && r.value.core.submitted[0].tsKernel == t0
            && r.value.owed == [Call(tid, t1, sock, 1)]
  {
    var mis := Mishaps(true, true, false, false);
    var s2 := INITIAL.(core := Core(map[tid := EntryContext(tid, t0, sock)], []));
    ExecTwo(mis, INITIAL, Enter(tid, t0, sock), ReturnUnseen(tid));
    assert Next(Next(INITIAL, Enter(tid, t0, sock)), ReturnUnseen(tid)).inside == map[];
    ExecTwo(mis, s2, EnterUnseen(tid, t1, sock), Return(tid, 1, true));
    ExecConcat(mis, INITIAL, [Enter(tid, t0, sock), ReturnUnseen(tid)],
               [EnterUnseen(tid, t1, sock), Return(tid, 1, true)], s2);
    assert [Enter(tid, t0, sock), ReturnUnseen(tid)] + [EnterUnseen(tid, t1, sock), Return(tid, 1, true)]
        == [Enter(tid, t0, sock), ReturnUnseen(tid), EnterUnseen(tid, t1, sock), Return(tid, 1, true)];
  }

  /** For every interleaving, failed inserts and failed reservations included: what is
      submitted is, in order and without repetition, part of what is owed, so each event
      carries the time, socket and process of its own thread's entry. That holds of all runs
      exactly when missed entries and missed returns do not both occur. */
  lemma SubmittedEventsAreOwed(mis: Mishaps)
    ensures (forall acts, s' | Exec(mis, INITIAL, acts) == Some(s') :: Answers(s')) <==>
            !(mis.entriesMissed && mis.returnsMissed)
  {
    if mis.entriesMissed && mis.returnsMissed {
      var acts := [Enter(0, 0, 0), ReturnUnseen(0), EnterUnseen(0, 1, 0), Return(0, 1, true)];
      MissedEntryAfterMissedReturn(0, 0, 1, 0);
      var s' := Exec(Mishaps(true, true, false, false), INITIAL, acts).value;
      PermissiveExec(mis, Mishaps(true, true, false, false), INITIAL, acts, s');
      assert !TellsOf(s'.core.submitted[0], s'.owed[0]);
      assert !Answers(s');
    } else {
      forall acts, s' | Exec(mis, INITIAL, acts) == Some(s')
        ensures Answers(s')
      {
        RunKeepsInv(mis, INITIAL, acts);
      }
    }
  }

  /** The entries of the first n threads. */
  function Entries(n: nat): (m: map<Tid, RecvContext>)
    requires n <= MAX_ENTRIES
    ensures |m| == n && forall tid | tid in m :: tid < n
  {
    if n == 0 then map[] else Entries(n - 1)[n - 1 := EntryContext(n - 1, 0, 0)]
  }

  /** The calls they are in. */
  function Calls(n: nat): (m: map<Tid, Entry>)
    requires n <= MAX_ENTRIES
    ensures |m| == n && forall tid | tid in m :: tid < n
  {
    if n == 0 then map[] else Calls(n - 1)[n - 1 := Entry(0, 0)]
  }

  /** Missed returns alone can fill the map. */
  lemma {:induction false} StaleRun(n: nat) returns (acts: seq<Action>)
    requires n <= MAX_ENTRIES
    ensures Exec(Mishaps(false, true, false, false), INITIAL, acts) == Some(INITIAL.(core := Core(Entries(n), [])))
  {
    if n == 0 {
      acts := [];
    } else {
      var mis := Mishaps(false, true, false, false);
      var front := StaleRun(n - 1);
      var s := INITIAL.(core := Core(Entries(n - 1), []));
      var a, b := Enter(n - 1, 0, 0), ReturnUnseen(n - 1);
      ExecTwo(mis, s, a, b);
      assert Next(Next(s, a), b).inside == map[];
      ExecConcat(mis, INITIAL, front, [a, b], s);
      acts := front + [a, b];
    }
  }

  ghost predicate OnlyInside(s: State) {
    s.core.recvCtx.Keys <= s.inside.Keys
  }

  /** Just the threads inside the call have map entries in all runs exactly when no return
      probe is missed. */
  lemma EntriesAreOfThreadsInside(mis: Mishaps)
    ensures (forall acts, s' | Exec(mis, INITIAL, acts) == Some(s') :: OnlyInside(s')) <==> !mis.returnsMissed
  {
    if mis.returnsMissed {
      var acts := StaleRun(1);
      var s' := INITIAL.(core := Core(Entries(1), []));
      PermissiveExec(mis, Mishaps(false, true, false, false), INITIAL, acts, s');
      assert 0 in s'.core.recvCtx;
      assert !OnlyInside(s');
    } else {
      forall acts, s' | Exec(mis, INITIAL, acts) == Some(s')
        ensures OnlyInside(s')
      {
        RunKeepsInv(mis, INITIAL, acts);
      }
    }
  }

  /** So can 1024 threads that are inside the call. */
  lemma {:induction false} InsideRun(n: nat) returns (acts: seq<Action>)
    requires n <= MAX_ENTRIES
    ensures Exec(NONE, INITIAL, acts) == Some(INITIAL.(core := Core(Entries(n), []), inside := Calls(n)))
  {
    if n == 0 {
      acts := [];
    } else {
      var front := InsideRun(n - 1);
      var s := INITIAL.(core := Core(Entries(n - 1), []), inside := Calls(n - 1));
      var a := Enter(n - 1, 0, 0);
      assert [a][1..] == [] && Exec(NONE, Next(s, a), []) == Some(Next(s, a));
      assert Exec(NONE, s, [a]) == Some(Next(s, a));
      ExecConcat(NONE, INITIAL, front, [a], s);
      acts := front + [a];
    }
  }

  /** Once the map is full the call of a further thread is not answered. */
  lemma FullMapLosesAnEvent(mis: Mishaps, front: seq<Action>, s: State) returns (acts: seq<Action>, s': State)
    requires Exec(mis, INITIAL, front) == Some(s) && s.core.recvCtx == Entries(MAX_ENTRIES) && AllAnswered(s)
    requires MAX_ENTRIES !in s.inside && (mis.crowded || |s.inside| < MAX_ENTRIES)
    ensures Exec(mis, INITIAL, acts) == Some(s') && !AllAnswered(s')
  {
    var a, b := Enter(MAX_ENTRIES, 0, 0), Return(MAX_ENTRIES, 1, true);
    ExecTwo(mis, s, a, b);
    ExecConcat(mis, INITIAL, front, [a, b], s);
    acts, s' := front + [a, b], Next(Next(s, a), b);
  }

  /** Each kind of mishap alone is enough to leave a positive return unanswered. */
  lemma MishapLosesAnEvent(mis: Mishaps) returns (acts: seq<Action>, s': State)
    requires mis != NONE
    ensures Exec(mis, INITIAL, acts) == Some(s') && !AllAnswered(s')
  {
    if mis.entriesMissed || mis.refused {
      var a := if mis.refused then Enter(0, 0, 0) else EnterUnseen(0, 0, 0);
      var b := Return(0, 1, !mis.refused);
      acts, s' := [a, b], Next(Next(INITIAL, a), b);
      ExecTwo(mis, INITIAL, a, b);
    } else if mis.returnsMissed {
      var front := StaleRun(MAX_ENTRIES);
      var s := INITIAL.(core := Core(Entries(MAX_ENTRIES), []));
      PermissiveExec(mis, Mishaps(false, true, false, false), INITIAL, front, s);
      acts, s' := FullMapLosesAnEvent(mis, front, s);
    } else {
      var front := InsideRun(MAX_ENTRIES);
      var s := INITIAL.(core := Core(Entries(MAX_ENTRIES), []), inside := Calls(MAX_ENTRIES));
      PermissiveExec(mis, NONE, INITIAL, front, s);
      acts, s' := FullMapLosesAnEvent(mis, front, s);
    }
  }

  /** Every positive return is answered by its own event in all runs exactly when no probe is
      missed, never more than 1024 threads are inside, and reservations succeed: each of the
      four is needed. */
  lemma EveryReturnIsAnswered(mis: Mishaps)
    ensures (forall acts, s' | Exec(mis, INITIAL, acts) == Some(s') :: AllAnswered(s')) <==>
            mis == Mishaps(false, false, false, false)
  {
    if mis == NONE {
      forall acts, s' | Exec(mis, INITIAL, acts) == Some(s')
        ensures AllAnswered(s')
      {
        RunKeepsInv(mis, INITIAL, acts);
      }
    } else {
      var acts, s' := MishapLosesAnEvent(mis);
    }
  }
}
