/** The two-stage search that picks a kernel event for a user event, and a NIC
    event for a kernel event: first an exact TCP sequence number, otherwise the
    nearest earlier timestamp. Both searches are instances of one. */
module Matching {
  import opened MachineWords
  import opened Options
  import opened Events

  /** How one candidate looks to a search. */
  datatype Probe = Probe(exact: bool, skipped: bool, ts: uint64)

  function KernelProbe(u: UnifiedEvent, k: UnifiedEvent): Probe {
    Probe(k.tcpSeq == u.tcpSeq && k.tcpSeq != 0,
          k.sockPtr != 0 && u.sockPtr != 0 && k.sockPtr != u.sockPtr,
          k.tsKernel)
  }

  function NicProbe(k: UnifiedEvent, n: UnifiedEvent): Probe {
    Probe(n.tcpSeq == k.tcpSeq && n.tcpSeq != 0, false, n.tsNic)
  }

  function KernelProbes(u: UnifiedEvent, ks: seq<UnifiedEvent>): seq<Probe> {
    seq(|ks|, i requires 0 <= i < |ks| => KernelProbe(u, ks[i]))
  }

  function NicProbes(k: UnifiedEvent, ns: seq<UnifiedEvent>): seq<Probe> {
    seq(|ns|, i requires 0 <= i < |ns| => NicProbe(k, ns[i]))
  }

  predicate Eligible(p: Probe, ref: uint64) {
    !p.skipped && 0 < p.ts <= ref
  }

  /** r is the right answer: the first exact candidate if there is one, otherwise the first
      of the eligible candidates nearest in time, and None only when there is neither. */
  ghost predicate IsChoice(ps: seq<Probe>, ref: uint64, r: Option<nat>) {
    match r
    case None => forall j | 0 <= j < |ps| :: !ps[j].exact && !Eligible(ps[j], ref)
    case Some(i) =>
      && i < |ps|
      && if ps[i].exact then forall j | 0 <= j < i :: !ps[j].exact
         else
           && (forall j | 0 <= j < |ps| :: !ps[j].exact)
           && Eligible(ps[i], ref)
           && (forall j | 0 <= j < |ps| && Eligible(ps[j], ref) ::
                 ref - ps[i].ts < ref - ps[j].ts || (ps[i].ts == ps[j].ts && i <= j))
  }

  lemma ChoiceIsUnique(ps: seq<Probe>, ref: uint64, r: Option<nat>, r': Option<nat>)
    requires IsChoice(ps, ref, r) && IsChoice(ps, ref, r')
    ensures r == r'
  {}

  lemma {:induction false} ChoiceExists(ps: seq<Probe>, ref: uint64) returns (r: Option<nat>)
    ensures IsChoice(ps, ref, r)
  {
    if ps == [] {
      r := None;
    } else {
      var n := |ps| - 1;
      var q := ChoiceExists(ps[..n], ref);
      if q.Some? && ps[q.value].exact {
        r := q;
      } else if ps[n].exact {
        r := Some(n);
      } else if q.Some? && (Eligible(ps[n], ref) ==> ps[n].ts <= ps[q.value].ts) {
        r := q;
      } else {
        r := if Eligible(ps[n], ref) then Some(n) else None;
      }
    }
  }

  ghost function Choice(ps: seq<Probe>, ref: uint64): (r: Option<nat>)
    ensures IsChoice(ps, ref, r)
  {
    assert exists r :: IsChoice(ps, ref, r) by {
      var r := ChoiceExists(ps, ref);
    }
    var r :| IsChoice(ps, ref, r);
    r
  }

  /** Which kernel event a user event gets, and which NIC event a kernel event gets. */
  ghost function KernelChoice(ks: seq<UnifiedEvent>, u: UnifiedEvent): (r: Option<nat>)
    ensures r.Some? ==> r.value < |ks|
  {
    Choice(KernelProbes(u, ks), u.tsUser)
  }

  ghost function NicChoice(ns: seq<UnifiedEvent>, k: UnifiedEvent): (r: Option<nat>)
    ensures r.Some? ==> r.value < |ns|
  {
    Choice(NicProbes(k, ns), k.tsKernel)
  }

  /** The kernel search of the source: a pass for an exact match, then one that keeps the
      smallest distance seen so far, starting from the largest 64-bit value. */
  method MatchKernel(ks: seq<UnifiedEvent>, u: UnifiedEvent, zero: UnifiedEvent)
    returns (has: bool, best: UnifiedEvent)
    ensures has == KernelChoice(ks, u).Some?
    ensures has ==> best == ks[KernelChoice(ks, u).value]
  {
    has, best := false, zero;
    ghost var ps := KernelProbes(u, ks);
    ghost var at: Option<nat> := None;
    var i := 0;
    while i < |ks| && !has
      invariant 0 <= i <= |ks|
      invariant if has then at == Some(i - 1) && 0 < i && ps[i - 1].exact && best == ks[i - 1] else at == None
      invariant forall j | 0 <= j < (if has then i - 1 else i) :: !ps[j].exact
      decreases |ks| - i, !has
    {
      var ke := ks[i];
      if ke.tcpSeq == u.tcpSeq && ke.tcpSeq != 0 {
        best, has, at := ke, true, Some(i);
      }
      i := i + 1;
    }
    if !has {
      var bestDt: uint64 := 0xffff_ffff_ffff_ffff;
      for k := 0 to |ks|
        invariant has == at.Some?
        invariant !has ==> bestDt == 0xffff_ffff_ffff_ffff && forall j | 0 <= j < k :: !Eligible(ps[j], u.tsUser)
        invariant has ==>
                    && at.value < k && best == ks[at.value] && Eligible(ps[at.value], u.tsUser)
                    && bestDt == u.tsUser - ps[at.value].ts
                    && forall j | 0 <= j < k && Eligible(ps[j], u.tsUser) ::
                         bestDt < u.tsUser - ps[j].ts || (ps[j].ts == ps[at.value].ts && at.value <= j)
      {
        var ke := ks[k];
        if !(ke.sockPtr != 0 && u.sockPtr != 0 && ke.sockPtr != u.sockPtr) {
          if ke.tsKernel > 0 && ke.tsKernel <= u.tsUser {
            var dt: uint64 := u.tsUser - ke.tsKernel;
            if dt < bestDt {
              bestDt, best, has, at := dt, ke, true, Some(k);
            }
          }
        }
      }
    }
    ChoiceIsUnique(ps, u.tsUser, at, KernelChoice(ks, u));
  }

  /** The NIC search, relative to a kernel event; no socket filter. */
  method MatchNic(ns: seq<UnifiedEvent>, bestK: UnifiedEvent, zero: UnifiedEvent)
    returns (has: bool, best: UnifiedEvent)
    ensures has == NicChoice(ns, bestK).Some?
    ensures has ==> best == ns[NicChoice(ns, bestK).value]
  {
    has, best := false, zero;
    ghost var ps := NicProbes(bestK, ns);
    ghost var at: Option<nat> := None;
    var i := 0;
    while i < |ns| && !has
      invariant 0 <= i <= |ns|
      invariant if has then at == Some(i - 1) && 0 < i && ps[i - 1].exact && best == ns[i - 1] else at == None
      invariant forall j | 0 <= j < (if has then i - 1 else i) :: !ps[j].exact
      decreases |ns| - i, !has
    {
      var ne := ns[i];
      if ne.tcpSeq == bestK.tcpSeq && ne.tcpSeq != 0 {
        best, has, at := ne, true, Some(i);
      }
      i := i + 1;
    }
    if !has {
      var bestDt: uint64 := 0xffff_ffff_ffff_ffff;
      for k := 0 to |ns|
        invariant has == at.Some?
        invariant !has ==> bestDt == 0xffff_ffff_ffff_ffff && forall j | 0 <= j < k :: !Eligible(ps[j], bestK.tsKernel)
        invariant has ==>
                    && at.value < k && best == ns[at.value] && Eligible(ps[at.value], bestK.tsKernel)
                    && bestDt == bestK.tsKernel - ps[at.value].ts
                    && forall j | 0 <= j < k && Eligible(ps[j], bestK.tsKernel) ::
                         bestDt < bestK.tsKernel - ps[j].ts || (ps[j].ts == ps[at.value].ts && at.value <= j)
      {
        var ne := ns[k];
        if ne.tsNic > 0 && ne.tsNic <= bestK.tsKernel {
          var dt: uint64 := bestK.tsKernel - ne.tsNic;
          if dt < bestDt {
            bestDt, best, has, at := dt, ne, true, Some(k);
          }
        }
      }
    }
    ChoiceIsUnique(ps, bestK.tsKernel, at, NicChoice(ns, bestK));
  }

  /** A match is reported exactly when an exact or an eligible candidate exists. */
  lemma MatchedIffCandidate(ks: seq<UnifiedEvent>, u: UnifiedEvent)
    ensures KernelChoice(ks, u).Some? <==>
            exists k | k in ks :: KernelProbe(u, k).exact || Eligible(KernelProbe(u, k), u.tsUser)
  {
    var r, ps := KernelChoice(ks, u), KernelProbes(u, ks);
    if r.Some? {
      assert ps[r.value] == KernelProbe(u, ks[r.value]) && ks[r.value] in ks;
    } else {
      forall k | k in ks
        ensures !KernelProbe(u, k).exact && !Eligible(KernelProbe(u, k), u.tsUser)
      {
        var j :| 0 <= j < |ks| && ks[j] == k;
        assert ps[j] == KernelProbe(u, k);
      }
    }
  }

  // ---- The choices in terms of the events' own fields ----

  /** A user event of the client carries neither sequence number nor socket: it gets the
      latest kernel event that is not after it (of several, the first), if there is any. */
  lemma ClientEventTakesLatestKernel(ks: seq<UnifiedEvent>, u: UnifiedEvent)
    requires u.tcpSeq == 0 && u.sockPtr == 0
    ensures KernelChoice(ks, u).Some? <==> exists k :: k in ks && 0 < k.tsKernel <= u.tsUser
    ensures KernelChoice(ks, u).Some? ==>
              var i := KernelChoice(ks, u).value;
              && 0 < ks[i].tsKernel <= u.tsUser
              && forall j | 0 <= j < |ks| && 0 < ks[j].tsKernel <= u.tsUser ::
                   ks[j].tsKernel < ks[i].tsKernel || (ks[j].tsKernel == ks[i].tsKernel && i <= j)
  {
    var ps := KernelProbes(u, ks);
    forall k | k in ks && 0 < k.tsKernel <= u.tsUser
      ensures KernelChoice(ks, u).Some?
    {
      var j :| 0 <= j < |ks| && ks[j] == k;
      assert Eligible(ps[j], u.tsUser);
    }
    if KernelChoice(ks, u).Some? {
      assert ks[KernelChoice(ks, u).value] in ks;
      forall j | 0 <= j < |ks| && 0 < ks[j].tsKernel <= u.tsUser
        ensures Eligible(ps[j], u.tsUser)
      {
      }
    }
  }

  /** One that names a socket gets the latest kernel event not after it that names the same
      socket or none. */
  lemma SocketEventTakesLatestOfItsSocket(ks: seq<UnifiedEvent>, u: UnifiedEvent)
    requires u.tcpSeq == 0 && u.sockPtr != 0
    ensures KernelChoice(ks, u).Some? <==>
            exists k :: k in ks && (k.sockPtr == u.sockPtr || k.sockPtr == 0) && 0 < k.tsKernel <= u.tsUser
    ensures KernelChoice(ks, u).Some? ==>
              var i := KernelChoice(ks, u).value;
              && (ks[i].sockPtr == u.sockPtr || ks[i].sockPtr == 0) && 0 < ks[i].tsKernel <= u.tsUser
              && forall j | 0 <= j < |ks| && (ks[j].sockPtr == u.sockPtr || ks[j].sockPtr == 0)
                            && 0 < ks[j].tsKernel <= u.tsUser ::
                   ks[j].tsKernel < ks[i].tsKernel || (ks[j].tsKernel == ks[i].tsKernel && i <= j)
  {
    var ps := KernelProbes(u, ks);
    forall k | k in ks && (k.sockPtr == u.sockPtr || k.sockPtr == 0) && 0 < k.tsKernel <= u.tsUser
      ensures KernelChoice(ks, u).Some?
    {
      var j :| 0 <= j < |ks| && ks[j] == k;
      assert Eligible(ps[j], u.tsUser);
    }
    if KernelChoice(ks, u).Some? {
      assert ks[KernelChoice(ks, u).value] in ks;
      forall j | 0 <= j < |ks| && (ks[j].sockPtr == u.sockPtr || ks[j].sockPtr == 0) && 0 < ks[j].tsKernel <= u.tsUser
        ensures Eligible(ps[j], u.tsUser)
      {
      }
    }
  }

  /** One that carries a sequence number gets the first kernel event with that number, whatever
      its time and socket; if there is none, what it would get without a number. */
  lemma NumberedEventTakesItsNumber(ks: seq<UnifiedEvent>, u: UnifiedEvent)
    requires u.tcpSeq != 0
    ensures (exists k :: k in ks && k.tcpSeq == u.tcpSeq) ==>
              && KernelChoice(ks, u).Some? && ks[KernelChoice(ks, u).value].tcpSeq == u.tcpSeq
              && forall j | 0 <= j < KernelChoice(ks, u).value :: ks[j].tcpSeq != u.tcpSeq
    ensures !(exists k :: k in ks && k.tcpSeq == u.tcpSeq) ==>
              KernelChoice(ks, u) == KernelChoice(ks, u.(tcpSeq := 0))
  {
    var ps, v := KernelProbes(u, ks), u.(tcpSeq := 0);
    if k :| k in ks && k.tcpSeq == u.tcpSeq {
      var i :| 0 <= i < |ks| && ks[i] == k;
      assert ps[i].exact;
      forall j | 0 <= j < KernelChoice(ks, u).value
        ensures ks[j].tcpSeq != u.tcpSeq
      {
        assert !ps[j].exact;
      }
    } else {
      forall j | 0 <= j < |ks|
        ensures ps[j] == KernelProbes(v, ks)[j]
      {
        assert ks[j] in ks;
      }
      assert ps == KernelProbes(v, ks);
    }
  }

  /** A kernel event without a sequence number, as the probes make them, gets the latest NIC
      event that is not after it. */
  lemma KernelEventTakesLatestNic(ns: seq<UnifiedEvent>, k: UnifiedEvent)
    requires k.tcpSeq == 0
    ensures NicChoice(ns, k).Some? <==> exists n :: n in ns && 0 < n.tsNic <= k.tsKernel
    ensures NicChoice(ns, k).Some? ==>
              var i := NicChoice(ns, k).value;
              && 0 < ns[i].tsNic <= k.tsKernel
              && forall j | 0 <= j < |ns| && 0 < ns[j].tsNic <= k.tsKernel ::
                   ns[j].tsNic < ns[i].tsNic || (ns[j].tsNic == ns[i].tsNic && i <= j)
  {
    var ps := NicProbes(k, ns);
    forall n | n in ns && 0 < n.tsNic <= k.tsKernel
      ensures NicChoice(ns, k).Some?
    {
      var j :| 0 <= j < |ns| && ns[j] == n;
      assert Eligible(ps[j], k.tsKernel);
    }
    if NicChoice(ns, k).Some? {
      assert ns[NicChoice(ns, k).value] in ns;
      forall j | 0 <= j < |ns| && 0 < ns[j].tsNic <= k.tsKernel
        ensures Eligible(ps[j], k.tsKernel)
      {
      }
    }
  }

  /** One with a number gets the first NIC event with that number, else what it would get
      without. */
  lemma NumberedKernelEventTakesItsNumber(ns: seq<UnifiedEvent>, k: UnifiedEvent)
    requires k.tcpSeq != 0
    ensures (exists n :: n in ns && n.tcpSeq == k.tcpSeq) ==>
              && NicChoice(ns, k).Some? && ns[NicChoice(ns, k).value].tcpSeq == k.tcpSeq
              && forall j | 0 <= j < NicChoice(ns, k).value :: ns[j].tcpSeq != k.tcpSeq
    ensures !(exists n :: n in ns && n.tcpSeq == k.tcpSeq) ==> NicChoice(ns, k) == NicChoice(ns, k.(tcpSeq := 0))
  {
    var ps, l := NicProbes(k, ns), k.(tcpSeq := 0);
    if n :| n in ns && n.tcpSeq == k.tcpSeq {
      var i :| 0 <= i < |ns| && ns[i] == n;
      assert ps[i].exact;
      forall j | 0 <= j < NicChoice(ns, k).value
        ensures ns[j].tcpSeq != k.tcpSeq
      {
        assert !ps[j].exact;
      }
    } else {
      forall j | 0 <= j < |ns|
        ensures ps[j] == NicProbes(l, ns)[j]
      {
        assert ns[j] in ns;
      }
      assert ps == NicProbes(l, ns);
    }
  }

  /** Dropping the oldest `d` candidates changes the answer only if it drops the answer:
      otherwise the search over the window finds the event that the search over everything
      finds, whichever stage found it, and finds nothing when that finds nothing. */
  lemma WindowAgrees(ps: seq<Probe>, ref: uint64, d: nat)
    requires d <= |ps|
    ensures Choice(ps, ref).None? ==> Choice(ps[d..], ref).None?
    ensures Choice(ps, ref).Some? && Choice(ps, ref).value >= d ==>
              Choice(ps[d..], ref) == Some(Choice(ps, ref).value - d)
  {}

  /** The kernel event and the NIC event of a user event: the chained search. */
  datatype Match = Match(k: UnifiedEvent, n: Option<UnifiedEvent>)

  ghost function MatchOf(ks: seq<UnifiedEvent>, ns: seq<UnifiedEvent>, u: UnifiedEvent): Option<Match> {
    match KernelChoice(ks, u)
    case None => None
    case Some(i) =>
      match NicChoice(ns, ks[i])
      case None => Some(Match(ks[i], None))
      case Some(j) => Some(Match(ks[i], Some(ns[j])))
  }

  /** Trimmed windows give a user event the match the full history gives it, whenever the
      chosen events have not been trimmed away. */
  lemma WindowedMatchAgrees(ks: seq<UnifiedEvent>, ns: seq<UnifiedEvent>, u: UnifiedEvent, dk: nat, dn: nat)
    requires dk <= |ks| && dn <= |ns|
    requires KernelChoice(ks, u).Some? ==>
               && KernelChoice(ks, u).value >= dk
               && (NicChoice(ns, ks[KernelChoice(ks, u).value]).Some? ==>
                     NicChoice(ns, ks[KernelChoice(ks, u).value]).value >= dn)
    ensures MatchOf(ks[dk..], ns[dn..], u) == MatchOf(ks, ns, u)
  {
    assert KernelProbes(u, ks)[dk..] == KernelProbes(u, ks[dk..]);
    WindowAgrees(KernelProbes(u, ks), u.tsUser, dk);
    if KernelChoice(ks, u).Some? {
      var k := ks[KernelChoice(ks, u).value];
      assert NicProbes(k, ns)[dn..] == NicProbes(k, ns[dn..]);
      WindowAgrees(NicProbes(k, ns), k.tsKernel, dn);
    }
  }

  /** A later reference never gets an earlier event, and whatever matches the earlier
      reference gives the later one a match. */
  lemma NearestIsMonotone(ps: seq<Probe>, ref: uint64, ref': uint64)
    requires ref <= ref'
    ensures Choice(ps, ref).Some? ==>
              Choice(ps, ref').Some? && ps[Choice(ps, ref).value].ts <= ps[Choice(ps, ref').value].ts
  {}

  /** What matches the earlier kernel event gives the later one a match that is no earlier. */
  ghost predicate NicTimesFollow(ns: seq<UnifiedEvent>, k: UnifiedEvent, k': UnifiedEvent) {
    NicChoice(ns, k).Some? ==>
      NicChoice(ns, k').Some? && ns[NicChoice(ns, k).value].tsNic <= ns[NicChoice(ns, k').value].tsNic
  }

  lemma EqualNumbersFollow(ns: seq<UnifiedEvent>, k: UnifiedEvent, k': UnifiedEvent)
    requires k.tsKernel <= k'.tsKernel && k.tcpSeq == k'.tcpSeq
    ensures NicTimesFollow(ns, k, k')
  {
    assert NicProbes(k, ns) == NicProbes(k', ns);
    NearestIsMonotone(NicProbes(k, ns), k.tsKernel, k'.tsKernel);
  }

  /** The second match is in no layer before the first; in the NIC layer that is promised for
      kernel events of equal sequence number. */
  predicate Follows(m: Match, m': Match) {
    && m.k.tsKernel <= m'.k.tsKernel
    && (m.k.tcpSeq == m'.k.tcpSeq && m.n.Some? ==> m'.n.Some? && m.n.value.tsNic <= m'.n.value.tsNic)
  }

  /** Timelines never cross. Of two user events that agree in TCP sequence number and socket
      pointer (the client gives every one of them zeros) the later never gets an earlier
      kernel time; and if the chosen kernel events agree in sequence number, never an
      earlier NIC time either. */
  lemma TimelinesNeverCross(ks: seq<UnifiedEvent>, ns: seq<UnifiedEvent>, u: UnifiedEvent, u': UnifiedEvent)
    requires u.tcpSeq == u'.tcpSeq && u.sockPtr == u'.sockPtr
    requires u.tsUser <= u'.tsUser
    requires MatchOf(ks, ns, u).Some?
    ensures MatchOf(ks, ns, u').Some?
    ensures Follows(MatchOf(ks, ns, u).value, MatchOf(ks, ns, u').value)
  {
    assert KernelProbes(u, ks) == KernelProbes(u', ks);
    NearestIsMonotone(KernelProbes(u, ks), u.tsUser, u'.tsUser);
    var m, m' := MatchOf(ks, ns, u).value, MatchOf(ks, ns, u').value;
    if m.k.tcpSeq == m'.k.tcpSeq {
      EqualNumbersFollow(ns, m.k, m'.k);
    }
  }

  function Stamped(kind: uint32, ts: uint64, tcpSeq: uint32): UnifiedEvent {
    UnifiedEvent(kind, 0, ts, ts, ts, 0, 0, 0, 0, -1, 0, tcpSeq, 0, 0, 0, 0, 0, "")
  }

  /** The capture stamps every event it pushes. */
  predicate AllStamped(ns: seq<UnifiedEvent>) {
    forall n | n in ns :: n.tsNic > 0
  }

  /** The two kernel times leave no room for stamped events in the wrong order. */
  predicate NoRoom(k: UnifiedEvent, k': UnifiedEvent) {
    || (k.tcpSeq == 0 && k.tsKernel <= 1)
    || (k'.tcpSeq == 0 && k'.tsKernel == 0xffff_ffff_ffff_ffff)
  }

  /** Different numbers spoil the order: both have exact matches in the wrong order, or the
      earlier one alone has one, in the future of both, or the later one has an exact match
      that is earlier than the other's nearest one. */
  lemma DifferentNumbersCross(k: UnifiedEvent, k': UnifiedEvent) returns (ns: seq<UnifiedEvent>)
    requires k.tsKernel <= k'.tsKernel && k.tcpSeq != k'.tcpSeq && !NoRoom(k, k')
    ensures AllStamped(ns) && !NicTimesFollow(ns, k, k')
  {
    if k.tcpSeq != 0 && k'.tcpSeq != 0 {
      ns := [Stamped(NIC, 1, k'.tcpSeq), Stamped(NIC, 2, k.tcpSeq)];
      ChoiceIsUnique(NicProbes(k, ns), k.tsKernel, Some(1), NicChoice(ns, k));
      ChoiceIsUnique(NicProbes(k', ns), k'.tsKernel, Some(0), NicChoice(ns, k'));
    } else if k.tcpSeq != 0 {
      ns := [Stamped(NIC, k'.tsKernel + 1, k.tcpSeq)];
      ChoiceIsUnique(NicProbes(k, ns), k.tsKernel, Some(0), NicChoice(ns, k));
      ChoiceIsUnique(NicProbes(k', ns), k'.tsKernel, None, NicChoice(ns, k'));
    } else {
      ns := [Stamped(NIC, 1, k'.tcpSeq), Stamped(NIC, k.tsKernel, 0)];
      ChoiceIsUnique(NicProbes(k, ns), k.tsKernel, Some(1), NicChoice(ns, k));
      ChoiceIsUnique(NicProbes(k', ns), k'.tsKernel, Some(0), NicChoice(ns, k'));
    }
  }

  lemma NoRoomToCross(ns: seq<UnifiedEvent>, k: UnifiedEvent, k': UnifiedEvent)
    requires k.tsKernel <= k'.tsKernel && NoRoom(k, k') && AllStamped(ns)
    ensures NicTimesFollow(ns, k, k')
  {
    var ps, ps' := NicProbes(k, ns), NicProbes(k', ns);
    forall i | 0 <= i < |ns|
      ensures ps[i].ts == ps'[i].ts == ns[i].tsNic > 0
    {
      assert ns[i] in ns;
    }
    if NicChoice(ns, k).Some? {
      var i := NicChoice(ns, k).value;
      assert ps'[i].exact || Eligible(ps'[i], k'.tsKernel);
    }
  }

  /** That condition is exact: over all lists of NIC events, as the capture stamps them, two
      kernel events get NIC times in their order if and only if they carry the same sequence
      number, or one of them lacks a number and stands at the very edge of the clock. */
  lemma NicTimesFollowExactly(k: UnifiedEvent, k': UnifiedEvent)
    requires k.tsKernel <= k'.tsKernel
    ensures (forall ns | AllStamped(ns) :: NicTimesFollow(ns, k, k')) <==> k.tcpSeq == k'.tcpSeq || NoRoom(k, k')
  {
    if k.tcpSeq == k'.tcpSeq || NoRoom(k, k') {
      forall ns | AllStamped(ns)
        ensures NicTimesFollow(ns, k, k')
      {
        if k.tcpSeq == k'.tcpSeq {
          EqualNumbersFollow(ns, k, k');
        } else {
          NoRoomToCross(ns, k, k');
        }
      }
    } else {
      var ns := DifferentNumbersCross(k, k');
    }
  }

  /** At the edge of the clock it takes an event without a time. */
  lemma UnstampedEventCrosses(k: UnifiedEvent, k': UnifiedEvent) returns (ns: seq<UnifiedEvent>)
    requires k.tcpSeq != k'.tcpSeq && (k.tcpSeq != 0 || k.tsKernel != 0)
    ensures !NicTimesFollow(ns, k, k')
  {
    if k.tcpSeq != 0 {
      ns := [Stamped(NIC, 0, k.tcpSeq)];
      ChoiceIsUnique(NicProbes(k, ns), k.tsKernel, Some(0), NicChoice(ns, k));
      ChoiceIsUnique(NicProbes(k', ns), k'.tsKernel, None, NicChoice(ns, k'));
    } else {
      ns := [Stamped(NIC, 0, k'.tcpSeq), Stamped(NIC, k.tsKernel, 0)];
      ChoiceIsUnique(NicProbes(k, ns), k.tsKernel, Some(1), NicChoice(ns, k));
      ChoiceIsUnique(NicProbes(k', ns), k'.tsKernel, Some(0), NicChoice(ns, k'));
    }
  }

  /** The same over all lists whatever, events without a time included. */
  lemma AnyNicTimesFollowExactly(k: UnifiedEvent, k': UnifiedEvent)
    requires k.tsKernel <= k'.tsKernel
    ensures (forall ns :: NicTimesFollow(ns, k, k')) <==>
            k.tcpSeq == k'.tcpSeq || (k.tcpSeq == 0 && k.tsKernel == 0)
  {
    if k.tcpSeq == k'.tcpSeq || (k.tcpSeq == 0 && k.tsKernel == 0) {
      forall ns
        ensures NicTimesFollow(ns, k, k')
      {
        if k.tcpSeq == k'.tcpSeq {
          EqualNumbersFollow(ns, k, k');
        } else {
          ChoiceIsUnique(NicProbes(k, ns), 0, None, NicChoice(ns, k));
        }
      }
    } else {
      var ns := UnstampedEventCrosses(k, k');
    }
  }

  /** Nearest-time matching orders the timestamps of a match. */
  lemma NearestMatchIsOrdered(ks: seq<UnifiedEvent>, ns: seq<UnifiedEvent>, u: UnifiedEvent)
    requires u.tcpSeq == 0 && MatchOf(ks, ns, u).Some?
    ensures var m := MatchOf(ks, ns, u).value;
            && 0 < m.k.tsKernel <= u.tsUser
            && (m.n.Some? && m.k.tcpSeq == 0 ==> 0 < m.n.value.tsNic <= m.k.tsKernel)
  {}
}
