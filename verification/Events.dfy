/** The event record shared by the three capture layers. */
module Events {
  import opened MachineWords

  const NIC: uint32 := 1
  const KERNEL: uint32 := 2
  const USERSPACE: uint32 := 3

  /** `symbol` stands for what the JSON library extracts from the payload bytes
      ("UNKNOWN" when it finds nothing). */
  datatype UnifiedEvent = UnifiedEvent(
    kind: uint32,
    seqNo: uint64,
    tsNic: uint64,
    tsKernel: uint64,
    tsUser: uint64,
    tsUserEpoch: uint64,
    tsDeserialized: uint64,
    srcSend: uint64,
    tsMskSend: uint64,
    sockFd: int32,
    sockPtr: uint64,
    tcpSeq: uint32,
    pid: uint32,
    pktLen: uint32,
    dataLen: uint32,
    srcPort: uint16,
    dstPort: uint16,
    symbol: string)

  /** The events of one kind, in order. */
  function OfKind(evs: seq<UnifiedEvent>, kind: uint32): seq<UnifiedEvent> {
    if evs == [] then []
    else
      var rest, ev := OfKind(evs[..|evs| - 1], kind), evs[|evs| - 1];
      if ev.kind == kind then rest + [ev] else rest
  }

  ghost predicate IsSuffix<T(!new)>(w: seq<T>, full: seq<T>) {
    |w| <= |full| && w == full[|full| - |w|..]
  }

  function LastN<T>(s: seq<T>, n: nat): seq<T> {
    if |s| > n then s[|s| - n..] else s
  }
}
