/** The WebSocket message callback: how user-space events are made and numbered. */
module MessageHandler {
  import opened MachineWords
  import opened Events

  const MAX_DATA_SIZE: uint32 := 512

  /** What one callback observes: clock readings, and what the JSON library extracts.
      `eventTimeMs` is 0 when the payload carries no event time. */
  datatype Message = Message(
    tsUser: uint64,
    tsUserEpoch: uint64,
    tsDeserialized: uint64,
    tsMskSend: uint64,
    eventTimeMs: uint64,
    payloadLength: uint64,
    symbol: string)

  function UserEvent(m: Message, seqNo: uint64, sockFd: int32, pid: uint32): UnifiedEvent {
    var length: uint32 := m.payloadLength % TWO_32;
    UnifiedEvent(
      USERSPACE, seqNo, 0, 0, m.tsUser, m.tsUserEpoch, m.tsDeserialized,
      m.eventTimeMs * 1000000 % TWO_64, m.tsMskSend, sockFd, 0, 0, pid, 0,
      if length < MAX_DATA_SIZE - 1 then length else MAX_DATA_SIZE - 1, 0, 0, m.symbol)
  }

  /** What an event of the callback carries of its message, and what it cannot carry. */
  lemma UserEventCarries(m: Message, seqNo: uint64, sockFd: int32, pid: uint32)
    ensures var ev := UserEvent(m, seqNo, sockFd, pid);
            && ev.kind == USERSPACE == 3 && ev.seqNo == seqNo && ev.symbol == m.symbol
            && ev.tsUser == m.tsUser && ev.tsUserEpoch == m.tsUserEpoch
            && ev.tsDeserialized == m.tsDeserialized && ev.tsMskSend == m.tsMskSend
            && ev.srcSend == m.eventTimeMs * 1000000 % TWO_64
            && ev.tcpSeq == 0 && ev.sockPtr == 0 && ev.sockFd == sockFd && ev.pid == pid
  {}

  class Handler {
    var nextSeqNo: uint64
    const sockFd: int32
    const pid: uint32

    constructor (sockFd: int32, pid: uint32)
      ensures nextSeqNo == 1 && this.sockFd == sockFd && this.pid == pid
    {
      nextSeqNo := 1;
      this.sockFd, this.pid := sockFd, pid;
    }

    /** The event handed to the shared queue. Its number is the next one, used up even if the
        queue is full; it carries the clock readings but no kernel or NIC time, no sequence
        number and no socket, so it can only be matched by time; the exchange time comes in
        nanoseconds, and at most 511 payload bytes fit. */
    method OnMessage(m: Message) returns (ev: UnifiedEvent)
      modifies this
      ensures ev == UserEvent(m, old(nextSeqNo), sockFd, pid)
      ensures ev.kind == USERSPACE && ev.seqNo == old(nextSeqNo)
      ensures ev.tsUser == m.tsUser && ev.tsUserEpoch == m.tsUserEpoch
      ensures ev.tsDeserialized == m.tsDeserialized && ev.tsMskSend == m.tsMskSend
      ensures ev.sockFd == sockFd && ev.pid == pid && ev.symbol == m.symbol
      ensures ev.pktLen == 0 && ev.srcPort == 0 && ev.dstPort == 0
      ensures ev.tsKernel == 0 && ev.tsNic == 0 && ev.tcpSeq == 0 && ev.sockPtr == 0
      ensures m.eventTimeMs <= (TWO_64 - 1) / 1000000 ==> ev.srcSend == m.eventTimeMs * 1000000
      ensures ev.dataLen <= 511 && ev.dataLen <= m.payloadLength
      ensures m.payloadLength <= 511 ==> ev.dataLen == m.payloadLength
      ensures nextSeqNo == Add64(old(nextSeqNo), 1)
    {
      var seqNo := nextSeqNo;
      nextSeqNo := Add64(nextSeqNo, 1);
      var srcSend := m.eventTimeMs * 1000000 % TWO_64;
      var dataLen: uint32 := m.payloadLength % TWO_32;
      if MAX_DATA_SIZE - 1 < dataLen {
        dataLen := MAX_DATA_SIZE - 1;
      }
      ev := UnifiedEvent(
        USERSPACE, seqNo, 0, 0, m.tsUser, m.tsUserEpoch, m.tsDeserialized, srcSend, m.tsMskSend,
        sockFd, 0, 0, pid, 0, dataLen, 0, 0, m.symbol);
    }

    /** A run of callbacks from a fresh handler numbers its events 1, 2, 3, ... */
    method OnMessages(ms: seq<Message>) returns (evs: seq<UnifiedEvent>)
      requires nextSeqNo == 1 && |ms| < TWO_64 - 1
      modifies this
      ensures evs == UserEvents(ms, sockFd, pid)
    {
      evs := [];
      for i := 0 to |ms|
        invariant nextSeqNo == i + 1
        invariant evs == UserEvents(ms[..i], sockFd, pid)
      {
        var ev := OnMessage(ms[i]);
        evs := evs + [ev];
      }
      assert ms[..|ms|] == ms;
    }
  }

  /** The events of the first messages, before the number wraps. */
  function UserEvents(ms: seq<Message>, sockFd: int32, pid: uint32): seq<UnifiedEvent>
    requires |ms| < TWO_64 - 1
  {
    seq(|ms|, i requires 0 <= i < |ms| => UserEvent(ms[i], i + 1, sockFd, pid))
  }
}
