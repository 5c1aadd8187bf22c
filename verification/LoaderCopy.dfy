/** The eBPF loader copies the bytes of its own record layout over the differently
    laid out shared record. Little-endian, with every field at its natural alignment. */
module LoaderCopy {
  import opened MachineWords

  type Bytes = seq<uint8>

  const UNIFIED_SIZE: nat := 640

  function Le16(b: Bytes, i: nat): uint16
    requires i + 2 <= |b|
  {
    b[i] as int + 0x100 * (b[i + 1] as int)
  }

  function Le32(b: Bytes, i: nat): uint32
    requires i + 4 <= |b|
  {
    Le16(b, i) as int + 0x1_0000 * (Le16(b, i + 2) as int)
  }

  function Le64(b: Bytes, i: nat): uint64
    requires i + 8 <= |b|
  {
    Le32(b, i) as int + 0x1_0000_0000 * (Le32(b, i + 4) as int)
  }

  function Signed(x: uint32): int32 {
    if x < 0x8000_0000 then x else x - 0x1_0000_0000
  }

  /** The numeric fields the two records share by name. */
  datatype Fields = Fields(
    kind: uint32, seqNo: uint64, tsNic: uint64, tsKernel: uint64, tsUser: uint64,
    sockFd: int32, sockPtr: uint64, tcpSeq: uint32, pid: uint32, pktLen: uint32, dataLen: uint32,
    srcPort: uint16, dstPort: uint16)

  /** Read as the loader's record; its 512 payload bytes start at 76. */
  function BpfFields(b: Bytes): Fields
    requires |b| >= UNIFIED_SIZE
  {
    Fields(Le32(b, 0), Le64(b, 8), Le64(b, 16), Le64(b, 24), Le64(b, 32), Signed(Le32(b, 40)), Le64(b, 48),
           Le32(b, 56), Le32(b, 60), Le32(b, 64), Le32(b, 68), Le16(b, 72), Le16(b, 74))
  }

  /** Read as the shared record, which has four more timestamps after `tsUser`. */
  function UnifiedFields(b: Bytes): Fields
    requires |b| >= UNIFIED_SIZE
  {
    Fields(Le32(b, 0), Le64(b, 8), Le64(b, 16), Le64(b, 24), Le64(b, 32), Signed(Le32(b, 72)), Le64(b, 80),
           Le32(b, 88), Le32(b, 92), Le32(b, 96), Le32(b, 100), Le16(b, 104), Le16(b, 106))
  }

  /** A C compiler puts a field of this size at this offset when the one before ends at `end`:
      the next offset that is aligned to the size. */
  predicate Placed(end: nat, size: nat, offset: nat) {
    && end <= offset < end + size
    && ((size == 2 && offset % 2 == 0) || (size == 4 && offset % 4 == 0) || (size == 8 && offset % 8 == 0))
  }

  /** The four timestamps of the shared record that the other lacks. */
  function TsUserEpoch(b: Bytes): uint64
    requires |b| >= UNIFIED_SIZE
  {
    Le64(b, 40)
  }

  function TsDeserialized(b: Bytes): uint64
    requires |b| >= UNIFIED_SIZE
  {
    Le64(b, 48)
  }

  function SrcSend(b: Bytes): uint64
    requires |b| >= UNIFIED_SIZE
  {
    Le64(b, 56)
  }

  function TsMskSend(b: Bytes): uint64
    requires |b| >= UNIFIED_SIZE
  {
    Le64(b, 64)
  }

  /** The numeric fields of the loader's record, in order of declaration. */
  lemma LoaderLayout()
    ensures
      && Placed(0, 4, 0) && Placed(4, 8, 8) && Placed(16, 8, 16) && Placed(24, 8, 24)
      && Placed(32, 8, 32) && Placed(40, 4, 40) && Placed(44, 8, 48) && Placed(56, 4, 56)
      && Placed(60, 4, 60) && Placed(64, 4, 64) && Placed(68, 4, 68) && Placed(72, 2, 72)
      && Placed(74, 2, 74)
  {}

  /** And those of the shared one. */
  lemma UnifiedLayout()
    ensures
      && Placed(0, 4, 0) && Placed(4, 8, 8) && Placed(16, 8, 16) && Placed(24, 8, 24)
      && Placed(32, 8, 32) && Placed(40, 8, 40) && Placed(48, 8, 48) && Placed(56, 8, 56)
      && Placed(64, 8, 64) && Placed(72, 4, 72) && Placed(76, 8, 80) && Placed(88, 4, 88)
      && Placed(92, 4, 92) && Placed(96, 4, 96) && Placed(100, 4, 100) && Placed(104, 2, 104)
      && Placed(106, 2, 106)
  {}

  /** Both readings look there, in order of declaration. */
  lemma BpfFieldsAreInPlace(b: Bytes)
    requires |b| >= UNIFIED_SIZE
    ensures var f := BpfFields(b);
            && f.kind == Le32(b, 0) && f.seqNo == Le64(b, 8)
            && f.tsNic == Le64(b, 16) && f.tsKernel == Le64(b, 24) && f.tsUser == Le64(b, 32)
            && f.sockFd == Signed(Le32(b, 40)) && f.sockPtr == Le64(b, 48)
            && f.tcpSeq == Le32(b, 56) && f.pid == Le32(b, 60) && f.pktLen == Le32(b, 64) && f.dataLen == Le32(b, 68)
            && f.srcPort == Le16(b, 72) && f.dstPort == Le16(b, 74)
  {
    hide Le16, Le32, Le64, Signed;
  }

  lemma UnifiedFieldsAreInPlace(b: Bytes)
    requires |b| >= UNIFIED_SIZE
    ensures var f := UnifiedFields(b);
            && f.kind == Le32(b, 0) && f.seqNo == Le64(b, 8)
            && f.tsNic == Le64(b, 16) && f.tsKernel == Le64(b, 24) && f.tsUser == Le64(b, 32)
            && TsUserEpoch(b) == Le64(b, 40) && TsDeserialized(b) == Le64(b, 48)
            && SrcSend(b) == Le64(b, 56) && TsMskSend(b) == Le64(b, 64)
            && f.sockFd == Signed(Le32(b, 72)) && f.sockPtr == Le64(b, 80)
            && f.tcpSeq == Le32(b, 88) && f.pid == Le32(b, 92) && f.pktLen == Le32(b, 96) && f.dataLen == Le32(b, 100)
            && f.srcPort == Le16(b, 104) && f.dstPort == Le16(b, 106)
  {
    hide Le16, Le32, Le64, Signed;
  }

  /** The copy: `record` is the memory at the loader's record, 592 bytes of it and what
      happens to follow. */
  method HandleEvent(record: Bytes) returns (unified: Bytes)
    requires |record| >= UNIFIED_SIZE
    ensures unified == record[..UNIFIED_SIZE]
  {
    unified := [];
    for i := 0 to UNIFIED_SIZE
      invariant unified == record[..i]
    {
      unified := unified + [record[i]];
    }
  }

  lemma CopyReadsAlike(record: Bytes, i: nat)
    requires |record| >= UNIFIED_SIZE && i + 4 <= UNIFIED_SIZE
    ensures Le32(record[..UNIFIED_SIZE], i) == Le32(record, i)
    ensures Le16(record[..UNIFIED_SIZE], i) == Le16(record, i)
    ensures i + 8 <= UNIFIED_SIZE ==> Le64(record[..UNIFIED_SIZE], i) == Le64(record, i)
  {}

  lemma HalvesOf32(b: Bytes, i: nat)
    requires i + 4 <= |b|
    ensures Le32(b, i) == Le16(b, i) + 0x1_0000 * Le16(b, i + 2)
  {}

  lemma LowHalf(b: Bytes, i: nat)
    requires i + 8 <= |b|
    ensures Le64(b, i) % TWO_32 == Le32(b, i)
  {
    hide Le32;
  }

  /** What arrives: kind, number and the three layer timestamps are right, and everything else
      is misplaced. The descriptor becomes the low half of the user epoch time, the socket
      pointer the deserialization time, sequence number and process the sender's time, the
      two lengths the completion time, and the two ports the descriptor. */
  lemma WhatTheCopyKeeps(record: Bytes)
    requires |record| >= UNIFIED_SIZE
    ensures var b := record[..UNIFIED_SIZE];
            var u, e := UnifiedFields(b), BpfFields(record);
            && u.kind == e.kind && u.seqNo == e.seqNo
            && u.tsNic == e.tsNic && u.tsKernel == e.tsKernel && u.tsUser == e.tsUser
            && Signed(TsUserEpoch(b) % TWO_32) == e.sockFd
            && TsDeserialized(b) == e.sockPtr
            && SrcSend(b) == e.tcpSeq + TWO_32 * e.pid
            && TsMskSend(b) == e.pktLen + TWO_32 * e.dataLen
            && u.sockFd == Signed(e.srcPort + 0x1_0000 * e.dstPort)
  {
    forall i | 0 <= i && i + 4 <= UNIFIED_SIZE
      ensures Le32(record[..UNIFIED_SIZE], i) == Le32(record, i)
    {
      CopyReadsAlike(record, i);
    }
    CopyReadsAlike(record, 8);
    CopyReadsAlike(record, 16);
    CopyReadsAlike(record, 24);
    CopyReadsAlike(record, 32);
    CopyReadsAlike(record, 48);
    LowHalf(record[..UNIFIED_SIZE], 40);
    hide Le16;
    assert Le32(record, 72) == Le16(record, 72) + 0x1_0000 * Le16(record, 74) by { HalvesOf32(record, 72); }
    assert SrcSend(record[..UNIFIED_SIZE]) == Le32(record, 56) + TWO_32 * Le32(record, 60);
    assert TsMskSend(record[..UNIFIED_SIZE]) == Le32(record, 64) + TWO_32 * Le32(record, 68);
    hide Le32, Le64;
  }

  /** Socket pointer and sequence number come from the payload, which the probe never
      writes: where it is zero both are zero, whatever socket the record names. */
  lemma SocketComesFromPayload(record: Bytes)
    requires |record| >= UNIFIED_SIZE
    requires forall i | 76 <= i < 588 :: record[i] == 0
    ensures var u := UnifiedFields(record[..UNIFIED_SIZE]);
            u.sockPtr == 0 && u.tcpSeq == 0 && u.pid == 0
    ensures UnifiedFields(record[..UNIFIED_SIZE]).sockPtr == BpfFields(record).sockPtr <==>
            BpfFields(record).sockPtr == 0
  {}
}
