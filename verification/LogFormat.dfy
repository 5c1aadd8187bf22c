/** The text of a latency log line. */
module LogFormat {
  import opened MachineWords

  datatype LogRecord = LogRecord(
    seqNo: uint64,
    tcpSeq: uint32,
    symbol: string,
    bnToNic: uint64,
    nicToKernel: uint64,
    kernelToUser: uint64,
    cpu: uint64,
    msk: uint64,
    total: uint64)

  function Digit(d: nat): char
    requires d < 10
  {
    '0' + d as char
  }

  function Decimal(n: nat): string {
    if n < 10 then [Digit(n)] else Decimal(n / 10) + [Digit(n % 10)]
  }

  function Field(key: string, n: nat): string {
    " " + key + "=" + Decimal(n) + "ns"
  }

  function Head(r: LogRecord): string {
    "seq=" + Decimal(r.seqNo) + " tcp_seq=" + Decimal(r.tcpSeq) + " symbol="
  }

  function Fields(r: LogRecord): string {
    Field("BN->NIC", r.bnToNic) + Field("NIC->Kernel", r.nicToKernel) + Field("Kernel->User", r.kernelToUser)
    + Field("CPU", r.cpu) + Field("MSK", r.msk) + Field("Total", r.total)
  }

  function Line(r: LogRecord): string {
    Head(r) + r.symbol + Fields(r) + "\n"
  }

  function Concat(lines: seq<string>): string {
    if lines == [] then "" else lines[0] + Concat(lines[1..])
  }

  function Lines(rs: seq<LogRecord>): seq<string> {
    seq(|rs|, i requires 0 <= i < |rs| => Line(rs[i]))
  }
}
