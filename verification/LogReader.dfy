/** The script that reads latency logs back: six leftmost searches per line. */
module LogReader {
  import opened MachineWords
  import opened Options
  import opened LogFormat

  datatype Key = BnNic | NicKernel | KernelUser | Cpu | Msk | Total {
    function Name(): string {
      match this
      case BnNic => "BN->NIC"
      case NicKernel => "NIC->Kernel"
      case KernelUser => "Kernel->User"
      case Cpu => "CPU"
      case Msk => "MSK"
      case Total => "Total"
    }

    function Value(r: LogRecord): uint64 {
      match this
      case BnNic => r.bnToNic
      case NicKernel => r.nicToKernel
      case KernelUser => r.kernelToUser
      case Cpu => r.cpu
      case Msk => r.msk
      case Total => r.total
    }
  }

  predicate IsDigit(c: char) {
    '0' <= c <= '9'
  }

  predicate IsBreak(c: char) {
    c == '\n' || c == '\r'
  }

  /** Characters that occur in no match. */
  predicate Stops(c: char) {
    c == ' ' || IsBreak(c)
  }

  predicate StartsStopped(s: string) {
    s == "" || Stops(s[0])
  }

  /** The length of the run of digits a text starts with. */
  function DigitRun(s: string): (n: nat)
    ensures n <= |s|
    ensures forall i | 0 <= i < n :: IsDigit(s[i])
    ensures n < |s| ==> !IsDigit(s[n])
  {
    if s != "" && IsDigit(s[0]) then 1 + DigitRun(s[1..]) else 0
  }

  function DigitValue(c: char): nat
    requires IsDigit(c)
  {
    c as int - '0' as int
  }

  function Parse(digits: string): nat
    requires forall i | 0 <= i < |digits| :: IsDigit(digits[i])
  {
    if digits == "" then 0
    else 10 * Parse(digits[..|digits| - 1]) + DigitValue(digits[|digits| - 1])
  }

  /** The pattern `NAME=(\d+)ns` at the very start of a text. The digits are the whole run,
      since a shorter one would be followed by a digit where `ns` must stand. */
  function MatchHere(name: string, s: string): Option<nat> {
    if name + "=" <= s then
      var t := s[|name| + 1..];
      var n := DigitRun(t);
      if n > 0 && "ns" <= t[n..] then Some(Parse(t[..n])) else None
    else None
  }

  /** The leftmost match. */
  function Search(name: string, s: string): Option<nat> {
    if s == "" then None
    else if MatchHere(name, s).Some? then MatchHere(name, s)
    else Search(name, s[1..])
  }

  /** The length of the first line, its terminator included. */
  function FirstLine(text: string): (n: nat)
    ensures n <= |text|
    ensures text != "" ==> n > 0
  {
    if text == "" then 0
    else if IsBreak(text[0]) then 1
    else 1 + FirstLine(text[1..])
  }

  /** A line runs to the first line feed or carriage return, or to the end of the text. */
  lemma {:induction false} LineEndsAtBreak(text: string)
    ensures var n := FirstLine(text);
            && (forall i | 0 <= i < n - 1 :: text[i] != '\n' && text[i] != '\r')
            && (n < |text| ==> n > 0 && (text[n - 1] == '\n' || text[n - 1] == '\r'))
            && (n > 0 && text[n - 1] != '\n' && text[n - 1] != '\r' ==> n == |text|)
  {
    if text == "" || IsBreak(text[0]) {
    } else {
      var rest := text[1..];
      LineEndsAtBreak(rest);
      forall i | 0 < i < |text|
        ensures text[i] == rest[i - 1]
      {
      }
    }
  }

  function Listed(o: Option<nat>): seq<nat> {
    match o
    case None => []
    case Some(v) => [v]
  }

  /** The list a script run collects for one key. */
  function Collect(name: string, text: string): seq<nat>
    decreases |text|
  {
    if text == "" then []
    else
      var n := FirstLine(text);
      Listed(Search(name, text[..n])) + Collect(name, text[n..])
  }

  datatype Data = Data(
    bnNic: seq<nat>, nicKernel: seq<nat>, kernelUser: seq<nat>,
    cpu: seq<nat>, msk: seq<nat>, total: seq<nat>)
  {
    function List(k: Key): seq<nat> {
      match k
      case BnNic => bnNic
      case NicKernel => nicKernel
      case KernelUser => kernelUser
      case Cpu => cpu
      case Msk => msk
      case Total => total
    }
  }

  /** Searches one line for one key and appends what it finds. */
  method Extract(name: string, line: string, list: seq<nat>) returns (r: seq<nat>)
    ensures r == list + Listed(Search(name, line))
  {
    r := list;
    var m := Search(name, line);
    if m.Some? {
      r := r + [m.value];
    }
  }

  /** With the list collected so far and the rest of the text the script is on its way. */
  ghost predicate OnTheWay(name: string, list: seq<nat>, rest: string, text: string) {
    list + Collect(name, rest) == Collect(name, text)
  }

  lemma WayBegins(name: string, text: string)
    ensures OnTheWay(name, [], text, text)
  {}

  lemma WayGoesOn(name: string, list: seq<nat>, rest: string, text: string)
    requires rest != "" && OnTheWay(name, list, rest, text)
    ensures var n := FirstLine(rest); OnTheWay(name, list + Listed(Search(name, rest[..n])), rest[n..], text)
  {
    var n := FirstLine(rest);
    var found, more := Listed(Search(name, rest[..n])), Collect(name, rest[n..]);
    hide FirstLine, Search, Listed;
    assert Collect(name, rest) == found + more;
    assert list + (found + more) == (list + found) + more;
  }

  lemma WayEnds(name: string, list: seq<nat>, text: string)
    requires OnTheWay(name, list, "", text)
    ensures list == Collect(name, text)
  {}

  method ParseLatencyLog(text: string) returns (data: Data)
    ensures forall k: Key :: data.List(k) == Collect(k.Name(), text)
  {
    hide Key.Name, Search, Collect, Listed, FirstLine, OnTheWay;
    var bnNic, nicKernel, kernelUser: seq<nat> := [], [], [];
    var cpu, msk, total: seq<nat> := [], [], [];
    var rest := text;
    forall k: Key
      ensures OnTheWay(k.Name(), [], text, text)
    {
      WayBegins(k.Name(), text);
    }
    while rest != ""
      invariant OnTheWay(BnNic.Name(), bnNic, rest, text)
      invariant OnTheWay(NicKernel.Name(), nicKernel, rest, text)
      invariant OnTheWay(KernelUser.Name(), kernelUser, rest, text)
      invariant OnTheWay(Cpu.Name(), cpu, rest, text)
      invariant OnTheWay(Msk.Name(), msk, rest, text)
      invariant OnTheWay(Total.Name(), total, rest, text)
      decreases |rest|
    {
      WayGoesOn(BnNic.Name(), bnNic, rest, text);
      WayGoesOn(NicKernel.Name(), nicKernel, rest, text);
      WayGoesOn(KernelUser.Name(), kernelUser, rest, text);
      WayGoesOn(Cpu.Name(), cpu, rest, text);
      WayGoesOn(Msk.Name(), msk, rest, text);
      WayGoesOn(Total.Name(), total, rest, text);
      var n := FirstLine(rest);
      var line := rest[..n];
      bnNic := Extract(BnNic.Name(), line, bnNic);
      nicKernel := Extract(NicKernel.Name(), line, nicKernel);
      kernelUser := Extract(KernelUser.Name(), line, kernelUser);
      cpu := Extract(Cpu.Name(), line, cpu);
      msk := Extract(Msk.Name(), line, msk);
      total := Extract(Total.Name(), line, total);
      rest := rest[n..];
    }
    data := Data(bnNic, nicKernel, kernelUser, cpu, msk, total);
    forall k: Key
      ensures data.List(k) == Collect(k.Name(), text)
    {
      WayEnds(k.Name(), data.List(k), text);
    }
  }
}
