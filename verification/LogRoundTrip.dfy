/** What the log writer prints, the log reader recovers. */
module LogRoundTrip {
  import opened MachineWords
  import opened Options
  import opened LogFormat
  import opened LogReader

  // ---- Decimal numbers ----

  lemma {:induction false} DecimalDigits(n: nat)
    ensures Decimal(n) != "" && forall i | 0 <= i < |Decimal(n)| :: IsDigit(Decimal(n)[i])
  {
    if n >= 10 {
      DecimalDigits(n / 10);
    }
  }

  lemma {:induction false} ParseDecimal(n: nat)
    ensures (forall i | 0 <= i < |Decimal(n)| :: IsDigit(Decimal(n)[i])) && Parse(Decimal(n)) == n
  {
    DecimalDigits(n);
    if n >= 10 {
      ParseDecimal(n / 10);
      assert Decimal(n)[..|Decimal(n)| - 1] == Decimal(n / 10);
    } else {
      assert Decimal(n)[..0] == "";
    }
  }

  function Pow10(n: nat): nat {
    if n == 0 then 1 else 10 * Pow10(n - 1)
  }

  lemma ParseLast(digits: string, c: char)
    requires IsDigit(c) && forall i | 0 <= i < |digits| :: IsDigit(digits[i])
    ensures Parse(digits + [c]) == 10 * Parse(digits) + DigitValue(c)
  {
    assert (digits + [c])[..|digits|] == digits;
  }

  lemma Peel(c: char, digits: string)
    requires digits != ""
    ensures var n := |digits| - 1;
            digits == digits[..n] + [digits[n]] && [c] + digits == ([c] + digits[..n]) + [digits[n]]
  {}

  lemma ParseOneDigit(c: char)
    requires '0' <= c <= '9'
    ensures Parse([c] + "") == c as int - 48 && Parse("") == 0
  {
    ParseLast("", c);
    assert [c] + "" == "" + [c];
  }

  /** Numerals are read with the most significant digit first, '0' to '9' as 0 to 9. */
  lemma {:induction false} ParseIsPositional(c: char, digits: string)
    requires '0' <= c <= '9' && forall i | 0 <= i < |digits| :: '0' <= digits[i] <= '9'
    ensures Parse([c] + digits) == (c as int - 48) * Pow10(|digits|) + Parse(digits)
  {
    hide Parse;
    if digits == "" {
      ParseOneDigit(c);
    } else {
      var n := |digits| - 1;
      var front, last := digits[..n], digits[n];
      assert Pow10(n + 1) == 10 * Pow10(n);
      hide Pow10;
      Peel(c, digits);
      ParseIsPositional(c, front);
      ParseLast([c] + front, last);
      ParseLast(front, last);
      Scaled(c as int - 48, Pow10(n), Parse(front), DigitValue(last));
    }
  }

  lemma Scaled(d: int, p: int, x: int, y: int)
    ensures 10 * (d * p + x) + y == d * (10 * p) + (10 * x + y)
  {
    assert d * (10 * p) == 10 * (d * p);
  }

  lemma {:induction false} RunOfDigits(d: string, s: string)
    requires (forall i | 0 <= i < |d| :: IsDigit(d[i])) && (s == "" || !IsDigit(s[0]))
    ensures DigitRun(d + s) == |d|
  {
    if d == "" {
      assert d + s == s;
    } else {
      assert (d + s)[1..] == d[1..] + s;
      RunOfDigits(d[1..], s);
    }
  }

  // ---- Searching ----

  /** At position `i` of a text stand the name, a '=', these digits and "ns". */
  ghost predicate MatchesAt(name: string, s: string, i: nat, digits: string) {
    && i <= |s| && name + "=" + digits + "ns" <= s[i..]
    && digits != "" && forall j | 0 <= j < |digits| :: '0' <= digits[j] <= '9'
  }

  lemma MatchHereMatches(name: string, s: string) returns (digits: string)
    requires MatchHere(name, s).Some?
    ensures MatchesAt(name, s, 0, digits) && MatchHere(name, s) == Some(Parse(digits))
  {
    var k := name + "=";
    var t := s[|k|..];
    var n := DigitRun(t);
    digits := t[..n];
    assert "ns" <= t[n..];
    assert k + digits + "ns" == k + (digits + "ns");
    assert s == k + (digits + ("ns" + t[n + 2..]));
  }

  /** The digits of a match are the whole run: no shorter run is followed by "ns". */
  lemma MatchIsMatchedHere(name: string, s: string, digits: string)
    requires MatchesAt(name, s, 0, digits)
    ensures MatchHere(name, s) == Some(Parse(digits))
  {
    var k := name + "=";
    var rest := s[|k| + |digits| + 2..];
    assert s[0..] == s;
    assert s == (k + digits + "ns") + rest == k + (digits + ("ns" + rest));
    var t := s[|k|..];
    assert t == digits + ("ns" + rest);
    RunOfDigits(digits, "ns" + rest);
    assert t[..|digits|] == digits && t[|digits|..] == "ns" + rest;
  }

  lemma MatchOneOn(name: string, s: string, i: nat, digits: string)
    requires s != ""
    ensures MatchesAt(name, s, i + 1, digits) <==> MatchesAt(name, s[1..], i, digits)
  {
    assert i + 1 <= |s| ==> s[1..][i..] == s[i + 1..];
  }

  /** A search answers with the number at the leftmost place where the pattern
      `NAME=(digits)ns` matches, and with None exactly when it matches nowhere. */
  lemma {:induction false} SearchFindsLeftmost(name: string, s: string) returns (i: nat, digits: string)
    ensures Search(name, s).None? ==> forall j: nat, ds :: !MatchesAt(name, s, j, ds)
    ensures Search(name, s).Some? ==>
              && MatchesAt(name, s, i, digits) && Search(name, s) == Some(Parse(digits))
              && forall j: nat, ds | j < i :: !MatchesAt(name, s, j, ds)
  {
    i, digits := 0, "";
    if s == "" {
    } else if MatchHere(name, s).Some? {
      digits := MatchHereMatches(name, s);
    } else {
      var i', digits' := SearchFindsLeftmost(name, s[1..]);
      hide MatchHere, Parse, MatchesAt;
      forall j: nat, ds | MatchesAt(name, s, j, ds)
        ensures j > 0 && MatchesAt(name, s[1..], j - 1, ds)
      {
        if j == 0 {
          MatchIsMatchedHere(name, s, ds);
        } else {
          MatchOneOn(name, s, j - 1, ds);
        }
      }
      if Search(name, s).Some? {
        MatchOneOn(name, s, i', digits');
        i, digits := i' + 1, digits';
      }
    }
  }

  /** A name free of blanks, line breaks and '=', as all six are. */
  predicate IsName(name: string) {
    name != "" && '=' !in name && forall i | 0 <= i < |name| :: !Stops(name[i])
  }

  lemma KeysAreNames(k: Key)
    ensures IsName(k.Name())
  {}

  predicate EndsWith(p: string, name: string) {
    |name| <= |p| && p[|p| - |name|..] == name
  }

  lemma {:induction false} RunStopsAt(t: string, r: string)
    requires StartsStopped(r)
    ensures DigitRun(t + r) == DigitRun(t)
  {
    if t == "" {
      assert t + r == r;
    } else {
      assert (t + r)[1..] == t[1..] + r;
      RunStopsAt(t[1..], r);
    }
  }

  lemma PrefixStops(k: string, a: string, r: string)
    requires StartsStopped(r) && forall i | 0 <= i < |k| :: !Stops(k[i])
    ensures k <= a + r <==> k <= a
  {
    assert |k| <= |a| ==> (a + r)[..|k|] == a[..|k|];
    assert r != "" ==> (a + r)[|a|] == r[0];
  }

  lemma SplitAt(t: string, r: string, n: nat)
    requires n <= |t|
    ensures (t + r)[..n] == t[..n] && (t + r)[n..] == t[n..] + r
  {}

  lemma ValueStops(t: string, r: string)
    requires StartsStopped(r)
    ensures var n := DigitRun(t);
            && DigitRun(t + r) == n
            && (t + r)[..n] == t[..n]
            && ("ns" <= (t + r)[n..] <==> "ns" <= t[n..])
  {
    var n := DigitRun(t);
    RunStopsAt(t, r);
    hide DigitRun, StartsStopped;
    SplitAt(t, r, n);
    PrefixStops("ns", t[n..], r);
  }

  /** A match contains no blank and no line break, so it ends before one. */
  lemma MatchHereStops(name: string, a: string, r: string)
    requires IsName(name) && a != "" && StartsStopped(r)
    ensures MatchHere(name, a + r) == MatchHere(name, a)
  {
    var k := name + "=";
    PrefixStops(k, a, r);
    if k <= a {
      hide DigitRun, Parse, IsName, StartsStopped;
      SplitAt(a, r, |k|);
      ValueStops(a[|k|..], r);
    }
  }

  /** Searching across a blank or a line break: first one side, then the other. */
  lemma {:induction false} SearchSplits(name: string, a: string, r: string)
    requires IsName(name) && StartsStopped(r)
    ensures Search(name, a + r) == if Search(name, a).Some? then Search(name, a) else Search(name, r)
  {
    if a == "" {
      assert a + r == r;
    } else {
      MatchHereStops(name, a, r);
      assert (a + r)[1..] == a[1..] + r;
      SearchSplits(name, a[1..], r);
    }
  }

  lemma NotHere(name: string, p: string, t: string)
    requires IsName(name) && '=' !in p && !EndsWith(p, name)
    ensures !(name + "=" <= p + "=" + t)
  {
    var s, k := p + "=" + t, name + "=";
    assert k[|name|] == '=' && s[|p|] == '=';
    if |name| < |p| {
      assert s[|name|] == p[|name|];
    } else if |name| == |p| {
      assert p[0..] == p == s[..|p|] && k[..|p|] == name;
    } else {
      assert k[|p|] == name[|p|];
    }
  }

  /** No match begins in front of a '=' that the name does not end at. */
  lemma {:induction false} SearchSkips(name: string, p: string, t: string)
    requires IsName(name) && '=' !in p && !EndsWith(p, name)
    ensures Search(name, p + "=" + t) == Search(name, t)
  {
    NotHere(name, p, t);
    if p == "" {
      assert (p + "=" + t)[1..] == t;
    } else {
      assert (p + "=" + t)[1..] == p[1..] + "=" + t;
      assert |name| < |p| ==> p[|p| - |name|..] == p[1..][|p| - 1 - |name|..];
      SearchSkips(name, p[1..], t);
    }
  }

  lemma {:induction false} NoEqualsNoMatch(name: string, s: string)
    requires '=' !in s
    ensures Search(name, s) == None
  {
    if s == "" {
    } else {
      assert (name + "=")[|name|] == '=';
      NoEqualsNoMatch(name, s[1..]);
    }
  }

  lemma NamesDoNotNest(k: Key, f: Key)
    requires k != f
    ensures !EndsWith(" " + f.Name(), k.Name())
  {
    LastTwo(" " + f.Name(), k.Name());
  }

  lemma PrintedValueMatches(name: string, v: nat)
    ensures MatchHere(name, name + "=" + (Decimal(v) + "ns")) == Some(v)
  {
    hide Decimal, DigitRun, Parse;
    var d := Decimal(v);
    var t := d + "ns";
    var here := name + "=" + t;
    DecimalDigits(v);
    assert here[..|name| + 1] == name + "=" && here[|name| + 1..] == t;
    RunOfDigits(d, "ns");
    assert t[..|d|] == d && t[|d|..] == "ns";
    ParseDecimal(v);
  }

  lemma NoMatchAtBlank(name: string, s: string)
    requires IsName(name)
    ensures MatchHere(name, " " + s).None?
  {
    assert (name + "=")[0] == name[0];
  }

  lemma OwnFieldAnswers(name: string, v: nat)
    requires IsName(name)
    ensures Search(name, Field(name, v)) == Some(v)
  {
    hide Decimal, MatchHere;
    var here := name + "=" + (Decimal(v) + "ns");
    PrintedValueMatches(name, v);
    assert Field(name, v) == " " + here && (" " + here)[1..] == here;
    NoMatchAtBlank(name, here);
  }

  /** A printed field answers the search for its own key and no other. */
  lemma FieldAnswersItsKey(k: Key, f: Key, v: nat)
    ensures Search(k.Name(), Field(f.Name(), v)) == if k == f then Some(v) else None
  {
    if k == f {
      KeysAreNames(k);
      OwnFieldAnswers(k.Name(), v);
    } else {
      var rest := Decimal(v) + "ns";
      KeysAreNames(k);
      KeysAreNames(f);
      NamesDoNotNest(k, f);
      hide Key.Name, Decimal;
      DecimalDigits(v);
      assert Field(f.Name(), v) == (" " + f.Name()) + "=" + rest;
      SearchSkips(k.Name(), " " + f.Name(), rest);
      NoEqualsNoMatch(k.Name(), rest);
    }
  }

  // ---- One line ----

  predicate NoBreaks(s: string) {
    forall i | 0 <= i < |s| :: !IsBreak(s[i])
  }

  /** Neither a number nor the word before it holds a '='. */
  lemma NoEqualsInHead(n: nat)
    ensures '=' !in Decimal(n) + " tcp_seq" && '=' !in Decimal(n) + " symbol"
  {
    DecimalDigits(n);
    hide Decimal;
  }

  /** The part of a line before the symbol answers no search. */
  lemma HeadIsSilent(k: Key, r: LogRecord, t: string)
    ensures Search(k.Name(), Head(r) + t) == Search(k.Name(), t)
  {
    var name, d, e := k.Name(), Decimal(r.seqNo), Decimal(r.tcpSeq);
    var u := (e + " symbol") + "=" + t;
    var v := (d + " tcp_seq") + "=" + u;
    assert Head(r) + t == "seq" + "=" + v by { HeadShape(d, e, t); }
    hide *;
    KeysAreNames(k);
    NoKeyEndsHere(k, d, e);
    NoEqualsInHead(r.seqNo);
    NoEqualsInHead(r.tcpSeq);
    SearchSkips(name, "seq", v);
    SearchSkips(name, d + " tcp_seq", u);
    SearchSkips(name, e + " symbol", t);
  }

  lemma HeadShape(d: string, e: string, t: string)
    ensures ("seq=" + d + " tcp_seq=" + e + " symbol=") + t
         == "seq" + "=" + ((d + " tcp_seq") + "=" + ((e + " symbol") + "=" + t))
  {}

  lemma NoKeyEndsHere(k: Key, d: string, e: string)
    ensures !EndsWith("seq", k.Name()) && !EndsWith(d + " tcp_seq", k.Name()) && !EndsWith(e + " symbol", k.Name())
  {
    LastTwo("seq", k.Name());
    LastTwo(d + " tcp_seq", k.Name());
    LastTwo(e + " symbol", k.Name());
  }

  lemma LastTwo(p: string, n: string)
    requires |n| >= 2
    ensures EndsWith(p, n) ==> p[|p| - 1] == n[|n| - 1] && p[|p| - 2] == n[|n| - 2]
  {}

  /** The part after the symbol answers each key with its value. */
  lemma FieldsAnswer(k: Key, r: LogRecord)
    ensures Search(k.Name(), Fields(r) + "\n") == Some(k.Value(r))
  {
    var name := k.Name();
    var f1, f2 := Field(BnNic.Name(), r.bnToNic), Field(NicKernel.Name(), r.nicToKernel);
    var f3, f4 := Field(KernelUser.Name(), r.kernelToUser), Field(Cpu.Name(), r.cpu);
    var f5, f6 := Field(Msk.Name(), r.msk), Field(Total.Name(), r.total);
    assert Fields(r) == f1 + f2 + f3 + f4 + f5 + f6;
    KeysAreNames(k);
    FieldAnswersItsKey(k, BnNic, r.bnToNic);
    FieldAnswersItsKey(k, NicKernel, r.nicToKernel);
    FieldAnswersItsKey(k, KernelUser, r.kernelToUser);
    FieldAnswersItsKey(k, Cpu, r.cpu);
    FieldAnswersItsKey(k, Msk, r.msk);
    FieldAnswersItsKey(k, Total, r.total);
    hide Key.Name, Search, Decimal;
    SearchSplits(name, f1, f2);
    SearchSplits(name, f1 + f2, f3);
    SearchSplits(name, f1 + f2 + f3, f4);
    SearchSplits(name, f1 + f2 + f3 + f4, f5);
    SearchSplits(name, f1 + f2 + f3 + f4 + f5, f6);
    SearchSplits(name, f1 + f2 + f3 + f4 + f5 + f6, "\n");
  }

  lemma NoBreaksInField(k: Key, v: nat)
    ensures NoBreaks(Field(k.Name(), v))
  {
    KeysAreNames(k);
    DecimalDigits(v);
    hide Key.Name, Decimal;
  }

  lemma FieldsHaveNoBreaks(r: LogRecord)
    ensures NoBreaks(Fields(r))
  {
    NoBreaksInField(BnNic, r.bnToNic);
    NoBreaksInField(NicKernel, r.nicToKernel);
    NoBreaksInField(KernelUser, r.kernelToUser);
    NoBreaksInField(Cpu, r.cpu);
    NoBreaksInField(Msk, r.msk);
    NoBreaksInField(Total, r.total);
    hide Field;
  }

  lemma HeadHasNoBreaks(r: LogRecord)
    ensures NoBreaks(Head(r))
  {
    DecimalDigits(r.seqNo);
    DecimalDigits(r.tcpSeq);
    hide Decimal;
  }

  lemma {:induction false} FirstLineSkips(p: string, t: string)
    requires NoBreaks(p)
    ensures FirstLine(p + t) == |p| + FirstLine(t)
  {
    if p == "" {
      assert p + t == t;
    } else {
      assert (p + t)[1..] == p[1..] + t;
      FirstLineSkips(p[1..], t);
    }
  }

  /** The script collects from a first line and then from what follows it. */
  lemma CollectOneLine(name: string, line: string, rest: string)
    requires line != "" && FirstLine(line + rest) == |line|
    ensures Collect(name, line + rest) == Listed(Search(name, line)) + Collect(name, rest)
  {
    hide FirstLine, Search, Listed;
    var text := line + rest;
    assert text[..|line|] == line && text[|line|..] == rest;
  }

  lemma CollectSkips(name: string, p: string, t: string)
    requires p != "" && NoBreaks(p) && Search(name, p + t[..FirstLine(t)]) == Search(name, t[..FirstLine(t)])
    ensures Collect(name, p + t) == Collect(name, t)
  {
    var n := FirstLine(t);
    var line, rest := t[..n], t[n..];
    FirstLineSkips(p, t);
    assert t == line + rest && p + t == (p + line) + rest;
    CollectOneLine(name, p + line, rest);
    if t == "" {
      SearchEmpty(name);
      assert line == "" && rest == "";
      hide Search, NoBreaks, FirstLine;
    } else {
      CollectOneLine(name, line, rest);
      hide Search, NoBreaks, FirstLine, Collect;
    }
  }

  lemma CollectSkipsHead(k: Key, r: LogRecord, t: string)
    ensures Collect(k.Name(), Head(r) + t) == Collect(k.Name(), t)
  {
    HeadIsSilent(k, r, t[..FirstLine(t)]);
    HeadHasNoBreaks(r);
    HeadIsNotEmpty(r);
    hide Head, Search, Key.Name, FirstLine, NoBreaks, Collect;
    CollectSkips(k.Name(), Head(r), t);
  }

  lemma HeadIsNotEmpty(r: LogRecord)
    ensures Head(r) != ""
  {}

  lemma SearchEmpty(name: string)
    ensures Search(name, "") == None
  {}

  /** The text of a last line: its own characters, the end of the line, what follows. */
  lemma LineShape(a: string, r: string, rest: string)
    ensures var line := a + (r + "\n");
            && a + (r + "\n" + rest) == line + rest == (a + r) + ("\n" + rest)
            && (line + rest)[..|line|] == line && (line + rest)[|line|..] == rest
  {}

  lemma LineEnds(a: string, rest: string)
    requires NoBreaks(a)
    ensures FirstLine(a + ("\n" + rest)) == |a| + 1
  {
    FirstLineSkips(a, "\n" + rest);
  }

  /** A text without line breaks is one line. */
  lemma CollectUnbroken(name: string, a: string)
    requires NoBreaks(a)
    ensures Collect(name, a) == Listed(Search(name, a))
  {
    FirstLineSkips(a, "");
    SearchEmpty(name);
    hide Search, NoBreaks;
    assert a + "" == a && a[..|a|] == a && a[|a|..] == "";
  }

  lemma CollectLastLine(name: string, a: string, r: string, rest: string) returns (x: Option<nat>)
    requires IsName(name) && r != "" && Stops(r[0]) && NoBreaks(r) && NoBreaks(a)
    ensures Collect(name, a + (r + "\n" + rest)) == Collect(name, a) + Listed(x) + Collect(name, rest)
    ensures x == Search(name, r + "\n") || (x == None && Collect(name, a) != [])
  {
    var line := a + (r + "\n");
    LineShape(a, r, rest);
    LineEnds(a + r, rest);
    SearchSplits(name, a, r + "\n");
    CollectUnbroken(name, a);
    hide Search, NoBreaks, FirstLine, IsName, Stops;
    CollectOneLine(name, line, rest);
    hide Collect;
    if Search(name, a).Some? {
      x := None;
      assert Collect(name, a) + Listed(x) == Listed(Search(name, line));
    } else {
      x := Search(name, r + "\n");
      assert Collect(name, a) + Listed(x) == Listed(Search(name, line));
    }
  }

  /** A text followed by a fields part and the end of its line: the script collects what it
      collects from the text, then the answer of the fields part. The answer is lost only
      if the text's last line has one itself. */
  lemma {:induction false} CollectWithTail(name: string, a: string, r: string, rest: string) returns (x: Option<nat>)
    requires IsName(name) && r != "" && Stops(r[0]) && NoBreaks(r)
    ensures Collect(name, a + (r + "\n" + rest)) == Collect(name, a) + Listed(x) + Collect(name, rest)
    ensures x == Search(name, r + "\n") || (x == None && Collect(name, a) != [])
    decreases |a|
  {
    if NoBreaks(a) {
      x := CollectLastLine(name, a, r, rest);
    } else {
      hide Search, Collect, FirstLine, NoBreaks;
      hide Listed;
      var n, first := CollectPastLine(name, a, r + "\n" + rest);
      x := CollectWithTail(name, a[n..], r, rest);
      Regroup(first, Collect(name, a[n..]), Listed(x), Collect(name, rest));
    }
  }

  lemma Regroup(a: seq<nat>, b: seq<nat>, c: seq<nat>, d: seq<nat>)
    ensures a + (b + c + d) == a + b + c + d
  {}

  /** A first line that ends inside `a` is collected from alike with and without what follows. */
  lemma CollectPastLine(name: string, a: string, t: string) returns (n: nat, first: seq<nat>)
    requires !NoBreaks(a)
    ensures 0 < n <= |a|
    ensures Collect(name, a) == first + Collect(name, a[n..])
    ensures Collect(name, a + t) == first + Collect(name, a[n..] + t)
  {
    hide Search;
    n := FirstLine(a);
    FirstLineEnds(a, t);
    hide FirstLine, NoBreaks;
    first := Listed(Search(name, a[..n]));
    assert (a + t)[..n] == a[..n] && (a + t)[n..] == a[n..] + t;
  }

  lemma {:induction false} FirstLineEnds(a: string, t: string)
    requires !NoBreaks(a)
    ensures FirstLine(a + t) == FirstLine(a) > 0
  {
    assert (a + t)[0] == a[0];
    if !IsBreak(a[0]) {
      assert (a + t)[1..] == a[1..] + t;
      var i :| 0 <= i < |a| && IsBreak(a[i]);
      assert a[1..][i - 1] == a[i];
      FirstLineEnds(a[1..], t);
    }
  }

  lemma RecordShape(r: LogRecord, rest: string)
    ensures Line(r) + rest == Head(r) + (r.symbol + (Fields(r) + "\n" + rest))
  {
    hide Head, Fields;
  }

  lemma FieldsBeginWithBlank(r: LogRecord)
    ensures Fields(r) != "" && Stops(Fields(r)[0])
  {
    assert Field(BnNic.Name(), r.bnToNic)[0] == ' ';
  }

  lemma CollectLine(k: Key, r: LogRecord, rest: string) returns (x: Option<nat>)
    ensures Collect(k.Name(), Line(r) + rest) == Collect(k.Name(), r.symbol) + Listed(x) + Collect(k.Name(), rest)
    ensures x == Some(k.Value(r)) || (x == None && Collect(k.Name(), r.symbol) != [])
  {
    hide *;
    KeysAreNames(k);
    FieldsHaveNoBreaks(r);
    FieldsAnswer(k, r);
    FieldsBeginWithBlank(r);
    RecordShape(r, rest);
    CollectSkipsHead(k, r, r.symbol + (Fields(r) + "\n" + rest));
    x := CollectWithTail(k.Name(), r.symbol, Fields(r), rest);
  }

  // ---- The head of a line ----

  datatype HeadNumbers = HeadNumbers(seqNo: nat, tcpSeq: nat, rest: string)

  function After(prefix: string, s: string): Option<string> {
    if prefix <= s then Some(s[|prefix|..]) else None
  }

  function ReadNumber(s: string): Option<(nat, string)> {
    var n := DigitRun(s);
    if n > 0 then Some((Parse(s[..n]), s[n..])) else None
  }

  /** A reference parser of "seq=N tcp_seq=N symbol=" and what follows it. */
  function ReadHead(s: string): Option<HeadNumbers> {
    match After("seq=", s)
    case None => None
    case Some(t) =>
      match ReadNumber(t)
      case None => None
      case Some((seqNo, u)) =>
        match After(" tcp_seq=", u)
        case None => None
        case Some(v) =>
          match ReadNumber(v)
          case None => None
          case Some((tcpSeq, w)) =>
            match After(" symbol=", w)
            case None => None
            case Some(rest) => Some(HeadNumbers(seqNo, tcpSeq, rest))
  }

  lemma AfterPrefix(prefix: string, t: string)
    ensures After(prefix, prefix + t) == Some(t)
  {}

  lemma ReadDecimal(n: nat, t: string)
    requires t != "" && t[0] == ' '
    ensures ReadNumber(Decimal(n) + t) == Some((n, t))
  {
    DecimalDigits(n);
    ParseDecimal(n);
    RunOfDigits(Decimal(n), t);
    hide Decimal, DigitRun, Parse;
    assert (Decimal(n) + t)[..|Decimal(n)|] == Decimal(n) && (Decimal(n) + t)[|Decimal(n)|..] == t;
  }

  lemma HeadPieces(r: LogRecord, rest: string)
    ensures Head(r) + rest ==
            "seq=" + (Decimal(r.seqNo) + (" tcp_seq=" + (Decimal(r.tcpSeq) + (" symbol=" + rest))))
  {
    hide Decimal;
  }

  /** The two numbers at the head of a line are the record's, and its symbol comes after them. */
  lemma HeadIsReadable(r: LogRecord)
    ensures ReadHead(Line(r)) == Some(HeadNumbers(r.seqNo, r.tcpSeq, r.symbol + (Fields(r) + "\n")))
  {
    var rest := r.symbol + (Fields(r) + "\n");
    var w := " symbol=" + rest;
    var v := Decimal(r.tcpSeq) + w;
    var u := " tcp_seq=" + v;
    var t := Decimal(r.seqNo) + u;
    assert Line(r) == Head(r) + rest by {
      RecordShape(r, "");
      assert Line(r) + "" == Line(r) && Fields(r) + "\n" + "" == Fields(r) + "\n";
    }
    HeadPieces(r, rest);
    AfterPrefix("seq=", t);
    ReadDecimal(r.seqNo, u);
    AfterPrefix(" tcp_seq=", v);
    ReadDecimal(r.tcpSeq, w);
    AfterPrefix(" symbol=", rest);
    hide After, ReadNumber, Decimal, Fields, Head, Line;
  }

  // ---- The whole log ----

  ghost predicate SilentSymbol(symbol: string) {
    forall k: Key :: Collect(k.Name(), symbol) == []
  }

  function Values(k: Key, rs: seq<LogRecord>): seq<nat> {
    seq(|rs|, i requires 0 <= i < |rs| => k.Value(rs[i]))
  }

  /** For any list of records whose symbols contain no match of the script's own patterns,
      the six lists collected from the concatenated lines are the six value lists. */
  lemma {:induction false} RoundTrip(k: Key, rs: seq<LogRecord>)
    requires forall r | r in rs :: SilentSymbol(r.symbol)
    ensures Collect(k.Name(), Concat(Lines(rs))) == Values(k, rs)
  {
    hide Collect, Key.Name, Key.Value, Line;
    CollectEmpty(k);
    if rs == [] {
    } else {
      var rest := Concat(Lines(rs[1..]));
      RoundTrip(k, rs[1..]);
      assert Lines(rs)[1..] == Lines(rs[1..]);
      assert Concat(Lines(rs)) == Line(rs[0]) + rest;
      assert SilentSymbol(rs[0].symbol);
      var x := CollectLine(k, rs[0], rest);
      assert Values(k, rs) == [k.Value(rs[0])] + Values(k, rs[1..]);
    }
  }

  lemma Column(k: Key, name: string, rs: seq<LogRecord>)
    requires name == k.Name() && forall r | r in rs :: SilentSymbol(r.symbol)
    ensures var column := Collect(name, Concat(Lines(rs)));
            |column| == |rs| && forall i | 0 <= i < |rs| :: column[i] == k.Value(rs[i])
  {
    RoundTrip(k, rs);
    hide Collect, Concat, Lines, SilentSymbol, Key.Name, Key.Value;
  }

  /** The same under the names the script uses, record by record. */
  lemma RoundTripByName(rs: seq<LogRecord>)
    requires forall r | r in rs :: SilentSymbol(r.symbol)
    ensures var text := Concat(Lines(rs));
            && |Collect("BN->NIC", text)| == |Collect("NIC->Kernel", text)| == |Collect("Kernel->User", text)| == |rs|
            && |Collect("CPU", text)| == |Collect("MSK", text)| == |Collect("Total", text)| == |rs|
            && forall i | 0 <= i < |rs| ::
                 && Collect("BN->NIC", text)[i] == rs[i].bnToNic
                 && Collect("NIC->Kernel", text)[i] == rs[i].nicToKernel
                 && Collect("Kernel->User", text)[i] == rs[i].kernelToUser
                 && Collect("CPU", text)[i] == rs[i].cpu
                 && Collect("MSK", text)[i] == rs[i].msk
                 && Collect("Total", text)[i] == rs[i].total
  {
    hide Collect, Concat, Lines, SilentSymbol;
    Column(BnNic, "BN->NIC", rs);
    Column(NicKernel, "NIC->Kernel", rs);
    Column(KernelUser, "Kernel->User", rs);
    Column(Cpu, "CPU", rs);
    Column(Msk, "MSK", rs);
    Column(Total, "Total", rs);
  }

  /** A symbol without '=' qualifies, whatever blanks or line breaks it contains. */
  lemma {:induction false} NoEqualsIsSilent(name: string, symbol: string)
    requires '=' !in symbol
    ensures Collect(name, symbol) == []
    decreases |symbol|
  {
    if symbol == "" {
    } else {
      var n := FirstLine(symbol);
      NoEqualsNoMatch(name, symbol[..n]);
      NoEqualsIsSilent(name, symbol[n..]);
    }
  }

  lemma CollectEmpty(k: Key)
    ensures Collect(k.Name(), "") == []
  {}

  /** The condition on symbols is exact: every record with this symbol is read back
      correctly if and only if the symbol contains no match. */
  lemma SymbolTestIsExact(symbol: string)
    ensures SilentSymbol(symbol) <==>
            forall r: LogRecord, k: Key | r.symbol == symbol :: Collect(k.Name(), Line(r)) == [k.Value(r) as nat]
  {
    hide Collect, Key.Name, Line;
    forall r: LogRecord, k: Key | r.symbol == symbol && SilentSymbol(symbol)
      ensures Collect(k.Name(), Line(r)) == [k.Value(r) as nat]
    {
      var x := CollectLine(k, r, "");
      CollectEmpty(k);
      assert Line(r) + "" == Line(r);
    }
    if k: Key :| Collect(k.Name(), symbol) != [] {
      var r := MisreadRecord(k, symbol);
      assert r.symbol == symbol && Collect(k.Name(), Line(r)) != [k.Value(r) as nat];
    }
  }

  /** A record that a symbol with a match makes the script misread. */
  lemma MisreadRecord(k: Key, symbol: string) returns (r: LogRecord)
    requires Collect(k.Name(), symbol) != []
    ensures r.symbol == symbol && Collect(k.Name(), Line(r)) != [k.Value(r) as nat]
  {
    hide Collect, Key.Name, Line;
    var v: uint64 := if Collect(k.Name(), symbol)[0] == 0 then 1 else 0;
    r := LogRecord(0, 0, symbol, v, v, v, v, v, v);
    var x := CollectLine(k, r, "");
    assert Line(r) + "" == Line(r);
    assert Collect(k.Name(), Line(r))[0] != v;
  }
}
