/** The subscription message: its construction is invertible. */
module Subscribe {
  import opened LogFormat

  const OPENING := "{\"method\":\"SUBSCRIBE\",\"params\":["
  const CLOSING := "],\"id\":1}"

  function Stream(symbol: string, streamType: string): string {
    symbol + "@" + streamType
  }

  function Item(symbol: string, streamType: string): string {
    "\"" + Stream(symbol, streamType) + "\""
  }

  function Items(symbols: seq<string>, streamType: string): string {
    if symbols == [] then ""
    else
      var n := |symbols| - 1;
      Items(symbols[..n], streamType) + (if n > 0 then "," else "") + Item(symbols[n], streamType)
  }

  function Message(symbols: seq<string>, streamType: string): string {
    OPENING + Items(symbols, streamType) + CLOSING
  }

  lemma ItemAppended(s: string, symbol: string, streamType: string)
    ensures s + "\"" + symbol + "@" + streamType + "\"" == s + Item(symbol, streamType)
  {}

  method BuildSubscribeMessage(symbols: seq<string>, streamType: string) returns (msg: string)
    ensures msg == Message(symbols, streamType)
  {
    var oss := OPENING;
    for i := 0 to |symbols|
      invariant oss == OPENING + Items(symbols[..i], streamType)
    {
      assert symbols[..i + 1][..i] == symbols[..i];
      if i > 0 {
        oss := oss + ",";
      }
      ghost var before := oss;
      oss := oss + "\"" + symbols[i] + "@" + streamType + "\"";
      ItemAppended(before, symbols[i], streamType);
    }
    assert symbols[..|symbols|] == symbols;
    oss := oss + CLOSING;
    msg := oss;
  }

  /** The length of the text before the first `c`. */
  function UpTo(c: char, s: string): (n: nat)
    ensures n <= |s|
  {
    if s == "" || s[0] == c then 0 else 1 + UpTo(c, s[1..])
  }

  /** A reference splitter: quoted items separated by commas, each cut at its first '@'. */
  function Split(s: string): seq<string>
    decreases |s|
  {
    if s == "" || s[0] != '"' then []
    else
      var n := UpTo('"', s[1..]);
      var body, rest := s[1..1 + n], s[1 + n..];
      [body[..UpTo('@', body)]] + if "\"," <= rest then Split(rest[2..]) else []
  }

  function Symbols(msg: string): seq<string> {
    if OPENING <= msg then Split(msg[|OPENING|..]) else []
  }

  lemma {:induction false} UpToFirst(c: char, s: string, t: string)
    requires c !in s && t != "" && t[0] == c
    ensures UpTo(c, s + t) == |s|
  {
    if s == "" {
      assert s + t == t;
    } else {
      assert (s + t)[1..] == s[1..] + t;
      UpToFirst(c, s[1..], t);
    }
  }

  lemma {:induction false} ItemsFromFront(symbols: seq<string>, streamType: string)
    requires symbols != []
    ensures Items(symbols, streamType) ==
            Item(symbols[0], streamType) + if |symbols| > 1 then "," + Items(symbols[1..], streamType) else ""
  {
    var n := |symbols| - 1;
    if n == 0 {
      assert Items(symbols[..n], streamType) == "";
    } else {
      ItemsFromFront(symbols[..n], streamType);
      hide Item;
      assert symbols[1..][..n - 1] == symbols[..n][1..];
      assert symbols[..n][0] == symbols[0] && symbols[1..][n - 1] == symbols[n];
      if n > 1 {
        var inner := Items(symbols[..n][1..], streamType);
        hide Items;
        Regroup(Item(symbols[0], streamType), ",", inner, ",", Item(symbols[n], streamType));
      }
    }
  }

  lemma Regroup(a: string, b: string, c: string, d: string, e: string)
    ensures a + (b + c) + d + e == a + (b + (c + d + e))
  {}

  lemma QuotedPieces(body: string, rest: string)
    ensures var s := "\"" + body + "\"" + rest;
            && s != "" && s[0] == '"' && s[1..] == body + ("\"" + rest)
            && s[1..1 + |body|] == body && s[1 + |body|..] == "\"" + rest
  {}

  /** What one step of the splitter does on a quoted body. */
  lemma SplitQuoted(body: string, rest: string)
    requires '"' !in body
    ensures Split("\"" + body + "\"" + rest) ==
            [body[..UpTo('@', body)]] + if "," <= rest then Split(rest[1..]) else []
  {
    QuotedPieces(body, rest);
    UpToFirst('"', body, "\"" + rest);
    AfterQuote(rest);
    hide UpTo;
  }

  lemma AfterQuote(rest: string)
    ensures "\"," <= "\"" + rest <==> "," <= rest
    ensures "," <= rest ==> ("\"" + rest)[2..] == rest[1..]
  {
    assert ("\"" + rest)[1..] == rest;
  }

  /** One quoted item is read off the front. */
  lemma SplitItem(symbol: string, streamType: string, rest: string)
    requires '"' !in symbol && '@' !in symbol && '"' !in streamType
    ensures Split(Item(symbol, streamType) + rest) == [symbol] + if "," <= rest then Split(rest[1..]) else []
  {
    SplitQuoted(Stream(symbol, streamType), rest);
    StreamName(symbol, streamType);
    hide Split, UpTo, Stream;
  }

  lemma StreamName(symbol: string, streamType: string)
    requires '"' !in symbol && '@' !in symbol && '"' !in streamType
    ensures var body := Stream(symbol, streamType); '"' !in body && body[..UpTo('@', body)] == symbol
  {
    UpToFirst('@', symbol, "@" + streamType);
    assert Stream(symbol, streamType) == symbol + ("@" + streamType);
  }

  lemma {:induction false} SplitItems(symbols: seq<string>, streamType: string)
    requires '"' !in streamType && forall s | s in symbols :: '"' !in s && '@' !in s
    ensures Split(Items(symbols, streamType) + CLOSING) == symbols
  {
    if symbols == [] {
      assert Items(symbols, streamType) + CLOSING == CLOSING;
    } else {
      var head, tail := symbols[0], symbols[1..];
      var rest := if tail == [] then CLOSING else "," + (Items(tail, streamType) + CLOSING);
      ItemsClosed(symbols, streamType);
      hide Item, Items, Split;
      SplitItem(head, streamType, rest);
      if tail != [] {
        assert rest[1..] == Items(tail, streamType) + CLOSING;
        SplitItems(tail, streamType);
      }
    }
  }

  lemma ItemsClosed(symbols: seq<string>, streamType: string)
    requires symbols != []
    ensures Items(symbols, streamType) + CLOSING ==
            Item(symbols[0], streamType)
            + if symbols[1..] == [] then CLOSING else "," + (Items(symbols[1..], streamType) + CLOSING)
  {
    ItemsFromFront(symbols, streamType);
    hide Item, Items;
  }

  /** The splitter recovers the list, for any symbols without quote or '@' and any stream
      type without quote; so different lists give different messages. */
  lemma SubscriptionIsInvertible(symbols: seq<string>, streamType: string)
    requires '"' !in streamType && forall s | s in symbols :: '"' !in s && '@' !in s
    ensures Symbols(Message(symbols, streamType)) == symbols
  {
    var msg := Message(symbols, streamType);
    assert msg == OPENING + (Items(symbols, streamType) + CLOSING);
    assert msg[..|OPENING|] == OPENING;
    assert msg[|OPENING|..] == Items(symbols, streamType) + CLOSING;
    SplitItems(symbols, streamType);
  }

  // ---- The message is JSON ----

  datatype Json =
    | Text(s: string)
    | Number(n: nat)
    | List(items: seq<Json>)
    | Object(members: seq<Member>)

  datatype Member = Member(key: string, value: Json)

  /** Compact JSON text (sections 4, 5 and 7 of RFC 8259), for strings that need no escapes. */
  function Render(j: Json): string {
    match j
    case Text(s) => "\"" + s + "\""
    case Number(n) => Decimal(n)
    case List(items) => "[" + RenderItems(items) + "]"
    case Object(members) => "{" + RenderMembers(members) + "}"
  }

  function RenderItems(items: seq<Json>): string {
    if items == [] then ""
    else
      var n := |items| - 1;
      RenderItems(items[..n]) + (if n > 0 then "," else "") + Render(items[n])
  }

  function RenderMember(m: Member): string {
    "\"" + m.key + "\":" + Render(m.value)
  }

  function RenderMembers(members: seq<Member>): string {
    if members == [] then ""
    else RenderMember(members[0]) + if |members| > 1 then "," + RenderMembers(members[1..]) else ""
  }

  function Streams(symbols: seq<string>, streamType: string): seq<Json> {
    seq(|symbols|, i requires 0 <= i < |symbols| => Text(symbols[i] + "@" + streamType))
  }

  lemma {:induction false} ItemsAreStreams(symbols: seq<string>, streamType: string)
    ensures Items(symbols, streamType) == RenderItems(Streams(symbols, streamType))
  {
    if symbols == [] {
    } else {
      var n := |symbols| - 1;
      ItemsAreStreams(symbols[..n], streamType);
      assert Streams(symbols, streamType)[..n] == Streams(symbols[..n], streamType);
    }
  }

  lemma ThreeMembers(a: Member, b: Member, c: Member)
    ensures RenderMembers([a, b, c]) == RenderMember(a) + ("," + (RenderMember(b) + ("," + RenderMember(c))))
  {
    hide RenderMember;
    assert RenderMembers([c]) == RenderMember(c);
    assert [b, c][1..] == [c];
    assert RenderMembers([b, c]) == RenderMember(b) + ("," + RenderMember(c));
    assert [a, b, c][1..] == [b, c];
  }

  lemma OpeningIs(rest: string)
    ensures OPENING + rest == "{" + (("\"" + "method" + "\":" + ("\"" + "SUBSCRIBE" + "\""))
                                     + ("," + ("\"" + "params" + "\":" + ("[" + rest))))
  {}

  lemma ClosingIs()
    ensures CLOSING == "]" + ("," + ("\"" + "id" + "\":" + "1")) + "}"
  {}

  lemma Nested(a: string, b: string, items: string, c: string)
    ensures "{" + (a + ("," + (b + ("[" + (items + ("]" + c + "}"))))))
         == "{" + (a + ("," + ((b + ("[" + items + "]")) + c))) + "}"
  {}

  /** The message is the JSON object that subscribes to one stream for each symbol. */
  lemma MessageIsJson(symbols: seq<string>, streamType: string)
    ensures Message(symbols, streamType) ==
            Render(Object([Member("method", Text("SUBSCRIBE")), Member("params", List(Streams(symbols, streamType))),
                           Member("id", Number(1))]))
  {
    var items := RenderItems(Streams(symbols, streamType));
    var a, b, c := Member("method", Text("SUBSCRIBE")), Member("params", List(Streams(symbols, streamType))),
                   Member("id", Number(1));
    ItemsAreStreams(symbols, streamType);
    ThreeMembers(a, b, c);
    OpeningIs(items + CLOSING);
    ClosingIs();
    assert RenderMember(c) == "\"" + "id" + "\":" + "1" by { assert Decimal(1) == "1"; }
    hide Items, RenderItems, RenderMembers, Streams, Decimal;
    assert Message(symbols, streamType) == OPENING + (items + CLOSING);
    Nested("\"" + "method" + "\":" + ("\"" + "SUBSCRIBE" + "\""), "\"" + "params" + "\":", items,
           "," + ("\"" + "id" + "\":" + "1"));
  }
}
