/**
 The Redis wire codec (internal/cache/distributed/redis.go): commands as RESP arrays of bulk strings and
 the reader of replies. A string stands for a sequence of bytes, one char each.
 */
module Resp {
  import opened Wrappers
  import Decimal

  datatype Reply = Simple(text: string) | Integer(n: int) | Bulk(bytes: string) | Nil | Array(items: seq<Reply>)

  datatype Fault = ErrorReply(text: string) | Protocol

  datatype Result<T> = Ok(value: T) | Err(fault: Fault)

  const CRLF := "\r\n"

  // ----- reading, on values: the result and the unread input -----

  /** The position of the first line feed, or the length if there is none. */
  function Newline(s: string): (i: nat)
    ensures i <= |s| && (i < |s| ==> s[i] == '\n') && forall k :: 0 <= k < i ==> s[k] != '\n'
  {
    if s == "" || s[0] == '\n' then 0 else 1 + Newline(s[1..])
  }

  /** A line up to CR LF; an unfinished line swallows the input. */
  function ReadLine(s: string): (r: (Option<string>, string))
    ensures |r.1| <= |s| && (r.0.Some? ==> r.0.value != "" && |r.1| < |s|)
  {
    var i := Newline(s);
    if i == |s| then (None, "")
    else if i < 2 || s[i - 1] != '\r' then (None, s[i + 1..])
    else (Some(s[..i - 1]), s[i + 1..])
  }

  function ReadBulk(rest: string, n: nat): (Result<Reply>, string) {
    if n + 2 <= |rest| then (Ok(Bulk(rest[..n])), rest[n + 2..]) else (Err(Protocol), "")
  }

  function Read(s: string): (r: (Result<Reply>, string))
    ensures |r.1| <= |s| && (r.0.Ok? ==> |r.1| < |s|)
    decreases |s|, 0, 0
  {
    var (line, rest) := ReadLine(s);
    if line.None? then (Err(Protocol), rest)
    else
      var body := line.value[1..];
      match line.value[0]
      case '+' => (Ok(Simple(body)), rest)
      case '-' => (Err(ErrorReply(body)), rest)
      case ':' =>
        (match Decimal.ParseInt(body)
         case None => (Err(Protocol), rest)
         case Some(n) => (Ok(Integer(n)), rest))
      case '$' =>
        (match Decimal.ParseInt(body)
         case None => (Err(Protocol), rest)
         case Some(n) => if n < 0 then (Ok(Nil), rest) else ReadBulk(rest, n))
      case '*' =>
        (match Decimal.ParseInt(body)
         case None => (Err(Protocol), rest)
         case Some(n) =>
           if n < 0 then (Ok(Nil), rest)
           else
             var (items, left) := ReadItems(rest, n);
             (Collected(items), left))
      case _ => (Err(Protocol), rest)
  }

  function Collected(items: Result<seq<Reply>>): Result<Reply> {
    match items
    case Ok(replies) => Ok(Array(replies))
    case Err(f) => Err(f)
  }

  /** n replies in a row, up to the first that fails. */
  function ReadItems(s: string, n: nat): (r: (Result<seq<Reply>>, string))
    ensures |r.1| <= |s|
    decreases |s|, 1, n
  {
    if n == 0 then (Ok([]), s)
    else
      var (first, rest) := Read(s);
      match first
      case Err(f) => (Err(f), rest)
      case Ok(item) =>
        var (items, left) := ReadItems(rest, n - 1);
        (Prepended([item], items), left)
  }

  function Prepended(front: seq<Reply>, items: Result<seq<Reply>>): Result<seq<Reply>> {
    match items
    case Ok(replies) => Ok(front + replies)
    case Err(f) => Err(f)
  }

  lemma PrependNothing(items: Result<seq<Reply>>)
    ensures Prepended([], items) == items
  {
    assert items.Ok? ==> [] + items.value == items.value;
  }

  // ----- writing -----

  function Header(tag: char, n: int): string {
    [tag] + Decimal.Itoa(n) + CRLF
  }

  function RenderBulk(bytes: string): string {
    Header('$', |bytes|) + bytes + CRLF
  }

  function RenderBulks(args: seq<string>): string {
    if args == [] then "" else RenderBulk(args[0]) + RenderBulks(args[1..])
  }

  function EncodeOf(args: seq<string>): string {
    Header('*', |args|) + RenderBulks(args)
  }

  function Render(r: Reply): string {
    match r
    case Simple(t) => "+" + t + CRLF
    case Integer(n) => Header(':', n)
    case Bulk(b) => RenderBulk(b)
    case Nil => Header('$', -1)
    case Array(items) => Header('*', |items|) + RenderAll(items)
  }

  function RenderAll(items: seq<Reply>): string {
    if items == [] then "" else Render(items[0]) + RenderAll(items[1..])
  }

  /** What the wire can carry: one-line simple strings, int64 numbers and lengths. */
  predicate Sendable(r: Reply) {
    match r
    case Simple(t) => '\n' !in t
    case Integer(n) => Decimal.MIN_INT64 <= n <= Decimal.MAX_INT64
    case Bulk(b) => |b| <= Decimal.MAX_INT64
    case Nil => true
    case Array(items) => |items| <= Decimal.MAX_INT64 && forall k :: 0 <= k < |items| ==> Sendable(items[k])
  }

  // ----- what is written reads back -----

  lemma ReadsLine(payload: string, tail: string)
    requires payload != "" && '\n' !in payload
    ensures ReadLine(payload + CRLF + tail) == (Some(payload), tail)
  {
    var s := payload + CRLF + tail;
    var n := |payload|;
    assert s[n] == '\r' && s[n + 1] == '\n';
    assert forall k :: 0 <= k < n ==> s[k] == payload[k];
    assert Newline(s) == n + 1;
    assert s[..n] == payload && s[n + 2..] == tail;
  }

  lemma ReadsHeader(tag: char, n: int, tail: string)
    requires tag != '\n' && Decimal.MIN_INT64 <= n <= Decimal.MAX_INT64
    ensures ReadLine(Header(tag, n) + tail) == (Some([tag] + Decimal.Itoa(n)), tail)
    ensures ([tag] + Decimal.Itoa(n))[0] == tag && Decimal.ParseInt(([tag] + Decimal.Itoa(n))[1..]) == Some(n)
  {
    var payload := [tag] + Decimal.Itoa(n);
    assert Header(tag, n) + tail == payload + CRLF + tail;
    assert payload[1..] == Decimal.Itoa(n);
    ReadsLine(payload, tail);
    Decimal.ParsesPrinted(n);
  }

  lemma ReadsBulk(bytes: string, tail: string)
    requires |bytes| <= Decimal.MAX_INT64
    ensures Read(RenderBulk(bytes) + tail) == (Ok(Bulk(bytes)), tail)
  {
    var rest := bytes + CRLF + tail;
    assert RenderBulk(bytes) + tail == Header('$', |bytes|) + rest;
    ReadsHeader('$', |bytes|, rest);
    assert rest[..|bytes|] == bytes && rest[|bytes| + 2..] == tail;
  }

  /** Every sendable reply is read back whole, and nothing after it is touched. */
  lemma {:induction false} ReadsRendered(r: Reply, tail: string)
    requires Sendable(r)
    ensures Read(Render(r) + tail) == (Ok(r), tail)
    decreases r, 2, 0
  {
    hide Read, ReadItems, RenderBulk, Header;
    match r
    case Simple(t) => ReadsSimple(t, tail);
    case Integer(n) => ReadsInteger(n, tail);
    case Bulk(b) => ReadsBulk(b, tail);
    case Nil => ReadsNil(tail);
    case Array(items) =>
      ReadsRenderedItems(r, items, tail);
      ReadsArray(items, RenderAll(items), tail);
  }

  lemma ReadsInteger(n: int, tail: string)
    requires Decimal.MIN_INT64 <= n <= Decimal.MAX_INT64
    ensures Read(Header(':', n) + tail) == (Ok(Integer(n)), tail)
  {
    ReadsHeader(':', n, tail);
  }

  lemma ReadsNil(tail: string)
    ensures Read(Header('$', -1) + tail) == (Ok(Nil), tail)
  {
    ReadsHeader('$', -1, tail);
  }

  lemma ReadsSimple(t: string, tail: string)
    requires '\n' !in t
    ensures Read("+" + t + CRLF + tail) == (Ok(Simple(t)), tail)
  {
    ReadsLine("+" + t, tail);
    assert ("+" + t)[1..] == t;
  }

  lemma ReadsArray(items: seq<Reply>, rendered: string, tail: string)
    requires |items| <= Decimal.MAX_INT64 && ReadItems(rendered + tail, |items|) == (Ok(items), tail)
    ensures Read(Header('*', |items|) + rendered + tail) == (Ok(Array(items)), tail)
  {
    assert Header('*', |items|) + rendered + tail == Header('*', |items|) + (rendered + tail);
    ReadsHeader('*', |items|, rendered + tail);
  }

  lemma {:induction false} ReadsRenderedItems(r: Reply, items: seq<Reply>, tail: string)
    requires forall k :: 0 <= k < |items| ==> items[k] < r && Sendable(items[k])
    ensures ReadItems(RenderAll(items) + tail, |items|) == (Ok(items), tail)
    decreases r, 1, |items|
  {
    hide Read, Render, Sendable;
    if items == [] {
      assert RenderAll(items) + tail == tail;
    } else {
      var rest := RenderAll(items[1..]) + tail;
      assert RenderAll(items) + tail == Render(items[0]) + rest;
      ReadsRendered(items[0], rest);
      ReadsRenderedItems(r, items[1..], tail);
      assert [items[0]] + items[1..] == items;
    }
  }

  function Bulks(args: seq<string>): (items: seq<Reply>)
    ensures |items| == |args| && forall k :: 0 <= k < |args| ==> items[k] == Bulk(args[k])
  {
    seq(|args|, k requires 0 <= k < |args| => Bulk(args[k]))
  }

  lemma {:induction false} BulksRender(args: seq<string>)
    ensures RenderAll(Bulks(args)) == RenderBulks(args)
    decreases |args|
  {
    if args != [] {
      BulksRender(args[1..]);
      assert Bulks(args)[1..] == Bulks(args[1..]);
    }
  }

  /** Lengths fit in an int64, as all Go lengths do. */
  predicate Encodable(args: seq<string>) {
    |args| <= Decimal.MAX_INT64 && forall k :: 0 <= k < |args| ==> |args[k]| <= Decimal.MAX_INT64
  }

  /** A command reads back as exactly its arguments, whatever bytes they hold, leaving exactly what follows. */
  lemma CommandRoundTrip(args: seq<string>, tail: string)
    requires Encodable(args)
    ensures Read(EncodeOf(args) + tail) == (Ok(Array(Bulks(args))), tail)
  {
    BulksRender(args);
    ReadsRendered(Array(Bulks(args)), tail);
  }

  function EncodeStream(commands: seq<seq<string>>): string {
    if commands == [] then "" else EncodeOf(commands[0]) + EncodeStream(commands[1..])
  }

  function Arrays(commands: seq<seq<string>>): (items: seq<Reply>)
    ensures |items| == |commands| && forall k :: 0 <= k < |commands| ==> items[k] == Array(Bulks(commands[k]))
  {
    seq(|commands|, k requires 0 <= k < |commands| => Array(Bulks(commands[k])))
  }

  /** A stream of commands decodes one by one, in order. */
  lemma {:induction false} StreamRoundTrip(commands: seq<seq<string>>, tail: string)
    requires forall k :: 0 <= k < |commands| ==> Encodable(commands[k])
    ensures ReadItems(EncodeStream(commands) + tail, |commands|) == (Ok(Arrays(commands)), tail)
    decreases |commands|
  {
    hide Read, EncodeOf, Encodable;
    if commands == [] {
      assert EncodeStream(commands) + tail == tail;
    } else {
      var rest := EncodeStream(commands[1..]) + tail;
      assert EncodeStream(commands) + tail == EncodeOf(commands[0]) + rest;
      CommandRoundTrip(commands[0], rest);
      StreamRoundTrip(commands[1..], tail);
      assert [Array(Bulks(commands[0]))] + Arrays(commands[1..]) == Arrays(commands);
    }
  }

  /** A simple string survives exactly when it fits on its line. */
  lemma SimpleRoundTrip(t: string, tail: string)
    ensures Read(Render(Simple(t)) + tail) == (Ok(Simple(t)), tail) <==> '\n' !in t
  {
    if '\n' !in t {
      ReadsRendered(Simple(t), tail);
    } else {
      var s := Render(Simple(t)) + tail;
      var k :| 0 <= k < |t| && t[k] == '\n';
      assert s[k + 1] == '\n';
      assert Newline(s) <= k + 1;
    }
  }

  // ----- replies that are errors -----

  lemma ReadsError(t: string, tail: string)
    requires '\n' !in t
    ensures Read("-" + t + CRLF + tail) == (Err(ErrorReply(t)), tail)
  {
    ReadsLine("-" + t, tail);
    assert ("-" + t)[1..] == t;
  }

  /** A command Redis refused never looks done: a reply that starts as an error reads as that error. */
  lemma ErrorIsReported(t: string, tail: string)
    ensures Read("-" + t + CRLF + tail).0.Err?
    ensures Read("-" + t + CRLF + tail) == (Err(ErrorReply(t)), tail) <==> '\n' !in t
  {
    var s := "-" + t + CRLF + tail;
    if '\n' !in t {
      ReadsError(t, tail);
    } else {
      var k :| 0 <= k < |t| && t[k] == '\n';
      assert s[k + 1] == '\n' && Newline(s) <= k + 1;
      assert s[0] == '-';
    }
  }

  /** What is read as a reply starts with one of the four tags of replies. */
  lemma SuccessIsTagged(s: string)
    requires Read(s).0.Ok?
    ensures s != "" && s[0] in {'+', ':', '$', '*'}
    ensures match Read(s).0.value
            case Simple(_) => s[0] == '+'
            case Integer(_) => s[0] == ':'
            case Bulk(_) => s[0] == '$'
            case Nil => s[0] in {'$', '*'}
            case Array(_) => s[0] == '*'
  {
    hide ReadItems;
    assert ReadLine(s).0.value[0] == s[0];
  }

  /** Any negative length, of a bulk string or of an array, is the nil reply. */
  lemma NegativeIsNil(tag: char, n: int, tail: string)
    requires tag in {'$', '*'} && Decimal.MIN_INT64 <= n < 0
    ensures Read(Header(tag, n) + tail) == (Ok(Nil), tail)
  {
    ReadsHeader(tag, n, tail);
  }

  /** The first error among the items of an array is the error of the array; what follows it is not read. */
  lemma ErrorInArray(items: seq<Reply>, n: int, t: string, tail: string)
    requires |items| < n <= Decimal.MAX_INT64 && '\n' !in t
    requires forall k :: 0 <= k < |items| ==> Sendable(items[k])
    ensures Read(Header('*', n) + RenderAll(items) + "-" + t + CRLF + tail) == (Err(ErrorReply(t)), tail)
  {
    hide ReadItems, Header;
    var rest := RenderAll(items) + ("-" + t + CRLF + tail);
    assert Header('*', n) + RenderAll(items) + "-" + t + CRLF + tail == Header('*', n) + rest;
    ErrorAmongItems(items, n, t, tail);
    ReadsHeader('*', n, rest);
  }

  lemma {:induction false} ErrorAmongItems(items: seq<Reply>, n: nat, t: string, tail: string)
    requires |items| < n && '\n' !in t
    requires forall k :: 0 <= k < |items| ==> Sendable(items[k])
    ensures ReadItems(RenderAll(items) + ("-" + t + CRLF + tail), n) == (Err(ErrorReply(t)), tail)
    decreases |items|
  {
    hide Read, Sendable, Render;
    var bad := "-" + t + CRLF + tail;
    if items == [] {
      assert RenderAll(items) + bad == bad;
      ReadsError(t, tail);
    } else {
      assert RenderAll(items) + bad == Render(items[0]) + (RenderAll(items[1..]) + bad);
      ReadsRendered(items[0], RenderAll(items[1..]) + bad);
      ErrorAmongItems(items[1..], n - 1, t, tail);
    }
  }

  // ----- the reader looks no further than it needs -----

  lemma {:induction false} NewlineExtends(s: string, more: string)
    requires Newline(s) < |s|
    ensures Newline(s + more) == Newline(s)
    decreases |s|
  {
    if s[0] != '\n' {
      assert (s + more)[1..] == s[1..] + more;
      NewlineExtends(s[1..], more);
    }
  }

  lemma LineExtends(s: string, more: string)
    requires ReadLine(s).0.Some?
    ensures ReadLine(s + more) == (ReadLine(s).0, ReadLine(s).1 + more)
  {
    NewlineExtends(s, more);
    var i := Newline(s);
    assert (s + more)[..i - 1] == s[..i - 1];
    assert (s + more)[i + 1..] == s[i + 1..] + more;
  }

  lemma BulkExtends(rest: string, n: nat, more: string)
    requires ReadBulk(rest, n).0.Ok?
    ensures ReadBulk(rest + more, n) == (ReadBulk(rest, n).0, ReadBulk(rest, n).1 + more)
  {
    var k := n + 2;
    assert (rest + more)[..n] == rest[..n];
    assert (rest + more)[k..] == rest[k..] + more;
  }

  /** What a successful read returns does not depend on what comes later, which is left as it is. */
  lemma {:induction false} ReadExtends(s: string, more: string)
    requires Read(s).0.Ok?
    ensures Read(s + more) == (Read(s).0, Read(s).1 + more)
    decreases |s|, 0, 0
  {
    hide ReadBulk, ReadLine;
    LineExtends(s, more);
    var (line, rest) := ReadLine(s);
    var n := Decimal.ParseInt(line.value[1..]);
    if line.value[0] == '$' && n.value >= 0 {
      BulkExtends(rest, n.value, more);
    } else if line.value[0] == '*' && n.value >= 0 {
      ReadItemsExtends(rest, n.value, more);
    }
  }

  lemma {:induction false} ReadItemsExtends(s: string, n: nat, more: string)
    requires ReadItems(s, n).0.Ok?
    ensures ReadItems(s + more, n) == (ReadItems(s, n).0, ReadItems(s, n).1 + more)
    decreases |s|, 1, n
  {
    if n > 0 {
      ReadExtends(s, more);
      ReadItemsExtends(Read(s).1, n - 1, more);
    }
  }

  /** Replies are self-delimiting: no proper prefix of a complete reply is a reply. */
  lemma PrefixFree(s: string, more: string)
    requires Read(s + more).0.Ok? && Read(s + more).1 == "" && Read(s).0.Ok?
    ensures more == ""
  {
    ReadExtends(s, more);
  }

  /** A line takes its line feed with it, well formed or not, and leaves what follows. */
  lemma LineIsConsumed(t: string, tail: string)
    requires '\n' !in t
    ensures ReadLine(t + "\n" + tail).1 == tail
    ensures ReadLine(t + "\n" + tail).0.Some? <==> |t| >= 2 && t[|t| - 1] == '\r'
  {
    var s := t + "\n" + tail;
    assert s[|t|] == '\n' && forall k :: 0 <= k < |t| ==> s[k] == t[k];
    assert Newline(s) == |t|;
    assert s[|t| + 1..] == tail;
  }

  /** A bulk string shorter than announced is an error that takes all input with it. */
  lemma ShortBulk(n: nat, rest: string)
    requires n <= Decimal.MAX_INT64 && |rest| < n + 2
    ensures Read(Header('$', n) + rest) == (Err(Protocol), "")
  {
    ReadsHeader('$', n, rest);
  }

  /** A reply cut short anywhere is no reply. */
  lemma TruncatedFails(r: Reply, n: nat)
    requires Sendable(r) && n < |Render(r)|
    ensures Read(Render(r)[..n]).0.Err?
  {
    hide Read, Render;
    ReadsRendered(r, "");
    var s, more := Render(r)[..n], Render(r)[n..];
    assert s + more == Render(r) == Render(r) + "";
    if Read(s).0.Ok? { PrefixFree(s, more); }
  }

  // ----- the code -----

  method EncodeCommand(args: seq<string>) returns (buf: string)
    ensures buf == EncodeOf(args)
  {
    buf := "*" + Decimal.Itoa(|args|) + CRLF;
    ghost var header := buf;
    var k := 0;
    while k < |args|
      invariant 0 <= k <= |args|
      invariant buf + RenderBulks(args[k..]) == header + RenderBulks(args)
    {
      var b := args[k];
      assert args[k..][1..] == args[k + 1..];
      var piece := "$" + Decimal.Itoa(|b|) + CRLF + b + CRLF;
      assert buf + (RenderBulk(b) + RenderBulks(args[k + 1..])) == (buf + piece) + RenderBulks(args[k + 1..]);
      buf := buf + piece;
      k := k + 1;
    }
  }

  class Reader {
    var rest: string

    constructor (input: string)
      ensures rest == input
    {
      rest := input;
    }

    method ReadLineNow() returns (line: Option<string>)
      modifies this
      ensures (line, rest) == ReadLine(old(rest))
    {
      var i := 0;
      while i < |rest| && rest[i] != '\n'
        invariant 0 <= i <= Newline(rest)
      {
        i := i + 1;
      }
      if i == |rest| {
        rest := "";
        return None;
      }
      var whole := rest[..i + 1];
      rest := rest[i + 1..];
      if |whole| < 3 || whole[|whole| - 2] != '\r' { return None; }
      assert whole[..|whole| - 2] == old(rest)[..i - 1];
      return Some(whole[..|whole| - 2]);
    }

    method ReadReply() returns (r: Result<Reply>)
      modifies this
      ensures (r, rest) == Read(old(rest))
      decreases |rest|, 0
    {
      var line := ReadLineNow();
      if line.None? { return Err(Protocol); }
      var tag, body := line.value[0], line.value[1..];
      if tag == '+' { return Ok(Simple(body)); }
      if tag == '-' { return Err(ErrorReply(body)); }
      if tag !in {':', '$', '*'} { return Err(Protocol); }
      var n := Decimal.ParseInt(body);
      if n.None? { return Err(Protocol); }
      if tag == ':' { return Ok(Integer(n.value)); }
      if n.value < 0 { return Ok(Nil); }
      if tag == '$' {
        if |rest| < n.value + 2 {
          rest := "";
          return Err(Protocol);
        }
        var bytes := rest[..n.value];
        rest := rest[n.value + 2..];
        return Ok(Bulk(bytes));
      }
      r := ReadArray(n.value);
    }

    method ReadArray(n: nat) returns (r: Result<Reply>)
      modifies this
      ensures (r, rest) == (Collected(ReadItems(old(rest), n).0), ReadItems(old(rest), n).1)
      decreases |rest|, 1
    {
      ghost var whole := ReadItems(rest, n);
      var items: seq<Reply> := [];
      PrependNothing(whole.0);
      var i := 0;
      while i < n
        invariant 0 <= i <= n && |rest| <= old(|rest|)
        invariant whole == (Prepended(items, ReadItems(rest, n - i).0), ReadItems(rest, n - i).1)
      {
        ghost var before := rest;
        var item := ReadReply();
        if item.Err? { return Err(item.fault); }
        ghost var later := ReadItems(rest, n - i - 1).0;
        assert later.Ok? ==> items + ([item.value] + later.value) == (items + [item.value]) + later.value;
        items := items + [item.value];
        i := i + 1;
      }
      assert items + [] == items;
      return Ok(Array(items));
    }
  }
}
