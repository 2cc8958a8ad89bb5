/** Replies on the control port (internal/control/control.go): how the node writes them, how the host reads them. */
module ControlFrames {
  import opened Bytes

  const NEWLINE: byte := 10
  const RETURN: byte := 13
  const SPACE: byte := 32
  const OK: text := Raw("k0smos-ok")
  const ERROR: text := Raw("k0smos-error")
  const MAX_REPLY: nat := 8 * 1024 * 1024

  /** What a responder answers: data, or an error's message. */
  type Reply = Result<seq<byte>, text>

  // ------------------------------------------------------------------ decimal numbers

  function Decimal(n: nat): (r: text)
    ensures r != [] && IsDigits(r)
  {
    if n < 10 then [48 + n] else Decimal(n / 10) + [48 + n % 10]
  }

  predicate IsDigits(s: text) {
    forall i :: 0 <= i < |s| ==> 48 <= s[i] <= 57
  }

  function Value(s: text): nat
    requires IsDigits(s)
  {
    if s == [] then 0 else 10 * Value(s[..|s| - 1]) + (s[|s| - 1] - 48)
  }

  /** strconv.Atoi: a sign, digits, and 64 bits to hold them. */
  function Atoi(s: text): Option<int> {
    var negative := s != [] && s[0] == 45;
    var digits := if negative || (s != [] && s[0] == 43) then s[1..] else s;
    if digits == [] || !IsDigits(digits) then None
    else
      var v: int := if negative then 0 - Value(digits) else Value(digits);
      if -0x8000_0000_0000_0000 <= v < 0x8000_0000_0000_0000 then Some(v) else None
  }

  lemma {:induction false} DecimalValue(n: nat)
    ensures Value(Decimal(n)) == n
  {
    if n >= 10 {
      var s := Decimal(n);
      DecimalValue(n / 10);
      assert s[..|s| - 1] == Decimal(n / 10);
    }
  }

  lemma AtoiDecimal(n: nat)
    ensures Atoi(Decimal(n)) == if n < 0x8000_0000_0000_0000 then Some(n as int) else None
  {
    DecimalValue(n);
    assert 48 <= Decimal(n)[0];
  }

  // ------------------------------------------------------------------ text

  predicate IsSpace(c: byte) {
    c == 32 || 9 <= c <= 13
  }

  function TrimLeft(s: text): text {
    if s != [] && IsSpace(s[0]) then TrimLeft(s[1..]) else s
  }

  function TrimRight(s: text): text {
    if s != [] && IsSpace(s[|s| - 1]) then TrimRight(s[..|s| - 1]) else s
  }

  function TrimSpace(s: text): text {
    TrimRight(TrimLeft(s))
  }

  /** Without its line ending: TrimRight with the set "\r\n". */
  function TrimEol(s: text): text {
    if s != [] && (s[|s| - 1] == NEWLINE || s[|s| - 1] == RETURN) then TrimEol(s[..|s| - 1]) else s
  }

  /** The text before and after the first c; all of it and nothing if there is none. */
  function Cut(s: text, c: byte): (text, text) {
    if s == [] then ([], [])
    else if s[0] == c then ([], s[1..])
    else ([s[0]] + Cut(s[1..], c).0, Cut(s[1..], c).1)
  }

  lemma {:induction false} CutAtFirst(a: text, b: text, c: byte)
    requires c !in a
    ensures Cut(a + [c] + b, c) == (a, b)
  {
    var s := a + [c] + b;
    if a == [] {
      assert s[1..] == b;
    } else {
      assert s[1..] == a[1..] + [c] + b;
      CutAtFirst(a[1..], b, c);
      assert [a[0]] + a[1..] == a;
    }
  }

  /** A message as one line: strings.ReplaceAll of newlines by spaces. */
  function OneLine(s: text): (r: text)
    ensures |r| == |s| && NEWLINE !in r
    ensures NEWLINE !in s ==> r == s
  {
    seq(|s|, i requires 0 <= i < |s| => if s[i] == NEWLINE then SPACE else s[i])
  }

  // ------------------------------------------------------------------ writing

  /** A reply on the wire. */
  function Frame(reply: Reply): seq<byte> {
    match reply
    case Err(message) => ERROR + [SPACE] + OneLine(message) + [NEWLINE]
    case Ok(data) => OK + [SPACE] + Decimal(|data|) + [NEWLINE] + data
  }

  method ReplaceNewlines(s: text) returns (r: text)
    ensures r == OneLine(s)
  {
    r := [];
    var i := 0;
    while i < |s|
      invariant 0 <= i <= |s| && |r| == i
      invariant forall j :: 0 <= j < i ==> r[j] == OneLine(s)[j]
    {
      r := r + [if s[i] == NEWLINE then SPACE else s[i]];
      i := i + 1;
    }
  }

  method ServeRequest(written: seq<byte>, request: text, respond: text -> Reply) returns (w: seq<byte>)
    ensures w == written + Frame(respond(request))
  {
    hide Decimal;
    var reply := respond(request);
    if reply.Err? {
      var line := ReplaceNewlines(reply.error);
      w := written + (ERROR + [SPACE] + line + [NEWLINE]);
      return;
    }
    w := written + (OK + [SPACE] + Decimal(|reply.value|) + [NEWLINE]);
    w := w + reply.value;
  }

  // ------------------------------------------------------------------ reading

  datatype Failure = NoLine | Remote(message: text) | BadLength | OutOfRange | Short | Unexpected

  /** The reply that a stream starts with, and how far it goes. */
  datatype Seen = Seen(result: Result<seq<byte>, Failure>, used: nat)

  function FirstNewline(s: seq<byte>): (i: nat)
    ensures i <= |s| && (i < |s| ==> s[i] == NEWLINE) && NEWLINE !in s[..i]
  {
    if s == [] || s[0] == NEWLINE then 0
    else
      var i := FirstNewline(s[1..]);
      assert s[..1 + i] == [s[0]] + s[1..][..i];
      1 + i
  }

  /** Request's reading of a reply. */
  function ReadReply(stream: seq<byte>): (r: Seen)
    ensures r.used <= |stream| && (stream != [] ==> r.used > 0)
  {
    var i := FirstNewline(stream);
    if i == |stream| then Seen(Err(NoLine), i)
    else
      var cut := Cut(TrimEol(stream[..i + 1]), SPACE);
      if cut.0 == ERROR then Seen(Err(Remote(cut.1)), i + 1)
      else if cut.0 == OK then ReadPayload(stream, i + 1, Atoi(TrimSpace(cut.1)))
      else Seen(Err(Unexpected), i + 1)
  }

  function ReadPayload(stream: seq<byte>, start: nat, length: Option<int>): (r: Seen)
    requires start <= |stream|
    ensures start <= r.used <= |stream|
  {
    if length.None? then Seen(Err(BadLength), start)
    else if length.value < 0 || length.value > MAX_REPLY then Seen(Err(OutOfRange), start)
    else if start + length.value > |stream| then Seen(Err(Short), |stream|)
    else Seen(Ok(stream[start..start + length.value]), start + length.value)
  }

  lemma {:induction false} LineEnds(line: text, rest: seq<byte>)
    requires NEWLINE !in line
    ensures FirstNewline(line + [NEWLINE] + rest) == |line|
  {
    var s := line + [NEWLINE] + rest;
    if line != [] {
      assert s[1..] == line[1..] + [NEWLINE] + rest;
      assert s[0] == line[0] != NEWLINE;
      LineEnds(line[1..], rest);
    }
  }

  lemma TrimEolLine(line: text)
    ensures TrimEol(line + [NEWLINE]) == TrimEol(line)
  {
    var s := line + [NEWLINE];
    assert s[..|s| - 1] == line;
  }

  /** Trimming takes nothing from what comes before the last character that stays. */
  lemma {:induction false} TrimEolKeeps(head: text, tail: text)
    requires head != [] && head[|head| - 1] != NEWLINE && head[|head| - 1] != RETURN
    ensures TrimEol(head + tail) == head + TrimEol(tail)
    decreases |tail|
  {
    var s := head + tail;
    if tail == [] {
      assert s == head && head + TrimEol([]) == head;
    } else {
      assert s[..|s| - 1] == head + tail[..|tail| - 1] && s[|s| - 1] == tail[|tail| - 1];
      TrimEolKeeps(head, tail[..|tail| - 1]);
    }
  }

  lemma Words()
    ensures SPACE !in OK && SPACE !in ERROR && NEWLINE !in OK && NEWLINE !in ERROR && OK != ERROR
    ensures OK != [] && ERROR != []
  {
    assert |OK| != |ERROR|;
    assert OK == [107, 48, 115, 109, 111, 115, 45, 111, 107];
    assert ERROR == [107, 48, 115, 109, 111, 115, 45, 101, 114, 114, 111, 114];
  }

  /** The status line of a frame, as the host cuts it up. */
  lemma StatusLine(kind: text, field: text, rest: seq<byte>)
    requires SPACE !in kind && NEWLINE !in kind && NEWLINE !in field
    ensures var stream := kind + [SPACE] + field + [NEWLINE] + rest;
      var i := FirstNewline(stream);
      && i + 1 == |kind| + |field| + 2 && i < |stream|
      && Cut(TrimEol(stream[..i + 1]), SPACE) == (kind, TrimEol(field))
      && stream[i + 1..] == rest
  {
    hide TrimEol, Cut, FirstNewline;
    var head := kind + [SPACE];
    var line := head + field;
    LineEnds(line, rest);
    var stream := kind + [SPACE] + field + [NEWLINE] + rest;
    assert stream[..|line| + 1] == line + [NEWLINE];
    TrimEolLine(line);
    TrimEolKeeps(head, field);
    CutAtFirst(kind, TrimEol(field), SPACE);
  }

  lemma DigitsAreKept(s: text)
    requires s != [] && IsDigits(s)
    ensures TrimEol(s) == s && TrimSpace(s) == s && NEWLINE !in s
  {
    assert 48 <= s[0] && 48 <= s[|s| - 1];
    assert TrimLeft(s) == s;
  }

  /** What the host makes of a reply. */
  function Received(reply: Reply): Result<seq<byte>, Failure> {
    match reply
    case Err(message) => Err(Remote(TrimEol(OneLine(message))))
    case Ok(data) =>
      if |data| <= MAX_REPLY then Ok(data)
      else if |data| < 0x8000_0000_0000_0000 then Err(OutOfRange)
      else Err(BadLength)
  }

  lemma ErrorReadsBack(message: text, rest: seq<byte>)
    ensures ReadReply(Frame(Err(message)) + rest) == Seen(Received(Err(message)), |Frame(Err(message))|)
  {
    hide TrimEol, Cut, FirstNewline, OneLine;
    Words();
    StatusLine(ERROR, OneLine(message), rest);
    assert Frame(Err(message)) + rest == ERROR + [SPACE] + OneLine(message) + [NEWLINE] + rest;
  }

  /** The payload stands right after the status line, whatever follows it. */
  lemma PayloadReadsBack(head: seq<byte>, data: seq<byte>, rest: seq<byte>, stream: seq<byte>)
    requires stream == head + (data + rest)
    ensures |data| <= MAX_REPLY ==> ReadPayload(stream, |head|, Some(|data|)) == Seen(Ok(data), |head| + |data|)
    ensures |data| > MAX_REPLY ==> ReadPayload(stream, |head|, Some(|data|)) == Seen(Err(OutOfRange), |head|)
  {
    assert stream == head + data + rest;
    assert stream[|head|..|head| + |data|] == data;
  }

  lemma DataFrame(data: seq<byte>, rest: seq<byte>)
    ensures Frame(Ok(data)) + rest == OK + [SPACE] + Decimal(|data|) + [NEWLINE] + (data + rest)
    ensures |Frame(Ok(data))| == |OK + [SPACE] + Decimal(|data|) + [NEWLINE]| + |data|
  {
    hide Decimal;
    var head := OK + [SPACE] + Decimal(|data|) + [NEWLINE];
    assert (head + data) + rest == head + (data + rest);
  }

  lemma DataReadsBack(data: seq<byte>, rest: seq<byte>)
    ensures var seen := ReadReply(Frame(Ok(data)) + rest);
      && seen.result == Received(Ok(data))
      && (|data| <= MAX_REPLY ==> seen.used == |Frame(Ok(data))|)
  {
    hide TrimEol, Cut, FirstNewline, Decimal, Atoi, TrimSpace, Frame, ReadPayload;
    Words();
    var digits := Decimal(|data|);
    DigitsAreKept(digits);
    AtoiDecimal(|data|);
    StatusLine(OK, digits, data + rest);
    DataFrame(data, rest);
    var stream := Frame(Ok(data)) + rest;
    var head := OK + [SPACE] + digits + [NEWLINE];
    PayloadReadsBack(head, data, rest, stream);
    NoLength(stream, |head|);
  }

  lemma NoLength(stream: seq<byte>, start: nat)
    requires start <= |stream|
    ensures ReadPayload(stream, start, None) == Seen(Err(BadLength), start)
  {
  }

  /**
   * Any payload of at most 8 MiB arrives as it was sent, whatever bytes it holds and whatever follows the
   * reply; a longer one is refused; an error arrives as one line, without carriage returns at its end.
   */
  lemma FrameReadsBack(reply: Reply, rest: seq<byte>)
    ensures ReadReply(Frame(reply) + rest).result == Received(reply)
    ensures reply.Ok? ==> (ReadReply(Frame(reply) + rest).result == Ok(reply.value) <==> |reply.value| <= MAX_REPLY)
    ensures (reply.Ok? ==> |reply.value| <= MAX_REPLY) ==> ReadReply(Frame(reply) + rest).used == |Frame(reply)|
  {
    hide ReadReply, Frame;
    match reply
    case Ok(data) => DataReadsBack(data, rest);
    case Err(message) => ErrorReadsBack(message, rest);
  }

  lemma {:induction false} TrimEolExactly(s: text)
    ensures |TrimEol(s)| <= |s|
    ensures TrimEol(s) == s <==> s == [] || (s[|s| - 1] != NEWLINE && s[|s| - 1] != RETURN)
    decreases |s|
  {
    if s != [] && (s[|s| - 1] == NEWLINE || s[|s| - 1] == RETURN) {
      TrimEolExactly(s[..|s| - 1]);
    }
  }

  /** The host sees an error's own message exactly when it is one line that does not end in a carriage return. */
  lemma MessageArrivesExactly(message: text)
    ensures Received(Err(message)) == Err(Remote(message)) <==>
      NEWLINE !in message && (message == [] || message[|message| - 1] != RETURN)
  {
    var line := OneLine(message);
    TrimEolExactly(line);
    if NEWLINE in message {
      var i :| 0 <= i < |message| && message[i] == NEWLINE;
      assert line[i] == SPACE;
      TrimEolIsAPrefix(line);
    }
  }

  lemma {:induction false} TrimEolIsAPrefix(s: text)
    ensures TrimEol(s) <= s
    decreases |s|
  {
    if s != [] && (s[|s| - 1] == NEWLINE || s[|s| - 1] == RETURN) {
      TrimEolIsAPrefix(s[..|s| - 1]);
    }
  }

  method ReadLine(stream: seq<byte>) returns (line: text, ok: bool)
    ensures var i := FirstNewline(stream);
      ok == (i < |stream|) && (ok ==> line == stream[..i + 1])
  {
    var i := 0;
    assert stream[0..] == stream;
    while i < |stream|
      invariant 0 <= i <= |stream|
      invariant FirstNewline(stream) == i + FirstNewline(stream[i..])
    {
      assert stream[i..][1..] == stream[i + 1..];
      if stream[i] == NEWLINE {
        return stream[..i + 1], true;
      }
      i := i + 1;
    }
    return stream, false;
  }

  /** The host's side of one request: what it sends, and what it makes of the bytes that come back. */
  method Request(name: text, stream: seq<byte>) returns (sent: seq<byte>, r: Result<seq<byte>, Failure>)
    ensures sent == name + [NEWLINE] && r == ReadReply(stream).result
  {
    hide Atoi, TrimSpace, TrimEol, Cut, FirstNewline;
    sent := name + [NEWLINE];
    var line, ok := ReadLine(stream);
    if !ok {
      return sent, Err(NoLine);
    }
    var status := TrimEol(line);
    var cut := Cut(status, SPACE);
    if cut.0 == ERROR {
      return sent, Err(Remote(cut.1));
    }
    if cut.0 != OK {
      return sent, Err(Unexpected);
    }
    var n := Atoi(TrimSpace(cut.1));
    if n.None? {
      return sent, Err(BadLength);
    }
    if n.value < 0 || n.value > MAX_REPLY {
      return sent, Err(OutOfRange);
    }
    if |line| + n.value > |stream| {
      return sent, Err(Short);
    }
    return sent, Ok(stream[|line|..|line| + n.value]);
  }
}
