/** A session on the control port (internal/control/control.go): lines in, frames out, power commands on to PID 1. */
module ControlSession {
  import opened Bytes
  import opened ControlFrames

  datatype Command = PowerOff | Reboot

  datatype Event = Ask(request: text) | Power(command: Command) | Noise

  const REQUESTS: seq<text> := [Raw("kubeconfig"), Raw("token"), Raw("status"), Raw("cat"), Raw("dmesg")]

  /** A scanner gives up on a line that does not fit its 64 KiB buffer. */
  const MAX_LINE: nat := 64 * 1024

  function Lower(c: byte): byte {
    if 65 <= c <= 90 then c + 32 else c
  }

  function ToLower(s: text): (r: text)
    ensures |r| == |s| && forall i :: 0 <= i < |s| ==> r[i] == Lower(s[i])
  {
    seq(|s|, i requires 0 <= i < |s| => Lower(s[i]))
  }

  function Normalise(line: text): text {
    ToLower(TrimSpace(line))
  }

  /** Parse: a power command, from a line in any case, with spaces around it. */
  function Parse(line: text): Option<Command> {
    var word := Normalise(line);
    if word == Raw("poweroff") then Some(PowerOff)
    else if word == Raw("reboot") || word == Raw("restart") then Some(Reboot)
    else None
  }

  predicate IsRequest(line: text) {
    Cut(line, SPACE).0 in REQUESTS
  }

  function Classify(line: text): Event {
    var seen := Normalise(line);
    if IsRequest(seen) then Ask(seen)
    else if Parse(seen).Some? then Power(Parse(seen).value)
    else Noise
  }

  function DropReturn(line: text): text {
    if line != [] && line[|line| - 1] == RETURN then line[..|line| - 1] else line
  }

  /** The lines a scanner finds: also a last one without a newline, and nothing from a line too long on. */
  function Scan(stream: seq<byte>): seq<text> {
    if stream == [] then []
    else
      var i := FirstNewline(stream);
      if i >= MAX_LINE then []
      else if i == |stream| then [DropReturn(stream)]
      else [DropReturn(stream[..i])] + Scan(stream[i + 1..])
  }

  // ------------------------------------------------------------------ the session

  /** What the node does on the port and towards PID 1, in order. */
  datatype Out = Wrote(frame: seq<byte>) | Delivered(command: Command)

  const ACK: Reply := Ok([])

  /** What a session does about its lines; PID 1 takes `patience` commands before it is done listening. */
  function Session(lines: seq<text>, respond: text -> Reply, patience: nat): seq<Out> {
    if lines == [] then []
    else
      match Classify(lines[0])
      case Noise => Session(lines[1..], respond, patience)
      case Ask(request) => [Wrote(Frame(respond(request)))] + Session(lines[1..], respond, patience)
      case Power(c) =>
        if patience == 0 then [Wrote(Frame(ACK))]
        else [Wrote(Frame(ACK)), Delivered(c)] + Session(lines[1..], respond, patience - 1)
  }

  /** Whether a session showed that the port is alive: it answered a request or handed on a command. */
  predicate Forwards(lines: seq<text>, patience: nat) {
    lines != [] &&
    match Classify(lines[0])
    case Noise => Forwards(lines[1..], patience)
    case Ask(_) => true
    case Power(_) => patience > 0
  }

  lemma NoEvents(respond: text -> Reply, patience: nat)
    ensures Session([], respond, patience) == [] && !Forwards([], patience)
  {
  }

  lemma NextEvent(line: text, rest: seq<text>, respond: text -> Reply, patience: nat)
    ensures Session([line] + rest, respond, patience) ==
      match Classify(line)
      case Noise => Session(rest, respond, patience)
      case Ask(request) => [Wrote(Frame(respond(request)))] + Session(rest, respond, patience)
      case Power(c) =>
        if patience == 0 then [Wrote(Frame(ACK))]
        else [Wrote(Frame(ACK)), Delivered(c)] + Session(rest, respond, patience - 1)
    ensures Forwards([line] + rest, patience) == match Classify(line)
      case Noise => Forwards(rest, patience)
      case Ask(_) => true
      case Power(_) => patience > 0
  {
    hide Frame, Classify;
    assert ([line] + rest)[1..] == rest;
  }

  /** The next line of a port, as Scan sees it, and what is left after it. */
  method NextLine(stream: seq<byte>) returns (line: Option<text>, rest: seq<byte>)
    ensures line.None? ==> Scan(stream) == []
    ensures line.Some? ==> |rest| < |stream| && Scan(stream) == [line.value] + Scan(rest)
  {
    hide FirstNewline;
    if stream == [] {
      return None, [];
    }
    var raw, ok := ReadLine(stream);
    if !ok {
      if |stream| >= MAX_LINE {
        return None, [];
      }
      assert Scan([]) == [];
      return Some(DropReturn(stream)), [];
    }
    if |raw| > MAX_LINE {
      return None, [];
    }
    assert raw[..|raw| - 1] == stream[..|raw| - 1];
    return Some(DropReturn(raw[..|raw| - 1])), stream[|raw|..];
  }

  /** The bytes the node acknowledges a power command with. */
  method ServeCommandAck(written: seq<byte>) returns (w: seq<byte>)
    ensures w == written + Frame(ACK)
  {
    assert Decimal(0) == [48];
    assert Frame(ACK) == OK + [SPACE, 48, NEWLINE];
    w := written + (OK + [SPACE, 48, NEWLINE]);
  }

  /** readOnce: answer requests on the port; acknowledge power commands, then hand them on. */
  method ReadOnce(stream: seq<byte>, respond: text -> Reply, patience: nat) returns (outs: seq<Out>, forwarded: bool)
    ensures outs == Session(Scan(stream), respond, patience)
    ensures forwarded <==> Forwards(Scan(stream), patience)
  {
    hide Frame, Scan, Classify, Session, Forwards;
    outs, forwarded := [], false;
    var port, left := stream, patience;
    while true
      invariant Session(Scan(stream), respond, patience) == outs + Session(Scan(port), respond, left)
      invariant Forwards(Scan(stream), patience) <==> forwarded || Forwards(Scan(port), left)
      decreases |port|
    {
      var line, rest := NextLine(port);
      if line.None? {
        assert Session([], respond, left) == [] && !Forwards([], left) by { NoEvents(respond, left); }
        assert outs + [] == outs;
        return;
      }
      NextEvent(line.value, Scan(rest), respond, left);
      port := rest;
      var event := Classify(line.value);
      match event
      case Noise =>
      case Ask(request) =>
        var frame := ServeRequest([], request, respond);
        assert frame == Frame(respond(request));
        ghost var later := Session(Scan(rest), respond, left);
        assert outs + ([Wrote(frame)] + later) == (outs + [Wrote(frame)]) + later;
        outs := outs + [Wrote(frame)];
        forwarded := true;
      case Power(c) =>
        var frame := ServeCommandAck([]);
        assert frame == Frame(ACK);
        if left == 0 {
          return outs + [Wrote(frame)], forwarded;
        }
        ghost var later := Session(Scan(rest), respond, left - 1);
        assert outs + ([Wrote(frame), Delivered(c)] + later) == (outs + [Wrote(frame)] + [Delivered(c)]) + later;
        outs := outs + [Wrote(frame)];
        left := left - 1;
        outs := outs + [Delivered(c)];
        forwarded := true;
    }
  }

  // ------------------------------------------------------------------ one frame a line

  function Recognised(lines: seq<text>): seq<Event> {
    if lines == [] then []
    else (if Classify(lines[0]) == Noise then [] else [Classify(lines[0])]) + Recognised(lines[1..])
  }

  function Answer(e: Event, respond: text -> Reply): Reply {
    if e.Ask? then respond(e.request) else ACK
  }

  function Answered(events: seq<Event>, respond: text -> Reply): (r: seq<Reply>)
    ensures |r| == |events|
  {
    seq(|events|, i requires 0 <= i < |events| => Answer(events[i], respond))
  }

  /** Power commands among events. */
  function Commands(events: seq<Event>): seq<Command> {
    if events == [] then []
    else (if events[0].Power? then [events[0].command] else []) + Commands(events[1..])
  }

  function Frames(outs: seq<Out>): seq<seq<byte>> {
    if outs == [] then [] else (if outs[0].Wrote? then [outs[0].frame] else []) + Frames(outs[1..])
  }

  function Deliveries(outs: seq<Out>): seq<Command> {
    if outs == [] then [] else (if outs[0].Delivered? then [outs[0].command] else []) + Deliveries(outs[1..])
  }

  function Framed(replies: seq<Reply>): (r: seq<seq<byte>>)
    ensures |r| == |replies|
  {
    seq(|replies|, i requires 0 <= i < |replies| => Frame(replies[i]))
  }

  lemma AnsweredCons(e: Event, es: seq<Event>, respond: text -> Reply)
    ensures Answered([e] + es, respond) == [Answer(e, respond)] + Answered(es, respond)
    ensures Framed(Answered([e] + es, respond)) == [Frame(Answer(e, respond))] + Framed(Answered(es, respond))
  {
    hide Frame;
  }

  lemma OutsCons(o: Out, outs: seq<Out>)
    ensures Frames([o] + outs) == (if o.Wrote? then [o.frame] else []) + Frames(outs)
    ensures Deliveries([o] + outs) == (if o.Delivered? then [o.command] else []) + Deliveries(outs)
  {
    assert ([o] + outs)[1..] == outs;
  }

  /**
   * While PID 1 listens, each recognised line is answered by exactly one frame, in order, and no other
   * line by any; and each power command is handed on once, in order.
   */
  lemma {:induction false} OneFrameEach(lines: seq<text>, respond: text -> Reply, patience: nat)
    requires |Commands(Recognised(lines))| <= patience
    ensures var outs := Session(lines, respond, patience);
      && Frames(outs) == Framed(Answered(Recognised(lines), respond))
      && Deliveries(outs) == Commands(Recognised(lines))
    decreases |lines|
  {
    hide Frame, Classify, Frames, Deliveries, Answered, Framed;
    if lines == [] {
      NothingOut(respond);
    } else {
      var es := Recognised(lines[1..]);
      var e := Classify(lines[0]);
      match e
      case Noise =>
        assert Recognised(lines) == es;
        OneFrameEach(lines[1..], respond, patience);
      case Ask(request) =>
        assert Recognised(lines) == [e] + es && ([e] + es)[1..] == es;
        OneFrameEach(lines[1..], respond, patience);
        AnsweredCons(e, es, respond);
        OutsCons(Wrote(Frame(respond(request))), Session(lines[1..], respond, patience));
      case Power(c) =>
        assert Recognised(lines) == [e] + es && ([e] + es)[1..] == es;
        OneFrameEach(lines[1..], respond, patience - 1);
        AnsweredCons(e, es, respond);
        var later := Session(lines[1..], respond, patience - 1);
        assert [Wrote(Frame(ACK)), Delivered(c)] + later == [Wrote(Frame(ACK))] + ([Delivered(c)] + later);
        OutsCons(Wrote(Frame(ACK)), [Delivered(c)] + later);
        OutsCons(Delivered(c), later);
    }
  }

  lemma NothingOut(respond: text -> Reply)
    ensures Frames([]) == Framed(Answered([], respond)) && Deliveries([]) == []
  {
  }

  /** A power command is acknowledged right before it is handed on, whatever comes before and after. */
  lemma {:induction false} AckComesFirst(lines: seq<text>, respond: text -> Reply, patience: nat, i: nat)
    requires i < |Session(lines, respond, patience)| && Session(lines, respond, patience)[i].Delivered?
    ensures i > 0 && Session(lines, respond, patience)[i - 1] == Wrote(Frame(ACK))
    decreases |lines|
  {
    hide Frame, Classify;
    match Classify(lines[0])
    case Noise => AckComesFirst(lines[1..], respond, patience, i);
    case Ask(_) => AckComesFirst(lines[1..], respond, patience, i - 1);
    case Power(_) =>
      if i > 1 {
        AckComesFirst(lines[1..], respond, patience - 1, i - 2);
      }
  }

  // ------------------------------------------------------------------ what the host reads

  function Joined(frames: seq<seq<byte>>): seq<byte> {
    if frames == [] then [] else frames[0] + Joined(frames[1..])
  }

  /** Every reply on a stream, read one after the other. */
  function ReadAll(stream: seq<byte>): seq<Result<seq<byte>, Failure>> {
    if stream == [] then []
    else [ReadReply(stream).result] + ReadAll(stream[ReadReply(stream).used..])
  }

  /**
   * A host that reads a whole session gets exactly the answers to its recognised lines, in order, as long
   * as no payload is over 8 MiB, whatever bytes the payloads hold.
   */
  lemma {:induction false} RepliesReadBack(replies: seq<Reply>)
    requires forall i :: 0 <= i < |replies| && replies[i].Ok? ==> |replies[i].value| <= MAX_REPLY
    ensures ReadAll(Joined(Framed(replies))) == seq(|replies|, i requires 0 <= i < |replies| => Received(replies[i]))
    decreases |replies|
  {
    hide Frame, ReadReply, Received;
    if replies != [] {
      var later := replies[1..];
      RepliesReadBack(later);
      var frame, rest := Frame(replies[0]), Joined(Framed(later));
      assert Framed(replies)[1..] == Framed(later) && Framed(replies)[0] == frame;
      FrameReadsBack(replies[0], rest);
      FrameIsNotEmpty(replies[0]);
      assert (frame + rest)[|frame|..] == rest;
    }
  }

  lemma FrameIsNotEmpty(reply: Reply)
    ensures Frame(reply) != []
  {
  }

  lemma SessionReadsBack(stream: seq<byte>, respond: text -> Reply, patience: nat)
    requires |Commands(Recognised(Scan(stream)))| <= patience
    requires forall i :: 0 <= i < |Recognised(Scan(stream))| ==>
      var r := Answer(Recognised(Scan(stream))[i], respond); r.Ok? ==> |r.value| <= MAX_REPLY
    ensures var answers := Answered(Recognised(Scan(stream)), respond);
      ReadAll(Joined(Frames(Session(Scan(stream), respond, patience)))) ==
      seq(|answers|, i requires 0 <= i < |answers| => Received(answers[i]))
  {
    hide Session, Recognised, Scan, Frame, Received;
    OneFrameEach(Scan(stream), respond, patience);
    RepliesReadBack(Answered(Recognised(Scan(stream)), respond));
  }

  // ------------------------------------------------------------------ what the node sees of a line

  /** A line that trimming and lower-casing leaves alone. */
  predicate IsNormal(line: text) {
    && (line == [] || (!IsSpace(line[0]) && !IsSpace(line[|line| - 1])))
    && forall i :: 0 <= i < |line| ==> !(65 <= line[i] <= 90)
  }

  lemma {:induction false} TrimRightFacts(s: text)
    ensures TrimRight(s) <= s && (TrimRight(s) == s <==> s == [] || !IsSpace(s[|s| - 1]))
    ensures TrimRight(s) != [] ==> !IsSpace(TrimRight(s)[|TrimRight(s)| - 1])
    decreases |s|
  {
    if s != [] && IsSpace(s[|s| - 1]) {
      TrimRightFacts(s[..|s| - 1]);
    }
  }

  lemma {:induction false} TrimLeftFacts(s: text)
    ensures |TrimLeft(s)| <= |s| && (TrimLeft(s) == s <==> s == [] || !IsSpace(s[0]))
    ensures TrimLeft(s) != [] ==> !IsSpace(TrimLeft(s)[0])
  {
    if s != [] && IsSpace(s[0]) {
      TrimLeftFacts(s[1..]);
    }
  }

  lemma NormalisedIsNormal(line: text)
    ensures IsNormal(Normalise(line))
    ensures Normalise(line) == line <==> IsNormal(line)
  {
    var a := TrimLeft(line);
    var b := TrimRight(a);
    TrimLeftFacts(line);
    TrimRightFacts(a);
    hide TrimLeft, TrimRight;
    var c := ToLower(b);
    if IsNormal(line) {
      assert forall i :: 0 <= i < |line| ==> c[i] == line[i];
      assert c == line;
    }
    if c == line {
      assert |a| == |line| && |b| == |a|;
    }
  }

  /** What a request is answered for is its line exactly when that is trimmed and has no capital letters. */
  lemma RequestSeenExactly(line: text)
    requires Classify(line).Ask?
    ensures Classify(line).request == line <==> IsNormal(line)
  {
    hide Normalise, IsRequest, Parse, IsNormal;
    NormalisedIsNormal(line);
  }

  /** A power command is recognised in any case and with any spaces around it, and nothing else is one. */
  lemma CommandSeenExactly(line: text)
    ensures Classify(line) == Power(PowerOff) <==> Normalise(line) == Raw("poweroff")
    ensures Classify(line) == Power(Reboot) <==> Normalise(line) == Raw("reboot") || Normalise(line) == Raw("restart")
  {
    var seen := Normalise(line);
    NormalisedIsNormal(line);
    NormalisedIsNormal(seen);
    hide Normalise;
    if Parse(seen).Some? {
      WordsAreNoRequests();
    }
  }

  lemma {:induction false} OneWord(word: text)
    requires SPACE !in word
    ensures Cut(word, SPACE).0 == word
  {
    if word != [] {
      OneWord(word[1..]);
      assert [word[0]] + word[1..] == word;
    }
  }

  lemma OtherLetter(word: text)
    requires SPACE !in word && word != [] && (word[0] == 112 || word[0] == 114)
    ensures !IsRequest(word)
  {
    OneWord(word);
    hide Cut;
    assert Raw("kubeconfig")[0] == 107;
    assert Raw("token")[0] == 116;
    assert Raw("status")[0] == 115;
    assert Raw("cat")[0] == 99;
    assert Raw("dmesg")[0] == 100;
  }

  lemma WordsAreNoRequests()
    ensures !IsRequest(Raw("poweroff")) && !IsRequest(Raw("reboot")) && !IsRequest(Raw("restart"))
    ensures Raw("poweroff") != Raw("reboot") && Raw("poweroff") != Raw("restart")
  {
    hide IsRequest;
    assert |Raw("poweroff")| == 8 && |Raw("reboot")| == 6 && |Raw("restart")| == 7;
    assert Raw("poweroff")[0] == 112;
    assert Raw("reboot")[0] == 114;
    assert Raw("restart")[0] == 114;
    OtherLetter(Raw("poweroff"));
    OtherLetter(Raw("reboot"));
    OtherLetter(Raw("restart"));
  }

  /** The path in a request loses its capitals, so a file whose name has one cannot be asked for. */
  lemma {:induction false} CapitalsAreLost()
    ensures Classify(Raw("cat /run/K")) == Ask(Raw("cat /run/k"))
  {
    var verb, path := Raw("cat"), Raw("/run/k");
    var line, seen := Raw("cat /run/K"), Raw("cat /run/k");
    Letters();
    hide Raw;
    assert TrimSpace(line) == line by {
      TrimLeftFacts(line);
      TrimRightFacts(line);
    }
    hide TrimSpace, TrimLeft, TrimRight, Cut;
    assert ToLower(line) == seen;
    CutAtFirst(verb, path, SPACE);
    assert verb + [SPACE] + path == seen;
    assert REQUESTS[3] == verb;
  }

  lemma Letters()
    ensures Raw("cat /run/K") == [99, 97, 116, 32, 47, 114, 117, 110, 47, 75]
    ensures Raw("cat /run/k") == [99, 97, 116, 32, 47, 114, 117, 110, 47, 107]
    ensures Raw("cat") == [99, 97, 116] && Raw("/run/k") == [47, 114, 117, 110, 47, 107]
  {
  }

  // ------------------------------------------------------------------ one request, end to end

  lemma DroppedReturn(line: text)
    ensures Normalise(DropReturn(line)) == Normalise(line)
  {
    if line != [] && line[|line| - 1] == RETURN {
      TrimWithoutLast(line);
    }
  }

  lemma {:induction false} TrimWithoutLast(s: text)
    requires s != [] && IsSpace(s[|s| - 1])
    ensures TrimSpace(s[..|s| - 1]) == TrimSpace(s)
    decreases |s|
  {
    var t := s[..|s| - 1];
    if IsSpace(s[0]) {
      if |s| > 1 {
        assert t[1..] == s[1..][..|s[1..]| - 1];
        TrimWithoutLast(s[1..]);
      }
    } else {
      assert t[0] == s[0];
    }
  }

  /** A request sent as one line is answered with what the responder says about that line, normalised. */
  lemma RequestIsAnswered(name: text, respond: text -> Reply, patience: nat)
    requires NEWLINE !in name && |name| < MAX_LINE && Classify(name).Ask?
    ensures ReadReply(Joined(Frames(Session(Scan(name + [NEWLINE]), respond, patience)))).result ==
      Received(respond(Normalise(name)))
  {
    hide Frame, ReadReply, Received, Normalise, IsRequest, Parse;
    LineEnds(name, []);
    var stream := name + [NEWLINE];
    assert stream + [] == stream && stream[..|name|] == name && stream[|name| + 1..] == [];
    DroppedReturn(name);
    var line := DropReturn(name);
    assert Scan(stream) == [line] by { assert Scan([]) == []; hide DropReturn; }
    var reply := respond(Normalise(name));
    assert Session([line], respond, patience) == [Wrote(Frame(reply))] by { assert Session([], respond, patience) == []; }
    assert Frames([Wrote(Frame(reply))]) == [Frame(reply)] by { assert Frames([]) == []; }
    assert Joined([Frame(reply)]) == Frame(reply) by { assert Joined([]) == []; }
    FrameReadsBack(reply, []);
    assert Frame(reply) + [] == Frame(reply);
  }
}
