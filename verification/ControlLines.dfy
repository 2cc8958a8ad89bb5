/** The words of the control port: which lines are requests, how lines are found, what stands on the wire. */
module ControlLines {
  import opened Bytes
  import opened ControlFrames
  import opened ControlSession

  // ------------------------------------------------------------------ the five requests

  /** The line is the verb alone, or the verb and an argument after a space. */
  predicate Opens(verb: text, line: text) {
    line == verb || verb + Raw(" ") <= line
  }

  predicate OpensARequest(line: text) {
    || Opens(Raw("kubeconfig"), line) || Opens(Raw("token"), line) || Opens(Raw("status"), line)
    || Opens(Raw("cat"), line) || Opens(Raw("dmesg"), line)
  }

  lemma {:induction false} CutMeans(s: text, c: byte)
    ensures c !in Cut(s, c).0 && Cut(s, c).0 <= s
    ensures s == Cut(s, c).0 || Cut(s, c).0 + [c] <= s
  {
    if s != [] && s[0] != c {
      CutMeans(s[1..], c);
      var word := Cut(s[1..], c).0;
      assert s == [s[0]] + s[1..] && Cut(s, c).0 == [s[0]] + word;
      assert ([s[0]] + word) + [c] == [s[0]] + (word + [c]);
    }
  }

  lemma FirstWord(verb: text, line: text)
    requires SPACE !in verb
    ensures Cut(line, SPACE).0 == verb <==> Opens(verb, line)
  {
    hide Raw;
    OneSpace();
    CutMeans(line, SPACE);
    if line == verb {
      OneWord(verb);
    } else if verb + [SPACE] <= line {
      assert line == verb + [SPACE] + line[|verb| + 1..];
      CutAtFirst(verb, line[|verb| + 1..], SPACE);
    }
  }

  lemma OneSpace()
    ensures Raw(" ") == [SPACE]
  {
  }

  lemma Verbs()
    ensures REQUESTS == [Raw("kubeconfig"), Raw("token"), Raw("status"), Raw("cat"), Raw("dmesg")]
    ensures SPACE !in Raw("kubeconfig") && SPACE !in Raw("token") && SPACE !in Raw("status")
    ensures SPACE !in Raw("cat") && SPACE !in Raw("dmesg")
  {
  }

  /** Each of the five verbs is answered, with or without an argument, and no other line is. */
  lemma AnsweredExactly(line: text)
    ensures Classify(line).Ask? <==> OpensARequest(Normalise(line))
    ensures Classify(line).Ask? ==> Classify(line).request == Normalise(line)
  {
    hide Normalise, Cut, Opens, Raw, Parse;
    Verbs();
    var seen := Normalise(line);
    FirstWord(Raw("kubeconfig"), seen);
    FirstWord(Raw("token"), seen);
    FirstWord(Raw("status"), seen);
    FirstWord(Raw("cat"), seen);
    FirstWord(Raw("dmesg"), seen);
  }

  predicate AllSpaces(s: text) {
    forall c :: c in s ==> Is(c, ' ') || 9 <= c <= 13
  }

  /** A word, or several: no white space at either end. */
  predicate Tight(s: text) {
    s != [] && !AllSpaces(s[..1]) && !AllSpaces(s[|s| - 1..])
  }

  lemma {:induction false} LeftTrimmed(left: text, rest: text)
    requires AllSpaces(left) && (rest == [] || !AllSpaces(rest[..1]))
    ensures TrimLeft(left + rest) == rest
  {
    if left == [] {
      assert left + rest == rest;
      if rest != [] { assert rest[..1] == [rest[0]]; }
    } else {
      assert (left + rest)[1..] == left[1..] + rest && left[0] in left;
      LeftTrimmed(left[1..], rest);
    }
  }

  lemma {:induction false} RightTrimmed(rest: text, right: text)
    requires AllSpaces(right) && (rest == [] || !AllSpaces(rest[|rest| - 1..]))
    ensures TrimRight(rest + right) == rest
    decreases |right|
  {
    var s := rest + right;
    if right == [] {
      assert s == rest;
      if rest != [] { assert rest[|rest| - 1..] == [rest[|rest| - 1]]; }
    } else {
      assert s[..|s| - 1] == rest + right[..|right| - 1] && s[|s| - 1] == right[|right| - 1];
      assert right[|right| - 1] in right;
      RightTrimmed(rest, right[..|right| - 1]);
    }
  }

  /** White space around what is typed is not seen, and neither is the case of its letters. */
  lemma SeenThrough(left: text, typed: text, right: text)
    requires AllSpaces(left) && AllSpaces(right) && Tight(typed)
    ensures var seen := Normalise(left + typed + right);
      && |seen| == |typed|
      && forall i :: 0 <= i < |typed| ==>
        seen[i] as int == if 'A' as int <= typed[i] as int <= 'Z' as int then typed[i] as int + 32 else typed[i] as int
  {
    hide AllSpaces;
    assert left + typed + right == left + (typed + right);
    assert (typed + right)[..1] == typed[..1];
    LeftTrimmed(left, typed + right);
    RightTrimmed(typed, right);
  }

  lemma BlankLineIsEmpty(line: text)
    requires AllSpaces(line)
    ensures Normalise(line) == []
  {
    assert line + [] == line;
    LeftTrimmed(line, []);
  }

  // ------------------------------------------------------------------ lines

  /** A line a scanner can hold: less than 65536 bytes and no newline. */
  predicate IsLine(line: text) {
    |line| < 65536 && forall c :: c in line ==> !Is(c, '\n')
  }

  predicate Same(found: text, line: text) {
    found == if line != [] && Is(line[|line| - 1], '\r') then line[..|line| - 1] else line
  }

  lemma {:induction false} NoNewline(s: text)
    requires NEWLINE !in s
    ensures FirstNewline(s) == |s|
  {
    if s != [] {
      assert s[0] in s;
      NoNewline(s[1..]);
    }
  }

  lemma ScanLast(last: text)
    requires IsLine(last)
    ensures |Scan(last)| == if last == [] then 0 else 1
    ensures last != [] ==> Same(Scan(last)[0], last)
  {
    assert NEWLINE !in last;
    NoNewline(last);
  }

  lemma ScanFirst(line: text, rest: seq<byte>)
    requires IsLine(line)
    ensures |Scan(line + Raw("\n") + rest)| == 1 + |Scan(rest)|
    ensures Same(Scan(line + Raw("\n") + rest)[0], line) && Scan(line + Raw("\n") + rest)[1..] == Scan(rest)
  {
    assert Raw("\n") == [NEWLINE] && NEWLINE !in line;
    hide Raw, IsLine;
    LineEnds(line, rest);
    var stream := line + [NEWLINE] + rest;
    assert stream[..|line|] == line && stream[|line| + 1..] == rest;
    assert Scan(stream) == [DropReturn(line)] + Scan(rest);
  }

  /** The scanner finds the lines that were sent, and a last one without a newline, each without a final carriage return. */
  lemma {:induction false} ScanFindsTheLines(lines: seq<text>, last: text)
    requires (forall i :: 0 <= i < |lines| ==> IsLine(lines[i])) && IsLine(last)
    ensures var found := Scan(Terminated(lines) + last);
      && |found| == |lines| + (if last == [] then 0 else 1)
      && (forall i :: 0 <= i < |lines| ==> Same(found[i], lines[i]))
      && (last != [] ==> Same(found[|lines|], last))
    decreases |lines|
  {
    hide IsLine, Same, Scan, Raw;
    if lines == [] {
      assert Terminated(lines) + last == last;
      ScanLast(last);
    } else {
      var line, rest := lines[0], Terminated(lines[1..]) + last;
      ScanFindsTheLines(lines[1..], last);
      ScanFirst(line, rest);
      assert Terminated(lines) + last == line + Raw("\n") + rest;
      var found := Scan(line + Raw("\n") + rest);
      forall i | 0 <= i < |lines| ensures Same(found[i], lines[i]) {
        if i > 0 { assert lines[i] == lines[1..][i - 1] && found[i] == found[1..][i - 1]; }
      }
      assert last != [] ==> found[|lines|] == found[1..][|lines| - 1];
    }
  }

  /** A line that the scanner's buffer cannot hold ends the session: it and all after it go unread. */
  lemma TooLongEndsTheSession(line: text, rest: seq<byte>)
    requires |line| >= 65536 && forall c :: c in line ==> !Is(c, '\n')
    ensures Scan(line + rest) == []
  {
    LongStart(line, rest);
  }

  lemma {:induction false} LongStart(line: text, rest: seq<byte>)
    requires forall c :: c in line ==> !Is(c, '\n')
    ensures FirstNewline(line + rest) >= |line|
  {
    if line != [] {
      assert (line + rest)[1..] == line[1..] + rest && line[0] in line;
      LongStart(line[1..], rest);
    }
  }

  // ------------------------------------------------------------------ whether the port is alive

  /** A session counts as alive exactly when its first recognised line is a request, or PID 1 takes a command. */
  lemma {:induction false} ForwardsExactly(lines: seq<text>, patience: nat)
    ensures Forwards(lines, patience) <==>
      Recognised(lines) != [] && (Recognised(lines)[0].Ask? || patience > 0)
  {
    hide Classify;
    if lines != [] {
      ForwardsExactly(lines[1..], patience);
    }
  }

  // ------------------------------------------------------------------ the wire

  /** Newlines become spaces, and nothing else changes. */
  predicate Flattened(flat: text, message: text) {
    && |flat| == |message|
    && forall i :: 0 <= i < |message| ==> if Is(message[i], '\n') then Is(flat[i], ' ') else flat[i] == message[i]
  }

  /** The decimal digits of n, the most significant first. */
  predicate WritesNumber(s: text, n: nat)
    decreases n
  {
    if n < 10 then |s| == 1 && Is(s[0], "0123456789"[n])
    else |s| > 1 && Is(s[|s| - 1], "0123456789"[n % 10]) && WritesNumber(s[..|s| - 1], n / 10)
  }

  lemma {:induction false} DecimalWrites(n: nat)
    ensures WritesNumber(Decimal(n), n)
  {
    if n >= 10 {
      var s := Decimal(n);
      DecimalWrites(n / 10);
      assert s[..|s| - 1] == Decimal(n / 10);
    }
  }

  /** What a reply looks like: a status line, and after a good one exactly the data. */
  lemma FrameIs(reply: Reply)
    ensures reply.Ok? ==> exists digits :: (
      WritesNumber(digits, |reply.value|) && Frame(reply) == Raw("k0smos-ok ") + digits + Raw("\n") + reply.value)
    ensures reply.Err? ==> exists flat :: (
      Flattened(flat, reply.error) && Frame(reply) == Raw("k0smos-error ") + flat + Raw("\n"))
  {
    assert Raw("k0smos-ok ") == OK + [SPACE] && Raw("k0smos-error ") == ERROR + [SPACE] && Raw("\n") == [NEWLINE];
    hide Raw, WritesNumber, Decimal;
    if reply.Ok? {
      DecimalWrites(|reply.value|);
      assert WritesNumber(Decimal(|reply.value|), |reply.value|);
    } else {
      assert Flattened(OneLine(reply.error), reply.error);
    }
  }

  /** A power command is acknowledged by a good reply without data. */
  lemma AckIs()
    ensures Frame(ACK) == Raw("k0smos-ok 0\n")
  {
    assert Decimal(0) == [48];
  }

  /** What arrives: payloads of at most 8 MiB as they are; errors as one line, shorn of carriage returns at the end. */
  lemma ArrivesExactly(data: seq<byte>)
    ensures Received(Ok(data)) == Ok(data) <==> |data| <= 8388608
    ensures |data| > 8388608 ==> Received(Ok(data)).Err?
  {
  }
}
