/** Where the last n lines of a file start (cmd/k0smosctl/machine_logs.go). */
module LastLines {
  import opened Bytes

  const NEWLINE: byte := 10

  function Newlines(s: seq<byte>): nat {
    if s == [] then 0 else Newlines(s[1..]) + if s[0] == NEWLINE then 1 else 0
  }

  lemma {:induction false} NewlinesAppend(a: seq<byte>, b: seq<byte>)
    ensures Newlines(a + b) == Newlines(a) + Newlines(b)
  {
    if a == [] {
      assert a + b == b;
    } else {
      assert (a + b)[1..] == a[1..] + b;
      NewlinesAppend(a[1..], b);
    }
  }

  /** The offset from which at most n newlines are left to read: the earliest one on a line's start. */
  predicate StartsTheLast(s: seq<byte>, n: nat, pos: nat) {
    pos <= |s| && if Newlines(s) <= n then pos == 0 else pos > 0 && s[pos - 1] == NEWLINE && Newlines(s[pos..]) == n
  }

  lemma NoNewlines()
    ensures Newlines([]) == 0
  {
  }

  lemma NewlinesFrom(s: seq<byte>, i: nat)
    requires i < |s|
    ensures Newlines(s[i..]) == Newlines(s[i + 1..]) + if s[i] == NEWLINE then 1 else 0
  {
    assert s[i..][1..] == s[i + 1..];
  }

  lemma {:induction false} FewerLater(s: seq<byte>, i: nat, j: nat)
    requires i <= j <= |s|
    ensures Newlines(s[j..]) <= Newlines(s[i..])
    decreases j - i
  {
    if i < j {
      NewlinesFrom(s, i);
      FewerLater(s, i + 1, j);
    }
  }

  /** There is exactly one such offset. */
  lemma OnlyOneStart(s: seq<byte>, n: nat, p: nat, q: nat)
    requires StartsTheLast(s, n, p) && StartsTheLast(s, n, q)
    ensures p == q
  {
    if p < q {
      NewlinesFrom(s, q - 1);
      FewerLater(s, p, q - 1);
    } else if q < p {
      NewlinesFrom(s, p - 1);
      FewerLater(s, q, p - 1);
    }
  }

  lemma StartsHere(file: seq<byte>, n: nat, i: nat)
    requires i < |file| && file[i] == NEWLINE && Newlines(file[i..]) == n + 1
    ensures StartsTheLast(file, n, i + 1)
  {
    NewlinesFrom(file, i);
    FewerLater(file, 0, i);
    assert file[0..] == file;
  }

  /**
   * Back over one block, which was read into the start of buf: either the offset after the newline that is
   * one too many, or the count of newlines from the block's start on.
   */
  method ScanBlock(file: seq<byte>, buf: array<byte>, pos: nat, read: nat, n: nat, counted: nat)
    returns (newlines: nat, offset: Option<nat>)
    requires read <= buf.Length && pos + read <= |file| && buf[..read] == file[pos..pos + read]
    requires counted == Newlines(file[pos + read..]) <= n
    ensures offset.Some? ==> StartsTheLast(file, n, offset.value)
    ensures offset.None? ==> newlines == Newlines(file[pos..]) <= n
  {
    hide Newlines, StartsTheLast;
    newlines := counted;
    var i := read - 1;
    while i >= 0
      invariant -1 <= i < read
      invariant newlines == Newlines(file[pos + i + 1..]) <= n
    {
      assert buf[i] == buf[..read][i] == file[pos + i];
      NewlinesFrom(file, pos + i);
      if buf[i] == NEWLINE {
        newlines := newlines + 1;
        if newlines > n {
          StartsHere(file, n, pos + i);
          return newlines, Some(pos + i + 1);
        }
      }
      i := i - 1;
    }
    return newlines, None;
  }

  /** The scan backwards, block by block into one reused buffer, finds it, whatever the block size. */
  method SeekToLastLines(file: seq<byte>, n: nat, block: nat) returns (offset: nat)
    requires block > 0
    ensures StartsTheLast(file, n, offset)
  {
    hide Newlines;
    var buf := new byte[block];
    var newlines: nat, pos: nat := 0, |file|;
    assert file[|file|..] == [] && Newlines([]) == 0 by { NoNewlines(); }
    while pos > 0
      invariant pos <= |file|
      invariant newlines == Newlines(file[pos..]) <= n
    {
      var read := block;
      if pos < read {
        read := pos;
      }
      pos := pos - read;
      forall k | 0 <= k < read {
        buf[k] := file[pos + k];
      }
      assert buf[..read] == file[pos..pos + read];
      var found: Option<nat>;
      newlines, found := ScanBlock(file, buf, pos, read, n, newlines);
      if found.Some? {
        return found.value;
      }
    }
    assert file[0..] == file;
    return 0;
  }

  // ------------------------------------------------------------------ in lines

  /** A byte in front of the first line. */
  function OntoFirst(c: byte, lines: seq<text>): (r: seq<text>)
    ensures |r| == |lines|
  {
    if lines == [] then [] else [[c] + lines[0]] + lines[1..]
  }

  /** The lines of a text: each up to its newline, and whatever follows the last one. */
  function Lines(s: seq<byte>): (r: seq<text>)
    ensures |r| == Newlines(s) + if s != [] && s[|s| - 1] != NEWLINE then 1 else 0
  {
    if s == [] then []
    else if s[0] == NEWLINE then [[]] + Lines(s[1..])
    else if |s| == 1 then [[s[0]]]
    else OntoFirst(s[0], Lines(s[1..]))
  }

  lemma OntoFirstOfMany(c: byte, x: seq<text>, y: seq<text>)
    requires x != []
    ensures OntoFirst(c, x + y) == OntoFirst(c, x) + y
  {
    assert (x + y)[1..] == x[1..] + y;
  }

  lemma EndsALine(s: seq<byte>)
    requires s != [] && s[|s| - 1] == NEWLINE
    ensures Newlines(s) > 0
  {
    NewlinesFrom(s, |s| - 1);
    FewerLater(s, 0, |s| - 1);
    assert s[0..] == s;
  }

  lemma {:induction false} LinesSplit(a: seq<byte>, b: seq<byte>)
    requires a != [] && a[|a| - 1] == NEWLINE
    ensures Lines(a + b) == Lines(a) + Lines(b)
    decreases |a|
  {
    hide OntoFirst;
    var x, y := Lines(a[1..]), Lines(b);
    assert (a + b)[1..] == a[1..] + b;
    if |a| == 1 {
      assert a[1..] + b == b && a[1..] == [];
      assert Lines(a) == [[]];
    } else {
      LinesSplit(a[1..], b);
      assert [[]] + (x + y) == ([[]] + x) + y;
      if a[0] != NEWLINE {
        EndsALine(a[1..]);
        OntoFirstOfMany(a[0], x, y);
      }
    }
  }

  /**
   * What is left to read is the end of the file's lines: all of them if there are no more than n newlines,
   * otherwise the last n, or n + 1 when the file's last line has no newline yet.
   */
  lemma {:induction false} LeavesTheLastLines(s: seq<byte>, n: nat, pos: nat)
    requires StartsTheLast(s, n, pos)
    ensures |Lines(s[pos..])| <= |Lines(s)| && Lines(s)[|Lines(s)| - |Lines(s[pos..])|..] == Lines(s[pos..])
    ensures Newlines(s) > n ==> |Lines(s[pos..])| == n + if s[|s| - 1] != NEWLINE then 1 else 0
    ensures Newlines(s) <= n ==> Lines(s[pos..]) == Lines(s)
  {
    if pos == 0 {
      assert s[0..] == s;
    } else {
      var a, b := s[..pos], s[pos..];
      assert a + b == s && a[|a| - 1] == NEWLINE;
      LinesSplit(a, b);
      if b != [] {
        assert b[|b| - 1] == s[|s| - 1];
      } else {
        assert a == s;
      }
    }
  }

  // ------------------------------------------------------------------ a file of lines

  predicate IsLine(line: text) {
    forall c :: c in line ==> !Is(c, '\n')
  }

  lemma {:induction false} NoneInALine(line: text)
    requires IsLine(line)
    ensures Newlines(line) == 0
  {
    if line != [] {
      assert line[0] in line;
      NoneInALine(line[1..]);
    }
  }

  lemma {:induction false} OneEach(lines: seq<text>)
    requires forall i :: 0 <= i < |lines| ==> IsLine(lines[i])
    ensures Newlines(Terminated(lines)) == |lines|
    ensures lines != [] ==> Terminated(lines) != [] && Terminated(lines)[|Terminated(lines)| - 1] == NEWLINE
  {
    if lines != [] {
      var rest := Terminated(lines[1..]);
      OneEach(lines[1..]);
      assert Raw("\n") == [NEWLINE];
      NoneInALine(lines[0]);
      hide IsLine, Raw;
      NewlinesAppend(lines[0] + [NEWLINE], rest);
      NewlinesAppend(lines[0], [NEWLINE]);
      assert [NEWLINE][1..] == [];
    }
  }

  lemma {:induction false} TerminatedSplit(a: seq<text>, b: seq<text>)
    ensures Terminated(a + b) == Terminated(a) + Terminated(b)
  {
    hide Raw;
    if a == [] {
      assert a + b == b;
    } else {
      assert (a + b)[1..] == a[1..] + b;
      TerminatedSplit(a[1..], b);
    }
  }

  /** The lines before the last n end where the last n start. */
  lemma LinesFrom(a: seq<text>, b: seq<text>, unfinished: text)
    requires a != [] && (forall i :: 0 <= i < |a| ==> IsLine(a[i])) && (forall i :: 0 <= i < |b| ==> IsLine(b[i]))
    requires IsLine(unfinished)
    ensures var s := Terminated(a + b) + unfinished;
      var p := |Terminated(a)|;
      p <= |s| && StartsTheLast(s, |b|, p) && s[p..] == Terminated(b) + unfinished
  {
    hide IsLine, Newlines, Terminated;
    TerminatedSplit(a, b);
    OneEach(a);
    OneEach(b);
    NoneInALine(unfinished);
    var x, y := Terminated(a), Terminated(b) + unfinished;
    NewlinesAppend(Terminated(b), unfinished);
    NewlinesAppend(x, y);
    assert Terminated(a + b) + unfinished == x + y;
    assert (x + y)[|x|..] == y && (x + y)[|x| - 1] == x[|x| - 1];
  }

  /** Of a file of lines, with or without an unfinished one at the end, the last n lines and the unfinished one are left. */
  lemma {:induction false} LeavesLinesAsWritten(lines: seq<text>, unfinished: text, n: nat, pos: nat)
    requires (forall i :: 0 <= i < |lines| ==> IsLine(lines[i])) && IsLine(unfinished)
    requires StartsTheLast(Terminated(lines) + unfinished, n, pos)
    ensures (Terminated(lines) + unfinished)[pos..] ==
      Terminated(if n < |lines| then lines[|lines| - n..] else lines) + unfinished
  {
    hide IsLine, Newlines, Terminated;
    var s := Terminated(lines) + unfinished;
    if n < |lines| {
      var a, b := lines[..|lines| - n], lines[|lines| - n..];
      assert a + b == lines;
      LinesFrom(a, b, unfinished);
      OnlyOneStart(s, n, |Terminated(a)|, pos);
    } else {
      OneEach(lines);
      NoneInALine(unfinished);
      NewlinesAppend(Terminated(lines), unfinished);
      assert s[0..] == s;
    }
  }
}
