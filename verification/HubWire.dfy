/** The hub's wire format: a 4-byte big-endian length, then that many bytes of frame. */
module HubWire {
  import opened Bytes

  const MAX_FRAME: nat := 0x2_0000

  type Frame = f: seq<byte> | 0 < |f| <= MAX_FRAME witness [0]

  function Wire(f: Frame): seq<byte> {
    Be32(|f|) + f
  }

  function Wires(fs: seq<Frame>): seq<byte> {
    if fs == [] then [] else Wires(fs[..|fs| - 1]) + Wire(fs[|fs| - 1])
  }

  /**
   * What a peer makes of a byte stream: the whole frames it holds, in order, and the bytes after
   * them. A length the format does not allow stops it, since nothing can be resynchronised.
   */
  function Decode(b: seq<byte>): (r: (seq<Frame>, seq<byte>))
    decreases |b|
  {
    if |b| < 4 then ([], b)
    else
      var n := FromBe32(b);
      if n == 0 || n > MAX_FRAME || |b| < 4 + n then ([], b)
      else
        var tail := Decode(b[4 + n..]);
        ([b[4..4 + n]] + tail.0, tail.1)
  }

  /** Bytes that hold no whole frame yet. */
  predicate Torn(b: seq<byte>) {
    Decode(b).0 == []
  }

  lemma WireFirst(f: Frame, rest: seq<byte>)
    ensures Decode(Wire(f) + rest) == ([f] + Decode(rest).0, Decode(rest).1)
  {
    var b := Wire(f) + rest;
    Be32RoundTrip(|f|);
    assert FromBe32(b) == FromBe32(Be32(|f|));
    assert b[4..4 + |f|] == f;
    assert b[4 + |f|..] == rest;
  }

  lemma LastWire(fs: seq<Frame>, rest: seq<byte>)
    requires fs != []
    ensures Wires(fs) + rest == Wires(fs[..|fs| - 1]) + (Wire(fs[|fs| - 1]) + rest)
  {
  }

  /** The format is uniquely decodable, whatever follows the frames. */
  lemma {:induction false} DecodeWires(fs: seq<Frame>, rest: seq<byte>)
    ensures Decode(Wires(fs) + rest) == (fs + Decode(rest).0, Decode(rest).1)
  {
    if fs == [] {
      assert Wires(fs) + rest == rest && fs + Decode(rest).0 == Decode(rest).0;
    } else {
      var init, last := fs[..|fs| - 1], fs[|fs| - 1];
      var tail := Wire(last) + rest;
      var d := Decode(rest);
      calc {
        Decode(Wires(fs) + rest);
      ==  { LastWire(fs, rest); }
        Decode(Wires(init) + tail);
      ==  { DecodeWires(init, tail); }
        (init + Decode(tail).0, Decode(tail).1);
      ==  { WireFirst(last, rest); }
        (init + ([last] + d.0), d.1);
      ==  { assert fs == init + [last]; assert init + ([last] + d.0) == fs + d.0; }
        (fs + d.0, d.1);
      }
    }
  }

  lemma DecodeTorn(fs: seq<Frame>, rest: seq<byte>)
    requires Torn(rest)
    ensures Decode(Wires(fs) + rest) == (fs, rest)
  {
    DecodeWires(fs, rest);
    assert Decode(rest) == ([], rest);
    assert fs + [] == fs;
  }

  /** A frame that was not written to its end adds no frame to the stream. */
  lemma {:induction false} PartOfAFrameIsTorn(f: Frame, k: nat)
    requires k < |Wire(f)|
    ensures Torn(Wire(f)[..k])
  {
    var b := Wire(f)[..k];
    if 4 <= k {
      Be32RoundTrip(|f|);
      assert FromBe32(b) == FromBe32(Be32(|f|));
    }
  }
}
