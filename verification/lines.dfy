// The capped reader of newline-terminated frames, over a byte source that delivers its
// stream in chunks of any size.

module Lines {
  import opened Core

  type Byte = v: int | 0 <= v < 256

  const NEWLINE: Byte := 10

  /** `Eof` between frames, `Truncated` inside one, `TooLong` when the cap is crossed. */
  datatype Frame = Line(bytes: seq<Byte>) | Eof | Truncated | TooLong

  // ----- the frames of a whole stream, without chunks -----

  /** Offset of the first newline, or the length when there is none. */
  function LineLength(s: seq<Byte>): (n: nat)
    ensures n <= |s| && NEWLINE !in s[..n]
    ensures n < |s| ==> s[n] == NEWLINE
  {
    if s == [] || s[0] == NEWLINE then 0
    else
      assert s[..1 + LineLength(s[1..])] == [s[0]] + s[1..][..LineLength(s[1..])];
      1 + LineLength(s[1..])
  }

  function FirstFrame(s: seq<Byte>, cap: nat): Frame {
    var n := LineLength(s);
    if n > cap then TooLong
    else if n < |s| then Line(s[..n])
    else if s == [] then Eof
    else Truncated
  }

  /** All lines up to the first end or error, and that end or error. */
  function Frames(s: seq<Byte>, cap: nat): (r: (seq<seq<Byte>>, Frame))
    ensures !r.1.Line?
  {
    var f := FirstFrame(s, cap);
    if f.Line? then
      var (rest, end) := Frames(s[LineLength(s) + 1..], cap);
      ([f.bytes] + rest, end)
    else ([], f)
  }

  /** Terminating every line by a newline. */
  function Encode(lines: seq<seq<Byte>>): seq<Byte> {
    if lines == [] then [] else lines[0] + [NEWLINE] + Encode(lines[1..])
  }

  lemma {:induction false} LineLengthAppend(a: seq<Byte>, b: seq<Byte>)
    requires NEWLINE !in a
    ensures LineLength(a + b) == |a| + LineLength(b)
  {
    if a == [] {
      assert a + b == b;
    } else {
      assert (a + b)[1..] == a[1..] + b;
      LineLengthAppend(a[1..], b);
    }
  }

  /**
   * Reading back what was written: the lines come out as they went in exactly when none
   * holds a newline and none exceeds the cap.
   */
  lemma {:induction false} FramesOfEncode(lines: seq<seq<Byte>>, cap: nat)
    ensures Frames(Encode(lines), cap) == (lines, Eof) <==>
              forall l :: l in lines ==> NEWLINE !in l && |l| <= cap
  {
    if lines != [] {
      var l, rest := lines[0], Encode(lines[1..]);
      var s := Encode(lines);
      assert lines == [l] + lines[1..];
      assert s == l + ([NEWLINE] + rest);
      if NEWLINE in l {
        FirstFrameStops(l, [NEWLINE] + rest, cap);
      } else {
        LineLengthAppend(l, [NEWLINE] + rest);
        assert s[|l| + 1..] == rest && s[..|l|] == l;
        FramesOfEncode(lines[1..], cap);
      }
    }
  }

  lemma {:induction false} FirstFrameStops(a: seq<Byte>, b: seq<Byte>, cap: nat)
    requires NEWLINE in a
    ensures LineLength(a + b) < |a|
    ensures FirstFrame(a + b, cap) != Line(a)
  {
    if a[0] != NEWLINE {
      assert (a + b)[1..] == a[1..] + b;
      FirstFrameStops(a[1..], b, cap);
    }
  }

  /**
   * Behind complete lines within the cap, what follows decides the end: nothing is a clean end,
   * an unterminated rest within the cap is cut short, and anything longer without a newline is
   * refused, whether a newline follows or not.
   */
  lemma {:induction false} FramesOfTail(lines: seq<seq<Byte>>, tail: seq<Byte>, cap: nat)
    requires forall l :: l in lines ==> 10 !in l && |l| <= cap
    ensures var r := Frames(Encode(lines) + tail, cap);
            && (tail == [] ==> r == (lines, Eof))
            && (10 !in tail && 0 < |tail| <= cap ==> r == (lines, Truncated))
            && (|tail| > cap && 10 !in tail[..cap + 1] ==> r == (lines, TooLong))
  {
    if lines == [] {
      assert Encode(lines) + tail == tail;
      EndOfTail(tail, cap);
    } else {
      var l := lines[0];
      var rest := Encode(lines[1..]) + tail;
      var s := Encode(lines) + tail;
      assert l in lines && s == l + ([NEWLINE] + rest);
      assert lines == [l] + lines[1..];
      FramesCons(l, rest, cap);
      hide Frames, Encode;
      FramesOfTail(lines[1..], tail, cap);
    }
  }

  lemma FramesCons(l: seq<Byte>, rest: seq<Byte>, cap: nat)
    requires NEWLINE !in l && |l| <= cap
    ensures Frames(l + ([NEWLINE] + rest), cap) == ([l] + Frames(rest, cap).0, Frames(rest, cap).1)
  {
    var s := l + ([NEWLINE] + rest);
    LineLengthAppend(l, [NEWLINE] + rest);
    assert s[|l| + 1..] == rest && s[..|l|] == l;
  }

  lemma EndOfTail(tail: seq<Byte>, cap: nat)
    ensures tail == [] ==> FirstFrame(tail, cap) == Eof
    ensures 10 !in tail && 0 < |tail| <= cap ==> FirstFrame(tail, cap) == Truncated
    ensures |tail| > cap && 10 !in tail[..cap + 1] ==> FirstFrame(tail, cap) == TooLong
  {
    var n := LineLength(tail);
    hide LineLength;
    if |tail| > cap && n <= cap { assert tail[..cap + 1][n] == tail[n]; }
    if n < |tail| { assert tail[n] in tail; }
  }

  // ----- the buffered source -----

  function Concat(chunks: seq<seq<Byte>>): seq<Byte> {
    if chunks == [] then [] else chunks[0] + Concat(chunks[1..])
  }

  /** What has not been consumed yet, as the non-empty chunks it will arrive in. */
  class Source {
    var chunks: seq<seq<Byte>>

    ghost predicate Valid()
      reads this
    {
      forall c :: c in chunks ==> c != []
    }

    ghost function Stream(): seq<Byte>
      reads this
    {
      Concat(chunks)
    }

    constructor (chunks: seq<seq<Byte>>)
      requires forall c :: c in chunks ==> c != []
      ensures Valid() && Stream() == Concat(chunks)
    {
      this.chunks := chunks;
    }

    /** The bytes at hand; none at the end of the stream only. */
    method FillBuf() returns (available: seq<Byte>)
      requires Valid()
      ensures available <= Stream()
      ensures available == [] <==> Stream() == []
      ensures available == if chunks == [] then [] else chunks[0]
    {
      available := if chunks == [] then [] else chunks[0];
      assert chunks != [] ==> chunks[0] in chunks;
    }

    method Consume(n: nat)
      requires Valid() && chunks != [] && n <= |chunks[0]|
      modifies this
      ensures Valid() && Stream() == old(Stream())[n..]
    {
      ghost var before := Stream();
      var rest := chunks[1..];
      assert before[n..] == chunks[0][n..] + Concat(rest);
      assert forall c :: c in rest ==> c in chunks;
      if n == |chunks[0]| {
        chunks := rest;
      } else {
        chunks := [chunks[0][n..]] + rest;
        assert chunks[1..] == rest;
      }
    }
  }

  lemma PrefixMoves(a: seq<Byte>, b: seq<Byte>, s: seq<Byte>)
    requires b <= s
    ensures a + s == (a + b) + s[|b|..]
  {
    assert s == b + s[|b|..];
  }

  /** A chunk without a newline only moves the scan on. */
  lemma ChunkMore(buf: seq<Byte>, available: seq<Byte>, stream: seq<Byte>)
    requires NEWLINE !in buf && LineLength(available) == |available| && available <= stream
    ensures NEWLINE !in buf + available
    ensures LineLength(buf + stream) >= |buf| + |available|
    ensures buf + stream == (buf + available) + stream[|available|..]
  {
    hide LineLength;
    assert available[..|available|] == available;
    PrefixMoves(buf, available, stream);
    LineLengthAppend(buf + available, stream[|available|..]);
  }

  /** A chunk with a newline ends the line there. */
  lemma ChunkLine(buf: seq<Byte>, available: seq<Byte>, stream: seq<Byte>)
    requires NEWLINE !in buf && LineLength(available) < |available| && available <= stream
    ensures var n := LineLength(available);
            && LineLength(buf + stream) == |buf| + n < |buf + stream|
            && (buf + stream)[..|buf| + n] == buf + available[..n]
            && (buf + stream)[|buf| + n + 1..] == stream[n + 1..]
  {
    var n := LineLength(available);
    assert stream[n] == available[n] == NEWLINE;
    assert buf + stream == (buf + available[..n]) + stream[n..];
    LineLengthAppend(buf + available[..n], stream[n..]);
  }

  lemma FrameAtEnd(buf: seq<Byte>, cap: nat)
    requires NEWLINE !in buf && |buf| <= cap
    ensures FirstFrame(buf, cap) == if buf == [] then Eof else Truncated
  {
    LineLengthAppend(buf, []);
    assert buf + [] == buf;
  }

  lemma FrameWithLine(buf: seq<Byte>, available: seq<Byte>, stream: seq<Byte>, cap: nat)
    requires NEWLINE !in buf && LineLength(available) < |available| && available <= stream
    ensures var n := LineLength(available);
            && FirstFrame(buf + stream, cap) == (if |buf| + n > cap then TooLong else Line(buf + available[..n]))
            && LineLength(buf + stream) < |buf + stream|
            && (buf + stream)[LineLength(buf + stream) + 1..] == stream[n + 1..]
  {
    hide LineLength;
    ChunkLine(buf, available, stream);
  }

  lemma FrameTooLong(buf: seq<Byte>, available: seq<Byte>, stream: seq<Byte>, cap: nat)
    requires NEWLINE !in buf && LineLength(available) == |available| && available <= stream
    requires |buf| + |available| > cap
    ensures FirstFrame(buf + stream, cap) == TooLong
  {
    hide LineLength;
    ChunkMore(buf, available, stream);
  }

  /** The outcome of one call, and the scratch buffer it leaves behind. */
  method ReadLine(reader: Source, cap: nat) returns (frame: Frame, buf: seq<Byte>)
    requires reader.Valid()
    modifies reader
    ensures reader.Valid() && |buf| <= cap
    ensures frame == FirstFrame(old(reader.Stream()), cap)
    ensures frame.Line? ==> buf == frame.bytes
    ensures frame.Line? ==> reader.Stream() == old(reader.Stream())[LineLength(old(reader.Stream())) + 1..]
  {
    hide *;
    buf := [];
    ghost var stream := reader.Stream();
    while true
      invariant reader.Valid() && |buf| <= cap && NEWLINE !in buf
      invariant stream == buf + reader.Stream()
      decreases |reader.Stream()|
    {
      ghost var left := reader.Stream();
      var available := reader.FillBuf();
      if available == [] {
        assert stream == buf;
        FrameAtEnd(buf, cap);
        return if buf == [] then Eof else Truncated, buf;
      }
      var newline := LineLength(available);
      if newline < |available| {
        FrameWithLine(buf, available, left, cap);
        if |buf| + newline > cap {
          return TooLong, buf;
        }
        buf := buf + available[..newline];
        reader.Consume(newline + 1);
        return Line(buf), buf;
      }
      ChunkMore(buf, available, left);
      if |buf| + |available| > cap {
        FrameTooLong(buf, available, left, cap);
        return TooLong, buf;
      }
      buf := buf + available;
      reader.Consume(|available|);
    }
  }

  /** The reader task: frames until the first end or error. */
  method ReadAll(reader: Source, cap: nat) returns (lines: seq<seq<Byte>>, end: Frame)
    requires reader.Valid()
    modifies reader
    ensures (lines, end) == Frames(old(reader.Stream()), cap)
  {
    hide Concat, LineLength;
    lines := [];
    ghost var all := Frames(reader.Stream(), cap);
    while true
      invariant reader.Valid()
      invariant all.0 == lines + Frames(reader.Stream(), cap).0 && all.1 == Frames(reader.Stream(), cap).1
      decreases |reader.Stream()|
    {
      ghost var stream := reader.Stream();
      ghost var rest := Frames(stream, cap);
      var frame, buf := ReadLine(reader, cap);
      if !frame.Line? {
        assert rest == ([], frame);
        assert all.0 == lines;
        assert all == (all.0, all.1);
        return lines, frame;
      }
      assert lines + rest.0 == (lines + [frame.bytes]) + rest.0[1..];
      lines := lines + [frame.bytes];
    }
  }
}
