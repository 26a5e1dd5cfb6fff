/**
 * The stderr line splitter and the scanner loop that drives it (pkg/worker/executor.go). ffmpeg
 * ends its progress updates with CR and its other lines with LF; the pipe may be cut anywhere.
 */
module LineSplitter {
  import opened ByteStrings
  import opened Options

  const CR: Byte := 13
  const LF: Byte := 10

  /** bufio.MaxScanTokenSize: the scanner gives up on a buffer this full without a line end. */
  const MAX_TOKEN := 64 * 1024

  predicate IsBreak(b: Byte) { b == CR || b == LF }

  // ----- the reference: the whole stream cut at every CR and every LF, empty pieces dropped

  function Keep(piece: Bytes): seq<Bytes> { if piece == [] then [] else [piece] }

  function LinesAfter(piece: Bytes, s: Bytes): seq<Bytes>
    decreases |s|
  {
    if s == [] then Keep(piece)
    else if IsBreak(s[0]) then Keep(piece) + LinesAfter([], s[1..])
    else LinesAfter(piece + [s[0]], s[1..])
  }

  function Lines(s: Bytes): seq<Bytes> { LinesAfter([], s) }

  ghost predicate NoBreak(s: Bytes) { forall k :: 0 <= k < |s| ==> !IsBreak(s[k]) }

  /** 64 KiB from p on hold no line end. */
  ghost predicate LongRunAt(s: Bytes, p: nat) {
    p + 65536 <= |s| && NoBreak(s[p..p + 65536])
  }

  ghost predicate FirstLongRun(s: Bytes, p: nat) {
    LongRunAt(s, p) && forall q: nat :: q < p ==> !LongRunAt(s, q)
  }

  // ----- splitProgressLines

  /** How far the scanner advances and the token it is handed, if any. */
  datatype Split = Split(advance: nat, token: Option<Bytes>)

  /** data[..i] is the first line of data and n the length of the line with its end. */
  ghost predicate FirstLine(data: Bytes, i: nat, n: nat) {
    && i < |data| && NoBreak(data[..i]) && IsBreak(data[i])
    && n == (if data[i] == CR && i + 1 < |data| && data[i + 1] == LF then i + 2 else i + 1)
  }

  method SplitProgressLines(data: Bytes, atEof: bool) returns (s: Split)
    ensures s.advance <= |data|
    ensures s.token.Some? <==> (exists i :: 0 <= i < |data| && IsBreak(data[i])) || (atEof && data != [])
    ensures s.token.None? ==> s.advance == 0
    ensures s.token.Some? && !NoBreak(data) ==>
              FirstLine(data, |s.token.value|, s.advance) && s.token.value == data[..|s.token.value|]
    ensures s.token.Some? && NoBreak(data) ==> s == Split(|data|, Some(data))
  {
    if atEof && |data| == 0 {
      return Split(0, None);
    }
    for i := 0 to |data|
      invariant NoBreak(data[..i])
    {
      if data[i] == CR {
        var n := i + 1;
        if n < |data| && data[n] == LF {
          n := n + 1;
        }
        return Split(n, Some(data[..i]));
      } else if data[i] == LF {
        return Split(i + 1, Some(data[..i]));
      }
      assert data[..i + 1] == data[..i] + [data[i]];
    }
    assert data[..|data|] == data;
    if atEof {
      return Split(|data|, Some(data));
    }
    return Split(0, None);
  }

  // ----- lines over concatenation

  lemma {:induction false} NoBreakLines(piece: Bytes, s: Bytes)
    requires NoBreak(s)
    ensures LinesAfter(piece, s) == Keep(piece + s)
    decreases |s|
  {
    if s == [] {
      assert piece + s == piece;
    } else {
      NoBreakLines(piece + [s[0]], s[1..]);
      assert piece + [s[0]] + s[1..] == piece + s;
    }
  }

  /** Cutting a text right after a line end cuts its lines there too. */
  lemma {:induction false} LinesConcat(piece: Bytes, a: Bytes, b: Bytes)
    requires a != [] && IsBreak(a[|a| - 1])
    ensures LinesAfter(piece, a + b) == LinesAfter(piece, a) + Lines(b)
    decreases |a|
  {
    assert (a + b)[0] == a[0] && (a + b)[1..] == a[1..] + b;
    if |a| == 1 {
      assert a[1..] + b == b;
      assert LinesAfter(piece, a) == Keep(piece) + LinesAfter([], []);
    } else if IsBreak(a[0]) {
      LinesConcat([], a[1..], b);
    } else {
      LinesConcat(piece + [a[0]], a[1..], b);
    }
  }

  lemma {:induction false} LineThenBreak(piece: Bytes, line: Bytes, b: Byte)
    requires NoBreak(line) && IsBreak(b)
    ensures LinesAfter(piece, line + [b]) == Keep(piece + line)
    decreases |line|
  {
    var s := line + [b];
    if line == [] {
      assert s[1..] == [] && piece + line == piece;
      assert LinesAfter([], []) == [];
    } else {
      assert s[0] == line[0] && s[1..] == line[1..] + [b];
      LineThenBreak(piece + [line[0]], line[1..], b);
      assert piece + [line[0]] + line[1..] == piece + line;
    }
  }

  lemma {:induction false} BreakAddsNothing(piece: Bytes, a: Bytes, b: Byte)
    requires IsBreak(b)
    ensures LinesAfter(piece, a + [b]) == LinesAfter(piece, a)
    decreases |a|
  {
    var s := a + [b];
    if a == [] {
      assert s[1..] == [] && LinesAfter([], []) == [];
    } else {
      assert s[0] == a[0] && s[1..] == a[1..] + [b];
      if IsBreak(a[0]) {
        BreakAddsNothing([], a[1..], b);
      } else {
        BreakAddsNothing(piece + [a[0]], a[1..], b);
      }
    }
  }

  /** The lines of a stream, in three laws that leave no choice: an empty stream has none, a piece
      without CR (13) and LF (10) is one line, and a CR or an LF anywhere separates the lines before
      it from the lines after it. */
  lemma LinesAreTheCuts(a: Bytes, b: Byte, c: Bytes)
    ensures Lines([]) == []
    ensures a != [] && 13 !in a && 10 !in a ==> Lines(a) == [a]
    ensures b == 13 || b == 10 ==> Lines(a + [b] + c) == Lines(a) + Lines(c)
  {
    if 13 !in a && 10 !in a {
      assert NoBreak(a);
      NoBreakLines([], a);
      assert [] + a == a;
    }
    if b == 13 || b == 10 {
      LinesConcat([], a + [b], c);
      BreakAddsNothing([], a, b);
    }
  }

  lemma FirstLineLines(data: Bytes, i: nat, n: nat)
    requires FirstLine(data, i, n)
    ensures n <= |data| && IsBreak(data[n - 1]) && Lines(data[..n]) == Keep(data[..i])
  {
    var line := data[..i];
    assert line + [data[i]] == data[..i + 1];
    LineThenBreak([], line, data[i]);
    assert [] + line == line;
    if n == i + 2 {
      assert data[..n] == data[..i + 1] + [LF];
      LinesConcat([], data[..i + 1], [LF]);
      LineThenBreak([], [], LF);
      assert [] + [LF] == [LF];
    }
  }

  // ----- the scanner loop

  /** Everything before position c was handed on, and c is the start or follows a line end. */
  ghost predicate Consumed(stream: Bytes, c: nat, lines: seq<Bytes>) {
    && c <= |stream| && lines == Lines(stream[..c])
    && (c > 0 ==> IsBreak(stream[c - 1]))
    && (forall p: nat :: LongRunAt(stream, p) ==> c <= p)
  }

  lemma ConsumeLine(stream: Bytes, c: nat, lines: seq<Bytes>, data: Bytes, i: nat, n: nat)
    requires Consumed(stream, c, lines) && FirstLine(data, i, n) && |data| <= MAX_TOKEN
    requires c + |data| <= |stream| && data == stream[c..c + |data|]
    ensures n <= |data| && Consumed(stream, c + n, lines + Keep(data[..i]))
  {
    FirstLineLines(data, i, n);
    assert stream[..c + n] == stream[..c] + data[..n];
    if c > 0 {
      LinesConcat([], stream[..c], data[..n]);
    } else {
      assert stream[..c] + data[..n] == data[..n];
    }
    assert stream[c + n - 1] == data[n - 1];
    forall p: nat | LongRunAt(stream, p)
      ensures c + n <= p
    {
      RunHasNoBreak(stream, p);
    }
  }

  lemma RunHasNoBreak(stream: Bytes, p: nat)
    requires LongRunAt(stream, p)
    ensures forall q :: p <= q < p + 65536 ==> !IsBreak(stream[q])
  {
    assert forall q :: p <= q < p + 65536 ==> stream[q] == stream[p..p + 65536][q - p];
  }

  lemma ConsumeRest(stream: Bytes, c: nat, lines: seq<Bytes>)
    requires Consumed(stream, c, lines) && |stream| - c < MAX_TOKEN && NoBreak(stream[c..])
    ensures lines + Keep(stream[c..]) == Lines(stream)
    ensures forall p: nat :: !LongRunAt(stream, p)
  {
    var rest := stream[c..];
    NoBreakLines([], rest);
    assert [] + rest == rest && stream == stream[..c] + rest;
    if c > 0 {
      LinesConcat([], stream[..c], rest);
    } else {
      assert stream[..c] == [] && rest == stream;
    }
  }

  /** The buffer holds what was read and not yet handed on. */
  ghost predicate Buffered(stream: Bytes, buf: Bytes, c: nat, pos: nat) {
    c + |buf| == pos <= |stream| && buf == stream[c..pos]
  }

  lemma BufferDrops(stream: Bytes, buf: Bytes, c: nat, pos: nat, n: nat)
    requires Buffered(stream, buf, c, pos) && n <= |buf|
    ensures Buffered(stream, buf[n..], c + n, pos)
  {
  }

  lemma BufferGrows(stream: Bytes, buf: Bytes, c: nat, pos: nat, n: nat)
    requires Buffered(stream, buf, c, pos) && pos + n <= |stream|
    ensures Buffered(stream, buf + stream[pos..pos + n], c, pos + n)
  {
  }

  /** One token of the buffer is handed on: its line, or at the end of the stream all the rest. */
  lemma TokenTaken(stream: Bytes, buf: Bytes, c: nat, pos: nat, lines: seq<Bytes>, s: Split)
    requires Buffered(stream, buf, c, pos) && |buf| <= MAX_TOKEN && Consumed(stream, c, lines) && s.token.Some?
    requires NoBreak(buf) ==> pos == |stream| && |buf| < MAX_TOKEN && s == Split(|buf|, Some(buf))
    requires !NoBreak(buf) ==> |s.token.value| <= |buf| && FirstLine(buf, |s.token.value|, s.advance)
                               && s.token.value == buf[..|s.token.value|]
    ensures NoBreak(buf) ==> lines + Keep(s.token.value) == Lines(stream) && forall p: nat :: !LongRunAt(stream, p)
    ensures !NoBreak(buf) ==> Consumed(stream, c + s.advance, lines + Keep(s.token.value))
  {
    hide Lines, Consumed, LongRunAt;
    if NoBreak(buf) {
      assert buf == stream[c..];
      ConsumeRest(stream, c, lines);
    } else {
      ConsumeLine(stream, c, lines, buf, |s.token.value|, s.advance);
    }
  }

  lemma StreamEnds(stream: Bytes, c: nat, lines: seq<Bytes>)
    requires Buffered(stream, [], c, |stream|) && Consumed(stream, c, lines)
    ensures lines == Lines(stream) && forall p: nat :: !LongRunAt(stream, p)
  {
    hide Lines, Consumed, LongRunAt;
    assert stream[c..] == [];
    ConsumeRest(stream, c, lines);
  }

  lemma FullBuffer(stream: Bytes, buf: Bytes, c: nat, pos: nat, lines: seq<Bytes>)
    requires Buffered(stream, buf, c, pos) && |buf| == MAX_TOKEN && NoBreak(buf) && Consumed(stream, c, lines)
    ensures LongRunAt(stream, c) && FirstLongRun(stream, c) && lines == Lines(stream[..c])
  {
  }

  /** The scanner between two turns: buf holds the stream from c to pos, lines those of the stream up
      to c, and once the rest was handed on at the end of the stream it is drained. */
  ghost predicate Scans(stream: Bytes, buf: Bytes, c: nat, pos: nat, lines: seq<Bytes>, eof: bool, drained: bool) {
    && |buf| <= MAX_TOKEN && Buffered(stream, buf, c, pos)
    && (eof ==> pos == |stream| && |buf| < MAX_TOKEN)
    && (!drained ==> Consumed(stream, c, lines))
    && (drained ==> eof && buf == [] && lines == Lines(stream) && forall p: nat :: !LongRunAt(stream, p))
  }

  lemma ScansAtStart(stream: Bytes)
    ensures Scans(stream, [], 0, 0, [], false, false)
  {
    assert stream[..0] == [];
  }

  lemma ScansBounds(stream: Bytes, buf: Bytes, c: nat, pos: nat, lines: seq<Bytes>, eof: bool, drained: bool)
    requires Scans(stream, buf, c, pos, lines, eof, drained)
    ensures c + |buf| == pos <= |stream| && |buf| <= MAX_TOKEN && (eof ==> |buf| < MAX_TOKEN)
  {
  }

  lemma ScansToken(stream: Bytes, buf: Bytes, c: nat, pos: nat, lines: seq<Bytes>, eof: bool, drained: bool, s: Split)
    requires Scans(stream, buf, c, pos, lines, eof, drained) && s.token.Some? && s.advance <= |buf|
    requires (exists i :: 0 <= i < |buf| && IsBreak(buf[i])) || (eof && buf != [])
    requires !NoBreak(buf) ==> FirstLine(buf, |s.token.value|, s.advance) && s.token.value == buf[..|s.token.value|]
    requires NoBreak(buf) ==> s == Split(|buf|, Some(buf))
    ensures s.advance > 0
    ensures Scans(stream, buf[s.advance..], c + s.advance, pos, lines + Keep(s.token.value), eof, NoBreak(buf))
  {
    TokenTaken(stream, buf, c, pos, lines, s);
    BufferDrops(stream, buf, c, pos, s.advance);
    hide Lines, Consumed, LongRunAt, Keep, Buffered;
  }

  lemma ScansEnd(stream: Bytes, buf: Bytes, c: nat, pos: nat, lines: seq<Bytes>, drained: bool)
    requires Scans(stream, buf, c, pos, lines, true, drained) && buf == []
    ensures lines == Lines(stream) && forall p: nat :: !LongRunAt(stream, p)
  {
    if !drained {
      StreamEnds(stream, c, lines);
    }
    hide Lines, Consumed, LongRunAt, Buffered;
  }

  lemma ScansFull(stream: Bytes, buf: Bytes, c: nat, pos: nat, lines: seq<Bytes>, drained: bool)
    requires Scans(stream, buf, c, pos, lines, false, drained) && |buf| == MAX_TOKEN && NoBreak(buf)
    ensures LongRunAt(stream, c) && FirstLongRun(stream, c) && lines == Lines(stream[..c])
  {
    FullBuffer(stream, buf, c, pos, lines);
    hide Lines, Consumed, LongRunAt, FirstLongRun, Buffered;
  }

  lemma ScansRead(stream: Bytes, buf: Bytes, c: nat, pos: nat, lines: seq<Bytes>, drained: bool, n: nat)
    requires Scans(stream, buf, c, pos, lines, false, drained)
    requires pos + n <= |stream| && |buf| + n <= MAX_TOKEN
    ensures Scans(stream, buf + stream[pos..pos + n], c, pos + n, lines, false, false)
  {
    BufferGrows(stream, buf, c, pos, n);
    hide Lines, Consumed, LongRunAt, Buffered;
  }

  lemma ScansEof(stream: Bytes, buf: Bytes, c: nat, pos: nat, lines: seq<Bytes>, drained: bool)
    requires Scans(stream, buf, c, pos, lines, false, drained) && pos == |stream| && |buf| < MAX_TOKEN
    ensures Scans(stream, buf, c, pos, lines, true, false)
  {
  }

  function Min(a: nat, b: nat): nat { if a < b then a else b }

  /** The size of the next read: what the pipe offers, at least a byte, into the room that is left. */
  function ReadSize(offered: nat, room: nat, left: nat): (n: nat)
    requires room > 0 && left > 0
    ensures 0 < n <= room && n <= left
  {
    Min(if offered > 0 then offered else 1, Min(room, left))
  }

  /** The stderr goroutine: read into the buffer, hand on non-empty tokens, stop at the end of the
      stream or on a full buffer. The k-th read of the pipe yields at most sizes[k] bytes and at
      least one. Whatever the sizes, the lines are those of the whole stream; the scanner stops
      early exactly when some 64 KiB of the stream hold no line end, and then the lines are those
      of everything before the first such run. */
  method ScanLines(stream: Bytes, sizes: seq<nat>) returns (lines: seq<Bytes>, tooLong: bool)
    ensures tooLong <==> exists p: nat :: LongRunAt(stream, p)
    ensures !tooLong ==> lines == Lines(stream)
    ensures tooLong ==> exists p: nat :: FirstLongRun(stream, p) && lines == Lines(stream[..p])
  {
    hide *;
    lines, tooLong := [], false;
    var buf: Bytes := [];
    var pos: nat, turn, eof := 0, 0, false;
    ghost var c: nat, drained := 0, false;
    ScansAtStart(stream);
    while true
      invariant Scans(stream, buf, c, pos, lines, eof, drained)
      decreases |stream| - c, |stream| - pos, if eof then 0 else 1
    {
      ScansBounds(stream, buf, c, pos, lines, eof, drained);
      var s := Split(0, None);
      NoBreakUnless(buf);
      if buf != [] || eof {
        s := SplitProgressLines(buf, eof);
      }
      if s.token.Some? {
        ScansToken(stream, buf, c, pos, lines, eof, drained, s);
        var token := s.token.value;
        KeepMeans(lines, token);
        if token != [] {
          lines := lines + [token];
        }
        c, drained := c + s.advance, NoBreak(buf);
        buf := buf[s.advance..];
        continue;
      }
      if eof {
        ScansEnd(stream, buf, c, pos, lines, drained);
        return;
      }
      if |buf| >= MAX_TOKEN {
        ScansFull(stream, buf, c, pos, lines, drained);
        tooLong := true;
        return;
      }
      if pos == |stream| {
        ScansEof(stream, buf, c, pos, lines, drained);
        eof, drained := true, false;
      } else {
        var n := ReadSize(if turn < |sizes| then sizes[turn] else 1, MAX_TOKEN - |buf|, |stream| - pos);
        ScansRead(stream, buf, c, pos, lines, drained, n);
        buf, pos, turn, drained := buf + stream[pos..pos + n], pos + n, turn + 1, false;
      }
    }
  }

  lemma NoBreakUnless(s: Bytes)
    ensures NoBreak(s) <==> !exists i :: 0 <= i < |s| && IsBreak(s[i])
  {
  }

  lemma KeepMeans(lines: seq<Bytes>, token: Bytes)
    ensures lines + Keep(token) == if token == [] then lines else lines + [token]
  {
  }
}
