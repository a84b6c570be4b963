/** The line framing of the syscall gate, kernel/src/transport/socket.ts: characters arrive in chunks
    of any size, and every non-blank line is handled once its newline is there.  Gate.dfy has the loop
    that does it. */
module Framing {

  /** What String.prototype.trim removes. */
  predicate IsSpace(c: char) {
    var n := c as int;
    0x09 <= n <= 0x0d || n == 0x20 || n == 0xa0 || n == 0x1680 || 0x2000 <= n <= 0x200a
    || n == 0x2028 || n == 0x2029 || n == 0x202f || n == 0x205f || n == 0x3000 || n == 0xfeff
  }

  predicate IsBlank(line: string) {
    forall i :: 0 <= i < |line| ==> IsSpace(line[i])
  }

  /** Spaces, tabs and carriage returns alone are blank, and any other printable ASCII character makes a
      line that is not. */
  lemma WhatIsBlank(line: string)
    ensures (forall i :: 0 <= i < |line| ==> line[i] in {' ', '\t', '\r', '\n'}) ==> IsBlank(line)
    ensures (exists i :: 0 <= i < |line| && '!' <= line[i] <= '~') ==> !IsBlank(line)
  {}

  // ----- the stream as a whole -----

  /** The stream cut at every newline: the complete lines, and last what has no newline yet. */
  function Segments(s: string): (r: seq<string>)
    ensures |r| >= 1
  {
    if s == "" then [""] else Push(s[0], Segments(s[1..]))
  }

  /** One more character in front. */
  function Push(c: char, segs: seq<string>): (r: seq<string>)
    requires |segs| >= 1
    ensures |r| >= 1
  {
    if c == '\n' then [""] + segs else [[c] + segs[0]] + segs[1..]
  }

  function Lines(s: string): seq<string> {
    var r := Segments(s);
    r[..|r| - 1]
  }

  function Tail(s: string): string {
    var r := Segments(s);
    r[|r| - 1]
  }

  function NonBlank(lines: seq<string>): seq<string> {
    if lines == [] then []
    else (if IsBlank(lines[0]) then [] else [lines[0]]) + NonBlank(lines[1..])
  }

  function Concat(chunks: seq<string>): string {
    if chunks == [] then "" else chunks[0] + Concat(chunks[1..])
  }

  predicate HasNoNewline(s: string) {
    forall i :: 0 <= i < |s| ==> s[i] != '\n'
  }

  lemma PushOnLines(c: char, lines: seq<string>, segs: seq<string>)
    requires |segs| >= 1 && (c == '\n' || |lines| >= 1)
    ensures Push(c, lines + segs) == (if c == '\n' then [""] + lines else Push(c, lines)) + segs
  {}

  lemma PushLast(c: char, tail: string, b: string)
    requires c != '\n'
    ensures Segments([c] + tail + b) == Push(c, Segments(tail + b))
  {
    assert ([c] + tail + b)[1..] == tail + b;
  }

  lemma SplitLast(s: string)
    ensures Segments(s) == Lines(s) + [Tail(s)]
  {}

  lemma LastIs(s: string, lines: seq<string>, tail: string)
    requires Segments(s) == lines + [tail]
    ensures Lines(s) == lines && Tail(s) == tail
  {}

  lemma PushShape(c: char, s: string)
    ensures Lines([c] + s) == if c == '\n' then [""] + Lines(s)
                              else if Lines(s) == [] then [] else Push(c, Lines(s))
    ensures Tail([c] + s) == if c != '\n' && Lines(s) == [] then [c] + Tail(s) else Tail(s)
  {
    assert ([c] + s)[1..] == s;
    var lines, tail := Lines(s), Tail(s);
    SplitLast(s);
    assert Segments([c] + s) == Push(c, lines + [tail]);
    if c == '\n' || lines != [] {
      PushOnLines(c, lines, [tail]);
      LastIs([c] + s, if c == '\n' then [""] + lines else Push(c, lines), tail);
    } else {
      assert lines + [tail] == [tail];
      assert Push(c, [tail]) == [[c] + tail];
      LastIs([c] + s, [], [c] + tail);
    }
  }

  /** Cutting a + b cuts a, and then the unfinished line of a with b behind it. */
  lemma {:induction false} SegmentsConcat(a: string, b: string)
    ensures Segments(a + b) == Lines(a) + Segments(Tail(a) + b)
  {
    if a == "" {
      assert a + b == b && Tail(a) + b == b && Lines(a) == [];
    } else {
      var c, a' := a[0], a[1..];
      assert a == [c] + a' && (a + b)[1..] == a' + b;
      SegmentsConcat(a', b);
      PushShape(c, a');
      if c != '\n' && Lines(a') == [] {
        PushLast(c, Tail(a'), b);
      } else {
        PushOnLines(c, Lines(a'), Segments(Tail(a') + b));
      }
    }
  }

  lemma LinesConcat(a: string, b: string)
    ensures Lines(a + b) == Lines(a) + Lines(Tail(a) + b)
    ensures Tail(a + b) == Tail(Tail(a) + b)
  {
    SegmentsConcat(a, b);
  }

  lemma {:induction false} NonBlankConcat(a: seq<string>, b: seq<string>)
    ensures NonBlank(a + b) == NonBlank(a) + NonBlank(b)
  {
    if a == [] {
      assert a + b == b;
    } else {
      assert (a + b)[1..] == a[1..] + b;
      NonBlankConcat(a[1..], b);
    }
  }

  lemma {:induction false} OneSegment(s: string)
    requires HasNoNewline(s)
    ensures Segments(s) == [s]
  {
    if s != "" {
      OneSegment(s[1..]);
      assert s == [s[0]] + s[1..];
    }
  }

  /** The line up to the first newline. */
  lemma FirstLine(line: string, rest: string)
    requires HasNoNewline(line)
    ensures Lines(line + "\n" + rest) == [line] + Lines(rest)
    ensures Tail(line + "\n" + rest) == Tail(rest)
  {
    SegmentsOfLine(line, rest);
    SplitLast(rest);
    assert [line] + (Lines(rest) + [Tail(rest)]) == [line] + Lines(rest) + [Tail(rest)];
    LastIs(line + "\n" + rest, [line] + Lines(rest), Tail(rest));
  }

  lemma {:induction false} SegmentsOfLine(line: string, rest: string)
    requires HasNoNewline(line)
    ensures Segments(line + "\n" + rest) == [line] + Segments(rest)
  {
    if line == "" {
      assert (line + "\n" + rest)[1..] == rest;
    } else {
      assert (line + "\n" + rest)[1..] == line[1..] + "\n" + rest;
      SegmentsOfLine(line[1..], rest);
      assert line == [line[0]] + line[1..];
    }
  }

  lemma NonBlankSnoc(done: seq<string>, line: string)
    ensures NonBlank(done + [line]) == NonBlank(done) + if IsBlank(line) then [] else [line]
  {
    NonBlankConcat(done, [line]);
    assert [line][1..] == [];
  }

  lemma CutAt(buf: string, nl: nat)
    requires nl < |buf|
    ensures buf == buf[..nl] + [buf[nl]] + buf[nl + 1..]
  {}

  /** Cutting the first line off the buffer. */
  lemma TakeLine(buf: string, nl: nat, done: seq<string>)
    requires nl < |buf| && buf[nl] == '\n' && HasNoNewline(buf[..nl])
    ensures done + Lines(buf) == done + [buf[..nl]] + Lines(buf[nl + 1..])
    ensures Tail(buf) == Tail(buf[nl + 1..])
    ensures NonBlank(done + [buf[..nl]]) == NonBlank(done) + if IsBlank(buf[..nl]) then [] else [buf[..nl]]
  {
    CutAt(buf, nl);
    FirstLine(buf[..nl], buf[nl + 1..]);
    NonBlankSnoc(done, buf[..nl]);
  }

  /** What NonBlank leaves out is blank, and what it keeps is not, in order. */
  lemma {:induction false} NonBlankIsExact(lines: seq<string>)
    ensures forall line :: line in NonBlank(lines) <==> line in lines && !IsBlank(line)
    ensures |NonBlank(lines)| <= |lines|
  {
    if lines != [] {
      NonBlankIsExact(lines[1..]);
      assert forall line :: line in lines <==> line == lines[0] || line in lines[1..];
    }
  }

  // ----- chunking -----

  /** The lines handled by a run of data callbacks from an unfinished line, and what is unfinished
      afterwards; each callback contributes what Gate.Connection.OnData does. */
  function Received(buf: string, chunks: seq<string>): (seq<string>, string)
    decreases |chunks|
  {
    if chunks == [] then ([], buf)
    else
      var all := buf + chunks[0];
      var (later, rest) := Received(Tail(all), chunks[1..]);
      (NonBlank(Lines(all)) + later, rest)
  }

  lemma {:induction false} TailIsUnfinished(s: string)
    ensures HasNoNewline(Tail(s))
  {
    if s != "" {
      TailIsUnfinished(s[1..]);
      PushShape(s[0], s[1..]);
      assert s == [s[0]] + s[1..];
    }
  }

  /** However a stream is cut into chunks, the lines handled are the non-blank complete lines of the
      whole stream, and what is kept is what follows its last newline. */
  lemma {:induction false} ChunkingDoesNotMatter(buf: string, chunks: seq<string>)
    requires HasNoNewline(buf)
    ensures Received(buf, chunks) == (NonBlank(Lines(buf + Concat(chunks))), Tail(buf + Concat(chunks)))
    decreases |chunks|
  {
    if chunks == [] {
      assert buf + Concat(chunks) == buf;
      OneSegment(buf);
    } else {
      var all, later := buf + chunks[0], Concat(chunks[1..]);
      TailIsUnfinished(all);
      ChunkingDoesNotMatter(Tail(all), chunks[1..]);
      LinesConcat(all, later);
      NonBlankConcat(Lines(all), Lines(Tail(all) + later));
      assert buf + Concat(chunks) == all + later;
    }
  }

  // ----- the other way round -----

  /** Lines as a client sends them. */
  function Framed(lines: seq<string>): string {
    if lines == [] then "" else lines[0] + "\n" + Framed(lines[1..])
  }

  /** Lines without newlines in them arrive as they were sent, the blank ones left out, whatever the
      chunks, and nothing stays behind. */
  lemma FramingRoundTrip(lines: seq<string>, chunks: seq<string>)
    requires forall i :: 0 <= i < |lines| ==> HasNoNewline(lines[i])
    requires Concat(chunks) == Framed(lines)
    ensures Received("", chunks) == (NonBlank(lines), "")
    ensures (forall i :: 0 <= i < |lines| ==> !IsBlank(lines[i])) ==> NonBlank(lines) == lines
  {
    ChunkingDoesNotMatter("", chunks);
    assert "" + Concat(chunks) == Framed(lines);
    LinesOfFramed(lines);
    if forall i :: 0 <= i < |lines| ==> !IsBlank(lines[i]) {
      NoneIsBlank(lines);
    }
  }

  lemma {:induction false} LinesOfFramed(lines: seq<string>)
    requires forall i :: 0 <= i < |lines| ==> HasNoNewline(lines[i])
    ensures Lines(Framed(lines)) == lines && Tail(Framed(lines)) == ""
  {
    if lines != [] {
      LinesOfFramed(lines[1..]);
      FirstLine(lines[0], Framed(lines[1..]));
    }
  }

  lemma {:induction false} NoneIsBlank(lines: seq<string>)
    requires forall i :: 0 <= i < |lines| ==> !IsBlank(lines[i])
    ensures NonBlank(lines) == lines
  {
    if lines != [] {
      NoneIsBlank(lines[1..]);
    }
  }
}
