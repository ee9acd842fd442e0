/**
 Scanning a stream line by line while it arrives in chunks, keeping a bounded
 prefix of each line.  Nothing here depends on what is looked for.
*/
module LineScan {
  // A byte is written as the character with its code.
  type Bytes = string

  /** Whether a kept prefix matches, given whether the line is known to be complete. */
  type Matcher = (Bytes, bool) -> bool

  /** A match that needs no line end stays one however the line goes on. */
  ghost predicate Persistent(h: Matcher) {
    && !h("", false)
    && forall p, q, complete {:trigger h(p, false), h(q, complete)} :: h(p, false) && p <= q ==> h(q, complete)
  }

  const PREFIX_BYTES: nat := 1024

  /** The part of a line the scanner keeps. */
  function Clip(line: Bytes): (p: Bytes)
    ensures |p| <= PREFIX_BYTES && p <= line
    ensures |p| == PREFIX_BYTES <==> |line| >= PREFIX_BYTES
  {
    if |line| <= PREFIX_BYTES then line else line[..PREFIX_BYTES]
  }

  predicate OneLine(s: Bytes) {
    forall i | 0 <= i < |s| :: s[i] != '\n'
  }

  function LineEnd(s: Bytes): (k: nat)
    ensures k <= |s| && (k < |s| ==> s[k] == '\n')
    ensures forall i | 0 <= i < k :: s[i] != '\n'
  {
    if s == "" || s[0] == '\n' then 0 else 1 + LineEnd(s[1..])
  }

  // ---- the scanner on one chunk

  /** The unfinished line after a chunk, given the unfinished line before it. */
  function TailAfter(line: Bytes, chunk: Bytes): Bytes
    decreases |chunk|
  {
    var k := LineEnd(chunk);
    if k == |chunk| then line + chunk else TailAfter("", chunk[k + 1..])
  }

  /** One look: the line was not given up before, and the kept part of it now matches. */
  predicate PartHits(h: Matcher, line: Bytes, content: Bytes, complete: bool) {
    |line| < PREFIX_BYTES && h(Clip(line + content), complete)
  }

  predicate ChunkHits(h: Matcher, line: Bytes, chunk: Bytes)
    decreases |chunk|
  {
    var k := LineEnd(chunk);
    if k == |chunk| then chunk != "" && PartHits(h, line, chunk, false)
    else PartHits(h, line, chunk[..k], true) || ChunkHits(h, "", chunk[k + 1..])
  }

  predicate FinalHits(h: Matcher, line: Bytes) {
    |line| < PREFIX_BYTES && h(line, true)
  }

  // ---- whole streams

  function Concat(chunks: seq<Bytes>): Bytes {
    if chunks == [] then "" else chunks[0] + Concat(chunks[1..])
  }

  /** What a scanner says about a stream that arrives in chunks and then ends. */
  predicate Verdict(h: Matcher, line: Bytes, chunks: seq<Bytes>)
    decreases |chunks|
  {
    if chunks == [] then FinalHits(h, line)
    else ChunkHits(h, line, chunks[0]) || Verdict(h, TailAfter(line, chunks[0]), chunks[1..])
  }

  // ---- the specification: one line at a time

  /** The line counts however it is cut into chunks. */
  predicate SureLine(h: Matcher, line: Bytes) {
    h(Clip(line), |line| < PREFIX_BYTES)
  }

  /** Only the kept part of an over-long line looks like a whole one. */
  predicate TruncatedHit(h: Matcher, line: Bytes) {
    |line| >= PREFIX_BYTES && h(Clip(line), true) && !h(Clip(line), false)
  }

  /** Some line counts for sure; the last one need not be terminated. */
  predicate Sure(h: Matcher, s: Bytes)
    decreases |s|
  {
    var k := LineEnd(s);
    SureLine(h, s[..k]) || (k < |s| && Sure(h, s[k + 1..]))
  }

  /** Some terminated line is over-long and matches only because it was cut. */
  predicate Truncated(h: Matcher, s: Bytes)
    decreases |s|
  {
    var k := LineEnd(s);
    k < |s| && (TruncatedHit(h, s[..k]) || Truncated(h, s[k + 1..]))
  }

  /** Text without a line feed only moves the first line feed of what follows. */
  lemma LineEndOf(line: Bytes, rest: Bytes)
    requires OneLine(line)
    ensures LineEnd(line + rest) == |line| + LineEnd(rest)
  {
    var s, k := line + rest, LineEnd(rest);
    var end := LineEnd(s);
    assert forall i | 0 <= i < |s| :: s[i] == if i < |line| then line[i] else rest[i - |line|];
    assert end < |s| ==> s[end] == '\n';
    assert k < |rest| ==> s[|line| + k] == '\n';
  }

  lemma NoLineEnd(line: Bytes)
    requires OneLine(line)
    ensures LineEnd(line) == |line| && line[..LineEnd(line)] == line
  {
  }

  /** What is sure about a stream is decided by its first line and the lines after it. */
  lemma FirstLine(h: Matcher, s: Bytes, first: Bytes, rest: Bytes)
    requires OneLine(first) && s == first + "\n" + rest
    ensures Sure(h, s) <==> SureLine(h, first) || Sure(h, rest)
    ensures Truncated(h, s) <==> TruncatedHit(h, first) || Truncated(h, rest)
  {
    assert s == first + ("\n" + rest);
    LineEndOf(first, "\n" + rest);
    assert s[..|first|] == first && s[|first| + 1..] == rest;
  }

  /** A match before the end of a line is final for that line, wherever the line ends. */
  lemma OpenLineHits(h: Matcher, line: Bytes, rest: Bytes, s: Bytes)
    requires Persistent(h) && OneLine(line) && h(Clip(line), false) && s == line + rest
    ensures Sure(h, s)
  {
    LineEndOf(line, rest);
    assert Clip(line) <= Clip(s[..LineEnd(s)]);
  }

  lemma OpenLine(h: Matcher, line: Bytes)
    requires OneLine(line) && !h(Clip(line), false)
    ensures Sure(h, line) <==> FinalHits(h, line)
    ensures !Truncated(h, line)
  {
    NoLineEnd(line);
  }

  /** A look at the end of a line, against the line itself. */
  lemma ClosedLine(h: Matcher, line: Bytes, content: Bytes)
    requires Persistent(h) && !h(Clip(line), false)
    ensures SureLine(h, line + content) ==> PartHits(h, line, content, true)
    ensures PartHits(h, line, content, true) ==> SureLine(h, line + content) || TruncatedHit(h, line + content)
  {
    var kept := Clip(line + content);
    assert h(kept, false) ==> h(kept, true);
    assert |line| >= PREFIX_BYTES ==> kept == Clip(line);
  }

  /** What one chunk may claim, and must not lose. */
  ghost predicate Justifies(h: Matcher, hit: bool, s: Bytes, left: Bytes, remaining: Bytes) {
    if hit then Sure(h, s) || Truncated(h, s)
    else
      && !h(Clip(left), false)
      && (Sure(h, s) <==> Sure(h, remaining))
      && (Truncated(h, remaining) ==> Truncated(h, s))
  }

  lemma OpenChunk(h: Matcher, line: Bytes, chunk: Bytes, rest: Bytes, s: Bytes)
    requires Persistent(h) && OneLine(line) && OneLine(chunk) && !h(Clip(line), false)
    requires s == line + chunk + rest
    ensures Justifies(h, chunk != "" && PartHits(h, line, chunk, false), s, line + chunk, s)
  {
    var left := line + chunk;
    if h(Clip(left), false) { OpenLineHits(h, left, rest, s); }
    assert |line| >= PREFIX_BYTES ==> Clip(left) == Clip(line);
    assert chunk == "" ==> left == line;
  }

  /** The text after the first line of a chunk. */
  function AfterFirst(chunk: Bytes, rest: Bytes): Bytes
    requires LineEnd(chunk) < |chunk|
  {
    chunk[LineEnd(chunk) + 1..] + rest
  }

  /** One chunk: a hit is justified, and without one nothing that is sure was lost. */
  lemma {:induction false} ChunkStep(
    h: Matcher, line: Bytes, chunk: Bytes, rest: Bytes, s: Bytes, left: Bytes, remaining: Bytes)
    requires Persistent(h) && OneLine(line) && !h(Clip(line), false) && s == line + chunk + rest
    requires left == TailAfter(line, chunk) && remaining == left + rest
    ensures OneLine(left)
    ensures Justifies(h, ChunkHits(h, line, chunk), s, left, remaining)
    decreases |chunk|
  {
    if LineEnd(chunk) == |chunk| {
      OpenChunk(h, line, chunk, rest, s);
    } else {
      var after := chunk[LineEnd(chunk) + 1..];
      FirstPart(h, line, chunk, rest, s);
      EmptyFront(after, rest);
      ChunkStep(h, "", after, rest, AfterFirst(chunk, rest), left, remaining);
      PartFirst(h, line, chunk, LineEnd(chunk));
    }
  }

  lemma EmptyFront(after: Bytes, rest: Bytes)
    ensures "" + after + rest == after + rest
  {
  }

  lemma PartFirst(h: Matcher, line: Bytes, chunk: Bytes, k: nat)
    requires k == LineEnd(chunk) < |chunk|
    ensures ChunkHits(h, line, chunk) <==> PartHits(h, line, chunk[..k], true) || ChunkHits(h, "", chunk[k + 1..])
  {
    var after := chunk[k + 1..];
    assert ChunkHits(h, line, chunk) == (PartHits(h, line, chunk[..k], true) || ChunkHits(h, "", after));
  }

  /** The first line of a chunk, and the stream after it. */
  lemma FirstPart(h: Matcher, line: Bytes, chunk: Bytes, rest: Bytes, s: Bytes)
    requires Persistent(h) && OneLine(line) && !h(Clip(line), false) && s == line + chunk + rest
    requires LineEnd(chunk) < |chunk|
    ensures var hit, after := PartHits(h, line, chunk[..LineEnd(chunk)], true), AfterFirst(chunk, rest);
            && (hit ==> Sure(h, s) || Truncated(h, s))
            && (!hit ==> (Sure(h, s) <==> Sure(h, after)))
            && (Sure(h, after) ==> Sure(h, s)) && (Truncated(h, after) ==> Truncated(h, s))
  {
    var k := LineEnd(chunk);
    Reassociate(line, chunk[..k], chunk[k + 1..], rest, chunk, s);
    FirstLine(h, s, line + chunk[..k], chunk[k + 1..] + rest);
    ClosedLine(h, line, chunk[..k]);
  }

  lemma Reassociate(line: Bytes, content: Bytes, after: Bytes, rest: Bytes, chunk: Bytes, s: Bytes)
    requires |content| < |chunk| && chunk[|content|] == '\n' && content == chunk[..|content|]
    requires after == chunk[|content| + 1..] && s == line + chunk + rest
    ensures s == line + content + "\n" + (after + rest)
  {
    assert chunk == content + "\n" + after;
  }

  /** However a stream is cut, a sure line is found, and whatever is found is a sure or a truncated line. */
  lemma {:induction false} Bracketed(h: Matcher, line: Bytes, chunks: seq<Bytes>)
    requires Persistent(h) && OneLine(line) && !h(Clip(line), false)
    ensures Sure(h, line + Concat(chunks)) ==> Verdict(h, line, chunks)
    ensures Verdict(h, line, chunks) ==> Sure(h, line + Concat(chunks)) || Truncated(h, line + Concat(chunks))
    decreases |chunks|
  {
    if chunks == [] {
      assert line + "" == line;
      OpenLine(h, line);
    } else {
      assert line + Concat(chunks) == line + chunks[0] + Concat(chunks[1..]);
      ChunkStep(h, line, chunks[0], Concat(chunks[1..]), line + Concat(chunks),
                TailAfter(line, chunks[0]), TailAfter(line, chunks[0]) + Concat(chunks[1..]));
      if !ChunkHits(h, line, chunks[0]) { Bracketed(h, TailAfter(line, chunks[0]), chunks[1..]); }
    }
  }

  /** In one piece, every truncated line counts as well. */
  lemma {:induction false} OnePiece(h: Matcher, s: Bytes)
    requires Persistent(h)
    ensures ChunkHits(h, "", s) || FinalHits(h, TailAfter("", s)) <==> Sure(h, s) || Truncated(h, s)
    decreases |s|
  {
    var k := LineEnd(s);
    var first := s[..k];
    assert "" + first == first && (k == |s| ==> first == s);
    assert h(Clip(first), false) ==> h(Clip(first), true);
    if k < |s| {
      assert s == first + "\n" + s[k + 1..];
      FirstLine(h, s, first, s[k + 1..]);
      OnePiece(h, s[k + 1..]);
    } else {
      OneOpenLine(h, s);
    }
  }

  lemma OneOpenLine(h: Matcher, s: Bytes)
    requires Persistent(h) && OneLine(s)
    ensures ChunkHits(h, "", s) || FinalHits(h, TailAfter("", s)) <==> Sure(h, s)
    ensures !Truncated(h, s)
  {
    NoLineEnd(s);
    assert "" + s == s;
    assert h(Clip(s), false) ==> h(Clip(s), true);
  }

  function Singles(s: Bytes): (chunks: seq<Bytes>)
    ensures Concat(chunks) == s
  {
    if s == "" then [] else [s[..1]] + Singles(s[1..])
  }

  lemma FeedStep(h: Matcher, line: Bytes, s: Bytes)
    requires Persistent(h) && !h(Clip(line), false) && s != ""
    ensures Verdict(h, line, Singles(s)) <==>
              if s[0] == '\n' then SureLine(h, line) || Verdict(h, "", Singles(s[1..]))
              else (|line| < PREFIX_BYTES && h(Clip(line + [s[0]]), false))
                   || Verdict(h, line + [s[0]], Singles(s[1..]))
  {
    assert s[..1] == [s[0]];
    assert Singles(s)[1..] == Singles(s[1..]);
    OneByte(h, line, s[0]);
  }

  /** Byte by byte, no truncated line ever counts. */
  lemma {:induction false} ByteByByte(h: Matcher, line: Bytes, s: Bytes, whole: Bytes)
    requires Persistent(h) && OneLine(line) && !h(Clip(line), false) && whole == line + s
    ensures Verdict(h, line, Singles(s)) <==> Sure(h, whole)
    decreases |s|
  {
    if s == "" {
      assert whole == line;
      OpenLine(h, line);
    } else {
      var b, rest := s[0], s[1..];
      FeedStep(h, line, s);
      if b == '\n' {
        ByteByByte(h, "", rest, rest);
        NextLine(h, line, s, whole);
      } else {
        var left := line + [b];
        Shift(line, s, whole);
        if h(Clip(left), false) {
          StillOpen(h, line, b);
          OpenLineHits(h, left, rest, whole);
        } else {
          ByteByByte(h, left, rest, whole);
        }
      }
    }
  }

  lemma NextLine(h: Matcher, line: Bytes, s: Bytes, whole: Bytes)
    requires OneLine(line) && s != "" && s[0] == '\n' && whole == line + s
    ensures Sure(h, whole) <==> SureLine(h, line) || Sure(h, s[1..])
  {
    assert s == "\n" + s[1..];
    assert whole == line + "\n" + s[1..];
    FirstLine(h, whole, line, s[1..]);
  }

  lemma Shift(line: Bytes, s: Bytes, whole: Bytes)
    requires OneLine(line) && s != "" && s[0] != '\n' && whole == line + s
    ensures OneLine(line + [s[0]]) && whole == line + [s[0]] + s[1..]
  {
  }

  /** A line that just began to match was not over-long before. */
  lemma StillOpen(h: Matcher, line: Bytes, b: char)
    requires !h(Clip(line), false) && h(Clip(line + [b]), false)
    ensures |line| < PREFIX_BYTES
  {
    assert |line| >= PREFIX_BYTES ==> Clip(line + [b]) == Clip(line);
  }

  lemma OneByte(h: Matcher, line: Bytes, b: char)
    requires Persistent(h) && !h(Clip(line), false)
    ensures TailAfter(line, [b]) == if b == '\n' then "" else line + [b]
    ensures ChunkHits(h, line, [b]) <==>
              if b == '\n' then SureLine(h, line) else |line| < PREFIX_BYTES && h(Clip(line + [b]), false)
  {
    if b == '\n' {
      assert LineEnd([b]) == 0 && [b][..0] == "" && [b][1..] == "" && line + "" == line;
    } else {
      assert LineEnd([b]) == 1;
    }
  }

  /**
   The verdict agrees with the line-by-line specification for every way of
   cutting the stream exactly when no truncated line could decide it.
  */
  lemma ChunkIndependence(h: Matcher, s: Bytes)
    requires Persistent(h)
    ensures (forall chunks | Concat(chunks) == s :: Verdict(h, "", chunks) <==> Sure(h, s))
            <==> (Truncated(h, s) ==> Sure(h, s))
  {
    forall chunks | Concat(chunks) == s
      ensures Sure(h, s) ==> Verdict(h, "", chunks)
      ensures Verdict(h, "", chunks) ==> Sure(h, s) || Truncated(h, s)
    {
      Bracketed(h, "", chunks);
      assert "" + s == s;
    }
    Whole(h, s);
  }

  lemma Whole(h: Matcher, s: Bytes)
    requires Persistent(h)
    ensures Concat([s]) == s && (Verdict(h, "", [s]) <==> Sure(h, s) || Truncated(h, s))
  {
    OnePiece(h, s);
    assert [s][1..] == [] && Concat([]) == "" && s + "" == s;
  }

  /** And when one could, two ways of cutting disagree: in one piece it counts, byte by byte it does not. */
  lemma TruncationDecides(h: Matcher, s: Bytes)
    requires Persistent(h) && Truncated(h, s) && !Sure(h, s)
    ensures Concat([s]) == s && Concat(Singles(s)) == s
    ensures Verdict(h, "", [s]) && !Verdict(h, "", Singles(s))
  {
    Whole(h, s);
    ByteByByte(h, "", s, s);
  }
}
