/** The streaming scanner of src/profile/observer.rs against a line-by-line specification. */
module LogScanner {
  import opened Options
  import opened LogHeader
  import opened LineScan

  /** What follows a header: a colon and a blank, or, at the end of a line, nothing or a carriage return. */
  predicate Follows(p: Bytes, end: nat, complete: bool)
    requires end <= |p|
  {
    || (|p| >= end + 2 && p[end] == ':' && IsBlank(p[end + 1]))
    || (complete && (|p| == end || (|p| == end + 1 && p[end] == '\r')))
  }

  ghost predicate Hits(p: Bytes, complete: bool) {
    exists end: nat :: Header(p, end) && end <= |p| && Follows(p, end, complete)
  }

  class LogScanner {
    var prefix: Bytes
    var discardLine: bool

    constructor ()
      ensures Holds("")
    {
      prefix, discardLine := "", false;
    }

    /** The scanner stands for this unfinished line; never more than the bound of it is kept. */
    ghost predicate Holds(line: Bytes)
      reads this
    {
      prefix == Clip(line) && discardLine == (|prefix| == PREFIX_BYTES)
    }

    method Matches(complete: bool) returns (r: bool)
      ensures r == Hits(prefix, complete)
    {
      var end := NativeLimitEnd(prefix);
      if end.None? { return false; }
      var suffix := prefix[end.value..];
      return ": " <= suffix || ":\t" <= suffix || (complete && (suffix == "" || suffix == "\r"));
    }

    /** One part of a chunk, up to its line feed or to its end. */
    method Look(content: Bytes, complete: bool, ghost line: Bytes) returns (hit: bool)
      requires Holds(line)
      modifies this
      ensures hit == PartHits(Hits, line, content, complete)
      ensures !hit ==> Holds(line + content)
      ensures |prefix| <= PREFIX_BYTES
    {
      if discardLine {
        assert Clip(line) == Clip(line + content);
        return false;
      }
      var available := PREFIX_BYTES - |prefix|;
      prefix := prefix + content[..if |content| < available then |content| else available];
      assert prefix == Clip(line + content);
      hit := Matches(complete);
      if !hit { discardLine := |prefix| == PREFIX_BYTES; }
    }

    /** `feed`: the chunk is cut at its line feeds, and each part extends or ends the line. */
    method Feed(bytes: Bytes, finalRead: bool, ghost line: Bytes) returns (r: bool)
      requires Holds(line)
      modifies this
      ensures r == (ChunkHits(Hits, line, bytes) || (finalRead && FinalHits(Hits, TailAfter(line, bytes))))
      ensures !r ==> Holds(TailAfter(line, bytes))
      ensures |prefix| <= PREFIX_BYTES
    {
      var rest := bytes;
      ghost var before := line;
      while rest != ""
        invariant Holds(before)
        invariant ChunkHits(Hits, line, bytes) == ChunkHits(Hits, before, rest)
        invariant TailAfter(line, bytes) == TailAfter(before, rest)
        decreases |rest|
      {
        var k := LineEnd(rest);
        var complete := k < |rest|;
        assert !complete ==> rest[..k] == rest;
        var hit := Look(rest[..k], complete, before);
        if hit { return true; }
        if complete {
          prefix, discardLine, before := "", false, "";
          rest := rest[k + 1..];
        } else {
          before := before + rest;
          rest := "";
          assert before + "" == before;
        }
      }
      assert before + "" == before;
      if !finalRead || discardLine { return false; }
      r := Matches(true);
    }
  }

  /** `read_log` over the life of a child: feed until something matches, then the final read. */
  method Scan(chunks: seq<Bytes>) returns (limited: bool)
    ensures limited == Verdict(Hits, "", chunks)
  {
    var scanner := new LogScanner();
    ghost var line := "";
    for i := 0 to |chunks|
      invariant scanner.Holds(line) && fresh(scanner)
      invariant Verdict(Hits, "", chunks) == Verdict(Hits, line, chunks[i..])
    {
      limited := scanner.Feed(chunks[i], false, line);
      assert chunks[i..][1..] == chunks[i + 1..];
      if limited { return; }
      line := TailAfter(line, chunks[i]);
    }
    limited := scanner.Feed("", true, line);
    assert TailAfter(line, "") == line;
  }

  lemma LongerHits(p: Bytes, q: Bytes, complete: bool)
    requires p <= q && Hits(p, false)
    ensures Hits(q, complete)
  {
    var end: nat :| Header(p, end) && end <= |p| && Follows(p, end, false);
    HeaderExtends(p, q, end);
    assert Follows(q, end, complete);
  }

  /** The scanner's matcher is one whose matches do not depend on what follows. */
  lemma HitsPersist()
    ensures Persistent(Hits)
  {
    forall p, q, complete | Hits(p, false) && p <= q ensures Hits(q, complete) {
      LongerHits(p, q, complete);
    }
  }

  /**
   The scanner gives the verdict of the line-by-line specification for every
   way of cutting a log, exactly if no over-long line whose first 1024 bytes
   end at a header, or at a header and a carriage return, could decide it.
  */
  lemma ScannerIsChunkIndependent(log: Bytes)
    ensures (forall chunks | Concat(chunks) == log :: Verdict(Hits, "", chunks) <==> Sure(Hits, log))
            <==> (Truncated(Hits, log) ==> Sure(Hits, log))
  {
    HitsPersist();
    ChunkIndependence(Hits, log);
  }

  /** The exceptional lines: the kept part is a header, or a header and a carriage return, and nothing else. */
  lemma TruncatedExactly(line: Bytes)
    ensures TruncatedHit(Hits, line) <==>
              && |line| >= PREFIX_BYTES
              && (Header(Clip(line), PREFIX_BYTES)
                  || (Header(Clip(line), PREFIX_BYTES - 1) && line[PREFIX_BYTES - 1] == '\r'))
  {
    var p := Clip(line);
    forall a: nat, b: nat | Header(p, a) && Header(p, b) ensures a == b {
      HeaderIsUnique(p, a, b);
    }
  }

  const STAMP_TEXT: Bytes := "E0101 00:00:00.000000"

  lemma OneLineParts()
    ensures OneLine(STAMP_TEXT) && OneLine(SOURCE) && OneLine(EXHAUSTED)
  {
    assert OneLine("generating ") && OneLine("and executing: ");
    assert OneLine("RESOURCE_EXHAUSTED ") && OneLine("(code 429)");
  }

  /** A header whose blanks stretch it to exactly the length the scanner keeps. */
  function PaddedHeader(): (line: Bytes)
    ensures |line| == PREFIX_BYTES && OneLine(line)
    ensures HeaderAt(line, PREFIX_BYTES, 947, 948, false)
  {
    var line: Bytes := seq(PREFIX_BYTES, i requires 0 <= i < PREFIX_BYTES =>
      if i < STAMP then STAMP_TEXT[i]
      else if i < 947 then ' '
      else if i == 947 then '1'
      else if i < 969 then SOURCE[i - 948]
      else EXHAUSTED[i - 969]);
    OneLineParts();
    line
  }

  /**
   A concrete case: a log that is this one line.  Read in one piece it reports
   the limit; read byte by byte it does not.
  */
  lemma TruncatedWitness()
    ensures TruncatedHit(Hits, PaddedHeader())
    ensures var log := PaddedHeader() + "\n";
            Verdict(Hits, "", [log]) && !Verdict(Hits, "", Singles(log)) && Concat(Singles(log)) == log
  {
    var line := PaddedHeader();
    var log := line + "\n";
    assert Clip(line) == line;
    assert Header(line, PREFIX_BYTES);
    TruncatedExactly(line);
    FirstLine(Hits, log, line, "");
    assert log == line + "\n" + "";
    HitsPersist();
    assert !Sure(Hits, "");
    TruncationDecides(Hits, log);
  }
}
