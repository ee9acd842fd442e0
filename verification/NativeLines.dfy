/** Real lines of a native log, which the scanner finds, and lines like them, which it does not. */
module NativeLines {
  import opened Options
  import opened LogHeader
  import opened LineScan
  import opened LogScanner

  /** Stamp, blanks and process id of a native line. */
  function Start(): Bytes {
    "E1101 06:43:49.254543" + "       1"
  }

  function Quota(): Bytes {
    "generating " + "and executing: " + "RESOURCE_EXHAUSTED " + "(code 429)"
  }

  /** A native line that reports a limit in the words of the agent executor, and one that does without. */
  function Spoken(rest: Bytes): Bytes {
    Start() + (" errorreport.go:224] " + ("agent executor error: " + (Quota() + rest)))
  }

  function Direct(rest: Bytes): Bytes {
    Start() + (" errorreport.go:224] " + (Quota() + rest))
  }

  lemma StartIsRead()
    ensures |Start()| == 29 && StampAt(Start()) && DigitsAt(Start(), 28, 29)
    ensures forall i | STAMP <= i < 28 :: IsBlank(Start()[i])
  {
  }

  lemma StartPersists(start: Bytes, rest: Bytes)
    requires |start| == 29 && StampAt(start) && DigitsAt(start, 28, 29)
    requires forall i | STAMP <= i < 28 :: IsBlank(start[i])
    ensures var s := start + rest;
            StampAt(s) && DigitsAt(s, 28, 29) && forall i | STAMP <= i < 28 :: IsBlank(s[i])
  {
    assert start <= start + rest;
  }

  lemma LiteralFirst(text: Bytes, rest: Bytes)
    ensures LiteralAt(text + rest, 0, text)
  {
  }

  lemma LiteralLater(before: Bytes, s: Bytes, at: nat, text: Bytes)
    requires LiteralAt(s, at, text)
    ensures LiteralAt(before + s, |before| + at, text)
  {
    forall k | 0 <= k < |text| ensures (before + s)[|before| + at + k] == text[k] {
      assert (before + s)[|before| + at + k] == s[at + k];
    }
  }

  /** The source and the verdict, with the words of the agent between them or without. */
  lemma MessageFrom(source: Bytes, words: Bytes, verdict: Bytes, rest: Bytes)
    requires source == SOURCE && (words == AGENT || words == "") && verdict == EXHAUSTED
    ensures MessageAt(source + (words + (verdict + rest)), 0, |source| + |words| + |verdict|, words == AGENT)
  {
    LiteralFirst(source, words + (verdict + rest));
    LiteralFirst(verdict, rest);
    LiteralLater(words, verdict + rest, 0, verdict);
    LiteralLater(source, words + (verdict + rest), |words|, verdict);
    LiteralFirst(words, verdict + rest);
    LiteralLater(source, words + (verdict + rest), 0, words);
  }

  lemma HeaderFrom(start: Bytes, message: Bytes, end: nat, agent: bool)
    requires |start| == 29 && StampAt(start) && DigitsAt(start, 28, 29)
    requires forall i | STAMP <= i < 28 :: IsBlank(start[i])
    requires MessageAt(message, 0, end, agent)
    ensures Header(start + message, 29 + end)
  {
    StartPersists(start, message);
    LiteralLater(start, message, 0, SOURCE);
    if agent { LiteralLater(start, message, |SOURCE|, AGENT); }
    LiteralLater(start, message, end - |EXHAUSTED|, EXHAUSTED);
    assert HeaderAt(start + message, 29 + end, 28, 29, agent);
  }

  lemma Words()
    ensures " errorreport.go:224] " == SOURCE && |SOURCE| == 21
    ensures "agent executor error: " == AGENT && |AGENT| == 22
    ensures Quota() == EXHAUSTED && |EXHAUSTED| == 55
  {
  }

  lemma HeaderOf(start: Bytes, source: Bytes, words: Bytes, verdict: Bytes, rest: Bytes)
    requires |start| == 29 && StampAt(start) && DigitsAt(start, 28, 29)
    requires forall i | STAMP <= i < 28 :: IsBlank(start[i])
    requires source == SOURCE && (words == AGENT || words == "") && verdict == EXHAUSTED
    ensures var s := start + (source + (words + (verdict + rest)));
            var end := 29 + |source| + |words| + |verdict|;
            Header(s, end) && end <= |s| && s[end..] == rest
  {
    MessageFrom(source, words, verdict, rest);
    HeaderFrom(start, source + (words + (verdict + rest)), |source| + |words| + |verdict|, words == AGENT);
  }

  /** With the words of the agent executor or without them, a native line begins with a header. */
  lemma NativeHeader(rest: Bytes)
    ensures Header(Spoken(rest), 127) && |Spoken(rest)| >= 127 && Spoken(rest)[127..] == rest
    ensures Header(Direct(rest), 105) && |Direct(rest)| >= 105 && Direct(rest)[105..] == rest
  {
    StartIsRead();
    Words();
    var start, source, agent, verdict := Start(), SOURCE, AGENT, Quota();
    HeaderOf(start, source, agent, verdict, rest);
    HeaderOf(start, source, "", verdict, rest);
    assert "" + (verdict + rest) == verdict + rest;
  }

  lemma Regroup(a: Bytes, b: Bytes, c: Bytes)
    ensures a + (b + c) == (a + b) + c
  {
  }

  lemma SpokenGoesOn(message: Bytes)
    ensures Spoken(": " + message) == Spoken(": ") + message
  {
    var start, source, agent, verdict := Start(), " errorreport.go:224] ", "agent executor error: ", Quota();
    var end := ": ";
    Regroup(verdict, end, message);
    Regroup(agent, verdict + end, message);
    Regroup(source, agent + (verdict + end), message);
    Regroup(start, source + (agent + (verdict + end)), message);
  }

  /** However long its message is, a native line is found whatever way the log is cut. */
  lemma NativeLineIsSure(message: Bytes)
    ensures SureLine(Hits, Spoken(": " + message))
  {
    var header := Spoken(": ");
    var line := Spoken(": " + message);
    NativeHeader(": ");
    SpokenGoesOn(message);
    assert |header| == 129 && header[127..][0] == ':' && header[127..][1] == ' ';
    assert header <= Clip(line);
    HeaderExtends(header, Clip(line), 127);
    assert Clip(line)[127] == ':' && Clip(line)[128] == ' ';
    assert Follows(Clip(line), 127, |line| < PREFIX_BYTES);
  }

  /** What decides after a header: a colon and a blank, or the end of the line. */
  predicate Ends(rest: Bytes, complete: bool) {
    ": " <= rest || ":\t" <= rest || (complete && (rest == "" || rest == "\r"))
  }

  lemma FollowsExactly(s: Bytes, end: nat, complete: bool)
    requires end <= |s|
    ensures Follows(s, end, complete) <==> Ends(s[end..], complete)
  {
    var rest := s[end..];
    assert |rest| > 0 ==> rest[0] == s[end];
    assert |rest| > 1 ==> rest[1] == s[end + 1];
  }

  /** A native line is found exactly if its header is followed so. */
  lemma NativeExactly(rest: Bytes, complete: bool)
    ensures Hits(Spoken(rest), complete) <==> Ends(rest, complete)
    ensures Hits(Direct(rest), complete) <==> Ends(rest, complete)
  {
    NativeHeader(rest);
    FollowsExactly(Spoken(rest), 127, complete);
    FollowsExactly(Direct(rest), 105, complete);
    forall end: nat | Header(Spoken(rest), end) ensures end == 127 {
      HeaderIsUnique(Spoken(rest), end, 127);
    }
    forall end: nat | Header(Direct(rest), end) ensures end == 105 {
      HeaderIsUnique(Direct(rest), end, 105);
    }
  }

  /** Nothing else is: not after a user's words, from another source, with another code, or as a warning. */
  lemma OtherLinesDoNot(rest: Bytes, complete: bool)
    ensures !Hits("user said " + rest, complete)
    ensures !Hits("W" + Start()[1..] + rest, complete)
    ensures !Hits(Start() + (" prompt.go:224] " + rest), complete)
    ensures !Hits(Direct("0:" + rest), complete)
  {
    assert ("user said " + rest)[0] == 'u' && ("W" + Start()[1..] + rest)[0] == 'W';
    forall s: Bytes, end: nat | |s| > 0 && Header(s, end) ensures s[0] == 'E' {
      StampIs(s, end);
    }
    forall end: nat ensures !Header(Start() + (" prompt.go:224] " + rest), end) {
      OtherSource(rest, end);
    }
    assert ("0:" + rest)[0] == '0';
    NativeExactly("0:" + rest, complete);
  }

  /** Every header begins with an `E`, month and day, and the time of day to the microsecond. */
  lemma StampIs(s: Bytes, end: nat)
    requires Header(s, end)
    ensures |s| > 21 && s[0] == 'E' && s[5] == ' ' && s[8] == ':' && s[11] == ':' && s[14] == '.'
    ensures forall i | 0 <= i < 21 && i !in {0, 5, 8, 11, 14} :: '0' <= s[i] <= '9'
    ensures s[21] == ' ' || s[21] == '\t'
  {
  }

  /** After such a start the source of a header begins with an `e`. */
  lemma SourceIsNamed(s: Bytes, end: nat, i: nat, m: nat, agent: bool)
    requires HeaderAt(s, end, i, m, agent)
    requires |s| > 30 && (forall k | STAMP <= k < 28 :: IsBlank(s[k])) && IsDigit(s[28]) && s[29] == ' '
    ensures s[30] == 'e'
  {
    RunsAreMaximal(s, end, i, m, agent, 28, 29);
    assert s[m + 1] == SOURCE[1];
  }

  lemma OtherSource(rest: Bytes, end: nat)
    ensures !Header(Start() + (" prompt.go:224] " + rest), end)
  {
    StartIsRead();
    var start := Start();
    var tail := " prompt.go:224] " + rest;
    assert tail[0] == ' ' && tail[1] == 'p';
    var s := start + tail;
    StartPersists(start, tail);
    assert s[29] == tail[0] && s[30] == tail[1];
    if i: nat, m: nat, agent :| HeaderAt(s, end, i, m, agent) {
      SourceIsNamed(s, end, i, m, agent);
    }
  }
}
