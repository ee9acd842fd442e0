/** The native rate-limit header of src/profile/observer.rs, as a cursor parser and as a grammar. */
module LogHeader {
  import opened Options
  import opened LineScan

  const SOURCE: Bytes := " errorreport.go:224] "
  const AGENT: Bytes := "agent executor error: "
  const EXHAUSTED: Bytes := "generating " + "and executing: " + "RESOURCE_EXHAUSTED " + "(code 429)"

  // E, month and day, a blank, and the time of day to the microsecond.
  const STAMP: nat := 21

  predicate IsDigit(b: char) {
    '0' <= b <= '9'
  }

  predicate IsBlank(b: char) {
    b == ' ' || b == '\t'
  }

  // ---- the grammar

  predicate DigitsAt(s: Bytes, from: nat, to: nat) {
    from <= to <= |s| && forall i | from <= i < to :: IsDigit(s[i])
  }

  predicate StampAt(s: Bytes) {
    && |s| >= STAMP
    && s[0] == 'E' && DigitsAt(s, 1, 5) && s[5] == ' '
    && DigitsAt(s, 6, 8) && s[8] == ':' && DigitsAt(s, 9, 11) && s[11] == ':' && DigitsAt(s, 12, 14) && s[14] == '.'
    && DigitsAt(s, 15, 21)
  }

  predicate LiteralAt(s: Bytes, at: nat, text: Bytes) {
    at + |text| <= |s| && forall k | 0 <= k < |text| :: s[at + k] == text[k]
  }

  /** Stamp, blanks, process id and message end exactly at `end`. */
  predicate HeaderAt(s: Bytes, end: nat, id: nat, message: nat, agent: bool) {
    && StampAt(s)
    && STAMP < id < message <= end <= |s|
    && (forall i | STAMP <= i < id :: IsBlank(s[i]))
    && DigitsAt(s, id, message)
    && MessageAt(s, message, end, agent)
  }

  /** The source of the report, the words of the agent executor or not, and the verdict. */
  predicate MessageAt(s: Bytes, message: nat, end: nat, agent: bool) {
    var verdict := message + |SOURCE| + if agent then |AGENT| else 0;
    && LiteralAt(s, message, SOURCE)
    && (agent ==> LiteralAt(s, message + |SOURCE|, AGENT))
    && LiteralAt(s, verdict, EXHAUSTED)
    && end == verdict + |EXHAUSTED|
  }

  ghost predicate Header(s: Bytes, end: nat) {
    exists id, message, agent :: HeaderAt(s, end, id, message, agent)
  }

  // ---- the parser

  function TakeLiteral(s: Bytes, cursor: nat, text: Bytes): (r: Option<nat>)
    ensures |text| == 1 ==> (r.Some? <==> cursor < |s| && s[cursor] == text[0])
  {
    if LiteralAt(s, cursor, text) then Some(cursor + |text|) else None
  }

  function TakeDigits(s: Bytes, cursor: nat, count: nat): Option<nat> {
    if DigitsAt(s, cursor, cursor + count) then Some(cursor + count) else None
  }

  /** Stamp first: eleven steps, each of which may fail. */
  method TakeStamp(s: Bytes) returns (r: Option<nat>)
    ensures r == if StampAt(s) then Some(STAMP) else None
  {
    r := TakeLiteral(s, 0, "E");
    if r.None? { return; }
    r := TakeDigits(s, r.value, 4);
    if r.None? { return; }
    r := TakeLiteral(s, r.value, " ");
    if r.None? { return; }
    r := TakeDigits(s, r.value, 2);
    if r.None? { return; }
    r := TakeLiteral(s, r.value, ":");
    if r.None? { return; }
    r := TakeDigits(s, r.value, 2);
    if r.None? { return; }
    r := TakeLiteral(s, r.value, ":");
    if r.None? { return; }
    r := TakeDigits(s, r.value, 2);
    if r.None? { return; }
    r := TakeLiteral(s, r.value, ".");
    if r.None? { return; }
    r := TakeDigits(s, r.value, 6);
  }

  /**
   `native_limit_end`: the parser accepts exactly the inputs that begin with a
   header, and returns where it ends; no input begins with two.
  */
  method NativeLimitEnd(s: Bytes) returns (r: Option<nat>)
    ensures r.Some? ==> Header(s, r.value)
    ensures forall end: nat :: Header(s, end) ==> r == Some(end)
  {
    var stamp := TakeStamp(s);
    if stamp.None? { return None; }
    var cursor := stamp.value;
    while cursor < |s| && IsBlank(s[cursor])
      invariant STAMP <= cursor <= |s|
      invariant forall i | STAMP <= i < cursor :: IsBlank(s[i])
    {
      cursor := cursor + 1;
    }
    var id := cursor;
    while cursor < |s| && IsDigit(s[cursor])
      invariant id <= cursor <= |s|
      invariant DigitsAt(s, id, cursor)
    {
      cursor := cursor + 1;
    }
    var message := cursor;
    forall end: nat, i: nat, m: nat, agent | HeaderAt(s, end, i, m, agent)
      ensures i == id && m == message && MessageAt(s, message, end, agent)
    {
      RunsAreMaximal(s, end, i, m, agent, id, message);
    }
    if id == STAMP || message == id { return None; }
    ghost var agent;
    r, agent := TakeMessage(s, message);
    if r.Some? { assert HeaderAt(s, r.value, id, message, agent); }
  }

  /** The blanks and the digits of a header end where its next part begins, whoever splits them. */
  lemma RunsAreMaximal(s: Bytes, end: nat, i: nat, m: nat, agent: bool, id: nat, message: nat)
    requires HeaderAt(s, end, i, m, agent)
    requires STAMP <= id <= message <= |s|
    requires forall k | STAMP <= k < id :: IsBlank(s[k])
    requires id < |s| ==> !IsBlank(s[id])
    requires DigitsAt(s, id, message) && (message < |s| ==> !IsDigit(s[message]))
    ensures i == id && m == message
  {
    assert IsDigit(s[i]);
    assert s[m + 0] == SOURCE[0] == ' ';
  }

  method TakeMessage(s: Bytes, message: nat) returns (r: Option<nat>, ghost agent: bool)
    ensures r.Some? ==> MessageAt(s, message, r.value, agent)
    ensures forall end: nat, spoken :: MessageAt(s, message, end, spoken) ==> r == Some(end)
  {
    r, agent := TakeLiteral(s, message, SOURCE), false;
    if r.None? { return; }
    var spoken := TakeLiteral(s, r.value, AGENT);
    agent := spoken.Some?;
    EitherWay(s, r.value);
    r := TakeLiteral(s, if spoken.Some? then spoken.value else r.value, EXHAUSTED);
  }

  /** The agent's words and the verdict begin differently, so at most one of them can follow. */
  lemma EitherWay(s: Bytes, at: nat)
    ensures !(LiteralAt(s, at, AGENT) && LiteralAt(s, at, EXHAUSTED))
  {
    assert AGENT[0] == 'a' && EXHAUSTED[0] == 'g';
    assert LiteralAt(s, at, AGENT) ==> s[at + 0] == AGENT[0];
    assert LiteralAt(s, at, EXHAUSTED) ==> s[at + 0] == EXHAUSTED[0];
  }

  /** No input begins with two headers. */
  lemma HeaderIsUnique(s: Bytes, a: nat, b: nat)
    requires Header(s, a) && Header(s, b)
    ensures a == b
  {
    var i: nat, m: nat, x :| HeaderAt(s, a, i, m, x);
    var j: nat, n: nat, y :| HeaderAt(s, b, j, n, y);
    SameRuns(s, a, i, m, x, b, j, n, y);
    SameMessage(s, m, a, x, b, y);
  }

  lemma SameMessage(s: Bytes, m: nat, a: nat, x: bool, b: nat, y: bool)
    requires MessageAt(s, m, a, x) && MessageAt(s, m, b, y)
    ensures a == b
  {
    EitherWay(s, m + |SOURCE|);
  }

  lemma SameRuns(s: Bytes, a: nat, i: nat, m: nat, x: bool, b: nat, j: nat, n: nat, y: bool)
    requires HeaderAt(s, a, i, m, x) && HeaderAt(s, b, j, n, y)
    ensures i == j && m == n
  {
    assert IsDigit(s[j]) && s[n + 0] == SOURCE[0] == ' ';
    RunsAreMaximal(s, a, i, m, x, j, n);
  }

  lemma HeaderExtends(p: Bytes, q: Bytes, end: nat)
    requires p <= q && Header(p, end)
    ensures Header(q, end)
  {
    var id, message, agent :| HeaderAt(p, end, id, message, agent);
    assert HeaderAt(q, end, id, message, agent);
  }
}
