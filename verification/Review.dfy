/** The content-review worker protocol: newline-framed packets over a byte stream. */
module Review {
  import opened Common

  datatype Reviewer = Reviewer(identity: string)

  datatype Assessment = Assessment(content: string)

  /** A JSON number after `float(..)`. An integer beyond the range of a float makes `float` raise
      `OverflowError`, which the reader does not catch. */
  datatype Number = Finite(value: real) | NotFinite | Overflowing

  datatype Kind = Invoked | Returned | Blocked | OtherKind

  /** A decoded line. A field is `None` when it is missing or when reading it raises an exception that
      the reader catches. */
  datatype Packet =
    | NotAnObject
    | Object(
        kind: Kind, reviewer: Option<Reviewer>, invokedAt: Option<Number>, completedAt: Option<Number>,
        startupCompletedAt: Option<Number>, code: Option<string>, assessment: Option<Assessment>)

  /** `json.dumps` and `json.loads` on packets. */
  datatype Codec = Codec(encode: Packet -> Bytes, decode: Bytes -> Packet)

  datatype Observation = Observation(
    reviewer: Option<Reviewer>, assessment: Option<Assessment>, code: Option<string>)

  /** What the reader remembers between packets. */
  datatype Session = Session(reviewer: Option<Reviewer>, invokedAt: real)

  /** The reader returns an observation, or lets `OverflowError` through. */
  datatype Outcome = Observed(observation: Observation) | Raised

  datatype Verdict = Continue(session: Session) | Stop(outcome: Outcome)

  /** How the stream ends: closed by the peer, a socket error, or the deadline. */
  datatype Ending = Closed | Broken | TimedOut

  const NEWLINE: Byte := 10
  const WIRE_LIMIT := 8_388_608 + 65_536
  const CHUNK_LIMIT := 65_536
  const REVIEW_TIMEOUT := 30.0
  const STARTUP_TIMEOUT := 30.0

  const FAILED := "content_review_adapter_failed"
  const OVERSIZED := "content_review_output_limit"
  const TIMEOUT := "content_review_timeout"
  const INVALID_ADAPTER := "invalid_content_review_adapter"
  const INVALID_REVIEW := "invalid_content_review"

  const START := Session(None, 0.0)

  function Fail(reviewer: Option<Reviewer>, code: string): Outcome {
    Observed(Observation(reviewer, None, Some(code)))
  }

  predicate Overflows(field: Option<Number>) {
    field == Some(Overflowing)
  }

  predicate Unusable(field: Option<Number>) {
    field.None? || field.value.NotFinite?
  }

  /** One packet in one session state: the branches of the reader's inner loop. */
  function Transition(session: Session, packet: Packet, launchedAt: real): Verdict {
    if packet.NotAnObject? then Stop(Fail(session.reviewer, FAILED))
    else if packet.kind.Invoked? && session.reviewer.None? then
      if packet.reviewer.None? then Stop(Fail(None, FAILED))
      else if Overflows(packet.invokedAt) then Stop(Raised)
      else if Unusable(packet.invokedAt) then Stop(Fail(packet.reviewer, FAILED))
      else if packet.invokedAt.value.value - launchedAt > STARTUP_TIMEOUT then Stop(Fail(packet.reviewer, TIMEOUT))
      else Continue(Session(packet.reviewer, packet.invokedAt.value.value))
    else if (packet.kind.Returned? || packet.kind.Blocked?) && session.reviewer.Some? then
      if Overflows(packet.completedAt) then Stop(Raised)
      else if Unusable(packet.completedAt) || packet.completedAt.value.value < session.invokedAt then
        Stop(Fail(session.reviewer, FAILED))
      else if packet.completedAt.value.value - session.invokedAt > REVIEW_TIMEOUT then
        Stop(Fail(session.reviewer, TIMEOUT))
      else if packet.kind.Blocked? then
        Stop(Fail(session.reviewer, if packet.code.Some? then packet.code.value else FAILED))
      else if packet.assessment.None? then Stop(Fail(session.reviewer, FAILED))
      else Stop(Observed(Observation(session.reviewer, packet.assessment, None)))
    else if packet.kind.Blocked? then
      if Overflows(packet.startupCompletedAt) then Stop(Raised)
      else if Unusable(packet.startupCompletedAt) then Stop(Fail(session.reviewer, FAILED))
      else if packet.startupCompletedAt.value.value - launchedAt > STARTUP_TIMEOUT then Stop(Fail(None, TIMEOUT))
      else Stop(Fail(session.reviewer, if packet.code.Some? then packet.code.value else FAILED))
    else Stop(Fail(session.reviewer, FAILED))
  }

  /** The outcome is an assessment. */
  predicate Assesses(outcome: Outcome) {
    outcome.Observed? && outcome.observation.assessment.Some?
  }

  /** A first `invoked` packet in time: the only packet that lets the reader go on. */
  predicate Starts(packet: Packet, launchedAt: real) {
    && packet.Object? && packet.kind.Invoked? && packet.reviewer.Some?
    && packet.invokedAt.Some? && packet.invokedAt.value.Finite?
    && packet.invokedAt.value.value - launchedAt <= STARTUP_TIMEOUT
  }

  function StartedBy(packet: Packet): Session
    requires packet.Object? && packet.invokedAt.Some? && packet.invokedAt.value.Finite?
  {
    Session(packet.reviewer, packet.invokedAt.value.value)
  }

  /** A `returned` packet in time with an assessment. */
  predicate Completes(session: Session, packet: Packet) {
    && session.reviewer.Some? && packet.Object? && packet.kind.Returned? && packet.assessment.Some?
    && packet.completedAt.Some? && packet.completedAt.value.Finite?
    && 0.0 <= packet.completedAt.value.value - session.invokedAt <= REVIEW_TIMEOUT
  }

  /** The time that this session reads from the packet is an integer that no float holds. */
  predicate TimeOverflows(session: Session, packet: Packet) {
    && packet.Object?
    && if session.reviewer.Some? then (packet.kind.Returned? || packet.kind.Blocked?) && Overflows(packet.completedAt)
       else if packet.kind.Invoked? then packet.reviewer.Some? && Overflows(packet.invokedAt)
       else packet.kind.Blocked? && Overflows(packet.startupCompletedAt)
  }

  /** What a packet does to the reader, by the three packets that matter: the one that lets it go on,
      the one that yields an assessment and the one that makes it raise. */
  lemma TransitionCases(session: Session, packet: Packet, launchedAt: real)
    ensures var verdict := Transition(session, packet, launchedAt);
      && (verdict.Continue? <==> session.reviewer.None? && Starts(packet, launchedAt))
      && (verdict.Continue? ==> verdict.session == StartedBy(packet))
      && (verdict.Stop? && Assesses(verdict.outcome) <==> Completes(session, packet))
      && (verdict.Stop? && Assesses(verdict.outcome) ==>
            verdict.outcome == Observed(Observation(session.reviewer, packet.assessment, None)))
      && (verdict == Stop(Raised) <==> TimeOverflows(session, packet))
  {
  }

  /** The time that this session reads from the packet has passed its limit. */
  predicate Late(session: Session, packet: Packet, launchedAt: real) {
    && packet.Object?
    && if session.reviewer.Some? then
         && (packet.kind.Returned? || packet.kind.Blocked?)
         && packet.completedAt.Some? && packet.completedAt.value.Finite?
         && packet.completedAt.value.value - session.invokedAt > REVIEW_TIMEOUT
       else if packet.kind.Invoked? then
         && packet.reviewer.Some? && packet.invokedAt.Some? && packet.invokedAt.value.Finite?
         && packet.invokedAt.value.value - launchedAt > STARTUP_TIMEOUT
       else
         && packet.kind.Blocked? && packet.startupCompletedAt.Some? && packet.startupCompletedAt.value.Finite?
         && packet.startupCompletedAt.value.value - launchedAt > STARTUP_TIMEOUT
  }

  /** A `blocked` packet in time. */
  predicate Blocks(session: Session, packet: Packet, launchedAt: real) {
    && packet.Object? && packet.kind.Blocked?
    && if session.reviewer.Some? then
         && packet.completedAt.Some? && packet.completedAt.value.Finite?
         && 0.0 <= packet.completedAt.value.value - session.invokedAt <= REVIEW_TIMEOUT
       else
         && packet.startupCompletedAt.Some? && packet.startupCompletedAt.value.Finite?
         && packet.startupCompletedAt.value.value - launchedAt <= STARTUP_TIMEOUT
  }

  /** The reviewer that an observation of this packet carries: the one recorded, or the one announced. */
  function Known(session: Session, packet: Packet): Option<Reviewer> {
    if session.reviewer.None? && packet.Object? && packet.kind.Invoked? then packet.reviewer else session.reviewer
  }

  /** The code of every packet that is reported without an assessment: a late one is a timeout, a blocker
      in time speaks for itself, and every other one is an adapter failure. */
  lemma StopCodes(session: Session, packet: Packet, launchedAt: real)
    ensures var verdict := Transition(session, packet, launchedAt);
      && (Late(session, packet, launchedAt) ==> verdict == Stop(Fail(Known(session, packet), TIMEOUT)))
      && (Blocks(session, packet, launchedAt) ==>
            verdict == Stop(Fail(session.reviewer, if packet.code.Some? then packet.code.value else FAILED)))
      && (|| Late(session, packet, launchedAt) || Blocks(session, packet, launchedAt) || Completes(session, packet)
          || TimeOverflows(session, packet) || (session.reviewer.None? && Starts(packet, launchedAt))
          || verdict == Stop(Fail(Known(session, packet), FAILED)))
  {
  }

  function TakeLine(codec: Codec, session: Session, line: Bytes, launchedAt: real): Verdict {
    if |line| + 1 > WIRE_LIMIT then Stop(Fail(session.reviewer, OVERSIZED))
    else Transition(session, codec.decode(line), launchedAt)
  }

  /** The length of the part before the first newline. */
  function LineLength(stream: Bytes): (n: nat)
    ensures n <= |stream| && NEWLINE !in stream[..n]
    ensures n < |stream| ==> stream[n] == NEWLINE
  {
    if stream == [] || stream[0] == NEWLINE then 0
    else
      var rest := LineLength(stream[1..]);
      assert stream[..1 + rest] == [stream[0]] + stream[1..][..rest];
      1 + rest
  }

  /** The whole stream at once: split at newlines and fold the packets over the session. The result
      is an outcome, or the session reached and the unfinished last line. */
  datatype Progress = Decided(outcome: Outcome) | Open(session: Session, tail: Bytes)

  function Consume(codec: Codec, session: Session, stream: Bytes, launchedAt: real): Progress
    decreases |stream|
  {
    var n := LineLength(stream);
    if n == |stream| then Open(session, stream)
    else
      match TakeLine(codec, session, stream[..n], launchedAt)
      case Stop(outcome) => Decided(outcome)
      case Continue(next) => Consume(codec, next, stream[n + 1..], launchedAt)
  }

  /** What an open stream is reported as when it ends. */
  function Interruption(ending: Ending): string {
    if ending.TimedOut? then TIMEOUT else FAILED
  }

  function Conclude(progress: Progress, ending: Ending): Outcome {
    match progress
    case Decided(outcome) => outcome
    case Open(session, tail) =>
      Fail(session.reviewer, if |tail| > WIRE_LIMIT then OVERSIZED else Interruption(ending))
  }

  /** The reference: what the reader must report about a stream, however it arrives. */
  function Reference(codec: Codec, session: Session, stream: Bytes, ending: Ending, launchedAt: real): Outcome {
    Conclude(Consume(codec, session, stream, launchedAt), ending)
  }

  function Flatten(chunks: seq<Bytes>): Bytes {
    if chunks == [] then [] else chunks[0] + Flatten(chunks[1..])
  }

  /** The first newline is where it is, whatever the search says. */
  lemma FirstNewline(stream: Bytes, n: nat)
    requires n < |stream| && stream[n] == NEWLINE && NEWLINE !in stream[..n]
    ensures LineLength(stream) == n
  {
    var k := LineLength(stream);
    assert (forall j | 0 <= j < n :: stream[..n][j] == stream[j]) && (forall j | 0 <= j < k :: stream[..k][j] == stream[j]);
  }

  /** Later bytes leave the first complete line where it is. */
  lemma LineOfAppend(a: Bytes, b: Bytes)
    requires LineLength(a) < |a|
    ensures var n := LineLength(a);
      LineLength(a + b) == n && (a + b)[..n] == a[..n] && (a + b)[n + 1..] == a[n + 1..] + b
  {
    var n := LineLength(a);
    assert (a + b)[..n] == a[..n];
    FirstNewline(a + b, n);
  }

  lemma ConsumeLine(codec: Codec, session: Session, stream: Bytes, line: Bytes, rest: Bytes, launchedAt: real)
    requires LineLength(stream) < |stream|
    requires line == stream[..LineLength(stream)] && rest == stream[LineLength(stream) + 1..]
    ensures var verdict := TakeLine(codec, session, line, launchedAt);
      Consume(codec, session, stream, launchedAt)
      == if verdict.Stop? then Decided(verdict.outcome) else Consume(codec, verdict.session, rest, launchedAt)
  {
  }

  /** Bytes that come later do not change what the earlier bytes decided, and otherwise continue from
      the session and the unfinished line that the earlier bytes left. */
  lemma {:induction false} ConsumeAppend(codec: Codec, session: Session, a: Bytes, b: Bytes, launchedAt: real)
    ensures var first := Consume(codec, session, a, launchedAt);
            Consume(codec, session, a + b, launchedAt)
            == if first.Decided? then first else Consume(codec, first.session, first.tail + b, launchedAt)
    decreases |a|
  {
    var n := LineLength(a);
    if n == |a| {
    } else {
      var line, after := a[..n], a[n + 1..];
      LineOfAppend(a, b);
      ConsumeLine(codec, session, a, line, after, launchedAt);
      ConsumeLine(codec, session, a + b, line, after + b, launchedAt);
      var verdict := TakeLine(codec, session, line, launchedAt);
      if verdict.Continue? {
        ConsumeAppend(codec, verdict.session, after, b, launchedAt);
      }
    }
  }

  /** What is left open has no newline, and is shorter than what followed the first newline. */
  lemma {:induction false} OpenTail(codec: Codec, session: Session, a: Bytes, launchedAt: real)
    requires Consume(codec, session, a, launchedAt).Open?
    ensures var tail := Consume(codec, session, a, launchedAt).tail;
            NEWLINE !in tail && (NEWLINE in a ==> |tail| < |a| - LineLength(a))
    decreases |a|
  {
    var n := LineLength(a);
    if n == |a| {
    } else {
      var next := TakeLine(codec, session, a[..n], launchedAt).session;
      OpenTail(codec, next, a[n + 1..], launchedAt);
    }
  }

  /** A newline-free beginning longer than the limit decides the outcome. */
  lemma OverlongStart(codec: Codec, session: Session, a: Bytes, b: Bytes, ending: Ending, launchedAt: real)
    requires NEWLINE !in a && |a| > WIRE_LIMIT
    ensures Reference(codec, session, a + b, ending, launchedAt) == Fail(session.reviewer, OVERSIZED)
  {
    var n := LineLength(a + b);
    assert forall j | 0 <= j < |a| :: (a + b)[j] == a[j];
  }

  /** The stream begins with this complete line, which is short enough to be parsed. */
  predicate Line(stream: Bytes, line: Bytes, after: Bytes) {
    NEWLINE !in line && |line| + 1 <= WIRE_LIMIT && stream == line + [NEWLINE] + after
  }

  /** A complete line is read in the session that meets it. */
  lemma ReadLine(codec: Codec, session: Session, stream: Bytes, line: Bytes, after: Bytes, ending: Ending, launchedAt: real)
    requires Line(stream, line, after)
    ensures var verdict := Transition(session, codec.decode(line), launchedAt);
      Reference(codec, session, stream, ending, launchedAt)
      == if verdict.Stop? then verdict.outcome else Reference(codec, verdict.session, after, ending, launchedAt)
  {
    assert stream[..|line|] == line && stream[|line| + 1..] == after;
    FirstNewline(stream, |line|);
  }

  /** No line of the stream decides: the reader is left with this unfinished line and this reviewer. */
  ghost predicate Unfinished(
    codec: Codec, stream: Bytes, tail: Bytes, reviewer: Option<Reviewer>, launchedAt: real)
  {
    && NEWLINE !in tail
    && (|| (tail == stream && reviewer.None?)
        || exists one :: Line(stream, one, tail) && Starts(codec.decode(one), launchedAt)
             && reviewer == codec.decode(one).reviewer)
  }

  /** What an unfinished stream is reported as: the limit when the unfinished line is too long, and else
      a timeout at the deadline and an adapter failure when the peer closes or the socket breaks. */
  lemma UnfinishedStream(
    codec: Codec, stream: Bytes, tail: Bytes, reviewer: Option<Reviewer>, ending: Ending, launchedAt: real)
    requires Unfinished(codec, stream, tail, reviewer, launchedAt)
    ensures Reference(codec, START, stream, ending, launchedAt)
      == Fail(reviewer, if |tail| > WIRE_LIMIT then OVERSIZED else if ending.TimedOut? then TIMEOUT else FAILED)
  {
    if one :| Line(stream, one, tail) && Starts(codec.decode(one), launchedAt)
                && reviewer == codec.decode(one).reviewer {
      ReadLine(codec, START, stream, one, tail, ending, launchedAt);
      TransitionCases(START, codec.decode(one), launchedAt);
    }
  }

  /** A complete line beyond the limit is reported as such, whatever it holds and whatever follows it. */
  lemma OverlongLine(
    codec: Codec, session: Session, line: Bytes, after: Bytes, ending: Ending, launchedAt: real)
    requires NEWLINE !in line && |line| + 1 > WIRE_LIMIT
    ensures Reference(codec, session, line + [NEWLINE] + after, ending, launchedAt) == Fail(session.reviewer, OVERSIZED)
  {
    var stream := line + [NEWLINE] + after;
    assert stream[..|line|] == line && stream[|line| + 1..] == after;
    FirstNewline(stream, |line|);
  }

  lemma BufferStaysSmall(codec: Codec, session: Session, kept: Bytes, chunk: Bytes, launchedAt: real)
    requires NEWLINE !in kept && |chunk| <= CHUNK_LIMIT
    requires NEWLINE in kept + chunk || |kept + chunk| <= WIRE_LIMIT
    ensures var progress := Consume(codec, session, kept + chunk, launchedAt);
            progress.Open? ==> NEWLINE !in progress.tail && |progress.tail| <= WIRE_LIMIT
  {
    var buffer := kept + chunk;
    assert forall j | 0 <= j < |kept| :: buffer[j] == kept[j];
    if Consume(codec, session, buffer, launchedAt).Open? { OpenTail(codec, session, buffer, launchedAt); }
  }

  /** The inner loop of `_read_worker`: take complete lines off the buffer until one decides. */
  method Drain(codec: Codec, start: Session, buffer: Bytes, launchedAt: real) returns (progress: Progress)
    ensures progress == Consume(codec, start, buffer, launchedAt)
  {
    var pending, session := buffer, start;
    while NEWLINE in pending
      invariant Consume(codec, session, pending, launchedAt) == Consume(codec, start, buffer, launchedAt)
      decreases |pending|
    {
      var n := LineLength(pending);
      var line := pending[..n];
      pending := pending[n + 1..];
      match TakeLine(codec, session, line, launchedAt) {
        case Stop(outcome) =>
          return Decided(outcome);
        case Continue(next) =>
          session := next;
      }
    }
    progress := Open(session, pending);
  }

  /** One chunk more: the reader reports the overlong line, or what the buffer decides, or goes on with
      a short unfinished line. */
  lemma ReadChunk(
    codec: Codec, session: Session, pending: Bytes, chunks: seq<Bytes>, i: nat, ending: Ending, launchedAt: real)
    requires i < |chunks| && NEWLINE !in pending && |chunks[i]| <= CHUNK_LIMIT
    ensures var buffer := pending + chunks[i];
      var progress := Consume(codec, session, buffer, launchedAt);
      var overlong := |buffer| > WIRE_LIMIT && NEWLINE !in buffer;
      && Reference(codec, session, pending + Flatten(chunks[i..]), ending, launchedAt)
         == (if overlong then Fail(session.reviewer, OVERSIZED)
             else if progress.Decided? then progress.outcome
             else Reference(codec, progress.session, progress.tail + Flatten(chunks[i + 1..]), ending, launchedAt))
      && (!overlong && progress.Open? ==> NEWLINE !in progress.tail && |progress.tail| <= WIRE_LIMIT)
  {
    var buffer, rest := pending + chunks[i], Flatten(chunks[i + 1..]);
    assert pending + (chunks[i] + rest) == buffer + rest;
    if |buffer| > WIRE_LIMIT && NEWLINE !in buffer {
      OverlongStart(codec, session, buffer, rest, ending, launchedAt);
    } else {
      ConsumeAppend(codec, session, buffer, rest, launchedAt);
      BufferStaysSmall(codec, session, pending, chunks[i], launchedAt);
    }
  }

  /** `_read_worker`: receive, buffer and decide, for every way of cutting the stream into chunks.
      Between reads the buffer is an unfinished line within the wire limit. */
  method ReadWorker(codec: Codec, chunks: seq<Bytes>, ending: Ending, launchedAt: real)
    returns (outcome: Outcome)
    requires forall c | c in chunks :: 0 < |c| <= CHUNK_LIMIT
    ensures outcome == Reference(codec, START, Flatten(chunks), ending, launchedAt)
    ensures forall tail, reviewer | Unfinished(codec, Flatten(chunks), tail, reviewer, launchedAt) ::
      outcome == Fail(reviewer,
        if |tail| > WIRE_LIMIT then OVERSIZED else if ending.TimedOut? then TIMEOUT else FAILED)
  {
    forall tail, reviewer | Unfinished(codec, Flatten(chunks), tail, reviewer, launchedAt)
      ensures Reference(codec, START, Flatten(chunks), ending, launchedAt) == Fail(reviewer,
        if |tail| > WIRE_LIMIT then OVERSIZED else if ending.TimedOut? then TIMEOUT else FAILED)
    {
      UnfinishedStream(codec, Flatten(chunks), tail, reviewer, ending, launchedAt);
    }
    var pending: Bytes, session := [], START;
    assert chunks[0..] == chunks && [] + Flatten(chunks) == Flatten(chunks);
    for i := 0 to |chunks|
      invariant Reference(codec, START, Flatten(chunks), ending, launchedAt)
             == Reference(codec, session, pending + Flatten(chunks[i..]), ending, launchedAt)
      invariant NEWLINE !in pending && |pending| <= WIRE_LIMIT
    {
      ReadChunk(codec, session, pending, chunks, i, ending, launchedAt);
      var buffer := pending + chunks[i];
      if |buffer| > WIRE_LIMIT && NEWLINE !in buffer {
        return Fail(session.reviewer, OVERSIZED);
      }
      var progress := Drain(codec, session, buffer, launchedAt);
      match progress {
        case Decided(decided) =>
          return decided;
        case Open(next, tail) =>
          session, pending := next, tail;
      }
    }
    assert chunks[|chunks|..] == [] && pending + [] == pending;
    outcome := Conclude(Open(session, pending), ending);
  }

  /** What the caller's adapter does. `reviewer` is absent when its metadata is invalid; a returned
      value is absent when it is not a valid assessment. */
  datatype Adapter = Adapter(reviewer: Option<Reviewer>, call: Call)
  datatype Call = RaisesAtCall | RaisesWhileAwaited | Returns(assessment: Option<Assessment>)

  /** Readings of the worker's monotonic clock. */
  datatype Clock = Clock(startup: real, invoked: real, completed: real)

  function InvokedPacket(reviewer: Reviewer, at: real): Packet {
    Object(Invoked, Some(reviewer), Some(Finite(at)), None, None, None, None)
  }

  function StartupBlocked(code: string, at: real): Packet {
    Object(Blocked, None, None, None, Some(Finite(at)), Some(code), None)
  }

  function CompletionBlocked(code: string, at: real): Packet {
    Object(Blocked, None, None, Some(Finite(at)), None, Some(code), None)
  }

  function ReturnedPacket(assessment: Assessment, at: real): Packet {
    Object(Returned, None, None, Some(Finite(at)), None, None, Some(assessment))
  }

  predicate Fits(codec: Codec, packet: Packet) {
    |codec.encode(packet)| + 1 <= WIRE_LIMIT
  }

  /** The packet that goes out: an oversized one is replaced by a blocker that keeps its time. */
  function Outgoing(codec: Codec, packet: Packet): Packet
    requires packet.Object?
  {
    if Fits(codec, packet) then packet
    else Object(Blocked, None, None, packet.completedAt, None, Some(OVERSIZED), None)
  }

  function Frame(codec: Codec, packet: Packet): Bytes {
    codec.encode(packet) + [NEWLINE]
  }

  /** The worker's end of the socket. */
  class Channel {
    var sent: Bytes

    constructor ()
      ensures sent == []
    {
      sent := [];
    }

    /** `_send_packet`. */
    method SendPacket(codec: Codec, packet: Packet)
      requires packet.Object?
      modifies this
      ensures sent == old(sent) + Frame(codec, Outgoing(codec, packet))
    {
      var payload := codec.encode(packet) + [NEWLINE];
      if |payload| > WIRE_LIMIT {
        var replacement := Object(Blocked, None, None, packet.completedAt, None, Some(OVERSIZED), None);
        payload := codec.encode(replacement) + [NEWLINE];
      }
      sent := sent + payload;
    }
  }

  /** The worker's own account of a run: was the adapter invoked, and with which result. */
  datatype Account = Account(invoked: bool, assessment: Option<Assessment>, code: Option<string>)

  function AccountOf(codec: Codec, adapter: Adapter, clock: Clock): Account {
    if adapter.reviewer.None? then Account(false, None, Some(INVALID_ADAPTER))
    else if !Fits(codec, InvokedPacket(adapter.reviewer.value, clock.invoked)) then
      Account(false, None, Some(OVERSIZED))
    else
      match adapter.call
      case RaisesAtCall => Account(false, None, Some(FAILED))
      case RaisesWhileAwaited => Account(true, None, Some(FAILED))
      case Returns(None) => Account(true, None, Some(INVALID_REVIEW))
      case Returns(Some(a)) =>
        if Fits(codec, ReturnedPacket(a, clock.completed)) then Account(true, Some(a), None)
        else Account(true, None, Some(OVERSIZED))
  }

  /** `_worker_review` with `_invoke`: the packets of one run that are handed over for sending. */
  function Attempts(codec: Codec, adapter: Adapter, clock: Clock): (packets: seq<Packet>)
    ensures 1 <= |packets| <= 2 && packets[0].Object? && packets[|packets| - 1].Object?
  {
    if adapter.reviewer.None? then [StartupBlocked(INVALID_ADAPTER, clock.startup)]
    else
      var invoked := InvokedPacket(adapter.reviewer.value, clock.invoked);
      if !Fits(codec, invoked) then [StartupBlocked(OVERSIZED, clock.startup)]
      else
        match adapter.call
        case RaisesAtCall => [CompletionBlocked(FAILED, clock.completed)]
        case RaisesWhileAwaited => [invoked, CompletionBlocked(FAILED, clock.completed)]
        case Returns(None) => [invoked, CompletionBlocked(INVALID_REVIEW, clock.completed)]
        case Returns(Some(a)) => [invoked, ReturnedPacket(a, clock.completed)]
  }

  /** The packets of one run that go out, in order. */
  function Script(codec: Codec, adapter: Adapter, clock: Clock): (packets: seq<Packet>)
    ensures |packets| == |Attempts(codec, adapter, clock)|
  {
    var attempts := Attempts(codec, adapter, clock);
    if |attempts| == 1 then [Outgoing(codec, attempts[0])]
    else [Outgoing(codec, attempts[0]), Outgoing(codec, attempts[1])]
  }

  function Frames(codec: Codec, packets: seq<Packet>): Bytes {
    if packets == [] then [] else Frame(codec, packets[0]) + Frames(codec, packets[1..])
  }

  lemma FramesOne(codec: Codec, a: Packet)
    ensures Frames(codec, [a]) == Frame(codec, a) + []
  {
    assert [a][1..] == [];
  }

  lemma FramesTwo(codec: Codec, a: Packet, b: Packet)
    ensures Frames(codec, [a, b]) == Frame(codec, a) + (Frame(codec, b) + [])
  {
    assert [a, b][1..] == [b];
    FramesOne(codec, b);
  }

  method WorkerReview(codec: Codec, channel: Channel, adapter: Adapter, clock: Clock)
    requires channel.sent == []
    modifies channel
    ensures channel.sent == Frames(codec, Script(codec, adapter, clock))
  {
    if adapter.reviewer.None? {
      channel.SendPacket(codec, StartupBlocked(INVALID_ADAPTER, clock.startup));
      FramesOne(codec, Outgoing(codec, StartupBlocked(INVALID_ADAPTER, clock.startup)));
      return;
    }
    var invoked := InvokedPacket(adapter.reviewer.value, clock.invoked);
    if |codec.encode(invoked)| + 1 > WIRE_LIMIT {
      channel.SendPacket(codec, StartupBlocked(OVERSIZED, clock.startup));
      FramesOne(codec, Outgoing(codec, StartupBlocked(OVERSIZED, clock.startup)));
      return;
    }
    if adapter.call.RaisesAtCall? {
      channel.SendPacket(codec, CompletionBlocked(FAILED, clock.completed));
      FramesOne(codec, Outgoing(codec, CompletionBlocked(FAILED, clock.completed)));
      return;
    }
    channel.SendPacket(codec, invoked);
    var last;
    match adapter.call {
      case RaisesWhileAwaited =>
        last := CompletionBlocked(FAILED, clock.completed);
      case Returns(value) =>
        last := if value.None? then CompletionBlocked(INVALID_REVIEW, clock.completed)
                else ReturnedPacket(value.value, clock.completed);
    }
    channel.SendPacket(codec, last);
    FramesTwo(codec, invoked, Outgoing(codec, last));
  }

  /** The codec brings this packet back, on one line within the limit. */
  ghost predicate Carries(codec: Codec, packet: Packet) {
    packet.Object? && codec.decode(codec.encode(packet)) == packet && NEWLINE !in codec.encode(packet) && Fits(codec, packet)
  }

  /** What one run asks of the codec: its own packets are carried, and its blockers are short. */
  ghost predicate Serves(codec: Codec, adapter: Adapter, clock: Clock) {
    forall p | p in Attempts(codec, adapter, clock) ::
      p.Object? && Carries(codec, Outgoing(codec, p)) && (p.kind.Blocked? ==> Fits(codec, p))
  }

  function IndexOf(packets: seq<Packet>, packet: Packet): (i: nat)
    requires packet in packets
    ensures i < |packets| && packets[i] == packet
  {
    if packets[0] == packet then 0 else 1 + IndexOf(packets[1..], packet)
  }

  /** A codec that writes each listed packet as the one byte that tells its place. */
  function Table(packets: seq<Packet>): Codec
    requires |packets| <= 100
  {
    Codec(
      (p: Packet) => if p in packets then [(100 + IndexOf(packets, p)) as Byte] else [],
      (line: Bytes) =>
        if |line| == 1 && 100 <= line[0] as int < 100 + |packets| then packets[line[0] as int - 100] else NotAnObject)
  }

  lemma TableCarries(packets: seq<Packet>, packet: Packet)
    requires |packets| <= 100 && packet in packets && packet.Object?
    ensures Carries(Table(packets), packet) && Outgoing(Table(packets), packet) == packet
  {
    assert Table(packets).encode(packet) == [(100 + IndexOf(packets, packet)) as Byte];
  }

  /** Every run has a codec that serves it. */
  lemma SomeCodecServes(adapter: Adapter, clock: Clock) returns (codec: Codec)
    ensures Serves(codec, adapter, clock)
  {
    var reviewer := if adapter.reviewer.Some? then adapter.reviewer.value else Reviewer("");
    var assessment :=
      if adapter.call.Returns? && adapter.call.assessment.Some? then adapter.call.assessment.value else Assessment("");
    var packets := [
      StartupBlocked(INVALID_ADAPTER, clock.startup), StartupBlocked(OVERSIZED, clock.startup),
      CompletionBlocked(FAILED, clock.completed), CompletionBlocked(INVALID_REVIEW, clock.completed),
      InvokedPacket(reviewer, clock.invoked), ReturnedPacket(assessment, clock.completed)];
    codec := Table(packets);
    forall p | p in Attempts(codec, adapter, clock)
      ensures p.Object? && Carries(codec, Outgoing(codec, p)) && (p.kind.Blocked? ==> Fits(codec, p))
    {
      TableCarries(packets, p);
    }
  }

  /** Reading one complete frame that the codec carries. */
  lemma ConsumeFrame(codec: Codec, session: Session, packet: Packet, rest: Bytes, launchedAt: real)
    requires Carries(codec, packet)
    ensures var verdict := Transition(session, packet, launchedAt);
            Consume(codec, session, Frame(codec, packet) + rest, launchedAt)
            == if verdict.Stop? then Decided(verdict.outcome)
               else Consume(codec, verdict.session, rest, launchedAt)
  {
    var line := codec.encode(packet);
    var stream := Frame(codec, packet) + rest;
    assert stream[..|line|] == line && stream[|line|] == NEWLINE && stream[|line| + 1..] == rest;
    FirstNewline(stream, |line|);
  }

  /** The numeric bounds of the protocol, in the worker's own readings. */
  predicate WithinBounds(account: Account, clock: Clock, launchedAt: real) {
    if account.invoked then
      clock.invoked - launchedAt <= STARTUP_TIMEOUT && clock.completed - clock.invoked <= REVIEW_TIMEOUT
    else
      account.code == Some(FAILED) || clock.startup - launchedAt <= STARTUP_TIMEOUT
  }

  /** What the reader makes of the worker's account of a run. */
  predicate Agrees(account: Account, adapter: Adapter, clock: Clock, launchedAt: real, observed: Observation) {
    && observed.reviewer == (if account.invoked then adapter.reviewer else None)
    && (if WithinBounds(account, clock, launchedAt)
        then observed.assessment == account.assessment && observed.code == account.code
        else observed.assessment == None && observed.code == Some(TIMEOUT))
  }

  /** The worker's `invoked` frame is among the bytes received. */
  predicate InvokedArrived(codec: Codec, adapter: Adapter, clock: Clock, received: Bytes) {
    && AccountOf(codec, adapter, clock).invoked && adapter.reviewer.Some?
    && Frame(codec, InvokedPacket(adapter.reviewer.value, clock.invoked)) <= received
  }

  /** What the reader must make of the first `received` bytes of a run: the worker's account when that
      is all of it, and otherwise a timeout at the deadline or after a late start, and an adapter failure
      at any other end, with the reviewer of a whole `invoked` frame. */
  predicate Reads(
    codec: Codec, adapter: Adapter, clock: Clock, received: Bytes, ending: Ending, launchedAt: real, outcome: Outcome)
  {
    var arrived := InvokedArrived(codec, adapter, clock, received);
    && outcome.Observed?
    && outcome.observation.reviewer == (if arrived then adapter.reviewer else None)
    && if received == Frames(codec, Script(codec, adapter, clock)) then
         Agrees(AccountOf(codec, adapter, clock), adapter, clock, launchedAt, outcome.observation)
       else
         && outcome.observation.assessment == None
         && outcome.observation.code
            == Some(if ending.TimedOut? || (arrived && clock.invoked - launchedAt > STARTUP_TIMEOUT) then TIMEOUT
                    else FAILED)
  }

  /** A run of one packet never invoked the adapter to a result. */
  lemma OnePacketRun(
    codec: Codec, adapter: Adapter, clock: Clock, received: Bytes, ending: Ending, launchedAt: real)
    requires Serves(codec, adapter, clock) && |Script(codec, adapter, clock)| == 1
    requires received <= Frames(codec, Script(codec, adapter, clock))
    ensures Reads(codec, adapter, clock, received, ending, launchedAt,
      Reference(codec, START, received, ending, launchedAt))
  {
    var packet := Attempts(codec, adapter, clock)[0];
    assert packet in Attempts(codec, adapter, clock) && Outgoing(codec, packet) == packet;
    FramesOne(codec, packet);
    assert Frame(codec, packet) + [] == Frame(codec, packet);
    ReadRest(codec, START, packet, received, ending, launchedAt);
  }

  /** The two packets of an invoked run. */
  lemma InvokedRun(codec: Codec, adapter: Adapter, clock: Clock) returns (invoked: Packet, last: Packet)
    requires Serves(codec, adapter, clock) && |Script(codec, adapter, clock)| == 2
    ensures adapter.reviewer.Some? && invoked == InvokedPacket(adapter.reviewer.value, clock.invoked)
    ensures AccountOf(codec, adapter, clock).invoked
    ensures Carries(codec, invoked) && Carries(codec, last)
    ensures Frames(codec, Script(codec, adapter, clock)) == Frame(codec, invoked) + Frame(codec, last)
    ensures last.completedAt == Some(Finite(clock.completed))
    ensures var account := AccountOf(codec, adapter, clock);
      || (last.kind.Blocked? && last.code.Some? && account.assessment.None? && account.code == last.code)
      || (last.kind.Returned? && last.assessment.Some? && account.assessment == last.assessment && account.code.None?)
  {
    var attempts := Attempts(codec, adapter, clock);
    assert attempts[0] in attempts && attempts[1] in attempts;
    invoked, last := attempts[0], Outgoing(codec, attempts[1]);
    FramesTwo(codec, invoked, last);
    assert Frame(codec, last) + [] == Frame(codec, last);
  }

  /** Two frames, cut anywhere: inside the first, inside the second, or after both. */
  lemma ReadFrames(codec: Codec, first: Packet, second: Packet, received: Bytes, ending: Ending, launchedAt: real)
    requires Carries(codec, first) && Carries(codec, second)
    requires received <= Frame(codec, first) + Frame(codec, second)
    requires Transition(START, first, launchedAt).Continue? ==>
      Transition(Transition(START, first, launchedAt).session, second, launchedAt).Stop?
    ensures var verdict := Transition(START, first, launchedAt);
      Reference(codec, START, received, ending, launchedAt)
      == if |received| < |Frame(codec, first)| then Fail(None, if ending.TimedOut? then TIMEOUT else FAILED)
         else if verdict.Stop? then verdict.outcome
         else if received == Frame(codec, first) + Frame(codec, second) then
           Transition(verdict.session, second, launchedAt).outcome
         else Fail(verdict.session.reviewer, if ending.TimedOut? then TIMEOUT else FAILED)
  {
    var head := Frame(codec, first);
    if |received| < |head| {
    } else {
      var tail := received[|head|..];
      assert received == head + tail && tail <= Frame(codec, second);
      ConsumeFrame(codec, START, first, tail, launchedAt);
      var verdict := Transition(START, first, launchedAt);
      if verdict.Continue? { ReadRest(codec, verdict.session, second, tail, ending, launchedAt); }
    }
  }

  /** One frame read in any session, cut anywhere. */
  lemma ReadRest(codec: Codec, session: Session, packet: Packet, received: Bytes, ending: Ending, launchedAt: real)
    requires Carries(codec, packet) && received <= Frame(codec, packet)
    requires Transition(session, packet, launchedAt).Stop?
    ensures Reference(codec, session, received, ending, launchedAt)
      == if received == Frame(codec, packet) then Transition(session, packet, launchedAt).outcome
         else Fail(session.reviewer, if ending.TimedOut? then TIMEOUT else FAILED)
  {
    if received == Frame(codec, packet) {
      assert received == Frame(codec, packet) + [];
      ConsumeFrame(codec, session, packet, [], launchedAt);
    }
  }

  /** A run of two packets: the adapter was invoked. */
  lemma TwoPacketRun(
    codec: Codec, adapter: Adapter, clock: Clock, received: Bytes, ending: Ending, launchedAt: real)
    requires Serves(codec, adapter, clock) && |Script(codec, adapter, clock)| == 2 && clock.invoked <= clock.completed
    requires received <= Frames(codec, Script(codec, adapter, clock))
    ensures Reads(codec, adapter, clock, received, ending, launchedAt,
      Reference(codec, START, received, ending, launchedAt))
  {
    var invoked, last := InvokedRun(codec, adapter, clock);
    var account := AccountOf(codec, adapter, clock);
    if clock.invoked - launchedAt <= STARTUP_TIMEOUT {
    }
    ReadFrames(codec, invoked, last, received, ending, launchedAt);
  }

  /** Worker and reader compose. For every adapter, clock, chunking, amount of the stream received and
      ending, the reader reports the worker's own account when all of it arrived within the time bounds,
      a timeout when it arrived outside them, and how the stream ended when it did not all arrive; a
      reviewer is recorded exactly when the `invoked` frame arrived whole. */
  lemma WorkerReaderAgree(
    codec: Codec, adapter: Adapter, clock: Clock, chunks: seq<Bytes>, ending: Ending, launchedAt: real)
    requires Serves(codec, adapter, clock) && clock.invoked <= clock.completed
    requires Flatten(chunks) <= Frames(codec, Script(codec, adapter, clock))
    ensures Reads(codec, adapter, clock, Flatten(chunks), ending, launchedAt,
      Reference(codec, START, Flatten(chunks), ending, launchedAt))
  {
    if |Script(codec, adapter, clock)| == 1 {
      OnePacketRun(codec, adapter, clock, Flatten(chunks), ending, launchedAt);
    } else {
      TwoPacketRun(codec, adapter, clock, Flatten(chunks), ending, launchedAt);
    }
  }

  /** The report of every whole run in time, by what the adapter did. */
  predicate ReportsRun(codec: Codec, adapter: Adapter, clock: Clock, outcome: Outcome) {
    && (adapter.reviewer.None? ==> outcome == Fail(None, INVALID_ADAPTER))
    && (adapter.reviewer.Some? ==>
          if |codec.encode(InvokedPacket(adapter.reviewer.value, clock.invoked))| + 1 > WIRE_LIMIT then
            outcome == Fail(None, OVERSIZED)
          else if adapter.call.RaisesAtCall? then outcome == Fail(None, FAILED)
          else if adapter.call.RaisesWhileAwaited? then outcome == Fail(adapter.reviewer, FAILED)
          else if adapter.call.assessment.None? then outcome == Fail(adapter.reviewer, INVALID_REVIEW)
          else if |codec.encode(ReturnedPacket(adapter.call.assessment.value, clock.completed))| + 1 > WIRE_LIMIT then
            outcome == Fail(adapter.reviewer, OVERSIZED)
          else outcome == Observed(Observation(adapter.reviewer, adapter.call.assessment, None)))
  }

  /** A whole run in time is reported as what the adapter did. */
  lemma WholeRun(codec: Codec, adapter: Adapter, clock: Clock, ending: Ending, launchedAt: real)
    requires Serves(codec, adapter, clock)
    requires clock.startup - launchedAt <= STARTUP_TIMEOUT && clock.invoked - launchedAt <= STARTUP_TIMEOUT
    requires 0.0 <= clock.completed - clock.invoked <= REVIEW_TIMEOUT
    ensures ReportsRun(codec, adapter, clock,
      Reference(codec, START, Frames(codec, Script(codec, adapter, clock)), ending, launchedAt))
  {
    var stream := Frames(codec, Script(codec, adapter, clock));
    assert Flatten([stream]) == stream + Flatten([stream][1..]) == stream;
    WorkerReaderAgree(codec, adapter, clock, [stream], ending, launchedAt);
  }

  /** Once a reviewer is recorded, every observation carries it. */
  lemma ReviewerPersists(codec: Codec, session: Session, stream: Bytes, ending: Ending, launchedAt: real)
    requires session.reviewer.Some?
    ensures var outcome := Reference(codec, session, stream, ending, launchedAt);
      outcome.Observed? ==> outcome.observation.reviewer == session.reviewer
  {
  }

  /** A stream of any origin cut short anywhere is reported as the whole stream is, or as a timeout at
      the deadline and an adapter failure at any other end, without an assessment and with no reviewer but the whole stream's. */
  lemma TruncationIsSafe(codec: Codec, stream: Bytes, cut: nat, ending: Ending, launchedAt: real)
    requires cut <= |stream|
    ensures var partial := Reference(codec, START, stream[..cut], ending, launchedAt);
            var whole := Reference(codec, START, stream, ending, launchedAt);
            || partial == whole
            || (&& partial.Observed? && partial.observation.assessment == None
                && partial.observation.code == Some(if ending.TimedOut? then TIMEOUT else FAILED)
                && (partial.observation.reviewer.Some? && whole.Observed? ==>
                      whole.observation.reviewer == partial.observation.reviewer))
  {
    assert stream == stream[..cut] + stream[cut..];
    ConsumeAppend(codec, START, stream[..cut], stream[cut..], launchedAt);
    var progress := Consume(codec, START, stream[..cut], launchedAt);
    if progress.Open? {
      OpenTail(codec, START, stream[..cut], launchedAt);
      if |progress.tail| > WIRE_LIMIT {
        OverlongStart(codec, progress.session, progress.tail, stream[cut..], ending, launchedAt);
      } else if progress.session.reviewer.Some? {
        ReviewerPersists(codec, progress.session, progress.tail + stream[cut..], ending, launchedAt);
      }
    }
  }

  /** A stream that is decided by more than its ending begins with a complete line. */
  lemma FirstLine(codec: Codec, session: Session, stream: Bytes, ending: Ending, launchedAt: real)
      returns (line: Bytes, after: Bytes)
    requires var outcome := Reference(codec, session, stream, ending, launchedAt); Assesses(outcome) || outcome.Raised?
    ensures Line(stream, line, after)
  {
    var n := LineLength(stream);
    line, after := stream[..n], stream[n + 1..];
  }

  /** The second complete line of a stream, read in the session that the first one starts. */
  ghost predicate Second(
    codec: Codec, one: Bytes, middle: Bytes, two: Bytes, launchedAt: real, test: (Session, Packet) -> bool)
  {
    && Starts(codec.decode(one), launchedAt)
    && (exists rest :: Line(middle, two, rest))
    && test(StartedBy(codec.decode(one)), codec.decode(two))
  }

  /** The stream begins with an `invoked` packet in time and a `returned` packet in time after it. */
  ghost predicate Reviewed(codec: Codec, stream: Bytes, one: Bytes, two: Bytes, launchedAt: real) {
    exists middle :: Line(stream, one, middle) && Second(codec, one, middle, two, launchedAt, Completes)
  }

  /** An assessment is reported exactly for a stream that begins so, and it is the one returned. */
  lemma AssessmentProvenance(codec: Codec, stream: Bytes, ending: Ending, launchedAt: real)
    ensures var outcome := Reference(codec, START, stream, ending, launchedAt);
      && (Assesses(outcome) <==> exists one, two :: Reviewed(codec, stream, one, two, launchedAt))
      && (forall one, two | Reviewed(codec, stream, one, two, launchedAt) ::
            outcome == Observed(Observation(codec.decode(one).reviewer, codec.decode(two).assessment, None)))
  {
    var outcome := Reference(codec, START, stream, ending, launchedAt);
    if Assesses(outcome) {
      var one, middle := FirstLine(codec, START, stream, ending, launchedAt);
      ReadLine(codec, START, stream, one, middle, ending, launchedAt);
      TransitionCases(START, codec.decode(one), launchedAt);
      var session := StartedBy(codec.decode(one));
      var two, rest := FirstLine(codec, session, middle, ending, launchedAt);
      ReadLine(codec, session, middle, two, rest, ending, launchedAt);
      TransitionCases(session, codec.decode(two), launchedAt);
      assert Reviewed(codec, stream, one, two, launchedAt);
    }
    forall one, two | Reviewed(codec, stream, one, two, launchedAt)
      ensures outcome == Observed(Observation(codec.decode(one).reviewer, codec.decode(two).assessment, None))
    {
      var middle :| Line(stream, one, middle) && Second(codec, one, middle, two, launchedAt, Completes);
      ReadSecond(codec, stream, one, middle, two, ending, launchedAt, Completes);
      TransitionCases(StartedBy(codec.decode(one)), codec.decode(two), launchedAt);
    }
  }

  /** A second line that stops the reader is its outcome. */
  lemma ReadSecond(
    codec: Codec, stream: Bytes, one: Bytes, middle: Bytes, two: Bytes, ending: Ending, launchedAt: real,
    test: (Session, Packet) -> bool)
    requires Line(stream, one, middle) && Second(codec, one, middle, two, launchedAt, test)
    ensures var verdict := Transition(StartedBy(codec.decode(one)), codec.decode(two), launchedAt);
      verdict.Stop? && Reference(codec, START, stream, ending, launchedAt) == verdict.outcome
  {
    ReadLine(codec, START, stream, one, middle, ending, launchedAt);
    TransitionCases(START, codec.decode(one), launchedAt);
    var session := StartedBy(codec.decode(one));
    var rest :| Line(middle, two, rest);
    ReadLine(codec, session, middle, two, rest, ending, launchedAt);
    TransitionCases(session, codec.decode(two), launchedAt);
  }

  /** An overflowing time is read from the first complete line, or from the second. */
  ghost predicate MeetsOverflow(codec: Codec, stream: Bytes, launchedAt: real) {
    exists one, middle :: Line(stream, one, middle)
      && (|| TimeOverflows(START, codec.decode(one))
          || exists two :: Second(codec, one, middle, two, launchedAt, TimeOverflows))
  }

  /** The reader raises exactly for the streams whose first complete line has an overflowing time where
      a new session reads one, or whose first line starts a session and whose second complete line has
      one where that session reads one. */
  lemma RaisesExactly(codec: Codec, stream: Bytes, ending: Ending, launchedAt: real)
    ensures Reference(codec, START, stream, ending, launchedAt).Raised? <==> MeetsOverflow(codec, stream, launchedAt)
  {
    if Reference(codec, START, stream, ending, launchedAt).Raised? {
      var one, middle := FirstLine(codec, START, stream, ending, launchedAt);
      ReadLine(codec, START, stream, one, middle, ending, launchedAt);
      TransitionCases(START, codec.decode(one), launchedAt);
      if !TimeOverflows(START, codec.decode(one)) {
        var session := StartedBy(codec.decode(one));
        var two, rest := FirstLine(codec, session, middle, ending, launchedAt);
        ReadLine(codec, session, middle, two, rest, ending, launchedAt);
        TransitionCases(session, codec.decode(two), launchedAt);
        assert Second(codec, one, middle, two, launchedAt, TimeOverflows);
      }
    }
    if MeetsOverflow(codec, stream, launchedAt) {
      var one, middle :| Line(stream, one, middle)
        && (|| TimeOverflows(START, codec.decode(one))
            || exists two :: Second(codec, one, middle, two, launchedAt, TimeOverflows));
      ReadLine(codec, START, stream, one, middle, ending, launchedAt);
      TransitionCases(START, codec.decode(one), launchedAt);
      if two :| Second(codec, one, middle, two, launchedAt, TimeOverflows) {
        ReadSecond(codec, stream, one, middle, two, ending, launchedAt, TimeOverflows);
        TransitionCases(StartedBy(codec.decode(one)), codec.decode(two), launchedAt);
      }
    }
  }
}
