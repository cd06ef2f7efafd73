/** The remote-cursor program (udp.cs).

    The receiver keeps one permission flag, `allowControl`, read and
    written by three endless loops: the TCP handshake server, the UDP
    position listener and the emergency-stop key watcher. One pass through
    one of those loops is one `Event` here, handled as an atomic step of a
    single state machine (`Step`); the class `Receiver` performs the same
    steps on its fields. The sender writes the code, checks the reply and
    then streams `X|Y` datagrams. */
module RemoteCursor {
  import opened Wrappers
  import opened Strings

  /** Size of the buffer both sides read a handshake message into. */
  const BUFFER_SIZE: nat := 64
  const REPLY_OK := "OK"
  const REPLY_DENIED := "DENIED"
  const SEPARATOR := '|'
  const NUL: set<char> := {'\0'}
  /** `Random.Next(100000, 999999)` draws from 100000 to 999998. */
  const CODE_MIN: nat := 100000
  const CODE_MAX: nat := 999998

  /** A cursor position; the Win32 POINT holds two Int32 coordinates. */
  datatype Point = Point(x: int, y: int)

  predicate IsInt32Point(p: Point) {
    IsInt32(p.x) && IsInt32(p.y)
  }

  datatype Key = Spacebar | OtherKey(code: nat)

  /** What one pass of a receiver loop takes in: the text a TCP client
      wrote before the server read, one UDP datagram, or one key press. */
  datatype Event =
    | Connection(request: string)
    | Datagram(payload: string)
    | KeyPress(key: Key)

  /** What one pass of a receiver loop does besides changing the state. */
  datatype Effect =
    | Replied(reply: string)
    | Moved(to: Point)
    | Dropped
    | Malformed
    | Revoked
    | KeyIgnored

  /** The receiver's mutable state: the permission flag and the cursor
      that `SetCursorPos` moves. */
  datatype TargetState = TargetState(allowControl: bool, cursor: Point)

  // ------------------------------------------------------------ Handshake

  /** The code the receiver prints: the decimal text of the number `n` that
      `Random` drew, always six digits. */
  function SecurityCode(n: nat): (code: string)
    requires CODE_MIN <= n <= CODE_MAX
    ensures |code| == 6 && AllDigits(code)
    ensures DigitsValue(code) == n
  {
    assert Pow10(5) == 100000 && Pow10(6) == 1000000;
    NatToStringLength(n, 6);
    NatToStringRoundTrip(n);
    NatToString(n)
  }

  /** The buffer one `stream.Read` fills when the peer wrote `sent`: a
      zero-initialised 64-byte array holding the first 64 characters at
      most, NUL after them. */
  function ReadBuffer(sent: string): (buffer: string)
    ensures |buffer| == BUFFER_SIZE
    ensures forall i :: 0 <= i < BUFFER_SIZE ==> buffer[i] == if i < |sent| then sent[i] else '\0'
  {
    var n := if |sent| < BUFFER_SIZE then |sent| else BUFFER_SIZE;
    sent[..n] + seq(BUFFER_SIZE - n, _ => '\0')
  }

  /** `Encoding.UTF8.GetString(buffer).Trim('\0')` of that buffer. */
  function ReceivedText(sent: string): (text: string)
    ensures |text| <= BUFFER_SIZE && |text| <= |sent|
    ensures text == [] || (text[0] != '\0' && text[|text| - 1] != '\0')
  {
    var buffer := ReadBuffer(sent);
    TrimWithinPrefix(buffer, if |sent| < BUFFER_SIZE then |sent| else BUFFER_SIZE, NUL);
    Trim(buffer, NUL)
  }

  /** Trimming a text whose tail from `n` on is junk leaves at most `n`
      characters. */
  lemma TrimWithinPrefix(s: string, n: nat, junk: set<char>)
    requires n <= |s| && forall i :: n <= i < |s| ==> s[i] in junk
    ensures |Trim(s, junk)| <= n
  {
    var r := Trim(s, junk);
    if r != [] {
      var k := |s| - |TrimStart(s, junk)|;
      assert s[k + |r| - 1] == r[|r| - 1];
    }
  }

  /** The server's test: the trimmed text equals the code exactly. A code
      longer than the buffer, or than the request, is never accepted. */
  predicate Accepts(code: string, request: string)
    ensures Accepts(code, request) ==> |code| <= BUFFER_SIZE && |code| <= |request|
  {
    ReceivedText(request) == code
  }

  /** A request with no NUL at its ends that fits the buffer is accepted
      exactly when it is the code. */
  lemma AcceptsCleanRequest(code: string, request: string)
    requires |request| <= BUFFER_SIZE
    requires request == [] || (request[0] != '\0' && request[|request| - 1] != '\0')
    ensures Accepts(code, request) <==> request == code
  {
    ReceivedAsSent(request);
  }

  /** A message that fits the buffer is read whole; the padding is trimmed
      away again. */
  lemma ReceivedTextOfShortMessage(sent: string)
    requires |sent| <= BUFFER_SIZE
    ensures ReceivedText(sent) == Trim(sent, NUL)
  {
    var pad := seq(BUFFER_SIZE - |sent|, _ => '\0');
    assert ReadBuffer(sent) == sent + pad;
    TrimIgnoresPadding(sent, pad, NUL);
  }

  /** A message that fits the buffer and has no NUL at either end is
      received exactly as it was sent. */
  lemma ReceivedAsSent(sent: string)
    ensures |sent| <= BUFFER_SIZE && (sent == [] || (sent[0] != '\0' && sent[|sent| - 1] != '\0')) ==>
              ReceivedText(sent) == sent
  {
    if |sent| <= BUFFER_SIZE && (sent == [] || (sent[0] != '\0' && sent[|sent| - 1] != '\0')) {
      ReceivedTextOfShortMessage(sent);
      TrimOfClean(sent, NUL);
    }
  }

  /** A sender that types the receiver's code is let in. */
  lemma CodeAccepted(n: nat)
    requires CODE_MIN <= n <= CODE_MAX
    ensures Accepts(SecurityCode(n), SecurityCode(n))
  {
    var code := SecurityCode(n);
    ReceivedTextOfShortMessage(code);
    assert IsDigit(code[0]) && IsDigit(code[|code| - 1]);
    TrimOfClean(code, NUL);
  }

  /** The sender's test of the reply: its own 64-byte buffer, NULs trimmed,
      must read exactly "OK". */
  predicate ReplyGrantsControl(reply: string)
    ensures |reply| <= BUFFER_SIZE && (reply == [] || (reply[0] != '\0' && reply[|reply| - 1] != '\0')) ==>
              (ReplyGrantsControl(reply) <==> reply == REPLY_OK)
  {
    ReceivedAsSent(reply);
    ReceivedText(reply) == REPLY_OK
  }

  /** The sender streams after the receiver's "OK" and stops after its
      "DENIED". */
  lemma ReplyUnderstood()
    ensures ReplyGrantsControl(REPLY_OK)
    ensures !ReplyGrantsControl(REPLY_DENIED)
  {
    assert REPLY_OK[0] == 'O' && REPLY_OK[|REPLY_OK| - 1] == 'K';
    assert REPLY_DENIED[0] == 'D' && REPLY_DENIED[|REPLY_DENIED| - 1] == 'D';
  }

  // ------------------------------------------------------ Position stream

  /** The sender's datagram for a cursor position: `p.X + "|" + p.Y`,
      which splits at the bar into the texts of the two coordinates. */
  function FormatPosition(p: Point): (msg: string)
    ensures Split(msg, SEPARATOR) == [IntToString(p.x), IntToString(p.y)]
  {
    var xs, ys := IntToString(p.x), IntToString(p.y);
    NoSeparatorInNumber(p.x);
    NoSeparatorInNumber(p.y);
    SplitAfterPiece(xs, SEPARATOR, ys);
    SplitWithout(ys, SEPARATOR);
    xs + [SEPARATOR] + ys
  }

  /** The listener's reading of a payload: split on '|' and parse the first
      two pieces with `int.Parse`; further pieces are ignored. `None` is
      where udp.cs throws (fewer than two pieces, or a piece that is
      not an Int32). */
  function ParsePosition(payload: string): (r: Option<Point>)
    ensures r.Some? ==> IsInt32Point(r.value)
  {
    var parts := Split(payload, SEPARATOR);
    if |parts| < 2 then None
    else
      match (ParseInt32(parts[0]), ParseInt32(parts[1]))
      case (Some(x), Some(y)) => Some(Point(x, y))
      case _ => None
  }

  /** A payload without '|' is never applied. */
  lemma PositionNeedsSeparator(payload: string)
    requires SEPARATOR !in payload
    ensures ParsePosition(payload) == None
  {
    SplitWithout(payload, SEPARATOR);
  }

  lemma NoSeparatorInNumber(n: int)
    ensures SEPARATOR !in IntToString(n)
  {
    var s := IntToString(n);
    assert forall i :: 0 <= i < |s| ==> s[i] != SEPARATOR;
  }

  /** Whatever follows the second field does not matter: a payload that
      starts with the sender's message yields exactly its position. */
  lemma {:induction false} PositionRoundTripWithExtraFields(p: Point, rest: string)
    requires IsInt32Point(p)
    ensures ParsePosition(FormatPosition(p) + [SEPARATOR] + rest) == Some(p)
  {
    var xs, ys := IntToString(p.x), IntToString(p.y);
    NoSeparatorInNumber(p.x);
    NoSeparatorInNumber(p.y);
    assert FormatPosition(p) + [SEPARATOR] + rest == xs + [SEPARATOR] + (ys + [SEPARATOR] + rest);
    SplitAfterPiece(xs, SEPARATOR, ys + [SEPARATOR] + rest);
    SplitAfterPiece(ys, SEPARATOR, rest);
    ParseIntToString(p.x);
    ParseIntToString(p.y);
  }

  /** Parsing the sender's message gives back the position it was made
      from, for every pair of Int32 coordinates. */
  lemma {:induction false} PositionRoundTrip(p: Point)
    requires IsInt32Point(p)
    ensures ParsePosition(FormatPosition(p)) == Some(p)
  {
    var xs, ys := IntToString(p.x), IntToString(p.y);
    NoSeparatorInNumber(p.x);
    NoSeparatorInNumber(p.y);
    SplitAfterPiece(xs, SEPARATOR, ys);
    SplitWithout(ys, SEPARATOR);
    ParseIntToString(p.x);
    ParseIntToString(p.y);
  }

  // -------------------------------------------------------- State machine

  /** One pass of one receiver loop: the handshake server (udp.cs:78-93),
      the listener (udp.cs:104-115) or the key watcher (udp.cs:123-130). */
  function Step(code: string, s: TargetState, e: Event): (r: (TargetState, Effect))
    ensures r.0.cursor != s.cursor ==> e.Datagram? && s.allowControl && r.1 == Moved(r.0.cursor)
    ensures r.1.Moved? ==> r.0 == s.(cursor := r.1.to) && IsInt32Point(r.1.to)
    ensures r.1.Dropped? || r.1.Malformed? || r.1.KeyIgnored? || r.1 == Replied(REPLY_DENIED) ==> r.0 == s
  {
    match e
    case Connection(request) =>
      if Accepts(code, request) then (s.(allowControl := true), Replied(REPLY_OK))
      else (s, Replied(REPLY_DENIED))
    case Datagram(payload) =>
      if !s.allowControl then (s, Dropped)
      else (
        match ParsePosition(payload)
        case Some(p) => (s.(cursor := p), Moved(p))
        case None => (s, Malformed))
    case KeyPress(key) =>
      if key == Spacebar then (s.(allowControl := false), Revoked) else (s, KeyIgnored)
  }

  /** The state after handling `events` in order. A run that ends with the
      space bar ends without control, whatever came before. */
  function Run(code: string, s: TargetState, events: seq<Event>): (t: TargetState)
    ensures events != [] && events[|events| - 1] == KeyPress(Spacebar) ==> !t.allowControl
    decreases |events|
  {
    if events == [] then s
    else
      var rest := events[1..];
      assert rest != [] ==> rest[|rest| - 1] == events[|events| - 1];
      Run(code, Step(code, s, events[0]).0, rest)
  }

  /** The receiver starts with control not allowed. */
  function Initial(start: Point): (s: TargetState)
    ensures !s.allowControl && s.cursor == start
  {
    TargetState(false, start)
  }

  /** Only an accepted handshake turns control on, and only the Space key
      turns it off; a rejected handshake, a datagram or another key leave
      the flag as it was, and only a datagram moves the cursor. */
  lemma PermissionTransitions(code: string, s: TargetState, e: Event)
    ensures var t := Step(code, s, e).0;
      && (!s.allowControl && t.allowControl ==> e.Connection? && Accepts(code, e.request))
      && (s.allowControl && !t.allowControl ==> e == KeyPress(Spacebar))
      && (e.Connection? && !Accepts(code, e.request) ==> t == s)
      && (!e.Datagram? ==> t.cursor == s.cursor)
  {
  }

  predicate AcceptedConnection(code: string, e: Event) {
    e.Connection? && Accepts(code, e.request)
  }

  /** While control is not allowed and no handshake succeeds, nothing
      changes: every datagram, well-formed or not, is dropped. */
  lemma {:induction false} NoControlWithoutHandshake(code: string, s: TargetState, events: seq<Event>)
    requires !s.allowControl
    requires forall i :: 0 <= i < |events| ==> !AcceptedConnection(code, events[i])
    ensures Run(code, s, events) == s
    decreases |events|
  {
    if events != [] {
      assert !AcceptedConnection(code, events[0]);
      assert Step(code, s, events[0]).0 == s;
      NoControlWithoutHandshake(code, s, events[1..]);
    }
  }

  /** After the Space key, every later datagram is ignored until a
      handshake succeeds again. */
  lemma {:induction false} EmergencyStopHolds(code: string, s: TargetState, events: seq<Event>)
    requires forall i :: 0 <= i < |events| ==> !AcceptedConnection(code, events[i])
    ensures Run(code, s, [KeyPress(Spacebar)] + events) == s.(allowControl := false)
  {
    var stopped := s.(allowControl := false);
    assert ([KeyPress(Spacebar)] + events)[1..] == events;
    NoControlWithoutHandshake(code, stopped, events);
  }

  /** While control is allowed, the sender's message for `p` moves the
      cursor to exactly `p` and nothing else changes. */
  lemma ControlledMove(code: string, s: TargetState, p: Point)
    requires s.allowControl && IsInt32Point(p)
    ensures Step(code, s, Datagram(FormatPosition(p))) == (s.(cursor := p), Moved(p))
  {
    PositionRoundTrip(p);
  }

  /** The datagrams for a sequence of sent messages. */
  function Deliver(messages: seq<string>): (events: seq<Event>)
    ensures |events| == |messages|
    ensures forall i :: 0 <= i < |messages| ==> events[i] == Datagram(messages[i])
  {
    seq(|messages|, i requires 0 <= i < |messages| => Datagram(messages[i]))
  }

  /** While control is allowed, delivering the sender's stream in order
      leaves the cursor at the last position sent. */
  lemma {:induction false} StreamFollowsSender(code: string, s: TargetState, samples: seq<Point>, messages: seq<string>)
    requires s.allowControl && |samples| > 0
    requires forall i :: 0 <= i < |samples| ==> IsInt32Point(samples[i])
    requires |messages| == |samples|
    requires forall i :: 0 <= i < |samples| ==> messages[i] == FormatPosition(samples[i])
    ensures Run(code, s, Deliver(messages)) == TargetState(true, samples[|samples| - 1])
    decreases |samples|
  {
    var events := Deliver(messages);
    forall i, t: TargetState | 0 <= i < |events| && t.allowControl
      ensures Step(code, t, events[i]).0 == t.(cursor := samples[i])
    {
      ControlledMove(code, t, samples[i]);
    }
    RunOfMoves(code, s, samples, events);
  }

  /** A run of events, each of which moves a receiver with control to the
      next target, ends with control at the last target. */
  lemma {:induction false} RunOfMoves(code: string, s: TargetState, targets: seq<Point>, events: seq<Event>)
    requires s.allowControl && |targets| > 0 && |events| == |targets|
    requires forall i, t: TargetState :: 0 <= i < |events| && t.allowControl ==>
               Step(code, t, events[i]).0 == t.(cursor := targets[i])
    ensures Run(code, s, events) == TargetState(true, targets[|targets| - 1])
    decreases |events|
  {
    var next := s.(cursor := targets[0]);
    assert events == [events[0]] + events[1..];
    RunFirst(code, s, events[0], next, events[1..]);
    if |events| == 1 {
      assert events[1..] == [];
    } else {
      assert forall i :: 0 <= i < |events| - 1 ==> events[1..][i] == events[i + 1] && targets[1..][i] == targets[i + 1];
      RunOfMoves(code, next, targets[1..], events[1..]);
    }
  }

  /** A full session, handshake, moves and emergency stop: the sender types the code and is
      let in, its position `p` is applied, the operator presses Space, and
      the next position `q` is ignored. */
  lemma SessionWithEmergencyStop(n: nat, start: Point, p: Point, q: Point)
    requires CODE_MIN <= n <= CODE_MAX
    requires IsInt32Point(p) && IsInt32Point(q)
    ensures var code := SecurityCode(n);
      Run(code, Initial(start), [Connection(code), Datagram(FormatPosition(p)),
                                 KeyPress(Spacebar), Datagram(FormatPosition(q))])
      == TargetState(false, p)
  {
    var code := SecurityCode(n);
    var authed := TargetState(true, start);
    var move := Datagram(FormatPosition(p));
    var tail := [KeyPress(Spacebar)] + [Datagram(FormatPosition(q))];
    assert [Connection(code), move, KeyPress(Spacebar), Datagram(FormatPosition(q))]
        == [Connection(code)] + ([move] + tail);
    CodeAccepted(n);
    RunFirst(code, Initial(start), Connection(code), authed, [move] + tail);
    ControlledMove(code, authed, p);
    RunFirst(code, authed, move, TargetState(true, p), tail);
    EmergencyStopHolds(code, TargetState(true, p), [Datagram(FormatPosition(q))]);
  }

  /** `Run` handles the first event, then the rest. */
  lemma RunFirst(code: string, s: TargetState, e: Event, t: TargetState, rest: seq<Event>)
    requires Step(code, s, e).0 == t
    ensures Run(code, s, [e] + rest) == Run(code, t, rest)
  {
    assert ([e] + rest)[0] == e && ([e] + rest)[1..] == rest;
  }

  // ----------------------------------------------------------- As written

  /** The listener's loop body as udp.cs:104-115 writes it. `None` stands for
      the exception `parts[1]` or `int.Parse` raises on a malformed payload:
      nothing in the thread (started at udp.cs:61) catches it, and an
      unhandled exception in a thread ends the whole receiver process, the
      handshake and key-watcher threads with it. */
  function DatagramAsWritten(s: TargetState, payload: string): (r: Option<TargetState>)
    ensures !s.allowControl ==> r == Some(s)
    ensures s.allowControl ==> (r.None? <==> ParsePosition(payload).None?)
    ensures s.allowControl && ParsePosition(payload).Some? ==>
              r == Some(s.(cursor := ParsePosition(payload).value))
  {
    if !s.allowControl then Some(s)
    else match ParsePosition(payload)
      case Some(p) => Some(s.(cursor := p))
      case None => None
  }

  /** The listener as written and the corrected step agree on every
      datagram the listener survives; on the others, where udp.cs ends the
      receiver process, the corrected step drops the datagram and keeps the state. */
  lemma DatagramAsWrittenAgreesWithStep(code: string, s: TargetState, payload: string)
    ensures DatagramAsWritten(s, payload).Some? ==>
              DatagramAsWritten(s, payload).value == Step(code, s, Datagram(payload)).0
    ensures DatagramAsWritten(s, payload).None? ==>
              Step(code, s, Datagram(payload)) == (s, Malformed)
  {
  }

  /** A payload without the separator, sent while control is allowed, ends
      the receiver process as written. */
  lemma PayloadWithoutSeparatorStopsListenerAsWritten(s: TargetState)
    requires s.allowControl
    ensures DatagramAsWritten(s, "100") == None
  {
    PositionNeedsSeparator("100");
  }

  /** In the model a malformed payload is dropped instead: the state is
      unchanged and the next well-formed position is still applied. */
  lemma MalformedDatagramDropped(code: string, s: TargetState, payload: string, p: Point)
    requires s.allowControl && ParsePosition(payload).None? && IsInt32Point(p)
    ensures Step(code, s, Datagram(payload)) == (s, Malformed)
    ensures Run(code, s, [Datagram(payload), Datagram(FormatPosition(p))]) == s.(cursor := p)
  {
    var events := [Datagram(payload), Datagram(FormatPosition(p))];
    assert Step(code, s, events[0]).0 == s;
    assert Run(code, s, events) == Run(code, s, events[1..]);
    assert events[1..] == [Datagram(FormatPosition(p))];
    assert Step(code, s, events[1]).0 == s.(cursor := p) by {
      ControlledMove(code, s, p);
    }
  }

  // -------------------------------------------------------------- Objects

  /** The receiver process: the static fields of RemoteCursor that the three
      receiver threads share, with the cursor `SetCursorPos` moves. */
  class Receiver {
    const securityCode: string
    var allowControl: bool
    var cursor: Point

    function State(): TargetState
      reads this
    {
      TargetState(allowControl, cursor)
    }

    /** StartReceiver: `n` is the number `Random` drew, `start` the cursor
        position when the receiver starts. */
    constructor (n: nat, start: Point)
      requires CODE_MIN <= n <= CODE_MAX
      ensures securityCode == SecurityCode(n) && |securityCode| == 6
      ensures State() == Initial(start)
    {
      securityCode := SecurityCode(n);
      allowControl := false;
      cursor := start;
    }

    /** One pass of TcpAuthServer: read one buffer from the client, compare
        it with the code, answer "OK" (and allow control) or "DENIED". */
    method Authenticate(request: string) returns (reply: string)
      modifies this
      ensures reply == if Accepts(securityCode, request) then REPLY_OK else REPLY_DENIED
      ensures allowControl == (old(allowControl) || Accepts(securityCode, request))
      ensures cursor == old(cursor)
      ensures (State(), Replied(reply)) == Step(securityCode, old(State()), Connection(request))
    {
      var buffer := ReadBuffer(request);
      var code := Trim(buffer, NUL);
      if code == securityCode {
        allowControl := true;
        reply := REPLY_OK;
      } else {
        reply := REPLY_DENIED;
      }
    }

    /** One pass of UdpControlListener. */
    method ReceiveDatagram(payload: string) returns (effect: Effect)
      modifies this
      ensures allowControl == old(allowControl)
      ensures !old(allowControl) ==> cursor == old(cursor) && effect == Dropped
      ensures old(allowControl) && ParsePosition(payload).Some? ==>
                cursor == ParsePosition(payload).value && effect == Moved(cursor)
      ensures old(allowControl) && ParsePosition(payload).None? ==>
                cursor == old(cursor) && effect == Malformed
      ensures (State(), effect) == Step(securityCode, old(State()), Datagram(payload))
    {
      if !allowControl {
        return Dropped;
      }
      var parts := Split(payload, SEPARATOR);
      if |parts| < 2 {
        return Malformed;
      }
      var x := ParseInt32(parts[0]);
      var y := ParseInt32(parts[1]);
      if x.None? || y.None? {
        return Malformed;
      }
      cursor := Point(x.value, y.value);
      effect := Moved(cursor);
    }

    /** One key read by EmergencyStop; `stopped` is whether it printed the
        termination notice. */
    method PressKey(key: Key) returns (stopped: bool)
      modifies this
      ensures stopped == (key == Spacebar)
      ensures allowControl == (old(allowControl) && !stopped)
      ensures cursor == old(cursor)
      ensures (State(), if stopped then Revoked else KeyIgnored) == Step(securityCode, old(State()), KeyPress(key))
    {
      stopped := key == Spacebar;
      if stopped {
        allowControl := false;
      }
    }
  }

  /** StartSender once the code is written: `reply` is what the receiver
      answered, `samples` the positions `GetCursorPos` returns on successive
      passes of the send loop. The result is the datagrams sent, in order:
      none unless the reply grants control, otherwise one per sample. */
  method RunSender(reply: string, samples: seq<Point>) returns (sent: seq<string>)
    ensures !ReplyGrantsControl(reply) ==> sent == []
    ensures ReplyGrantsControl(reply) ==> |sent| == |samples|
    ensures ReplyGrantsControl(reply) ==> forall i :: 0 <= i < |samples| ==> sent[i] == FormatPosition(samples[i])
  {
    var response := Trim(ReadBuffer(reply), NUL);
    if response != REPLY_OK {
      return [];
    }
    sent := StreamPositions(samples);
  }

  /** The sender's send loop, one datagram per position read. */
  method StreamPositions(samples: seq<Point>) returns (sent: seq<string>)
    ensures |sent| == |samples|
    ensures forall i :: 0 <= i < |samples| ==> sent[i] == FormatPosition(samples[i])
  {
    sent := [];
    var i := 0;
    while i < |samples|
      invariant 0 <= i <= |samples| && |sent| == i
      invariant forall k :: 0 <= k < i ==> sent[k] == FormatPosition(samples[k])
    {
      sent := sent + [FormatPosition(samples[i])];
      i := i + 1;
    }
  }
}
