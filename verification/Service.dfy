/** One client of the TCP status service, over arbitrary fragmentation and partial sends. */
module Service {
  import opened Types
  import opened Text

  const MAX_INPUT: nat := 255          // SERVICE_MAX_REQUEST without the terminator
  const TOO_LARGE := "RESULT: INVALID\nBODY: Request too large\n"
  const TOO_LONG := "RESULT: INVALID\nBODY: Response too large\n"
  const LF: char := '\n'

  /** input holds the bytes received so far. */
  datatype Client = Client(fd: Option<nat>, input: string, sent: nat, response: Option<string>, deadline: int)

  const FREE := Client(None, [], 0, None, 0)

  /** What recv and send would return if they were called now. */
  datatype Recv = Data(bytes: string) | Eof | RecvAgain | RecvError

  datatype Send = Sent(n: nat) | SendAgain | SendFailed

  datatype Poll = Poll(readable: bool, writable: bool, hangup: bool, error: bool, recv: Recv, send: Send)

  /** The client afterwards, and the bytes that left for it. */
  datatype Stepped = Stepped(c: Client, out: string)

  /** The reply to a request text; an oversized one is replaced. */
  function Answer(command: string -> string, text: string): (r: string)
    ensures |r| <= MAX_RESPONSE
  {
    var r := command(text);
    if |r| > MAX_RESPONSE then TOO_LONG else r
  }

  /** Decide on a response once the line, the stream or the buffer has ended. */
  function Respond(command: string -> string, c: Client, eof: bool): Client {
    var i := Find(c.input, LF);
    if i == |c.input| && !eof && |c.input| < MAX_INPUT then c
    else if i == |c.input| && |c.input| >= MAX_INPUT then c.(response := Some(TOO_LARGE))
    else c.(response := Some(Answer(command, c.input[..i])))
  }

  /** The receiving half; None when the client is closed, or when this round ends here. */
  datatype Half = Closed | Done(c: Client) | Go(c: Client)

  function Receive(command: string -> string, c: Client, p: Poll): Half {
    if c.response.Some? || !(p.readable || p.hangup) then Go(c)
    else match p.recv
      case RecvAgain => Done(c)
      case RecvError => Closed
      case Data(b) =>
        var c' := c.(input := c.input + b);
        if NUL in c'.input then Closed else Go(Respond(command, c', false))
      case Eof =>
        if NUL in c.input then Closed else Go(Respond(command, c, true))
  }

  function Transmit(c: Client, p: Poll): Stepped {
    if c.response.None? then Stepped(c, [])
    else if p.writable || p.hangup then
      match p.send
      case SendAgain => Stepped(c, [])
      case SendFailed => Stepped(FREE, [])
      case Sent(n) =>
        if n == 0 || c.sent + n > |c.response.value| then Stepped(FREE, [])
        else
          var out := c.response.value[c.sent..c.sent + n];
          if c.sent + n == |c.response.value| then Stepped(FREE, out) else Stepped(c.(sent := c.sent + n), out)
    else if |c.response.value| == 0 then Stepped(FREE, [])
    else Stepped(c, [])
  }

  /** One round of service_dispatch for one client. */
  function Step(command: string -> string, c: Client, p: Poll, now: int): Stepped {
    if now >= c.deadline || p.error then Stepped(FREE, [])
    else match Receive(command, c, p)
      case Closed => Stepped(FREE, [])
      case Done(c') => Stepped(c', [])
      case Go(c') => Transmit(c', p)
  }

  // ---- a conversation ----

  /** The one reply a request stream deserves, whatever its fragmentation. */
  function Reply(command: string -> string, stream: string): (r: string)
    ensures |r| <= MAX_RESPONSE
  {
    var n := if |stream| < MAX_INPUT then |stream| else MAX_INPUT;
    var i := Find(stream[..n], LF);
    if i == n && |stream| >= MAX_INPUT then TOO_LARGE else Answer(command, stream[..i])
  }

  datatype Round = Round(poll: Poll, now: int)

  /** A round without errors or expiry, in which the socket delivers the next bytes of the
      stream, reports its end only after all of them, and sends at least a byte if any. */
  ghost predicate Clean(c: Client, stream: string, r: Round) {
    var used := |c.input|;
    && r.now < c.deadline && !r.poll.error
    && (match r.poll.recv
        case Data(b) => 0 < |b| <= MAX_INPUT - used && used + |b| <= |stream| && b == stream[used..used + |b|]
        case Eof => used == |stream|
        case RecvAgain => true
        case RecvError => false)
    && (match r.poll.send
        case Sent(n) => true
        case SendAgain => true
        case SendFailed => false)
  }

  /** send reports how much of the rest it took: some, unless there was none. */
  ghost predicate Takes(c: Client, p: Poll) {
    p.send.Sent? && c.response.Some? ==>
      c.sent + p.send.n <= |c.response.value| && (p.send.n == 0 ==> c.sent == |c.response.value|)
  }

  /** What a conversation has come to: received so far is the stream, sent so far is the reply. */
  ghost predicate Faithful(command: string -> string, stream: string, c: Client, out: string) {
    && c.fd.Some?
    && |c.input| <= MAX_INPUT && c.input <= stream && NUL !in stream
    && (c.response.None? ==> out == [] && c.sent == 0 && |c.input| < MAX_INPUT && LF !in c.input)
    && (c.response.Some? ==> c.response.value == Reply(command, stream) && c.sent <= |c.response.value|
                             && out == c.response.value[..c.sent])
  }

  /** The socket delivered or took something: bytes or the end of the stream while the request
      is read, bytes of the reply (or its emptiness) afterwards. */
  predicate Productive(c: Client, p: Poll) {
    if c.response.None? then (p.readable || p.hangup) && (p.recv.Data? || p.recv.Eof?)
    else (p.writable || p.hangup) && p.send.Sent?
  }

  /** A bound on the productive rounds still needed: one for each byte to come and for the end
      of the stream, one for each byte of the reply, and one to close. */
  ghost function Work(command: string -> string, stream: string, c: Client): nat {
    var reply := |Reply(command, stream)|;
    if c.fd.None? then 0
    else if c.response.None? then (if |c.input| <= |stream| then |stream| - |c.input| else 0) + reply + 2
    else (if c.sent <= reply then reply - c.sent else 0) + 1
  }

  /** The work left after a round, which is less than before if the round was productive. */
  ghost predicate Advanced(command: string -> string, stream: string, c: Client, c': Client, productive: bool) {
    Work(command, stream, c') + (if productive then 1 else 0) <= Work(command, stream, c)
  }

  lemma FindInPrefix(s: string, n: nat, m: nat, c: char)
    requires n <= m <= |s| && Find(s[..n], c) < n
    ensures Find(s[..m], c) == Find(s[..n], c)
  {
    var i, j := Find(s[..n], c), Find(s[..m], c);
    assert s[..m][i] == s[..n][i] == c;
    assert j <= i;
    assert j < n ==> s[..n][j] == s[..m][j];
  }

  lemma RespondFaithful(command: string -> string, stream: string, c: Client, eof: bool)
    requires c.fd.Some? && c.response.None? && c.sent == 0
    requires |c.input| <= MAX_INPUT && c.input <= stream && NUL !in stream
    requires eof ==> c.input == stream
    ensures var c' := Respond(command, c, eof);
      && Faithful(command, stream, c', [])
      && c'.input == c.input && c'.sent == 0 && (eof ==> c'.response.Some?)
  {
    hide Answer;
    var used := |c.input|;
    var n := if |stream| < MAX_INPUT then |stream| else MAX_INPUT;
    assert c.input == stream[..used];
    var i := Find(c.input, LF);
    if i < used {
      FindInPrefix(stream, used, n, LF);
      assert c.input[..i] == stream[..i];
    } else if used == MAX_INPUT {
      assert stream[..n] == c.input;
    } else if eof {
      assert stream[..n] == stream && c.input == stream;
    }
  }

  lemma NoNul(stream: string, s: string)
    requires NUL !in stream && s <= stream
    ensures NUL !in s
  {
    assert forall i :: 0 <= i < |s| ==> s[i] == stream[i];
  }

  /** One clean round keeps the conversation faithful, ends it only with the whole reply out, and
      gets on with it if the socket let it. */
  lemma RoundFaithful(command: string -> string, stream: string, c: Client, out: string, r: Round)
    requires Faithful(command, stream, c, out) && Clean(c, stream, r)
    requires var h := Receive(command, c, r.poll); h.Go? ==> Takes(h.c, r.poll)
    ensures var s := Step(command, c, r.poll, r.now);
      && Advanced(command, stream, c, s.c, Productive(c, r.poll))
      && if s.c.fd.Some? then Faithful(command, stream, s.c, out + s.out)
         else s.c == FREE && out + s.out == Reply(command, stream)
  {
    hide Reply, Respond, Transmit;
    assert out + [] == out;
    if c.response.None? && (r.poll.readable || r.poll.hangup) {
      match r.poll.recv
      case Data(b) =>
        var c' := c.(input := c.input + b);
        assert c'.input == stream[..|c'.input|];
        NoNul(stream, c'.input);
        RespondFaithful(command, stream, c', false);
        TransmitFaithful(command, stream, Respond(command, c', false), out, r.poll);
      case Eof =>
        NoNul(stream, c.input);
        RespondFaithful(command, stream, c, true);
        TransmitFaithful(command, stream, Respond(command, c, true), out, r.poll);
      case RecvAgain =>
      case RecvError =>
    } else {
      TransmitFaithful(command, stream, c, out, r.poll);
    }
  }

  lemma TransmitFaithful(command: string -> string, stream: string, c: Client, out: string, p: Poll)
    requires Faithful(command, stream, c, out) && Takes(c, p) && !p.send.SendFailed?
    ensures var s := Transmit(c, p);
      && Advanced(command, stream, c, s.c, c.response.Some? && Productive(c, p))
      && if s.c.fd.Some? then Faithful(command, stream, s.c, out + s.out)
         else s.c == FREE && out + s.out == Reply(command, stream)
  {
    hide Reply;
    assert out + [] == out;
    if c.response.Some? && (p.writable || p.hangup) && p.send.Sent? {
      var r := c.response.value;
      assert r[..c.sent] + r[c.sent..c.sent + p.send.n] == r[..c.sent + p.send.n];
      assert r[..|r|] == r;
    }
  }

  /** All rounds of a conversation, up to the round that closes it. */
  function Talk(command: string -> string, c: Client, rounds: seq<Round>): Stepped
    decreases |rounds|
  {
    if rounds == [] || c.fd.None? then Stepped(c, [])
    else
      var s := Step(command, c, rounds[0].poll, rounds[0].now);
      var rest := Talk(command, s.c, rounds[1..]);
      Stepped(rest.c, s.out + rest.out)
  }

  ghost predicate CleanTalk(command: string -> string, stream: string, c: Client, rounds: seq<Round>)
    decreases |rounds|
  {
    rounds == [] || c.fd.None? ||
    (var r := rounds[0];
     var h := Receive(command, c, r.poll);
     && Clean(c, stream, r) && (h.Go? ==> Takes(h.c, r.poll))
     && CleanTalk(command, stream, Step(command, c, r.poll, r.now).c, rounds[1..]))
  }

  /** How many rounds passed over an open conversation without being productive. */
  function IdleRounds(command: string -> string, c: Client, rounds: seq<Round>): (n: nat)
    ensures n <= |rounds|
    decreases |rounds|
  {
    if rounds == [] || c.fd.None? then 0
    else
      (if Productive(c, rounds[0].poll) then 0 else 1)
      + IdleRounds(command, Step(command, c, rounds[0].poll, rounds[0].now).c, rounds[1..])
  }

  lemma {:induction false} TalkFaithful(command: string -> string, stream: string, c: Client, out: string,
                                        rounds: seq<Round>)
    requires Faithful(command, stream, c, out) && CleanTalk(command, stream, c, rounds)
    ensures var s := Talk(command, c, rounds);
      if s.c.fd.Some?
      then
        && Faithful(command, stream, s.c, out + s.out)
        && Work(command, stream, s.c) + |rounds| <= Work(command, stream, c) + IdleRounds(command, c, rounds)
      else s.c == FREE && out + s.out == Reply(command, stream)
    decreases |rounds|
  {
    hide Reply, Step, Faithful, Clean, Takes, Receive, Work, Productive;
    assert out + [] == out;
    OpenIsFaithful(command, stream, c, out);
    if rounds != [] {
      var r := rounds[0];
      RoundFaithful(command, stream, c, out, r);
      var s := Step(command, c, r.poll, r.now);
      var rest := Talk(command, s.c, rounds[1..]);
      assert (out + s.out) + rest.out == out + (s.out + rest.out);
      if s.c.fd.Some? {
        TalkFaithful(command, stream, s.c, out + s.out, rounds[1..]);
      } else {
        assert rest == Stepped(s.c, []) && s.out + [] == s.out;
      }
    }
  }

  lemma OpenIsFaithful(command: string -> string, stream: string, c: Client, out: string)
    requires Faithful(command, stream, c, out)
    ensures c.fd.Some?
  {}

  /** Whatever the fragmentation and the partial sends: what a client has received is a prefix
      of the one reply its stream deserves, a closed conversation has delivered all of it, and
      a conversation is closed after |stream| + |reply| + 2 rounds, not counting those in which
      the socket had nothing to give or take. */
  lemma OneReply(command: string -> string, stream: string, fd: nat, deadline: int, rounds: seq<Round>)
    requires NUL !in stream
    requires CleanTalk(command, stream, FREE.(fd := Some(fd), deadline := deadline), rounds)
    ensures var c := FREE.(fd := Some(fd), deadline := deadline);
      var s := Talk(command, c, rounds);
      && s.out <= Reply(command, stream)
      && (s.c.fd.None? ==> s.c == FREE && s.out == Reply(command, stream))
      && (|rounds| - IdleRounds(command, c, rounds) >= |stream| + |Reply(command, stream)| + 2 ==> s.c.fd.None?)
  {
    hide Reply, Talk, CleanTalk, IdleRounds;
    var c := FREE.(fd := Some(fd), deadline := deadline);
    TalkFaithful(command, stream, c, [], rounds);
    var s := Talk(command, c, rounds);
    assert [] + s.out == s.out;
  }

  // ---- any conversation, clean or not ----

  /** recv returns no more than there is room for. */
  ghost predicate Fits(c: Client, p: Poll) { p.recv.Data? ==> |c.input| + |p.recv.bytes| <= MAX_INPUT }

  ghost predicate FittingTalk(command: string -> string, c: Client, rounds: seq<Round>)
    decreases |rounds|
  {
    rounds == [] || c.fd.None? ||
    (Fits(c, rounds[0].poll)
     && FittingTalk(command, Step(command, c, rounds[0].poll, rounds[0].now).c, rounds[1..]))
  }

  /** Whether a round reads from the socket at all. */
  predicate Reads(c: Client, r: Round) {
    r.now < c.deadline && !r.poll.error && c.response.None? && (r.poll.readable || r.poll.hangup)
  }

  function Read(c: Client, r: Round): string { if Reads(c, r) && r.poll.recv.Data? then r.poll.recv.bytes else [] }

  /** Everything read from the client in a conversation. */
  function Received(command: string -> string, c: Client, rounds: seq<Round>): string
    decreases |rounds|
  {
    if rounds == [] || c.fd.None? then []
    else Read(c, rounds[0]) + Received(command, Step(command, c, rounds[0].poll, rounds[0].now).c, rounds[1..])
  }

  /** The client has been sent a part of the one reply to what was read from it, and nothing
      before that text was complete and found to be free of NUL. */
  ghost predicate Honest(command: string -> string, c: Client, out: string) {
    && |c.input| <= MAX_INPUT
    && (c.response.None? ==> out == [] && c.sent == 0)
    && (c.response.Some? ==>
          && NUL !in c.input && c.response.value == Reply(command, c.input)
          && c.sent <= |c.response.value| && out == c.response.value[..c.sent])
  }

  /** What may have been sent when text is all that was read. */
  ghost predicate Owed(command: string -> string, text: string, out: string) {
    out == [] || (NUL !in text && out <= Reply(command, text))
  }

  lemma RespondHonest(command: string -> string, c: Client, eof: bool)
    requires |c.input| <= MAX_INPUT && c.response.None? && c.sent == 0 && NUL !in c.input
    ensures var c' := Respond(command, c, eof); Honest(command, c', []) && c'.input == c.input && c'.fd == c.fd
  {
    hide Answer;
    assert c.input[..|c.input|] == c.input;
  }

  lemma TransmitHonest(command: string -> string, c: Client, out: string, p: Poll)
    requires Honest(command, c, out)
    ensures var s := Transmit(c, p);
      && Owed(command, c.input, out + s.out)
      && (s.c.fd.Some? ==> Honest(command, s.c, out + s.out) && s.c.input == c.input)
  {
    hide Reply;
    assert out + [] == out;
    if c.response.Some? {
      var r := c.response.value;
      assert out <= r;
      if (p.writable || p.hangup) && p.send.Sent? && c.sent + p.send.n <= |r| {
        assert r[..c.sent] + r[c.sent..c.sent + p.send.n] == r[..c.sent + p.send.n];
      }
    }
  }

  /** One round of any kind, errors and expiry included. */
  lemma RoundHonest(command: string -> string, c: Client, out: string, r: Round)
    requires Honest(command, c, out) && Fits(c, r.poll)
    ensures var s := Step(command, c, r.poll, r.now);
      && Owed(command, c.input + Read(c, r), out + s.out)
      && (s.c.fd.Some? ==> Honest(command, s.c, out + s.out) && s.c.input == c.input + Read(c, r))
  {
    hide Reply, Respond, Transmit;
    assert out + [] == out && c.input + [] == c.input;
    assert Owed(command, c.input, out) by { SentSoFar(command, c, out); }
    if Reads(c, r) {
      assert out == [];
      match r.poll.recv
      case Data(b) =>
        var c' := c.(input := c.input + b);
        if NUL !in c'.input {
          RespondHonest(command, c', false);
          TransmitHonest(command, Respond(command, c', false), [], r.poll);
        }
      case Eof =>
        if NUL !in c.input {
          RespondHonest(command, c, true);
          TransmitHonest(command, Respond(command, c, true), [], r.poll);
        }
      case RecvAgain =>
      case RecvError =>
    } else {
      TransmitHonest(command, c, out, r.poll);
    }
  }

  lemma SentSoFar(command: string -> string, c: Client, out: string)
    requires Honest(command, c, out)
    ensures Owed(command, c.input, out)
  {
    hide Reply;
  }

  lemma {:induction false} TalkHonest(command: string -> string, c: Client, out: string, rounds: seq<Round>)
    requires c.fd.Some? && Honest(command, c, out) && FittingTalk(command, c, rounds)
    ensures Owed(command, c.input + Received(command, c, rounds), out + Talk(command, c, rounds).out)
    decreases |rounds|
  {
    hide Step, Honest, Owed, Fits, Read;
    if rounds == [] {
      SentSoFar(command, c, out);
      assert out + [] == out && c.input + [] == c.input;
    } else {
      var r := rounds[0];
      RoundHonest(command, c, out, r);
      var s := Step(command, c, r.poll, r.now);
      var text, rest := Received(command, s.c, rounds[1..]), Talk(command, s.c, rounds[1..]);
      assert c.input + (Read(c, r) + text) == c.input + Read(c, r) + text;
      assert out + (s.out + rest.out) == out + s.out + rest.out;
      if s.c.fd.Some? {
        TalkHonest(command, s.c, out + s.out, rounds[1..]);
      } else {
        assert text == [] && rest.out == [];
        assert c.input + Read(c, r) + [] == c.input + Read(c, r) && out + s.out + [] == out + s.out;
      }
    }
  }

  /** Whatever happens to a connection, errors, expiry and malformed input included, it is never
      sent anything but the beginning of the one reply to the text that was read from it, and
      nothing at all if that text holds a NUL. */
  lemma NothingElseSent(command: string -> string, fd: nat, deadline: int, rounds: seq<Round>)
    requires FittingTalk(command, FREE.(fd := Some(fd), deadline := deadline), rounds)
    ensures var c := FREE.(fd := Some(fd), deadline := deadline);
      var text, out := Received(command, c, rounds), Talk(command, c, rounds).out;
      out == [] || (NUL !in text && out <= Reply(command, text))
  {
    hide Reply, Talk, Received, FittingTalk;
    var c := FREE.(fd := Some(fd), deadline := deadline);
    TalkHonest(command, c, [], rounds);
    assert [] + Received(command, c, rounds) == Received(command, c, rounds);
    assert [] + Talk(command, c, rounds).out == Talk(command, c, rounds).out;
  }

  /** A line that ends within the first 255 bytes is answered by what the command says to its text,
      whatever follows it; only a reply of more than 1 MiB is replaced. */
  lemma LineReply(command: string -> string, line: string, rest: string)
    requires LF !in line && |line| < 255
    ensures Reply(command, line + [LF] + rest) ==
      if |command(line)| <= 1_048_576 then command(line) else "RESULT: INVALID\nBODY: Response too large\n"
  {
    var s := line + [LF] + rest;
    var n := if |s| < MAX_INPUT then |s| else MAX_INPUT;
    var i := Find(s[..n], LF);
    assert s[..n][|line|] == LF;
    assert i <= |line|;
    assert forall k :: 0 <= k < |line| ==> s[..n][k] == line[k];
    assert s[..i] == line;
  }

  /** A short request without a line feed is answered once the client has closed its side. */
  lemma HalfClosedReply(command: string -> string, stream: string)
    requires LF !in stream && |stream| < 255
    ensures Reply(command, stream) ==
      if |command(stream)| <= 1_048_576 then command(stream) else "RESULT: INVALID\nBODY: Response too large\n"
  {
    assert stream[..|stream|] == stream;
  }

  /** A request whose first 255 bytes hold no line feed is refused. */
  lemma OverflowReply(command: string -> string, stream: string)
    requires |stream| >= 255 && LF !in stream[..255]
    ensures Reply(command, stream) == "RESULT: INVALID\nBODY: Request too large\n"
  {}

  /** Bytes behind the first line feed do not influence the reply. */
  lemma ReplyDependsOnLine(command: string -> string, line: string, a: string, b: string)
    requires LF !in line && |line| < 255
    ensures Reply(command, line + [LF] + a) == Reply(command, line + [LF] + b)
  {
    hide Reply;
    LineReply(command, line, a);
    LineReply(command, line, b);
  }
}
