/** The replay client: the conversation it holds for a postcat file, and the whole way round,
    from a message the server took, through its file and the client, back into a server. */
module Replay {
  import opened Text
  import opened Lines
  import opened Body
  import opened Stuffing
  import opened Commands
  import opened Session
  import opened Invariants
  import opened History
  import opened Runs
  import opened Pipeline
  import opened Refinement
  import opened Scripts
  import opened Replies
  import opened Framing
  import Postcat
  import PostcatRoundTrip

  // ---------------------------------------------------------------- the client

  /** Bytes the client sends, and the reply code it then waits for. */
  datatype Turn = Turn(send: Bytes, want: int)

  function FormatSender(sender: Bytes): Bytes {
    var s := Postcat.FormatNullSender(sender);
    if s == "<>" then "<>" else Bracketed(s)
  }

  const HELLO := "EHLO replay.local"

  function RcptTurns(recipients: seq<Bytes>): seq<Turn> {
    seq(|recipients|, i requires 0 <= i < |recipients| => Turn(LineOf("RCPT TO:" + Bracketed(recipients[i])), 250))
  }

  function OpeningTurns(sender: Bytes): seq<Turn> {
    [Turn("", 220), Turn(LineOf(HELLO), 250), Turn(LineOf("MAIL FROM:" + FormatSender(sender)), 250)]
  }

  function ClosingTurns(body: Bytes): seq<Turn> {
    [Turn(LineOf("DATA"), 354), Turn(Encode(body), 250)]
  }

  /** The conversation for a message, short of the QUIT that ends it. */
  function Turns(msg: Postcat.Message): seq<Turn> {
    OpeningTurns(msg.sender) + RcptTurns(msg.recipients) + ClosingTurns(msg.body)
  }

  /** What is sent when the other side writes `input`, and what is left of `input`; the
      conversation breaks off at the first reply that is not the one wanted. */
  function Converse(turns: seq<Turn>, input: Bytes): (Bytes, Option<Bytes>)
    decreases |turns|
  {
    if turns == [] then ("", Some(input))
    else match Expect(input, turns[0].want)
      case None => (turns[0].send, None)
      case Some(rest) =>
        var (sent, left) := Converse(turns[1..], rest);
        (turns[0].send + sent, left)
  }

  lemma {:induction false} ConverseFurther(a: seq<Turn>, b: seq<Turn>, input: Bytes)
    ensures var (sent, left) := Converse(a, input);
            Converse(a + b, input)
            == if left.None? then (sent, None)
               else (sent + Converse(b, left.value).0, Converse(b, left.value).1)
    decreases |a|
  {
    hide Expect;
    if a == [] {
      assert a + b == b;
      assert "" + Converse(b, input).0 == Converse(b, input).0;
    } else {
      assert (a + b)[1..] == a[1..] + b;
      match Expect(input, a[0].want)
      case None =>
      case Some(rest) =>
        ConverseFurther(a[1..], b, rest);
        var (sent, left) := Converse(a[1..], rest);
        if left.Some? {
          assert a[0].send + (sent + Converse(b, left.value).0) == a[0].send + sent + Converse(b, left.value).0;
        }
    }
  }

  lemma ConverseOne(a: seq<Turn>, t: Turn, input: Bytes)
    requires Converse(a, input).1.Some?
    ensures var rest := Expect(Converse(a, input).1.value, t.want);
            Converse(a + [t], input) == (Converse(a, input).0 + t.send, rest)
  {
    hide Expect;
    ConverseFurther(a, [t], input);
    var left := Converse(a, input).1.value;
    assert [t][1..] == [];
    assert t.send + "" == t.send;
    assert Converse([t], left) == (t.send, Expect(left, t.want));
  }

  /** The whole conversation with a server that writes `input`: whether the replay succeeds, and
      everything that is sent. */
  function Conversation(turns: seq<Turn>, input: Bytes): (bool, Bytes) {
    var (sent, left) := Converse(turns, input);
    if left.Some? then (true, sent + LineOf("QUIT")) else (false, sent)
  }

  /** A conversation that has broken off stays as it is. */
  lemma BrokenOff(done: seq<Turn>, later: seq<Turn>, input: Bytes)
    requires Converse(done, input).1.None?
    ensures Conversation(done + later, input) == (false, Converse(done, input).0)
  {
    ConverseFurther(done, later, input);
    hide Converse;
  }

  /** The replay of a postcat file to a server that writes `input`. A file that cannot be read, or
      that has no recipients or no body, is not sent at all. */
  function ReplayOf(raw: Bytes, clock: Postcat.Clock, input: Bytes): (bool, Bytes) {
    match Postcat.ParseFile(raw, clock)
    case None => (false, "")
    case Some(msg) =>
      if msg.recipients == [] || msg.body == "" then (false, "") else Conversation(Turns(msg), input)
  }

  /** Replays a postcat file to a server that writes `input`. The reply to QUIT is not waited for. */
  method ReplayFile(raw: Bytes, clock: Postcat.Clock, input: Bytes) returns (ok: bool, sent: Bytes)
    ensures (ok, sent) == ReplayOf(raw, clock, input)
  {
    hide Expect;
    hide Converse;
    hide Conversation;
    hide Encode;
    hide FormatSender;
    hide Postcat.ParseFile;
    var parsed := Postcat.Parse(raw, clock);
    if parsed.None? {
      return false, "";
    }
    var msg := parsed.value;
    if |msg.recipients| == 0 || |msg.body| == 0 {
      return false, "";
    }
    ok, sent := HoldConversation(msg, input);
  }

  /** One turn: sends its bytes and reads the reply. `done` turns of `all` lie behind. */
  method TakeTurn(ghost all: seq<Turn>, ghost done: nat, ghost input: Bytes, sent: Bytes, unread: Bytes,
                  send: Bytes, want: int) returns (sent': Bytes, rest: Option<Bytes>)
    requires done < |all| && all[done] == Turn(send, want)
    requires Converse(all[..done], input) == (sent, Some(unread))
    ensures sent' == sent + send && rest == Expect(unread, want)
    ensures Converse(all[..done + 1], input) == (sent', rest)
    ensures rest.None? ==> Conversation(all, input) == (false, sent')
  {
    hide *;
    Further(all, all[..done], all[done], input);
    sent' := sent + send;
    rest := ExpectReply(unread, want);
  }

  /** The conversation of a message with recipients and a body. */
  method HoldConversation(msg: Postcat.Message, input: Bytes) returns (ok: bool, sent: Bytes)
    ensures (ok, sent) == Conversation(Turns(msg), input)
  {
    hide Expect;
    hide Encode;
    hide FormatSender;
    ghost var all := Turns(msg);
    NothingSaid(input);
    TurnsAre(msg);
    assert all[..0] == [];
    hide Turns;
    hide LineOf;
    hide Conversation;
    hide Converse;
    var rest;

    // Greeting, EHLO and MAIL.
    sent, rest := TakeTurn(all, 0, input, "", input, "", 220);
    if rest.None? { return false, sent; }
    sent, rest := TakeTurn(all, 1, input, sent, rest.value, LineOf(HELLO), 250);
    if rest.None? { return false, sent; }
    sent, rest := TakeTurn(all, 2, input, sent, rest.value, LineOf("MAIL FROM:" + FormatSender(msg.sender)), 250);
    if rest.None? { return false, sent; }

    // One RCPT for each recipient.
    for i := 0 to |msg.recipients|
      invariant rest.Some? && Converse(all[..3 + i], input) == (sent, rest)
    {
      var line := LineOf("RCPT TO:" + Bracketed(msg.recipients[i]));
      sent, rest := TakeTurn(all, 3 + i, input, sent, rest.value, line, 250);
      if rest.None? { return false, sent; }
    }

    // DATA and the body.
    ghost var n := 3 + |msg.recipients|;
    sent, rest := TakeTurn(all, n, input, sent, rest.value, LineOf("DATA"), 354);
    if rest.None? { return false, sent; }
    var stuffed := SendBody(msg.body);
    sent, rest := TakeTurn(all, n + 1, input, sent, rest.value, stuffed, 250);
    if rest.None? { return false, sent; }
    assert all[..n + 2] == all;
    ConversationEnds(all, input);
    sent := sent + LineOf("QUIT");
    ok := true;
  }

  lemma TurnsAre(msg: Postcat.Message)
    ensures var all, n := Turns(msg), |msg.recipients|;
            && |all| == n + 5
            && all[0] == Turn("", 220) && all[1] == Turn(LineOf(HELLO), 250)
            && all[2] == Turn(LineOf("MAIL FROM:" + FormatSender(msg.sender)), 250)
            && (forall i :: 0 <= i < n ==> all[3 + i] == Turn(LineOf("RCPT TO:" + Bracketed(msg.recipients[i])), 250))
            && all[n + 3] == Turn(LineOf("DATA"), 354) && all[n + 4] == Turn(Encode(msg.body), 250)
  {
    hide LineOf;
    hide Encode;
    hide FormatSender;
    hide Bracketed;
  }

  lemma ConversationEnds(turns: seq<Turn>, input: Bytes)
    requires Converse(turns, input).1.Some?
    ensures Conversation(turns, input) == (true, Converse(turns, input).0 + LineOf("QUIT"))
  {
  }

  lemma NothingSaid(input: Bytes)
    ensures Converse([], input) == ("", Some(input))
  {
  }

  /** One more turn of a conversation. */
  lemma Further(all: seq<Turn>, done: seq<Turn>, t: Turn, input: Bytes)
    requires |done| < |all| && done == all[..|done|] && t == all[|done|]
    requires Converse(done, input).1.Some?
    ensures var rest := Expect(Converse(done, input).1.value, t.want);
            && Converse(all[..|done| + 1], input) == (Converse(done, input).0 + t.send, rest)
            && (rest.None? ==> Conversation(all, input) == (false, Converse(done, input).0 + t.send))
  {
    hide *;
    ConverseOne(done, t, input);
    var more := done + [t];
    assert all[..|done| + 1] == more;
    assert more + all[|done| + 1..] == all;
    if Converse(more, input).1.None? {
      BrokenOff(more, all[|done| + 1..], input);
    }
  }

  // ---------------------------------------------------------------- the server's side of it

  /** Everything the client sends in a conversation that does not break off. */
  function Sends(turns: seq<Turn>): Bytes {
    if turns == [] then "" else turns[0].send + Sends(turns[1..])
  }

  function Wants(turns: seq<Turn>): seq<int> {
    seq(|turns|, i requires 0 <= i < |turns| => turns[i].want)
  }

  /** A conversation succeeds exactly when the replies come with the codes that are wanted, and
      then the whole script has been sent. */
  lemma {:induction false} ConverseAll(turns: seq<Turn>, input: Bytes)
    ensures Converse(turns, input).1 == ExpectAll(input, Wants(turns))
    ensures Converse(turns, input).1.Some? ==> Converse(turns, input).0 == Sends(turns)
    decreases |turns|
  {
    hide Expect;
    if turns != [] {
      assert Wants(turns)[1..] == Wants(turns[1..]);
      var got := Expect(input, turns[0].want);
      if got.Some? {
        ConverseAll(turns[1..], got.value);
      }
    }
  }

  /** The handler takes everything. */
  ghost predicate TakesAll(h: Handler) {
    forall calls :: h(calls).Some? && h(calls).value.code == 250
  }

  predicate NoData(calls: seq<Call>) {
    forall i :: 0 <= i < |calls| ==> !calls[i].Data?
  }

  /** The envelope that a server with such a handler has built from a conversation. */
  predicate Built(s: Session, from: Bytes, rcpts: seq<Bytes>) {
    && !s.inBdat && s.bodyBuf == "" && s.tx.helo != ""
    && s.phase == (if rcpts == [] then PHASE_MAIL else PHASE_RCPT)
    && s.tx.mailFrom == from && s.tx.params == map[] && s.tx.rcpts == rcpts && s.tx.accepted == rcpts
    && NoData(s.calls) && s.postcats == []
    && Codes(s.replies) == [220, 250, 250] + Repeated(250, |rcpts|)
  }

  function Repeated(code: int, n: nat): seq<int> {
    seq(n, i => code)
  }

  function RcptLines(rcpts: seq<Bytes>): Bytes {
    Sends(RcptTurns(rcpts))
  }

  lemma CodesGrow(replies: seq<Reply>, r: Reply)
    ensures Codes(replies + [r]) == Codes(replies) + [r.code]
  {
  }

  lemma NoDataGrows(calls: seq<Call>, c: Call)
    requires NoData(calls) && !c.Data?
    ensures NoData(calls + [c])
  {
  }

  predicate RcptsAdmitted(cfg: Config, rcpts: seq<Bytes>) {
    && (cfg.maxRecipients > 0 ==> |rcpts| <= cfg.maxRecipients)
    && forall i :: 0 <= i < |rcpts| ==> ValidAddress(rcpts[i])
  }

  lemma RcptBuilds(cfg: Config, h: Handler, s: Session, net: Net, from: Bytes, rcpts: seq<Bytes>, to: Bytes)
    requires TakesAll(h) && Built(s, from, rcpts) && ValidAddress(to)
    requires cfg.maxRecipients > 0 ==> |rcpts| < cfg.maxRecipients
    ensures var o := Exec(cfg, h, s, net, RCPT(to));
            !o.ended && o.net == net && Built(Replied(o), from, rcpts + [to])
  {
    hide ValidAddress;
    var (after, resp) := Rcpt(cfg, h, s, to);
    CodesGrow(s.replies, Reply(resp.code, [resp.message]));
    NoDataGrows(s.calls, RcptTo(s.tx.(rcpts := s.tx.rcpts + [to])));
    hide NoData;
    hide Codes;
    assert [220, 250, 250] + Repeated(250, |rcpts|) + [250] == [220, 250, 250] + Repeated(250, |rcpts| + 1);
  }

  /** The recipients as the server reads them: each up to its first `>`. */
  function Truncated(rcpts: seq<Bytes>): seq<Bytes> {
    seq(|rcpts|, i requires 0 <= i < |rcpts| => UpTo(rcpts[i], '>'))
  }

  lemma {:induction false} RcptsBuild(cfg: Config, h: Handler, s: Session, from: Bytes, done: seq<Bytes>,
                                      todo: seq<Bytes>, tail: Bytes, more: Wire, upgrade: Option<Wire>)
    returns (s': Session)
    requires TakesAll(h) && Built(s, from, done) && RcptsAdmitted(cfg, todo)
    requires cfg.maxRecipients > 0 ==> |done| + |todo| <= cfg.maxRecipients
    ensures Built(s', from, done + Truncated(todo))
    ensures Serve(cfg, h, s, Net([RcptLines(todo) + tail] + more, upgrade))
            == Serve(cfg, h, s', Net([tail] + more, upgrade))
    decreases |todo|
  {
    hide Serve;
    hide ParseCommand;
    hide Exec;
    hide TakesAll;
    hide Built;
    hide ValidAddress;
    hide UpTo;
    if todo == [] {
      s' := s;
      assert RcptLines(todo) + tail == tail;
      assert done + Truncated(todo) == done;
    } else {
      var to := UpTo(todo[0], '>');
      var text := "RCPT TO:" + Bracketed(todo[0]);
      var rest := RcptLines(todo[1..]) + tail;
      ParsesRcpt(todo[0]);
      ValidUpTo(todo[0], '>');
      assert RcptTurns(todo)[1..] == RcptTurns(todo[1..]);
      assert RcptLines(todo) + tail == LineOf(text) + rest;
      hide RcptLines;
      ServeOne(cfg, h, s, text, rest, more, upgrade);
      RcptBuilds(cfg, h, s, Net([rest] + more, upgrade), from, done, to);
      var o := Exec(cfg, h, s, Net([rest] + more, upgrade), RCPT(to));
      assert done + [to] + Truncated(todo[1..]) == done + Truncated(todo);
      s' := RcptsBuild(cfg, h, Replied(o), from, done + [to], todo[1..], tail, more, upgrade);
    }
  }

  /** After the greeting. */
  predicate Greeted(s: Session) {
    && !s.inBdat && s.bodyBuf == "" && s.tx.helo != "" && s.phase == PHASE_HELO
    && NoData(s.calls) && s.postcats == [] && Codes(s.replies) == [220, 250]
  }

  lemma EhloGreets(cfg: Config, h: Handler, tls: bool, net: Net)
    requires TakesAll(h)
    ensures var o := Exec(cfg, h, Start(cfg, tls), net, EHLO("replay.local"));
            !o.ended && o.net == net && Greeted(Replied(o)) && Replied(o).tls == tls
  {
    var s := Start(cfg, tls);
    assert ValidDomain("replay.local");
    hide ValidDomain;
    var (after, reply) := Greet(cfg, h, s, "replay.local", true);
    CodesGrow(s.replies, reply);
  }

  lemma MailBuilds(cfg: Config, h: Handler, s: Session, net: Net, from: Bytes)
    requires TakesAll(h) && Greeted(s) && (cfg.requireTLS ==> s.tls)
    ensures var o := Exec(cfg, h, s, net, MAIL(Some(MailArgs(from, map[]))));
            !o.ended && o.net == net && Built(Replied(o), from, [])
  {
    var (after, resp) := Mail(cfg, h, s, Some(MailArgs(from, map[])));
    CodesGrow(s.replies, Reply(resp.code, [resp.message]));
    NoDataGrows(s.calls, MailFrom(Opened(s, MailArgs(from, map[])).tx));
    hide NoData;
    hide Codes;
    assert [220, 250] + [250] == [220, 250, 250] + Repeated(250, 0);
  }

  lemma OpeningBuilds(cfg: Config, h: Handler, tls: bool, sender: Bytes, from: Bytes, tail: Bytes, more: Wire,
                      upgrade: Option<Wire>) returns (s: Session)
    requires TakesAll(h) && (cfg.requireTLS ==> tls)
    requires FormatSender(sender) == Bracketed(from) && ValidReversePath(from)
    ensures Built(s, from, [])
    ensures Serve(cfg, h, Start(cfg, tls), Net([Sends(OpeningTurns(sender)) + tail] + more, upgrade))
            == Serve(cfg, h, s, Net([tail] + more, upgrade))
  {
    hide Serve;
    hide ParseCommand;
    hide Exec;
    hide TakesAll;
    hide Bracketed;
    var mail := "MAIL FROM:" + FormatSender(sender);
    var later := LineOf(mail) + tail;
    OpeningSends(sender);
    assert Sends(OpeningTurns(sender)) + tail == LineOf(HELLO) + later;
    hide Sends;
    ParsesEhlo();
    ParsesMail(from);
    EhloGreets(cfg, h, tls, Net([later] + more, upgrade));
    hide LineOf;
    ServeOne(cfg, h, Start(cfg, tls), HELLO, later, more, upgrade);
    var s1 := Replied(Exec(cfg, h, Start(cfg, tls), Net([later] + more, upgrade), EHLO("replay.local")));
    MailBuilds(cfg, h, s1, Net([tail] + more, upgrade), from);
    ServeOne(cfg, h, s1, mail, tail, more, upgrade);
    s := Replied(Exec(cfg, h, s1, Net([tail] + more, upgrade), MAIL(Some(MailArgs(from, map[])))));
  }

  lemma OpeningSends(sender: Bytes)
    ensures Sends(OpeningTurns(sender)) == LineOf(HELLO) + LineOf("MAIL FROM:" + FormatSender(sender))
  {
    hide LineOf;
    hide FormatSender;
    var turns := OpeningTurns(sender);
    assert Sends(turns[3..]) == "";
    assert turns[2..][1..] == turns[3..];
    assert turns[1..][1..] == turns[2..];
    assert Sends(turns[2..]) == turns[2].send + Sends(turns[3..]);
    assert Sends(turns[1..]) == turns[1].send + Sends(turns[2..]);
  }

  predicate IsDelivery(call: Call, from: Bytes, rcpts: seq<Bytes>, body: Bytes) {
    call.Data? && call.tx.mailFrom == from && call.tx.accepted == rcpts && call.body == body
  }

  /** The message has been delivered, once and whole, and nothing else has. */
  predicate Delivered(cfg: Config, s: Session, from: Bytes, rcpts: seq<Bytes>, body: Bytes) {
    && s.calls != [] && NoData(s.calls[..|s.calls| - 1])
    && IsDelivery(s.calls[|s.calls| - 1], from, rcpts, body)
    && s.postcats == if cfg.postcat then [Record(from, rcpts, body)] else []
  }

  /** The message has not been delivered, and nothing else has. */
  predicate Undelivered(s: Session) {
    NoData(s.calls) && s.postcats == []
  }

  /** The body gets through: its stuffed lines fit, the size limit admits its canonical form, and
      that is 7-bit, since a replay declares no BODY parameter. */
  predicate GetsThrough(body: Bytes, max: int) {
    LinesFit(body) && SizeFits(body, max) && !Contains8Bit(Canonical(body))
  }

  /** What DATA comes to: the canonical form of the body is delivered if and only if it gets
      through. */
  predicate Concluded(cfg: Config, s: Session, from: Bytes, rcpts: seq<Bytes>, body: Bytes) {
    if GetsThrough(body, cfg.maxMessageSize) then Delivered(cfg, s, from, rcpts, Canonical(body))
    else Undelivered(s)
  }

  lemma DataConcludes(cfg: Config, h: Handler, s: Session, from: Bytes, rcpts: seq<Bytes>, body: Bytes, tail: Bytes,
                    more: Wire, upgrade: Option<Wire>) returns (code: int)
    requires TakesAll(h) && Built(s, from, rcpts) && rcpts != []
    ensures var o := Exec(cfg, h, s, Net([Encode(body) + tail] + more, upgrade), DATA);
            && !o.ended && o.net == Net([tail] + more, upgrade)
            && Concluded(cfg, Replied(o), from, rcpts, body)
            && Codes(Replied(o).replies) == Codes(s.replies) + [354, code]
    ensures code == 250 <==> GetsThrough(body, cfg.maxMessageSize)
  {
    hide Canonical;
    hide LinesFit;
    hide Encode;
    hide Contains8Bit;
    hide SizeFits;
    DotStuffingRoundTrip(body, cfg.maxMessageSize, tail, more);
    hide ReadBody;
    var net := Net([Encode(body) + tail] + more, upgrade);
    var begun := Said(s, Some(Reply(354, [GoAhead])));
    var (after, resp) := DataBody(cfg, h, begun, ReadBody(net.wire, cfg.maxMessageSize).0);
    code := resp.code;
    CodesGrow(s.replies, Reply(354, [GoAhead]));
    CodesGrow(begun.replies, Reply(resp.code, [resp.message]));
    assert Codes(s.replies) + [354] + [code] == Codes(s.replies) + [354, code];
    assert GetsThrough(body, cfg.maxMessageSize) ==> after.calls[..|s.calls|] == s.calls;
    hide NoData;
    hide Codes;
  }

  lemma QuitCloses(cfg: Config, h: Handler, s: Session, upgrade: Option<Wire>)
    ensures Serve(cfg, h, s, Net([LineOf("QUIT") + ""] + [], upgrade))
            == Final(Said(s, Some(Reply(221, [Bye]))), Net([""] + [], upgrade))
  {
    ParsesQuit();
    hide ParseCommand;
    QuitSays(cfg, h, s, Net([""] + [], upgrade));
    hide Exec;
    hide Serve;
    hide LineOf;
    ServeOne(cfg, h, s, "QUIT", "", [], upgrade);
  }

  lemma NothingMore(cfg: Config, h: Handler, s: Session, upgrade: Option<Wire>)
    ensures Serve(cfg, h, s, Net([""] + [], upgrade)).s == s
  {
    hide Exec;
  }

  lemma ClosingConcludes(cfg: Config, h: Handler, s: Session, from: Bytes, rcpts: seq<Bytes>, body: Bytes, tail: Bytes,
                       upgrade: Option<Wire>) returns (s': Session, code: int)
    requires TakesAll(h) && Built(s, from, rcpts) && rcpts != []
    ensures Serve(cfg, h, s, Net([Sends(ClosingTurns(body)) + tail] + [], upgrade))
            == Serve(cfg, h, s', Net([tail] + [], upgrade))
    ensures Concluded(cfg, s', from, rcpts, body) && Codes(s'.replies) == Codes(s.replies) + [354, code]
    ensures code == 250 <==> GetsThrough(body, cfg.maxMessageSize)
  {
    assert LF !in "DATA" && |"DATA"| <= MAX_LINE;
    hide *;
    ClosingSends(body);
    var rest := Encode(body) + tail;
    assert Sends(ClosingTurns(body)) + tail == LineOf("DATA") + rest;
    ParsesData();
    ServeOne(cfg, h, s, "DATA", rest, [], upgrade);
    code := DataConcludes(cfg, h, s, from, rcpts, body, tail, [], upgrade);
    s' := Replied(Exec(cfg, h, s, Net([rest] + [], upgrade), DATA));
  }

  lemma SaidConcluded(cfg: Config, s: Session, reply: Option<Reply>, from: Bytes, rcpts: seq<Bytes>, body: Bytes)
    requires Concluded(cfg, s, from, rcpts, body)
    ensures Concluded(cfg, Said(s, reply), from, rcpts, body)
  {
    hide GetsThrough;
    hide Canonical;
  }

  lemma ClosingSends(body: Bytes)
    ensures Sends(ClosingTurns(body)) == LineOf("DATA") + Encode(body)
  {
    hide LineOf;
    hide Encode;
    var turns := ClosingTurns(body);
    assert turns[1..][1..] == [];
    assert turns[1..] == [turns[1]];
    assert Sends(turns[1..]) == turns[1].send + Sends([]);
  }

  // ---------------------------------------------------------------- both sides

  lemma {:induction false} SendsConcat(a: seq<Turn>, b: seq<Turn>)
    ensures Sends(a + b) == Sends(a) + Sends(b)
    decreases |a|
  {
    if a == [] {
      assert a + b == b;
    } else {
      assert (a + b)[1..] == a[1..] + b;
      SendsConcat(a[1..], b);
    }
  }

  /** The codes of the replies up to the end of DATA, whose code is `last`. */
  function ScriptCodes(n: nat, last: int): seq<int> {
    [220, 250, 250] + Repeated(250, n) + [354, last]
  }

  /** A server that takes everything, given all turns of a conversation. */
  lemma TurnsConclude(cfg: Config, h: Handler, tls: bool, msg: Postcat.Message, from: Bytes, tail: Bytes,
                    upgrade: Option<Wire>) returns (s: Session, code: int)
    requires TakesAll(h) && (cfg.requireTLS ==> tls)
    requires FormatSender(msg.sender) == Bracketed(from) && ValidReversePath(from)
    requires msg.recipients != [] && RcptsAdmitted(cfg, msg.recipients)
    ensures Serve(cfg, h, Start(cfg, tls), Net([Sends(Turns(msg)) + tail] + [], upgrade))
            == Serve(cfg, h, s, Net([tail] + [], upgrade))
    ensures Concluded(cfg, s, from, Truncated(msg.recipients), msg.body)
    ensures Codes(s.replies) == ScriptCodes(|msg.recipients|, code)
    ensures code == 250 <==> GetsThrough(msg.body, cfg.maxMessageSize)
  {
    hide Serve;
    hide Sends;
    hide TakesAll;
    hide Concluded;
    hide GetsThrough;
    hide FormatSender;
    hide ValidAddress;
    hide LineOf;
    hide UpTo;
    SendsConcat(OpeningTurns(msg.sender) + RcptTurns(msg.recipients), ClosingTurns(msg.body));
    SendsConcat(OpeningTurns(msg.sender), RcptTurns(msg.recipients));
    var closing := Sends(ClosingTurns(msg.body)) + tail;
    var envelope := RcptLines(msg.recipients) + closing;
    assert Sends(Turns(msg)) + tail == Sends(OpeningTurns(msg.sender)) + envelope;
    hide Turns;
    hide OpeningTurns;
    hide RcptLines;
    hide ClosingTurns;
    var s1 := OpeningBuilds(cfg, h, tls, msg.sender, from, envelope, [], upgrade);
    assert [] + Truncated(msg.recipients) == Truncated(msg.recipients);
    var s2 := RcptsBuild(cfg, h, s1, from, [], msg.recipients, closing, [], upgrade);
    s, code := ClosingConcludes(cfg, h, s2, from, Truncated(msg.recipients), msg.body, tail, upgrade);
    hide Codes;
  }

  lemma TurnsWant(msg: Postcat.Message)
    ensures Wants(Turns(msg)) == ScriptCodes(|msg.recipients|, 250)
  {
    hide LineOf;
    hide Encode;
    hide FormatSender;
  }

  lemma {:induction false} ExpectFewer(input: Bytes, a: seq<int>, b: seq<int>)
    requires ExpectAll(input, a + b).Some?
    ensures ExpectAll(input, a).Some?
    decreases |a|
  {
    hide Expect;
    if a != [] {
      assert (a + b)[1..] == a[1..] + b;
      ExpectFewer(Expect(input, a[0]).value, a[1..], b);
    }
  }

  /** A client that meets the codes it wants, and then one for its QUIT, succeeds. */
  lemma ClientSucceeds(turns: seq<Turn>, replies: seq<Reply>, last: int)
    requires AllFramed(replies) && Codes(replies) == Wants(turns) + [last]
    ensures Conversation(turns, RenderAll(replies)) == (true, Sends(turns) + LineOf("QUIT"))
  {
    assert |Wants(turns) + [last]| == |replies|;
    hide Wants;
    hide AllFramed;
    hide RenderAll;
    hide Sends;
    hide LineOf;
    assert RenderAll(replies) + "" == RenderAll(replies);
    RepliesDecodeUniquely(replies, "", Wants(turns) + [last]);
    ExpectFewer(RenderAll(replies), Wants(turns), [last]);
    ConverseAll(turns, RenderAll(replies));
    hide Converse;
    hide ExpectAll;
  }

  /** A client whose last turn meets another code has sent everything short of QUIT, and fails. */
  lemma ClientFails(turns: seq<Turn>, t: Turn, replies: seq<Reply>, code: int)
    requires AllFramed(replies) && Codes(replies) == Wants(turns) + [code] && code != t.want
    ensures Conversation(turns + [t], RenderAll(replies)) == (false, Sends(turns + [t]))
  {
    var n := |replies| - 1;
    var front, r := replies[..n], replies[n];
    assert replies == front + [r];
    assert |Wants(turns)| == n && Codes(replies)[n] == code;
    assert Codes(front) == Codes(replies)[..n];
    assert Codes(replies)[..n] == Wants(turns);
    RenderAllConcat(front, [r]);
    RenderAllOne(r);
    hide RenderAll;
    hide Codes;
    hide Wants;
    hide Framed;
    RepliesDecodeUniquely(front, Render(r), Wants(turns));
    assert Render(r) + "" == Render(r);
    ReplyDecodes(r, "", t.want);
    hide Render;
    ConverseAll(turns, RenderAll(replies));
    ConverseOne(turns, t, RenderAll(replies));
    SendsConcat(turns, [t]);
    SendsOne(t);
    hide Sends;
    hide Converse;
    hide ExpectAll;
    hide Expect;
  }

  lemma SendsOne(t: Turn)
    ensures Sends([t]) == t.send
  {
    assert [t][1..] == [];
    assert t.send + "" == t.send;
  }

  lemma StartFramed(cfg: Config, tls: bool)
    requires OneLine(cfg.hostname)
    ensures AllFramed(Start(cfg, tls).replies)
  {
    ServerTextOneLine(cfg, Banner(cfg.hostname));
    hide TextOf;
    hide OneLine;
  }

  /** Where a replay goes: a server that takes everything and whose limits admit the message. */
  ghost predicate Admits(cfg: Config, h: Handler, tls: bool, rcpts: seq<Bytes>, body: Bytes) {
    && TakesAll(h) && PoliteHandler(h) && OneLine(cfg.hostname)
    && (cfg.requireTLS ==> tls)
    && (cfg.maxRecipients > 0 ==> |rcpts| <= cfg.maxRecipients)
    && (cfg.maxMessageSize > 0 ==> |body| <= cfg.maxMessageSize)
  }

  /** An envelope as the handler sees it with a body. */
  predicate Enveloped(from: Bytes, rcpts: seq<Bytes>) {
    ValidReversePath(from) && rcpts != [] && forall r :: r in rcpts ==> ValidAddress(r)
  }

  /** Client and server, all the way: what is sent is what the client sends to the server that
      answers just that; the replay succeeds if and only if the body gets through. */
  lemma ClientMeetsServer(cfg: Config, h: Handler, tls: bool, msg: Postcat.Message, from: Bytes, upgrade: Option<Wire>)
    returns (ok: bool, sent: Bytes)
    requires Enveloped(from, msg.recipients) && Admits(cfg, h, tls, msg.recipients, msg.body)
    requires FormatSender(msg.sender) == Bracketed(from)
    ensures var end := Serve(cfg, h, Start(cfg, tls), Net([sent] + [], upgrade)).s;
            && (ok, sent) == Conversation(Turns(msg), RenderAll(end.replies))
            && Concluded(cfg, end, from, Truncated(msg.recipients), msg.body)
    ensures ok <==> GetsThrough(msg.body, cfg.maxMessageSize)
  {
    assert RcptsAdmitted(cfg, msg.recipients) by {
      assert forall i :: 0 <= i < |msg.recipients| ==> msg.recipients[i] in msg.recipients;
    }
    hide ValidAddress;
    hide TakesAll;
    hide PoliteHandler;
    hide OneLine;
    hide Concluded;
    hide GetsThrough;
    hide Serve;
    ok := GetsThrough(msg.body, cfg.maxMessageSize);
    var tail := if ok then LineOf("QUIT") + "" else "";
    sent := Sends(Turns(msg)) + tail;
    var s, code := TurnsConclude(cfg, h, tls, msg, from, tail, upgrade);
    var end := Serve(cfg, h, Start(cfg, tls), Net([sent] + [], upgrade)).s;
    StartFramed(cfg, tls);
    RunAnswers(cfg, h, Start(cfg, tls), Net([sent] + [], upgrade));
    TurnsWant(msg);
    if ok {
      QuitCloses(cfg, h, s, upgrade);
      CodesGrow(s.replies, Reply(221, [Bye]));
      SaidConcluded(cfg, s, Some(Reply(221, [Bye])), from, Truncated(msg.recipients), msg.body);
      hide *;
      assert LineOf("QUIT") + "" == LineOf("QUIT");
      ClientSucceeds(Turns(msg), end.replies, 221);
    } else {
      NothingMore(cfg, h, s, upgrade);
      LastTurn(msg);
      hide *;
      assert Sends(Turns(msg)) + "" == Sends(Turns(msg));
      var turns := Turns(msg);
      var n := |turns| - 1;
      ClientFails(turns[..n], turns[n], end.replies, code);
    }
  }

  /** The last turn of a conversation sends the body and waits for 250. */
  lemma LastTurn(msg: Postcat.Message)
    ensures var turns := Turns(msg);
            var n := |turns| - 1;
            && n >= 0 && turns == turns[..n] + [turns[n]] && turns[n].want == 250
            && forall code :: ScriptCodes(|msg.recipients|, code) == Wants(turns[..n]) + [code]
  {
    hide LineOf;
    hide Encode;
    hide FormatSender;
  }

  // ---------------------------------------------------------------- all the way round

  lemma SanitizedStays(rcpts: seq<Bytes>)
    requires forall r :: r in rcpts ==> ValidAddress(r)
    ensures Postcat.SanitizeAll(rcpts) == rcpts
  {
    forall i | 0 <= i < |rcpts|
      ensures Postcat.SanitizeAddr(rcpts[i]) == rcpts[i]
    {
      assert rcpts[i] in rcpts;
      ValidIsOneLine(rcpts[i]);
    }
  }

  lemma SenderStays(from: Bytes)
    requires ValidReversePath(from)
    ensures FormatSender(Postcat.SanitizeAddr(Postcat.FormatNullSender(from))) == Bracketed(from)
  {
    ValidIsOneLine(from);
    var sender := Postcat.FormatNullSender(from);
    if from == "" {
      assert CR !in sender && LF !in sender;
      assert Bracketed("") == "<>";
    } else {
      assert "<>"[1] == '>';
    }
  }

  /** The file of a message with a valid envelope reads as that message. */
  lemma FileTells(from: Bytes, rcpts: seq<Bytes>, body: Bytes, time: Bytes, clock: Postcat.Clock)
    returns (msg: Postcat.Message)
    requires Enveloped(from, rcpts) && CR !in time && LF !in time && clock(time).Some?
    ensures Postcat.ParseFile(Postcat.FormatEnvelope(from, rcpts, time, body), clock) == Some(msg)
    ensures msg.recipients == rcpts && msg.body == body && FormatSender(msg.sender) == Bracketed(from)
  {
    SanitizedStays(rcpts);
    SenderStays(from);
    PostcatRoundTrip.PostcatRoundTrip(from, rcpts, time, body, "\n", clock);
    msg := PostcatRoundTrip.Restored(from, rcpts, clock(time), body);
    hide FormatSender;
    hide Postcat.SanitizeAddr;
  }

  /** A message that comes through unchanged: not empty, 7-bit, in canonical form with lines that
      fit, and no `>` in a recipient. */
  predicate Replayable(rcpts: seq<Bytes>, body: Bytes) {
    && body != "" && Canonical(body) == body && LinesFit(body) && !Contains8Bit(body)
    && forall r :: r in rcpts ==> '>' !in r
  }

  lemma TruncatedStays(rcpts: seq<Bytes>)
    ensures Truncated(rcpts) == rcpts <==> forall r :: r in rcpts ==> '>' !in r
  {
    forall i | 0 <= i < |rcpts|
      ensures UpTo(rcpts[i], '>') == rcpts[i] <==> '>' !in rcpts[i]
    {
      UpToStays(rcpts[i], '>');
    }
    hide UpTo;
    assert forall i :: 0 <= i < |rcpts| ==> rcpts[i] in rcpts;
    if Truncated(rcpts) == rcpts {
      assert forall i :: 0 <= i < |rcpts| ==> Truncated(rcpts)[i] == rcpts[i];
    }
  }

  lemma DeliveredBodyTells(cfg: Config, s: Session, from: Bytes, rcpts: seq<Bytes>, body: Bytes,
                           rcpts': seq<Bytes>, body': Bytes)
    requires Delivered(cfg, s, from, rcpts, body)
    ensures Delivered(cfg, s, from, rcpts', body') <==> rcpts == rcpts' && body == body'
  {
  }

  lemma UndeliveredTells(cfg: Config, s: Session, from: Bytes, rcpts: seq<Bytes>, body: Bytes)
    requires Undelivered(s)
    ensures !Delivered(cfg, s, from, rcpts, body)
  {
  }

  /** What a replay has delivered is the message itself exactly when it is replayable. */
  lemma ConcludedIsDelivered(cfg: Config, s: Session, from: Bytes, rcpts: seq<Bytes>, body: Bytes)
    requires Concluded(cfg, s, from, Truncated(rcpts), body) && body != ""
    requires cfg.maxMessageSize > 0 ==> |body| <= cfg.maxMessageSize
    ensures Delivered(cfg, s, from, rcpts, body) <==> Replayable(rcpts, body)
  {
    TruncatedStays(rcpts);
    hide Truncated;
    hide Canonical;
    hide LinesFit;
    hide Contains8Bit;
    hide Delivered;
    hide Undelivered;
    if GetsThrough(body, cfg.maxMessageSize) {
      DeliveredBodyTells(cfg, s, from, Truncated(rcpts), Canonical(body), rcpts, body);
    } else {
      UndeliveredTells(cfg, s, from, rcpts, body);
    }
  }

  /** However reader and worker of the connection are interleaved, when the worker has left the
      message has been delivered if and only if `yes`. */
  ghost predicate UnderEverySchedule(cfg: Config, h: Handler, s: Session, net: Net, from: Bytes,
                                     rcpts: seq<Bytes>, body: Bytes, yes: bool) {
    forall actions :: CanRun(cfg, h, Init(s, net), actions) && Cancel !in actions
        && Run(cfg, h, Init(s, net), actions).worker.Exited?
      ==> (Delivered(cfg, Run(cfg, h, Init(s, net), actions).s, from, rcpts, body) <==> yes)
  }

  lemma EverySchedule(cfg: Config, h: Handler, s: Session, net: Net, from: Bytes, rcpts: seq<Bytes>, body: Bytes)
    ensures UnderEverySchedule(cfg, h, s, net, from, rcpts, body,
                               Delivered(cfg, Serve(cfg, h, s, net).s, from, rcpts, body))
  {
    hide Serve;
    hide Run;
    hide CanRun;
    hide Delivered;
    var yes := Delivered(cfg, Serve(cfg, h, s, net).s, from, rcpts, body);
    forall actions | CanRun(cfg, h, Init(s, net), actions) && Cancel !in actions
        && Run(cfg, h, Init(s, net), actions).worker.Exited?
      ensures Delivered(cfg, Run(cfg, h, Init(s, net), actions).s, from, rcpts, body) <==> yes
    {
      PipeliningInvisible(cfg, h, s, net, actions);
    }
  }

  /** From an envelope and a body through their file and the client into a server. */
  lemma FileReplays(from: Bytes, rcpts: seq<Bytes>, body: Bytes, time: Bytes, clock: Postcat.Clock,
                    cfg: Config, h: Handler, tls: bool, upgrade: Option<Wire>)
    returns (ok: bool, sent: Bytes)
    requires Enveloped(from, rcpts) && Admits(cfg, h, tls, rcpts, body)
    requires CR !in time && LF !in time && clock(time).Some?
    ensures var net := Net([sent] + [], upgrade);
            var end := Serve(cfg, h, Start(cfg, tls), net).s;
            && (ok, sent) == ReplayOf(Postcat.FormatEnvelope(from, rcpts, time, body), clock, RenderAll(end.replies))
            && (ok <==> body != "" && GetsThrough(body, cfg.maxMessageSize))
            && (if ok then Delivered(cfg, end, from, Truncated(rcpts), Canonical(body)) else Undelivered(end))
            && (Delivered(cfg, end, from, rcpts, body) <==> Replayable(rcpts, body))
  {
    var msg := FileTells(from, rcpts, body, time, clock);
    assert cfg.maxMessageSize > 0 ==> |body| <= cfg.maxMessageSize;
    assert rcpts != [];
    if body == "" {
      ok, sent := false, "";
      NothingMore(cfg, h, Start(cfg, tls), upgrade);
      hide Serve;
      UndeliveredTells(cfg, Start(cfg, tls), from, rcpts, body);
    } else {
      hide *;
      ok, sent := ClientMeetsServer(cfg, h, tls, msg, from, upgrade);
      var end := Serve(cfg, h, Start(cfg, tls), Net([sent] + [], upgrade)).s;
      ConcludedIsDelivered(cfg, end, from, rcpts, body);
      ConcludedMeans(cfg, end, from, Truncated(rcpts), body);
      ReplayIs(Postcat.FormatEnvelope(from, rcpts, time, body), clock, msg, RenderAll(end.replies));
    }
  }

  lemma ConcludedMeans(cfg: Config, s: Session, from: Bytes, rcpts: seq<Bytes>, body: Bytes)
    requires Concluded(cfg, s, from, rcpts, body)
    ensures if GetsThrough(body, cfg.maxMessageSize) then Delivered(cfg, s, from, rcpts, Canonical(body))
            else Undelivered(s)
  {
  }

  lemma ReplayIs(raw: Bytes, clock: Postcat.Clock, msg: Postcat.Message, input: Bytes)
    requires Postcat.ParseFile(raw, clock) == Some(msg) && msg.recipients != [] && msg.body != ""
    ensures ReplayOf(raw, clock, input) == Conversation(Turns(msg), input)
  {
  }

  /** A file without recipients, and one without a body, is not sent, whatever the server writes. */
  lemma NothingToReplay(from: Bytes, rcpts: seq<Bytes>, body: Bytes, time: Bytes, clock: Postcat.Clock, input: Bytes)
    requires CR !in time && LF !in time && clock(time).Some? && (rcpts == [] || body == "")
    ensures ReplayOf(Postcat.FormatEnvelope(from, rcpts, time, body), clock, input) == (false, "")
  {
    PostcatRoundTrip.PostcatRoundTrip(from, rcpts, time, body, "\n", clock);
    hide Postcat.ParseFile;
    hide Postcat.FormatEnvelope;
    hide Conversation;
    hide Turns;
  }

  /** A Data callback of a session. */
  predicate IsDataCall(cfg: Config, h: Handler, tls: bool, net: Net, j: nat) {
    j < |Serve(cfg, h, Start(cfg, tls), net).s.calls| && Serve(cfg, h, Start(cfg, tls), net).s.calls[j].Data?
  }

  function DataCall(cfg: Config, h: Handler, tls: bool, net: Net, j: nat): (call: Call)
    requires IsDataCall(cfg, h, tls, net, j)
    ensures call.Data?
  {
    Serve(cfg, h, Start(cfg, tls), net).s.calls[j]
  }

  lemma CallEnveloped(cfg: Config, h: Handler, tls: bool, net: Net, j: nat)
    requires Representable(cfg) && IsDataCall(cfg, h, tls, net, j)
    ensures var call := DataCall(cfg, h, tls, net, j); Enveloped(call.tx.mailFrom, call.tx.accepted)
  {
    SessionHistory(cfg, h, tls, net);
    hide Serve;
    var calls := Serve(cfg, h, Start(cfg, tls), net).s.calls;
    assert DataFits(cfg, h, calls[..j], calls[j]);
  }

  /** All the way round, for every message that any session hands to its handler, by DATA or by
      BDAT: its file is written, parsed and replayed to a server that takes everything and admits
      it. `sent` is what the client sends to the server that answers just that. The second
      server's handler sees the same sender, the same recipients in order and the same body, in
      exactly one Data callback, if and only if the message is replayable, and that under every
      interleaving of reader and worker. The replay reports success whenever it delivers
      anything; then each recipient has been cut off at its first `>` and the body is the
      canonical form. */
  lemma EndToEnd(cfg1: Config, h1: Handler, tls1: bool, net1: Net, j: nat, time: Bytes, clock: Postcat.Clock,
                 cfg: Config, h: Handler, tls: bool, upgrade: Option<Wire>) returns (ok: bool, sent: Bytes)
    requires Representable(cfg1) && IsDataCall(cfg1, h1, tls1, net1, j)
    requires var call := DataCall(cfg1, h1, tls1, net1, j); Admits(cfg, h, tls, call.tx.accepted, call.body)
    requires CR !in time && LF !in time && clock(time).Some?
    ensures var call := DataCall(cfg1, h1, tls1, net1, j);
            var (from, rcpts, body) := (call.tx.mailFrom, call.tx.accepted, call.body);
            var net := Net([sent] + [], upgrade);
            var end := Serve(cfg, h, Start(cfg, tls), net).s;
            && (ok, sent) == ReplayOf(Postcat.FormatEnvelope(from, rcpts, time, body), clock, RenderAll(end.replies))
            && (Delivered(cfg, end, from, rcpts, body) <==> Replayable(rcpts, body))
            && UnderEverySchedule(cfg, h, Start(cfg, tls), net, from, rcpts, body, Replayable(rcpts, body))
            && (if ok then Delivered(cfg, end, from, Truncated(rcpts), Canonical(body)) else Undelivered(end))
  {
    CallEnveloped(cfg1, h1, tls1, net1, j);
    hide *;
    var call := DataCall(cfg1, h1, tls1, net1, j);
    var (from, rcpts, body) := (call.tx.mailFrom, call.tx.accepted, call.body);
    ok, sent := FileReplays(from, rcpts, body, time, clock, cfg, h, tls, upgrade);
    EverySchedule(cfg, h, Start(cfg, tls), Net([sent] + [], upgrade), from, rcpts, body);
  }

  /** A message handed over by DATA is replayable if and only if it is not empty, is 7-bit and has
      no `>` in a recipient. */
  lemma DataIsReplayable(cfg: Config, h: Handler, tls: bool, net: Net, j: nat) returns (i: nat)
    requires Representable(cfg) && IsDataCall(cfg, h, tls, net, j)
    ensures var call := DataCall(cfg, h, tls, net, j);
            var steps := Steps(cfg, h, Start(cfg, tls), net);
            && i < |steps| && |steps[i].before.calls| == j && call.tx == steps[i].before.tx
            && (steps[i].cmd.DATA? ==>
                  (Replayable(call.tx.accepted, call.body)
                   <==> && call.body != "" && !Contains8Bit(call.body)
                        && forall r :: r in call.tx.accepted ==> '>' !in r))
  {
    i := BodyProvenance(cfg, h, tls, net, j);
    hide Serve;
    hide Steps;
    hide ReadBody;
    hide Canonical;
    hide LinesFit;
    hide Contains8Bit;
    var step := Steps(cfg, h, Start(cfg, tls), net)[i];
    if step.cmd.DATA? {
      DeliveredBody(step.net.wire, cfg.maxMessageSize);
    }
  }
}
