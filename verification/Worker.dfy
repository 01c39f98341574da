/** The server's side of a connection as a program: fields updated in place, command by command,
    and bytes written as they are produced. Every method does what the session machine says. */
module Worker {
  import opened Text
  import opened Lines
  import opened Body
  import opened Commands
  import opened Session
  import opened Replies

  /** What the reader passes on: a verb and its argument text, or an over-long line. */
  datatype Event = Command(verb: Bytes, args: Bytes) | OverLong

  function CmdOf(e: Event): Cmd {
    match e
    case Command(verb, args) => CommandOf(verb, args)
    case OverLong => TOOLONG
  }

  lemma RenderOne(resp: Response)
    ensures Render(Reply(resp.code, [resp.message])) == RenderLine(resp.code, true, TextOf(resp.message))
  {
    hide TextOf;
    hide RenderLine;
    assert [resp.message][1..] == [];
    assert RenderLines(resp.code, []) == "";
    assert Render(Reply(resp.code, [resp.message]))
        == RenderLine(resp.code, true, TextOf(resp.message)) + RenderLines(resp.code, [resp.message][1..]);
  }

  lemma RenderAllAppend(replies: seq<Reply>, r: Reply)
    ensures RenderAll(replies + [r]) == RenderAll(replies) + Render(r)
  {
    RenderAllConcat(replies, [r]);
    RenderAllOne(r);
  }

  class Connection {
    const cfg: Config
    const h: Handler
    /** How much buffer each fragment of a line finds. */
    const rooms: nat -> nat

    var r: BufReader
    /** The decrypted stream a STARTTLS handshake would switch to. */
    var upgrade: Option<Wire>
    var phase: nat
    var inBdat: bool
    var tx: Tx
    var bodyBuf: Bytes
    var tls: bool
    /** Everything written to the client. */
    var out: Bytes
    var calls: seq<Call>
    var postcats: seq<Record>
    /** The replies that were written. */
    ghost var replies: seq<Reply>

    ghost predicate Valid()
      reads this
    {
      out == RenderAll(replies) && forall i :: rooms(i) > 0
    }

    ghost function State(): Session
      reads this
    {
      Session(phase, inBdat, tx, bodyBuf, tls, calls, replies, postcats)
    }

    ghost function Unread(): Net
      reads this, r
    {
      Net(r.wire, upgrade)
    }

    constructor (cfg: Config, h: Handler, rooms: nat -> nat, tls: bool, wire: Wire, upgrade: Option<Wire>)
      requires forall i :: rooms(i) > 0
      ensures Valid() && fresh(r) && this.cfg == cfg && this.h == h
      ensures State() == Start(cfg, tls) && Unread() == Net(wire, upgrade)
    {
      this.cfg, this.h, this.rooms := cfg, h, rooms;
      this.upgrade, this.phase, this.inBdat, this.bodyBuf, this.tls := upgrade, PHASE_INIT, false, "", tls;
      this.tx := Tx(tls, "", "", map[], [], [], []);
      this.calls, this.postcats := [], [];
      this.r := new BufReader(wire);
      var banner := Response(220, Banner(cfg.hostname));
      this.out := RenderLine(banner.code, true, TextOf(banner.message));
      this.replies := [Reply(220, [Banner(cfg.hostname)])];
      new;
      RenderOne(banner);
      hide Render;
      hide RenderLine;
      hide TextOf;
      assert [] + replies == replies;
      RenderAllAppend([], Reply(220, [Banner(cfg.hostname)]));
    }

    // -------------------------------------------------------------- small steps

    method Write(resp: Response)
      requires Valid()
      modifies this`out, this`replies
      ensures Valid()
      ensures replies == old(replies) + [Reply(resp.code, [resp.message])]
    {
      hide Render;
      hide RenderLine;
      hide TextOf;
      RenderOne(resp);
      RenderAllAppend(replies, Reply(resp.code, [resp.message]));
      out := out + RenderLine(resp.code, true, TextOf(resp.message));
      replies := replies + [Reply(resp.code, [resp.message])];
    }

    /** Asks the handler. */
    method Ask(call: Call) returns (resp: Option<Response>)
      requires Valid()
      modifies this`calls
      ensures Valid() && calls == old(calls) + [call] && resp == h(calls)
    {
      calls := calls + [call];
      resp := h(calls);
    }

    method FreshTx() returns (next: Tx)
      ensures next == NewTx(State())
    {
      next := Tx(tls, "", "", map[], [], [], []);
    }

    method ResetBodyBuf()
      requires Valid()
      modifies this`bodyBuf
      ensures Valid() && bodyBuf == ""
    {
      bodyBuf := "";
    }

    /** Closes the transaction and keeps the greeting. */
    method CloseTx(to: nat)
      requires Valid()
      modifies this`phase, this`tx, this`bodyBuf
      ensures Valid() && State() == EndTx(old(State()), to).(inBdat := inBdat)
    {
      phase := to;
      var next := FreshTx();
      tx := next.(helo := tx.helo);
      ResetBodyBuf();
    }

    method WritePostcat(from: Bytes, accepted: seq<Bytes>, body: Bytes)
      requires Valid()
      modifies this`postcats
      ensures Valid()
      ensures postcats == if cfg.postcat then old(postcats) + [Record(from, accepted, body)] else old(postcats)
    {
      if cfg.postcat {
        postcats := postcats + [Record(from, accepted, body)];
      }
    }

    // -------------------------------------------------------------- greeting

    /** The extension list, item by item. */
    method Extensions(domain: Bytes) returns (ext: seq<Message>)
      ensures ext == EhloLines(cfg, State(), domain)
    {
      ext := [Welcome(cfg.hostname, domain)];
      ext := ext + [Pipelining];
      ext := ext + [EightBitMime];
      ext := ext + [EnhancedStatusCodes];
      ext := ext + [SmtpUtf8];
      ext := ext + [Chunking];
      if cfg.hasTLSConfig && !tls {
        ext := ext + [StartTls];
      }
      if cfg.maxMessageSize > 0 {
        ext := ext + [SizeLimit(cfg.maxMessageSize)];
      }
    }

    /** Writes a reply of several lines, line by line. */
    method WriteLines(code: int, lines: seq<Message>)
      requires Valid()
      modifies this`out, this`replies
      ensures Valid() && replies == old(replies) + [Reply(code, lines)]
    {
      hide RenderLine;
      hide TextOf;
      hide RenderAll;
      ghost var start := out;
      ghost var all := RenderLines(code, lines);
      assert lines[0..] == lines;
      for i := 0 to |lines|
        invariant out + RenderLines(code, lines[i..]) == start + all
        invariant replies == old(replies)
      {
        var last := i == |lines| - 1;
        assert lines[i..][1..] == lines[i + 1..];
        ghost var before := out;
        out := out + RenderLine(code, last, TextOf(lines[i]));
        assert before + (RenderLine(code, last, TextOf(lines[i])) + RenderLines(code, lines[i + 1..]))
            == out + RenderLines(code, lines[i + 1..]);
      }
      assert lines[|lines|..] == [];
      RenderAllAppend(replies, Reply(code, lines));
      hide RenderLines;
      replies := replies + [Reply(code, lines)];
    }

    /** HELO and EHLO: the answer, unless it has been written already, and the new transaction. */
    method HandleGreeting(domain: Bytes, extended: bool) returns (resp: Option<Response>, next: Option<Tx>)
      requires Valid()
      modifies this`calls, this`out, this`replies
      ensures Valid()
      ensures var (after, reply) := Greet(cfg, h, old(State()), domain, extended);
              && calls == after.calls
              && (next.None? ==> after == old(State()).(calls := calls))
              && (next.Some? ==> after == old(State()).(calls := calls, phase := PHASE_HELO, inBdat := false,
                                                        tx := next.value, bodyBuf := ""))
              && match resp
                 case None => replies == old(replies) + [reply]
                 case Some(answer) => replies == old(replies) && reply == Reply(answer.code, [answer.message])
    {
      if domain == "" {
        return Some(Response(501, DomainMissing(extended))), None;
      }
      var ok := CheckDomain(domain);
      if !ok {
        return Some(Response(501, DomainInvalid(extended))), None;
      }
      hide ValidDomain;
      hide RenderAll;
      hide EhloLines;
      var tx2 := FreshTx();
      tx2 := tx2.(helo := domain);
      var answer := Ask(Hello(tx2));
      if answer.None? || answer.value.code != 250 {
        return Some(if answer.None? then Response(503, BadSequence) else answer.value), None;
      }
      if !extended {
        return Some(Response(250, Host(cfg.hostname))), Some(tx2);
      }
      var ext := Extensions(tx2.helo);
      assert ext == EhloLines(cfg, old(State()), domain);
      WriteLines(250, ext);
      return None, Some(tx2);
    }

    /** STARTTLS: switches to the decrypted stream, or refuses, or closes the connection. */
    method HandleStartTls() returns (resp: Option<Response>, next: Option<Tx>)
      requires Valid()
      modifies this`r, this`upgrade, this`tls, this`out, this`replies, r
      ensures Valid() && (r == old(r) || fresh(r))
      ensures var o := Secure(cfg, old(State()), old(Unread()));
              && Unread() == o.net
              && o.s == (match next
                         case None => State()
                         case Some(t) => State().(phase := PHASE_INIT, inBdat := false, tx := t, bodyBuf := ""))
              && o.reply == (match resp
                             case None => None
                             case Some(answer) => Some(Reply(answer.code, [answer.message])))
    {
      hide RenderAll;
      if tls {
        return Some(Response(503, TlsActive)), None;
      }
      if tx.helo == "" {
        return Some(Response(503, GreetingRequired)), None;
      }
      if !cfg.hasTLSConfig {
        return Some(Response(502, TlsUnsupported)), None;
      }
      Write(Response(220, TlsReady));
      if upgrade.None? {
        r.wire := [];
        return None, None;
      }
      r := new BufReader(upgrade.value);
      upgrade := None;
      tls := true;
      var t := FreshTx();
      return None, Some(t);
    }

    // -------------------------------------------------------------- envelope

    /** Checks the SIZE parameter of MAIL. */
    method RefuseSize(params: map<Bytes, Bytes>) returns (refusal: Option<Response>)
      ensures refusal == CheckSize(cfg, DeclaredSize(params))
      ensures refusal.Some? ==> refusal.value.code != 250
    {
      hide ParseInt64;
      if cfg.maxMessageSize > 0 && "SIZE" in params {
        var size := ParseInt64(params["SIZE"]);
        if size.None? || size.value < 0 {
          return Some(Response(501, BadSizeParam));
        }
        if size.value > cfg.maxMessageSize {
          return Some(Response(552, MessageSize));
        }
      }
      return None;
    }

    method HandleMail(args: Bytes) returns (resp: Response)
      requires Valid()
      modifies this`tx, this`bodyBuf, this`calls
      ensures Valid()
      ensures var (after, answer) := Mail(cfg, h, old(State()), ParseMailFrom(args));
              resp == answer && after == if resp.code == 250 then State().(phase := PHASE_MAIL) else State()
    {
      hide RenderAll;
      if cfg.requireTLS && !tls {
        return Response(530, TlsRequired);
      }
      if tx.helo == "" {
        return Response(503, GreetingRequired);
      }
      if phase >= PHASE_MAIL {
        return Response(503, MailAlreadySent);
      }
      hide ParseMailFrom;
      hide CheckSize;
      hide DeclaredSize;
      var parsed := ReadMailFrom(args);
      if parsed.None? {
        return Response(501, BadMailSyntax);
      }
      var params := parsed.value.params;
      tx := tx.(mailFrom := parsed.value.from, params := params, rcpts := [], accepted := [], rejected := []);
      ResetBodyBuf();
      var refusal := RefuseSize(params);
      if refusal.Some? {
        return refusal.value;
      }
      var answer := Ask(MailFrom(tx));
      resp := if answer.None? then Response(503, BadSequence) else answer.value;
    }

    method HandleRcpt(args: Bytes) returns (resp: Response)
      requires Valid()
      modifies this`tx, this`phase, this`calls
      ensures Valid() && (State(), resp) == Rcpt(cfg, h, old(State()), ParseRcptTo(args))
    {
      hide RenderAll;
      hide ParseRcptTo;
      if tx.helo == "" {
        return Response(503, GreetingRequired);
      }
      if phase < PHASE_MAIL {
        return Response(503, MailRequired);
      }
      var rcpt := ParseRcptTo(args);
      var control := ScanControl(rcpt);
      if |rcpt| > 320 || control {
        return Response(501, BadRecipient);
      }
      hide ContainsControl;
      tx := tx.(rcpts := tx.rcpts + [rcpt]);
      if cfg.maxRecipients > 0 && |tx.rcpts| > cfg.maxRecipients {
        return Response(452, TooManyRecipients);
      }
      phase := PHASE_RCPT;
      var answer := Ask(RcptTo(tx));
      if answer.Some? && answer.value.code == 250 {
        tx := tx.(accepted := tx.accepted + [rcpt]);
        resp := answer.value;
      } else {
        resp := if answer.None? then Response(503, BadSequence) else answer.value;
        tx := tx.(rejected := tx.rejected + [Rejection(rcpt, resp)]);
      }
    }

    // -------------------------------------------------------------- message

    /** Gives the handler a complete body. */
    method DeliverBody(body: Bytes) returns (resp: Response)
      requires Valid()
      modifies this`calls, this`postcats
      ensures Valid() && (State(), resp) == Deliver(cfg, h, old(State()), body)
    {
      hide RenderAll;
      var answer := Ask(Call.Data(tx, body));
      resp := if answer.None? then Response(503, BadSequence) else answer.value;
      if resp.code == 250 {
        WritePostcat(tx.mailFrom, tx.accepted, body);
      }
    }

    method HandleData() returns (resp: Response)
      requires Valid()
      modifies this`calls, this`postcats, this`out, this`replies, r
      ensures Valid()
      ensures var read := ReadBody(old(r.wire), cfg.maxMessageSize);
              DataCmd(cfg, h, old(State()), old(Unread()), read) == Closing(State(), Unread(), resp)
    {
      hide RenderAll;
      hide ReadBody;
      hide Deliver;
      if phase < PHASE_RCPT {
        return Response(503, RcptRequired);
      }
      if |tx.accepted| == 0 {
        return Response(554, NoRecipients);
      }
      Write(Response(354, GoAhead));
      var res := ReadDotUnstuffed(r, cfg.maxMessageSize, rooms);
      match res {
        case BodyLineTooLong => return Response(500, LineTooLong);
        case BodyTooLarge => return Response(552, MessageSize);
        case BodyBroken => return Response(451, ReadFailed);
        case Body(body) =>
          var eightBit := Scan8Bit(body);
          if !DeclaresEightBit(tx.params) && eightBit {
            return Response(550, EightBitData);
          }
          hide Contains8Bit;
          resp := DeliverBody(body);
      }
    }

    /** Skips the chunk of a refused BDAT and abandons the message. */
    method DiscardChunk(size: nat)
      requires Valid()
      modifies this`inBdat, this`bodyBuf, r
      ensures Valid() && State() == old(State()).(inBdat := false, bodyBuf := "")
      ensures r.wire == WireTake(old(r.wire), size).1
    {
      inBdat := false;
      ResetBodyBuf();
      if size > 0 {
        var _ := r.Discard(size);
      }
    }

    method ReadNBytes(n: nat) returns (chunk: Option<Bytes>)
      requires Valid()
      modifies r
      ensures (chunk, r.wire) == ReadChunk(old(r.wire), n)
    {
      if n > MAX_CHUNK {
        return None;
      }
      chunk := r.ReadFull(n);
    }

    /** BDAT; `ended` reports a chunk marked LAST. */
    method HandleBdat(args: Bytes) returns (resp: Response, ended: bool)
      requires Valid()
      modifies this`inBdat, this`bodyBuf, this`calls, this`postcats, r
      ensures Valid()
      ensures BdatCmd(cfg, h, old(State()), old(Unread()), ParseBdatArgs(args))
              == if ended || resp.code != 250 then Closing(State(), Unread(), resp)
                 else Talk(State(), Unread(), resp.code, resp.message)
    {
      hide RenderAll;
      hide ParseBdatArgs;
      hide WireTake;
      hide Append;
      hide Wrap64;
      var parsed := ParseBdatArgs(args);
      if parsed.None? {
        DiscardChunk(0);
        assert r.wire == old(r.wire) by { NothingTaken(old(r.wire)); }
        return Response(501, BadBdatSyntax), false;
      }
      var size, last := parsed.value.size, parsed.value.last;
      if phase < PHASE_RCPT {
        DiscardChunk(size);
        return Response(503, RcptRequired), last;
      }
      if |tx.accepted| == 0 {
        DiscardChunk(size);
        return Response(554, NoRecipients), last;
      }
      if cfg.maxMessageSize > 0 && Wrap64(|bodyBuf| + size) > cfg.maxMessageSize {
        DiscardChunk(size);
        return Response(552, MessageSize), last;
      }
      var chunk := ReadNBytes(size);
      if chunk.None? {
        inBdat := false;
        ResetBodyBuf();
        return Response(451, ChunkFailed), false;
      }
      hide ReadChunk;
      resp := AppendChunk(chunk.value, last);
      ended := last;
    }

    /** Takes a chunk that has been read; the last one completes the message. */
    method AppendChunk(chunk: Bytes, last: bool) returns (resp: Response)
      requires Valid()
      modifies this`inBdat, this`bodyBuf, this`calls, this`postcats
      ensures Valid()
      ensures !last ==> resp.code == 250
      ensures Append(cfg, h, old(State()), Unread(), chunk, last)
              == if last then Closing(State(), Unread(), resp)
                 else Talk(State(), Unread(), resp.code, resp.message)
    {
      hide RenderAll;
      hide Deliver;
      bodyBuf := bodyBuf + chunk;
      if !last {
        inBdat := true;
        return Response(250, Okay);
      }
      ghost var begun := State();
      inBdat := false;
      resp := DeliverBody(bodyBuf);
      DeliverIgnoresMode(cfg, h, begun, bodyBuf, false);
      ResetBodyBuf();
    }

    // -------------------------------------------------------------- the loop

    /** Closes the transaction that a failed or completed message leaves. */
    method Abandon()
      requires Valid()
      modifies this`phase, this`inBdat, this`tx, this`bodyBuf
      ensures Valid() && State() == EndTx(old(State()), PHASE_HELO)
    {
      CloseTx(PHASE_HELO);
      inBdat := false;
    }

    /** A greeting as the loop handles it. */
    method DoGreeting(domain: Bytes, extended: bool) returns (resp: Option<Response>)
      requires Valid()
      modifies this`calls, this`out, this`replies, this`phase, this`inBdat, this`tx, this`bodyBuf
      ensures Valid()
      ensures var (after, reply) := Greet(cfg, h, old(State()), domain, extended);
              match resp
              case None => State() == Said(after, Some(reply))
              case Some(answer) => State() == after && reply == Reply(answer.code, [answer.message])
    {
      hide Greet;
      hide RenderAll;
      var next;
      resp, next := HandleGreeting(domain, extended);
      if next.Some? {
        tx := next.value;
        phase := PHASE_HELO;
        inBdat := false;
        ResetBodyBuf();
      }
    }

    /** MAIL as the loop handles it. */
    method DoMail(args: Bytes) returns (resp: Response)
      requires Valid()
      modifies this`tx, this`bodyBuf, this`calls, this`phase
      ensures Valid() && (State(), resp) == Mail(cfg, h, old(State()), ParseMailFrom(args))
    {
      hide RenderAll;
      hide Mail;
      hide ParseMailFrom;
      resp := HandleMail(args);
      if resp.code == 250 {
        phase := PHASE_MAIL;
      }
    }

    /** DATA as the loop handles it. */
    method DoData() returns (resp: Response)
      requires Valid()
      modifies this`calls, this`postcats, this`out, this`replies, this`phase, this`inBdat, this`tx, this`bodyBuf, r
      ensures Valid()
      ensures DataCmd(cfg, h, old(State()), old(Unread()), ReadBody(old(r.wire), cfg.maxMessageSize))
              == Talk(State(), Unread(), resp.code, resp.message)
    {
      hide RenderAll;
      hide DataCmd;
      hide ReadBody;
      resp := HandleData();
      Abandon();
    }

    /** BDAT as the loop handles it: a LAST chunk and a failed one close the transaction. */
    method DoBdat(args: Bytes) returns (resp: Response)
      requires Valid()
      modifies this`calls, this`postcats, this`phase, this`inBdat, this`tx, this`bodyBuf, r
      ensures Valid()
      ensures BdatCmd(cfg, h, old(State()), old(Unread()), ParseBdatArgs(args))
              == Talk(State(), Unread(), resp.code, resp.message)
    {
      hide RenderAll;
      hide BdatCmd;
      hide ParseBdatArgs;
      var ended;
      resp, ended := HandleBdat(args);
      if ended || resp.code != 250 {
        Abandon();
      }
    }

    /** STARTTLS as the loop handles it. */
    method DoStartTls() returns (resp: Option<Response>)
      requires Valid()
      modifies this`r, this`upgrade, this`tls, this`out, this`replies, this`phase, this`inBdat, this`tx, this`bodyBuf, r
      ensures Valid() && (r == old(r) || fresh(r))
      ensures Secure(cfg, old(State()), old(Unread())) == Outcome(State(), Unread(), ReplyOf(resp), false)
    {
      hide RenderAll;
      SecureNet(cfg, State(), Unread());
      hide Secure;
      var next;
      resp, next := HandleStartTls();
      if next.Some? {
        tx := next.value;
        phase := PHASE_INIT;
        inBdat := false;
        ResetBodyBuf();
      }
    }

    /** The commands that are not about bytes of the connection. */
    method HandlePlain(verb: Bytes, args: Bytes) returns (resp: Option<Response>)
      requires Valid() && !Takeover(CommandOf(verb, args)) && !CommandOf(verb, args).QUIT?
      requires inBdat ==> AllowedDuringBdat(CommandOf(verb, args))
      modifies this`calls, this`out, this`replies, this`phase, this`inBdat, this`tx, this`bodyBuf
      ensures Valid()
      ensures Said(State(), ReplyOf(resp))
              == Replied(Exec(cfg, h, old(State()), old(Unread()), CommandOf(verb, args)))
    {
      hide RenderAll;
      hide Greet;
      hide Mail;
      hide Rcpt;
      hide Secure;
      hide DataCmd;
      hide BdatCmd;
      hide ParseMailFrom;
      hide ParseRcptTo;
      hide ParseBdatArgs;
      hide ReadBody;
      hide ContainsControl;
      if verb == "HELO" {
        resp := DoGreeting(args, false);
      } else if verb == "EHLO" {
        resp := DoGreeting(args, true);
      } else if verb == "MAIL" {
        var answer := DoMail(args);
        resp := Some(answer);
      } else if verb == "RCPT" {
        var answer := HandleRcpt(args);
        resp := Some(answer);
      } else {
        var answer := HandleSimple(verb, args);
        resp := Some(answer);
        hide Exec;
      }
    }

    /** The commands without arguments, and unknown ones. */
    method HandleSimple(verb: Bytes, args: Bytes) returns (resp: Response)
      requires Valid() && !Takeover(CommandOf(verb, args)) && !CommandOf(verb, args).QUIT?
      requires verb != "HELO" && verb != "EHLO" && verb != "MAIL" && verb != "RCPT"
      requires inBdat ==> AllowedDuringBdat(CommandOf(verb, args))
      modifies this`phase, this`inBdat, this`tx, this`bodyBuf
      ensures Valid()
      ensures Exec(cfg, h, old(State()), old(Unread()), CommandOf(verb, args))
              == Talk(State(), Unread(), resp.code, resp.message)
    {
      hide RenderAll;
      hide ParseMailFrom;
      hide ParseRcptTo;
      hide ParseBdatArgs;
      if verb == "RSET" {
        CloseTx(PHASE_INIT);
        inBdat := false;
        return Response(250, Okay);
      } else if verb == "NOOP" {
        return Response(250, Okay);
      } else if verb == "HELP" {
        return Response(214, HelpText);
      } else if verb == "VRFY" || verb == "EXPN" {
        return Response(252, VrfyDisabled);
      } else {
        return Response(500, NotRecognised);
      }
    }

    /** The commands for which the reader pauses. */
    method HandleTakeover(verb: Bytes, args: Bytes) returns (resp: Option<Response>)
      requires Valid() && Takeover(CommandOf(verb, args))
      requires inBdat ==> AllowedDuringBdat(CommandOf(verb, args))
      modifies this, r
      ensures Valid() && (r == old(r) || fresh(r))
      ensures Exec(cfg, h, old(State()), old(Unread()), CommandOf(verb, args))
              == Outcome(State(), Unread(), ReplyOf(resp), false)
    {
      hide RenderAll;
      hide Secure;
      hide DataCmd;
      hide BdatCmd;
      hide ReadBody;
      hide ParseBdatArgs;
      if verb == "STARTTLS" {
        resp := DoStartTls();
      } else if verb == "DATA" {
        var answer := DoData();
        resp := Some(answer);
      } else {
        var answer := DoBdat(args);
        resp := Some(answer);
      }
    }

    /** A command that does not belong into the open BDAT sequence, or an over-long line. */
    method Interrupt(e: Event) returns (resp: Response)
      requires Valid() && (e.OverLong? || (inBdat && !AllowedDuringBdat(CmdOf(e))))
      modifies this`phase, this`inBdat, this`tx, this`bodyBuf
      ensures Valid()
      ensures Exec(cfg, h, old(State()), old(Unread()), CmdOf(e))
              == Talk(State(), Unread(), resp.code, resp.message)
    {
      hide RenderAll;
      hide CommandOf;
      if e.OverLong? {
        if inBdat {
          Abandon();
        }
        return Response(500, LineTooLong);
      }
      VerbsOf(e.verb, e.args);
      Abandon();
      return Response(503, BadSequence);
    }

    /** Handles one command and writes its reply. */
    method Dispatch(e: Event) returns (ended: bool)
      requires Valid()
      modifies this, r
      ensures Valid() && (r == old(r) || fresh(r))
      ensures var o := Exec(cfg, h, old(State()), old(Unread()), CmdOf(e));
              State() == Replied(o) && Unread() == o.net && ended == o.ended
    {
      hide RenderAll;
      if e.Command? {
        VerbsOf(e.verb, e.args);
      }
      hide CommandOf;
      ExecNet(cfg, h, State(), Unread(), CmdOf(e));
      QuitSays(cfg, h, State(), Unread());
      hide Exec;
      var resp: Option<Response>;
      ended := false;
      if e.OverLong? || (inBdat && !(e.verb == "BDAT" || e.verb == "RSET" || e.verb == "NOOP" || e.verb == "QUIT")) {
        var answer := Interrupt(e);
        resp := Some(answer);
      } else if e.verb == "STARTTLS" || e.verb == "DATA" || e.verb == "BDAT" {
        resp := HandleTakeover(e.verb, e.args);
      } else if e.verb == "QUIT" {
        resp := Some(Response(221, Bye));
        ended := true;
      } else {
        resp := HandlePlain(e.verb, e.args);
      }
      if resp.Some? {
        Write(resp.value);
      }
    }

    /** Reads and handles commands until the client leaves or the connection fails. */
    method Run()
      requires Valid()
      modifies this, r
      ensures Valid() && (r == old(r) || fresh(r))
      ensures Final(State(), Unread()) == Serve(cfg, h, old(State()), old(Unread()))
    {
      hide RenderAll;
      hide Exec;
      hide CommandOf;
      hide SplitVerb;
      ghost var end := Serve(cfg, h, State(), Unread());
      while true
        invariant Valid() && (r == old(r) || fresh(r))
        invariant Serve(cfg, h, State(), Unread()) == end
        decreases NetSize(Unread())
      {
        ghost var s, net := State(), Unread();
        ReadCmdShrinks(net);
        var line, _ := r.ReadLine(rooms);
        if line.ReadError? {
          return;
        }
        var e := OverLong;
        if line.Line? {
          var (verb, args) := SplitVerb(line.text);
          e := Command(verb, args);
        }
        assert ReadCmd(net) == (Some(CmdOf(e)), Unread());
        ExecNet(cfg, h, s, Unread(), CmdOf(e));
        var ended := Dispatch(e);
        if ended {
          return;
        }
      }
    }
  }

  function ReplyOf(resp: Option<Response>): Option<Reply> {
    match resp
    case None => None
    case Some(answer) => Some(Reply(answer.code, [answer.message]))
  }

  /** The commands that the dispatch tells apart by their verbs. */
  lemma VerbsOf(verb: Bytes, args: Bytes)
    ensures var cmd := CommandOf(verb, args);
            && !cmd.TOOLONG?
            && (cmd.QUIT? <==> verb == "QUIT")
            && (Takeover(cmd) <==> verb == "STARTTLS" || verb == "DATA" || verb == "BDAT")
            && (AllowedDuringBdat(cmd) <==> verb == "BDAT" || verb == "RSET" || verb == "NOOP" || verb == "QUIT")
  {
    hide ParseMailFrom;
    hide ParseRcptTo;
    hide ParseBdatArgs;
  }

  lemma NothingTaken(w: Wire)
    ensures WireTake(w, 0).1 == w
  {
  }
}
