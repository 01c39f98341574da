/** The session machine: what the worker does with each command, and the sequential server
    that reads one command, handles it, and only then reads the next. */
module Session {
  import opened Text
  import opened Lines
  import opened Body
  import opened Commands

  // ---------------------------------------------------------------- data

  /** The text of a reply line. `Phrase` is text the handler chose; the others are the
      server's own texts, spelled out by `Replies.TextOf`. */
  datatype Message =
    | Phrase(text: Bytes)
    | Banner(hostname: Bytes) | Welcome(hostname: Bytes, domain: Bytes) | Host(hostname: Bytes)
    | Pipelining | EightBitMime | EnhancedStatusCodes | SmtpUtf8 | Chunking | StartTls | SizeLimit(n: int)
    | DomainMissing(extended: bool) | DomainInvalid(extended: bool)
    | TlsActive | TlsUnsupported | TlsReady | TlsRequired
    | GreetingRequired | MailAlreadySent | BadMailSyntax | BadSizeParam | MessageSize
    | MailRequired | BadRecipient | TooManyRecipients | RcptRequired | NoRecipients
    | GoAhead | ReadFailed | EightBitData | BadBdatSyntax | ChunkFailed
    | LineTooLong | BadSequence | Okay | HelpText | VrfyDisabled | Bye | NotRecognised | ShuttingDown

  datatype Response = Response(code: int, message: Message)

  /** One reply: lines with the same code. */
  datatype Reply = Reply(code: int, lines: seq<Message>)

  datatype Rejection = Rejection(recipient: Bytes, response: Response)

  datatype Tx = Tx(tls: bool, helo: Bytes, mailFrom: Bytes, params: map<Bytes, Bytes>,
                   rcpts: seq<Bytes>, accepted: seq<Bytes>, rejected: seq<Rejection>)

  /** A callback and the arguments the handler sees. */
  datatype Call =
    | Hello(tx: Tx)
    | MailFrom(tx: Tx)
    | RcptTo(tx: Tx)
    | Data(tx: Tx, body: Bytes)

  /** The handler: its answer to a callback, given every callback of the session so far, the
      present one last. `None` is the nil response. */
  type Handler = seq<Call> -> Option<Response>

  /** One postcat write. */
  datatype Record = Record(sender: Bytes, recipients: seq<Bytes>, body: Bytes)

  datatype Config = Config(hostname: Bytes, maxMessageSize: int, maxRecipients: int,
                           requireTLS: bool, hasTLSConfig: bool, postcat: bool)

  const PHASE_INIT := 0
  const PHASE_HELO := 1
  const PHASE_MAIL := 2
  const PHASE_RCPT := 3

  /** The worker's state, and the histories of its callbacks, replies and postcat writes. */
  datatype Session = Session(phase: nat, inBdat: bool, tx: Tx, bodyBuf: Bytes, tls: bool,
                             calls: seq<Call>, replies: seq<Reply>, postcats: seq<Record>)

  /** The bytes still to be read, and the decrypted stream that a STARTTLS handshake would
      switch to; without one the handshake fails and the connection is closed. */
  datatype Net = Net(wire: Wire, upgrade: Option<Wire>)

  /** The effect of a command: the session after it, short of the final reply; the unread
      bytes; the final reply, if any; and whether the session is over. */
  datatype Outcome = Outcome(s: Session, net: Net, reply: Option<Reply>, ended: bool)

  function OrBadSequence(r: Option<Response>): Response {
    match r
    case Some(resp) => resp
    case None => Response(503, BadSequence)
  }

  // ---------------------------------------------------------------- transaction state

  function NewTx(s: Session): Tx {
    Tx(s.tls, "", "", map[], [], [], [])
  }

  /** A fresh transaction that keeps the greeting. */
  function ResetTx(s: Session): Tx {
    NewTx(s).(helo := s.tx.helo)
  }

  /** The transaction is over: an empty envelope and buffer, and no BDAT sequence. */
  function EndTx(s: Session, phase: nat): Session {
    s.(phase := phase, inBdat := false, tx := ResetTx(s), bodyBuf := "")
  }

  function Asked(s: Session, call: Call): Session {
    s.(calls := s.calls + [call])
  }

  function Said(s: Session, reply: Option<Reply>): Session {
    match reply
    case None => s
    case Some(r) => s.(replies := s.replies + [r])
  }

  // ---------------------------------------------------------------- greeting

  /** The extension list after an accepted EHLO. */
  function EhloLines(cfg: Config, s: Session, domain: Bytes): seq<Message> {
    [Welcome(cfg.hostname, domain), Pipelining, EightBitMime, EnhancedStatusCodes, SmtpUtf8, Chunking]
    + (if cfg.hasTLSConfig && !s.tls then [StartTls] else [])
    + (if cfg.maxMessageSize > 0 then [SizeLimit(cfg.maxMessageSize)] else [])
  }

  function Greet(cfg: Config, h: Handler, s: Session, domain: Bytes, extended: bool): (Session, Reply) {
    if domain == "" then (s, Reply(501, [DomainMissing(extended)]))
    else if !ValidDomain(domain) then (s, Reply(501, [DomainInvalid(extended)]))
    else
      var next := NewTx(s).(helo := domain);
      var asked := Asked(s, Hello(next));
      var resp := OrBadSequence(h(asked.calls));
      if resp.code != 250 then (asked, Reply(resp.code, [resp.message]))
      else
        (asked.(phase := PHASE_HELO, inBdat := false, tx := next, bodyBuf := ""),
         Reply(250, if extended then EhloLines(cfg, s, domain) else [Host(cfg.hostname)]))
  }

  /** A successful handshake replaces the stream and returns the session to its initial state. */
  function Secure(cfg: Config, s: Session, net: Net): Outcome {
    if s.tls then Talk(s, net, 503, TlsActive)
    else if s.tx.helo == "" then Talk(s, net, 503, GreetingRequired)
    else if !cfg.hasTLSConfig then Talk(s, net, 502, TlsUnsupported)
    else
      var ready := Said(s, Some(Reply(220, [TlsReady])));
      match net.upgrade
      case None => Outcome(ready, Net([], None), None, false)
      case Some(tlsWire) =>
        var secured := ready.(tls := true);
        Outcome(secured.(phase := PHASE_INIT, inBdat := false, tx := NewTx(secured), bodyBuf := ""),
                Net(tlsWire, None), None, false)
  }

  // ---------------------------------------------------------------- envelope

  function CheckSize(cfg: Config, size: SizeParam): Option<Response> {
    if cfg.maxMessageSize <= 0 || size.NoSize? then None
    else if size.BadSize? then Some(Response(501, BadSizeParam))
    else if size.n > cfg.maxMessageSize then Some(Response(552, MessageSize))
    else None
  }

  /** The envelope that MAIL opens, before the handler is asked. */
  function Opened(s: Session, args: MailArgs): Session {
    s.(tx := s.tx.(mailFrom := args.from, params := args.params, rcpts := [], accepted := [], rejected := []),
       bodyBuf := "")
  }

  function Mail(cfg: Config, h: Handler, s: Session, args: Option<MailArgs>): (Session, Response) {
    if cfg.requireTLS && !s.tls then (s, Response(530, TlsRequired))
    else if s.tx.helo == "" then (s, Response(503, GreetingRequired))
    else if s.phase >= PHASE_MAIL then (s, Response(503, MailAlreadySent))
    else
      match args
      case None => (s, Response(501, BadMailSyntax))
      case Some(a) =>
        match CheckSize(cfg, DeclaredSize(a.params))
        case Some(resp) => (Opened(s, a), resp)
        case None =>
          var asked := Asked(Opened(s, a), MailFrom(Opened(s, a).tx));
          var resp := OrBadSequence(h(asked.calls));
          (if resp.code == 250 then asked.(phase := PHASE_MAIL) else asked, resp)
  }

  function Rcpt(cfg: Config, h: Handler, s: Session, to: Bytes): (Session, Response) {
    if s.tx.helo == "" then (s, Response(503, GreetingRequired))
    else if s.phase < PHASE_MAIL then (s, Response(503, MailRequired))
    else if !ValidAddress(to) then (s, Response(501, BadRecipient))
    else
      var listed := s.(tx := s.tx.(rcpts := s.tx.rcpts + [to]));
      if cfg.maxRecipients > 0 && |listed.tx.rcpts| > cfg.maxRecipients then
        (listed, Response(452, TooManyRecipients))
      else
        var asked := Asked(listed.(phase := PHASE_RCPT), RcptTo(listed.tx));
        var resp := OrBadSequence(h(asked.calls));
        (asked.(tx := if resp.code == 250 then asked.tx.(accepted := asked.tx.accepted + [to])
                      else asked.tx.(rejected := asked.tx.rejected + [Rejection(to, resp)])),
         resp)
  }

  // ---------------------------------------------------------------- message

  predicate Contains8Bit(b: Bytes) {
    exists i :: 0 <= i < |b| && b[i] > '\U{007F}'
  }

  /** The scan for bytes with the high bit set. */
  method Scan8Bit(b: Bytes) returns (found: bool)
    ensures found == Contains8Bit(b)
  {
    for i := 0 to |b|
      invariant forall k :: 0 <= k < i ==> b[k] <= '\U{007F}'
    {
      if b[i] > '\U{007F}' {
        return true;
      }
    }
    found := false;
  }

  /** Hands a complete body to the handler and records it when the handler takes it. */
  function Deliver(cfg: Config, h: Handler, s: Session, body: Bytes): (Session, Response) {
    var asked := Asked(s, Call.Data(s.tx, body));
    var resp := OrBadSequence(h(asked.calls));
    (if resp.code == 250 && cfg.postcat
     then asked.(postcats := asked.postcats + [Record(s.tx.mailFrom, s.tx.accepted, body)])
     else asked,
     resp)
  }

  /** Whether a BDAT sequence is open makes no difference to a delivery. */
  lemma DeliverIgnoresMode(cfg: Config, h: Handler, s: Session, body: Bytes, mode: bool)
    ensures var (after, resp) := Deliver(cfg, h, s, body);
            Deliver(cfg, h, s.(inBdat := mode), body) == (after.(inBdat := mode), resp)
  {
  }

  function DataBody(cfg: Config, h: Handler, s: Session, res: BodyResult): (Session, Response) {
    match res
    case BodyLineTooLong => (s, Response(500, LineTooLong))
    case BodyTooLarge => (s, Response(552, MessageSize))
    case BodyBroken => (s, Response(451, ReadFailed))
    case Body(body) =>
      if !DeclaresEightBit(s.tx.params) && Contains8Bit(body) then (s, Response(550, EightBitData))
      else Deliver(cfg, h, s, body)
  }

  /** DATA, given what reading the body would yield. */
  function DataCmd(cfg: Config, h: Handler, s: Session, net: Net, read: (BodyResult, Wire)): Outcome {
    if s.phase < PHASE_RCPT then Closing(s, net, Response(503, RcptRequired))
    else if s.tx.accepted == [] then Closing(s, net, Response(554, NoRecipients))
    else
      var (after, resp) := DataBody(cfg, h, Said(s, Some(Reply(354, [GoAhead]))), read.0);
      Closing(after, net.(wire := read.1), resp)
  }

  /** The most a single BDAT chunk may hold: 64 MiB. */
  const MAX_CHUNK := 0x400_0000

  /** A chunk over the cap is refused without reading it. */
  function ReadChunk(w: Wire, size: nat): (Option<Bytes>, Wire) {
    if size > MAX_CHUNK then (None, w) else WireTake(w, size)
  }

  /** The limit check of BDAT, in the 64-bit arithmetic of the program. */
  predicate OverLimit(cfg: Config, s: Session, size: nat) {
    cfg.maxMessageSize > 0 && Wrap64(|s.bodyBuf| + size) > cfg.maxMessageSize
  }

  /** Why a BDAT is refused before its chunk is read. */
  function BdatRefusal(cfg: Config, s: Session, size: nat): Option<Response> {
    if s.phase < PHASE_RCPT then Some(Response(503, RcptRequired))
    else if s.tx.accepted == [] then Some(Response(554, NoRecipients))
    else if OverLimit(cfg, s, size) then Some(Response(552, MessageSize))
    else None
  }

  /** A chunk that has been read. */
  function Append(cfg: Config, h: Handler, s: Session, net: Net, bytes: Bytes, last: bool): Outcome {
    var body := s.bodyBuf + bytes;
    if !last then Talk(s.(bodyBuf := body, inBdat := true), net, 250, Okay)
    else
      var (after, resp) := Deliver(cfg, h, s.(bodyBuf := body), body);
      Closing(after, net, resp)
  }

  function BdatCmd(cfg: Config, h: Handler, s: Session, net: Net, chunk: Option<Chunk>): Outcome {
    match chunk
    case None => Closing(s, net, Response(501, BadBdatSyntax))
    case Some(c) =>
      match BdatRefusal(cfg, s, c.size)
      case Some(resp) => Closing(s, net.(wire := WireTake(net.wire, c.size).1), resp)
      case None =>
        var (bytes, wire) := ReadChunk(net.wire, c.size);
        match bytes
        case None => Closing(s, net.(wire := wire), Response(451, ChunkFailed))
        case Some(b) => Append(cfg, h, s, net.(wire := wire), b, c.last)
  }

  // ---------------------------------------------------------------- dispatch

  /** A reply of one line. */
  function Talk(s: Session, net: Net, code: int, message: Message): Outcome {
    Outcome(s, net, Some(Reply(code, [message])), false)
  }

  /** A reply that closes the transaction. */
  function Closing(s: Session, net: Net, resp: Response): Outcome {
    Talk(EndTx(s, PHASE_HELO), net, resp.code, resp.message)
  }

  /** Handles one command. */
  function Exec(cfg: Config, h: Handler, s: Session, net: Net, cmd: Cmd): Outcome {
    if cmd.TOOLONG? then Talk(if s.inBdat then EndTx(s, PHASE_HELO) else s, net, 500, LineTooLong)
    else if s.inBdat && !AllowedDuringBdat(cmd) then Talk(EndTx(s, PHASE_HELO), net, 503, BadSequence)
    else
      match cmd
      case HELO(domain) => var (after, reply) := Greet(cfg, h, s, domain, false);
                           Outcome(after, net, Some(reply), false)
      case EHLO(domain) => var (after, reply) := Greet(cfg, h, s, domain, true);
                           Outcome(after, net, Some(reply), false)
      case STARTTLS => Secure(cfg, s, net)
      case MAIL(args) => var (after, resp) := Mail(cfg, h, s, args);
                         Talk(after, net, resp.code, resp.message)
      case RCPT(to) => var (after, resp) := Rcpt(cfg, h, s, to);
                       Talk(after, net, resp.code, resp.message)
      case DATA => DataCmd(cfg, h, s, net, ReadBody(net.wire, cfg.maxMessageSize))
      case BDAT(chunk) => BdatCmd(cfg, h, s, net, chunk)
      case RSET => Talk(EndTx(s, PHASE_INIT), net, 250, Okay)
      case NOOP => Talk(s, net, 250, Okay)
      case HELP => Talk(s, net, 214, HelpText)
      case VRFY => Talk(s, net, 252, VrfyDisabled)
      case QUIT => Outcome(s, net, Some(Reply(221, [Bye])), true)
      case UNKNOWN => Talk(s, net, 500, NotRecognised)
  }

  /** The session once the final reply of a command is written. */
  function Replied(o: Outcome): Session {
    Said(o.s, o.reply)
  }

  // ---------------------------------------------------------------- the sequential server

  /** Reads one command; `None` when the read fails, which ends the session. */
  function ReadCmd(net: Net): (Option<Cmd>, Net) {
    var (line, wire) := WireLine(net.wire);
    var after := net.(wire := wire);
    match line
    case ReadError => (None, after)
    case TooLong => (Some(TOOLONG), after)
    case Line(text) => (Some(ParseCommand(text)), after)
  }

  function NetSize(net: Net): nat {
    WireSize(net.wire) + match net.upgrade case None => 0 case Some(w) => WireSize(w)
  }

  lemma ReadCmdShrinks(net: Net)
    ensures ReadCmd(net).0.Some? ==> NetSize(ReadCmd(net).1) < NetSize(net)
    ensures NetSize(ReadCmd(net).1) <= NetSize(net)
  {
    if net.wire != [] {
      WireLineShrinks(net.wire);
    }
  }

  lemma DataNet(cfg: Config, h: Handler, s: Session, net: Net, read: (BodyResult, Wire))
    requires WireSize(read.1) <= WireSize(net.wire)
    ensures NetSize(DataCmd(cfg, h, s, net, read).net) <= NetSize(net)
    ensures !DataCmd(cfg, h, s, net, read).ended
  {
    hide DataBody;
  }

  lemma BdatNet(cfg: Config, h: Handler, s: Session, net: Net, chunk: Option<Chunk>)
    ensures NetSize(BdatCmd(cfg, h, s, net, chunk).net) <= NetSize(net)
    ensures !BdatCmd(cfg, h, s, net, chunk).ended
  {
    hide Deliver;
    hide BdatRefusal;
    if chunk.Some? {
      WireTakeShrinks(net.wire, chunk.value.size);
    }
  }

  lemma SecureNet(cfg: Config, s: Session, net: Net)
    ensures NetSize(Secure(cfg, s, net).net) <= NetSize(net)
    ensures !Secure(cfg, s, net).ended
  {
  }

  /** Only a takeover command touches the connection's bytes, no command adds any, and only
      QUIT ends the session. */
  lemma ExecNet(cfg: Config, h: Handler, s: Session, net: Net, cmd: Cmd)
    ensures NetSize(Exec(cfg, h, s, net, cmd).net) <= NetSize(net)
    ensures !Takeover(cmd) ==> Exec(cfg, h, s, net, cmd).net == net
    ensures Exec(cfg, h, s, net, cmd).ended <==> cmd.QUIT?
  {
    ReadBodyShrinks(net.wire, cfg.maxMessageSize);
    DataNet(cfg, h, s, net, ReadBody(net.wire, cfg.maxMessageSize));
    SecureNet(cfg, s, net);
    if cmd.BDAT? {
      BdatNet(cfg, h, s, net, cmd.chunk);
    }
    hide NetSize;
    hide Greet;
    hide Mail;
    hide Rcpt;
    hide Secure;
    hide DataCmd;
    hide BdatCmd;
    hide ReadBody;
  }

  lemma BdatExec(cfg: Config, h: Handler, s: Session, net: Net, chunk: Option<Chunk>)
    ensures Exec(cfg, h, s, net, BDAT(chunk)) == BdatCmd(cfg, h, s, net, chunk)
  {
  }

  lemma QuitSays(cfg: Config, h: Handler, s: Session, net: Net)
    ensures Exec(cfg, h, s, net, QUIT) == Outcome(s, net, Some(Reply(221, [Bye])), true)
  {
  }

  datatype Final = Final(s: Session, net: Net)

  /** The sequential server, from a state between two commands to the end of the session. */
  function Serve(cfg: Config, h: Handler, s: Session, net: Net): Final
    decreases NetSize(net)
  {
    ReadCmdShrinks(net);
    var (cmd, after) := ReadCmd(net);
    match cmd
    case None => Final(s, after)
    case Some(c) =>
      ExecNet(cfg, h, s, after, c);
      var o := Exec(cfg, h, s, after, c);
      if o.ended then Final(Replied(o), o.net) else Serve(cfg, h, Replied(o), o.net)
  }

  /** A new session: the banner is out, and under implicit TLS the connection is protected. */
  function Start(cfg: Config, tls: bool): Session {
    Session(PHASE_INIT, false, Tx(tls, "", "", map[], [], [], []), "", tls, [],
            [Reply(220, [Banner(cfg.hostname)])], [])
  }
}
