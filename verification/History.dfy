/** What the callbacks of a session say about each other, read off the sequence of callbacks
    and answers alone. */
module History {
  import opened Text
  import opened Lines
  import opened Body
  import opened Commands
  import opened Session
  import opened Invariants

  datatype Env = Env(from: Bytes, params: map<Bytes, Bytes>, rcpts: seq<Bytes>)

  /** The last callback was answered 250. */
  predicate Accepted(h: Handler, calls: seq<Call>) {
    OrBadSequence(h(calls)).code == 250
  }

  /** The most recent MAIL answered 250 and, in order, the RCPTs answered 250 since. */
  function Envelope(h: Handler, calls: seq<Call>): Option<Env> {
    if calls == [] then None
    else
      var earlier := Envelope(h, calls[..|calls| - 1]);
      if !Accepted(h, calls) then earlier
      else match calls[|calls| - 1]
        case MailFrom(tx) => Some(Env(tx.mailFrom, tx.params, []))
        case RcptTo(tx) =>
          if earlier.Some? && tx.rcpts != [] then
            Some(earlier.value.(rcpts := earlier.value.rcpts + [tx.rcpts[|tx.rcpts| - 1]]))
          else earlier
        case _ => earlier
  }

  /** Whether a MAIL, and after it a RCPT, were answered 250 since the last Data callback. */
  function Fresh(h: Handler, calls: seq<Call>): (bool, bool) {
    if calls == [] then (false, false)
    else
      var earlier := Fresh(h, calls[..|calls| - 1]);
      match calls[|calls| - 1]
      case Hello(_) => earlier
      case MailFrom(_) => if Accepted(h, calls) then (true, false) else earlier
      case RcptTo(_) => (earlier.0, earlier.1 || (earlier.0 && Accepted(h, calls)))
      case Data(_, _) => (false, false)
  }

  /** The messages the handler took, in order. */
  function Taken(h: Handler, calls: seq<Call>): seq<Record> {
    if calls == [] then []
    else
      var earlier := Taken(h, calls[..|calls| - 1]);
      var last := calls[|calls| - 1];
      if last.Data? && Accepted(h, calls) then
        earlier + [Record(last.tx.mailFrom, last.tx.accepted, last.body)]
      else earlier
  }

  /** A Data callback made after `before`: its envelope is the one agreed, it is fresh, and the
      body is within the limit. */
  predicate DataFits(cfg: Config, h: Handler, before: seq<Call>, call: Call)
    requires call.Data?
  {
    var tx := call.tx;
    && Envelope(h, before) == Some(Env(tx.mailFrom, tx.params, tx.accepted))
    && Fresh(h, before) == (true, true)
    && tx.accepted != []
    && (cfg.maxMessageSize > 0 ==> |call.body| <= cfg.maxMessageSize)
    && ValidReversePath(tx.mailFrom)
    && (forall a :: a in tx.accepted ==> ValidAddress(a))
    && (cfg.requireTLS ==> tx.tls)
    && Accounted(cfg, tx)
  }

  predicate AllDataFit(cfg: Config, h: Handler, calls: seq<Call>) {
    forall i :: 0 <= i < |calls| && calls[i].Data? ==> DataFits(cfg, h, calls[..i], calls[i])
  }

  predicate Recorded(cfg: Config, h: Handler, s: Session) {
    s.postcats == if cfg.postcat then Taken(h, s.calls) else []
  }

  /** The open transaction is the one its callbacks and answers describe. */
  predicate Agrees(h: Handler, s: Session) {
    s.phase >= PHASE_MAIL ==>
      && Envelope(h, s.calls) == Some(Env(s.tx.mailFrom, s.tx.params, s.tx.accepted))
      && Fresh(h, s.calls).0
      && (s.tx.accepted != [] ==> Fresh(h, s.calls).1)
  }

  /** The session agrees with its own history. */
  predicate Faithful(cfg: Config, h: Handler, s: Session) {
    Agrees(h, s) && Recorded(cfg, h, s) && AllDataFit(cfg, h, s.calls)
  }

  lemma StartFaithful(cfg: Config, h: Handler, tls: bool)
    ensures Faithful(cfg, h, Start(cfg, tls))
  {
  }

  lemma DataFitGrows(cfg: Config, h: Handler, calls: seq<Call>, call: Call)
    requires AllDataFit(cfg, h, calls)
    requires call.Data? ==> DataFits(cfg, h, calls, call)
    ensures AllDataFit(cfg, h, calls + [call])
  {
    var more := calls + [call];
    forall i | 0 <= i < |more| && more[i].Data?
      ensures DataFits(cfg, h, more[..i], more[i])
    {
      if i < |calls| {
        assert more[..i] == calls[..i];
      } else {
        assert more[..i] == calls;
      }
    }
  }

  lemma GreetFaithful(cfg: Config, h: Handler, s: Session, domain: Bytes, extended: bool)
    requires Faithful(cfg, h, s)
    ensures Faithful(cfg, h, Greet(cfg, h, s, domain, extended).0)
  {
    var call := Hello(NewTx(s).(helo := domain));
    assert (s.calls + [call])[..|s.calls|] == s.calls;
    DataFitGrows(cfg, h, s.calls, call);
  }

  lemma MailFaithful(cfg: Config, h: Handler, s: Session, args: Option<MailArgs>)
    requires Faithful(cfg, h, s)
    ensures Faithful(cfg, h, Mail(cfg, h, s, args).0)
  {
    if args.Some? {
      var call := MailFrom(Opened(s, args.value).tx);
      assert (s.calls + [call])[..|s.calls|] == s.calls;
      DataFitGrows(cfg, h, s.calls, call);
    }
  }

  lemma EnvelopeAfterRcpt(h: Handler, calls: seq<Call>, tx: Tx, to: Bytes)
    requires tx.rcpts != [] && tx.rcpts[|tx.rcpts| - 1] == to
    ensures var all := calls + [RcptTo(tx)];
            && Envelope(h, all) == (if Accepted(h, all) && Envelope(h, calls).Some?
                                    then Some(Envelope(h, calls).value.(rcpts := Envelope(h, calls).value.rcpts + [to]))
                                    else Envelope(h, calls))
            && Fresh(h, all) == (Fresh(h, calls).0, Fresh(h, calls).1 || (Fresh(h, calls).0 && Accepted(h, all)))
  {
    assert (calls + [RcptTo(tx)])[..|calls|] == calls;
  }

  lemma RcptAgrees(cfg: Config, h: Handler, s: Session, to: Bytes)
    requires Agrees(h, s)
    ensures Agrees(h, Rcpt(cfg, h, s, to).0)
  {
    EnvelopeAfterRcpt(h, s.calls, s.tx.(rcpts := s.tx.rcpts + [to]), to);
    hide Envelope;
    hide Fresh;
    hide ValidAddress;
  }

  lemma RcptLogged(cfg: Config, h: Handler, s: Session, to: Bytes)
    requires Recorded(cfg, h, s) && AllDataFit(cfg, h, s.calls)
    ensures var s' := Rcpt(cfg, h, s, to).0;
            Recorded(cfg, h, s') && AllDataFit(cfg, h, s'.calls)
  {
    var call := RcptTo(s.tx.(rcpts := s.tx.rcpts + [to]));
    assert (s.calls + [call])[..|s.calls|] == s.calls;
    DataFitGrows(cfg, h, s.calls, call);
  }

  lemma DataFitsNow(cfg: Config, h: Handler, s: Session, body: Bytes)
    requires Agrees(h, s) && Inv(cfg, s) && s.phase >= PHASE_RCPT && s.tx.accepted != []
    requires cfg.maxMessageSize > 0 ==> |body| <= cfg.maxMessageSize
    ensures DataFits(cfg, h, s.calls, Call.Data(s.tx, body))
  {
  }

  lemma DeliverFaithful(cfg: Config, h: Handler, s: Session, body: Bytes)
    requires Recorded(cfg, h, s) && AllDataFit(cfg, h, s.calls)
    requires DataFits(cfg, h, s.calls, Call.Data(s.tx, body))
    ensures Faithful(cfg, h, EndTx(Deliver(cfg, h, s, body).0, PHASE_HELO))
  {
    var call := Call.Data(s.tx, body);
    assert (s.calls + [call])[..|s.calls|] == s.calls;
    DataFitGrows(cfg, h, s.calls, call);
  }

  lemma SaidFaithful(cfg: Config, h: Handler, s: Session, reply: Option<Reply>)
    requires Faithful(cfg, h, s)
    ensures Faithful(cfg, h, Said(s, reply))
  {
  }

  lemma DataBodyFaithful(cfg: Config, h: Handler, s: Session, res: BodyResult)
    requires Faithful(cfg, h, s) && Inv(cfg, s) && s.phase >= PHASE_RCPT && s.tx.accepted != []
    requires res.Body? && cfg.maxMessageSize > 0 ==> |res.bytes| <= cfg.maxMessageSize
    ensures Faithful(cfg, h, EndTx(DataBody(cfg, h, s, res).0, PHASE_HELO))
  {
    EndTxFaithful(cfg, h, s, PHASE_HELO);
    if res.Body? {
      DataFitsNow(cfg, h, s, res.bytes);
      DeliverFaithful(cfg, h, s, res.bytes);
    }
    hide Faithful;
    hide Deliver;
    hide EndTx;
    hide Contains8Bit;
    hide DeclaresEightBit;
  }

  lemma DataFaithful(cfg: Config, h: Handler, s: Session, net: Net, read: (BodyResult, Wire))
    requires Faithful(cfg, h, s) && Inv(cfg, s)
    requires read.0.Body? && cfg.maxMessageSize > 0 ==> |read.0.bytes| <= cfg.maxMessageSize
    ensures Faithful(cfg, h, DataCmd(cfg, h, s, net, read).s)
  {
    EndTxFaithful(cfg, h, s, PHASE_HELO);
    hide Faithful;
    hide DataBody;
    hide EndTx;
    if s.phase >= PHASE_RCPT && s.tx.accepted != [] {
      var go := Some(Reply(354, [GoAhead]));
      SaidFaithful(cfg, h, s, go);
      SaidInv(cfg, s, go);
      hide Inv;
      DataBodyFaithful(cfg, h, Said(s, go), read.0);
    }
  }

  lemma AppendFaithful(cfg: Config, h: Handler, s: Session, net: Net, bytes: Bytes, last: bool)
    requires Faithful(cfg, h, s) && Inv(cfg, s) && s.phase >= PHASE_RCPT && s.tx.accepted != []
    requires cfg.maxMessageSize > 0 ==> |s.bodyBuf| + |bytes| <= cfg.maxMessageSize
    ensures Faithful(cfg, h, Append(cfg, h, s, net, bytes, last).s)
  {
    var body := s.bodyBuf + bytes;
    DataFitsNow(cfg, h, s, body);
    DeliverFaithful(cfg, h, s.(bodyBuf := body), body);
  }

  lemma BdatFaithful(cfg: Config, h: Handler, s: Session, net: Net, chunk: Option<Chunk>)
    requires Faithful(cfg, h, s) && Inv(cfg, s) && Representable(cfg)
    ensures Faithful(cfg, h, BdatCmd(cfg, h, s, net, chunk).s)
  {
    EndTxFaithful(cfg, h, s, PHASE_HELO);
    if chunk.Some? && BdatRefusal(cfg, s, chunk.value.size).None? {
      var size := chunk.value.size;
      var (bytes, wire) := ReadChunk(net.wire, size);
      if bytes.Some? {
        if cfg.maxMessageSize > 0 {
          ChunkWithinLimit(cfg, s, size);
        }
        AppendFaithful(cfg, h, s, net.(wire := wire), bytes.value, chunk.value.last);
      }
    }
  }

  lemma EndTxFaithful(cfg: Config, h: Handler, s: Session, phase: nat)
    requires Faithful(cfg, h, s) && phase <= PHASE_HELO
    ensures Faithful(cfg, h, EndTx(s, phase))
  {
  }

  lemma SecureFaithful(cfg: Config, h: Handler, s: Session, net: Net)
    requires Faithful(cfg, h, s)
    ensures Faithful(cfg, h, Secure(cfg, s, net).s)
  {
  }
}
