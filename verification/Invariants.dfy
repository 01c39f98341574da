/** What every command keeps, and what the histories of a whole session say. */
module Invariants {
  import opened Text
  import opened Lines
  import opened Body
  import opened Commands
  import opened Session

  /** The size limit leaves room for one more chunk in a 64-bit integer. */
  predicate Representable(cfg: Config) {
    cfg.maxMessageSize + MAX_CHUNK <= MAX_INT64
  }

  predicate ValidReversePath(from: Bytes) {
    ValidAddress(from) && '>' !in from
  }

  /** What parsing guarantees of a command's arguments. */
  predicate Parsed(cmd: Cmd) {
    && (cmd.MAIL? && cmd.args.Some? ==> ValidReversePath(cmd.args.value.from))
    && (cmd.BDAT? && cmd.chunk.Some? ==> cmd.chunk.value.size <= MAX_INT64)
  }

  lemma ReadCmdParsed(net: Net)
    ensures ReadCmd(net).0.Some? ==> Parsed(ReadCmd(net).0.value)
  {
    var (line, _) := WireLine(net.wire);
    if line.Line? {
      ParsesWell(line.text);
    }
  }

  lemma ParsesWell(line: Bytes)
    ensures Parsed(ParseCommand(line))
  {
    var (verb, args) := SplitVerb(line);
    MailPathWell(args);
    BdatWell(args);
  }

  lemma MailPathWell(args: Bytes)
    ensures ParseMailFrom(args).Some? ==> ValidReversePath(ParseMailFrom(args).value.from)
  {
  }

  lemma BdatWell(args: Bytes)
    ensures ParseBdatArgs(args).Some? ==> ParseBdatArgs(args).value.size <= MAX_INT64
  {
  }

  // ---------------------------------------------------------------- recipients

  /** `all` is an order-preserving merge of the accepted and the rejected recipients. */
  predicate Merge(all: seq<Bytes>, accepted: seq<Bytes>, rejected: seq<Rejection>) {
    if all == [] then accepted == [] && rejected == []
    else
      var n := |all| - 1;
      || (accepted != [] && accepted[|accepted| - 1] == all[n]
          && Merge(all[..n], accepted[..|accepted| - 1], rejected))
      || (rejected != [] && rejected[|rejected| - 1].recipient == all[n]
          && Merge(all[..n], accepted, rejected[..|rejected| - 1]))
  }

  lemma {:induction false} MergeCounts(all: seq<Bytes>, accepted: seq<Bytes>, rejected: seq<Rejection>)
    requires Merge(all, accepted, rejected)
    ensures |accepted| + |rejected| == |all|
  {
    if all != [] {
      var n := |all| - 1;
      if accepted != [] && accepted[|accepted| - 1] == all[n]
         && Merge(all[..n], accepted[..|accepted| - 1], rejected) {
        MergeCounts(all[..n], accepted[..|accepted| - 1], rejected);
      } else {
        MergeCounts(all[..n], accepted, rejected[..|rejected| - 1]);
      }
    }
  }

  /** The recipients that count towards the limit. */
  function Capped(cfg: Config, rcpts: seq<Bytes>): seq<Bytes> {
    if cfg.maxRecipients > 0 && |rcpts| > cfg.maxRecipients then rcpts[..cfg.maxRecipients] else rcpts
  }

  predicate Accounted(cfg: Config, tx: Tx) {
    Merge(Capped(cfg, tx.rcpts), tx.accepted, tx.rejected)
  }

  // ---------------------------------------------------------------- the session invariant

  /** How the phase, the BDAT sequence, the buffer and TLS fit together. */
  predicate InPhase(cfg: Config, s: Session) {
    && s.phase <= PHASE_RCPT
    && (s.inBdat ==> s.phase == PHASE_RCPT && s.tx.accepted != [])
    && (!s.inBdat ==> s.bodyBuf == "")
    && (s.phase >= PHASE_MAIL ==> s.tx.helo != "" && (cfg.requireTLS ==> s.tls))
    && (s.phase <= PHASE_MAIL ==> s.tx.rcpts == [] && s.tx.accepted == [] && s.tx.rejected == [])
    && s.tx.tls == s.tls
    && (cfg.maxMessageSize > 0 ==> |s.bodyBuf| <= cfg.maxMessageSize)
  }

  predicate ValidEnvelope(cfg: Config, s: Session) {
    && (s.phase >= PHASE_MAIL ==> ValidReversePath(s.tx.mailFrom))
    && Accounted(cfg, s.tx)
    && (forall a :: a in s.tx.accepted ==> ValidAddress(a))
  }

  predicate Inv(cfg: Config, s: Session) {
    InPhase(cfg, s) && ValidEnvelope(cfg, s)
  }

  lemma StartInv(cfg: Config, tls: bool)
    ensures Inv(cfg, Start(cfg, tls))
  {
  }

  lemma EndTxInv(cfg: Config, s: Session, phase: nat)
    requires Inv(cfg, s) && phase <= PHASE_HELO
    ensures Inv(cfg, EndTx(s, phase))
  {
  }

  lemma MailInv(cfg: Config, h: Handler, s: Session, args: Option<MailArgs>)
    requires Inv(cfg, s) && Parsed(MAIL(args))
    ensures s.inBdat || Inv(cfg, Mail(cfg, h, s, args).0)
  {
  }

  lemma MergeGrows(all: seq<Bytes>, accepted: seq<Bytes>, rejected: seq<Rejection>, to: Bytes, resp: Response)
    requires Merge(all, accepted, rejected)
    ensures Merge(all + [to], accepted + [to], rejected)
    ensures Merge(all + [to], accepted, rejected + [Rejection(to, resp)])
  {
    assert (all + [to])[..|all|] == all;
    assert (accepted + [to])[..|accepted|] == accepted;
    assert (rejected + [Rejection(to, resp)])[..|rejected|] == rejected;
  }

  lemma CappedGrows(cfg: Config, rcpts: seq<Bytes>, to: Bytes)
    ensures Capped(cfg, rcpts + [to])
            == if cfg.maxRecipients > 0 && |rcpts| + 1 > cfg.maxRecipients then Capped(cfg, rcpts)
               else Capped(cfg, rcpts) + [to]
  {
    if cfg.maxRecipients > 0 && |rcpts| + 1 > cfg.maxRecipients {
      assert (rcpts + [to])[..cfg.maxRecipients] == rcpts[..cfg.maxRecipients];
      if |rcpts| == cfg.maxRecipients {
        assert rcpts[..cfg.maxRecipients] == rcpts;
      }
    }
  }

  lemma AccountedGrows(cfg: Config, tx: Tx, to: Bytes, resp: Response)
    requires Accounted(cfg, tx)
    ensures var listed := tx.(rcpts := tx.rcpts + [to]);
            if cfg.maxRecipients > 0 && |listed.rcpts| > cfg.maxRecipients then Accounted(cfg, listed)
            else Accounted(cfg, listed.(accepted := tx.accepted + [to]))
                 && Accounted(cfg, listed.(rejected := tx.rejected + [Rejection(to, resp)]))
  {
    CappedGrows(cfg, tx.rcpts, to);
    MergeGrows(Capped(cfg, tx.rcpts), tx.accepted, tx.rejected, to, resp);
  }

  predicate BeyondLimit(cfg: Config, tx: Tx) {
    cfg.maxRecipients > 0 && |tx.rcpts| > cfg.maxRecipients
  }

  /** Every recipient is accepted or rejected if and only if their number is within the limit;
      of more than that, only as many as the limit allows are. */
  predicate RecordedWithinLimit(cfg: Config, tx: Tx) {
    && (|tx.accepted| + |tx.rejected| == |tx.rcpts| <==> !BeyondLimit(cfg, tx))
    && (BeyondLimit(cfg, tx) ==> |tx.accepted| + |tx.rejected| == cfg.maxRecipients)
  }

  /** One valid recipient more than the limit is listed, and neither accepted nor rejected. */
  lemma OneTooMany(cfg: Config, h: Handler, s: Session, to: Bytes)
    requires s.tx.helo != "" && s.phase >= PHASE_MAIL && ValidAddress(to)
    requires 0 < cfg.maxRecipients <= |s.tx.rcpts|
    ensures var tx := Rcpt(cfg, h, s, to).0.tx;
            && tx == s.tx.(rcpts := s.tx.rcpts + [to]) && BeyondLimit(cfg, tx)
  {
  }

  lemma RecipientsRecorded(cfg: Config, tx: Tx)
    requires Accounted(cfg, tx)
    ensures RecordedWithinLimit(cfg, tx)
  {
    MergeCounts(Capped(cfg, tx.rcpts), tx.accepted, tx.rejected);
  }

  lemma RcptInPhase(cfg: Config, h: Handler, s: Session, to: Bytes)
    requires InPhase(cfg, s)
    ensures InPhase(cfg, Rcpt(cfg, h, s, to).0)
  {
  }

  lemma RcptEnvelope(cfg: Config, h: Handler, s: Session, to: Bytes)
    requires ValidEnvelope(cfg, s)
    ensures ValidEnvelope(cfg, Rcpt(cfg, h, s, to).0)
  {
    var resp := Rcpt(cfg, h, s, to).1;
    AccountedGrows(cfg, s.tx, to, resp);
    hide Accounted;
    hide ValidAddress;
    hide ValidReversePath;
  }

  /** The limit check and the chunk cap together bound the buffer, even where the addition in
      the limit check wraps around. */
  lemma ChunkWithinLimit(cfg: Config, s: Session, size: nat)
    requires Representable(cfg) && cfg.maxMessageSize > 0 && |s.bodyBuf| <= cfg.maxMessageSize
    requires !OverLimit(cfg, s, size) && size <= MAX_CHUNK
    ensures |s.bodyBuf| + size <= cfg.maxMessageSize
  {
  }

  lemma AppendInv(cfg: Config, h: Handler, s: Session, net: Net, bytes: Bytes, last: bool)
    requires Inv(cfg, s) && s.phase >= PHASE_RCPT && s.tx.accepted != []
    requires cfg.maxMessageSize > 0 ==> |s.bodyBuf| + |bytes| <= cfg.maxMessageSize
    ensures Inv(cfg, Append(cfg, h, s, net, bytes, last).s)
  {
    hide Accounted;
    if last {
      var asked := Deliver(cfg, h, s.(bodyBuf := s.bodyBuf + bytes), s.bodyBuf + bytes).0;
      EmptyAccounted(cfg, asked);
    }
    hide ValidReversePath;
    hide ValidAddress;
  }

  lemma EmptyAccounted(cfg: Config, s: Session)
    ensures Accounted(cfg, NewTx(s)) && Accounted(cfg, ResetTx(s))
  {
  }

  lemma BdatInv(cfg: Config, h: Handler, s: Session, net: Net, chunk: Option<Chunk>)
    requires Inv(cfg, s) && Representable(cfg)
    ensures Inv(cfg, BdatCmd(cfg, h, s, net, chunk).s)
  {
    EndTxInv(cfg, s, PHASE_HELO);
    hide ValidEnvelope;
    hide EndTx;
    hide Append;
    hide OverLimit;
    hide WireTake;
    if chunk.Some? && BdatRefusal(cfg, s, chunk.value.size).None? {
      var size := chunk.value.size;
      var (bytes, wire) := ReadChunk(net.wire, size);
      if bytes.Some? {
        WireTakeLength(net.wire, size);
        if cfg.maxMessageSize > 0 {
          ChunkWithinLimit(cfg, s, size);
        }
        AppendInv(cfg, h, s, net.(wire := wire), bytes.value, chunk.value.last);
      }
    }
  }

  lemma WireTakeLength(w: Wire, n: nat)
    ensures WireTake(w, n).0.Some? ==> |WireTake(w, n).0.value| == n
  {
  }

  lemma DataInv(cfg: Config, h: Handler, s: Session, net: Net, read: (BodyResult, Wire))
    requires Inv(cfg, s)
    ensures Inv(cfg, DataCmd(cfg, h, s, net, read).s)
  {
  }

  lemma GreetInv(cfg: Config, h: Handler, s: Session, domain: Bytes, extended: bool)
    requires Inv(cfg, s)
    ensures Inv(cfg, Greet(cfg, h, s, domain, extended).0)
  {
  }

  lemma SecureInv(cfg: Config, s: Session, net: Net)
    requires Inv(cfg, s)
    ensures Inv(cfg, Secure(cfg, s, net).s)
  {
  }

  lemma SaidInv(cfg: Config, s: Session, reply: Option<Reply>)
    requires Inv(cfg, s)
    ensures Inv(cfg, Said(s, reply))
  {
  }

  /** Every command keeps the invariant. */
  lemma ExecKeepsInv(cfg: Config, h: Handler, s: Session, net: Net, cmd: Cmd)
    requires Inv(cfg, s) && Representable(cfg) && Parsed(cmd)
    ensures Inv(cfg, Exec(cfg, h, s, net, cmd).s) && Inv(cfg, Replied(Exec(cfg, h, s, net, cmd)))
  {
    hide Greet;
    hide Mail;
    hide Rcpt;
    hide Secure;
    hide DataCmd;
    hide BdatCmd;
    hide ReadBody;
    EndTxInv(cfg, s, PHASE_HELO);
    EndTxInv(cfg, s, PHASE_INIT);
    var o := Exec(cfg, h, s, net, cmd);
    match cmd {
      case HELO(domain) => GreetInv(cfg, h, s, domain, false);
      case EHLO(domain) => GreetInv(cfg, h, s, domain, true);
      case STARTTLS => SecureInv(cfg, s, net);
      case MAIL(args) => MailInv(cfg, h, s, args);
      case RCPT(to) => RcptInPhase(cfg, h, s, to); RcptEnvelope(cfg, h, s, to);
      case DATA => DataInv(cfg, h, s, net, ReadBody(net.wire, cfg.maxMessageSize));
      case BDAT(chunk) => BdatInv(cfg, h, s, net, chunk);
      case _ =>
    }
    SaidInv(cfg, o.s, o.reply);
  }

  // ---------------------------------------------------------------- what only ever grows

  /** The histories grow, TLS stays, and the greeting is forgotten only when TLS is switched on. */
  predicate Evolves(s: Session, s': Session) {
    && s.calls <= s'.calls && s.replies <= s'.replies && s.postcats <= s'.postcats
    && (s.tls ==> s'.tls)
    && (s.tx.helo != "" && s'.tx.helo == "" ==> !s.tls && s'.tls)
  }

  lemma MailEvolves(cfg: Config, h: Handler, s: Session, args: Option<MailArgs>)
    ensures Evolves(s, Mail(cfg, h, s, args).0)
    ensures Mail(cfg, h, s, args).0.tls == s.tls
  {
  }

  lemma RcptEvolves(cfg: Config, h: Handler, s: Session, to: Bytes)
    ensures Evolves(s, Rcpt(cfg, h, s, to).0)
    ensures Rcpt(cfg, h, s, to).0.tls == s.tls
  {
  }

  lemma GreetEvolves(cfg: Config, h: Handler, s: Session, domain: Bytes, extended: bool)
    ensures Evolves(s, Greet(cfg, h, s, domain, extended).0)
    ensures Greet(cfg, h, s, domain, extended).0.tls == s.tls
  {
  }

  lemma SecureEvolves(cfg: Config, s: Session, net: Net)
    ensures Evolves(s, Secure(cfg, s, net).s)
  {
  }

  lemma DataBodyEvolves(cfg: Config, h: Handler, s: Session, res: BodyResult)
    ensures var after := DataBody(cfg, h, s, res).0;
            Evolves(s, after) && after.tls == s.tls && after.tx == s.tx
  {
    hide Contains8Bit;
    hide DeclaresEightBit;
  }

  lemma EndEvolves(s: Session, s': Session, phase: nat)
    requires Evolves(s, s') && s'.tls == s.tls && s'.tx == s.tx
    ensures Evolves(s, EndTx(s', phase)) && EndTx(s', phase).tls == s.tls
  {
  }

  lemma DataEvolves(cfg: Config, h: Handler, s: Session, net: Net, read: (BodyResult, Wire))
    ensures Evolves(s, DataCmd(cfg, h, s, net, read).s)
    ensures DataCmd(cfg, h, s, net, read).s.tls == s.tls
  {
    hide DataBody;
    var begun := Said(s, Some(Reply(354, [GoAhead])));
    DataBodyEvolves(cfg, h, begun, read.0);
    EndEvolves(s, s, PHASE_HELO);
    EndEvolves(s, DataBody(cfg, h, begun, read.0).0, PHASE_HELO);
    hide EndTx;
  }

  lemma AppendEvolves(cfg: Config, h: Handler, s: Session, net: Net, bytes: Bytes, last: bool)
    ensures Evolves(s, Append(cfg, h, s, net, bytes, last).s)
    ensures Append(cfg, h, s, net, bytes, last).s.tls == s.tls
  {
  }

  lemma BdatEvolves(cfg: Config, h: Handler, s: Session, net: Net, chunk: Option<Chunk>)
    ensures Evolves(s, BdatCmd(cfg, h, s, net, chunk).s)
    ensures BdatCmd(cfg, h, s, net, chunk).s.tls == s.tls
  {
    EndEvolves(s, s, PHASE_HELO);
    if chunk.Some? {
      var (bytes, wire) := ReadChunk(net.wire, chunk.value.size);
      if bytes.Some? {
        AppendEvolves(cfg, h, s, net.(wire := wire), bytes.value, chunk.value.last);
      }
    }
    hide EndTx;
    hide Append;
    hide ReadChunk;
    hide BdatRefusal;
    hide WireTake;
    hide Evolves;
  }

  lemma SaidEvolves(s: Session, s': Session, reply: Option<Reply>)
    requires Evolves(s, s')
    ensures Evolves(s, Said(s', reply))
  {
  }

  lemma TakeoverEvolves(cfg: Config, h: Handler, s: Session, net: Net, cmd: Cmd)
    requires Takeover(cmd)
    ensures var after := Exec(cfg, h, s, net, cmd).s;
            Evolves(s, after) && (!s.tls && after.tls ==> cmd.STARTTLS?)
  {
    EndEvolves(s, s, PHASE_HELO);
    hide Evolves;
    hide EndTx;
    hide Secure;
    hide DataCmd;
    hide BdatCmd;
    hide ReadBody;
    match cmd {
      case STARTTLS => SecureEvolves(cfg, s, net);
      case DATA => DataEvolves(cfg, h, s, net, ReadBody(net.wire, cfg.maxMessageSize));
      case BDAT(chunk) => BdatEvolves(cfg, h, s, net, chunk);
      case _ =>
    }
  }

  lemma PlainEvolves(cfg: Config, h: Handler, s: Session, net: Net, cmd: Cmd)
    requires !Takeover(cmd)
    ensures var after := Exec(cfg, h, s, net, cmd).s; Evolves(s, after) && after.tls == s.tls
  {
    EndEvolves(s, s, PHASE_HELO);
    EndEvolves(s, s, PHASE_INIT);
    hide Evolves;
    hide EndTx;
    hide Greet;
    hide Mail;
    hide Rcpt;
    match cmd {
      case HELO(domain) => GreetEvolves(cfg, h, s, domain, false);
      case EHLO(domain) => GreetEvolves(cfg, h, s, domain, true);
      case MAIL(args) => MailEvolves(cfg, h, s, args);
      case RCPT(to) => RcptEvolves(cfg, h, s, to);
      case _ => SelfEvolves(s);
    }
  }

  lemma SelfEvolves(s: Session)
    ensures Evolves(s, s)
  {
  }

  lemma ExecEvolves(cfg: Config, h: Handler, s: Session, net: Net, cmd: Cmd)
    ensures var o := Exec(cfg, h, s, net, cmd);
            && Evolves(s, o.s) && Evolves(s, Replied(o))
            && (!s.tls && o.s.tls ==> cmd.STARTTLS?)
  {
    hide Exec;
    hide Evolves;
    if Takeover(cmd) {
      TakeoverEvolves(cfg, h, s, net, cmd);
    } else {
      PlainEvolves(cfg, h, s, net, cmd);
    }
    var o := Exec(cfg, h, s, net, cmd);
    SaidEvolves(s, o.s, o.reply);
  }
}
