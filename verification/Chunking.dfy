/** BDAT on the wire (section 2 of RFC 3030): framing of single chunks, and messages sent in
    any number of chunks. */
module Chunking {
  import opened Text
  import opened Lines
  import opened Commands
  import opened Session
  import opened Invariants
  import opened Answers
  import opened Phases
  import opened Scripts

  /** A size that passes every check and is over the chunk cap: the chunk will not be read. */
  predicate LeftUnread(cfg: Config, s: Session, size: nat) {
    BdatRefusal(cfg, s, size).None? && size > MAX_CHUNK
  }

  /** A BDAT whose chunk has arrived consumes exactly the declared number of bytes, whether it
      is accepted or refused; except that a chunk over the cap which passes every check is
      refused with nothing consumed, whatever has arrived of it. */
  lemma BdatFraming(cfg: Config, h: Handler, s: Session, net: Net, c: Chunk)
    ensures LeftUnread(cfg, s, c.size) ==> BdatCmd(cfg, h, s, net, Some(c)).net == net
    ensures !LeftUnread(cfg, s, c.size) && net.wire != [] && c.size <= |net.wire[0]|
            ==> BdatCmd(cfg, h, s, net, Some(c)).net == net.(wire := [net.wire[0][c.size..]] + net.wire[1..])
  {
    if net.wire != [] {
      assert [net.wire[0][0..]] + net.wire[1..] == net.wire;
    }
  }

  /** The largest size a client can declare is left unread in every open BDAT sequence: the sum
      in the limit check wraps around, whatever the limit. */
  lemma LargestIsLeftUnread(cfg: Config, h: Handler, s: Session, net: Net, last: bool)
    requires cfg.maxMessageSize <= MAX_INT64 && 0 < |s.bodyBuf| <= MAX_INT64
    requires s.phase >= PHASE_RCPT && s.tx.accepted != []
    ensures LeftUnread(cfg, s, MAX_INT64)
    ensures BdatCmd(cfg, h, s, net, Some(Chunk(MAX_INT64, last))) == Closing(s, net, Response(451, ChunkFailed))
  {
  }

  /** A chunk that breaks off is lost with what has arrived of it, and so is the message: the
      transaction ends without a callback. */
  lemma CutOffChunk(cfg: Config, h: Handler, s: Session, part: Bytes, more: Wire, upgrade: Option<Wire>, c: Chunk)
    requires |part| < c.size <= MAX_CHUNK
    ensures var o := Exec(cfg, h, s, Net([part] + more, upgrade), BDAT(Some(c)));
            && TransactionOver(s, o.s) && o.s.calls == s.calls && o.s.postcats == s.postcats
            && o.net == Net(more, upgrade)
            && (BdatRefusal(cfg, s, c.size).None? ==> o.reply == Some(Reply(451, [ChunkFailed])))
  {
    hide OverLimit;
    var w := [part] + more;
    assert w[0] == part && w[1..] == more;
  }

  /** Which sizes the 64-bit limit check stops: those over the limit whose sum does not wrap. */
  lemma LimitCheckMeans(cfg: Config, s: Session, size: nat)
    requires size <= MAX_INT64 && |s.bodyBuf| <= MAX_INT64 && cfg.maxMessageSize > 0
    ensures OverLimit(cfg, s, size) <==> cfg.maxMessageSize < |s.bodyBuf| + size <= MAX_INT64
  {
  }

  /** A BDAT command is read with its chunk behind it, and handled on that. */
  lemma BdatOnWire(cfg: Config, h: Handler, s: Session, c: Chunk, rest: Bytes, more: Wire, upgrade: Option<Wire>)
    requires c.size <= MAX_INT64
    ensures var (cmd, after) := ReadCmd(Net([LineOf(BdatLine(c)) + rest] + more, upgrade));
            && cmd == Some(BDAT(Some(c))) && after == Net([rest] + more, upgrade)
            && Exec(cfg, h, s, after, cmd.value) == BdatCmd(cfg, h, s, after, Some(c))
  {
    hide *;
    BdatLineFits(c);
    ParsesBdat(c);
    ReadsCommand(BdatLine(c), rest, more, upgrade);
    BdatExec(cfg, h, s, Net([rest] + more, upgrade), Some(c));
  }

  /** The next command after a chunk starts right behind it. */
  lemma NextCommandAfterChunk(cfg: Config, h: Handler, s: Session, c: Chunk, chunk: Bytes, tail: Bytes,
                              more: Wire, upgrade: Option<Wire>)
    requires |chunk| == c.size <= MAX_INT64 && !LeftUnread(cfg, s, c.size)
    ensures var (cmd, after) := ReadCmd(Net([LineOf(BdatLine(c)) + (chunk + tail)] + more, upgrade));
            cmd == Some(BDAT(Some(c))) && Exec(cfg, h, s, after, cmd.value).net == Net([tail] + more, upgrade)
  {
    hide *;
    BdatOnWire(cfg, h, s, c, chunk + tail, more, upgrade);
    var after := Net([chunk + tail] + more, upgrade);
    assert (chunk + tail)[c.size..] == tail;
    assert after.wire[0] == chunk + tail && after.wire[1..] == more;
    BdatFraming(cfg, h, s, after, c);
  }

  /** A chunk that is left unread is read as commands. */
  lemma NextCommandInsideChunk(cfg: Config, h: Handler, s: Session, c: Chunk, tail: Bytes, more: Wire,
                               upgrade: Option<Wire>)
    requires c.size <= MAX_INT64 && LeftUnread(cfg, s, c.size)
    ensures var (cmd, after) := ReadCmd(Net([LineOf(BdatLine(c)) + tail] + more, upgrade));
            cmd == Some(BDAT(Some(c))) && Exec(cfg, h, s, after, cmd.value).net == Net([tail] + more, upgrade)
  {
    hide *;
    BdatOnWire(cfg, h, s, c, tail, more, upgrade);
    BdatFraming(cfg, h, s, Net([tail] + more, upgrade), c);
  }

  /** A BDAT that is taken, when its chunk has arrived. */
  lemma TakesChunk(cfg: Config, h: Handler, s: Session, chunk: Bytes, last: bool, tail: Bytes, more: Wire,
                   upgrade: Option<Wire>)
    requires Representable(cfg) && s.phase >= PHASE_RCPT && s.tx.accepted != [] && |chunk| <= MAX_CHUNK
    requires cfg.maxMessageSize > 0 ==> |s.bodyBuf| + |chunk| <= cfg.maxMessageSize
    ensures Exec(cfg, h, s, Net([chunk + tail] + more, upgrade), BDAT(Some(Chunk(|chunk|, last))))
            == Append(cfg, h, s, Net([tail] + more, upgrade), chunk, last)
  {
    hide Append;
    if cfg.maxMessageSize > 0 {
      LimitCheckMeans(cfg, s, |chunk|);
    }
    hide OverLimit;
    var net := Net([chunk + tail] + more, upgrade);
    assert (chunk + tail)[|chunk|..] == tail && (chunk + tail)[..|chunk|] == chunk;
    assert net.wire[1..] == more;
    if chunk == "" {
      assert [tail] + more == net.wire;
    }
  }

  // ---------------------------------------------------------------- messages in chunks

  /** A chunk and the number of NOOPs sent before it. */
  datatype Piece = Piece(bytes: Bytes, noops: nat)

  function Noops(k: nat): Bytes {
    if k == 0 then "" else LineOf("NOOP") + Noops(k - 1)
  }

  /** The bytes a client sends for a message cut into pieces, the last one marked LAST. */
  function SendPieces(pieces: seq<Piece>): Bytes
    requires pieces != []
  {
    var p := pieces[0];
    var last := |pieces| == 1;
    var rest := if last then "" else SendPieces(pieces[1..]);
    Noops(p.noops) + (LineOf(BdatLine(Chunk(|p.bytes|, last))) + (p.bytes + rest))
  }

  function Joined(pieces: seq<Piece>): Bytes {
    if pieces == [] then "" else pieces[0].bytes + Joined(pieces[1..])
  }

  function Okays(n: nat): seq<Reply> {
    seq(n, i => Reply(250, [Okay]))
  }

  /** Replies before the final one: one for every NOOP and every chunk but the last. */
  function Acks(pieces: seq<Piece>): nat
    requires pieces != []
  {
    pieces[0].noops + if |pieces| == 1 then 0 else 1 + Acks(pieces[1..])
  }

  function Acked(s: Session, n: nat): Session {
    s.(replies := s.replies + Okays(n))
  }

  /** The session after the handler was given `body` and its answer was passed on. */
  function Completed(cfg: Config, h: Handler, s: Session, body: Bytes): Session {
    var (after, resp) := Deliver(cfg, h, s.(bodyBuf := body), body);
    Said(EndTx(after, PHASE_HELO), Some(Reply(resp.code, [resp.message])))
  }

  lemma {:induction false} ServeNoops(cfg: Config, h: Handler, s: Session, k: nat, tail: Bytes, more: Wire,
                                      upgrade: Option<Wire>)
    ensures Serve(cfg, h, s, Net([Noops(k) + tail] + more, upgrade))
            == Serve(cfg, h, Acked(s, k), Net([tail] + more, upgrade))
    decreases k
  {
    hide Serve;
    hide ParseCommand;
    if k == 0 {
      assert Noops(0) + tail == tail;
      assert s.replies + Okays(0) == s.replies;
    } else {
      assert Noops(k) + tail == LineOf("NOOP") + (Noops(k - 1) + tail);
      ParsesNoop();
      ServeOne(cfg, h, s, "NOOP", Noops(k - 1) + tail, more, upgrade);
      ServeNoops(cfg, h, Acked(s, 1), k - 1, tail, more, upgrade);
      assert Said(s, Some(Reply(250, [Okay]))) == Acked(s, 1);
      assert Okays(1) + Okays(k - 1) == Okays(k);
      assert s.replies + Okays(1) + Okays(k - 1) == s.replies + (Okays(1) + Okays(k - 1));
    }
  }

  predicate PiecesFit(cfg: Config, s: Session, pieces: seq<Piece>) {
    && (forall i :: 0 <= i < |pieces| ==> |pieces[i].bytes| <= MAX_CHUNK)
    && (cfg.maxMessageSize > 0 ==> |s.bodyBuf| + |Joined(pieces)| <= cfg.maxMessageSize)
  }

  lemma FirstSent(pieces: seq<Piece>, tail: Bytes)
    requires pieces != []
    ensures var p := pieces[0];
            var last := |pieces| == 1;
            var rest := if last then "" else SendPieces(pieces[1..]);
            SendPieces(pieces) + tail
            == Noops(p.noops) + (LineOf(BdatLine(Chunk(|p.bytes|, last))) + (p.bytes + (rest + tail)))
  {
    hide Noops;
    hide LineOf;
    hide BdatLine;
  }

  lemma AppendGoesOn(cfg: Config, h: Handler, s: Session, net: Net, bytes: Bytes, last: bool)
    ensures var o := Append(cfg, h, s, net, bytes, last);
            && !o.ended && o.net == net
            && Replied(o) == if last then Completed(cfg, h, s, s.bodyBuf + bytes)
                             else Said(s.(bodyBuf := s.bodyBuf + bytes, inBdat := true), Some(Reply(250, [Okay])))
  {
    hide Deliver;
  }

  /** The server takes the first piece of a message. */
  lemma FirstTaken(cfg: Config, h: Handler, s: Session, pieces: seq<Piece>, tail: Bytes, more: Wire,
                   upgrade: Option<Wire>)
    requires Representable(cfg) && s.phase >= PHASE_RCPT && s.tx.accepted != []
    requires pieces != [] && PiecesFit(cfg, s, pieces)
    ensures var last := |pieces| == 1;
            var rest := if last then "" else SendPieces(pieces[1..]);
            var s1 := Acked(s, pieces[0].noops);
            Serve(cfg, h, s, Net([SendPieces(pieces) + tail] + more, upgrade))
            == Serve(cfg, h, Replied(Append(cfg, h, s1, Net([rest + tail] + more, upgrade), pieces[0].bytes, last)),
                     Net([rest + tail] + more, upgrade))
  {
    var p := pieces[0];
    var last := |pieces| == 1;
    var rest := if last then "" else SendPieces(pieces[1..]);
    var c := Chunk(|p.bytes|, last);
    var s1 := Acked(s, p.noops);
    assert |p.bytes| <= MAX_CHUNK && (cfg.maxMessageSize > 0 ==> |s1.bodyBuf| + |p.bytes| <= cfg.maxMessageSize) by {
      assert |Joined(pieces)| == |p.bytes| + |Joined(pieces[1..])|;
    }
    assert s1.phase == s.phase && s1.tx == s.tx;
    hide *;
    var after := p.bytes + (rest + tail);
    FirstSent(pieces, tail);
    ServeNoops(cfg, h, s, p.noops, LineOf(BdatLine(c)) + after, more, upgrade);
    BdatLineFits(c);
    ParsesBdat(c);
    ServeOne(cfg, h, s1, BdatLine(c), after, more, upgrade);
    TakesChunk(cfg, h, s1, p.bytes, last, rest + tail, more, upgrade);
    AppendGoesOn(cfg, h, s1, Net([rest + tail] + more, upgrade), p.bytes, last);
  }

  /** However a message is cut into chunks, the handler gets it once and whole: the server
      reaches the state that delivering the concatenation at once would lead to, with one more
      reply for every further chunk and NOOP. */
  lemma {:induction false} ChunksDelivered(cfg: Config, h: Handler, s: Session, pieces: seq<Piece>, tail: Bytes,
                                           more: Wire, upgrade: Option<Wire>)
    requires Representable(cfg) && s.phase >= PHASE_RCPT && s.tx.accepted != []
    requires pieces != [] && PiecesFit(cfg, s, pieces)
    ensures Serve(cfg, h, s, Net([SendPieces(pieces) + tail] + more, upgrade))
            == Serve(cfg, h, Completed(cfg, h, Acked(s, Acks(pieces)), s.bodyBuf + Joined(pieces)),
                     Net([tail] + more, upgrade))
    decreases |pieces|
  {
    hide Serve;
    hide Append;
    hide Completed;
    hide SendPieces;
    hide Okays;
    FirstTaken(cfg, h, s, pieces, tail, more, upgrade);
    var p := pieces[0];
    var last := |pieces| == 1;
    var rest := if last then "" else SendPieces(pieces[1..]);
    var s1 := Acked(s, p.noops);
    AppendGoesOn(cfg, h, s1, Net([rest + tail] + more, upgrade), p.bytes, last);
    if last {
      assert pieces[1..] == [];
      assert Joined(pieces) == p.bytes + Joined([]);
      assert p.bytes + "" == p.bytes;
      assert rest + tail == tail;
    } else {
      assert |Joined(pieces)| == |p.bytes| + |Joined(pieces[1..])|;
      NextPiece(cfg, h, s, pieces);
      hide Joined;
      hide Acks;
      var s2 := Said(s1.(bodyBuf := s1.bodyBuf + p.bytes, inBdat := true), Some(Reply(250, [Okay])));
      ChunksDelivered(cfg, h, s2, pieces[1..], tail, more, upgrade);
    }
  }

  /** The replies to the first piece and to the later ones are the replies to them all. */
  lemma AcksAddUp(s: Session, pieces: seq<Piece>)
    requires |pieces| > 1
    ensures var first := Said(Acked(s, pieces[0].noops), Some(Reply(250, [Okay])));
            Acked(first, Acks(pieces[1..])) == Acked(s, Acks(pieces))
  {
    var k, later := pieces[0].noops, Acks(pieces[1..]);
    assert Acks(pieces) == k + 1 + later;
    hide Acks;
    var head, tail := Okays(k), Okays(later);
    assert head + [Reply(250, [Okay])] + tail == Okays(k + 1 + later);
    hide Okays;
    assert s.replies + head + [Reply(250, [Okay])] + tail == s.replies + (head + [Reply(250, [Okay])] + tail);
  }

  /** Taking the first of several pieces and then completing is the same as completing. */
  lemma NextPiece(cfg: Config, h: Handler, s: Session, pieces: seq<Piece>)
    requires |pieces| > 1
    ensures var s1 := Acked(s, pieces[0].noops);
            var s2 := Said(s1.(bodyBuf := s1.bodyBuf + pieces[0].bytes, inBdat := true), Some(Reply(250, [Okay])));
            Completed(cfg, h, Acked(s2, Acks(pieces[1..])), s2.bodyBuf + Joined(pieces[1..]))
            == Completed(cfg, h, Acked(s, Acks(pieces)), s.bodyBuf + Joined(pieces))
  {
    hide *;
    var s1 := Acked(s, pieces[0].noops);
    var buf := s.bodyBuf + pieces[0].bytes;
    var s2 := Said(s1.(bodyBuf := s1.bodyBuf + pieces[0].bytes, inBdat := true), Some(Reply(250, [Okay])));
    var later := Acks(pieces[1..]);
    AcksAddUp(s, pieces);
    FirstPieceTaken(s, pieces[0].noops, pieces[0].bytes, later);
    assert Acked(s2, later) == Acked(s, Acks(pieces)).(bodyBuf := buf, inBdat := true);
    JoinedFirst(s.bodyBuf, pieces);
    CompletedAlike(cfg, h, Acked(s, Acks(pieces)), buf, s.bodyBuf + Joined(pieces));
  }

  lemma Regroup(a: Bytes, b: Bytes, c: Bytes)
    ensures a + b + c == a + (b + c)
  {
  }

  lemma JoinedFirst(buf: Bytes, pieces: seq<Piece>)
    requires pieces != []
    ensures buf + pieces[0].bytes + Joined(pieces[1..]) == buf + Joined(pieces)
  {
    var rest := Joined(pieces[1..]);
    assert Joined(pieces) == pieces[0].bytes + rest;
    hide Joined;
    Regroup(buf, pieces[0].bytes, rest);
  }

  lemma FirstPieceTaken(s: Session, noops: nat, bytes: Bytes, later: nat)
    ensures var s1 := Acked(s, noops);
            var s2 := Said(s1.(bodyBuf := s1.bodyBuf + bytes, inBdat := true), Some(Reply(250, [Okay])));
            && s2.bodyBuf == s.bodyBuf + bytes
            && Acked(s2, later)
               == Acked(Said(s1, Some(Reply(250, [Okay]))), later).(bodyBuf := s.bodyBuf + bytes, inBdat := true)
  {
    hide Okays;
  }

  /** What was in the buffer before makes no difference to a completed message. */
  lemma CompletedAlike(cfg: Config, h: Handler, s: Session, buf: Bytes, body: Bytes)
    ensures Completed(cfg, h, s.(bodyBuf := buf, inBdat := true), body) == Completed(cfg, h, s, body)
  {
    DeliverIgnoresMode(cfg, h, s.(bodyBuf := body), body, true);
    hide Deliver;
    assert s.(bodyBuf := buf, inBdat := true).(bodyBuf := body) == s.(bodyBuf := body).(inBdat := true);
  }

  /** Completing a message after earlier replies. */
  lemma CompletedAfter(cfg: Config, h: Handler, s: Session, n: nat, body: Bytes)
    ensures Completed(cfg, h, Acked(s, n), body)
            == After(s.replies + Okays(n), Completed(cfg, h, s.(replies := []), body))
  {
    hide Okays;
    var asked := Call.Data(s.tx, body);
    var resp := OrBadSequence(h(s.calls + [asked]));
    var reply := Reply(resp.code, [resp.message]);
    assert s.replies + Okays(n) + ([] + [reply]) == s.replies + Okays(n) + [reply];
  }

  /** Two ways of cutting the same message lead to the same session, to its very end: the same
      callbacks, records and unread bytes, and the same replies except for the
      acknowledgements of chunks and NOOPs. */
  lemma CutsAgree(cfg: Config, h: Handler, s: Session, a: seq<Piece>, b: seq<Piece>, tail: Bytes, more: Wire,
                  upgrade: Option<Wire>) returns (later: seq<Reply>)
    requires Representable(cfg) && s.phase >= PHASE_RCPT && s.tx.accepted != []
    requires a != [] && PiecesFit(cfg, s, a) && b != [] && PiecesFit(cfg, s, b) && Joined(a) == Joined(b)
    ensures var ea := Serve(cfg, h, s, Net([SendPieces(a) + tail] + more, upgrade));
            var eb := Serve(cfg, h, s, Net([SendPieces(b) + tail] + more, upgrade));
            && ea.net == eb.net && ea.s == eb.s.(replies := ea.s.replies)
            && ea.s.replies == s.replies + Okays(Acks(a)) + later
            && eb.s.replies == s.replies + Okays(Acks(b)) + later
  {
    ChunksDelivered(cfg, h, s, a, tail, more, upgrade);
    ChunksDelivered(cfg, h, s, b, tail, more, upgrade);
    hide *;
    var body := s.bodyBuf + Joined(a);
    var done := Completed(cfg, h, s.(replies := []), body);
    CompletedAfter(cfg, h, s, Acks(a), body);
    CompletedAfter(cfg, h, s, Acks(b), body);
    var net := Net([tail] + more, upgrade);
    ServeAfter(cfg, h, s.replies + Okays(Acks(a)), done, net);
    ServeAfter(cfg, h, s.replies + Okays(Acks(b)), done, net);
    later := Serve(cfg, h, done, net).s.replies;
    AfterIs(s.replies + Okays(Acks(a)), Serve(cfg, h, done, net).s);
    AfterIs(s.replies + Okays(Acks(b)), Serve(cfg, h, done, net).s);
  }
}
