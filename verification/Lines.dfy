/** Lines on the wire: what a line is, and how `readLine` assembles one from fragments.

    The bytes of a connection arrive in bursts. A burst is the run of bytes received before
    a read fails (a timeout, a reset, a closed socket); after the last burst every read fails.
    A failed read loses the unterminated bytes in front of it and nothing else. */
module Lines {
  import opened Text

  /** Longest accepted line, excluding its end-of-line bytes. */
  const MAX_LINE := 65536

  datatype LineResult = Line(text: Bytes) | TooLong | ReadError

  type Wire = seq<Bytes>

  function ChopCr(s: Bytes): Bytes {
    if s != "" && s[|s| - 1] == CR then s[..|s| - 1] else s
  }

  /** The first line of `s`, which contains an LF: the bytes before the LF less one optional CR. */
  function FirstLine(s: Bytes): LineResult {
    var text := ChopCr(s[..IndexByte(s, LF)]);
    if |text| > MAX_LINE then TooLong else Line(text)
  }

  lemma FirstLineRead(s: Bytes)
    ensures !FirstLine(s).ReadError?
  {
  }

  function AfterLine(s: Bytes): (rest: Bytes)
    requires LF in s
    ensures |rest| < |s|
  {
    s[IndexByte(s, LF) + 1..]
  }

  /** One `readLine`: its result and the bytes left unread. */
  function WireLine(w: Wire): (LineResult, Wire) {
    if w == [] then (ReadError, [])
    else if LF in w[0] then (FirstLine(w[0]), [AfterLine(w[0])] + w[1..])
    else (ReadError, w[1..])
  }

  /** Bytes and read failures still to come. */
  function WireSize(w: Wire): nat {
    if w == [] then 0 else |w[0]| + 1 + WireSize(w[1..])
  }

  lemma WireLineShrinks(w: Wire)
    requires w != []
    ensures WireSize(WireLine(w).1) < WireSize(w)
  {
    if LF in w[0] {
      var rest := [AfterLine(w[0])] + w[1..];
      assert rest[1..] == w[1..];
    }
  }

  /** A terminated line in front of any bytes is read back, up to its length limit. */
  lemma ReadsTerminatedLine(text: Bytes, tail: Bytes, more: Wire)
    requires LF !in text
    ensures WireLine([text + CRLF + tail] + more)
            == (if |text| > MAX_LINE then TooLong else Line(text), [tail] + more)
  {
    var s := text + CRLF + tail;
    assert s == (text + "\r") + [LF] + tail;
    IndexByteAt(text + "\r", LF, tail);
    assert s[|text| + 1] == LF;
    assert s[..|text| + 1] == text + "\r";
    assert (text + "\r")[..|text|] == text;
    assert s[|text| + 2..] == tail;
  }

  /** So is a line that ends with a bare LF. */
  lemma ReadsBareLine(text: Bytes, tail: Bytes, more: Wire)
    requires LF !in text && (text != "" ==> text[|text| - 1] != CR)
    ensures WireLine([text + [LF] + tail] + more)
            == (if |text| > 65536 then TooLong else Line(text), [tail] + more)
  {
    IndexByteAt(text, LF, tail);
    FirstLineIs(text + [LF] + tail, text, tail);
    var w := [text + [LF] + tail] + more;
    assert w[0] == text + [LF] + tail && w[1..] == more;
  }

  /** A line whose LF does not arrive is no line. */
  lemma CutOffLine(text: Bytes, more: Wire)
    requires LF !in text
    ensures WireLine([text] + more) == (ReadError, more) && WireLine([]) == (ReadError, [])
  {
    var w := [text] + more;
    assert w[0] == text && w[1..] == more;
  }

  /** Reads exactly `n` raw bytes; a read that fails on the way loses the bytes before it. */
  function WireTake(w: Wire, n: nat): (Option<Bytes>, Wire) {
    if n == 0 then (Some(""), w)
    else if w == [] then (None, [])
    else if n <= |w[0]| then (Some(w[0][..n]), [w[0][n..]] + w[1..])
    else (None, w[1..])
  }

  lemma WireTakeShrinks(w: Wire, n: nat)
    ensures WireSize(WireTake(w, n).1) <= WireSize(w)
  {
    if n > 0 && w != [] && n <= |w[0]| {
      assert ([w[0][n..]] + w[1..])[1..] == w[1..];
    }
  }

  /** How a fragment ended: at the LF, at the end of the buffer, or at a failed read. */
  datatype Fragment = Complete | BufferFull | Failed

  /** The buffered reader of a connection, holding the bytes not yet consumed. */
  class BufReader {
    var wire: Wire

    constructor (wire: Wire)
      ensures this.wire == wire
    {
      this.wire := wire;
    }

    /** Hands out the bytes up to and including the next LF, or some shorter run of them when
        the buffer fills first. Where the buffer fills is unknown: `room` is any positive number
        of bytes, so the contract covers every buffer size and every split into fragments. */
    method ReadSlice(room: nat) returns (frag: Bytes, how: Fragment)
      requires room > 0
      modifies this
      ensures how.Failed? ==> WireLine(old(wire)) == (ReadError, wire)
      ensures !how.Failed? ==> old(wire) != [] && wire != [] && wire[1..] == old(wire)[1..]
                               && old(wire)[0] == frag + wire[0] && frag != ""
      ensures how.Complete? ==> IndexByte(frag, LF) == |frag| - 1
      ensures how.BufferFull? ==> LF !in frag
    {
      if wire == [] {
        return "", Failed;
      }
      var burst := wire[0];
      var end := IndexByte(burst, LF);
      if end < |burst| && end < room {
        frag, how := burst[..end + 1], Complete;
        wire := [burst[end + 1..]] + wire[1..];
      } else if room <= |burst| {
        frag, how := burst[..room], BufferFull;
        wire := [burst[room..]] + wire[1..];
      } else {
        frag, how := burst, Failed;
        wire := wire[1..];
      }
    }

    /** Reads exactly `n` bytes, or fails. */
    method ReadFull(n: nat) returns (res: Option<Bytes>)
      modifies this
      ensures (res, wire) == WireTake(old(wire), n)
    {
      if n == 0 {
        return Some("");
      }
      if wire == [] {
        return None;
      }
      var burst := wire[0];
      if n <= |burst| {
        res := Some(burst[..n]);
        wire := [burst[n..]] + wire[1..];
      } else {
        res := None;
        wire := wire[1..];
      }
    }

    /** Skips exactly `n` bytes, or as many as there are before a read fails. */
    method Discard(n: nat) returns (ok: bool)
      modifies this
      ensures wire == WireTake(old(wire), n).1 && ok == WireTake(old(wire), n).0.Some?
    {
      var skipped := ReadFull(n);
      ok := skipped.Some?;
    }

    /** Reads one line in bounded memory. `rooms` says how much buffer each fragment finds. */
    method ReadLine(rooms: nat -> nat) returns (res: LineResult, ghost held: nat)
      requires forall i :: rooms(i) > 0
      modifies this
      ensures (res, wire) == WireLine(old(wire))
      ensures held <= MAX_LINE + 2
    {
      hide Held;
      hide WireLine;
      hide ChopEol;
      var line: Bytes := "";
      var tooLong := false;
      var i: nat := 0;
      held := 0;
      ghost var seen: Bytes := "";
      ghost var start := wire;
      NothingHeld(wire);
      while true
        invariant LF !in seen && Held(start, seen, wire)
        invariant tooLong <==> |seen| > MAX_LINE + 2
        invariant !tooLong ==> line == seen
        invariant held <= MAX_LINE + 2
        decreases WireSize(wire)
      {
        ghost var before := wire;
        var frag, how := ReadSlice(rooms(i));
        i := i + 1;
        if !tooLong && |line| + |frag| > MAX_LINE + 2 {
          tooLong := true;
        }
        if !tooLong {
          line := line + frag;
          held := if |line| > held then |line| else held;
        }
        if how.Failed? {
          FailedAfter(start, seen, before);
          return ReadError, held;
        }
        HoldMore(start, seen, before, frag, wire);
        if how.Complete? {
          LineSeen(start, seen, frag, wire);
          seen := seen + frag;
          break;
        }
        seen := seen + frag;
      }
      if tooLong {
        return TooLong, held;
      }
      var text := ChopEol(line);
      if |text| > MAX_LINE {
        return TooLong, held;
      }
      return Line(text), held;
    }
  }

  /** Drops a final CRLF, then a final LF. */
  function ChopEol(s: Bytes): Bytes {
    var t := if |s| >= 2 && s[|s| - 2..] == CRLF then s[..|s| - 2] else s;
    if t != "" && t[|t| - 1] == LF then t[..|t| - 1] else t
  }

  /** `seen` has been consumed from `start`, which leaves `now`. */
  ghost predicate Held(start: Wire, seen: Bytes, now: Wire) {
    if seen == "" then now == start
    else start != [] && now != [] && now[1..] == start[1..] && start[0] == seen + now[0]
  }

  lemma NothingHeld(start: Wire)
    ensures Held(start, "", start)
  {
  }

  lemma HoldMore(start: Wire, seen: Bytes, before: Wire, frag: Bytes, now: Wire)
    requires Held(start, seen, before) && before != [] && now != [] && frag != ""
    requires now[1..] == before[1..] && before[0] == frag + now[0]
    ensures Held(start, seen + frag, now)
    ensures WireSize(now) < WireSize(before)
  {
    assert seen + (frag + now[0]) == seen + frag + now[0];
  }

  /** The fragment with the LF completes the line. */
  lemma LineSeen(start: Wire, seen: Bytes, frag: Bytes, now: Wire)
    requires Held(start, seen + frag, now) && frag != ""
    requires LF !in seen && IndexByte(frag, LF) == |frag| - 1
    ensures var text := ChopEol(seen + frag);
            && WireLine(start) == (if |text| > MAX_LINE then TooLong else Line(text), now)
            && |text| >= |seen + frag| - 2
  {
    var body := seen + frag[..|frag| - 1];
    assert frag == frag[..|frag| - 1] + [LF];
    assert seen + frag == body + [LF];
    assert start[0] == body + [LF] + now[0];
    assert [now[0]] + start[1..] == now;
    hide Held;
    IndexByteAt(body, LF, now[0]);
    FirstLineIs(start[0], body, now[0]);
    ChopsEol(body);
    assert |ChopCr(body)| >= |body| - 1;
    hide FirstLine;
    hide AfterLine;
    hide ChopCr;
    hide ChopEol;
  }

  lemma FirstLineIs(burst: Bytes, body: Bytes, rest: Bytes)
    requires burst == body + [LF] + rest && IndexByte(burst, LF) == |body|
    ensures LF in burst && AfterLine(burst) == rest
    ensures FirstLine(burst) == if |ChopCr(body)| > MAX_LINE then TooLong else Line(ChopCr(body))
  {
    assert burst[|body|] == LF;
    assert burst[..|body|] == body;
    assert burst[|body| + 1..] == rest;
  }

  /** Dropping CRLF and then LF from a line whose only LF is its last byte. */
  lemma ChopsEol(body: Bytes)
    requires LF !in body
    ensures ChopEol(body + [LF]) == ChopCr(body)
  {
    var raw := body + [LF];
    if body != "" && body[|body| - 1] == CR {
      assert raw[|raw| - 2..] == CRLF;
      assert raw[..|raw| - 2] == body[..|body| - 1];
    } else {
      assert |raw| >= 2 ==> raw[|raw| - 2] != CR;
      assert raw[..|raw| - 1] == body;
    }
  }

  /** A read that fails after `seen` has left the buffer fails on the whole line. */
  lemma FailedAfter(start: Wire, seen: Bytes, now: Wire)
    requires LF !in seen && Held(start, seen, now) && WireLine(now).0.ReadError?
    ensures WireLine(start) == WireLine(now)
  {
    if seen != "" {
      assert LF !in now[0];
      assert LF !in start[0];
    }
  }
}
