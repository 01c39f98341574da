/** Postcat files: S, R and T records, a blank line, and the message. */
module Postcat {
  import opened Text
  import opened Lines
  import opened Stuffing

  /** A point in time; `Clock` reads RFC 3339 text, which has no CR or LF (section 5.6). */
  type Instant = int
  type Clock = Bytes -> Option<Instant>

  datatype Message = Message(sender: Bytes, recipients: seq<Bytes>, time: Option<Instant>, body: Bytes)

  const EMPTY := Message("", [], None, "")

  // ---------------------------------------------------------------- writing

  function FormatNullSender(s: Bytes): Bytes {
    if s == "" || s == "<>" then "<>" else s
  }

  /** The address without its CR and LF bytes. */
  function SanitizeAddr(a: Bytes): (clean: Bytes)
    ensures CR !in clean && LF !in clean
    ensures CR !in a && LF !in a ==> clean == a
  {
    if a == "" then ""
    else if a[0] == CR || a[0] == LF then SanitizeAddr(a[1..])
    else [a[0]] + SanitizeAddr(a[1..])
  }

  /** Every other byte is kept, in its place. */
  lemma {:induction false} SanitizeKeeps(a: Bytes, c: char, b: Bytes)
    ensures SanitizeAddr(a + [c] + b) == SanitizeAddr(a) + (if IsEol(c) then "" else [c]) + SanitizeAddr(b)
  {
    var s := a + [c] + b;
    if a == "" {
      assert s[1..] == b;
    } else {
      assert s[0] == a[0] && s[1..] == a[1..] + [c] + b;
      SanitizeKeeps(a[1..], c, b);
    }
  }

  function SanitizeAll(addrs: seq<Bytes>): seq<Bytes> {
    seq(|addrs|, i requires 0 <= i < |addrs| => SanitizeAddr(addrs[i]))
  }

  function RecipientLines(addrs: seq<Bytes>): seq<Bytes> {
    seq(|addrs|, i requires 0 <= i < |addrs| => "R " + SanitizeAddr(addrs[i]))
  }

  /** The envelope records, without their line ends. */
  function EnvelopeLines(from: Bytes, accepted: seq<Bytes>, time: Bytes): seq<Bytes> {
    ["S " + SanitizeAddr(FormatNullSender(from))] + RecipientLines(accepted) + ["T " + time]
  }

  /** Lines, each with its line end, and a blank line. */
  function WithEol(lines: seq<Bytes>, eol: Bytes): Bytes {
    if lines == [] then eol else lines[0] + eol + WithEol(lines[1..], eol)
  }

  function FormatEnvelope(from: Bytes, accepted: seq<Bytes>, time: Bytes, body: Bytes): Bytes {
    WithEol(EnvelopeLines(from, accepted, time), "\n") + body
  }

  /** Lines, each with its line end. */
  function Terminated(lines: seq<Bytes>, eol: Bytes): Bytes {
    if lines == [] then "" else lines[0] + eol + Terminated(lines[1..], eol)
  }

  lemma {:induction false} TerminatedAppend(lines: seq<Bytes>, l: Bytes, eol: Bytes)
    ensures Terminated(lines + [l], eol) == Terminated(lines, eol) + l + eol
  {
    if lines == [] {
      assert [] + [l] == [l];
      assert [l][1..] == [];
    } else {
      assert (lines + [l])[1..] == lines[1..] + [l];
      TerminatedAppend(lines[1..], l, eol);
    }
  }

  lemma {:induction false} WithEolIs(lines: seq<Bytes>, eol: Bytes)
    ensures WithEol(lines, eol) == Terminated(lines, eol) + eol
  {
    if lines != [] {
      WithEolIs(lines[1..], eol);
    }
  }

  /** Writes the S, R and T records and the blank separator. */
  method WriteEnvelope(from: Bytes, accepted: seq<Bytes>, time: Bytes) returns (written: Bytes)
    ensures written == WithEol(EnvelopeLines(from, accepted, time), "\n")
  {
    hide SanitizeAddr;
    hide Terminated;
    hide WithEol;
    ghost var lines := ["S " + SanitizeAddr(FormatNullSender(from))];
    written := "S " + SanitizeAddr(FormatNullSender(from)) + "\n";
    StartTerminated(lines[0]);
    for i := 0 to |accepted|
      invariant lines == ["S " + SanitizeAddr(FormatNullSender(from))] + RecipientLines(accepted[..i])
      invariant written == Terminated(lines, "\n")
    {
      var line := "R " + SanitizeAddr(accepted[i]);
      TerminatedAppend(lines, line, "\n");
      assert RecipientLines(accepted[..i + 1]) == RecipientLines(accepted[..i]) + [line];
      lines := lines + [line];
      written := written + line + "\n";
    }
    assert accepted[..|accepted|] == accepted;
    TerminatedAppend(lines, "T " + time, "\n");
    written := written + ("T " + time) + "\n";
    WithEolIs(EnvelopeLines(from, accepted, time), "\n");
    written := written + "\n";
  }

  lemma StartTerminated(line: Bytes)
    ensures Terminated([line], "\n") == line + "\n"
  {
    assert [line][1..] == [];
  }

  // ---------------------------------------------------------------- reading

  predicate OccursAt(b: Bytes, pat: Bytes, i: nat) {
    i + |pat| <= |b| && b[i..i + |pat|] == pat
  }

  /** The first place at or after `from` where `pat` occurs. */
  function FirstIndex(b: Bytes, pat: Bytes, from: nat): (r: Option<nat>)
    ensures r.Some? ==> from <= r.value && OccursAt(b, pat, r.value)
    ensures r.Some? ==> forall i :: from <= i < r.value ==> !OccursAt(b, pat, i)
    ensures r.None? ==> forall i :: from <= i ==> !OccursAt(b, pat, i)
    decreases |b| - from
  {
    if OccursAt(b, pat, from) then Some(from)
    else if from >= |b| then None
    else FirstIndex(b, pat, from + 1)
  }

  /** The earliest blank line: its index and length. */
  function FindBlankLine(b: Bytes): (r: Option<(nat, nat)>)
    ensures r.None? ==> forall i :: 0 <= i ==> !OccursAt(b, "\n\n", i) && !OccursAt(b, "\r\n\r\n", i)
    ensures r.Some? ==> (r.value.1 == 2 && OccursAt(b, "\n\n", r.value.0))
                        || (r.value.1 == 4 && OccursAt(b, "\r\n\r\n", r.value.0))
    ensures r.Some? ==> forall i :: 0 <= i < r.value.0 ==> !OccursAt(b, "\n\n", i) && !OccursAt(b, "\r\n\r\n", i)
  {
    var lf := FirstIndex(b, "\n\n", 0);
    var crlf := FirstIndex(b, "\r\n\r\n", 0);
    if lf.None? && crlf.None? then None
    else if lf.None? then Some((crlf.value, 4))
    else if crlf.None? then Some((lf.value, 2))
    else if lf.value < crlf.value then Some((lf.value, 2))
    else Some((crlf.value, 4))
  }

  /** Adds what one record says; `None` for a T record that is not a time. */
  function AddRecord(m: Message, line: Bytes, clock: Clock): Option<Message> {
    if HasPrefix(line, "S ") then Some(m.(sender := line[2..]))
    else if HasPrefix(line, "R ") then Some(m.(recipients := m.recipients + [line[2..]]))
    else if HasPrefix(line, "T ") then
      match clock(line[2..])
      case None => None
      case Some(t) => Some(m.(time := Some(t)))
    else Some(m)
  }

  function AddRecords(m: Message, lines: seq<Bytes>, clock: Clock): Option<Message>
    decreases |lines|
  {
    if lines == [] then Some(m)
    else match AddRecord(m, ChopCr(lines[0]), clock)
      case None => None
      case Some(next) => AddRecords(next, lines[1..], clock)
  }

  /** What a postcat file says; `None` when its time cannot be read. */
  function ParseFile(raw: Bytes, clock: Clock): Option<Message> {
    match FindBlankLine(raw)
    case None => Some(EMPTY)
    case Some((at, len)) =>
      match AddRecords(EMPTY, SplitLf(raw[..at]), clock)
      case None => None
      case Some(m) => Some(m.(body := raw[at + len..]))
  }

  /** Parses a file, record by record. */
  method Parse(raw: Bytes, clock: Clock) returns (res: Option<Message>)
    ensures res == ParseFile(raw, clock)
  {
    var m := EMPTY;
    var sep := FindBlankLine(raw);
    if sep.None? {
      return Some(m);
    }
    var (at, len) := sep.value;
    var lines := SplitLf(raw[..at]);
    hide SplitLf;
    hide AddRecord;
    hide ChopCr;
    for i := 0 to |lines|
      invariant AddRecords(EMPTY, lines, clock) == AddRecords(m, lines[i..], clock)
    {
      var line := ChopCr(lines[i]);
      assert lines[i..][0] == lines[i] && lines[i..][1..] == lines[i + 1..];
      var next := AddRecord(m, line, clock);
      if next.None? {
        return None;
      }
      m := next.value;
    }
    assert lines[|lines|..] == [];
    return Some(m.(body := raw[at + len..]));
  }
}
