/** Parsing what the postcat writer writes. */
module PostcatRoundTrip {
  import opened Text
  import opened Lines
  import opened Stuffing
  import opened Postcat

  predicate IsEolText(eol: Bytes) {
    eol == "\n" || eol == CRLF
  }

  /** A record: not empty, and within one line. */
  predicate GoodLine(l: Bytes) {
    l != "" && CR !in l && LF !in l
  }

  predicate GoodLines(lines: seq<Bytes>) {
    forall i :: 0 <= i < |lines| ==> GoodLine(lines[i])
  }

  function Join(lines: seq<Bytes>, eol: Bytes): Bytes
    requires lines != []
  {
    if |lines| == 1 then lines[0] else lines[0] + eol + Join(lines[1..], eol)
  }

  lemma {:induction false} WithEolIsJoin(lines: seq<Bytes>, eol: Bytes)
    requires lines != []
    ensures WithEol(lines, eol) == Join(lines, eol) + eol + eol
  {
    if |lines| == 1 {
      assert WithEol(lines[1..], eol) == eol;
    } else {
      WithEolIsJoin(lines[1..], eol);
      assert lines[0] + eol + (Join(lines[1..], eol) + eol + eol) == lines[0] + eol + Join(lines[1..], eol) + eol + eol;
    }
  }

  /** No blank line inside, and no line break at either end. */
  predicate NoBlankLine(s: Bytes) {
    && s != "" && !IsEol(s[0]) && !IsEol(s[|s| - 1])
    && forall i :: 0 <= i < |s| && s[i] == LF ==> i + 1 < |s| && !IsEol(s[i + 1])
  }

  lemma {:induction false} JoinHasNoBlankLine(lines: seq<Bytes>, eol: Bytes)
    requires lines != [] && GoodLines(lines) && IsEolText(eol)
    ensures NoBlankLine(Join(lines, eol))
  {
    var first := lines[0];
    assert GoodLine(first);
    if |lines| > 1 {
      var rest := Join(lines[1..], eol);
      JoinHasNoBlankLine(lines[1..], eol);
      BreakBetween(first, eol, rest);
    }
  }

  lemma BreakBetween(first: Bytes, eol: Bytes, rest: Bytes)
    requires GoodLine(first) && IsEolText(eol) && NoBlankLine(rest)
    ensures NoBlankLine(first + eol + rest)
  {
    var s := first + eol + rest;
    var k := |first| + |eol|;
    assert s[|s| - 1] == rest[|rest| - 1];
    forall i | 0 <= i < |s| && s[i] == LF
      ensures i + 1 < |s| && !IsEol(s[i + 1])
    {
      if i < k {
        assert s[i] == (first + eol)[i];
        assert i == k - 1;
        assert s[k] == rest[0];
      } else {
        assert s[i] == rest[i - k];
        assert s[i + 1] == rest[i - k + 1];
      }
    }
  }

  /** The blank line found is the one after the records, whatever the body contains. */
  lemma SeparatorFound(records: Bytes, eol: Bytes, body: Bytes)
    requires NoBlankLine(records) && IsEolText(eol)
    ensures FindBlankLine(records + eol + eol + body) == Some((|records|, 2 * |eol|))
  {
    var raw := records + eol + eol + body;
    var n := |records|;
    assert raw[n..n + 2 * |eol|] == eol + eol;
    assert raw[n] == eol[0];
    assert OccursAt(raw, eol + eol, n);
    forall i | 0 <= i < n
      ensures !OccursAt(raw, "\n\n", i) && !OccursAt(raw, "\r\n\r\n", i)
    {
      NotEarlier(records, eol, body, i);
    }
    assert eol + eol == if eol == "\n" then "\n\n" else "\r\n\r\n";
    BlankLineBytes(raw, n);
  }

  lemma BlankLineBytes(b: Bytes, i: nat)
    ensures OccursAt(b, "\n\n", i) ==> i + 1 < |b| && b[i] == LF && b[i + 1] == LF
    ensures OccursAt(b, "\r\n\r\n", i) ==> i + 3 < |b| && b[i] == CR && b[i + 1] == LF && b[i + 2] == CR
  {
    if i + 2 <= |b| {
      var two := b[i..i + 2];
      assert two[0] == b[i] && two[1] == b[i + 1];
    }
    if i + 4 <= |b| {
      var four := b[i..i + 4];
      assert four[0] == b[i] && four[1] == b[i + 1] && four[2] == b[i + 2];
    }
  }

  lemma NotEarlier(records: Bytes, eol: Bytes, body: Bytes, i: nat)
    requires NoBlankLine(records) && IsEolText(eol) && i < |records|
    ensures !OccursAt(records + eol + eol + body, "\n\n", i)
    ensures !OccursAt(records + eol + eol + body, "\r\n\r\n", i)
  {
    var raw := records + eol + eol + body;
    assert forall k :: 0 <= k < |records| ==> raw[k] == records[k];
    BlankLineBytes(raw, i);
    hide OccursAt;
  }

  // ---------------------------------------------------------------- records

  predicate SameLines(a: seq<Bytes>, b: seq<Bytes>) {
    |a| == |b| && forall i :: 0 <= i < |a| ==> ChopCr(a[i]) == b[i]
  }

  lemma LineBreaks(first: Bytes, eol: Bytes, rest: Bytes)
    requires GoodLine(first) && IsEolText(eol)
    ensures SplitLf(first) == [first] && ChopCr(first) == first
    ensures SplitLf(first + eol + rest) == [if eol == CRLF then first + "\r" else first] + SplitLf(rest)
    ensures ChopCr(if eol == CRLF then first + "\r" else first) == first
  {
    var line := if eol == CRLF then first + "\r" else first;
    assert SplitLf(first) == [first];
    hide SplitLf;
    assert first + eol + rest == line + "\n" + rest;
    SplitsAtLf(line, rest);
  }

  lemma {:induction false} SplitJoin(lines: seq<Bytes>, eol: Bytes)
    requires lines != [] && GoodLines(lines) && IsEolText(eol)
    ensures SameLines(SplitLf(Join(lines, eol)), lines)
    decreases |lines|
  {
    assert GoodLine(lines[0]);
    hide SplitLf;
    hide ChopCr;
    if |lines| == 1 {
      LineBreaks(lines[0], eol, "");
    } else {
      LineBreaks(lines[0], eol, Join(lines[1..], eol));
      SplitJoin(lines[1..], eol);
    }
  }

  lemma {:induction false} RecordsAgree(m: Message, a: seq<Bytes>, b: seq<Bytes>, clock: Clock)
    requires SameLines(a, b) && GoodLines(b)
    ensures AddRecords(m, a, clock) == AddRecords(m, b, clock)
    decreases |a|
  {
    hide AddRecord;
    if a != [] {
      assert GoodLine(b[0]);
      assert ChopCr(b[0]) == b[0];
      var next := AddRecord(m, b[0], clock);
      if next.Some? {
        RecordsAgree(next.value, a[1..], b[1..], clock);
      }
    }
  }

  lemma {:induction false} RecipientsRead(m: Message, addrs: seq<Bytes>, rest: seq<Bytes>, clock: Clock)
    ensures AddRecords(m, RecipientLines(addrs) + rest, clock)
            == AddRecords(m.(recipients := m.recipients + SanitizeAll(addrs)), rest, clock)
    decreases |addrs|
  {
    hide AddRecord;
    hide SanitizeAddr;
    hide ChopCr;
    if addrs == [] {
      assert RecipientLines(addrs) + rest == rest;
      assert m.recipients + SanitizeAll(addrs) == m.recipients;
    } else {
      var addr := SanitizeAddr(addrs[0]);
      var lines := RecipientLines(addrs) + rest;
      assert lines[0] == "R " + addr;
      assert lines[1..] == RecipientLines(addrs[1..]) + rest;
      ReadsRecipient(m, addr, clock);
      var next := m.(recipients := m.recipients + [addr]);
      assert AddRecords(m, lines, clock) == AddRecords(next, lines[1..], clock);
      RecipientsRead(next, addrs[1..], rest, clock);
      assert SanitizeAll(addrs) == [addr] + SanitizeAll(addrs[1..]);
      assert next.recipients + SanitizeAll(addrs[1..]) == m.recipients + SanitizeAll(addrs);
    }
  }

  lemma ReadsRecipient(m: Message, addr: Bytes, clock: Clock)
    requires CR !in addr && LF !in addr
    ensures ChopCr("R " + addr) == "R " + addr
    ensures AddRecord(m, "R " + addr, clock) == Some(m.(recipients := m.recipients + [addr]))
  {
    assert ("R " + addr)[2..] == addr;
    assert !HasPrefix("R " + addr, "S ") by { assert ("R " + addr)[0] == 'R'; }
  }

  lemma ReadsSender(m: Message, from: Bytes, clock: Clock)
    requires CR !in from && LF !in from
    ensures ChopCr("S " + from) == "S " + from
    ensures AddRecord(m, "S " + from, clock) == Some(m.(sender := from))
  {
    assert ("S " + from)[2..] == from;
  }

  lemma ReadsTime(m: Message, time: Bytes, clock: Clock)
    requires CR !in time && LF !in time && clock(time).Some?
    ensures ChopCr("T " + time) == "T " + time
    ensures AddRecord(m, "T " + time, clock) == Some(m.(time := clock(time)))
  {
    assert ("T " + time)[2..] == time;
    assert !HasPrefix("T " + time, "S ") && !HasPrefix("T " + time, "R ") by { assert ("T " + time)[0] == 'T'; }
  }

  /** What comes back: the null-normalised sender and the recipients without line breaks. */
  function Restored(from: Bytes, accepted: seq<Bytes>, when: Option<Instant>, body: Bytes): Message {
    Message(SanitizeAddr(FormatNullSender(from)), SanitizeAll(accepted), when, body)
  }

  lemma EnvelopeReads(from: Bytes, accepted: seq<Bytes>, time: Bytes, clock: Clock)
    requires CR !in time && LF !in time && clock(time).Some?
    ensures AddRecords(EMPTY, EnvelopeLines(from, accepted, time), clock)
            == Some(Restored(from, accepted, clock(time), ""))
  {
    var sender := SanitizeAddr(FormatNullSender(from));
    var lines := EnvelopeLines(from, accepted, time);
    var rest := RecipientLines(accepted) + ["T " + time];
    assert lines[0] == "S " + sender && lines[1..] == rest;
    ReadsSender(EMPTY, sender, clock);
    var m1 := EMPTY.(sender := sender);
    RecipientsRead(m1, accepted, ["T " + time], clock);
    var m2 := m1.(recipients := m1.recipients + SanitizeAll(accepted));
    assert [] + SanitizeAll(accepted) == SanitizeAll(accepted);
    ReadsTime(m2, time, clock);
    assert ["T " + time][1..] == [];
    hide AddRecord;
    hide SanitizeAddr;
    assert AddRecords(m2.(time := clock(time)), [], clock) == Some(m2.(time := clock(time)));
  }

  lemma EnvelopeIsGood(from: Bytes, accepted: seq<Bytes>, time: Bytes)
    requires CR !in time && LF !in time
    ensures GoodLines(EnvelopeLines(from, accepted, time))
  {
    hide SanitizeAddr;
    assert GoodLine("S " + SanitizeAddr(FormatNullSender(from)));
    assert GoodLine("T " + time);
    forall i | 0 <= i < |accepted|
      ensures GoodLine(RecipientLines(accepted)[i])
    {
    }
  }

  /** Parsing a written file, with LF or with CRLF line ends in its envelope, gives back the
      normalised sender, exactly one recipient per input in order, the time, and the body byte
      for byte, whatever blank lines it contains. */
  lemma PostcatRoundTrip(from: Bytes, accepted: seq<Bytes>, time: Bytes, body: Bytes, eol: Bytes, clock: Clock)
    requires CR !in time && LF !in time && clock(time).Some? && IsEolText(eol)
    ensures ParseFile(WithEol(EnvelopeLines(from, accepted, time), eol) + body, clock)
            == Some(Restored(from, accepted, clock(time), body))
    ensures ParseFile(FormatEnvelope(from, accepted, time, body), clock)
            == Some(Restored(from, accepted, clock(time), body))
  {
    FileReads(from, accepted, time, body, eol, clock);
    FileReads(from, accepted, time, body, "\n", clock);
    hide ParseFile;
    hide WithEol;
    hide EnvelopeLines;
    hide Restored;
  }

  /** A file of records, a blank line and a body is read record by record. */
  lemma FileRecords(lines: seq<Bytes>, eol: Bytes, body: Bytes, clock: Clock)
    requires lines != [] && GoodLines(lines) && IsEolText(eol)
    ensures ParseFile(WithEol(lines, eol) + body, clock)
            == match AddRecords(EMPTY, lines, clock)
               case None => None
               case Some(m) => Some(m.(body := body))
  {
    hide AddRecords;
    var records := Join(lines, eol);
    var raw := WithEol(lines, eol) + body;
    WithEolIsJoin(lines, eol);
    JoinHasNoBlankLine(lines, eol);
    SeparatorFound(records, eol, body);
    assert raw == records + eol + eol + body;
    assert raw[..|records|] == records;
    assert raw[|records| + 2 * |eol|..] == body;
    SplitJoin(lines, eol);
    RecordsAgree(EMPTY, SplitLf(records), lines, clock);
    hide FindBlankLine;
    hide SplitLf;
    hide Join;
    hide WithEol;
  }

  lemma FileReads(from: Bytes, accepted: seq<Bytes>, time: Bytes, body: Bytes, eol: Bytes, clock: Clock)
    requires CR !in time && LF !in time && clock(time).Some? && IsEolText(eol)
    ensures ParseFile(WithEol(EnvelopeLines(from, accepted, time), eol) + body, clock)
            == Some(Restored(from, accepted, clock(time), body))
  {
    EnvelopeIsGood(from, accepted, time);
    EnvelopeReads(from, accepted, time, clock);
    FileRecords(EnvelopeLines(from, accepted, time), eol, body, clock);
    hide AddRecords;
    hide ParseFile;
    hide WithEol;
  }

  /** The null sender is written as `<>`, whichever way it was given; any other sender is written
      as itself without CR and LF. */
  lemma SenderWritten(from: Bytes, accepted: seq<Bytes>, time: Bytes, body: Bytes, clock: Clock)
    requires CR !in time && LF !in time && clock(time).Some?
    ensures var m := ParseFile(FormatEnvelope(from, accepted, time, body), clock);
            m.Some? && m.value.sender == if from == "" || from == "<>" then "<>" else SanitizeAddr(from)
  {
    PostcatRoundTrip(from, accepted, time, body, "\n", clock);
    assert CR !in "<>" && LF !in "<>";
    hide ParseFile;
    hide FormatEnvelope;
    hide SanitizeAddr;
  }

  // ---------------------------------------------------------------- any file

  /** What follows the letter of the last record of a kind. */
  function LastOf(lines: seq<Bytes>, letter: Bytes): Option<Bytes>
    requires |letter| == 2
  {
    if lines == [] then None
    else
      var last := lines[|lines| - 1];
      if letter <= last then Some(last[2..]) else LastOf(lines[..|lines| - 1], letter)
  }

  function AllOf(lines: seq<Bytes>, letter: Bytes): seq<Bytes>
    requires |letter| == 2
  {
    if lines == [] then []
    else
      var last := lines[|lines| - 1];
      AllOf(lines[..|lines| - 1], letter) + if letter <= last then [last[2..]] else []
  }

  /** A T record that is not a time. */
  predicate BadTime(line: Bytes, clock: Clock) {
    "T " <= line && clock(line[2..]).None?
  }

  function Or(a: Option<Bytes>, otherwise: Bytes): Bytes {
    match a
    case None => otherwise
    case Some(x) => x
  }

  /** What the records of a file say. */
  function Told(lines: seq<Bytes>, clock: Clock, body: Bytes): Message {
    Message(Or(LastOf(lines, "S "), ""), AllOf(lines, "R "),
            match LastOf(lines, "T ") case None => None case Some(t) => clock(t), body)
  }

  lemma {:induction false} RecordsFrom(m: Message, lines: seq<Bytes>, clock: Clock, line: Bytes)
    ensures AddRecords(m, lines + [line], clock)
            == match AddRecords(m, lines, clock)
               case None => None
               case Some(next) => AddRecord(next, ChopCr(line), clock)
    decreases |lines|
  {
    hide AddRecord;
    hide ChopCr;
    if lines == [] {
      assert [] + [line] == [line] && [line][1..] == [];
      match AddRecord(m, ChopCr(line), clock)
      case None =>
      case Some(next) => assert AddRecords(next, [], clock) == Some(next);
    } else {
      assert (lines + [line])[0] == lines[0] && (lines + [line])[1..] == lines[1..] + [line];
      match AddRecord(m, ChopCr(lines[0]), clock)
      case None =>
      case Some(next) => RecordsFrom(next, lines[1..], clock, line);
    }
  }

  lemma OneRecord(lines: seq<Bytes>, line: Bytes, clock: Clock)
    ensures AddRecord(Told(lines, clock, ""), line, clock)
            == if BadTime(line, clock) then None else Some(Told(lines + [line], clock, ""))
  {
    var all := lines + [line];
    assert all[|all| - 1] == line && all[..|all| - 1] == lines;
    assert !("S " <= line && "R " <= line) && !("S " <= line && "T " <= line) && !("R " <= line && "T " <= line) by {
      assert "S "[0] == 'S' && "R "[0] == 'R' && "T "[0] == 'T';
    }
    assert AllOf(lines, "R ") + [] == AllOf(lines, "R ");
  }

  lemma {:induction false} RecordsTell(lines: seq<Bytes>, clock: Clock)
    requires GoodLines(lines)
    ensures AddRecords(EMPTY, lines, clock)
            == if exists i :: 0 <= i < |lines| && BadTime(lines[i], clock) then None else Some(Told(lines, clock, ""))
  {
    hide BadTime;
    if lines != [] {
      var n := |lines| - 1;
      var front, line := lines[..n], lines[n];
      assert front + [line] == lines;
      assert forall i :: 0 <= i < n ==> front[i] == lines[i];
      assert GoodLine(line);
      assert ChopCr(line) == line;
      RecordsTell(front, clock);
      RecordsFrom(EMPTY, front, clock, line);
      OneRecord(front, line, clock);
      hide AddRecords;
      hide AddRecord;
      hide Told;
      if i :| 0 <= i < |lines| && BadTime(lines[i], clock) {
        assert i < n ==> BadTime(front[i], clock);
      }
    }
  }

  /** Any file of records, a blank line and a body: it cannot be read if and only if a T record is
      not a time; otherwise it tells the last S record as the sender, all R records in order as
      the recipients, the last T record as the time, and the body. Other records are ignored. */
  lemma AnyFileReads(lines: seq<Bytes>, eol: Bytes, body: Bytes, clock: Clock)
    requires lines != [] && GoodLines(lines) && IsEolText(eol)
    ensures ParseFile(WithEol(lines, eol) + body, clock)
            == if exists i :: 0 <= i < |lines| && BadTime(lines[i], clock) then None else Some(Told(lines, clock, body))
  {
    hide BadTime;
    hide AddRecords;
    hide ParseFile;
    hide WithEol;
    hide GoodLines;
    hide LastOf;
    hide AllOf;
    RecordsTell(lines, clock);
    FileRecords(lines, eol, body, clock);
  }

  /** A file without a blank line is an empty message. */
  lemma NoBlankLineIsEmpty(raw: Bytes, clock: Clock)
    requires forall i :: 0 <= i ==> !OccursAt(raw, "\n\n", i) && !OccursAt(raw, "\r\n\r\n", i)
    ensures ParseFile(raw, clock) == Some(Message("", [], None, ""))
  {
    hide OccursAt;
  }
}
