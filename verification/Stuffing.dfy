/** The dot-stuffing encoder of the replay client, and what the server's body reader makes of
    its output. */
module Stuffing {
  import opened Text
  import opened Lines
  import opened Body

  /** The lines of a message: separated by LF or CRLF, the last one possibly unterminated. */
  function LinesOf(b: Bytes): (ls: seq<Bytes>)
    ensures forall i :: 0 <= i < |ls| ==> LF !in ls[i]
    decreases |b|
  {
    if b == "" then []
    else if LF !in b then [b]
    else [ChopCr(b[..IndexByte(b, LF)])] + LinesOf(AfterLine(b))
  }

  /** The lines, each with CRLF. */
  function Unlines(ls: seq<Bytes>): Bytes {
    if ls == [] then "" else ls[0] + CRLF + Unlines(ls[1..])
  }

  /** The message with every line end written as CRLF and its last line terminated. */
  function Canonical(b: Bytes): Bytes {
    Unlines(LinesOf(b))
  }

  function Stuff(line: Bytes): Bytes {
    if line != "" && line[0] == '.' then "." + line else line
  }

  function StuffLines(ls: seq<Bytes>): Bytes {
    if ls == [] then "" else Stuff(ls[0]) + CRLF + StuffLines(ls[1..])
  }

  /** The bytes sent for a message: its stuffed lines and the terminating dot. */
  function Encode(b: Bytes): Bytes {
    StuffLines(LinesOf(b)) + "." + CRLF
  }

  // ---------------------------------------------------------------- the client's loop

  function ReplaceCrlf(b: Bytes): Bytes {
    if b == "" then ""
    else if |b| >= 2 && b[0] == CR && b[1] == LF then "\n" + ReplaceCrlf(b[2..])
    else [b[0]] + ReplaceCrlf(b[1..])
  }

  function SplitLf(s: Bytes): (ls: seq<Bytes>)
    ensures ls != []
    decreases |s|
  {
    if LF !in s then [s]
    else [s[..IndexByte(s, LF)]] + SplitLf(AfterLine(s))
  }

  function DropLastEmpty(ls: seq<Bytes>): seq<Bytes> {
    if ls != [] && ls[|ls| - 1] == "" then ls[..|ls| - 1] else ls
  }

  lemma {:induction false} ReplaceInLine(line: Bytes, rest: Bytes)
    requires LF !in line
    ensures ReplaceCrlf(line + "\n" + rest) == ChopCr(line) + "\n" + ReplaceCrlf(rest)
  {
    var s := line + "\n" + rest;
    if line == "" {
      assert s[1..] == rest;
    } else if line == "\r" {
      assert s[2..] == rest;
    } else {
      var shorter := line[1..];
      assert s[0] == line[0];
      assert s[1..] == shorter + "\n" + rest;
      assert s[1] == if |line| == 1 then LF else line[1];
      ReplaceInLine(shorter, rest);
      assert ChopCr(line) == [line[0]] + ChopCr(shorter) by {
        if |line| > 1 && line[|line| - 1] == CR {
          assert shorter[|shorter| - 1] == CR;
        }
      }
      assert ReplaceCrlf(s) == [line[0]] + ReplaceCrlf(s[1..]);
    }
  }

  lemma {:induction false} ReplaceNoLf(s: Bytes)
    requires LF !in s
    ensures ReplaceCrlf(s) == s
  {
    if s != "" {
      ReplaceNoLf(s[1..]);
    }
  }

  /** The first line of a normalised message is the first line of the message. */
  lemma NormalisedFirst(b: Bytes)
    requires LF in b
    ensures SplitLf(ReplaceCrlf(b)) == [ChopCr(b[..IndexByte(b, LF)])] + SplitLf(ReplaceCrlf(AfterLine(b)))
  {
    hide ChopCr;
    var line, rest := b[..IndexByte(b, LF)], AfterLine(b);
    assert b == line + "\n" + rest;
    ReplaceInLine(line, rest);
    ChopKeepsLf(line);
    SplitsAtLf(ChopCr(line), ReplaceCrlf(rest));
  }

  lemma ChopKeepsLf(line: Bytes)
    requires LF !in line
    ensures LF !in ChopCr(line)
  {
  }

  lemma SplitsAtLf(line: Bytes, rest: Bytes)
    requires LF !in line
    ensures SplitLf(line + "\n" + rest) == [line] + SplitLf(rest)
  {
    var n := line + "\n" + rest;
    assert n == line + [LF] + rest;
    IndexByteAt(line, LF, rest);
    assert n[|line|] == LF;
    assert n[..|line|] == line;
    assert AfterLine(n) == rest;
  }

  /** Normalising and splitting, as the client does, yields exactly the lines of the message. */
  lemma {:induction false} NormalisedLines(b: Bytes)
    ensures DropLastEmpty(SplitLf(ReplaceCrlf(b))) == LinesOf(b)
    decreases |b|
  {
    if LF !in b {
      ReplaceNoLf(b);
    } else {
      hide ReplaceCrlf;
      hide SplitLf;
      hide ChopCr;
      NormalisedFirst(b);
      LinesOfFirst(b);
      hide LinesOf;
      var later := SplitLf(ReplaceCrlf(AfterLine(b)));
      NormalisedLines(AfterLine(b));
      DropKeepsFirst(ChopCr(b[..IndexByte(b, LF)]), later);
    }
  }

  lemma LinesOfFirst(b: Bytes)
    requires LF in b
    ensures LinesOf(b) == [ChopCr(b[..IndexByte(b, LF)])] + LinesOf(AfterLine(b))
  {
  }

  lemma DropKeepsFirst(first: Bytes, later: seq<Bytes>)
    requires later != []
    ensures DropLastEmpty([first] + later) == [first] + DropLastEmpty(later)
  {
    assert ([first] + later)[..|later|] == [first] + later[..|later| - 1];
  }

  lemma {:induction false} StuffLinesAppend(ls: seq<Bytes>, l: Bytes)
    ensures StuffLines(ls + [l]) == StuffLines(ls) + Stuff(l) + CRLF
  {
    if ls == [] {
      assert [l][1..] == [];
      assert ls + [l] == [l];
    } else {
      assert (ls + [l])[1..] == ls[1..] + [l];
      StuffLinesAppend(ls[1..], l);
    }
  }

  lemma NothingStuffed()
    ensures StuffLines([]) == ""
  {
  }

  /** Sends a message body; `sent` is what reaches the connection. */
  method SendBody(body: Bytes) returns (sent: Bytes)
    ensures sent == Encode(body)
  {
    hide StuffLines;
    hide LinesOf;
    hide ReplaceCrlf;
    hide SplitLf;
    hide DropLastEmpty;
    var lines := DropLastEmpty(SplitLf(ReplaceCrlf(body)));
    NormalisedLines(body);
    NothingStuffed();
    assert lines[..0] == [];
    sent := "";
    for i := 0 to |lines|
      invariant sent == StuffLines(lines[..i])
    {
      var line := lines[i];
      if HasPrefix(line, ".") {
        line := "." + line;
      }
      assert line == Stuff(lines[i]);
      StuffLinesAppend(lines[..i], lines[i]);
      assert lines[..i + 1] == lines[..i] + [lines[i]];
      sent := sent + line + CRLF;
    }
    assert lines[..|lines|] == lines;
    sent := sent + "." + CRLF;
  }

  // ---------------------------------------------------------------- round trip

  /** Every stuffed line is within the line limit. */
  predicate LinesFit(b: Bytes) {
    forall i :: 0 <= i < |LinesOf(b)| ==> |Stuff(LinesOf(b)[i])| <= MAX_LINE
  }

  predicate SizeFits(b: Bytes, max: int) {
    max > 0 ==> |Canonical(b)| <= max
  }

  function Received(l: Bytes): LineResult {
    if |Stuff(l)| > MAX_LINE then TooLong else Line(Stuff(l))
  }

  function ReceivedAll(ls: seq<Bytes>): seq<LineResult> {
    seq(|ls|, i requires 0 <= i < |ls| => Received(ls[i]))
  }

  lemma StuffLinesFirst(ls: seq<Bytes>, tail: Bytes)
    requires ls != []
    ensures StuffLines(ls) + tail == Stuff(ls[0]) + CRLF + (StuffLines(ls[1..]) + tail)
  {
    hide Stuff;
  }

  lemma ReceivedFirst(ls: seq<Bytes>)
    requires ls != []
    ensures ReceivedAll(ls) == [Received(ls[0])] + ReceivedAll(ls[1..])
  {
  }

  lemma {:induction false} StuffedLinesRead(ls: seq<Bytes>, tail: Bytes)
    requires forall i :: 0 <= i < |ls| ==> LF !in ls[i]
    ensures BodyLines(StuffLines(ls) + ("." + CRLF + tail)) == BodyText(ReceivedAll(ls), true, tail)
  {
    var dot := "." + CRLF + tail;
    if ls == [] {
      hide BodyLines;
      BodyBeginsWith(".", tail);
      assert StuffLines(ls) + dot == dot;
      assert ReceivedAll(ls) == [];
    } else {
      StuffedNeverDot(ls[0]);
      assert Received(ls[0]) == if |Stuff(ls[0])| > MAX_LINE then TooLong else Line(Stuff(ls[0]));
      hide *;
      StuffLinesFirst(ls, dot);
      BodyBeginsWith(Stuff(ls[0]), StuffLines(ls[1..]) + dot);
      StuffedLinesRead(ls[1..], tail);
      ReceivedFirst(ls);
    }
  }

  lemma StuffedNeverDot(l: Bytes)
    requires LF !in l
    ensures Stuff(l) != "." && LF !in Stuff(l)
  {
  }

  lemma {:induction false} ReceivedContent(ls: seq<Bytes>)
    requires forall i :: 0 <= i < |ls| ==> |Stuff(ls[i])| <= MAX_LINE
    ensures Content(ReceivedAll(ls)) == Unlines(ls)
  {
    if ls != [] {
      ReceivedContent(ls[1..]);
      assert ReceivedAll(ls)[1..] == ReceivedAll(ls[1..]);
      assert Unstuff(Stuff(ls[0])) == ls[0];
    }
  }

  /** The server reads back the canonical form of a message exactly when its stuffed lines and
      its size are within the limits, and in every case stops right after the terminator. */
  lemma DotStuffingRoundTrip(b: Bytes, max: int, tail: Bytes, more: Wire)
    ensures ReadBody([Encode(b) + tail] + more, max).1 == [tail] + more
    ensures ReadBody([Encode(b) + tail] + more, max).0 == Body(Canonical(b))
            <==> LinesFit(b) && SizeFits(b, max)
    ensures !(LinesFit(b) && SizeFits(b, max))
            ==> ReadBody([Encode(b) + tail] + more, max).0 in {BodyLineTooLong, BodyTooLarge}
  {
    hide Verdict;
    hide ReceivedAll;
    hide ReadBody;
    hide LinesFit;
    hide SizeFits;
    EncodedRead(b, max, tail, more);
    VerdictOnLines(b, max);
  }

  lemma FittingVerdict(ls: seq<Bytes>, max: int)
    requires forall i :: 0 <= i < |ls| ==> LF !in ls[i] && |Stuff(ls[i])| <= MAX_LINE
    ensures var res := Verdict(ReceivedAll(ls), max, true);
            if max > 0 && |Unlines(ls)| > max then res == BodyTooLarge else res == Body(Unlines(ls))
  {
    var got := ReceivedAll(ls);
    var k := FaultMeaning(got, max, 0);
    ReceivedContent(ls);
    hide FirstFault;
    hide Content;
    hide Unlines;
    assert got[..|got|] == got;
    if k < |got| {
      ContentGrows(got, k + 1);
    }
  }

  lemma LongVerdict(ls: seq<Bytes>, max: int, i: nat)
    requires i < |ls| && |Stuff(ls[i])| > MAX_LINE
    ensures Verdict(ReceivedAll(ls), max, true) in {BodyLineTooLong, BodyTooLarge}
  {
    var got := ReceivedAll(ls);
    var k := FaultMeaning(got, max, 0);
    hide FirstFault;
    hide Content;
    assert !got[i].Line?;
  }

  lemma VerdictOnLines(b: Bytes, max: int)
    ensures var res := Verdict(ReceivedAll(LinesOf(b)), max, true);
            && (res == Body(Canonical(b)) <==> LinesFit(b) && SizeFits(b, max))
            && (!(LinesFit(b) && SizeFits(b, max)) ==> res in {BodyLineTooLong, BodyTooLarge})
  {
    hide Verdict;
    hide ReceivedAll;
    hide Unlines;
    hide Stuff;
    if LinesFit(b) {
      FittingVerdict(LinesOf(b), max);
    } else {
      var i :| 0 <= i < |LinesOf(b)| && |Stuff(LinesOf(b)[i])| > MAX_LINE;
      LongVerdict(LinesOf(b), max, i);
    }
    hide LinesOf;
  }

  lemma EncodedRead(b: Bytes, max: int, tail: Bytes, more: Wire)
    ensures ReadBody([Encode(b) + tail] + more, max)
            == (Verdict(ReceivedAll(LinesOf(b)), max, true), [tail] + more)
  {
    var ls := LinesOf(b);
    hide BodyLines;
    hide Verdict;
    hide StuffLines;
    hide LinesOf;
    hide ReceivedAll;
    assert Encode(b) + tail == StuffLines(ls) + ("." + CRLF + tail);
    StuffedLinesRead(ls, tail);
    var w := [Encode(b) + tail] + more;
    assert w[0] == Encode(b) + tail && w[1..] == more;
  }

  lemma ContentGrows(lines: seq<LineResult>, k: nat)
    requires k <= |lines|
    ensures |Content(lines[..k])| <= |Content(lines)|
  {
    ContentOfConcat(lines[..k], lines[k..]);
    assert lines[..k] + lines[k..] == lines;
  }

  /** A body in which every LF follows a CR and which is empty or ends with LF. */
  predicate IsCanonical(b: Bytes) {
    && (forall i :: 0 <= i < |b| && b[i] == LF ==> 0 < i && b[i - 1] == CR)
    && (b != "" ==> b[|b| - 1] == LF)
  }

  lemma CanonicalOfLast(b: Bytes)
    requires b != "" && LF !in b
    ensures Canonical(b) == b + CRLF
  {
    assert LinesOf(b) == [b];
    assert [b][1..] == [];
    assert Unlines([b]) == b + CRLF + Unlines([]);
  }

  lemma CanonicalOfFirst(b: Bytes)
    requires LF in b
    ensures Canonical(b) == ChopCr(b[..IndexByte(b, LF)]) + CRLF + Canonical(AfterLine(b))
  {
    hide ChopCr;
    assert LinesOf(b)[1..] == LinesOf(AfterLine(b));
  }

  /** The canonical form of a message is the message exactly when it is canonical already. */
  lemma {:induction false} CanonicalFixpoint(b: Bytes)
    ensures Canonical(b) == b <==> IsCanonical(b)
    decreases |b|
  {
    if b == "" {
    } else if LF !in b {
      CanonicalOfLast(b);
    } else {
      var line, rest := b[..IndexByte(b, LF)], AfterLine(b);
      assert b == line + "\n" + rest;
      CanonicalOfFirst(b);
      hide Canonical;
      hide IsCanonical;
      hide ChopCr;
      CanonicalFixpoint(rest);
      CanonicalTail(b, line, rest);
      FirstLineFixpoint(b, line, rest, Canonical(rest));
    }
  }

  lemma FirstLineFixpoint(b: Bytes, line: Bytes, rest: Bytes, tail: Bytes)
    requires b == line + "\n" + rest && LF !in line
    ensures ChopCr(line) + CRLF + tail == b <==> line != "" && line[|line| - 1] == CR && tail == rest
  {
    if line != "" && line[|line| - 1] == CR {
      assert line == ChopCr(line) + "\r";
      assert b == ChopCr(line) + CRLF + rest;
      SameTail(ChopCr(line) + CRLF, tail, rest);
    } else {
      assert (ChopCr(line) + CRLF + tail)[|line|] == CR && b[|line|] == LF;
    }
  }

  lemma SameTail(pre: Bytes, x: Bytes, y: Bytes)
    ensures pre + x == pre + y <==> x == y
  {
    assert (pre + x)[|pre|..] == x && (pre + y)[|pre|..] == y;
  }

  lemma CanonicalTail(b: Bytes, line: Bytes, rest: Bytes)
    requires b == line + "\n" + rest && LF !in line
    ensures IsCanonical(b) <==> line != "" && line[|line| - 1] == CR && IsCanonical(rest)
  {
    var n := |line| + 1;
    assert b[|line|] == LF;
    assert forall j :: 0 <= j < |rest| ==> rest[j] == b[n + j];
    assert forall j :: n <= j < |b| ==> b[j] == rest[j - n];
    assert forall j :: 0 <= j < |line| ==> b[j] == line[j];
    if IsCanonical(b) {
      assert b[|line|] == LF;
      forall j | 0 <= j < |rest| && rest[j] == LF
        ensures 0 < j && rest[j - 1] == CR
      {
        assert b[n + j] == LF;
      }
    }
  }

  // ---------------------------------------------------------------- bodies the server delivers

  lemma UnlinesFirst(ls: seq<Bytes>)
    requires ls != [] && LF !in ls[0]
    ensures var b := Unlines(ls);
            LF in b && ChopCr(b[..IndexByte(b, LF)]) == ls[0] && AfterLine(b) == Unlines(ls[1..])
  {
    var later := Unlines(ls[1..]);
    var line := ls[0] + "\r";
    assert Unlines(ls) == line + [LF] + later;
    hide Unlines;
    IndexByteAt(line, LF, later);
    var b := line + [LF] + later;
    assert b[|line|] == LF && b[..|line|] == line && b[|line| + 1..] == later;
  }

  lemma {:induction false} LinesOfUnlines(ls: seq<Bytes>)
    requires forall i :: 0 <= i < |ls| ==> LF !in ls[i]
    ensures LinesOf(Unlines(ls)) == ls
  {
    if ls != [] {
      UnlinesFirst(ls);
      hide Unlines;
      hide ChopCr;
      hide AfterLine;
      LinesOfFirst(Unlines(ls));
      hide LinesOf;
      LinesOfUnlines(ls[1..]);
    }
  }

  function Unstuffed(lines: seq<LineResult>): (ls: seq<Bytes>)
    requires AllLines(lines)
  {
    seq(|lines|, i requires 0 <= i < |lines| => Unstuff(lines[i].text))
  }

  predicate AllLines(lines: seq<LineResult>) {
    forall i :: 0 <= i < |lines| ==> lines[i].Line?
  }

  lemma {:induction false} ContentIsUnlines(lines: seq<LineResult>)
    requires AllLines(lines)
    ensures Content(lines) == Unlines(Unstuffed(lines))
  {
    if lines != [] {
      ContentIsUnlines(lines[1..]);
      assert Unstuffed(lines)[1..] == Unstuffed(lines[1..]);
    }
  }

  /** Every line of a body was read by `readLine`. */
  lemma {:induction false} BodyLinesAreLines(s: Bytes)
    ensures forall l :: l in BodyLines(s).lines && l.Line? ==> LF !in l.text && |l.text| <= MAX_LINE
    decreases |s|
  {
    if LF in s && FirstLine(s) != Line(".") {
      BodyLinesAreLines(AfterLine(s));
    }
  }

  /** What the server delivers for DATA: a canonical body, within the size limit, whose lines
      are still within the line limit when they are stuffed again. */
  lemma DeliveredLines(w: Wire, max: int) returns (ls: seq<Bytes>)
    requires ReadBody(w, max).0.Body?
    ensures ReadBody(w, max).0.bytes == Unlines(ls)
    ensures forall i :: 0 <= i < |ls| ==> LF !in ls[i] && |Stuff(ls[i])| <= MAX_LINE
  {
    var lines := BodyLines(w[0]).lines;
    var k := FaultMeaning(lines, max, 0);
    assert AllLines(lines);
    BodyLinesAreLines(w[0]);
    ContentIsUnlines(lines);
    hide BodyLines;
    hide FirstFault;
    hide Content;
    hide Unlines;
    ls := Unstuffed(lines);
    forall i | 0 <= i < |ls|
      ensures LF !in ls[i] && |Stuff(ls[i])| <= MAX_LINE
    {
      assert lines[i] in lines;
    }
  }

  lemma DeliveredBody(w: Wire, max: int)
    requires ReadBody(w, max).0.Body?
    ensures var b := ReadBody(w, max).0.bytes;
            Canonical(b) == b && LinesFit(b) && SizeFits(b, max)
  {
    if max > 0 {
      BodyWithinLimit(w, max);
    }
    hide ReadBody;
    var ls := DeliveredLines(w, max);
    LinesOfUnlines(ls);
    hide Unlines;
    hide LinesOf;
    hide Stuff;
  }

  /** On every body the server can deliver, sending it again is exactly the identity. */
  lemma ResendIsIdentity(w: Wire, max: int, tail: Bytes, more: Wire)
    requires ReadBody(w, max).0.Body?
    ensures var b := ReadBody(w, max).0.bytes;
            ReadBody([Encode(b) + tail] + more, max) == (Body(b), [tail] + more)
  {
    var b := ReadBody(w, max).0.bytes;
    DeliveredBody(w, max);
    DotStuffingRoundTrip(b, max, tail, more);
  }
}
