/** The two forms of a message body on the wire of a DATA command: the dot-stuffed lines a
    client sends (`sendBody`) and the body the server delivers (`readDotUnstuffed`).
    Section 4.5.2 of RFC 5321 calls this transparency. */
module Body {
  import opened Text
  import opened Lines

  // ---------------------------------------------------------------- what the server reads

  function Unstuff(line: Bytes): Bytes {
    if line != "" && line[0] == '.' then line[1..] else line
  }

  /** The lines of a body, up to the line that is a single dot. */
  datatype BodyText = BodyText(lines: seq<LineResult>, terminated: bool, rest: Bytes)

  function BodyLines(s: Bytes): (b: BodyText)
    ensures |b.rest| <= |s|
    decreases |s|
  {
    if LF !in s then BodyText([], false, "")
    else if FirstLine(s) == Line(".") then BodyText([], true, AfterLine(s))
    else
      var later := BodyLines(AfterLine(s));
      later.(lines := [FirstLine(s)] + later.lines)
  }

  /** The unstuffed lines, each with CRLF. */
  function Content(lines: seq<LineResult>): Bytes {
    if lines == [] then ""
    else (if lines[0].Line? then Unstuff(lines[0].text) + CRLF else "") + Content(lines[1..])
  }

  datatype Fault = NoFault | LongLineFirst | OverflowFirst

  /** What goes wrong first when lines are added to a body of `size` bytes. */
  function FirstFault(lines: seq<LineResult>, max: int, size: nat): Fault {
    if lines == [] then NoFault
    else if !lines[0].Line? then LongLineFirst
    else
      var grown := size + |Unstuff(lines[0].text)| + 2;
      if max > 0 && grown > max then OverflowFirst
      else FirstFault(lines[1..], max, grown)
  }

  datatype BodyResult = Body(bytes: Bytes) | BodyLineTooLong | BodyTooLarge | BodyBroken

  /** One body read: its result and the bytes left unread. A terminated body is always
      consumed through its terminator, whatever the result. */
  function ReadBody(w: Wire, max: int): (BodyResult, Wire) {
    if w == [] then (BodyBroken, [])
    else
      var b := BodyLines(w[0]);
      (Verdict(b.lines, max, b.terminated), if b.terminated then [b.rest] + w[1..] else w[1..])
  }

  function Verdict(lines: seq<LineResult>, max: int, terminated: bool): BodyResult {
    match FirstFault(lines, max, 0)
    case OverflowFirst => BodyTooLarge
    case LongLineFirst => if terminated then BodyLineTooLong else BodyBroken
    case NoFault => if terminated then Body(Content(lines)) else BodyBroken
  }

  lemma ReadBodyShrinks(w: Wire, max: int)
    ensures WireSize(ReadBody(w, max).1) <= WireSize(w)
  {
    if w != [] && BodyLines(w[0]).terminated {
      assert ([BodyLines(w[0]).rest] + w[1..])[1..] == w[1..];
    }
  }

  /** The first `k` lines are within the line limit and, with `size` bytes before them,
      within the size limit. */
  predicate Acceptable(lines: seq<LineResult>, max: int, size: nat, k: nat)
    requires k <= |lines|
  {
    && (forall i :: 0 <= i < k ==> lines[i].Line?)
    && (max > 0 ==> size + |Content(lines[..k])| <= max)
  }

  /** The fault reported is the one that stops the longest acceptable run of lines. */
  lemma {:induction false} FaultMeaning(lines: seq<LineResult>, max: int, size: nat) returns (k: nat)
    requires max > 0 ==> size <= max
    ensures k <= |lines| && Acceptable(lines, max, size, k)
    ensures FirstFault(lines, max, size).NoFault? <==> k == |lines|
    ensures k < |lines| ==> !Acceptable(lines, max, size, k + 1)
    ensures k < |lines| ==> (FirstFault(lines, max, size).LongLineFirst? <==> !lines[k].Line?)
  {
    k := 0;
    if lines != [] {
      var first := lines[0];
      assert lines[..1] == [first] && [first][1..] == [];
      if first.Line? && !(max > 0 && size + |Unstuff(first.text)| + 2 > max) {
        var grown := size + |Unstuff(first.text)| + 2;
        var j := FaultMeaning(lines[1..], max, grown);
        assert lines[..j + 1][1..] == lines[1..][..j];
        if j < |lines[1..]| {
          assert lines[..j + 2][1..] == lines[1..][..j + 1];
          assert lines[1..][j] == lines[j + 1];
        }
        k := j + 1;
      }
    }
  }

  /** A body that is delivered is within the size limit. */
  lemma BodyWithinLimit(w: Wire, max: int)
    requires max > 0 && ReadBody(w, max).0.Body?
    ensures |ReadBody(w, max).0.bytes| <= max
  {
    var lines := BodyLines(w[0]).lines;
    var k := FaultMeaning(lines, max, 0);
    assert lines[..|lines|] == lines;
  }

  lemma {:induction false} FaultOfConcat(a: seq<LineResult>, b: seq<LineResult>, max: int, size: nat)
    ensures FirstFault(a + b, max, size)
            == if FirstFault(a, max, size).NoFault? then FirstFault(b, max, size + |Content(a)|)
               else FirstFault(a, max, size)
  {
    if a == [] {
      assert a + b == b;
    } else {
      assert (a + b)[1..] == a[1..] + b;
      if a[0].Line? {
        FaultOfConcat(a[1..], b, max, size + |Unstuff(a[0].text)| + 2);
      }
    }
  }

  lemma {:induction false} ContentOfConcat(a: seq<LineResult>, b: seq<LineResult>)
    ensures Content(a + b) == Content(a) + Content(b)
  {
    hide Unstuff;
    if a == [] {
      assert a + b == b;
      assert Content(a) + Content(b) == Content(b);
    } else {
      var first := if a[0].Line? then Unstuff(a[0].text) + CRLF else "";
      assert (a + b)[0] == a[0] && (a + b)[1..] == a[1..] + b;
      assert Content(a + b) == first + Content(a[1..] + b);
      assert Content(a) == first + Content(a[1..]);
      hide Content;
      ContentOfConcat(a[1..], b);
      assert first + (Content(a[1..]) + Content(b)) == first + Content(a[1..]) + Content(b);
    }
  }

  /** The lines `done` of the body have been read; `now` is what is left of the stream. */
  ghost predicate Reading(start: Wire, done: seq<LineResult>, now: Wire) {
    if start == [] then done == [] && now == []
    else now != [] && now[1..] == start[1..]
         && BodyLines(start[0]) == BodyLines(now[0]).(lines := done + BodyLines(now[0]).lines)
  }

  lemma NothingRead(start: Wire)
    ensures Reading(start, [], start)
  {
    if start != [] {
      assert [] + BodyLines(start[0]).lines == BodyLines(start[0]).lines;
    }
  }

  /** What reading one more line tells about the body. */
  lemma ReadOneMore(start: Wire, done: seq<LineResult>, now: Wire, max: int)
    requires Reading(start, done, now)
    ensures var (l, next) := WireLine(now);
            && (l.ReadError? ==> ReadBody(start, max) == (Verdict(done, max, false), next))
            && (l == Line(".") ==> ReadBody(start, max) == (Verdict(done, max, true), next))
            && (!l.ReadError? && l != Line(".") ==> Reading(start, done + [l], next))
            && (!l.ReadError? ==> WireSize(next) < WireSize(now))
  {
    hide FirstLine;
    assert Verdict([], max, false) == BodyBroken;
    hide Verdict;
    hide BodyLines;
    if now != [] && LF in now[0] {
      WireLineShrinks(now);
      FirstLineRead(now[0]);
      BodyLinesStep(now[0]);
      if FirstLine(now[0]) != Line(".") {
        NextBodyLine(now[0], done);
      }
    }
    if now != [] && LF !in now[0] {
      BodyLinesEnd(now[0]);
    }
    assert done + [] == done;
  }

  lemma BodyLinesEnd(s: Bytes)
    requires LF !in s
    ensures BodyLines(s) == BodyText([], false, "")
  {
  }

  lemma BodyLinesStep(s: Bytes)
    requires LF in s
    ensures BodyLines(s)
            == if FirstLine(s) == Line(".") then BodyText([], true, AfterLine(s))
               else BodyLines(AfterLine(s)).(lines := [FirstLine(s)] + BodyLines(AfterLine(s)).lines)
  {
    hide FirstLine;
    hide AfterLine;
  }

  lemma NextBodyLine(s: Bytes, done: seq<LineResult>)
    requires LF in s && FirstLine(s) != Line(".")
    ensures BodyLines(s).(lines := done + BodyLines(s).lines)
            == BodyLines(AfterLine(s)).(lines := done + [FirstLine(s)] + BodyLines(AfterLine(s)).lines)
  {
    hide FirstLine;
    hide BodyLines;
    BodyLinesStep(s);
    var later := BodyLines(AfterLine(s));
    assert done + ([FirstLine(s)] + later.lines) == done + [FirstLine(s)] + later.lines;
  }

  /** The lines of a body that begins with a given line. */
  lemma BodyBeginsWith(text: Bytes, later: Bytes)
    requires LF !in text
    ensures BodyLines(text + CRLF + later)
            == if text == "." then BodyText([], true, later)
               else
                 var line := if |text| > MAX_LINE then TooLong else Line(text);
                 BodyLines(later).(lines := [line] + BodyLines(later).lines)
  {
    hide FirstLine;
    hide AfterLine;
    hide BodyLines;
    var s := text + CRLF + later;
    ReadsTerminatedLine(text, later, []);
    assert LF in s by { assert s[|text| + 1] == LF; }
    assert WireLine([s] + []) == (FirstLine(s), [AfterLine(s)] + []);
    assert ([AfterLine(s)] + [])[0] == AfterLine(s) && ([later] + [])[0] == later;
    BodyLinesStep(s);
  }

  /** Lines as they travel, each with its LF; a CR before it belongs to the line end. */
  function Raw(lines: seq<Bytes>): Bytes {
    if lines == [] then "" else lines[0] + [LF] + Raw(lines[1..])
  }

  predicate NotDots(lines: seq<Bytes>) {
    forall i :: 0 <= i < |lines| ==> LF !in lines[i] && ChopCr(lines[i]) != "."
  }

  function Fate(line: Bytes): LineResult {
    if |ChopCr(line)| > MAX_LINE then TooLong else Line(ChopCr(line))
  }

  function Fates(lines: seq<Bytes>): seq<LineResult> {
    seq(|lines|, i requires 0 <= i < |lines| => Fate(lines[i]))
  }

  lemma FirstLineOf(line: Bytes, rest: Bytes)
    requires LF !in line
    ensures var s := line + [LF] + rest; LF in s && FirstLine(s) == Fate(line) && AfterLine(s) == rest
  {
    var s := line + [LF] + rest;
    IndexByteAt(line, LF, rest);
    FirstLineIs(s, line, rest);
  }

  lemma {:induction false} LinesToDot(lines: seq<Bytes>, dot: Bytes, rest: Bytes)
    requires NotDots(lines) && LF !in dot && ChopCr(dot) == "."
    ensures BodyLines(Raw(lines) + (dot + [LF] + rest)) == BodyText(Fates(lines), true, rest)
    decreases |lines|
  {
    hide BodyLines;
    hide Fate;
    hide ChopCr;
    hide FirstLine;
    hide AfterLine;
    if lines == [] {
      FirstLineOf(dot, rest);
      assert Fate(dot) == Line(".") by { DotFate(dot); }
      BodyLinesStep(dot + [LF] + rest);
      assert Raw(lines) + (dot + [LF] + rest) == dot + [LF] + rest;
    } else {
      var later := Raw(lines[1..]) + (dot + [LF] + rest);
      assert Raw(lines) + (dot + [LF] + rest) == lines[0] + [LF] + later;
      FirstLineOf(lines[0], later);
      BodyLinesStep(lines[0] + [LF] + later);
      assert Fate(lines[0]) != Line(".") by { NoDotFate(lines[0]); }
      LinesToDot(lines[1..], dot, rest);
      assert Fates(lines) == [Fate(lines[0])] + Fates(lines[1..]);
    }
  }

  lemma DotFate(line: Bytes)
    requires ChopCr(line) == "."
    ensures Fate(line) == Line(".")
  {
  }

  lemma NoDotFate(line: Bytes)
    requires ChopCr(line) != "."
    ensures Fate(line) != Line(".")
  {
  }

  /** Whatever lines come first, and whatever their lengths, their line ends and the size limit,
      the body read stops immediately after the first line that is a single dot. */
  lemma StopsAtDot(lines: seq<Bytes>, dot: Bytes, rest: Bytes, more: Wire, max: int)
    requires NotDots(lines) && LF !in dot && ChopCr(dot) == "."
    ensures ReadBody([Raw(lines) + (dot + [LF] + rest)] + more, max)
            == (Verdict(Fates(lines), max, true), [rest] + more)
  {
    hide Verdict;
    LinesToDot(lines, dot, rest);
    hide BodyLines;
  }

  lemma {:induction false} LinesToNowhere(lines: seq<Bytes>, tail: Bytes)
    requires NotDots(lines) && LF !in tail
    ensures BodyLines(Raw(lines) + tail) == BodyText(Fates(lines), false, "")
    decreases |lines|
  {
    hide BodyLines;
    hide Fate;
    hide ChopCr;
    hide FirstLine;
    hide AfterLine;
    if lines == [] {
      assert Raw(lines) + tail == tail;
      BodyLinesEnd(tail);
    } else {
      var later := Raw(lines[1..]) + tail;
      assert Raw(lines) + tail == lines[0] + [LF] + later;
      FirstLineOf(lines[0], later);
      BodyLinesStep(lines[0] + [LF] + later);
      assert Fate(lines[0]) != Line(".") by { NoDotFate(lines[0]); }
      LinesToNowhere(lines[1..], tail);
      assert Fates(lines) == [Fate(lines[0])] + Fates(lines[1..]);
    }
  }

  /** The first line that cannot be taken is within the line limit and overflows the size limit. */
  predicate OverflowsFirst(lines: seq<LineResult>, max: int) {
    exists k :: 0 <= k < |lines| && Overflows(lines, max, k)
  }

  predicate Overflows(lines: seq<LineResult>, max: int, k: nat)
    requires k < |lines|
  {
    && max > 0 && (forall i :: 0 <= i <= k ==> lines[i].Line?)
    && |Content(lines[..k])| <= max < |Content(lines[..k + 1])|
  }

  lemma OverflowMeans(lines: seq<LineResult>, max: int)
    ensures FirstFault(lines, max, 0).OverflowFirst? <==> OverflowsFirst(lines, max)
  {
    var k := FaultMeaning(lines, max, 0);
    hide FirstFault;
    if FirstFault(lines, max, 0).OverflowFirst? {
      assert Overflows(lines, max, k);
    }
    if OverflowsFirst(lines, max) {
      var m :| 0 <= m < |lines| && Overflows(lines, max, m);
      if k <= m {
        ContentOfFront(lines, k, m);
      } else {
        ContentOfFront(lines, m + 1, k);
      }
    }
    hide Content;
  }

  lemma ContentOfFront(lines: seq<LineResult>, j: nat, k: nat)
    requires j <= k <= |lines|
    ensures |Content(lines[..j])| <= |Content(lines[..k])|
    ensures j < k ==> |Content(lines[..j + 1])| <= |Content(lines[..k])|
  {
    ContentOfConcat(lines[..j], lines[j..k]);
    assert lines[..j] + lines[j..k] == lines[..k];
    if j < k {
      ContentOfConcat(lines[..j + 1], lines[j + 1..k]);
      assert lines[..j + 1] + lines[j + 1..k] == lines[..k];
    }
    hide Content;
  }

  /** A body whose read fails before the terminator is never taken, not even for the lines that
      had arrived: the read breaks, or had overflowed before. */
  lemma CutOffBody(lines: seq<Bytes>, tail: Bytes, more: Wire, max: int)
    requires NotDots(lines) && LF !in tail
    ensures ReadBody([Raw(lines) + tail] + more, max)
            == (if OverflowsFirst(Fates(lines), max) then BodyTooLarge else BodyBroken, more)
    ensures ReadBody([], max) == (BodyBroken, [])
  {
    LinesToNowhere(lines, tail);
    OverflowMeans(Fates(lines), max);
    hide BodyLines;
    hide FirstFault;
    hide OverflowsFirst;
    var w := [Raw(lines) + tail] + more;
    assert w[0] == Raw(lines) + tail && w[1..] == more;
  }

  /** Every run of bytes is some lines and a tail, or some lines, a line that is a single dot,
      and the rest. */
  lemma {:induction false} BodyParts(s: Bytes) returns (lines: seq<Bytes>, dot: Bytes, rest: Bytes)
    ensures NotDots(lines)
    ensures if BodyLines(s).terminated then LF !in dot && ChopCr(dot) == "." && s == Raw(lines) + (dot + [LF] + rest)
            else dot == "" && LF !in rest && s == Raw(lines) + rest
    decreases |s|
  {
    if LF !in s {
      lines, dot, rest := [], "", s;
      BodyLinesEnd(s);
      hide BodyLines;
      assert Raw([]) + s == s;
    } else {
      hide *;
      var line := SplitFirst(s);
      BodyLinesStep(s);
      if ChopCr(line) == "." {
        DotFate(line);
        lines, dot, rest := [], line, AfterLine(s);
        NoLines(s);
      } else {
        NoDotFate(line);
        var later;
        later, dot, rest := BodyParts(AfterLine(s));
        lines := [line] + later;
        OneMoreRaw(line, later);
        RawFirst(line, later, if BodyLines(s).terminated then dot + [LF] + rest else rest);
      }
    }
  }

  lemma SplitFirst(s: Bytes) returns (line: Bytes)
    requires LF in s
    ensures LF !in line && s == line + [LF] + AfterLine(s)
    ensures FirstLine(s) == Fate(line) && |AfterLine(s)| < |s|
  {
    line := s[..IndexByte(s, LF)];
    assert s == line + [LF] + AfterLine(s);
    FirstLineOf(line, AfterLine(s));
    hide FirstLine;
    hide Fate;
  }

  lemma NoLines(s: Bytes)
    ensures NotDots([]) && Raw([]) + s == s
  {
  }

  lemma OneMoreRaw(line: Bytes, later: seq<Bytes>)
    requires NotDots(later) && LF !in line && ChopCr(line) != "."
    ensures NotDots([line] + later)
  {
  }

  lemma RawFirst(line: Bytes, later: seq<Bytes>, end: Bytes)
    ensures Raw([line] + later) + end == line + [LF] + (Raw(later) + end)
  {
    assert ([line] + later)[1..] == later;
  }

  /** A body is delivered only whole: its lines, a line that is a single dot, and nothing lost. */
  lemma DeliveredWhole(w: Wire, max: int) returns (lines: seq<Bytes>, dot: Bytes, rest: Bytes)
    requires ReadBody(w, max).0.Body?
    ensures NotDots(lines) && LF !in dot && ChopCr(dot) == "."
    ensures w != [] && w[0] == Raw(lines) + (dot + [LF] + rest)
    ensures ReadBody(w, max) == (Body(Content(Fates(lines))), [rest] + w[1..])
  {
    assert w != [] && BodyLines(w[0]).terminated;
    lines, dot, rest := BodyParts(w[0]);
    hide BodyLines;
    hide Raw;
    StopsAtDot(lines, dot, rest, w[1..], max);
    assert [Raw(lines) + (dot + [LF] + rest)] + w[1..] == w;
    hide ReadBody;
    hide FirstFault;
  }

  /** What one more line adds to the faults and to the content. */
  lemma OneMoreLine(done: seq<LineResult>, l: LineResult, max: int)
    ensures FirstFault(done + [l], max, 0)
            == (if !FirstFault(done, max, 0).NoFault? then FirstFault(done, max, 0)
                else if !l.Line? then LongLineFirst
                else if max > 0 && |Content(done)| + |Unstuff(l.text)| + 2 > max then OverflowFirst
                else NoFault)
    ensures l.Line? ==> Content(done + [l]) == Content(done) + Unstuff(l.text) + CRLF
  {
    hide Unstuff;
    assert [l][1..] == [];
    FaultOfConcat(done, [l], max, 0);
    ContentOfConcat(done, [l]);
  }

  /** Reads a dot-stuffed body. After an over-long line or an overflow the rest of the body is
      drained, so the next command starts after the terminator. */
  method ReadDotUnstuffed(r: BufReader, max: int, rooms: nat -> nat) returns (res: BodyResult)
    requires forall i :: rooms(i) > 0
    modifies r
    ensures (res, r.wire) == ReadBody(old(r.wire), max)
  {
    hide Reading;
    hide ReadBody;
    hide WireLine;
    hide Unstuff;
    ghost var start := r.wire;
    NothingRead(start);
    ghost var done: seq<LineResult> := [];
    var buf: Bytes := "";
    var tooLong := false;
    while true
      invariant Reading(start, done, r.wire)
      invariant tooLong ==> FirstFault(done, max, 0).LongLineFirst?
      invariant !tooLong ==> FirstFault(done, max, 0).NoFault? && buf == Content(done)
      decreases WireSize(r.wire)
    {
      ReadOneMore(start, done, r.wire, max);
      var l, _ := r.ReadLine(rooms);
      OneMoreLine(done, l, max);
      if l.ReadError? {
        return BodyBroken;
      }
      if l == Line(".") {
        return if tooLong then BodyLineTooLong else Body(buf);
      }
      done := done + [l];
      if l.TooLong? {
        tooLong := true;
        continue;
      }
      if tooLong {
        continue;
      }
      var line := Unstuff(l.text);
      if max > 0 && |buf| + |line| + 2 > max {
        while true
          invariant Reading(start, done, r.wire)
          invariant FirstFault(done, max, 0).OverflowFirst?
          decreases WireSize(r.wire)
        {
          ReadOneMore(start, done, r.wire, max);
          var d, _ := r.ReadLine(rooms);
          OneMoreLine(done, d, max);
          if d.ReadError? || d == Line(".") {
            return BodyTooLarge;
          }
          done := done + [d];
        }
      }
      buf := buf + line + CRLF;
    }
  }
}
