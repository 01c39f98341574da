/** Replies as bytes, and the reply reader of the replay client. */
module Replies {
  import opened Text
  import opened Lines
  import opened Session

  // ---------------------------------------------------------------- what the server writes

  predicate OneLine(s: Bytes) {
    forall i :: 0 <= i < |s| ==> s[i] != CR && s[i] != LF
  }

  function DecimalInt(n: int): Bytes {
    if n < 0 then "-" + Decimal(-n) else Decimal(n)
  }

  function Label(extended: bool): Bytes {
    if extended then "EHLO" else "HELO"
  }

  /** The text of a reply line. A few long texts are written in two halves. */
  function TextOf(m: Message): Bytes {
    match m
    case Phrase(text) => text
    case Banner(hostname) => hostname + " ESMTP"
    case Welcome(hostname, domain) => hostname + " Hello " + domain
    case Host(hostname) => hostname
    case Pipelining => "PIPELINING"
    case EightBitMime => "8BITMIME"
    case EnhancedStatusCodes => "ENHANCEDSTATUSCODES"
    case SmtpUtf8 => "SMTPUTF8"
    case Chunking => "CHUNKING"
    case StartTls => "STARTTLS"
    case SizeLimit(n) => "SIZE " + DecimalInt(n)
    case DomainMissing(extended) => "5.5.2 " + Label(extended) + " requires domain"
    case DomainInvalid(extended) => "5.5.2 Invalid " + Label(extended) + " domain"
    case TlsActive => "5.5.1 STARTTLS already done"
    case TlsUnsupported => "5.5.1 STARTTLS not supported"
    case TlsReady => "2.0.0 Ready to start TLS"
    case TlsRequired => "5.7.0 STARTTLS required first"
    case GreetingRequired => "5.5.1 EHLO required first"
    case MailAlreadySent => "5.5.1 MAIL already sent"
    case BadMailSyntax => "5.5.4 Bad MAIL FROM syntax"
    case BadSizeParam => "5.5.4 Bad SIZE parameter"
    case MessageSize => "5.3.4 Message size" + " exceeds fixed limit"
    case MailRequired => "5.5.1 MAIL required first"
    case BadRecipient => "5.5.2 Invalid" + " recipient address"
    case TooManyRecipients => "4.5.3 Too many recipients"
    case RcptRequired => "5.5.1 RCPT required first"
    case NoRecipients => "5.5.1 No valid recipients"
    case GoAhead => "Go ahead"
    case ReadFailed => "4.3.0 Error reading message"
    case EightBitData => "5.6.3 Message contains" + " 8-bit data but" + " BODY=8BITMIME not specified"
    case BadBdatSyntax => "5.5.4 Bad BDAT syntax"
    case ChunkFailed => "4.3.0 Error reading chunk"
    case LineTooLong => "5.5.2 Line too long"
    case BadSequence => "5.5.1 Bad sequence" + " of commands"
    case Okay => "2.0.0 OK"
    case HelpText => "2.0.0 HELO EHLO MAIL" + " RCPT DATA BDAT RSET" + " NOOP VRFY EXPN QUIT"
    case VrfyDisabled => "2.0.0 VRFY not supported"
    case Bye => "2.0.0 Bye"
    case NotRecognised => "5.5.1 Command not recognised"
    case ShuttingDown => "4.3.0 Service shutting down"
  }

  // ---------------------------------------------------------------- texts within one line

  lemma OneLineConcat(a: Bytes, b: Bytes)
    requires OneLine(a) && OneLine(b)
    ensures OneLine(a + b)
  {
  }

  lemma GreetingTexts()
    ensures OneLine("PIPELINING")
    ensures OneLine("8BITMIME")
    ensures OneLine("ENHANCEDSTATUSCODES")
    ensures OneLine("SMTPUTF8")
    ensures OneLine("CHUNKING")
    ensures OneLine("STARTTLS")
  {
  }

  lemma TlsTexts()
    ensures OneLine("5.5.1 STARTTLS already done")
    ensures OneLine("5.5.1 STARTTLS not supported")
    ensures OneLine("2.0.0 Ready to start TLS")
    ensures OneLine("5.7.0 STARTTLS required first")
  {
  }

  lemma MailTexts()
    ensures OneLine("5.5.1 EHLO required first")
    ensures OneLine("5.5.1 MAIL already sent")
    ensures OneLine("5.5.4 Bad MAIL FROM syntax")
    ensures OneLine("5.5.4 Bad SIZE parameter")
  {
  }

  lemma RcptTexts()
    ensures OneLine("5.5.1 MAIL required first")
    ensures OneLine("4.5.3 Too many recipients")
    ensures OneLine("5.5.1 RCPT required first")
    ensures OneLine("5.5.1 No valid recipients")
  {
  }

  lemma BodyTexts()
    ensures OneLine("Go ahead")
    ensures OneLine("4.3.0 Error reading message")
    ensures OneLine("5.5.4 Bad BDAT syntax")
    ensures OneLine("4.3.0 Error reading chunk")
    ensures OneLine("5.5.2 Line too long")
  {
  }

  lemma OtherTexts()
    ensures OneLine("2.0.0 OK")
    ensures OneLine("2.0.0 VRFY not supported")
    ensures OneLine("2.0.0 Bye")
    ensures OneLine("5.5.1 Command not recognised")
    ensures OneLine("4.3.0 Service shutting down")
  {
  }

  lemma LongTexts()
    ensures OneLine("5.3.4 Message size" + " exceeds fixed limit")
    ensures OneLine("5.5.2 Invalid" + " recipient address")
    ensures OneLine("5.5.1 Bad sequence" + " of commands")
  {
    OneLineConcat("5.3.4 Message size", " exceeds fixed limit");
    OneLineConcat("5.5.2 Invalid", " recipient address");
    OneLineConcat("5.5.1 Bad sequence", " of commands");
  }

  lemma LongestTexts()
    ensures OneLine("5.6.3 Message contains" + " 8-bit data but" + " BODY=8BITMIME not specified")
    ensures OneLine("2.0.0 HELO EHLO MAIL" + " RCPT DATA BDAT RSET" + " NOOP VRFY EXPN QUIT")
  {
    OneLineConcat("5.6.3 Message contains", " 8-bit data but");
    OneLineConcat("5.6.3 Message contains" + " 8-bit data but", " BODY=8BITMIME not specified");
    OneLineConcat("2.0.0 HELO EHLO MAIL", " RCPT DATA BDAT RSET");
    OneLineConcat("2.0.0 HELO EHLO MAIL" + " RCPT DATA BDAT RSET", " NOOP VRFY EXPN QUIT");
  }

  lemma LabelTexts(extended: bool)
    ensures OneLine("5.5.2 " + Label(extended) + " requires domain")
    ensures OneLine("5.5.2 Invalid " + Label(extended) + " domain")
  {
    OneLineConcat("5.5.2 ", Label(extended));
    OneLineConcat("5.5.2 " + Label(extended), " requires domain");
    OneLineConcat("5.5.2 Invalid ", Label(extended));
    OneLineConcat("5.5.2 Invalid " + Label(extended), " domain");
  }

  lemma DecimalOneLine(n: int)
    ensures OneLine(DecimalInt(n))
  {
    var d := Decimal(if n < 0 then -n else n);
    DecimalReads(if n < 0 then -n else n);
    assert forall i :: 0 <= i < |d| ==> IsDigit(d[i]);
  }

  /** The texts that name neither the host nor the client, nor come from the handler. */
  predicate Anonymous(m: Message) {
    !m.Phrase? && !m.Banner? && !m.Welcome? && !m.Host?
  }

  lemma AnonymousText(m: Message)
    requires Anonymous(m)
    ensures OneLine(TextOf(m))
  {
    GreetingTexts();
    TlsTexts();
    MailTexts();
    RcptTexts();
    BodyTexts();
    OtherTexts();
    LongTexts();
    LongestTexts();
    if m.SizeLimit? {
      DecimalOneLine(m.n);
      OneLineConcat("SIZE ", DecimalInt(m.n));
    } else if m.DomainMissing? || m.DomainInvalid? {
      LabelTexts(m.extended);
    }
    hide OneLine;
    hide Label;
    hide DecimalInt;
  }

  /** One line of a reply: the code, a space or for all but the last line a dash, the text. */
  function RenderLine(code: int, last: bool, text: Bytes): Bytes {
    DecimalInt(code) + (if last then " " else "-") + text + CRLF
  }

  function RenderLines(code: int, lines: seq<Message>): Bytes {
    if lines == [] then ""
    else RenderLine(code, |lines| == 1, TextOf(lines[0])) + RenderLines(code, lines[1..])
  }

  function Render(r: Reply): Bytes {
    RenderLines(r.code, r.lines)
  }

  /** Everything written for a sequence of replies. */
  function RenderAll(replies: seq<Reply>): Bytes {
    if replies == [] then "" else Render(replies[0]) + RenderAll(replies[1..])
  }

  // ---------------------------------------------------------------- what the client reads

  function TrimEol(s: Bytes): Bytes {
    if s != "" && IsEol(s[|s| - 1]) then TrimEol(s[..|s| - 1]) else s
  }

  /** Length of the leading run of digits. */
  function DigitRun(s: Bytes): (k: nat)
    ensures k <= |s| && AllDigits(s[..k])
    ensures k < |s| ==> !IsDigit(s[k])
  {
    if s == "" || !IsDigit(s[0]) then 0
    else
      var k := DigitRun(s[1..]);
      assert s[..k + 1] == [s[0]] + s[1..][..k];
      k + 1
  }

  /** The integer at the start of a line, after optional white space and sign. */
  function ScanInt(line: Bytes): Option<int> {
    var t := TrimLeft(line);
    var signed := t != "" && (t[0] == '-' || t[0] == '+');
    var digits := if signed then t[1..] else t;
    var k := DigitRun(digits);
    if k == 0 then None else ParseInt64((if signed then t[..1] else "") + digits[..k])
  }

  /** Reads reply lines until one has a space in fourth place; fails on any other code. The
      result is what is left to read. */
  function Expect(s: Bytes, want: int): Option<Bytes>
    decreases |s|
  {
    if LF !in s then None
    else
      var line := TrimEol(s[..IndexByte(s, LF) + 1]);
      var code := ScanInt(line);
      if code.None? || code.value < 200 || code.value != want then None
      else if |line| > 3 && line[3] == ' ' then Some(AfterLine(s))
      else Expect(AfterLine(s), want)
  }

  /** The client's loop over the lines of one reply. */
  method ExpectReply(input: Bytes, want: int) returns (rest: Option<Bytes>)
    ensures rest == Expect(input, want)
  {
    hide ScanInt;
    hide TrimEol;
    var unread := input;
    while true
      invariant Expect(unread, want) == Expect(input, want)
      decreases |unread|
    {
      if LF !in unread {
        return None;
      }
      var line := TrimEol(unread[..IndexByte(unread, LF) + 1]);
      unread := AfterLine(unread);
      var code := ScanInt(line);
      if code.None? || code.value < 200 {
        return None;
      }
      var isLast := |line| > 3 && line[3] == ' ';
      if code.value != want {
        return None;
      }
      if isLast {
        return Some(unread);
      }
    }
  }

  // ---------------------------------------------------------------- framing

  predicate ThreeDigits(code: int) {
    200 <= code <= 999
  }

  predicate Framed(r: Reply) {
    && ThreeDigits(r.code) && r.lines != []
    && forall i :: 0 <= i < |r.lines| ==> OneLine(TextOf(r.lines[i]))
  }

  lemma ThreeDigitText(code: int)
    requires ThreeDigits(code)
    ensures var d := DecimalInt(code); |d| == 3 && AllDigits(d) && DigitsValue(d) == code
  {
    DecimalReads(code);
    var tens := code / 10;
    assert Decimal(code) == Decimal(tens) + [Digit(code % 10)];
    assert Decimal(tens) == Decimal(tens / 10) + [Digit(tens % 10)];
    assert Decimal(tens / 10) == [Digit(tens / 10)];
  }

  lemma ScansCode(code: int, tail: Bytes)
    requires ThreeDigits(code) && (tail != "" ==> !IsDigit(tail[0]))
    ensures ScanInt(DecimalInt(code) + tail) == Some(code)
  {
    ThreeDigitText(code);
    var d := DecimalInt(code);
    var line := d + tail;
    assert line[0] == d[0] && IsDigit(line[0]);
    assert TrimLeft(line) == line;
    assert line[..3] == d;
    assert tail != "" ==> line[3] == tail[0];
    DigitRunIs(line, 3);
    assert ParseInt64(d) == Some(code);
    assert !(line[0] == '-' || line[0] == '+');
    assert "" + line[..3] == d;
  }

  lemma {:induction false} DigitRunIs(s: Bytes, n: nat)
    requires n <= |s| && AllDigits(s[..n]) && (n < |s| ==> !IsDigit(s[n]))
    ensures DigitRun(s) == n
  {
    if n > 0 {
      assert IsDigit(s[..n][0]);
      assert s[1..][..n - 1] == s[..n][1..];
      DigitRunIs(s[1..], n - 1);
    }
  }

  lemma LineRead(body: Bytes, rest: Bytes)
    requires OneLine(body)
    ensures var s := body + CRLF + rest;
            LF in s && TrimEol(s[..IndexByte(s, LF) + 1]) == body && AfterLine(s) == rest
  {
    var s := body + CRLF + rest;
    assert s == (body + "\r") + [LF] + rest;
    IndexByteAt(body + "\r", LF, rest);
    assert s[|body| + 1] == LF;
    assert s[..|body| + 2] == body + "\r\n";
    TrimsEol(body);
    hide TrimEol;
  }

  lemma LineDecodes(code: int, last: bool, text: Bytes, rest: Bytes, want: int)
    requires ThreeDigits(code) && OneLine(text)
    ensures Expect(RenderLine(code, last, text) + rest, want)
            == if want != code then None else if last then Some(rest) else Expect(rest, want)
  {
    ThreeDigitText(code);
    hide DecimalInt;
    hide ScanInt;
    hide TrimEol;
    hide AfterLine;
    hide OneLine;
    var digits, sign := DecimalInt(code), if last then " " else "-";
    var body := digits + sign + text;
    OneLineBody(code, last, text);
    assert RenderLine(code, last, text) + rest == body + CRLF + rest;
    hide RenderLine;
    LineRead(body, rest);
    assert body == digits + (sign + text);
    ScansCode(code, sign + text);
    assert body[3] == sign[0];
  }

  lemma OneLineBody(code: int, last: bool, text: Bytes)
    requires ThreeDigits(code) && OneLine(text)
    ensures OneLine(DecimalInt(code) + (if last then " " else "-") + text)
  {
    ThreeDigitText(code);
    var d := DecimalInt(code);
    assert forall i :: 0 <= i < |d| ==> IsDigit(d[i]);
  }

  lemma TrimsEol(body: Bytes)
    requires OneLine(body)
    ensures TrimEol(body + "\r\n") == body
  {
    assert (body + "\r\n")[..|body| + 1] == body + "\r";
    assert (body + "\r")[..|body|] == body;
    assert TrimEol(body) == body;
    assert TrimEol(body + "\r") == TrimEol(body);
  }

  /** A line with the code alone is taken as a line of a longer reply: the client reads on. */
  lemma BareCodeContinues(code: int, rest: Bytes, want: int)
    requires ThreeDigits(code)
    ensures Expect(DecimalInt(code) + CRLF + rest, want) == if want != code then None else Expect(rest, want)
  {
    ThreeDigitText(code);
    ScansCode(code, "");
    var d := DecimalInt(code);
    assert d + "" == d;
    assert OneLine(d) by {
      assert forall i :: 0 <= i < |d| ==> IsDigit(d[i]);
    }
    LineRead(d, rest);
    hide ScanInt;
    hide TrimEol;
    hide DecimalInt;
    hide AfterLine;
  }

  /** A line that does not start with a number fails, and so does an unfinished line. */
  lemma NoCodeFails(text: Bytes, rest: Bytes, want: int)
    requires OneLine(text)
    requires text == "" || !(IsDigit(text[0]) || IsSpace(text[0]) || text[0] == '-' || text[0] == '+')
    ensures Expect(text + CRLF + rest, want) == None
    ensures LF !in rest ==> Expect(rest, want) == None
  {
    LineRead(text, rest);
    hide TrimEol;
    hide AfterLine;
  }

  lemma {:induction false} LinesDecode(code: int, lines: seq<Message>, rest: Bytes, want: int)
    requires Framed(Reply(code, lines))
    ensures Expect(RenderLines(code, lines) + rest, want) == if want == code then Some(rest) else None
    decreases |lines|
  {
    hide TextOf;
    hide Expect;
    hide RenderLine;
    hide OneLine;
    var text := TextOf(lines[0]);
    var later := RenderLines(code, lines[1..]);
    assert RenderLines(code, lines) + rest == RenderLine(code, |lines| == 1, text) + (later + rest);
    LineDecodes(code, |lines| == 1, text, later + rest, want);
    if |lines| == 1 {
      assert later + rest == rest;
    } else {
      LinesDecode(code, lines[1..], rest, want);
    }
  }

  /** Expecting several replies one after the other. */
  function ExpectAll(s: Bytes, wants: seq<int>): Option<Bytes>
    decreases |wants|
  {
    if wants == [] then Some(s)
    else match Expect(s, wants[0])
      case None => None
      case Some(rest) => ExpectAll(rest, wants[1..])
  }

  function Codes(replies: seq<Reply>): seq<int> {
    seq(|replies|, i requires 0 <= i < |replies| => replies[i].code)
  }

  predicate AllFramed(replies: seq<Reply>) {
    forall i :: 0 <= i < |replies| ==> Framed(replies[i])
  }

  /** The bytes of a sequence of replies decode, reply by reply, into exactly that sequence of
      codes and no other. */
  lemma {:induction false} RepliesDecodeUniquely(replies: seq<Reply>, rest: Bytes, wants: seq<int>)
    requires AllFramed(replies) && |wants| == |replies|
    ensures ExpectAll(RenderAll(replies) + rest, wants) == if wants == Codes(replies) then Some(rest) else None
  {
    hide Expect;
    hide Framed;
    hide Render;
    if replies == [] {
      assert RenderAll(replies) + rest == rest;
    } else {
      var r := replies[0];
      assert RenderAll(replies) + rest == Render(r) + (RenderAll(replies[1..]) + rest);
      ReplyDecodes(r, RenderAll(replies[1..]) + rest, wants[0]);
      RepliesDecodeUniquely(replies[1..], rest, wants[1..]);
      assert Codes(replies) == [r.code] + Codes(replies[1..]);
      assert wants == [wants[0]] + wants[1..];
    }
  }

  /** A reply, whatever its number of lines, is one reply to the client. */
  lemma ReplyDecodes(r: Reply, rest: Bytes, want: int)
    requires Framed(r)
    ensures Expect(Render(r) + rest, want) == if want == r.code then Some(rest) else None
  {
    LinesDecode(r.code, r.lines, rest, want);
  }

  lemma {:induction false} RenderAllConcat(a: seq<Reply>, b: seq<Reply>)
    ensures RenderAll(a + b) == RenderAll(a) + RenderAll(b)
  {
    hide Render;
    if a == [] {
      assert a + b == b;
    } else {
      assert (a + b)[1..] == a[1..] + b;
      RenderAllConcat(a[1..], b);
    }
  }

  lemma RenderAllOne(r: Reply)
    ensures RenderAll([r]) == Render(r)
  {
    hide Render;
    assert [r][1..] == [];
  }

  // ---------------------------------------------------------------- replies that look the same

  /** The first line of a reply, without its line end. */
  function HeadLine(r: Reply): Bytes
    requires r.lines != []
  {
    DecimalInt(r.code) + (if |r.lines| == 1 then " " else "-") + TextOf(r.lines[0])
  }

  lemma RenderStarts(r: Reply, rest: Bytes) returns (later: Bytes)
    requires Framed(r)
    ensures Render(r) + rest == HeadLine(r) + CRLF + later
    ensures OneLine(HeadLine(r))
  {
    hide TextOf;
    hide DecimalInt;
    hide OneLine;
    var text := TextOf(r.lines[0]);
    assert OneLine(text);
    OneLineBody(r.code, |r.lines| == 1, text);
    later := RenderLines(r.code, r.lines[1..]) + rest;
    assert Render(r) == HeadLine(r) + CRLF + RenderLines(r.code, r.lines[1..]);
    hide HeadLine;
    hide Render;
    hide RenderLines;
  }

  /** Where bytes that start with a whole line are a beginning of others, the first lines agree. */
  lemma FirstLinesAgree(a: Bytes, x: Bytes, b: Bytes, y: Bytes)
    requires OneLine(a) && OneLine(b) && a + CRLF + x <= b + CRLF + y
    ensures a == b
  {
    var s, t := a + CRLF + x, b + CRLF + y;
    assert s == a + [CR] + ([LF] + x) && t == b + [CR] + ([LF] + y);
    IndexByteAt(a, CR, [LF] + x);
    IndexByteAt(b, CR, [LF] + y);
    assert t[..|s|] == s;
    assert forall i :: 0 <= i < |s| ==> s[i] == t[i];
    assert t[|a|] == CR;
    assert s[|b|] == CR;
    assert s[..|a|] == a && t[..|b|] == b;
  }

  /** Replies with the same first line have the same code and text, and are both of one line or
      both not. */
  lemma HeadLineTells(r: Reply, q: Reply)
    requires Framed(r) && Framed(q) && HeadLine(r) == HeadLine(q)
    ensures r.code == q.code && TextOf(r.lines[0]) == TextOf(q.lines[0])
    ensures |r.lines| == 1 <==> |q.lines| == 1
  {
    ThreeDigitText(r.code);
    ThreeDigitText(q.code);
    hide TextOf;
    var d, e := DecimalInt(r.code), DecimalInt(q.code);
    hide DecimalInt;
    assert HeadLine(r)[..3] == d && HeadLine(q)[..3] == e;
    assert HeadLine(r)[3..4] == (if |r.lines| == 1 then " " else "-");
    assert HeadLine(q)[3..4] == (if |q.lines| == 1 then " " else "-");
    assert HeadLine(r)[4..] == TextOf(r.lines[0]) && HeadLine(q)[4..] == TextOf(q.lines[0]);
    assert " "[0] != "-"[0];
  }

  /** The bytes of one list of replies are a beginning of another's only if the first replies
      after a common part have the same first line. */
  lemma RepliesPart(common: seq<Reply>, r: Reply, a: seq<Reply>, q: Reply, b: seq<Reply>)
    requires Framed(r) && Framed(q)
    requires RenderAll(common + [r] + a) <= RenderAll(common + [q] + b)
    ensures HeadLine(r) == HeadLine(q)
  {
    assert r.lines != [] && q.lines != [];
    hide *;
    RenderAllConcat(common + [r], a);
    RenderAllConcat(common, [r]);
    RenderAllOne(r);
    RenderAllConcat(common + [q], b);
    RenderAllConcat(common, [q]);
    RenderAllOne(q);
    var x := RenderStarts(r, RenderAll(a));
    var y := RenderStarts(q, RenderAll(b));
    DropCommon(RenderAll(common), Render(r), RenderAll(a), Render(q), RenderAll(b));
    FirstLinesAgree(HeadLine(r), x, HeadLine(q), y);
  }

  lemma DropCommon(common: Bytes, r: Bytes, a: Bytes, q: Bytes, b: Bytes)
    requires common + r + a <= common + q + b
    ensures r + a <= q + b
  {
    assert (common + r + a)[|common|..] == r + a;
    assert (common + q + b)[|common|..] == q + b;
  }
}
