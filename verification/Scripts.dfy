/** Command lines as clients write them, and what the server parses them to. */
module Scripts {
  import opened Text
  import opened Lines
  import opened Commands
  import opened Session

  /** A command line, as it travels. */
  function LineOf(text: Bytes): Bytes {
    text + CRLF
  }

  predicate IsVerb(verb: Bytes) {
    verb != "" && forall i :: 0 <= i < |verb| ==> 'A' <= verb[i] <= 'Z'
  }

  lemma SplitsBareVerb(verb: Bytes)
    requires IsVerb(verb)
    ensures SplitVerb(verb) == (verb, "")
  {
    TrimmedStays(verb);
    assert IndexBlank(verb) == |verb|;
    assert Upper(verb) == verb;
  }

  lemma SplitsVerbWithArgs(verb: Bytes, args: Bytes)
    requires IsVerb(verb) && args != "" && Trimmed(args)
    ensures SplitVerb(verb + " " + args) == (verb, args)
  {
    var line := verb + " " + args;
    assert line[0] == verb[0] && line[|line| - 1] == args[|args| - 1];
    TrimmedStays(line);
    assert forall i :: 0 <= i < |verb| ==> line[i] == verb[i];
    assert line[|verb|] == ' ';
    assert IndexBlank(line) == |verb|;
    assert line[..|verb|] == verb && line[|verb|..] == " " + args;
    assert Upper(verb) == verb;
    TrimLeadingSpace(args);
  }

  /** Reading a command line that arrives whole. */
  lemma ReadsCommand(text: Bytes, tail: Bytes, more: Wire, upgrade: Option<Wire>)
    requires LF !in text && |text| <= MAX_LINE
    ensures ReadCmd(Net([LineOf(text) + tail] + more, upgrade))
            == (Some(ParseCommand(text)), Net([tail] + more, upgrade))
  {
    ReadsTerminatedLine(text, tail, more);
  }

  /** The server takes one command line that has arrived. */
  lemma ServeOne(cfg: Config, h: Handler, s: Session, text: Bytes, tail: Bytes, more: Wire, upgrade: Option<Wire>)
    requires LF !in text && |text| <= MAX_LINE
    ensures var o := Exec(cfg, h, s, Net([tail] + more, upgrade), ParseCommand(text));
            Serve(cfg, h, s, Net([LineOf(text) + tail] + more, upgrade))
            == if o.ended then Final(Replied(o), o.net) else Serve(cfg, h, Replied(o), o.net)
  {
    ReadsCommand(text, tail, more, upgrade);
  }

  lemma ParsesAsBare(verb: Bytes)
    requires SplitVerb(verb) == (verb, "")
    ensures verb == "NOOP" ==> ParseCommand(verb) == NOOP
    ensures verb == "DATA" ==> ParseCommand(verb) == DATA
    ensures verb == "QUIT" ==> ParseCommand(verb) == QUIT
  {
    hide ParseBdatArgs;
    hide ParseMailFrom;
    hide ParseRcptTo;
    hide SplitVerb;
  }

  lemma ParsesNoop()
    ensures ParseCommand("NOOP") == NOOP
  {
    SplitsBareVerb("NOOP");
    hide *;
    ParsesAsBare("NOOP");
  }

  lemma ParsesData()
    ensures ParseCommand("DATA") == DATA
  {
    SplitsBareVerb("DATA");
    hide *;
    ParsesAsBare("DATA");
  }

  lemma ParsesQuit()
    ensures ParseCommand("QUIT") == QUIT
  {
    SplitsBareVerb("QUIT");
    hide *;
    ParsesAsBare("QUIT");
  }

  // ---------------------------------------------------------------- BDAT

  function BdatArgs(c: Chunk): Bytes {
    Decimal(c.size) + if c.last then " LAST" else ""
  }

  function BdatLine(c: Chunk): Bytes {
    "BDAT " + BdatArgs(c)
  }

  lemma DigitsAreText(s: Bytes)
    requires AllDigits(s) && s != ""
    ensures NoSpace(s) && Trimmed(s) && LF !in s
  {
    assert forall i :: 0 <= i < |s| ==> IsDigit(s[i]);
  }

  lemma {:induction false} DecimalLength(n: nat, digits: nat)
    requires digits > 0 && n < Power10(digits)
    ensures |Decimal(n)| <= digits
  {
    if n >= 10 {
      DecimalLength(n / 10, digits - 1);
    }
  }

  function Power10(k: nat): nat {
    if k == 0 then 1 else 10 * Power10(k - 1)
  }

  lemma BdatArgsParse(c: Chunk)
    requires c.size <= MAX_INT64
    ensures ParseBdatArgs(BdatArgs(c)) == Some(c)
    ensures BdatArgs(c) != "" && Trimmed(BdatArgs(c)) && LF !in BdatArgs(c)
  {
    var digits := Decimal(c.size);
    DecimalReads(c.size);
    DecimalParses(c.size);
    NumberAlone(digits);
    NumberThenLast(digits);
    hide *;
    assert BdatArgs(c) == if c.last then digits + " LAST" else digits by {
      hide Decimal;
      assert digits + "" == digits;
    }
    ArgsOfFields(c, BdatArgs(c));
  }

  lemma NumberAlone(digits: Bytes)
    requires AllDigits(digits) && digits != ""
    ensures Fields(digits) == [digits] && Trimmed(digits) && LF !in digits
  {
    DigitsAreText(digits);
    FieldsOfOne(digits);
    hide Fields;
  }

  lemma NumberThenLast(digits: Bytes)
    requires AllDigits(digits) && digits != ""
    ensures Fields(digits + " LAST") == [digits, "LAST"] && Trimmed(digits + " LAST") && LF !in digits + " LAST"
  {
    DigitsAreText(digits);
    FieldsOfTwo(digits, "LAST");
    assert digits + " LAST" == digits + " " + "LAST";
    hide Fields;
    hide AllDigits;
  }

  lemma ArgsOfFields(c: Chunk, args: Bytes)
    requires Fields(args) == [Decimal(c.size)] + (if c.last then ["LAST"] else [])
    requires ParseInt64(Decimal(c.size)) == Some(c.size)
    ensures ParseBdatArgs(args) == Some(c)
  {
    hide Fields;
    hide Decimal;
    hide ParseInt64;
    assert Upper("LAST") == "LAST";
  }

  lemma ShortDecimal(n: nat)
    requires n <= MAX_INT64
    ensures |Decimal(n)| <= 19
  {
    assert Power10(4) == 10_000;
    assert Power10(7) == 1000 * Power10(4);
    assert Power10(10) == 1000 * Power10(7);
    assert Power10(13) == 1000 * Power10(10);
    assert Power10(16) == 1000 * Power10(13);
    assert Power10(19) == 1000 * Power10(16);
    DecimalLength(n, 19);
  }

  lemma BdatLineFits(c: Chunk)
    requires c.size <= MAX_INT64
    ensures LF !in BdatLine(c) && |BdatLine(c)| <= MAX_LINE
  {
    BdatArgsParse(c);
    ShortDecimal(c.size);
  }

  lemma ParsesBdat(c: Chunk)
    requires c.size <= MAX_INT64
    ensures ParseCommand(BdatLine(c)) == BDAT(Some(c))
  {
    BdatArgsParse(c);
    assert "BDAT " + BdatArgs(c) == "BDAT" + " " + BdatArgs(c);
    SplitsVerbWithArgs("BDAT", BdatArgs(c));
    ParsesAs("BDAT", BdatArgs(c), BdatLine(c));
    hide ParseCommand;
    hide SplitVerb;
  }

  /** The command that a verb with arguments stands for. */
  lemma ParsesAs(verb: Bytes, args: Bytes, line: Bytes)
    requires SplitVerb(line) == (verb, args)
    ensures verb == "BDAT" ==> ParseCommand(line) == BDAT(ParseBdatArgs(args))
    ensures verb == "EHLO" ==> ParseCommand(line) == EHLO(args)
    ensures verb == "MAIL" ==> ParseCommand(line) == MAIL(ParseMailFrom(args))
    ensures verb == "RCPT" ==> ParseCommand(line) == RCPT(ParseRcptTo(args))
  {
    hide ParseBdatArgs;
    hide ParseMailFrom;
    hide ParseRcptTo;
    hide SplitVerb;
  }

  // ---------------------------------------------------------------- envelope commands

  lemma ValidIsOneLine(a: Bytes)
    requires ValidAddress(a)
    ensures CR !in a && LF !in a
  {
    assert forall i :: 0 <= i < |a| ==> !(IsControl(a[i]) && a[i] != '\t');
  }

  /** An address in angle brackets. */
  function Bracketed(a: Bytes): Bytes {
    "<" + a + ">"
  }

  lemma ParsesReversePath(from: Bytes)
    requires ValidAddress(from) && '>' !in from
    ensures ParseMailFrom("FROM:" + Bracketed(from)) == Some(MailArgs(from, map[]))
  {
    var args := "FROM:" + Bracketed(from);
    var path := Bracketed(from);
    TrimmedStays(args);
    assert args[..5] == "FROM:" && args[5..] == path;
    TrimmedStays(path);
    assert path == ("<" + from) + [">"[0]] + "";
    IndexByteAt("<" + from, '>', "");
    assert path[|from| + 1] == '>';
    assert path[1..|from| + 1] == from;
    assert path[|from| + 2..] == "";
    assert Fields("") == [];
  }

  /** The bytes before the first `c`. */
  function UpTo(s: Bytes, c: char): Bytes {
    s[..IndexByte(s, c)]
  }

  lemma UpToStays(s: Bytes, c: char)
    ensures UpTo(s, c) == s <==> c !in s
  {
    var k := IndexByte(s, c);
    if k < |s| {
      assert |s[..k]| < |s|;
    }
  }

  lemma UpToEnds(s: Bytes, c: char)
    ensures UpTo(s + [c], c) == UpTo(s, c)
  {
    var k := IndexByte(s, c);
    var t := s + [c];
    assert t[k] == c;
    assert t == s[..k] + [c] + t[k + 1..];
    IndexByteAt(s[..k], c, t[k + 1..]);
  }

  lemma ValidUpTo(s: Bytes, c: char)
    requires ValidAddress(s)
    ensures ValidAddress(UpTo(s, c))
  {
    var t := UpTo(s, c);
    assert forall i :: 0 <= i < |t| ==> t[i] == s[i];
  }

  /** A recipient in brackets is read up to its first `>`, so it comes back exactly when it
      contains none. */
  lemma ParsesForwardPath(to: Bytes)
    ensures ParseRcptTo("TO:" + Bracketed(to)) == UpTo(to, '>')
    ensures ParseRcptTo("TO:" + Bracketed(to)) == to <==> '>' !in to
  {
    var args := "TO:" + Bracketed(to);
    var path := Bracketed(to);
    TrimmedStays(args);
    assert args[..3] == "TO:" && args[3..] == path;
    TrimmedStays(path);
    assert path[1..] == to + ['>'];
    UpToEnds(to, '>');
    UpToStays(to, '>');
    hide TrimSpace;
  }

  /** A command line whose argument is a keyword and an address. */
  lemma EnvelopeLineReads(verb: Bytes, keyword: Bytes, a: Bytes)
    requires IsVerb(verb) && |verb| == 4 && |keyword| <= 5 && OneWord(keyword) && ValidAddress(a)
    ensures var line := verb + " " + (keyword + Bracketed(a));
            && SplitVerb(line) == (verb, keyword + Bracketed(a))
            && LF !in line && |line| <= MAX_LINE
  {
    var args := keyword + Bracketed(a);
    ValidIsOneLine(a);
    assert Trimmed(args) by {
      assert args[0] == keyword[0] && args[|args| - 1] == '>';
    }
    SplitsVerbWithArgs(verb, args);
    hide SplitVerb;
    hide ValidAddress;
    assert LF !in verb && LF !in keyword;
  }

  predicate OneWord(s: Bytes) {
    s != "" && NoSpace(s)
  }

  lemma ParsesMail(from: Bytes)
    requires ValidAddress(from) && '>' !in from
    ensures var line := "MAIL FROM:" + Bracketed(from);
            && ParseCommand(line) == MAIL(Some(MailArgs(from, map[])))
            && LF !in line && |line| <= MAX_LINE
  {
    var args := "FROM:" + Bracketed(from);
    var line := "MAIL" + " " + args;
    assert "MAIL FROM:" + Bracketed(from) == line;
    EnvelopeLineReads("MAIL", "FROM:", from);
    ParsesReversePath(from);
    hide *;
    ParsesAs("MAIL", args, line);
  }

  lemma ParsesRcpt(to: Bytes)
    requires ValidAddress(to)
    ensures var line := "RCPT TO:" + Bracketed(to);
            && ParseCommand(line) == RCPT(UpTo(to, '>'))
            && LF !in line && |line| <= MAX_LINE
  {
    var args := "TO:" + Bracketed(to);
    var line := "RCPT" + " " + args;
    assert "RCPT TO:" + Bracketed(to) == line;
    EnvelopeLineReads("RCPT", "TO:", to);
    ParsesForwardPath(to);
    hide *;
    ParsesAs("RCPT", args, line);
  }

  lemma ParsesEhlo()
    ensures ParseCommand("EHLO replay.local") == EHLO("replay.local")
  {
    assert "EHLO replay.local" == "EHLO" + " " + "replay.local";
    SplitsVerbWithArgs("EHLO", "replay.local");
    ParsesAs("EHLO", "replay.local", "EHLO replay.local");
    hide ParseCommand;
  }
}
