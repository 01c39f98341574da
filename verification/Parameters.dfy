/** Command lines in every form a client may write them: white space, letter case, and the
    parameters of MAIL; and what the parameters decide. */
module Parameters {
  import opened Text
  import opened Body
  import opened Commands
  import opened Session
  import opened Scripts
  import opened Answers

  // ---------------------------------------------------------------- white space and case

  predicate AllSpace(s: Bytes) {
    forall i :: 0 <= i < |s| ==> IsSpace(s[i])
  }

  lemma {:induction false} TrimsLeft(lead: Bytes, t: Bytes)
    requires AllSpace(lead) && (t != "" ==> !IsSpace(t[0]))
    ensures TrimLeft(lead + t) == t
  {
    if lead == "" {
      assert lead + t == t;
    } else {
      assert (lead + t)[0] == lead[0] && (lead + t)[1..] == lead[1..] + t;
      TrimsLeft(lead[1..], t);
    }
  }

  lemma {:induction false} TrimsRight(t: Bytes, trail: Bytes)
    requires AllSpace(trail) && (t != "" ==> !IsSpace(t[|t| - 1]))
    ensures TrimRight(t + trail) == t
  {
    if trail == "" {
      assert t + trail == t;
    } else {
      var n := |trail| - 1;
      assert (t + trail)[|t| + n] == trail[n] && (t + trail)[..|t| + n] == t + trail[..n];
      TrimsRight(t, trail[..n]);
    }
  }

  /** White space around a text is taken away, and nothing else. */
  lemma TrimsAround(lead: Bytes, t: Bytes, trail: Bytes)
    requires AllSpace(lead) && AllSpace(trail) && t != "" && Trimmed(t)
    ensures TrimSpace(lead + t + trail) == t
  {
    assert lead + t + trail == lead + (t + trail);
    assert (t + trail)[0] == t[0];
    TrimsLeft(lead, t + trail);
    TrimsRight(t, trail);
    hide TrimLeft;
    hide TrimRight;
  }

  /** `s` is `upper` with any of its capital letters written small. */
  predicate CaseOf(upper: Bytes, s: Bytes) {
    |upper| == |s| && forall i :: 0 <= i < |s| ==> Letter(upper[i], s[i])
  }

  predicate Letter(upper: char, c: char) {
    c == upper || ('A' <= upper <= 'Z' && c as int == upper as int + 32)
  }

  predicate NoSmall(s: Bytes) {
    forall i :: 0 <= i < |s| ==> !('a' <= s[i] <= 'z')
  }

  /** Letter case is ignored, and only that. */
  lemma UpperMeans(upper: Bytes, s: Bytes)
    requires NoSmall(upper)
    ensures Upper(s) == upper <==> CaseOf(upper, s)
  {
    if Upper(s) == upper {
      forall i | 0 <= i < |s|
        ensures Letter(upper[i], s[i])
      {
        assert Upper(s)[i] == UpperChar(s[i]);
      }
    }
    if CaseOf(upper, s) {
      forall i | 0 <= i < |s|
        ensures Upper(s)[i] == upper[i]
      {
        assert Letter(upper[i], s[i]);
      }
    }
  }

  /** A command line: white space around it, a verb in any case, a gap that starts with a space or
      a tab, and the argument. */
  lemma SplitsAnyLine(lead: Bytes, verb: Bytes, word: Bytes, gap: Bytes, args: Bytes, trail: Bytes)
    requires AllSpace(lead) && AllSpace(trail) && IsVerb(verb) && CaseOf(verb, word)
    requires AllSpace(gap) && gap != "" && Blank(gap[0]) && args != "" && Trimmed(args)
    ensures SplitVerb(lead + (word + gap + args) + trail) == (verb, args)
  {
    var line := word + gap + args;
    UpperMeans(verb, word);
    WordHasNoBlank(verb, word);
    assert line[0] == word[0] && line[|line| - 1] == args[|args| - 1];
    TrimsAround(lead, line, trail);
    assert forall i :: 0 <= i < |word| ==> line[i] == word[i];
    assert line[|word|] == gap[0];
    assert IndexBlank(line) == |word|;
    assert line[..|word|] == word && line[|word|..] == gap + args;
    assert gap + args == gap + args + "";
    TrimsAround(gap, args, "");
    hide TrimSpace;
    hide Upper;
  }

  /** A command line without an argument. */
  lemma SplitsAnyWord(lead: Bytes, verb: Bytes, word: Bytes, trail: Bytes)
    requires AllSpace(lead) && AllSpace(trail) && IsVerb(verb) && CaseOf(verb, word)
    ensures SplitVerb(lead + word + trail) == (verb, "")
  {
    UpperMeans(verb, word);
    WordHasNoBlank(verb, word);
    TrimsAround(lead, word, trail);
    assert IndexBlank(word) == |word|;
    hide TrimSpace;
    hide Upper;
  }

  lemma WordHasNoBlank(verb: Bytes, word: Bytes)
    requires IsVerb(verb) && CaseOf(verb, word)
    ensures word != "" && NoSpace(word) && forall i :: 0 <= i < |word| ==> !Blank(word[i])
  {
    forall i | 0 <= i < |word|
      ensures !IsSpace(word[i]) && !Blank(word[i])
    {
      assert Letter(verb[i], word[i]);
    }
  }

  /** Which command each verb stands for, and no other does. */
  lemma VerbTable(verb: Bytes, args: Bytes)
    ensures var cmd := CommandOf(verb, args);
            && (verb == "HELO" <==> cmd.HELO?) && (verb == "HELO" ==> cmd.domain == args)
            && (verb == "EHLO" <==> cmd.EHLO?) && (verb == "EHLO" ==> cmd.domain == args)
            && (verb == "STARTTLS" <==> cmd.STARTTLS?)
            && (verb == "MAIL" <==> cmd.MAIL?) && (verb == "MAIL" ==> cmd.args == ParseMailFrom(args))
            && (verb == "RCPT" <==> cmd.RCPT?) && (verb == "RCPT" ==> cmd.to == ParseRcptTo(args))
            && (verb == "DATA" <==> cmd.DATA?)
            && (verb == "BDAT" <==> cmd.BDAT?) && (verb == "BDAT" ==> cmd.chunk == ParseBdatArgs(args))
            && (verb == "RSET" <==> cmd.RSET?) && (verb == "NOOP" <==> cmd.NOOP?) && (verb == "HELP" <==> cmd.HELP?)
            && (verb == "VRFY" || verb == "EXPN" <==> cmd.VRFY?) && (verb == "QUIT" <==> cmd.QUIT?)
            && !cmd.TOOLONG?
  {
    hide ParseMailFrom;
    hide ParseRcptTo;
    hide ParseBdatArgs;
  }

  // ---------------------------------------------------------------- numbers

  /** A text with anything but digits after an optional sign is not a number. */
  lemma NotANumber(s: Bytes, i: nat)
    requires i < |s| && !IsDigit(s[i]) && (i > 0 || (s[0] != '-' && s[0] != '+'))
    ensures ParseInt64(s).None?
  {
    var digits := if s[0] == '-' || s[0] == '+' then s[1..] else s;
    var k := if s[0] == '-' || s[0] == '+' then i - 1 else i;
    assert digits != "" ==> digits[k] == s[i];
  }

  /** Numbers with a sign, and numbers out of range. */
  lemma SignedNumbers(n: nat)
    ensures ParseInt64("-" + Decimal(n)).Some? <==> n <= MAX_INT64 + 1
    ensures n <= MAX_INT64 + 1 ==> ParseInt64("-" + Decimal(n)).value + n == 0
    ensures ParseInt64("+" + Decimal(n)) == ParseInt64(Decimal(n)) == if n <= MAX_INT64 then Some(n) else None
    ensures ParseInt64("") == None
  {
    DecimalReads(n);
    hide Decimal;
    NumberReads(Decimal(n));
  }

  /** Digits, with and without a sign. */
  lemma NumberReads(s: Bytes)
    requires s != "" && AllDigits(s)
    ensures ParseInt64("-" + s).Some? <==> DigitsValue(s) <= MAX_INT64 + 1
    ensures ParseInt64("-" + s).Some? ==> ParseInt64("-" + s).value + DigitsValue(s) == 0
    ensures ParseInt64("+" + s) == ParseInt64(s) == if DigitsValue(s) <= MAX_INT64 then Some(DigitsValue(s)) else None
  {
    assert IsDigit(s[0]);
    assert ("-" + s)[0] == '-' && ("-" + s)[1..] == s;
    assert ("+" + s)[0] == '+' && ("+" + s)[1..] == s;
    hide AllDigits;
    hide DigitsValue;
  }

  // ---------------------------------------------------------------- words

  function JoinWords(words: seq<Bytes>): Bytes {
    if words == [] then "" else if |words| == 1 then words[0] else words[0] + " " + JoinWords(words[1..])
  }

  predicate Words(words: seq<Bytes>) {
    forall i :: 0 <= i < |words| ==> words[i] != "" && NoSpace(words[i])
  }

  lemma {:induction false} JoinedWords(words: seq<Bytes>)
    requires Words(words) && words != []
    ensures JoinWords(words) != "" && Trimmed(JoinWords(words))
  {
    assert words[0] != "" && NoSpace(words[0]);
    if |words| > 1 {
      JoinedWords(words[1..]);
      var later := JoinWords(words[1..]);
      var s := words[0] + " " + later;
      assert s[0] == words[0][0] && s[|s| - 1] == later[|later| - 1];
    }
  }

  lemma FirstWord(w: Bytes, later: Bytes)
    requires w != "" && NoSpace(w)
    ensures var s := w + " " + later;
            TrimLeft(s) == s && IndexSpace(s) == |w| && s[..|w|] == w && s[|w|..] == " " + later
  {
    var s := w + " " + later;
    assert s[0] == w[0];
    assert s[|w|] == ' ';
    assert forall i :: 0 <= i < |w| ==> s[i] == w[i];
  }

  lemma SpaceSkipped(later: Bytes)
    requires later != "" && Trimmed(later)
    ensures Fields(" " + later) == Fields(later)
  {
    assert (" " + later)[1..] == later;
    assert TrimLeft(later) == later;
    assert TrimLeft(" " + later) == later;
    hide TrimLeft;
    hide IndexSpace;
  }

  lemma FieldsAfterWord(w: Bytes, later: Bytes)
    requires w != "" && NoSpace(w) && later != "" && Trimmed(later)
    ensures Fields(w + " " + later) == [w] + Fields(later)
  {
    FirstWord(w, later);
    SpaceSkipped(later);
    hide TrimLeft;
    hide IndexSpace;
    hide NoSpace;
    assert w + " " + later != "";
    assert Fields(w + " " + later) == [w] + Fields(" " + later);
  }

  /** Words with single spaces between them are read back one by one. */
  lemma {:induction false} FieldsOfWords(words: seq<Bytes>)
    requires Words(words)
    ensures Fields(JoinWords(words)) == words
  {
    if |words| == 1 {
      FieldsOfOne(words[0]);
    } else if |words| > 1 {
      JoinedWords(words[1..]);
      FieldsAfterWord(words[0], JoinWords(words[1..]));
      hide Fields;
      FieldsOfWords(words[1..]);
    }
  }

  // ---------------------------------------------------------------- the parameters of MAIL

  datatype Param = Keyword(key: Bytes) | Setting(key: Bytes, value: Bytes)

  function ParamText(p: Param): Bytes {
    match p
    case Keyword(key) => key
    case Setting(key, value) => key + "=" + value
  }

  function ValueOf(p: Param): Bytes {
    match p
    case Keyword(_) => ""
    case Setting(_, value) => value
  }

  predicate Proper(p: Param) {
    NoSpace(p.key) && '=' !in p.key && match p
                                       case Keyword(key) => key != ""
                                       case Setting(_, value) => NoSpace(value)
  }

  predicate AllProper(params: seq<Param>) {
    forall i :: 0 <= i < |params| ==> Proper(params[i])
  }

  function Texts(params: seq<Param>): seq<Bytes> {
    seq(|params|, i requires 0 <= i < |params| => ParamText(params[i]))
  }

  /** The value of the last parameter with a key, in any case. */
  function LastValue(params: seq<Param>, key: Bytes): Option<Bytes> {
    if params == [] then None
    else
      var last := params[|params| - 1];
      if CaseOf(key, last.key) then Some(ValueOf(last)) else LastValue(params[..|params| - 1], key)
  }

  /** The map has exactly the keys that were given, in capitals, each with its last value. */
  ghost predicate Tells(m: map<Bytes, Bytes>, params: seq<Param>) {
    && (forall key :: key in m ==> NoSmall(key))
    && forall key :: NoSmall(key) ==>
         LastValue(params, key) == if key in m then Some(m[key]) else None
  }

  lemma ParamRead(p: Param)
    requires Proper(p)
    ensures ParamText(p) != "" && NoSpace(ParamText(p))
    ensures ParamOf(ParamText(p)) == (Upper(p.key), ValueOf(p))
  {
    match p
    case Keyword(key) =>
    case Setting(key, value) =>
      var s := key + "=" + value;
      assert s == key + ['='] + value;
      IndexByteAt(key, '=', value);
      assert s[|key|] == '=' && s[..|key|] == key && s[|key| + 1..] == value;
      hide Upper;
      assert NoSpace(s) by {
        assert forall i :: 0 <= i < |s| ==>
                 s[i] == if i < |key| then key[i] else if i == |key| then '=' else value[i - |key| - 1];
      }
  }

  lemma UpperHasNoSmall(s: Bytes)
    ensures NoSmall(Upper(s))
  {
  }

  /** One more parameter overrides what was said of its key before. */
  lemma OneMoreParam(m: map<Bytes, Bytes>, front: seq<Param>, p: Param)
    requires Tells(m, front)
    ensures Tells(m[Upper(p.key) := ValueOf(p)], front + [p])
  {
    UpperHasNoSmall(p.key);
    var params := front + [p];
    assert params[..|front|] == front;
    forall key | NoSmall(key)
      ensures LastValue(params, key) == if key == Upper(p.key) then Some(ValueOf(p)) else LastValue(front, key)
    {
      UpperMeans(key, p.key);
    }
    hide CaseOf;
    hide Upper;
    hide NoSmall;
    hide LastValue;
    hide ValueOf;
  }

  lemma TextsGrow(front: seq<Param>, p: Param)
    ensures Texts(front + [p]) == Texts(front) + [ParamText(p)]
  {
  }

  lemma ParsedParamsGrow(texts: seq<Bytes>, text: Bytes)
    ensures ParseParams(texts + [text]) == ParseParams(texts)[ParamOf(text).0 := ParamOf(text).1]
  {
    assert (texts + [text])[..|texts|] == texts;
    hide ParamOf;
  }

  lemma {:induction false} ParamsRead(params: seq<Param>)
    requires AllProper(params)
    ensures Words(Texts(params)) && Tells(ParseParams(Texts(params)), params)
  {
    if params != [] {
      var n := |params| - 1;
      var p, front := params[n], params[..n];
      assert front + [p] == params;
      ParamsRead(front);
      ParamRead(p);
      hide ParamOf;
      hide ParamText;
      hide Tells;
      hide Texts;
      hide ParseParams;
      TextsGrow(front, p);
      ParsedParamsGrow(Texts(front), ParamText(p));
      OneMoreParam(ParseParams(Texts(front)), front, p);
    }
  }

  /** The argument of MAIL: its keyword in any case, a sender in brackets, and parameters. */
  function MailArgument(keyword: Bytes, gap: Bytes, from: Bytes, sep: Bytes, params: seq<Param>): Bytes {
    keyword + (gap + (Bracketed(from) + (sep + JoinWords(Texts(params)))))
  }

  predicate ProperMail(keyword: Bytes, gap: Bytes, from: Bytes, sep: Bytes, params: seq<Param>) {
    && CaseOf("FROM:", keyword) && AllSpace(gap) && AllSpace(sep) && (params == [] ==> sep == "")
    && ValidAddress(from) && '>' !in from && AllProper(params)
  }

  lemma KeywordReads(keyword: Bytes, rest: Bytes)
    requires CaseOf("FROM:", keyword)
    ensures |keyword| == 5 && (keyword + rest)[..5] == keyword && (keyword + rest)[5..] == rest
    ensures EqualFold(keyword, "FROM:") && !IsSpace(keyword[0])
  {
    UpperMeans("FROM:", keyword);
    UpperMeans("FROM:", "FROM:");
    assert Letter("FROM:"[0], keyword[0]);
    assert CaseOf("FROM:", "FROM:");
  }

  lemma TailReads(sep: Bytes, params: seq<Param>)
    requires AllSpace(sep) && (params == [] ==> sep == "") && AllProper(params)
    ensures Fields(TrimSpace(sep + JoinWords(Texts(params)))) == Texts(params)
    ensures var t := sep + JoinWords(Texts(params)); t != "" ==> !IsSpace(t[|t| - 1])
  {
    ParamsRead(params);
    var words := Texts(params);
    FieldsOfWords(words);
    if params == [] {
      assert sep + JoinWords(words) == "";
    } else {
      JoinedWords(words);
      TrimsAround(sep, JoinWords(words), "");
      assert sep + JoinWords(words) + "" == sep + JoinWords(words);
    }
    hide Fields;
    hide TrimSpace;
    hide JoinWords;
    hide ParseParams;
  }

  /** MAIL's argument is read back: the sender, and the map that tells its parameters. */
  lemma MailReads(keyword: Bytes, gap: Bytes, from: Bytes, sep: Bytes, params: seq<Param>)
    requires ProperMail(keyword, gap, from, sep, params)
    ensures var args := MailArgument(keyword, gap, from, sep, params);
            && args != "" && Trimmed(args)
            && ParseMailFrom(args) == Some(MailArgs(from, ParseParams(Texts(params))))
            && Tells(ParseParams(Texts(params)), params)
  {
    var tail := sep + JoinWords(Texts(params));
    var path := Bracketed(from) + tail;
    var args := keyword + (gap + path);
    KeywordReads(keyword, gap + path);
    TailReads(sep, params);
    ParamsRead(params);
    hide Tells;
    hide AllProper;
    hide JoinWords;
    hide Texts;
    hide ParseParams;
    hide Fields;
    PathReads(from, tail);
    assert args[0] == keyword[0] && args[|args| - 1] == path[|path| - 1];
    TrimmedStays(args);
    TrimsAround(gap, path, "");
    assert gap + path + "" == gap + path;
    hide TrimSpace;
    hide EqualFold;
    hide Bracketed;
    hide CaseOf;
  }

  lemma PathReads(from: Bytes, tail: Bytes)
    requires '>' !in from && (tail != "" ==> !IsSpace(tail[|tail| - 1]))
    ensures var path := Bracketed(from) + tail;
            && path != "" && path[0] == '<' && Trimmed(path) && '>' in path
            && IndexByte(path, '>') == |from| + 1 && path[1..|from| + 1] == from && path[|from| + 2..] == tail
  {
    var path := Bracketed(from) + tail;
    assert path == ("<" + from) + ['>'] + tail;
    IndexByteAt("<" + from, '>', tail);
    assert path[|from| + 1] == '>';
    assert path[1..|from| + 1] == from;
  }

  lemma {:induction false} LeadSplits(s: Bytes) returns (lead: Bytes)
    ensures AllSpace(lead) && s == lead + TrimLeft(s)
    ensures TrimLeft(s) != "" ==> !IsSpace(TrimLeft(s)[0]) && TrimLeft(s)[|TrimLeft(s)| - 1] == s[|s| - 1]
  {
    if s != "" && IsSpace(s[0]) {
      lead := LeadSplits(s[1..]);
      lead := [s[0]] + lead;
    } else {
      lead := "";
    }
  }

  lemma {:induction false} TrailTrimmed(s: Bytes)
    ensures TrimRight(s) <= s
    ensures TrimRight(s) != "" ==> !IsSpace(TrimRight(s)[|TrimRight(s)| - 1])
    ensures s != "" && !IsSpace(s[|s| - 1]) ==> TrimRight(s) == s
  {
    if s != "" && IsSpace(s[|s| - 1]) {
      TrailTrimmed(s[..|s| - 1]);
    }
  }

  lemma TrimSpaceTrims(s: Bytes)
    ensures Trimmed(TrimSpace(s))
  {
    var lead := LeadSplits(s);
    TrailTrimmed(TrimLeft(s));
    hide TrimLeft;
    hide TrimRight;
  }

  lemma TrimSpaceLeads(s: Bytes) returns (lead: Bytes)
    requires s != "" ==> !IsSpace(s[|s| - 1])
    ensures AllSpace(lead) && s == lead + TrimSpace(s)
  {
    lead := LeadSplits(s);
    TrailTrimmed(TrimLeft(s));
    hide TrimLeft;
    hide TrimRight;
  }

  /** The form of MAIL's argument: FROM: in any case, white space, a sender in brackets without
      `>` that is a good address, and anything. */
  predicate MailForm(args: Bytes, keyword: Bytes, gap: Bytes, from: Bytes, tail: Bytes) {
    && args == keyword + (gap + (Bracketed(from) + tail)) && CaseOf("FROM:", keyword) && AllSpace(gap)
    && '>' !in from && GoodRecipient(from)
  }

  /** An argument that parses has this form. */
  lemma MailHasForm(args: Bytes) returns (keyword: Bytes, gap: Bytes, tail: Bytes)
    requires ParseMailFrom(args).Some?
    ensures MailForm(TrimSpace(args), keyword, gap, ParseMailFrom(args).value.from, tail)
  {
    var rest := TrimSpace(args);
    TrimSpaceTrims(args);
    hide ParseParams;
    keyword := rest[..5];
    var from := ParseMailFrom(args).value.from;
    gap := TrimSpaceLeads(rest[5..]);
    var path := TrimSpace(rest[5..]);
    var close := IndexByte(path, '>');
    hide TrimSpace;
    hide Fields;
    assert NoSmall("FROM:") && Upper("FROM:") == "FROM:" by {
      UpperMeans("FROM:", "FROM:");
      assert CaseOf("FROM:", "FROM:");
    }
    UpperMeans("FROM:", keyword);
    GoodRecipientMeans(from);
    tail := path[close + 1..];
    PathSplits(path);
    assert rest == keyword + rest[5..];
    hide Upper;
    hide ValidAddress;
    hide GoodRecipient;
    hide Bracketed;
  }

  lemma PathSplits(path: Bytes)
    requires path != "" && path[0] == '<' && '>' in path
    ensures var close := IndexByte(path, '>');
            path == Bracketed(path[1..close]) + path[close + 1..] && '>' !in path[1..close]
  {
    var close := IndexByte(path, '>');
    assert path == [path[0]] + path[1..close] + [path[close]] + path[close + 1..];
  }

  /** An argument of this form parses, with its sender; every other is refused with 501. */
  lemma MailFormParses(args: Bytes, keyword: Bytes, gap: Bytes, from: Bytes, tail: Bytes)
    requires MailForm(TrimSpace(args), keyword, gap, from, tail)
    ensures ParseMailFrom(args).Some? && ParseMailFrom(args).value.from == from
  {
    var rest := TrimSpace(args);
    TrimSpaceTrims(args);
    var path := Bracketed(from) + tail;
    KeywordReads(keyword, gap + path);
    assert rest[|rest| - 1] == path[|path| - 1];
    PathReads(from, tail);
    TrimsAround(gap, path, "");
    assert gap + path + "" == gap + path;
    GoodRecipientMeans(from);
    hide TrimSpace;
    hide EqualFold;
    hide Bracketed;
    hide CaseOf;
    hide ValidAddress;
    hide GoodRecipient;
    hide Fields;
    hide ParseParams;
  }

  // ---------------------------------------------------------------- what parameters decide

  /** A MAIL command line. */
  function MailLine(args: Bytes): Bytes {
    "MAIL" + " " + args
  }

  lemma MailLineReads(keyword: Bytes, gap: Bytes, from: Bytes, sep: Bytes, params: seq<Param>)
    requires ProperMail(keyword, gap, from, sep, params)
    ensures ParseCommand(MailLine(MailArgument(keyword, gap, from, sep, params)))
            == MAIL(Some(MailArgs(from, ParseParams(Texts(params)))))
  {
    var args := MailArgument(keyword, gap, from, sep, params);
    MailReads(keyword, gap, from, sep, params);
    assert IsVerb("MAIL");
    hide *;
    SplitsVerbWithArgs("MAIL", args);
    ParsesAs("MAIL", args, MailLine(args));
    MailLineIs(args);
  }

  lemma MailLineIs(args: Bytes)
    ensures MailLine(args) == "MAIL" + " " + args
  {
  }

  /** A MAIL line as a command, with the size it declares. */
  lemma SizeLineReads(keyword: Bytes, gap: Bytes, from: Bytes, sep: Bytes, params: seq<Param>, value: Bytes)
    returns (m: map<Bytes, Bytes>)
    requires ProperMail(keyword, gap, from, sep, params) && LastValue(params, "SIZE") == Some(value)
    ensures ParseCommand(MailLine(MailArgument(keyword, gap, from, sep, params))) == MAIL(Some(MailArgs(from, m)))
    ensures Tells(m, params) && "SIZE" in m && m["SIZE"] == value
  {
    assert NoSmall("SIZE");
    m := ParseParams(Texts(params));
    MailLineReads(keyword, gap, from, sep, params);
    MailReads(keyword, gap, from, sep, params);
    hide ParseParams;
    hide ParseCommand;
    hide LastValue;
    hide ProperMail;
    hide MailArgument;
    hide NoSmall;
  }

  /** The size that a client declares is refused with 552, without a callback, if and only if
      there is a limit and the size is over it; and otherwise MAIL is handed on with it. */
  lemma DeclaredSizeDecides(cfg: Config, h: Handler, s: Session, net: Net, keyword: Bytes, gap: Bytes, from: Bytes,
                            sep: Bytes, params: seq<Param>, n: nat)
    requires !s.inBdat && MailBarrier(cfg, s).None? && ProperMail(keyword, gap, from, sep, params)
    requires LastValue(params, "SIZE") == Some(Decimal(n)) && n <= MAX_INT64
    ensures var o := Exec(cfg, h, s, net, ParseCommand(MailLine(MailArgument(keyword, gap, from, sep, params))));
            if 0 < cfg.maxMessageSize < n then o.s.calls == s.calls && o.reply == Some(Reply(552, [MessageSize]))
            else
              && |o.s.calls| == |s.calls| + 1 && o.s.calls[|s.calls|].MailFrom?
              && o.s.calls[|s.calls|].tx.mailFrom == from && Tells(o.s.calls[|s.calls|].tx.params, params)
              && o.reply == Some(Told(h, o.s.calls))
  {
    DecimalParses(n);
    hide Decimal;
    hide ParseInt64;
    var m := SizeLineReads(keyword, gap, from, sep, params, Decimal(n));
    hide ParseCommand;
    hide ProperMail;
    hide Tells;
    hide LastValue;
    MailAnswers(cfg, h, s, net, Some(MailArgs(from, m)));
    hide Exec;
    hide MailBarrier;
  }

  /** A declared size that is not a number, or negative, is refused with 501 where there is a limit. */
  lemma BadSizeRefused(cfg: Config, h: Handler, s: Session, net: Net, keyword: Bytes, gap: Bytes, from: Bytes,
                       sep: Bytes, params: seq<Param>, value: Bytes)
    requires !s.inBdat && MailBarrier(cfg, s).None? && ProperMail(keyword, gap, from, sep, params)
    requires LastValue(params, "SIZE") == Some(value) && cfg.maxMessageSize > 0
    requires ParseInt64(value).None? || ParseInt64(value).value < 0
    ensures var o := Exec(cfg, h, s, net, ParseCommand(MailLine(MailArgument(keyword, gap, from, sep, params))));
            o.s.calls == s.calls && o.s.phase == s.phase && o.reply == Some(Reply(501, [BadSizeParam]))
  {
    hide ParseInt64;
    var m := SizeLineReads(keyword, gap, from, sep, params, value);
    hide ParseCommand;
    hide ProperMail;
    hide Tells;
    hide LastValue;
    MailAnswers(cfg, h, s, net, Some(MailArgs(from, m)));
    hide Exec;
    hide MailBarrier;
  }

  /** BODY=8BITMIME in any case, last of its key, or SMTPUTF8. */
  predicate AnnouncesEightBit(params: seq<Param>) {
    || LastValue(params, "SMTPUTF8").Some?
    || (LastValue(params, "BODY").Some? && CaseOf("8BITMIME", LastValue(params, "BODY").value))
  }

  lemma AnnouncementReads(m: map<Bytes, Bytes>, params: seq<Param>)
    requires Tells(m, params)
    ensures EightBitAnnounced(m) <==> AnnouncesEightBit(params)
  {
    assert NoSmall("SMTPUTF8") && NoSmall("BODY");
    EightBitMimeIsUpper();
    if "BODY" in m {
      UpperMeans("8BITMIME", m["BODY"]);
    }
    hide LastValue;
    hide CaseOf;
    hide Upper;
    hide NoSmall;
  }

  lemma EightBitMimeIsUpper()
    ensures NoSmall("8BITMIME")
  {
  }

  /** A body that was read whole and has a byte over 127 reaches the handler if and only if the
      MAIL that opened the envelope announced it; otherwise DATA is answered 550. */
  lemma AnnouncementDecides(cfg: Config, h: Handler, s: Session, net: Net, params: seq<Param>)
    requires !s.inBdat && DataBarrier(s).None? && Tells(s.tx.params, params)
    requires ReadBody(net.wire, cfg.maxMessageSize).0.Body? && !SevenBit(ReadBody(net.wire, cfg.maxMessageSize).0.bytes)
    ensures var o := Exec(cfg, h, s, net, DATA);
            if AnnouncesEightBit(params) then
              o.s.calls == s.calls + [Call.Data(s.tx, ReadBody(net.wire, cfg.maxMessageSize).0.bytes)]
            else o.s.calls == s.calls && o.reply == Some(Reply(550, [EightBitData]))
  {
    DataAnswers(cfg, h, s, net);
    AnnouncementReads(s.tx.params, params);
    hide Exec;
    hide ReadBody;
    hide Tells;
    hide SevenBit;
    hide AnnouncesEightBit;
    hide EightBitAnnounced;
  }

  // ---------------------------------------------------------------- other arguments

  /** A BDAT argument is a number of the right kind, alone or followed by LAST in any case; there
      is no other. */
  lemma BdatShape(args: Bytes, c: Chunk)
    ensures ParseBdatArgs(args) == Some(c)
            <==> && ParseInt64(if Fields(args) == [] then "" else Fields(args)[0]) == Some(c.size)
                 && if c.last then |Fields(args)| == 2 && CaseOf("LAST", Fields(args)[1]) else |Fields(args)| == 1
  {
    SignedNumbers(0);
    hide Fields;
    hide ParseInt64;
    hide Decimal;
    assert NoSmall("LAST");
    if |Fields(args)| == 2 {
      UpperMeans("LAST", Fields(args)[1]);
    }
    hide Upper;
    hide CaseOf;
  }

  lemma ToKeyword(s: Bytes)
    requires |s| == 3
    ensures EqualFold(s, "TO:") <==> CaseOf("TO:", s)
  {
    assert NoSmall("TO:") && CaseOf("TO:", "TO:");
    UpperMeans("TO:", "TO:");
    UpperMeans("TO:", s);
    hide Upper;
    hide CaseOf;
  }

  /** A recipient without the keyword is taken as it stands. */
  lemma RcptWithoutKeyword(to: Bytes)
    requires Trimmed(to) && (|to| < 3 || !CaseOf("TO:", to[..3]))
    ensures ParseRcptTo(to) == to
  {
    TrimmedStays(to);
    if |to| >= 3 {
      ToKeyword(to[..3]);
    }
    hide TrimSpace;
    hide EqualFold;
    hide CaseOf;
  }

  /** After the keyword, in any case: what stands without brackets is taken whole, and what stands
      in brackets up to the first closing one, if there is any. */
  lemma RcptWithKeyword(keyword: Bytes, gap: Bytes, to: Bytes)
    requires |keyword| == 3 && CaseOf("TO:", keyword) && AllSpace(gap) && to != "" && Trimmed(to)
    ensures ParseRcptTo(keyword + (gap + to)) == if to[0] == '<' then UpTo(to[1..], '>') else to
  {
    var args := keyword + (gap + to);
    assert Letter("TO:"[0], keyword[0]);
    assert args[0] == keyword[0] && args[|args| - 1] == to[|to| - 1];
    TrimmedStays(args);
    assert args[..3] == keyword && args[3..] == gap + to;
    TrimsAround(gap, to, "");
    assert gap + to + "" == gap + to;
    ToKeyword(keyword);
    hide TrimSpace;
    hide EqualFold;
    hide CaseOf;
  }
}
