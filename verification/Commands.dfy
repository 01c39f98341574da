/** Command lines: from the bytes of a line to the command it asks for. */
module Commands {
  import opened Text

  /** What the SIZE parameter of MAIL says, if there is one. */
  datatype SizeParam = NoSize | BadSize | Size(n: int)

  datatype MailArgs = MailArgs(from: Bytes, params: map<Bytes, Bytes>)

  datatype Chunk = Chunk(size: nat, last: bool)

  /** A command with its arguments parsed; `None` where they are malformed. */
  datatype Cmd =
    | TOOLONG
    | HELO(domain: Bytes)
    | EHLO(domain: Bytes)
    | STARTTLS
    | MAIL(args: Option<MailArgs>)
    | RCPT(to: Bytes)
    | DATA
    | BDAT(chunk: Option<Chunk>)
    | RSET
    | NOOP
    | HELP
    | VRFY
    | QUIT
    | UNKNOWN

  /** Commands for which the reader pauses until the worker hands the connection back. */
  predicate Takeover(cmd: Cmd) {
    cmd.DATA? || cmd.BDAT? || cmd.STARTTLS?
  }

  predicate AllowedDuringBdat(cmd: Cmd) {
    cmd.BDAT? || cmd.RSET? || cmd.NOOP? || cmd.QUIT?
  }

  /** The verb in upper case and the rest of the line. */
  function SplitVerb(line: Bytes): (Bytes, Bytes) {
    var t := TrimSpace(line);
    var i := IndexBlank(t);
    if i == |t| then (Upper(t), "") else (Upper(t[..i]), TrimSpace(t[i..]))
  }

  function ParseCommand(line: Bytes): Cmd {
    CommandOf(SplitVerb(line).0, SplitVerb(line).1)
  }

  /** The command that a verb and its argument text stand for. */
  function CommandOf(verb: Bytes, args: Bytes): Cmd {
    if verb == "HELO" then HELO(args)
    else if verb == "EHLO" then EHLO(args)
    else if verb == "STARTTLS" then STARTTLS
    else if verb == "MAIL" then MAIL(ParseMailFrom(args))
    else if verb == "RCPT" then RCPT(ParseRcptTo(args))
    else if verb == "DATA" then DATA
    else if verb == "BDAT" then BDAT(ParseBdatArgs(args))
    else if verb == "RSET" then RSET
    else if verb == "NOOP" then NOOP
    else if verb == "HELP" then HELP
    else if verb == "VRFY" || verb == "EXPN" then VRFY
    else if verb == "QUIT" then QUIT
    else UNKNOWN
  }

  // ---------------------------------------------------------------- arguments

  predicate IsControl(c: char) {
    c < ' ' || c == '\U{007F}'
  }

  predicate ContainsControl(s: Bytes) {
    exists i :: 0 <= i < |s| && IsControl(s[i]) && s[i] != '\t'
  }

  /** The scan for control characters, byte by byte. */
  method ScanControl(s: Bytes) returns (found: bool)
    ensures found == ContainsControl(s)
  {
    for i := 0 to |s|
      invariant forall k :: 0 <= k < i ==> !(IsControl(s[k]) && s[k] != '\t')
    {
      if (s[i] < ' ' && s[i] != '\t') || s[i] == '\U{007F}' {
        assert IsControl(s[i]);
        return true;
      }
    }
    found := false;
  }

  /** The check of a HELO or EHLO argument, byte by byte. */
  method CheckDomain(d: Bytes) returns (ok: bool)
    ensures ok == ValidDomain(d)
  {
    if |d| > 255 {
      return false;
    }
    for i := 0 to |d|
      invariant forall k :: 0 <= k < i ==> !IsControl(d[k])
    {
      if d[i] < ' ' || d[i] == '\U{007F}' {
        assert IsControl(d[i]);
        return false;
      }
    }
    ok := true;
  }

  predicate ValidDomain(d: Bytes) {
    |d| <= 255 && forall i :: 0 <= i < |d| ==> !IsControl(d[i])
  }

  predicate ValidAddress(a: Bytes) {
    |a| <= 320 && !ContainsControl(a)
  }

  /** `KEY=value` or a bare keyword; the key in upper case. */
  function ParamOf(part: Bytes): (Bytes, Bytes) {
    var i := IndexByte(part, '=');
    if i < |part| then (Upper(part[..i]), part[i + 1..]) else (Upper(part), "")
  }

  /** A later parameter overrides an earlier one with the same key. */
  function ParseParams(parts: seq<Bytes>): map<Bytes, Bytes> {
    if parts == [] then map[]
    else
      var (key, value) := ParamOf(parts[|parts| - 1]);
      ParseParams(parts[..|parts| - 1])[key := value]
  }

  /** Collects the parameters of MAIL one after the other. */
  method CollectParams(parts: seq<Bytes>) returns (params: map<Bytes, Bytes>)
    ensures params == ParseParams(parts)
  {
    hide ParamOf;
    params := map[];
    for i := 0 to |parts|
      invariant params == ParseParams(parts[..i])
    {
      var (key, value) := ParamOf(parts[i]);
      assert parts[..i + 1][..i] == parts[..i];
      params := params[key := value];
    }
    assert parts[..|parts|] == parts;
  }

  /** Parses the argument of MAIL. */
  method ReadMailFrom(args: Bytes) returns (res: Option<MailArgs>)
    ensures res == ParseMailFrom(args)
  {
    hide TrimSpace;
    hide Fields;
    hide ParseParams;
    hide ContainsControl;
    var rest := TrimSpace(args);
    if |rest| < 5 || !EqualFold(rest[..5], "FROM:") {
      return None;
    }
    rest := TrimSpace(rest[5..]);
    if rest == "" || rest[0] != '<' {
      return None;
    }
    var close := IndexByte(rest, '>');
    if close == |rest| {
      return None;
    }
    var from := rest[1..close];
    var control := ScanControl(from);
    if |from| > 320 || control {
      return None;
    }
    var params := CollectParams(Fields(TrimSpace(rest[close + 1..])));
    return Some(MailArgs(from, params));
  }

  function ParseMailFrom(args: Bytes): Option<MailArgs> {
    var rest := TrimSpace(args);
    if |rest| < 5 || !EqualFold(rest[..5], "FROM:") then None
    else
      var path := TrimSpace(rest[5..]);
      if path == "" || path[0] != '<' || '>' !in path then None
      else
        var close := IndexByte(path, '>');
        var from := path[1..close];
        if !ValidAddress(from) then None
        else Some(MailArgs(from, ParseParams(Fields(TrimSpace(path[close + 1..])))))
  }

  function ParseRcptTo(args: Bytes): Bytes {
    var rest := TrimSpace(args);
    if |rest| < 3 || !EqualFold(rest[..3], "TO:") then rest
    else
      var path := TrimSpace(rest[3..]);
      if path != "" && path[0] == '<' then
        var inner := path[1..];
        inner[..IndexByte(inner, '>')]
      else path
  }

  function ParseBdatArgs(args: Bytes): Option<Chunk> {
    var fields := Fields(args);
    if |fields| < 1 || |fields| > 2 then None
    else match ParseInt64(fields[0])
      case None => None
      case Some(n) =>
        if n < 0 then None
        else if |fields| == 1 then Some(Chunk(n, false))
        else if Upper(fields[1]) == "LAST" then Some(Chunk(n, true))
        else None
  }

  function DeclaredSize(params: map<Bytes, Bytes>): SizeParam {
    if "SIZE" !in params then NoSize
    else match ParseInt64(params["SIZE"])
      case None => BadSize
      case Some(n) => if n < 0 then BadSize else Size(n)
  }

  predicate DeclaresEightBit(params: map<Bytes, Bytes>) {
    ("BODY" in params && EqualFold(params["BODY"], "8BITMIME")) || "SMTPUTF8" in params
  }
}
