/** Byte strings and the few string helpers the gateway takes from the Go library.

    A byte is modelled by a Dafny `char`. Nothing here depends on the upper bound of a
    byte, so every statement also covers the 256 values a byte can take. White space and
    case are those of ASCII. */
module Text {
  type Bytes = string

  const CR := '\r'
  const LF := '\n'
  const CRLF: Bytes := "\r\n"

  const MAX_INT64 := 0x7FFF_FFFF_FFFF_FFFF

  datatype Option<+T> = None | Some(value: T)

  /** Two's complement wrap-around of a 64-bit signed integer. */
  function Wrap64(x: int): int {
    (x + MAX_INT64 + 1) % (2 * (MAX_INT64 + 1)) - (MAX_INT64 + 1)
  }

  predicate IsSpace(c: char) {
    c == ' ' || c == '\t' || c == '\n' || c == '\U{000B}' || c == '\U{000C}' || c == '\r'
  }

  predicate Blank(c: char) {
    c == ' ' || c == '\t'
  }

  predicate IsEol(c: char) {
    c == CR || c == LF
  }

  function TrimLeft(s: Bytes): Bytes {
    if s != "" && IsSpace(s[0]) then TrimLeft(s[1..]) else s
  }

  function TrimRight(s: Bytes): Bytes {
    if s != "" && IsSpace(s[|s| - 1]) then TrimRight(s[..|s| - 1]) else s
  }

  function TrimSpace(s: Bytes): Bytes {
    TrimRight(TrimLeft(s))
  }

  /** No white space at either end. */
  predicate Trimmed(s: Bytes) {
    s != "" ==> !IsSpace(s[0]) && !IsSpace(s[|s| - 1])
  }

  lemma TrimmedStays(s: Bytes)
    requires Trimmed(s)
    ensures TrimSpace(s) == s
  {
  }

  lemma TrimLeadingSpace(s: Bytes)
    requires Trimmed(s)
    ensures TrimSpace(" " + s) == s
  {
    assert (" " + s)[1..] == s;
    TrimmedStays(s);
  }

  /** Position of the first byte `c`, or the length of `s` when there is none. */
  function IndexByte(s: Bytes, c: char): (r: nat)
    ensures r <= |s|
    ensures forall i :: 0 <= i < r ==> s[i] != c
    ensures r < |s| ==> s[r] == c
  {
    if s == "" || s[0] == c then 0 else 1 + IndexByte(s[1..], c)
  }

  lemma IndexByteAt(pre: Bytes, c: char, post: Bytes)
    requires c !in pre
    ensures IndexByte(pre + [c] + post, c) == |pre|
  {
    var s := pre + [c] + post;
    assert s[|pre|] == c;
    assert forall i :: 0 <= i < |pre| ==> s[i] == pre[i];
  }

  /** Position of the first space or tab, or the length of `s` when there is none. */
  function IndexBlank(s: Bytes): (r: nat)
    ensures r <= |s|
    ensures forall i :: 0 <= i < r ==> !Blank(s[i])
    ensures r < |s| ==> Blank(s[r])
  {
    if s == "" || Blank(s[0]) then 0 else 1 + IndexBlank(s[1..])
  }

  function IndexSpace(s: Bytes): (r: nat)
    ensures r <= |s|
    ensures forall i :: 0 <= i < r ==> !IsSpace(s[i])
    ensures r < |s| ==> IsSpace(s[r])
  {
    if s == "" || IsSpace(s[0]) then 0 else 1 + IndexSpace(s[1..])
  }

  lemma TrimLeftShorter(s: Bytes)
    ensures |TrimLeft(s)| <= |s|
    ensures TrimLeft(s) != "" ==> !IsSpace(TrimLeft(s)[0])
  {
  }

  /** The maximal runs of bytes that are not white space. */
  function Fields(s: Bytes): seq<Bytes>
    decreases |s|
  {
    TrimLeftShorter(s);
    var t := TrimLeft(s);
    if t == "" then []
    else
      var i := IndexSpace(t);
      [t[..i]] + Fields(t[i..])
  }

  predicate NoSpace(s: Bytes) {
    forall i :: 0 <= i < |s| ==> !IsSpace(s[i])
  }

  lemma FieldsOfOne(w: Bytes)
    requires w != "" && NoSpace(w)
    ensures Fields(w) == [w]
  {
    assert IndexSpace(w) == |w|;
    assert w[..|w|] == w;
    assert Fields(w[|w|..]) == [];
  }

  lemma FieldsOfTwo(a: Bytes, b: Bytes)
    requires a != "" && NoSpace(a) && b != "" && NoSpace(b)
    ensures Fields(a + " " + b) == [a, b]
  {
    var s := a + " " + b;
    assert s[0] == a[0];
    assert s[|a|] == ' ';
    assert forall i :: 0 <= i < |a| ==> s[i] == a[i];
    assert s[..|a|] == a;
    assert s[|a|..] == " " + b;
    assert (" " + b)[1..] == b;
    assert TrimLeft(" " + b) == b;
    FieldsOfOne(b);
    calc {
      Fields(" " + b);
      { assert TrimLeft(b) == b; }
      Fields(b);
    }
  }

  function UpperChar(c: char): char {
    if 'a' <= c <= 'z' then c - 'a' + 'A' else c
  }

  function Upper(s: Bytes): Bytes {
    seq(|s|, i requires 0 <= i < |s| => UpperChar(s[i]))
  }

  predicate EqualFold(a: Bytes, b: Bytes) {
    Upper(a) == Upper(b)
  }

  predicate HasPrefix(s: Bytes, p: Bytes) {
    p <= s
  }

  predicate IsDigit(c: char) {
    '0' <= c <= '9'
  }

  predicate AllDigits(s: Bytes) {
    forall i :: 0 <= i < |s| ==> IsDigit(s[i])
  }

  function DigitsValue(s: Bytes): nat
    requires AllDigits(s)
  {
    if s == "" then 0
    else 10 * DigitsValue(s[..|s| - 1]) + (s[|s| - 1] - '0') as nat
  }

  /** Signed decimal text as a 64-bit integer: an optional sign, then digits only, in range. */
  function ParseInt64(s: Bytes): Option<int> {
    var negative := s != "" && s[0] == '-';
    var digits := if s != "" && (s[0] == '-' || s[0] == '+') then s[1..] else s;
    if digits == "" || !AllDigits(digits) then None
    else
      var magnitude: int := DigitsValue(digits);
      var n := if negative then -magnitude else magnitude;
      if -MAX_INT64 - 1 <= n <= MAX_INT64 then Some(n) else None
  }

  function Digit(d: nat): char
    requires d < 10
  {
    '0' + d as char
  }

  /** Decimal text of a natural number, without leading zeros. */
  function Decimal(n: nat): Bytes {
    if n < 10 then [Digit(n)] else Decimal(n / 10) + [Digit(n % 10)]
  }

  lemma {:induction false} DecimalReads(n: nat)
    ensures Decimal(n) != "" && AllDigits(Decimal(n)) && DigitsValue(Decimal(n)) == n
  {
    var s := Decimal(n);
    if n < 10 {
      assert s[..0] == "";
    } else {
      DecimalReads(n / 10);
      assert s[..|s| - 1] == Decimal(n / 10);
    }
  }

  lemma {:induction false} DecimalParses(n: nat)
    requires n <= MAX_INT64
    ensures ParseInt64(Decimal(n)) == Some(n)
  {
    DecimalReads(n);
    var s := Decimal(n);
    assert IsDigit(s[0]);
  }
}
