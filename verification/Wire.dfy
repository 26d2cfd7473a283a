/** What both ends of the wire check about a name-version, a port and an announce. */
module Wire {
  const MAX_NAME_VERSION_LEN := 255
  const MAX_PACKAGES := 4096
  const MAX_BODY_BYTES := 0x10_0000
  const MIN_PORT := 1
  const MAX_PORT := 65535

  /** The bytes a character takes in UTF-8 (RFC 3629, section 3). */
  function Width(c: char): nat {
    if c as int < 0x80 then 1 else if c as int < 0x800 then 2 else if c as int < 0x10000 then 3 else 4
  }

  function ByteLength(s: string): nat {
    if s == "" then 0 else ByteLength(s[..|s| - 1]) + Width(s[|s| - 1])
  }

  predicate IsControl(c: char) {
    c as int < 0x20 || c as int == 0x7f
  }

  predicate ValidNameVersion(s: string) {
    0 < ByteLength(s) <= MAX_NAME_VERSION_LEN && forall i :: 0 <= i < |s| ==> !IsControl(s[i])
  }

  predicate ValidPort(port: int) {
    MIN_PORT <= port <= MAX_PORT
  }

  predicate ValidAnnounce(port: int, packages: seq<string>) {
    && ValidPort(port)
    && |packages| <= MAX_PACKAGES
    && forall i :: 0 <= i < |packages| ==> ValidNameVersion(packages[i])
  }

  /** The client's bounds on an announce, written out. */
  lemma AnnounceBounds(port: int, packages: seq<string>)
    ensures ValidAnnounce(port, packages) <==>
      && 1 <= port <= 65535 && |packages| <= 4096
      && forall i :: 0 <= i < |packages| ==>
           && 1 <= ByteLength(packages[i]) <= 255
           && forall j :: 0 <= j < |packages[i]| ==> 0x20 <= packages[i][j] as int && packages[i][j] as int != 0x7f
  {
  }

  lemma {:induction false} AsciiLength(s: string)
    requires forall i :: 0 <= i < |s| ==> s[i] as int < 0x80
    ensures ByteLength(s) == |s|
  {
    if s != "" {
      AsciiLength(s[..|s| - 1]);
    }
  }

  // ---------------------------------------------------------------- the body of an announce

  /** The bytes a character takes inside a JSON string (RFC 8259, section 7) as the standard encoder writes it: quote
      and backslash are escaped, and so are the three characters that mean something to HTML, the two line
      separators of Unicode, and controls, which no valid name holds. */
  function EscapedWidth(c: char): nat {
    if c == '"' || c == '\\' then 2
    else if c == '<' || c == '>' || c == '&' || c as int == 0x2028 || c as int == 0x2029 || c as int < 0x20 then 6
    else Width(c)
  }

  function EscapedLength(s: string): nat {
    if s == "" then 0 else EscapedLength(s[..|s| - 1]) + EscapedWidth(s[|s| - 1])
  }

  /** Each name in quotes, and a comma before every one but the first. */
  function NamesLength(packages: seq<string>): nat {
    if packages == [] then 0
    else
      var n := |packages| - 1;
      NamesLength(packages[..n]) + (if n == 0 then 0 else 1) + EscapedLength(packages[n]) + 2
  }

  function Digits(n: int): nat {
    if n < 10 then 1 else Digits(n / 10) + 1
  }

  /** The length of `{"servingPort":<port>,"packages":[<names>]}`. */
  function BodyLength(port: int, packages: seq<string>): nat {
    15 + Digits(port) + 13 + NamesLength(packages) + 2
  }

  /** What the tracker takes: it also bounds the body, which the client does not. */
  predicate Accepted(port: int, packages: seq<string>) {
    ValidAnnounce(port, packages) && BodyLength(port, packages) <= MAX_BODY_BYTES
  }

  function Repeated<T>(n: nat, x: T): (s: seq<T>)
    ensures |s| == n && forall i :: 0 <= i < n ==> s[i] == x
  {
    seq(n, _ => x)
  }

  lemma {:induction false} LettersLength(n: nat)
    ensures ByteLength(Repeated(n, 'a')) == n && EscapedLength(Repeated(n, 'a')) == n
  {
    if n > 0 {
      LettersLength(n - 1);
      assert Repeated(n, 'a')[..n - 1] == Repeated(n - 1, 'a');
    }
  }

  lemma {:induction false} RepeatedNamesLength(n: nat, name: string)
    requires n > 0
    ensures NamesLength(Repeated(n, name)) == n * (EscapedLength(name) + 3) - 1
  {
    assert Repeated(n, name)[..n - 1] == Repeated(n - 1, name);
    if n > 1 {
      RepeatedNamesLength(n - 1, name);
      var each := EscapedLength(name) + 3;
      assert n * each == (n - 1) * each + each;
    }
  }

  // ---------------------------------------------------------------- the body itself

  /** n bytes of UTF-8 carry 7, 11, 16 or 21 bits, and a character takes the fewest that hold it. */
  lemma WidthIsTheShortest(c: char)
    ensures 1 <= Width(c) <= 4
    ensures Width(c) <= 1 <==> c as int < 128
    ensures Width(c) <= 2 <==> c as int < 2048
    ensures Width(c) <= 3 <==> c as int < 65536
  {
  }

  function Escape(c: char): string {
    if c == '"' then "\\\""
    else if c == '\\' then "\\\\"
    else if c == '<' then "\\u003c"
    else if c == '>' then "\\u003e"
    else if c == '&' then "\\u0026"
    else if c as int == 0x2028 then "\\u2028"
    else if c as int == 0x2029 then "\\u2029"
    else [c]
  }

  function Escaped(s: string): string {
    if s == "" then "" else Escaped(s[..|s| - 1]) + Escape(s[|s| - 1])
  }

  function Quoted(s: string): string {
    "\"" + Escaped(s) + "\""
  }

  function NameList(packages: seq<string>): string {
    if packages == [] then ""
    else
      var n := |packages| - 1;
      NameList(packages[..n]) + (if n == 0 then "" else ",") + Quoted(packages[n])
  }

  function Decimal(n: nat): string {
    if n < 10 then [('0' as int + n) as char] else Decimal(n / 10) + [('0' as int + n % 10) as char]
  }

  /** An announce as it is sent. */
  function Body(port: nat, packages: seq<string>): string {
    "{\"servingPort\":" + Decimal(port) + ",\"packages\":[" + NameList(packages) + "]}"
  }

  lemma {:induction false} BytesAddUp(a: string, b: string)
    ensures ByteLength(a + b) == ByteLength(a) + ByteLength(b)
  {
    if b == "" {
      assert a + b == a;
    } else {
      BytesAddUp(a, b[..|b| - 1]);
      assert (a + b)[..|a + b| - 1] == a + b[..|b| - 1];
    }
  }

  lemma EscapeBytes(c: char)
    requires 0x20 <= c as int
    ensures ByteLength(Escape(c)) == EscapedWidth(c)
  {
    if Escape(c) != [c] {
      AsciiLength(Escape(c));
    } else {
      assert [c][..0] == "";
    }
  }

  lemma {:induction false} EscapedBytes(s: string)
    requires forall i :: 0 <= i < |s| ==> 0x20 <= s[i] as int
    ensures ByteLength(Escaped(s)) == EscapedLength(s)
  {
    if s != "" {
      var n := |s| - 1;
      EscapedBytes(s[..n]);
      EscapeBytes(s[n]);
      BytesAddUp(Escaped(s[..n]), Escape(s[n]));
    }
  }

  lemma QuotedBytes(s: string)
    requires forall i :: 0 <= i < |s| ==> 0x20 <= s[i] as int
    ensures ByteLength(Quoted(s)) == EscapedLength(s) + 2
  {
    EscapedBytes(s);
    AsciiLength("\"");
    BytesAddUp("\"", Escaped(s));
    BytesAddUp("\"" + Escaped(s), "\"");
  }

  lemma {:induction false} NameListBytes(packages: seq<string>)
    requires forall i :: 0 <= i < |packages| ==> forall j :: 0 <= j < |packages[i]| ==> 0x20 <= packages[i][j] as int
    ensures ByteLength(NameList(packages)) == NamesLength(packages)
  {
    if packages != [] {
      var n := |packages| - 1;
      var before, comma := NameList(packages[..n]), if n == 0 then "" else ",";
      NameListBytes(packages[..n]);
      QuotedBytes(packages[n]);
      AsciiLength(comma);
      BytesAddUp(before, comma);
      BytesAddUp(before + comma, Quoted(packages[n]));
    }
  }

  lemma {:induction false} DecimalBytes(n: nat)
    ensures ByteLength(Decimal(n)) == Digits(n)
  {
    if n < 10 {
      AsciiLength(Decimal(n));
    } else {
      DecimalBytes(n / 10);
      AsciiLength([('0' as int + n % 10) as char]);
      BytesAddUp(Decimal(n / 10), [('0' as int + n % 10) as char]);
    }
  }

  /** `BodyLength` is the length of that body. */
  lemma BodyLengthIs(port: nat, packages: seq<string>)
    requires ValidAnnounce(port, packages)
    ensures ByteLength(Body(port, packages)) == BodyLength(port, packages)
  {
    var head, middle, tail := "{\"servingPort\":", ",\"packages\":[", "]}";
    AsciiLength(head);
    AsciiLength(middle);
    AsciiLength(tail);
    DecimalBytes(port);
    NameListBytes(packages);
    BytesAddUp(head, Decimal(port));
    BytesAddUp(head + Decimal(port), middle);
    BytesAddUp(head + Decimal(port) + middle, NameList(packages));
    BytesAddUp(head + Decimal(port) + middle + NameList(packages), tail);
  }

  /** The tracker's bound is one mebibyte, to the byte. */
  lemma BodyBound(port: int, packages: seq<string>)
    requires ValidAnnounce(port, packages)
    ensures Accepted(port, packages) <==> ByteLength(Body(port, packages)) <= 1024 * 1024
  {
    BodyLengthIs(port, packages);
  }

  /** As many names as the client allows, each as long as it allows. */
  function LongestList(): seq<string> {
    Repeated(MAX_PACKAGES, Repeated(MAX_NAME_VERSION_LEN, 'a'))
  }

  /** The client's check does not imply the tracker's. */
  lemma LongestListIsTooLong(port: int)
    requires ValidPort(port)
    ensures ValidAnnounce(port, LongestList()) && !Accepted(port, LongestList())
  {
    LettersLength(MAX_NAME_VERSION_LEN);
    RepeatedNamesLength(MAX_PACKAGES, Repeated(MAX_NAME_VERSION_LEN, 'a'));
  }

  lemma {:induction false} DigitsAtMost(n: nat)
    ensures Digits(n) <= n + 1
  {
    if n >= 10 {
      DigitsAtMost(n / 10);
    }
  }

  /** The empty list, which deregisters, is always taken. */
  lemma EmptyListIsAccepted(port: int)
    requires ValidPort(port)
    ensures Accepted(port, [])
  {
    DigitsAtMost(port);
  }

  // ---------------------------------------------------------------- the peer wire

  /** The peer wire's own loop accepts exactly what the tracker wire's pattern accepts. */
  method ValidName(s: string) returns (valid: bool)
    ensures valid == ValidNameVersion(s)
    ensures valid <==>
      1 <= ByteLength(s) <= 255 && forall i :: 0 <= i < |s| ==> 0x20 <= s[i] as int && s[i] as int != 0x7f
  {
    if ByteLength(s) == 0 || ByteLength(s) > MAX_NAME_VERSION_LEN {
      return false;
    }
    for i := 0 to |s|
      invariant forall j :: 0 <= j < i ==> !IsControl(s[j])
    {
      if IsControl(s[i]) {
        return false;
      }
    }
    return true;
  }
}
