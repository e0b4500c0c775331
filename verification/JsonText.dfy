/**
 JSON string literals: how Go's encoder writes one and how a browser reads one (RFC 8259, section 7). The encoder
 also escapes the characters that matter in HTML and in JavaScript source.
 */
module JsonText {
  import opened Sequences

  function HexDigit(n: nat): char
    requires n < 16
  {
    if n < 10 then '0' + n as char else 'a' + (n - 10) as char
  }

  function HexValue(c: char): Option<nat> {
    if '0' <= c <= '9' then Some((c - '0') as nat)
    else if 'a' <= c <= 'f' then Some((c - 'a') as nat + 10)
    else if 'A' <= c <= 'F' then Some((c - 'A') as nat + 10)
    else None
  }

  /** The four hexadecimal digits of a 16-bit number. */
  function HexDigits(n: nat): (ds: (nat, nat, nat, nat))
    requires n < 0x10000
    ensures ds.0 < 16 && ds.1 < 16 && ds.2 < 16 && ds.3 < 16
    ensures n == ((ds.0 * 16 + ds.1) * 16 + ds.2) * 16 + ds.3
  {
    (n / 16 / 16 / 16, n / 16 / 16 % 16, n / 16 % 16, n % 16)
  }

  function UnicodeEscape(n: nat): string
    requires n < 0x10000
  {
    var (a, b, c, d) := HexDigits(n);
    ['\\', 'u', HexDigit(a), HexDigit(b), HexDigit(c), HexDigit(d)]
  }

  /** The letter after the backslash, for the characters that have a two-character escape. */
  function ShortEscapeOf(c: char): Option<char> {
    if c == '\"' || c == '\\' then Some(c)
    else if c == '\U{08}' then Some('b')
    else if c == '\U{0C}' then Some('f')
    else if c == '\n' then Some('n')
    else if c == '\r' then Some('r')
    else if c == '\t' then Some('t')
    else None
  }

  function EscapeChar(c: char): string {
    if ShortEscapeOf(c).Some? then ['\\', ShortEscapeOf(c).value]
    else if c < ' ' || c == '<' || c == '>' || c == '&' || c == '\U{2028}' || c == '\U{2029}'
    then UnicodeEscape(c as nat)
    else [c]
  }

  function EscapeAll(s: string): string {
    if s == "" then "" else EscapeChar(s[0]) + EscapeAll(s[1..])
  }

  /** `json.Marshal` of a string. */
  function Marshal(s: string): string {
    "\"" + EscapeAll(s) + "\""
  }

  predicate JsonSpace(c: char) {
    c == ' ' || c == '\t' || c == '\n' || c == '\r'
  }

  predicate AllSpace(s: string) {
    forall i :: 0 <= i < |s| ==> JsonSpace(s[i])
  }

  function SkipSpace(s: string): string {
    if s != "" && JsonSpace(s[0]) then SkipSpace(s[1..]) else s
  }

  function Prepend(c: char, rest: Option<string>): Option<string> {
    match rest
    case None => None
    case Some(t) => Some([c] + t)
  }

  /** The character of a four-digit escape; code units that are half of a surrogate pair are not characters here. */
  function ParseHex(s: string): Option<char>
    requires |s| == 4
  {
    match (HexValue(s[0]), HexValue(s[1]), HexValue(s[2]), HexValue(s[3]))
    case (Some(a), Some(b), Some(c), Some(d)) =>
      var n := ((a * 16 + b) * 16 + c) * 16 + d;
      if n < 0xD800 || 0xE000 <= n < 0x10000 then Some(n as char) else None
    case _ => None
  }

  function ShortEscape(c: char): Option<char> {
    if c == '\"' || c == '\\' || c == '/' then Some(c)
    else if c == 'b' then Some('\U{08}')
    else if c == 'f' then Some('\U{0C}')
    else if c == 'n' then Some('\n')
    else if c == 'r' then Some('\r')
    else if c == 't' then Some('\t')
    else None
  }

  /** What follows the opening quotation mark. */
  function ParseBody(s: string): Option<string>
    decreases |s|
  {
    if s == "" then None
    else if s[0] == '\"' then (if AllSpace(s[1..]) then Some("") else None)
    else if s[0] < ' ' then None
    else if s[0] != '\\' then Prepend(s[0], ParseBody(s[1..]))
    else if |s| < 2 then None
    else if s[1] != 'u' then
      match ShortEscape(s[1])
      case None => None
      case Some(c) => Prepend(c, ParseBody(s[2..]))
    else if |s| < 6 then None
    else
      match ParseHex(s[2..6])
      case None => None
      case Some(c) => Prepend(c, ParseBody(s[6..]))
  }

  /** `JSON.parse` where it yields a string; None stands for every other outcome. */
  function Parse(s: string): Option<string> {
    var t := SkipSpace(s);
    if t != "" && t[0] == '\"' then ParseBody(t[1..]) else None
  }

  lemma HexRoundTrip(n: nat)
    requires n < 16
    ensures HexValue(HexDigit(n)) == Some(n)
  {
  }

  lemma UnicodeRoundTrip(n: nat)
    requires n < 0xD800
    ensures |UnicodeEscape(n)| == 6 && ParseHex(UnicodeEscape(n)[2..6]) == Some(n as char)
  {
    var (a, b, c, d) := HexDigits(n);
    HexRoundTrip(a);
    HexRoundTrip(b);
    HexRoundTrip(c);
    HexRoundTrip(d);
  }

  /** The characters written as four hexadecimal digits. */
  predicate NeedsHex(c: char) {
    && (c < ' ' || c == '<' || c == '>' || c == '&' || c == '\U{2028}' || c == '\U{2029}')
    && ShortEscapeOf(c) == None
  }

  lemma {:induction false} HexCharRoundTrip(c: char, rest: string)
    requires NeedsHex(c)
    ensures ParseBody(UnicodeEscape(c as nat) + rest) == Prepend(c, ParseBody(rest))
  {
    var e := UnicodeEscape(c as nat);
    var s := e + rest;
    UnicodeRoundTrip(c as nat);
    assert s[6..] == rest && s[2..6] == e[2..6];
  }

  lemma ShortEscapesAgree(c: char, e: char)
    requires ShortEscapeOf(c) == Some(e)
    ensures e != 'u' && ShortEscape(e) == Some(c)
  {
  }

  lemma {:induction false} ShortCharRoundTrip(c: char, e: char, rest: string)
    requires e != 'u' && ShortEscape(e) == Some(c)
    ensures ParseBody(['\\', e] + rest) == Prepend(c, ParseBody(rest))
  {
    var s := ['\\', e] + rest;
    assert s[2..] == rest;
  }

  /** Reading one escaped character gives it back and goes on with what follows. */
  lemma {:induction false} CharRoundTrip(c: char, rest: string)
    ensures ParseBody(EscapeChar(c) + rest) == Prepend(c, ParseBody(rest))
  {
    if ShortEscapeOf(c).Some? {
      ShortEscapesAgree(c, ShortEscapeOf(c).value);
      ShortCharRoundTrip(c, ShortEscapeOf(c).value, rest);
    } else if NeedsHex(c) {
      HexCharRoundTrip(c, rest);
    } else {
      assert ([c] + rest)[1..] == rest;
    }
  }

  lemma {:induction false} BodyRoundTrip(s: string, rest: string)
    ensures ParseBody(EscapeAll(s) + rest) == PrependAll(s, ParseBody(rest))
  {
    if s == "" {
      assert EscapeAll(s) + rest == rest;
      PrependNone(ParseBody(rest));
    } else {
      BodyRoundTrip(s[1..], rest);
      CharRoundTrip(s[0], EscapeAll(s[1..]) + rest);
      assert EscapeAll(s) + rest == EscapeChar(s[0]) + (EscapeAll(s[1..]) + rest);
      PrependFirst(s, ParseBody(rest));
    }
  }

  function PrependAll(s: string, rest: Option<string>): Option<string> {
    match rest
    case None => None
    case Some(t) => Some(s + t)
  }

  lemma PrependNone(rest: Option<string>)
    ensures PrependAll("", rest) == rest
  {
    assert rest.Some? ==> "" + rest.value == rest.value;
  }

  lemma PrependFirst(s: string, rest: Option<string>)
    requires s != ""
    ensures Prepend(s[0], PrependAll(s[1..], rest)) == PrependAll(s, rest)
  {
    assert [s[0]] + s[1..] == s;
    assert rest.Some? ==> [s[0]] + (s[1..] + rest.value) == s + rest.value;
  }

  /** What the server writes for a line, the browser reads back. */
  lemma RoundTrip(s: string)
    ensures Parse(Marshal(s)) == Some(s)
  {
    SpacedRoundTrip("", s, "");
    assert "" + Marshal(s) + "" == Marshal(s);
  }

  lemma {:induction false} SpaceSkipped(w: string, rest: string)
    requires forall c :: c in w ==> c in {' ', '\t', '\n', '\r'}
    requires rest != "" && rest[0] == '\"'
    ensures SkipSpace(w + rest) == rest
  {
    if w == "" {
      assert w + rest == rest;
    } else {
      assert (w + rest)[1..] == w[1..] + rest;
      assert w[0] in w && forall c :: c in w[1..] ==> c in w;
      SpaceSkipped(w[1..], rest);
    }
  }

  /** White space around the literal makes no difference. */
  lemma SpacedRoundTrip(w1: string, s: string, w2: string)
    requires forall c :: c in w1 + w2 ==> c in {' ', '\t', '\n', '\r'}
    ensures Parse(w1 + Marshal(s) + w2) == Some(s)
  {
    var body := EscapeAll(s) + ("\"" + w2);
    assert forall c :: c in w1 || c in w2 ==> c in w1 + w2;
    assert w1 + Marshal(s) + w2 == w1 + ("\"" + body);
    SpaceSkipped(w1, "\"" + body);
    assert ("\"" + body)[1..] == body;
    assert ("\"" + w2)[1..] == w2;
    assert forall i :: 0 <= i < |w2| ==> w2[i] in w2;
    BodyRoundTrip(s, "\"" + w2);
    assert s + "" == s;
  }

  /** A literal that does not end, or holds a raw control character, is none. */
  lemma {:induction false} Malformed(s: string, c: char, rest: string)
    requires c < ' '
    ensures ParseBody(EscapeAll(s)) == None && ParseBody(EscapeAll(s) + ([c] + rest)) == None
  {
    BodyRoundTrip(s, "");
    assert EscapeAll(s) + "" == EscapeAll(s);
    BodyRoundTrip(s, [c] + rest);
  }

  /** Nor is one with anything but white space before or behind it. */
  lemma {:induction false} Surrounded(s: string, c: char, rest: string)
    requires c !in {' ', '\t', '\n', '\r'}
    ensures c != '\"' ==> Parse([c] + rest) == None
    ensures ParseBody(EscapeAll(s) + ("\"" + ([c] + rest))) == None
  {
    var tail := "\"" + ([c] + rest);
    assert tail[1..] == [c] + rest && ([c] + rest)[0] == c;
    assert !AllSpace([c] + rest);
    BodyRoundTrip(s, tail);
  }

  /** What the reader makes of a backslash and one letter, and of a hexadecimal digit in either case. */
  lemma EscapesReadAs(c: char)
    ensures ShortEscape('\"') == Some('\"') && ShortEscape('\\') == Some('\\') && ShortEscape('/') == Some('/')
    ensures ShortEscape('b') == Some('\U{08}') && ShortEscape('f') == Some('\U{0C}')
    ensures ShortEscape('n') == Some('\n') && ShortEscape('r') == Some('\r') && ShortEscape('t') == Some('\t')
    ensures c !in {'\"', '\\', '/', 'b', 'f', 'n', 'r', 't'} ==> ShortEscape(c) == None
    ensures '0' <= c <= '9' ==> HexValue(c) == Some((c - '0') as nat)
    ensures 'a' <= c <= 'f' ==> HexValue(c) == Some((c - 'a') as nat + 10)
    ensures 'A' <= c <= 'F' ==> HexValue(c) == Some((c - 'A') as nat + 10)
    ensures !('0' <= c <= '9') && !('a' <= c <= 'f') && !('A' <= c <= 'F') ==> HexValue(c) == None
  {
  }

  /** The two-character escapes of RFC 8259, section 7, that the encoder uses. */
  lemma ShortEscapesAre()
    ensures EscapeChar('\"') == "\\\"" && EscapeChar('\\') == "\\\\" && EscapeChar('\n') == "\\n"
    ensures EscapeChar('\r') == "\\r" && EscapeChar('\t') == "\\t"
    ensures EscapeChar('\U{08}') == "\\b" && EscapeChar('\U{0C}') == "\\f"
  {
  }

  /** Some of those with four hexadecimal digits, for control characters and for HTML and JavaScript. */
  lemma HexEscapesAre()
    ensures EscapeChar('\U{1B}') == "\\u001b" && EscapeChar('<') == "\\u003c" && EscapeChar('>') == "\\u003e"
    ensures EscapeChar('&') == "\\u0026" && EscapeChar('\U{2028}') == "\\u2028" && EscapeChar('\U{2029}') == "\\u2029"
  {
  }

  /** Everything else is written as it is. */
  lemma PlainStays(c: char)
    requires Inert(c) && c != '\"' && c != '\\'
    ensures EscapeChar(c) == [c]
  {
  }

  /** Neither a control character nor one that means something in HTML or ends a line of JavaScript. */
  predicate Inert(c: char) {
    c >= ' ' && c != '<' && c != '>' && c != '&' && c != '\U{2028}' && c != '\U{2029}'
  }

  lemma EscapeCharInert(c: char)
    ensures forall i :: 0 <= i < |EscapeChar(c)| ==> Inert(EscapeChar(c)[i])
  {
  }

  /** An encoded string holds inert characters only, in particular no raw line feed. */
  lemma {:induction false} EscapeInert(s: string)
    ensures forall c :: c in EscapeAll(s) ==> Inert(c)
  {
    if s != "" {
      EscapeCharInert(s[0]);
      EscapeInert(s[1..]);
    }
  }

  lemma MarshalHasNoLineFeed(s: string)
    ensures '\n' !in Marshal(s)
  {
    EscapeInert(s);
  }
}
