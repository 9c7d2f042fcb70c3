/** Reading back what the script writer puts on an `argument<n>` line: a
    JSON string decoder (section 7 of RFC 8259) and a reader for the
    options object of one argument. Its round-trip lemmas show that the
    writer loses nothing: every placeholder, however exotic its characters,
    and every flag can be recovered from the line. */
module JsonRead {
  import opened Results
  import opened Models
  import opened Render

  /** The value of one hexadecimal digit, in either case. */
  function HexValue(c: char): (r: Option<nat>)
    ensures r.Some? ==> r.value < 16
  {
    if '0' <= c <= '9' then Some(c as int - '0' as int)
    else if 'a' <= c <= 'f' then Some(c as int - 'a' as int + 10)
    else if 'A' <= c <= 'F' then Some(c as int - 'A' as int + 10)
    else None
  }

  lemma HexDigitRoundTrip(d: nat)
    requires d < 16
    ensures HexValue(HexDigit(d)) == Some(d)
  {
    var digits := "0123456789abcdef";
    if d < 10 {
      assert digits[d] as int == '0' as int + d by {
        assert digits[..10] == "0123456789";
      }
    } else {
      assert digits[d] as int == 'a' as int + d - 10 by {
        assert digits[10..] == "abcdef";
      }
    }
  }

  /** The number written by four hexadecimal digits. */
  function ReadHex4(s: string): (r: Option<nat>)
    requires |s| == 4
    ensures r.Some? ==> r.value < 0x1_0000
  {
    match (HexValue(s[0]), HexValue(s[1]), HexValue(s[2]), HexValue(s[3]))
    case (Some(a), Some(b), Some(c), Some(d)) => Some(a * 0x1000 + b * 0x100 + c * 0x10 + d)
    case _ => None
  }

  lemma Hex4RoundTrip(n: nat)
    requires n < 0x1_0000
    ensures ReadHex4(Hex4(n)) == Some(n)
  {
    var h := Hex4(n);
    HexDigitRoundTrip(n / 0x1000);
    HexDigitRoundTrip(n / 0x100 % 16);
    HexDigitRoundTrip(n / 0x10 % 16);
    HexDigitRoundTrip(n % 16);
    DigitsSum(n);
  }

  lemma DigitsSum(n: nat)
    requires n < 0x1_0000
    ensures n / 0x1000 * 0x1000 + n / 0x100 % 16 * 0x100 + n / 0x10 % 16 * 0x10 + n % 16 == n
  {
    var q1, q2, q3 := n / 0x1000, n / 0x100, n / 0x10;
    assert q2 == q1 * 16 + q2 % 16;
    assert q3 == q2 * 16 + q3 % 16;
    assert n == q3 * 16 + n % 16;
  }

  /** The character a UTF-16 surrogate pair stands for. */
  function Combine(hi: nat, lo: nat): (c: char)
    requires 0xd800 <= hi < 0xdc00 && 0xdc00 <= lo < 0xe000
  {
    var v := (hi - 0xd800) * 0x400 + (lo - 0xdc00);
    assert v <= 0x3ff * 0x400 + 0x3ff;
    (0x1_0000 + v) as char
  }

  /** One character of a string body and how many input characters it
      takes: a character below U+0020 must be escaped. */
  function ReadChar(s: string): (r: Option<(char, nat)>)
    requires |s| > 0
    ensures r.Some? ==> 1 <= r.value.1 <= |s|
  {
    if s[0] == '\\' then ReadEscape(s)
    else if s[0] < ' ' then None
    else Some((s[0], 1))
  }

  /** An escape: one of the two-character forms or `\uXXXX`. */
  function ReadEscape(s: string): (r: Option<(char, nat)>)
    requires |s| > 0 && s[0] == '\\'
    ensures r.Some? ==> 2 <= r.value.1 <= |s|
  {
    if |s| < 2 then None
    else if s[1] == '"' then Some(('"', 2))
    else if s[1] == '\\' then Some(('\\', 2))
    else if s[1] == '/' then Some(('/', 2))
    else if s[1] == 'b' then Some((8 as char, 2))
    else if s[1] == 'f' then Some((12 as char, 2))
    else if s[1] == 'n' then Some(('\n', 2))
    else if s[1] == 'r' then Some(('\r', 2))
    else if s[1] == 't' then Some(('\t', 2))
    else if s[1] == 'u' then ReadUnicode(s)
    else None
  }

  /** `\uXXXX`, where a high surrogate must be followed by the escape of a
      low one and the pair stands for one character. */
  function ReadUnicode(s: string): (r: Option<(char, nat)>)
    ensures r.Some? ==> 6 <= r.value.1 <= |s|
  {
    if |s| < 6 then None
    else match ReadHex4(s[2..6])
      case None => None
      case Some(h) =>
        if h < 0xd800 || 0xe000 <= h then Some((h as char, 6))
        else if 0xdc00 <= h || |s| < 12 || s[6] != '\\' || s[7] != 'u' then None
        else match ReadHex4(s[8..12])
          case Some(l) => if 0xdc00 <= l < 0xe000 then Some((Combine(h, l), 12)) else None
          case None => None
  }

  /** A string body up to its closing quote: the decoded text and what
      follows the quote. */
  function Unquote(s: string): (r: Option<(string, string)>)
    ensures r.Some? ==> |r.value.1| < |s|
    decreases |s|
  {
    if s == [] then None
    else if s[0] == '"' then Some(("", s[1..]))
    else match ReadChar(s)
      case None => None
      case Some((c, n)) =>
        match Unquote(s[n..])
        case None => None
        case Some((x, rest)) => Some(([c] + x, rest))
  }

  /** A JSON string at the start of `s`, and what follows it. */
  function ReadString(s: string): (r: Option<(string, string)>)
    ensures r.Some? ==> |r.value.1| < |s|
  {
    if s != [] && s[0] == '"' then Unquote(s[1..]) else None
  }

  /** The escape of any character reads back as that character, and never
      starts with the closing quote. */
  lemma ReadEscaped(c: char, t: string)
    ensures var s := EscapeChar(c) + t;
      s[0] != '"' && ReadChar(s) == Some((c, |EscapeChar(c)|))
  {
    var e := EscapeChar(c);
    var s := e + t;
    assert s[..|e|] == e;
    if c == '"' || c == '\\' || c == '\n' || c == '\r' || c == '\t' || c == 8 as char || c == 12 as char {
      ReadShort(c, s);
    } else if Printable(c) {
      assert s[0] == c;
    } else if c as int < 0x1_0000 {
      ReadBmp(c, s);
    } else {
      ReadPair(c, s);
    }
  }

  lemma ReadShort(c: char, s: string)
    requires c == '"' || c == '\\' || c == '\n' || c == '\r' || c == '\t' || c == 8 as char || c == 12 as char
    requires |s| >= 2 && s[..2] == EscapeChar(c)
    ensures s[0] == '\\' && ReadChar(s) == Some((c, 2))
  {
    assert s[0] == EscapeChar(c)[0] && s[1] == EscapeChar(c)[1];
  }

  lemma ReadBmp(c: char, s: string)
    requires !Plain(c) && c as int < 0x1_0000
    requires c != '"' && c != '\\' && c != '\n' && c != '\r' && c != '\t' && c != 8 as char && c != 12 as char
    requires |s| >= 6 && s[..6] == EscapeChar(c)
    ensures s[0] == '\\' && ReadChar(s) == Some((c, 6))
  {
    var e := EscapeChar(c);
    assert e == "\\u" + Hex4(c as int);
    assert s[2..6] == e[2..6] == Hex4(c as int);
    assert s[0] == e[0] && s[1] == e[1] == 'u';
    Hex4RoundTrip(c as int);
    assert ReadUnicode(s) == Some((c, 6));
    ReadsUnicode(s);
  }

  lemma ReadPair(c: char, s: string)
    requires c as int >= 0x1_0000
    requires |s| >= 12 && s[..12] == EscapeChar(c)
    ensures s[0] == '\\' && ReadChar(s) == Some((c, 12))
  {
    var v := c as int - 0x1_0000;
    var hi, lo := 0xd800 + v / 0x400, 0xdc00 + v % 0x400;
    EscapePair(c);
    PairLayout(Hex4(hi), Hex4(lo), s);
    Hex4RoundTrip(hi);
    Hex4RoundTrip(lo);
    ReadUnicodePair(s, hi, lo);
    CombineSplit(c);
    ReadsUnicode(s);
  }

  lemma EscapePair(c: char)
    requires c as int >= 0x1_0000
    ensures var v := c as int - 0x1_0000;
      EscapeChar(c) == "\\u" + Hex4(0xd800 + v / 0x400) + "\\u" + Hex4(0xdc00 + v % 0x400)
  {
  }

  lemma ReadUnicodePair(s: string, hi: nat, lo: nat)
    requires 0xd800 <= hi < 0xdc00 && 0xdc00 <= lo < 0xe000
    requires |s| >= 12 && s[6] == '\\' && s[7] == 'u'
    requires ReadHex4(s[2..6]) == Some(hi) && ReadHex4(s[8..12]) == Some(lo)
    ensures ReadUnicode(s) == Some((Combine(hi, lo), 12))
  {
  }

  lemma PairLayout(x: string, y: string, s: string)
    requires |x| == 4 && |y| == 4
    requires |s| >= 12 && s[..12] == "\\u" + x + "\\u" + y
    ensures s[0] == '\\' && s[1] == 'u' && s[2..6] == x && s[6] == '\\' && s[7] == 'u' && s[8..12] == y
  {
    var e := "\\u" + x + "\\u" + y;
    assert s[2..6] == e[2..6] && s[8..12] == e[8..12];
    assert s[0] == e[0] && s[1] == e[1] && s[6] == e[6] && s[7] == e[7];
  }

  lemma ReadsUnicode(s: string)
    requires |s| >= 2 && s[0] == '\\' && s[1] == 'u'
    ensures ReadChar(s) == ReadUnicode(s)
  {
  }

  /** Splitting a character beyond U+FFFF into a surrogate pair and
      combining the pair gives the character back. */
  lemma CombineSplit(c: char)
    requires c as int >= 0x1_0000
    ensures var v := c as int - 0x1_0000;
      Combine(0xd800 + v / 0x400, 0xdc00 + v % 0x400) == c
  {
    var v := c as int - 0x1_0000;
    assert v / 0x400 * 0x400 + v % 0x400 == v;
  }

  /** The body `json.dumps` writes for `x`, then the closing quote, reads
      back as `x` followed by whatever came after. */
  lemma {:induction false} UnquoteEscaped(x: string, rest: string)
    ensures Unquote(EscapeAll(x) + ("\"" + rest)) == Some((x, rest))
  {
    var q := "\"" + rest;
    if x == "" {
      assert EscapeAll(x) + q == q;
    } else {
      var e, tail := EscapeChar(x[0]), EscapeAll(x[1..]) + q;
      var s := EscapeAll(x) + q;
      assert EscapeAll(x) == e + EscapeAll(x[1..]);
      SplitAfter(e, EscapeAll(x[1..]), q);
      ReadEscaped(x[0], tail);
      UnquoteEscaped(x[1..], rest);
      UnquoteStep(s, x[0], |e|, x[1..], rest);
      assert [x[0]] + x[1..] == x;
    }
  }

  /** `json.loads` inverts `json.dumps` on strings. */
  lemma ReadJsonString(x: string, rest: string)
    ensures ReadString(JsonString(x) + rest) == Some((x, rest))
  {
    var s := JsonString(x) + rest;
    assert s[1..] == EscapeAll(x) + ("\"" + rest);
    UnquoteEscaped(x, rest);
  }

  lemma SplitAfter(e: string, b: string, t: string)
    ensures var s := e + b + t;
      s == e + (b + t) && s[|e|..] == b + t
  {
  }

  /** A character read, then the rest of the body. */
  lemma UnquoteStep(s: string, c: char, n: nat, x: string, rest: string)
    requires s != [] && s[0] != '"' && ReadChar(s) == Some((c, n))
    requires Unquote(s[n..]) == Some((x, rest))
    ensures Unquote(s) == Some(([c] + x, rest))
  {
  }

  /** What follows the literal `lit` at the start of `s`. */
  function Strip(lit: string, s: string): (r: Option<string>)
    ensures r.Some? <==> |lit| <= |s| && s[..|lit|] == lit
    ensures r.Some? ==> s == lit + r.value
  {
    if |lit| <= |s| && s[..|lit|] == lit then Some(s[|lit|..]) else None
  }

  lemma StripAppend(lit: string, t: string)
    ensures Strip(lit, lit + t) == Some(t)
  {
    assert (lit + t)[..|lit|] == lit;
  }

  /** A JSON `true` or `false` at the start of `s`, and what follows it. */
  function ReadBool(s: string): (r: Option<(bool, string)>)
    ensures r.Some? ==> s == JsonBool(r.value.0) + r.value.1
  {
    match Strip("true", s)
    case Some(rest) => Some((true, rest))
    case None =>
      match Strip("false", s)
      case Some(rest) => Some((false, rest))
      case None => None
  }

  lemma ReadBoolRoundTrip(b: bool, t: string)
    ensures ReadBool(JsonBool(b) + t) == Some((b, t))
  {
    var s := JsonBool(b) + t;
    if b {
      StripAppend("true", t);
    } else {
      assert s[0] == 'f';
      StripAppend("false", t);
    }
  }

  /** A literal key, then a boolean, at the start of `s`. */
  function ReadFlag(key: string, s: string): Option<(bool, string)> {
    match Strip(key, s)
    case None => None
    case Some(rest) => ReadBool(rest)
  }

  lemma ReadFlagRoundTrip(key: string, b: bool, t: string)
    ensures ReadFlag(key, key + JsonBool(b) + t) == Some((b, t))
  {
    assert key + JsonBool(b) + t == key + (JsonBool(b) + t);
    StripAppend(key, JsonBool(b) + t);
    ReadBoolRoundTrip(b, t);
  }

  /** The argument an `argument<n>` line's options object describes, read
      in the order the writer puts the keys. */
  function ReadArgumentJson(s: string): Option<RaycastArgument> {
    match Strip(OptionsHead, s)
    case None => None
    case Some(s1) =>
      match ReadString(s1)
      case None => None
      case Some((placeholder, s2)) =>
        match ReadFlag(EncodedKey, s2)
        case None => None
        case Some((encoded, s3)) =>
          match ReadFlag(OptionalKey, s3)
          case None => None
          case Some((optional, s4)) =>
            match ReadFlag(SecureKey, s4)
            case None => None
            case Some((secure, s5)) =>
              if s5 == "}" then Some(RaycastArgument(placeholder, encoded, secure, optional)) else None
  }

  /** The options line of an argument reads back as that argument. */
  lemma ArgumentJsonRoundTrip(a: RaycastArgument)
    ensures ReadArgumentJson(ArgumentJson(a)) == Some(a)
  {
    var t4 := JsonBool(a.secure) + "}";
    var t3 := OptionalKey + JsonBool(a.optional) + (SecureKey + t4);
    var t2 := EncodedKey + JsonBool(a.percentEncoded) + t3;
    var t1 := JsonString(a.placeholder) + t2;
    Regroup(OptionsHead, JsonString(a.placeholder), EncodedKey, JsonBool(a.percentEncoded),
      OptionalKey, JsonBool(a.optional), SecureKey, JsonBool(a.secure), "}");
    StripAppend(OptionsHead, t1);
    ReadJsonString(a.placeholder, t2);
    ReadFlagRoundTrip(EncodedKey, a.percentEncoded, t3);
    ReadFlagRoundTrip(OptionalKey, a.optional, SecureKey + t4);
    ReadFlagRoundTrip(SecureKey, a.secure, "}");
  }

  lemma Regroup(h: string, j: string, k1: string, b1: string, k2: string, b2: string,
                k3: string, b3: string, z: string)
    ensures h + j + k1 + b1 + k2 + b2 + k3 + b3 + z
         == h + (j + (k1 + b1 + (k2 + b2 + (k3 + (b3 + z)))))
  {
  }
}
