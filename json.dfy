/**
 * JSON texts (RFC 8259) as far as the `descr` carrier of a host override needs
 * them: a value type, a canonical serializer without whitespace, and a parser
 * that accepts a whole document the way Go's encoding/json does (insignificant
 * whitespace, the escape sequences of section 7 including surrogate pairs,
 * numbers of section 6, the three literals). The main result is
 * `ParseSerializeRoundTrip`: parsing what `Serialize` wrote gives the value back.
 */
module Json {
  import opened Wrappers

  datatype Value =
    | Null
    | Bool(b: bool)
    | Number(lexeme: string)
    | String(text: string)
    | Array(items: seq<Value>)
    | Object(members: seq<Member>)

  datatype Member = Member(key: string, value: Value)

  /** A successful parse step: the value read and the input left after it. */
  datatype Parsed<T> = Parsed(value: T, rest: string)

  type ParseResult<T> = Result<Parsed<T>, string>

  // ---------------------------------------------------------------------------
  // Characters

  predicate IsWhitespace(c: char) {
    c == ' ' || c == '\t' || c == '\n' || c == '\r'
  }

  predicate IsDigit(c: char) {
    '0' <= c <= '9'
  }

  /** The characters a number lexeme is made of. */
  predicate IsNumberChar(c: char) {
    IsDigit(c) || c == '-' || c == '+' || c == '.' || c == 'e' || c == 'E'
  }

  predicate IsSurrogate(n: nat) {
    0xD800 <= n < 0xE000
  }

  function SkipWhitespace(s: string): (t: string)
    ensures |t| <= |s|
    ensures t == [] || !IsWhitespace(t[0])
  {
    if s != [] && IsWhitespace(s[0]) then SkipWhitespace(s[1..]) else s
  }

  function HexValue(c: char): (r: Option<nat>)
    ensures r.Some? ==> r.value < 16
  {
    if '0' <= c <= '9' then Some(c as int - '0' as int)
    else if 'a' <= c <= 'f' then Some(c as int - 'a' as int + 10)
    else if 'A' <= c <= 'F' then Some(c as int - 'A' as int + 10)
    else None
  }

  /** The value of four hexadecimal digits, as after `\u`. */
  function Hex4(s: string): (r: Option<nat>)
    requires |s| == 4
    ensures r.Some? ==> r.value < 0x10000
  {
    match (HexValue(s[0]), HexValue(s[1]), HexValue(s[2]), HexValue(s[3]))
    case (Some(a), Some(b), Some(c), Some(d)) => Some(((a * 16 + b) * 16 + c) * 16 + d)
    case _ => None
  }

  function HexDigit(n: nat): (c: char)
    requires n < 16
    ensures HexValue(c) == Some(n)
  {
    if n < 10 then ('0' as int + n) as char else ('a' as int + n - 10) as char
  }

  // ---------------------------------------------------------------------------
  // Serializer

  /** The escaped form of one character inside a string literal. */
  function EscapeChar(c: char): string {
    if c == '"' then "\\\""
    else if c == '\\' then "\\\\"
    else if c == '\n' then "\\n"
    else if c == '\r' then "\\r"
    else if c == '\t' then "\\t"
    else if c < ' ' then "\\u00" + [HexDigit(c as int / 16), HexDigit(c as int % 16)]
    else [c]
  }

  function Escape(s: string): string {
    if s == [] then "" else EscapeChar(s[0]) + Escape(s[1..])
  }

  function Quote(s: string): string {
    "\"" + Escape(s) + "\""
  }

  function Serialize(v: Value): string
    decreases v
  {
    match v
    case Null => "null"
    case Bool(b) => if b then "true" else "false"
    case Number(lexeme) => lexeme
    case String(text) => Quote(text)
    case Array(items) => "[" + SerializeItems(items) + "]"
    case Object(members) => "{" + SerializeMembers(members) + "}"
  }

  function SerializeItems(items: seq<Value>): string
    decreases items
  {
    if items == [] then ""
    else if |items| == 1 then Serialize(items[0])
    else Serialize(items[0]) + "," + SerializeItems(items[1..])
  }

  function SerializeMembers(members: seq<Member>): string
    decreases members
  {
    if members == [] then ""
    else
      var head := Quote(members[0].key) + ":" + Serialize(members[0].value);
      if |members| == 1 then head else head + "," + SerializeMembers(members[1..])
  }

  // ---------------------------------------------------------------------------
  // Numbers (RFC 8259 section 6): -? (0 | [1-9][0-9]*) (. [0-9]+)? ([eE] [+-]? [0-9]+)?

  function DropDigits(s: string): (t: string)
    ensures |t| <= |s|
  {
    if s != [] && IsDigit(s[0]) then DropDigits(s[1..]) else s
  }

  predicate ValidExponent(s: string) {
    s == [] ||
    ((s[0] == 'e' || s[0] == 'E') &&
     var t := if |s| > 1 && (s[1] == '+' || s[1] == '-') then s[2..] else s[1..];
     t != [] && IsDigit(t[0]) && DropDigits(t) == [])
  }

  predicate ValidFractionExponent(s: string) {
    if s != [] && s[0] == '.' then |s| > 1 && IsDigit(s[1]) && ValidExponent(DropDigits(s[1..]))
    else ValidExponent(s)
  }

  predicate ValidNumber(s: string) {
    var a := if s != [] && s[0] == '-' then s[1..] else s;
    a != [] && IsDigit(a[0]) &&
    ValidFractionExponent(if a[0] == '0' then a[1..] else DropDigits(a[1..]))
  }

  /** The length of the longest prefix of `s` made of number characters. */
  function NumberRun(s: string): (n: nat)
    ensures n <= |s|
  {
    if s != [] && IsNumberChar(s[0]) then 1 + NumberRun(s[1..]) else 0
  }

  // ---------------------------------------------------------------------------
  // Parser

  /** Reads the escape sequence after a backslash. A lone surrogate becomes U+FFFD. */
  function ParseEscape(s: string): (r: ParseResult<char>)
    ensures r.Success? ==> |r.value.rest| < |s|
  {
    if s == [] then Failure("unexpected end of input in escape")
    else if s[0] == '"' then Success(Parsed('"', s[1..]))
    else if s[0] == '\\' then Success(Parsed('\\', s[1..]))
    else if s[0] == '/' then Success(Parsed('/', s[1..]))
    else if s[0] == 'b' then Success(Parsed(8 as char, s[1..]))
    else if s[0] == 'f' then Success(Parsed(12 as char, s[1..]))
    else if s[0] == 'n' then Success(Parsed('\n', s[1..]))
    else if s[0] == 'r' then Success(Parsed('\r', s[1..]))
    else if s[0] == 't' then Success(Parsed('\t', s[1..]))
    else if s[0] == 'u' && |s| >= 5 && Hex4(s[1..5]).Some? then
      var hi := Hex4(s[1..5]).value;
      if !IsSurrogate(hi) then Success(Parsed(hi as char, s[5..]))
      else if hi < 0xDC00 && |s| >= 11 && s[5] == '\\' && s[6] == 'u'
              && Hex4(s[7..11]).Some? && 0xDC00 <= Hex4(s[7..11]).value < 0xE000 then
        var lo := Hex4(s[7..11]).value;
        Success(Parsed(((hi - 0xD800) * 0x400 + (lo - 0xDC00) + 0x10000) as char, s[11..]))
      else Success(Parsed(0xFFFD as char, s[5..]))
    else Failure("invalid escape")
  }

  /** Reads the rest of a string literal whose opening quote was consumed. */
  function ParseStringBody(s: string): (r: ParseResult<string>)
    ensures r.Success? ==> |r.value.rest| < |s|
    decreases |s|
  {
    if s == [] then Failure("unexpected end of input in string")
    else if s[0] == '"' then Success(Parsed("", s[1..]))
    else if s[0] == '\\' then
      var esc :- ParseEscape(s[1..]);
      var tail :- ParseStringBody(esc.rest);
      Success(Parsed([esc.value] + tail.value, tail.rest))
    else if s[0] < ' ' then Failure("control character in string")
    else
      var tail :- ParseStringBody(s[1..]);
      Success(Parsed([s[0]] + tail.value, tail.rest))
  }

  function ParseNumber(s: string): (r: ParseResult<string>)
    ensures r.Success? ==> |r.value.rest| < |s|
  {
    var n := NumberRun(s);
    if n > 0 && ValidNumber(s[..n]) then Success(Parsed(s[..n], s[n..]))
    else Failure("invalid number")
  }

  /** Reads one value after optional whitespace. */
  function ParseValue(s: string): (r: ParseResult<Value>)
    ensures r.Success? ==> |r.value.rest| < |s|
    decreases |s|, 0
  {
    var t := SkipWhitespace(s);
    if t == [] then Failure("unexpected end of input")
    else if t[0] == '{' then ParseObject(t[1..])
    else if t[0] == '[' then ParseArray(t[1..])
    else if t[0] == '"' then
      var p :- ParseStringBody(t[1..]);
      Success(Parsed(String(p.value), p.rest))
    else if t[0] == '-' || IsDigit(t[0]) then
      var p :- ParseNumber(t);
      Success(Parsed(Number(p.value), p.rest))
    else if t[0] == 't' then
      if "true" <= t then Success(Parsed(Bool(true), t[4..])) else Failure("invalid literal")
    else if t[0] == 'f' then
      if "false" <= t then Success(Parsed(Bool(false), t[5..])) else Failure("invalid literal")
    else if t[0] == 'n' then
      if "null" <= t then Success(Parsed(Null, t[4..])) else Failure("invalid literal")
    else Failure("invalid character looking for beginning of value")
  }

  /** Reads the rest of an array whose `[` was consumed. */
  function ParseArray(s: string): (r: ParseResult<Value>)
    ensures r.Success? ==> |r.value.rest| < |s|
    decreases |s|, 2
  {
    var t := SkipWhitespace(s);
    if t != [] && t[0] == ']' then Success(Parsed(Array([]), t[1..]))
    else
      var p :- ParseElements(t);
      Success(Parsed(Array(p.value), p.rest))
  }

  /** Reads `value (, value)* ]`. */
  function ParseElements(s: string): (r: ParseResult<seq<Value>>)
    ensures r.Success? ==> |r.value.rest| < |s|
    decreases |s|, 1
  {
    var v :- ParseValue(s);
    var t := SkipWhitespace(v.rest);
    if t == [] then Failure("unexpected end of input in array")
    else if t[0] == ',' then
      var more :- ParseElements(t[1..]);
      Success(Parsed([v.value] + more.value, more.rest))
    else if t[0] == ']' then Success(Parsed([v.value], t[1..]))
    else Failure("invalid character after array element")
  }

  /** Reads the rest of an object whose `{` was consumed. */
  function ParseObject(s: string): (r: ParseResult<Value>)
    ensures r.Success? ==> |r.value.rest| < |s|
    decreases |s|, 2
  {
    var t := SkipWhitespace(s);
    if t != [] && t[0] == '}' then Success(Parsed(Object([]), t[1..]))
    else
      var p :- ParseMembers(t);
      Success(Parsed(Object(p.value), p.rest))
  }

  /** Reads `"key": value (, "key": value)* }`. */
  function ParseMembers(s: string): (r: ParseResult<seq<Member>>)
    ensures r.Success? ==> |r.value.rest| < |s|
    decreases |s|, 1
  {
    var t := SkipWhitespace(s);
    if t == [] || t[0] != '"' then Failure("object key must be a string")
    else
      var k :- ParseStringBody(t[1..]);
      var u := SkipWhitespace(k.rest);
      if u == [] || u[0] != ':' then Failure("missing colon after object key")
      else
        var v :- ParseValue(u[1..]);
        var w := SkipWhitespace(v.rest);
        if w == [] then Failure("unexpected end of input in object")
        else if w[0] == ',' then
          var more :- ParseMembers(w[1..]);
          Success(Parsed([Member(k.value, v.value)] + more.value, more.rest))
        else if w[0] == '}' then Success(Parsed([Member(k.value, v.value)], w[1..]))
        else Failure("invalid character after object member")
  }

  /** A whole JSON document: one value, with nothing but whitespace after it. */
  function ParseJson(s: string): Result<Value, string> {
    var p :- ParseValue(s);
    if SkipWhitespace(p.rest) != [] then Failure("invalid character after top-level value")
    else Success(p.value)
  }

  // ---------------------------------------------------------------------------
  // Round trip

  /** Every number lexeme in `v` is one that the parser accepts. */
  predicate WellFormed(v: Value)
    decreases v
  {
    match v
    case Number(lexeme) => ValidNumber(lexeme)
    case Array(items) => forall i | 0 <= i < |items| :: WellFormed(items[i])
    case Object(members) => forall i | 0 <= i < |members| :: WellFormed(members[i].value)
    case _ => true
  }

  /** What may follow a value inside a serialized document. */
  predicate Delimited(rest: string) {
    rest == [] || rest[0] == ',' || rest[0] == ']' || rest[0] == '}'
  }

  predicate NumberChars(s: string) {
    forall i | 0 <= i < |s| :: IsNumberChar(s[i])
  }

  lemma {:induction false} DropDigitsSplit(s: string)
    ensures DropDigits(s) == s[|s| - |DropDigits(s)|..]
    ensures forall i | 0 <= i < |s| - |DropDigits(s)| :: IsDigit(s[i])
  {
    if s != [] && IsDigit(s[0]) {
      DropDigitsSplit(s[1..]);
      assert s[1..][|s[1..]| - |DropDigits(s[1..])|..] == s[|s| - |DropDigits(s)|..];
      forall i | 0 <= i < |s| - |DropDigits(s)| ensures IsDigit(s[i]) {
        if i > 0 { assert s[i] == s[1..][i - 1]; }
      }
    }
  }

  lemma NumberCharsJoin(s: string, k: nat)
    requires k <= |s| && NumberChars(s[..k]) && NumberChars(s[k..])
    ensures NumberChars(s)
  {
    forall i | 0 <= i < |s| ensures IsNumberChar(s[i]) {
      if i < k { assert s[i] == s[..k][i]; } else { assert s[i] == s[k..][i - k]; }
    }
  }

  /** A string whose number characters stop where its digits stop. */
  lemma DigitsThen(s: string)
    requires NumberChars(DropDigits(s))
    ensures NumberChars(s)
  {
    DropDigitsSplit(s);
    var k := |s| - |DropDigits(s)|;
    assert NumberChars(s[..k]) by {
      forall i | 0 <= i < k ensures IsNumberChar(s[..k][i]) { assert s[..k][i] == s[i]; }
    }
    NumberCharsJoin(s, k);
  }

  lemma ValidExponentChars(s: string)
    requires ValidExponent(s)
    ensures NumberChars(s)
  {
    if s != [] {
      var j := if |s| > 1 && (s[1] == '+' || s[1] == '-') then 2 else 1;
      DigitsThen(s[j..]);
      assert NumberChars(s[..j]) by {
        forall i | 0 <= i < j ensures IsNumberChar(s[..j][i]) { assert s[..j][i] == s[i]; }
      }
      NumberCharsJoin(s, j);
    }
  }

  lemma ValidFractionExponentChars(s: string)
    requires ValidFractionExponent(s)
    ensures NumberChars(s)
  {
    if s != [] && s[0] == '.' {
      ValidExponentChars(DropDigits(s[1..]));
      DigitsThen(s[1..]);
      assert NumberChars(s[..1]) by { assert s[..1][0] == '.'; }
      NumberCharsJoin(s, 1);
    } else {
      ValidExponentChars(s);
    }
  }

  lemma ValidNumberChars(s: string)
    requires ValidNumber(s)
    ensures NumberChars(s) && s != [] && (s[0] == '-' || IsDigit(s[0]))
  {
    var j := if s != [] && s[0] == '-' then 1 else 0;
    var a := s[j..];
    if a[0] == '0' {
      ValidFractionExponentChars(a[1..]);
    } else {
      ValidFractionExponentChars(DropDigits(a[1..]));
      DigitsThen(a[1..]);
    }
    assert NumberChars(a[..1]) by { assert a[..1][0] == a[0]; }
    NumberCharsJoin(a, 1);
    assert NumberChars(s[..j]) by {
      forall i | 0 <= i < j ensures IsNumberChar(s[..j][i]) { assert s[..j][i] == '-'; }
    }
    NumberCharsJoin(s, j);
  }

  lemma {:induction false} NumberRunAppend(lexeme: string, rest: string)
    requires NumberChars(lexeme)
    requires rest == [] || !IsNumberChar(rest[0])
    ensures NumberRun(lexeme + rest) == |lexeme|
  {
    if lexeme != [] {
      assert (lexeme + rest)[1..] == lexeme[1..] + rest;
      assert NumberChars(lexeme[1..]) by {
        forall i | 0 <= i < |lexeme| - 1 ensures IsNumberChar(lexeme[1..][i]) { assert lexeme[1..][i] == lexeme[i + 1]; }
      }
      NumberRunAppend(lexeme[1..], rest);
    } else {
      assert lexeme + rest == rest;
    }
  }

  lemma NumberRoundTrip(lexeme: string, rest: string)
    requires ValidNumber(lexeme) && Delimited(rest)
    ensures ParseNumber(lexeme + rest) == Success(Parsed(lexeme, rest))
  {
    ValidNumberChars(lexeme);
    NumberRunAppend(lexeme, rest);
    assert (lexeme + rest)[..|lexeme|] == lexeme;
    assert (lexeme + rest)[|lexeme|..] == rest;
  }

  lemma EscapeCharRoundTrip(c: char, tail: string)
    requires ParseStringBody(tail).Success?
    ensures ParseStringBody(EscapeChar(c) + tail)
         == Success(Parsed([c] + ParseStringBody(tail).value.value, ParseStringBody(tail).value.rest))
  {
    if c == '"' || c == '\\' || c == '\n' || c == '\r' || c == '\t' {
      ShortEscapeRoundTrip(c, tail);
    } else if c < ' ' {
      UnicodeEscapeRoundTrip(c, tail);
    } else {
      var s := EscapeChar(c) + tail;
      assert s[0] == c && s[1..] == tail;
    }
  }

  /** A character written as a backslash and one letter. */
  lemma ShortEscapeRoundTrip(c: char, tail: string)
    requires c == '"' || c == '\\' || c == '\n' || c == '\r' || c == '\t'
    requires ParseStringBody(tail).Success?
    ensures ParseStringBody(EscapeChar(c) + tail)
         == Success(Parsed([c] + ParseStringBody(tail).value.value, ParseStringBody(tail).value.rest))
  {
    var s := EscapeChar(c) + tail;
    var e := s[1..];
    assert s[0] == '\\' && e[0] == EscapeChar(c)[1];
    assert e[1..] == tail;
    assert ParseEscape(e) == Success(Parsed(c, tail));
  }

  /** A control character written as a `\u00XX` escape. */
  lemma UnicodeEscapeRoundTrip(c: char, tail: string)
    requires c < ' ' && c != '\n' && c != '\r' && c != '\t'
    requires ParseStringBody(tail).Success?
    ensures ParseStringBody(EscapeChar(c) + tail)
         == Success(Parsed([c] + ParseStringBody(tail).value.value, ParseStringBody(tail).value.rest))
  {
    var s := EscapeChar(c) + tail;
    var digits := ['0', '0', HexDigit(c as int / 16), HexDigit(c as int % 16)];
    var e := s[1..];
    assert s[0] == '\\';
    assert e == ['u'] + digits + tail;
    assert e[1..5] == digits && e[5..] == tail;
    ControlHex(c);
    UnicodeEscapeStep(e, c as int);
  }

  /** The four digits written for a control character read back as its code. */
  lemma ControlHex(c: char)
    requires c < ' '
    ensures Hex4(['0', '0', HexDigit(c as int / 16), HexDigit(c as int % 16)]) == Some(c as int)
  {
    assert c as int == (c as int / 16) * 16 + c as int % 16;
  }

  /** A `\u` escape of a code outside the surrogate range is that character. */
  lemma UnicodeEscapeStep(e: string, n: nat)
    requires |e| >= 5 && e[0] == 'u' && Hex4(e[1..5]) == Some(n) && !IsSurrogate(n)
    ensures ParseEscape(e) == Success(Parsed(n as char, e[5..]))
  {
  }

  lemma {:induction false} EscapeRoundTrip(s: string, rest: string)
    ensures ParseStringBody(Escape(s) + "\"" + rest) == Success(Parsed(s, rest))
  {
    if s == [] {
      assert Escape(s) + "\"" + rest == "\"" + rest;
    } else {
      var tail := Escape(s[1..]) + "\"" + rest;
      assert Escape(s) + "\"" + rest == EscapeChar(s[0]) + tail;
      EscapeRoundTrip(s[1..], rest);
      EscapeCharRoundTrip(s[0], tail);
      assert [s[0]] + s[1..] == s;
    }
  }

  lemma QuoteRoundTrip(s: string, rest: string)
    ensures Quote(s) + rest == "\"" + (Escape(s) + "\"" + rest)
    ensures ParseStringBody((Quote(s) + rest)[1..]) == Success(Parsed(s, rest))
  {
    var body := Escape(s) + "\"" + rest;
    assert Quote(s) + rest == "\"" + body;
    assert ("\"" + body)[1..] == body;
    EscapeRoundTrip(s, rest);
  }

  /** The first character `Serialize` writes is never whitespace. */
  lemma SerializeStart(v: Value)
    requires WellFormed(v)
    ensures Serialize(v) != []
    ensures var c := Serialize(v)[0];
      match v
      case Null => c == 'n'
      case Bool(b) => c == (if b then 't' else 'f')
      case Number(_) => c == '-' || IsDigit(c)
      case String(_) => c == '"'
      case Array(_) => c == '['
      case Object(_) => c == '{'
  {
    if v.Number? { ValidNumberChars(v.lexeme); }
  }

  lemma ConcatHead(a: string, b: string)
    requires a != []
    ensures (a + b) != [] && (a + b)[0] == a[0]
  {
  }

  /** How `ParseValue` dispatches on the first character, one case at a time. */
  lemma ParseValueOpen(s: string)
    requires s != [] && (s[0] == '{' || s[0] == '[' || s[0] == '"')
    ensures s[0] == '{' ==> ParseValue(s) == ParseObject(s[1..])
    ensures s[0] == '[' ==> ParseValue(s) == ParseArray(s[1..])
    ensures s[0] == '"' ==>
      ParseValue(s) == (var p :- ParseStringBody(s[1..]); Success(Parsed(String(p.value), p.rest)))
  {
    assert SkipWhitespace(s) == s;
  }

  lemma ParseValueNumber(s: string)
    requires s != [] && (s[0] == '-' || IsDigit(s[0]))
    ensures ParseValue(s) == (var p :- ParseNumber(s); Success(Parsed(Number(p.value), p.rest)))
  {
    assert !IsWhitespace(s[0]) && s[0] != '{' && s[0] != '[' && s[0] != '"';
    assert SkipWhitespace(s) == s;
  }

  lemma LiteralRoundTrip(v: Value, rest: string)
    requires v.Null? || v.Bool?
    ensures ParseValue(Serialize(v) + rest) == Success(Parsed(v, rest))
  {
    var s := Serialize(v) + rest;
    assert SkipWhitespace(s) == s;
    if v.Null? {
      assert "null" <= s && s[4..] == rest;
    } else if v.b {
      assert "true" <= s && s[4..] == rest;
    } else {
      assert "false" <= s && s[5..] == rest;
    }
  }

  lemma EmptyCloser(c: char, rest: string)
    ensures SkipWhitespace([c] + rest) == (if IsWhitespace(c) then SkipWhitespace(rest) else [c] + rest)
    ensures ([c] + rest)[0] == c && ([c] + rest)[1..] == rest
  {
    assert ([c] + rest)[1..] == rest;
  }

  lemma {:induction false} ValueRoundTrip(v: Value, rest: string)
    requires WellFormed(v) && Delimited(rest)
    ensures ParseValue(Serialize(v) + rest) == Success(Parsed(v, rest))
    decreases v, 2
  {
    match v
    case Null => LiteralRoundTrip(v, rest);
    case Bool(_) => LiteralRoundTrip(v, rest);
    case Number(lexeme) =>
      ValidNumberChars(lexeme);
      ConcatHead(lexeme, rest);
      ParseValueNumber(lexeme + rest);
      NumberRoundTrip(lexeme, rest);
    case String(text) =>
      var s := Quote(text) + rest;
      QuoteRoundTrip(text, rest);
      ParseValueOpen(s);
    case Array(items) =>
      ArrayRoundTrip(items, rest);
    case Object(members) =>
      ObjectRoundTrip(members, rest);
  }

  lemma {:induction false} ArrayRoundTrip(items: seq<Value>, rest: string)
    requires forall i | 0 <= i < |items| :: WellFormed(items[i])
    requires Delimited(rest)
    ensures ParseValue(Serialize(Array(items)) + rest) == Success(Parsed(Array(items), rest))
    decreases items, 2
  {
    var inner := SerializeItems(items) + "]" + rest;
    var s := Serialize(Array(items)) + rest;
    assert s == "[" + inner && s[0] == '[' && s[1..] == inner;
    ParseValueOpen(s);
    if items == [] {
      assert inner == "]" + rest;
      EmptyCloser(']', rest);
    } else {
      ItemsRoundTrip(items, rest);
    }
  }

  lemma {:induction false} ObjectRoundTrip(members: seq<Member>, rest: string)
    requires forall i | 0 <= i < |members| :: WellFormed(members[i].value)
    requires Delimited(rest)
    ensures ParseValue(Serialize(Object(members)) + rest) == Success(Parsed(Object(members), rest))
    decreases members, 2
  {
    var inner := SerializeMembers(members) + "}" + rest;
    var s := Serialize(Object(members)) + rest;
    assert s == "{" + inner && s[0] == '{' && s[1..] == inner;
    ParseValueOpen(s);
    if members == [] {
      assert inner == "}" + rest;
      EmptyCloser('}', rest);
    } else {
      MembersRoundTrip(members, rest);
    }
  }

  /** What `ParseElements` does once an element has been read and `after` follows it. */
  function ContinueItems(v: Value, after: string): ParseResult<seq<Value>>
    requires after != [] && (after[0] == ',' || after[0] == ']')
  {
    if after[0] == ']' then Success(Parsed([v], after[1..]))
    else var more :- ParseElements(after[1..]); Success(Parsed([v] + more.value, more.rest))
  }

  /** After one element, `ParseElements` looks at the next character only. */
  lemma ElementsStep(s: string, v: Value, after: string)
    requires ParseValue(s) == Success(Parsed(v, after))
    requires after != [] && (after[0] == ',' || after[0] == ']')
    ensures ParseElements(s) == ContinueItems(v, after)
  {
    assert SkipWhitespace(after) == after;
  }

  /** The text after the first element of an array. */
  function AfterFirstItem(items: seq<Value>, rest: string): string
    requires items != []
  {
    if |items| == 1 then "]" + rest
    else "," + (SerializeItems(items[1..]) + "]" + rest)
  }

  lemma SerializeItemsUnfold(items: seq<Value>, rest: string)
    requires items != []
    ensures SerializeItems(items) + "]" + rest == Serialize(items[0]) + AfterFirstItem(items, rest)
  {
    var first := Serialize(items[0]);
    if |items| == 1 {
      Assoc(first, "]", rest);
    } else {
      var tail := SerializeItems(items[1..]);
      calc {
        SerializeItems(items) + "]" + rest;
        ((first + ",") + tail) + "]" + rest;
        { Assoc(first + ",", tail, "]"); }
        (first + ",") + (tail + "]") + rest;
        { Assoc(first + ",", tail + "]", rest); }
        (first + ",") + (tail + "]" + rest);
        { Assoc(first, ",", tail + "]" + rest); }
        first + AfterFirstItem(items, rest);
      }
    }
  }

  lemma FirstItemParses(items: seq<Value>, rest: string)
    requires items != [] && forall i | 0 <= i < |items| :: WellFormed(items[i])
    requires Delimited(rest)
    ensures var s := SerializeItems(items) + "]" + rest;
      var after := AfterFirstItem(items, rest);
      SkipWhitespace(s) == s && s[0] != ']' && after != [] && (after[0] == ',' || after[0] == ']')
      && ParseElements(s) == ContinueItems(items[0], after)
    decreases items, 0
  {
    assert WellFormed(items[0]);
    SerializeItemsUnfold(items, rest);
    ItemParses(items[0], AfterFirstItem(items, rest));
  }

  /** One serialized element followed by `,` or `]` parses as that element. */
  lemma ItemParses(v: Value, after: string)
    requires WellFormed(v)
    requires after != [] && (after[0] == ',' || after[0] == ']')
    ensures var s := Serialize(v) + after;
      SkipWhitespace(s) == s && s[0] != ']' && ParseElements(s) == ContinueItems(v, after)
    decreases v, 3
  {
    var s := Serialize(v) + after;
    SerializeStart(v);
    ConcatHead(Serialize(v), after);
    assert !IsWhitespace(s[0]) && s[0] != ']';
    ValueRoundTrip(v, after);
    ElementsStep(s, v, after);
  }

  lemma {:induction false} ItemsRoundTrip(items: seq<Value>, rest: string)
    requires items != [] && forall i | 0 <= i < |items| :: WellFormed(items[i])
    requires Delimited(rest)
    ensures var s := SerializeItems(items) + "]" + rest;
      SkipWhitespace(s) == s && s[0] != ']' && ParseElements(s) == Success(Parsed(items, rest))
    decreases items, 1
  {
    FirstItemParses(items, rest);
    var after := AfterFirstItem(items, rest);
    if |items| == 1 {
      assert after == "]" + rest && after[1..] == rest;
      assert ContinueItems(items[0], after) == Success(Parsed([items[0]], rest));
      assert items == [items[0]];
    } else {
      ItemsTail(items, rest);
      assert ContinueItems(items[0], after) == Success(Parsed([items[0]] + items[1..], rest));
      assert [items[0]] + items[1..] == items;
    }
  }

  lemma {:induction false} ItemsTail(items: seq<Value>, rest: string)
    requires |items| > 1 && forall i | 0 <= i < |items| :: WellFormed(items[i])
    requires Delimited(rest)
    ensures var after := AfterFirstItem(items, rest);
      after[0] == ',' && ParseElements(after[1..]) == Success(Parsed(items[1..], rest))
    decreases items, 0
  {
    var after := AfterFirstItem(items, rest);
    assert after[1..] == SerializeItems(items[1..]) + "]" + rest;
    assert forall i | 0 <= i < |items[1..]| :: WellFormed(items[1..][i]) by {
      forall i | 0 <= i < |items[1..]| ensures WellFormed(items[1..][i]) { assert items[1..][i] == items[i + 1]; }
    }
    ItemsRoundTrip(items[1..], rest);
  }

  /** What `ParseMembers` does once a member has been read and `after` follows it. */
  function ContinueMembers(m: Member, after: string): ParseResult<seq<Member>>
    requires after != [] && (after[0] == ',' || after[0] == '}')
  {
    if after[0] == '}' then Success(Parsed([m], after[1..]))
    else var more :- ParseMembers(after[1..]); Success(Parsed([m] + more.value, more.rest))
  }

  /** After one member's value, `ParseMembers` looks at the next character only. */
  lemma MembersStep(s: string, key: string, afterKey: string, v: Value, after: string)
    requires s != [] && s[0] == '"' && SkipWhitespace(s) == s
    requires ParseStringBody(s[1..]) == Success(Parsed(key, afterKey))
    requires afterKey != [] && afterKey[0] == ':'
    requires ParseValue(afterKey[1..]) == Success(Parsed(v, after))
    requires after != [] && (after[0] == ',' || after[0] == '}')
    ensures ParseMembers(s) == ContinueMembers(Member(key, v), after)
  {
    assert SkipWhitespace(afterKey) == afterKey;
    assert SkipWhitespace(after) == after;
  }

  /** The text after the first member's key, and after its value. */
  function AfterFirstMember(members: seq<Member>, rest: string): string
    requires members != []
  {
    if |members| == 1 then "}" + rest
    else "," + (SerializeMembers(members[1..]) + "}" + rest)
  }

  lemma SerializeMembersUnfold(members: seq<Member>, rest: string)
    requires members != []
    ensures SerializeMembers(members) + "}" + rest
         == Quote(members[0].key) + (":" + (Serialize(members[0].value) + AfterFirstMember(members, rest)))
  {
    var key, value := Quote(members[0].key), Serialize(members[0].value);
    var closing := "}" + rest;
    if |members| == 1 {
      calc {
        SerializeMembers(members) + "}" + rest;
        ((key + ":") + value) + "}" + rest;
        { Assoc((key + ":") + value, "}", rest); }
        ((key + ":") + value) + closing;
        { Assoc(key + ":", value, closing); }
        (key + ":") + (value + closing);
        { Assoc(key, ":", value + closing); }
        key + (":" + (value + closing));
      }
    } else {
      var tail := SerializeMembers(members[1..]);
      var after := "," + (tail + "}" + rest);
      calc {
        SerializeMembers(members) + "}" + rest;
        ((((key + ":") + value) + ",") + tail) + "}" + rest;
        { Assoc(((key + ":") + value) + ",", tail, "}"); }
        (((key + ":") + value) + ",") + (tail + "}") + rest;
        { Assoc(((key + ":") + value) + ",", tail + "}", rest); }
        (((key + ":") + value) + ",") + (tail + "}" + rest);
        { Assoc((key + ":") + value, ",", tail + "}" + rest); }
        ((key + ":") + value) + after;
        { Assoc(key + ":", value, after); }
        (key + ":") + (value + after);
        { Assoc(key, ":", value + after); }
        key + (":" + (value + after));
      }
    }
  }

  lemma Assoc(a: string, b: string, c: string)
    ensures (a + b) + c == a + (b + c)
  {
  }

  /** One serialized member followed by `,` or `}` parses as that member. */
  lemma MemberParses(m: Member, after: string)
    requires WellFormed(m.value)
    requires after != [] && (after[0] == ',' || after[0] == '}')
    ensures var s := Quote(m.key) + (":" + (Serialize(m.value) + after));
      SkipWhitespace(s) == s && s[0] == '"' && ParseMembers(s) == ContinueMembers(m, after)
  {
    var s := Quote(m.key) + (":" + (Serialize(m.value) + after));
    var afterKey := ":" + (Serialize(m.value) + after);
    QuoteRoundTrip(m.key, afterKey);
    ConcatHead(Quote(m.key), afterKey);
    assert afterKey[1..] == Serialize(m.value) + after;
    ValueRoundTrip(m.value, after);
    MembersStep(s, m.key, afterKey, m.value, after);
  }

  lemma FirstMemberParses(members: seq<Member>, rest: string)
    requires members != [] && forall i | 0 <= i < |members| :: WellFormed(members[i].value)
    requires Delimited(rest)
    ensures var s := SerializeMembers(members) + "}" + rest;
      var after := AfterFirstMember(members, rest);
      SkipWhitespace(s) == s && s[0] == '"' && after != [] && (after[0] == ',' || after[0] == '}')
      && ParseMembers(s) == ContinueMembers(members[0], after)
    decreases members, 0
  {
    assert WellFormed(members[0].value);
    SerializeMembersUnfold(members, rest);
    MemberParses(members[0], AfterFirstMember(members, rest));
  }

  lemma {:induction false} MembersRoundTrip(members: seq<Member>, rest: string)
    requires members != [] && forall i | 0 <= i < |members| :: WellFormed(members[i].value)
    requires Delimited(rest)
    ensures var s := SerializeMembers(members) + "}" + rest;
      SkipWhitespace(s) == s && s[0] != '}' && ParseMembers(s) == Success(Parsed(members, rest))
    decreases members, 1
  {
    FirstMemberParses(members, rest);
    var after := AfterFirstMember(members, rest);
    if |members| == 1 {
      assert after == "}" + rest;
      assert after[1..] == rest;
      assert members == [members[0]];
    } else {
      MembersTail(members, rest);
      assert [members[0]] + members[1..] == members;
    }
  }

  lemma {:induction false} MembersTail(members: seq<Member>, rest: string)
    requires |members| > 1 && forall i | 0 <= i < |members| :: WellFormed(members[i].value)
    requires Delimited(rest)
    ensures var after := AfterFirstMember(members, rest);
      after[0] == ',' && ParseMembers(after[1..]) == Success(Parsed(members[1..], rest))
    decreases members, 0
  {
    var after := AfterFirstMember(members, rest);
    assert after[1..] == SerializeMembers(members[1..]) + "}" + rest;
    assert forall i | 0 <= i < |members[1..]| :: WellFormed(members[1..][i].value) by {
      forall i | 0 <= i < |members[1..]| ensures WellFormed(members[1..][i].value) {
        assert members[1..][i] == members[i + 1];
      }
    }
    MembersRoundTrip(members[1..], rest);
    assert [members[0]] + members[1..] == members;
  }

  /** Parsing a serialized well-formed value gives that value back. */
  lemma ParseSerializeRoundTrip(v: Value)
    requires WellFormed(v)
    ensures ParseJson(Serialize(v)) == Success(v)
  {
    ValueRoundTrip(v, "");
    assert Serialize(v) + "" == Serialize(v);
  }
}
