/**
 Scalars: what `yamlish.scalar` reads, what `render._yscalar` writes, and the proof that reading undoes
 writing for integers and for every double-quoted string.
 */
module YamlScalar {
  import opened Wrappers
  import opened YamlText

  /** A document value. Floats are kept as their digits (no underscores); a dict keeps its entry order. */
  datatype Value =
    | Null
    | Bool(b: bool)
    | Int(n: int)
    | Float(digits: string)
    | Str(s: string)
    | List(items: seq<Value>)
    | Dict(entries: seq<Pair>)

  datatype Pair = Pair(key: Value, value: Value)

  datatype Reason = UnterminatedString | BadEscape | FlowNotModelled

  // --- numbers --------------------------------------------------------------------------------

  predicate IsDigit(c: char) {
    '0' <= c <= '9'
  }

  function DigitValue(c: char): nat
    requires IsDigit(c)
  {
    c as int - '0' as int
  }

  function DigitChar(d: nat): (c: char)
    requires d < 10
    ensures IsDigit(c) && DigitValue(c) == d
  {
    ('0' as int + d) as char
  }

  predicate AllDigits(s: string) {
    forall i :: 0 <= i < |s| ==> IsDigit(s[i])
  }

  predicate AllDigitsOrUnderscores(s: string) {
    forall i :: 0 <= i < |s| ==> IsDigit(s[i]) || s[i] == '_'
  }

  function DropSign(s: string): string {
    if s != "" && (s[0] == '-' || s[0] == '+') then s[1..] else s
  }

  /** `[-+]?(0|[1-9][0-9_]*)` */
  predicate IsInt(s: string) {
    var t := DropSign(s);
    t == "0" || (t != "" && '1' <= t[0] <= '9' && AllDigitsOrUnderscores(t))
  }

  /** The number of leading characters that are digits or underscores. */
  function Run(s: string, underscores: bool): (n: nat)
    ensures n <= |s|
  {
    if s != "" && (IsDigit(s[0]) || (underscores && s[0] == '_')) then 1 + Run(s[1..], underscores) else 0
  }

  /** `([eE][-+]?[0-9]+)?` up to the end */
  predicate IsExponent(s: string) {
    s == "" || ((s[0] == 'e' || s[0] == 'E') && DropSign(s[1..]) != "" && AllDigits(DropSign(s[1..])))
  }

  /** `[-+]?([0-9][0-9_]*\.[0-9]*|\.[0-9]+|[0-9][0-9_]*)([eE][-+]?[0-9]+)?` */
  predicate IsFloat(s: string) {
    var t := DropSign(s);
    if t == "" then false
    else if t[0] == '.' then
      var n := Run(t[1..], false);
      n > 0 && IsExponent(t[1 + n..])
    else
      var n := Run(t, true);
      && IsDigit(t[0])
      && (if n < |t| && t[n] == '.' then IsExponent(t[n + 1 + Run(t[n + 1..], false)..]) else IsExponent(t[n..]))
  }

  function WithoutUnderscores(s: string): string {
    if s == "" then "" else (if s[0] == '_' then "" else [s[0]]) + WithoutUnderscores(s[1..])
  }

  function Natural(s: string): nat {
    if s == "" then 0
    else if IsDigit(s[|s| - 1]) then 10 * Natural(s[..|s| - 1]) + DigitValue(s[|s| - 1])
    else Natural(s[..|s| - 1])
  }

  function ParseInt(s: string): int {
    if s != "" && s[0] == '-' then 0 - Natural(s[1..]) else Natural(DropSign(s))
  }

  function NaturalText(n: nat): (s: string)
    ensures s != "" && AllDigits(s)
    ensures Natural(s) == n
    ensures s[0] == '0' ==> s == "0"
  {
    if n < 10 then [DigitChar(n)] else NaturalText(n / 10) + [DigitChar(n % 10)]
  }

  /** `json.dumps` of an integer. */
  function IntText(n: int): string {
    if n < 0 then "-" + NaturalText(-n) else NaturalText(n)
  }

  lemma IntReadsBack(n: int)
    ensures IsInt(IntText(n)) && ParseInt(IntText(n)) == n
  {
    var digits := NaturalText(if n < 0 then -n else n);
    assert IsDigit(digits[0]);
    assert DropSign(IntText(n)) == digits;
  }

  // --- double-quoted strings ------------------------------------------------------------------

  function Simple(code: char): Option<char> {
    match code
    case '0' => Some('\0')
    case 'a' => Some('\U{7}')
    case 'b' => Some('\U{8}')
    case 't' => Some('\t')
    case '\t' => Some('\t')
    case 'n' => Some('\n')
    case 'v' => Some('\U{B}')
    case 'f' => Some('\U{C}')
    case 'r' => Some('\r')
    case 'e' => Some('\U{1B}')
    case ' ' => Some(' ')
    case '"' => Some('"')
    case '/' => Some('/')
    case '\\' => Some('\\')
    case 'N' => Some('\U{85}')
    case '_' => Some('\U{A0}')
    case 'L' => Some('\U{2028}')
    case 'P' => Some('\U{2029}')
    case _ => None
  }

  /** The number of hex digits after `\x`, `\u` and `\U`; 0 for any other code. */
  function HexLength(code: char): nat {
    match code
    case 'x' => 2
    case 'u' => 4
    case 'U' => 8
    case _ => 0
  }

  function HexDigit(c: char): Option<nat> {
    if IsDigit(c) then Some(DigitValue(c))
    else if 'a' <= c <= 'f' then Some(10 + (c as int - 'a' as int))
    else if 'A' <= c <= 'F' then Some(10 + (c as int - 'A' as int))
    else None
  }

  function Hex(s: string): Option<nat> {
    if s == "" then Some(0)
    else
      match (Hex(s[..|s| - 1]), HexDigit(s[|s| - 1]))
      case (Some(n), Some(d)) => Some(16 * n + d)
      case _ => None
  }

  predicate IsScalarValue(n: nat) {
    n < 0xD800 || 0xE000 <= n < 0x11_0000
  }

  /** One step of `_unescape`: the character read and how much of a non-empty body it takes. */
  function ReadChar(body: string): (r: Option<(char, nat)>)
    requires body != ""
    ensures r.Some? ==> 0 < r.value.1 <= |body|
  {
    if body[0] != '\\' then Some((body[0], 1))
    else if |body| < 2 then None
    else
      var code := body[1];
      if Simple(code).Some? then Some((Simple(code).value, 2))
      else
        var k := HexLength(code);
        if k == 0 || |body| < 2 + k then None
        else
          match Hex(body[2..2 + k])
          case Some(n) => if IsScalarValue(n) then Some((n as char, 2 + k)) else None
          case None => None
  }

  /** `_unescape`; None is its "bad escape" error. */
  function Unescaped(body: string): Option<string>
    decreases |body|
  {
    if body == "" then Some("")
    else
      match ReadChar(body)
      case None => None
      case Some((c, k)) =>
        match Unescaped(body[k..])
        case None => None
        case Some(rest) => Some([c] + rest)
  }

  /** `_unterminated` from index `i` of a text that opens with the quote `q`. */
  predicate UnterminatedFrom(s: string, q: char, i: nat)
    decreases |s| - i
  {
    if i >= |s| then true
    else if q == '"' && s[i] == '\\' then UnterminatedFrom(s, q, i + 2)
    else if s[i] == q then
      if q == '\'' && i + 1 < |s| && s[i + 1] == '\'' then UnterminatedFrom(s, q, i + 2) else i != |s| - 1
    else UnterminatedFrom(s, q, i + 1)
  }

  function HexChar(d: nat): char
    requires d < 16
  {
    if d < 10 then DigitChar(d) else ('a' as int + (d - 10)) as char
  }

  predicate IsAstral(c: char) {
    c as int >= 0x1_0000
  }

  ghost predicate HasAstral(s: string) {
    exists c :: c in s && IsAstral(c)
  }

  /** `\\u` and four hex digits */
  function UEscape(n: nat): (e: string)
    requires n < 0x1_0000
    ensures |e| == 6 && e[0] == '\\' && e[1] == 'u'
    ensures forall k :: 2 <= k < 6 ==> HexDigit(e[k]).Some?
  {
    "\\u" + [HexChar(n / 4096), HexChar(n / 256 % 16), HexChar(n / 16 % 16), HexChar(n % 16)]
  }

  /** How `json.dumps(s, ensure_ascii=ascii)` writes one character; beyond 16 bits it writes a surrogate pair. */
  function EscapeChar(c: char, ascii: bool): (e: string)
    ensures e != ""
  {
    if c == '"' then "\\\""
    else if c == '\\' then "\\\\"
    else if c == '\n' then "\\n"
    else if c == '\r' then "\\r"
    else if c == '\t' then "\\t"
    else if c == '\U{8}' then "\\b"
    else if c == '\U{C}' then "\\f"
    else if c < ' ' then UEscape(c as int)
    else if !ascii || c <= '~' then [c]
    else if !IsAstral(c) then UEscape(c as int)
    else
      var v := c as int - 0x1_0000;
      UEscape(0xD800 + v / 0x400) + UEscape(0xDC00 + v % 0x400)
  }

  function Escaped(s: string, ascii: bool): string {
    if s == "" then "" else EscapeChar(s[0], ascii) + Escaped(s[1..], ascii)
  }

  /** `json.dumps(s, ensure_ascii=ascii)` */
  function Quoted(s: string, ascii: bool): string {
    "\"" + Escaped(s, ascii) + "\""
  }

  lemma HexOfChar(d: nat)
    requires d < 16
    ensures HexDigit(HexChar(d)) == Some(d)
  {
  }

  lemma HexMore(s: string, n: nat, c: char, d: nat)
    requires Hex(s) == Some(n) && HexDigit(c) == Some(d)
    ensures Hex(s + [c]) == Some(16 * n + d)
  {
    assert (s + [c])[..|s|] == s;
  }

  lemma HexOfDigits(a: nat, b: nat, c: nat, d: nat)
    requires a < 16 && b < 16 && c < 16 && d < 16
    ensures Hex([HexChar(a), HexChar(b), HexChar(c), HexChar(d)]) == Some(16 * (16 * (16 * a + b) + c) + d)
  {
    hide HexDigit, HexChar, Hex;
    HexOfChar(a);
    HexOfChar(b);
    HexOfChar(c);
    HexOfChar(d);
    assert Hex("") == Some(0) by { HexOfNothing(); }
    var s1, s2, s3 := "" + [HexChar(a)], [HexChar(a)] + [HexChar(b)], [HexChar(a), HexChar(b)] + [HexChar(c)];
    HexMore("", 0, HexChar(a), a);
    HexMore(s1, a, HexChar(b), b);
    assert s1 + [HexChar(b)] == s2;
    HexMore(s2, 16 * a + b, HexChar(c), c);
    assert s2 + [HexChar(c)] == s3;
    HexMore(s3, 16 * (16 * a + b) + c, HexChar(d), d);
    assert s3 + [HexChar(d)] == [HexChar(a), HexChar(b), HexChar(c), HexChar(d)];
  }

  lemma FourDigits(n: nat)
    requires n < 0x1_0000
    ensures 16 * (16 * (16 * (n / 4096) + n / 256 % 16) + n / 16 % 16) + n % 16 == n
  {
    OneDigit(n / 256);
    OneDigit(n / 16);
    OneDigit(n);
    assert n / 256 / 16 == n / 4096 && n / 16 / 16 == n / 256;
  }

  lemma OneDigit(n: nat)
    ensures 16 * (n / 16) + n % 16 == n
  {
  }

  lemma HexOfFour(n: nat)
    requires n < 0x1_0000
    ensures Hex(UEscape(n)[2..]) == Some(n)
  {
    hide HexChar, Hex;
    HexOfDigits(n / 4096, n / 256 % 16, n / 16 % 16, n % 16);
    FourDigits(n);
    assert UEscape(n)[2..] == [HexChar(n / 4096), HexChar(n / 256 % 16), HexChar(n / 16 % 16), HexChar(n % 16)];
  }

  lemma HexOfNothing()
    ensures Hex("") == Some(0)
  {
  }

  lemma ReadUEscape(n: nat, tail: string)
    requires n < 0x1_0000
    ensures ReadChar(UEscape(n) + tail) == if IsScalarValue(n) then Some((n as char, 6)) else None
  {
    hide Hex;
    var e := UEscape(n) + tail;
    HexOfFour(n);
    assert e[0] == '\\' && e[1] == 'u' && e[2..6] == UEscape(n)[2..];
  }

  /** A character is read back from its escaped form, unless that is a surrogate pair. */
  lemma ReadEscapedChar(c: char, ascii: bool, tail: string)
    ensures ReadChar(EscapeChar(c, ascii) + tail) ==
              if ascii && IsAstral(c) then None else Some((c, |EscapeChar(c, ascii)|))
  {
    hide Hex, UEscape;
    var e := EscapeChar(c, ascii) + tail;
    assert e[0] == EscapeChar(c, ascii)[0];
    if c in {'"', '\\', '\n', '\r', '\t', '\U{8}', '\U{C}'} {
      assert e[1] == EscapeChar(c, ascii)[1];
    } else if c < ' ' || (ascii && c > '~' && !IsAstral(c)) {
      ReadUEscape(c as int, tail);
    } else if ascii && c > '~' {
      var v := c as int - 0x1_0000;
      ReadUEscape(0xD800 + v / 0x400, UEscape(0xDC00 + v % 0x400) + tail);
      assert e == UEscape(0xD800 + v / 0x400) + (UEscape(0xDC00 + v % 0x400) + tail);
    }
  }

  /** `_unescape` undoes the JSON escaping of every string; in ASCII, of every string without characters beyond 16
      bits. */
  lemma {:induction false} UnescapeUndoesEscape(s: string, ascii: bool)
    ensures Unescaped(Escaped(s, ascii)) == if ascii && HasAstral(s) then None else Some(s)
  {
    hide ReadChar, EscapeChar;
    if s != "" {
      var e, rest := EscapeChar(s[0], ascii), Escaped(s[1..], ascii);
      ReadEscapedChar(s[0], ascii, rest);
      assert Escaped(s, ascii) == e + rest && Escaped(s, ascii)[|e|..] == rest;
      UnescapeUndoesEscape(s[1..], ascii);
      assert [s[0]] + s[1..] == s;
      assert HasAstral(s) <==> IsAstral(s[0]) || HasAstral(s[1..]) by { AstralOrLater(s); }
    }
  }

  lemma AstralOrLater(s: string)
    requires s != ""
    ensures HasAstral(s) <==> IsAstral(s[0]) || HasAstral(s[1..])
  {
    assert s == [s[0]] + s[1..];
    if HasAstral(s) {
      var c :| c in s && IsAstral(c);
      assert c == s[0] || c in s[1..];
    }
    if HasAstral(s[1..]) {
      var c :| c in s[1..] && IsAstral(c);
      assert c in s;
    }
  }

  /** Nothing but a quote or a backslash matters to `_unterminated`. */
  lemma {:induction false} PassOver(t: string, i: nat, j: nat)
    requires i <= j <= |t| && forall k :: i <= k < j ==> t[k] != '"' && t[k] != '\\'
    ensures UnterminatedFrom(t, '"', i) == UnterminatedFrom(t, '"', j)
    decreases j - i
  {
    if i < j {
      PassOver(t, i + 1, j);
    }
  }

  /** What `_unterminated` makes of one escape sequence. */
  lemma PassUEscape(t: string, i: nat, n: nat)
    requires n < 0x1_0000 && i + 6 <= |t| && t[i..i + 6] == UEscape(n)
    ensures UnterminatedFrom(t, '"', i) == UnterminatedFrom(t, '"', i + 6)
  {
    hide UEscape;
    var e := UEscape(n);
    assert forall k :: 0 <= k < 6 ==> t[i + k] == e[k];
    assert UnterminatedFrom(t, '"', i) == UnterminatedFrom(t, '"', i + 2);
    forall k | i + 2 <= k < i + 6 ensures t[k] != '"' && t[k] != '\\' {
      assert HexDigit(e[k - i]).Some?;
    }
    PassOver(t, i + 2, i + 6);
  }

  lemma PassEscape(t: string, i: nat, c: char, ascii: bool)
    requires var e := EscapeChar(c, ascii); i + |e| <= |t| && t[i..i + |e|] == e
    ensures UnterminatedFrom(t, '"', i) == UnterminatedFrom(t, '"', i + |EscapeChar(c, ascii)|)
  {
    hide UEscape;
    var e := EscapeChar(c, ascii);
    assert t[i] == e[0];
    if c < ' ' && |e| == 6 {
      PassUEscape(t, i, c as int);
    } else if ascii && c > '~' {
      assert t[i..i + 6] == e[..6];
      if IsAstral(c) {
        var v := c as int - 0x1_0000;
        PassUEscape(t, i, 0xD800 + v / 0x400);
        assert t[i + 6..i + 12] == e[6..];
        PassUEscape(t, i + 6, 0xDC00 + v % 0x400);
      } else {
        PassUEscape(t, i, c as int);
      }
    }
  }

  /** The closing quote that `_unterminated` looks for is the one after the escaped text. */
  lemma {:induction false} QuotedTerminates(p: string, s: string, ascii: bool)
    ensures !UnterminatedFrom(p + Escaped(s, ascii) + "\"", '"', |p|)
    decreases |s|
  {
    hide EscapeChar;
    var t := p + Escaped(s, ascii) + "\"";
    if s == "" {
      assert t[|p|] == '"';
    } else {
      var e := EscapeChar(s[0], ascii);
      assert t == p + e + Escaped(s[1..], ascii) + "\"";
      assert t[|p|..|p| + |e|] == e;
      PassEscape(t, |p|, s[0], ascii);
      QuotedTerminates(p + e, s[1..], ascii);
    }
  }

  // --- single-quoted strings ------------------------------------------------------------------

  function HalveQuotes(s: string): string
    decreases |s|
  {
    if s == "" then ""
    else if |s| > 1 && s[0] == '\'' && s[1] == '\'' then "'" + HalveQuotes(s[2..])
    else [s[0]] + HalveQuotes(s[1..])
  }

  /** A string with every single quote doubled. */
  function DoubleQuotes(s: string): string {
    if s == "" then "" else (if s[0] == '\'' then ['\'', '\''] else [s[0]]) + DoubleQuotes(s[1..])
  }

  lemma {:induction false} HalvingUndoesDoubling(s: string)
    ensures HalveQuotes(DoubleQuotes(s)) == s
  {
    if s != "" {
      HalvingUndoesDoubling(s[1..]);
      var rest := DoubleQuotes(s[1..]);
      if s[0] == '\'' {
        HalvePair(rest);
      } else {
        HalveOther(s[0], rest);
      }
    }
  }

  lemma HalvePair(rest: string)
    ensures HalveQuotes(['\'', '\''] + rest) == ['\''] + HalveQuotes(rest)
  {
    assert (['\'', '\''] + rest)[2..] == rest;
  }

  lemma HalveOther(ch: char, rest: string)
    requires ch != '\''
    ensures HalveQuotes([ch] + rest) == [ch] + HalveQuotes(rest)
  {
    assert ([ch] + rest)[1..] == rest;
  }

  // --- scalar ---------------------------------------------------------------------------------

  /** `scalar`. Flow collections other than `[]` and `{}` are reported as not modelled. */
  function Scalar(text: string): Result<Value, Reason> {
    var s := Strip(text);
    if s == "" then Ok(Null)
    else if s[0] == '"' then
      if s[|s| - 1] != '"' || |s| < 2 || UnterminatedFrom(s, '"', 1) then Err(UnterminatedString)
      else
        match Unescaped(s[1..|s| - 1])
        case Some(t) => Ok(Str(t))
        case None => Err(BadEscape)
    else if s[0] == '\'' then
      if s[|s| - 1] != '\'' || |s| < 2 then Err(UnterminatedString) else Ok(Str(HalveQuotes(s[1..|s| - 1])))
    else if s[0] == '[' || s[0] == '{' then
      if s == "[]" then Ok(List([])) else if s == "{}" then Ok(Dict([])) else Err(FlowNotModelled)
    else if s == "null" || s == "Null" || s == "NULL" || s == "~" then Ok(Null)
    else if s == "true" || s == "True" || s == "TRUE" then Ok(Bool(true))
    else if s == "false" || s == "False" || s == "FALSE" then Ok(Bool(false))
    else if IsInt(BeforeDollar(s)) then Ok(Int(ParseInt(WithoutUnderscores(BeforeDollar(s)))))
    else if IsFloat(BeforeDollar(s)) then Ok(Float(WithoutUnderscores(BeforeDollar(s))))
    else Ok(Str(s))
  }

  /** Reading undoes the quoted form of every string, whatever characters it holds; in ASCII, without characters beyond
      16 bits. */
  lemma QuotedReadsBack(s: string, ascii: bool)
    ensures Scalar(Quoted(s, ascii)) == if ascii && HasAstral(s) then Err(BadEscape) else Ok(Str(s))
  {
    hide HasAstral;
    var t := Quoted(s, ascii);
    StripTrimmed(t);
    QuotedTerminates("\"", s, ascii);
    assert t[1..|t| - 1] == Escaped(s, ascii);
    UnescapeUndoesEscape(s, ascii);
  }

  /** The single-quoted form of any string, its single quotes doubled, reads back as it. */
  lemma SingleQuotedReadsBack(s: string)
    ensures Scalar(['\''] + DoubleQuotes(s) + ['\'']) == Ok(Str(s))
  {
    hide HalveQuotes, DoubleQuotes, Unescaped, UnterminatedFrom, IsInt, IsFloat;
    var t := ['\''] + DoubleQuotes(s) + ['\''];
    StripTrimmed(t);
    assert t[1..|t| - 1] == DoubleQuotes(s);
    HalvingUndoesDoubling(s);
  }

  /** Which texts are words for null, true and false: four, three and three, in three ways of capitals. */
  lemma KeywordsRead(text: string)
    requires text == Strip(text)
    ensures Scalar(text) == Ok(Null) <==>
              text == "" || text == "null" || text == "Null" || text == "NULL" || text == "~"
    ensures Scalar(text) == Ok(Bool(true)) <==> text == "true" || text == "True" || text == "TRUE"
    ensures Scalar(text) == Ok(Bool(false)) <==> text == "false" || text == "False" || text == "FALSE"
  {
    hide HalveQuotes, Unescaped, UnterminatedFrom, IsInt, IsFloat, Strip;
  }

  // --- escapes that the emitter never writes ------------------------------------------------------------------------

  /** `n` in `k` hex digits. */
  function HexText(n: nat, k: nat): (r: string)
    ensures |r| == k
  {
    if k == 0 then "" else HexText(n / 16, k - 1) + [HexChar(n % 16)]
  }

  /** How many numbers `k` hex digits can tell apart. */
  function Hexes(k: nat): nat {
    if k == 0 then 1 else 16 * Hexes(k - 1)
  }

  lemma {:induction false} HexTextReads(n: nat, k: nat)
    requires n < Hexes(k)
    ensures Hex(HexText(n, k)) == Some(n)
    decreases k
  {
    hide HexChar, HexDigit;
    if k > 0 {
      assert n / 16 < Hexes(k - 1);
      HexTextReads(n / 16, k - 1);
      HexOfChar(n % 16);
      HexMore(HexText(n / 16, k - 1), n / 16, HexChar(n % 16), n % 16);
    }
  }

  lemma HexesAre()
    ensures Hexes(2) == 0x100 && Hexes(4) == 0x1_0000 && Hexes(8) == 0x1_0000_0000
  {
    assert Hexes(3) == 0x1000 && Hexes(5) == 0x10_0000 && Hexes(6) == 0x100_0000 && Hexes(7) == 0x1000_0000;
  }

  lemma OneRead(body: string, c: char)
    requires body != "" && ReadChar(body) == Some((c, |body|))
    ensures Unescaped(body) == Some([c])
  {
    hide ReadChar;
    assert body[|body|..] == "" && Unescaped("") == Some("") && [c] + "" == [c];
  }

  lemma CodeReads(code: char, k: nat, c: char)
    requires (code == 'x' && k == 2) || (code == 'u' && k == 4) || (code == 'U' && k == 8)
    requires c as int < Hexes(k)
    ensures Unescaped(['\\', code] + HexText(c as int, k)) == Some([c])
  {
    hide Hexes, HexText, Hex, Unescaped;
    var digits := HexText(c as int, k);
    var body := ['\\', code] + digits;
    HexTextReads(c as int, k);
    assert body[2..2 + k] == digits;
    OneRead(body, c);
  }

  /** Every character is read from its code in eight hex digits, and from four or two where those are enough. */
  lemma CodesRead(c: char)
    ensures Unescaped(['\\', 'U'] + HexText(c as int, 8)) == Some([c])
    ensures c as int < 0x1_0000 ==> Unescaped(['\\', 'u'] + HexText(c as int, 4)) == Some([c])
    ensures c as int < 0x100 ==> Unescaped(['\\', 'x'] + HexText(c as int, 2)) == Some([c])
  {
    hide Hexes, HexText, Unescaped;
    HexesAre();
    CodeReads('U', 8, c);
    if c as int < 0x1_0000 {
      CodeReads('u', 4, c);
    }
    if c as int < 0x100 {
      CodeReads('x', 2, c);
    }
  }

  /** The escapes by name, and what they stand for, in the same order. */
  const NAMES := "0abt\tnvfre \"/\\N_LP"
  const MEANT := "\0\U{7}\U{8}\t\t\n\U{B}\U{C}\r\U{1B} \"/\\\U{85}\U{A0}\U{2028}\U{2029}"

  /** A backslash and one more character is an escape exactly if it is one of the names. */
  lemma NamedEscapesRead(code: char)
    ensures |NAMES| == |MEANT|
    ensures forall i :: 0 <= i < |NAMES| && NAMES[i] == code ==> Unescaped(['\\', code]) == Some([MEANT[i]])
    ensures code !in NAMES ==> Unescaped(['\\', code]).None?
  {
    hide Unescaped, Simple, HexLength;
    var body := ['\\', code];
    NamesAre(code);
    if Simple(code).Some? {
      OneRead(body, Simple(code).value);
    } else {
      NoneRead(body) by { ShortHex(code); }
    }
  }

  lemma NamesAre(code: char)
    ensures |NAMES| == |MEANT| && (Simple(code).Some? <==> code in NAMES)
    ensures forall i :: 0 <= i < |NAMES| && NAMES[i] == code ==> Simple(code) == Some(MEANT[i])
  {
    if Simple(code).Some? {
      IsName(code);
    }
    forall i | 0 <= i < |NAMES| && NAMES[i] == code ensures Simple(code) == Some(MEANT[i]) {
      NameMeans(i);
    }
    if code in NAMES {
      var i :| 0 <= i < |NAMES| && NAMES[i] == code;
      NameMeans(i);
    }
  }

  lemma NameMeans(i: nat)
    requires i < |NAMES|
    ensures |NAMES| == |MEANT| && Simple(NAMES[i]) == Some(MEANT[i])
  {
  }

  lemma IsName(code: char)
    requires Simple(code).Some?
    ensures code in NAMES
  {
  }

  lemma ShortHex(code: char)
    requires Simple(code).None?
    ensures ReadChar(['\\', code]).None?
  {
  }

  lemma NoneRead(body: string)
    requires body != "" && ReadChar(body).None?
    ensures Unescaped(body).None?
  {
  }
}
