/** The JSON text of a value, as Python's `json.dumps` writes it with its
    default settings (separators ", " and ": ", `ensure_ascii`), and a parser
    for JSON text restricted to integer numbers (`json.loads`, completed in
    `JsonRoundTrip`). */
module JsonText {
  import opened Wrappers
  import opened JsonData

  // ---------------------------------------------------------------- digits

  predicate IsDigit(c: char)
  {
    '0' <= c <= '9'
  }

  predicate IsHexDigit(c: char)
  {
    IsDigit(c) || 'a' <= c <= 'f' || 'A' <= c <= 'F'
  }

  /** The value of a decimal or hexadecimal digit. */
  function DigitValue(c: char): (d: nat)
    requires IsHexDigit(c)
    ensures IsDigit(c) ==> d < 10
    ensures d < 16
  {
    if IsDigit(c) then c as int - '0' as int
    else if 'a' <= c <= 'f' then c as int - 'a' as int + 10
    else c as int - 'A' as int + 10
  }

  /** The number that a digit string denotes in base `base`, most significant first. */
  function NumberValue(ds: string, base: nat): nat
    requires forall k :: 0 <= k < |ds| ==> IsHexDigit(ds[k])
  {
    if ds == [] then 0
    else NumberValue(ds[..|ds| - 1], base) * base + DigitValue(ds[|ds| - 1])
  }

  lemma {:induction false} HexValueBound(ds: string)
    requires forall k :: 0 <= k < |ds| ==> IsHexDigit(ds[k])
    ensures NumberValue(ds, 16) < Pow(16, |ds|)
  {
    if ds != [] {
      HexValueBound(ds[..|ds| - 1]);
    }
  }

  function DecimalDigit(d: nat): (c: char)
    requires d < 10
    ensures IsDigit(c) && DigitValue(c) == d
  {
    "0123456789"[d]
  }

  /** Python's lower-case hexadecimal digits. */
  function HexDigit(d: nat): (c: char)
    requires d < 16
    ensures IsHexDigit(c) && DigitValue(c) == d
  {
    "0123456789abcdef"[d]
  }

  /** `str(n)` for a natural number. */
  function NatText(n: nat): (r: string)
    ensures r != [] && forall k :: 0 <= k < |r| ==> IsDigit(r[k])
  {
    if n < 10 then [DecimalDigit(n)] else NatText(n / 10) + [DecimalDigit(n % 10)]
  }

  /** `str(i)` for an integer. */
  function IntText(i: int): (r: string)
    ensures r != [] && forall k :: 0 <= k < |r| ==> r[k] == '-' || IsDigit(r[k])
  {
    if i < 0 then "-" + NatText(-i) else NatText(i)
  }

  function Pow(b: nat, k: nat): nat
  {
    if k == 0 then 1 else b * Pow(b, k - 1)
  }

  /** `format(n, '0<width>x')` for a number that fits in `width` digits. */
  function HexDigits(n: nat, width: nat): (r: string)
    requires n < Pow(16, width)
    ensures |r| == width && forall k :: 0 <= k < |r| ==> IsHexDigit(r[k])
  {
    if width == 0 then [] else HexDigits(n / 16, width - 1) + [HexDigit(n % 16)]
  }

  // ---------------------------------------------------------------- writing

  /** Every character is printable ASCII, from space to `~`: what
      `ensure_ascii` guarantees of the text `json.dumps` writes. */
  predicate IsPrintableAscii(s: string)
  {
    forall k :: 0 <= k < |s| ==> ' ' <= s[k] <= '~'
  }

  lemma PrintableConcat(a: string, b: string)
    requires IsPrintableAscii(a) && IsPrintableAscii(b)
    ensures IsPrintableAscii(a + b)
  {
    assert forall k :: |a| <= k < |a + b| ==> (a + b)[k] == b[k - |a|];
  }

  /** The escape that `json.dumps` writes for one character of a string. */
  function EscapeChar(c: char): (r: string)
    ensures IsPrintableAscii(r)
  {
    if c == '"' then "\\\""
    else if c == '\\' then "\\\\"
    else if c == '\n' then "\\n"
    else if c == '\r' then "\\r"
    else if c == '\t' then "\\t"
    else if c as int == 8 then "\\b"
    else if c as int == 12 then "\\f"
    else if ' ' <= c <= '~' then [c]
    else if c as int < 0x1_0000 then "\\u" + HexDigits(c as int, 4)
    else
      var v := c as int - 0x1_0000;
      "\\u" + HexDigits(0xD800 + v / 0x400, 4) + "\\u" + HexDigits(0xDC00 + v % 0x400, 4)
  }

  /** The escaped text of a string: printable ASCII, whatever the string
      holds. */
  function Escape(s: string): (r: string)
    ensures IsPrintableAscii(r)
  {
    if s == [] then []
    else
      var r := EscapeChar(s[0]) + Escape(s[1..]);
      PrintableConcat(EscapeChar(s[0]), Escape(s[1..]));
      r
  }

  function Quote(s: string): (r: string)
    ensures IsPrintableAscii(r)
  {
    PrintableConcat("\"", Escape(s));
    PrintableConcat("\"" + Escape(s), "\"");
    "\"" + Escape(s) + "\""
  }

  /** `json.dumps(j)`: a non-empty text of printable ASCII characters (its
      partner, the parser `JsonRoundTrip.Decode`, reads it back as `j`). */
  function Serialize(j: Json): (r: string)
    ensures r != [] && IsPrintableAscii(r)
  {
    match j
    case JNull => "null"
    case JBool(b) => if b then "true" else "false"
    case JInt(i) => IntText(i)
    case JStr(s) => Quote(s)
    case JArr(items) =>
      PrintableConcat("[", SerializeItems(items));
      PrintableConcat("[" + SerializeItems(items), "]");
      "[" + SerializeItems(items) + "]"
    case JObj(members) =>
      PrintableConcat("{", SerializeMembers(members));
      PrintableConcat("{" + SerializeMembers(members), "}");
      "{" + SerializeMembers(members) + "}"
  }

  function SerializeItems(items: seq<Json>): (r: string)
    ensures IsPrintableAscii(r)
  {
    if items == [] then ""
    else if |items| == 1 then Serialize(items[0])
    else
      PrintableConcat(Serialize(items[0]), ", ");
      PrintableConcat(Serialize(items[0]) + ", ", SerializeItems(items[1..]));
      Serialize(items[0]) + ", " + SerializeItems(items[1..])
  }

  function SerializeMembers(members: Members): (r: string)
    ensures IsPrintableAscii(r)
  {
    if members == [] then ""
    else
      var m := members[0];
      assert m in members && m.1 < m;
      PrintableConcat(Quote(m.0), ": ");
      PrintableConcat(Quote(m.0) + ": ", Serialize(m.1));
      var entry := Quote(m.0) + ": " + Serialize(m.1);
      if |members| == 1 then entry
      else
        PrintableConcat(entry, ", ");
        PrintableConcat(entry + ", ", SerializeMembers(members[1..]));
        entry + ", " + SerializeMembers(members[1..])
  }

  // ---------------------------------------------------------------- reading

  predicate IsWs(c: char)
  {
    c == ' ' || c == '\t' || c == '\n' || c == '\r'
  }

  function SkipWs(s: string): (r: string)
    ensures |r| <= |s|
  {
    if s != [] && IsWs(s[0]) then SkipWs(s[1..]) else s
  }

  /** The four hexadecimal digits at the start of `s`, if they are there. */
  function Hex4(s: string): (r: Option<nat>)
    ensures r.Some? ==> r.value < 0x1_0000
  {
    if |s| >= 4 && forall k :: 0 <= k < 4 ==> IsHexDigit(s[k]) then
      HexValueBound(s[..4]);
      Some(NumberValue(s[..4], 16))
    else None
  }

  predicate IsHighSurrogate(n: int)
  {
    0xD800 <= n < 0xDC00
  }

  predicate IsLowSurrogate(n: int)
  {
    0xDC00 <= n < 0xE000
  }

  /** The characters of a string literal after its opening quote, appended to
      `acc`, and the text after its closing quote. */
  function ParseChars(s: string, acc: string): (r: Option<(string, string)>)
    ensures r.Some? ==> |r.value.1| < |s|
    decreases |s|
  {
    if s == [] then None
    else if s[0] == '"' then Some((acc, s[1..]))
    else if s[0] == '\\' then
      if |s| < 2 then None
      else if s[1] == '"' || s[1] == '\\' || s[1] == '/' then ParseChars(s[2..], acc + [s[1]])
      else if s[1] == 'b' then ParseChars(s[2..], acc + [8 as char])
      else if s[1] == 'f' then ParseChars(s[2..], acc + [12 as char])
      else if s[1] == 'n' then ParseChars(s[2..], acc + ['\n'])
      else if s[1] == 'r' then ParseChars(s[2..], acc + ['\r'])
      else if s[1] == 't' then ParseChars(s[2..], acc + ['\t'])
      else if s[1] != 'u' then None
      else
        match Hex4(s[2..])
        case None => None
        case Some(hi) =>
          if IsLowSurrogate(hi) then None
          else if !IsHighSurrogate(hi) then ParseChars(s[6..], acc + [hi as char])
          else if |s| < 8 || s[6] != '\\' || s[7] != 'u' then None
          else
            match Hex4(s[8..])
            case None => None
            case Some(lo) =>
              if !IsLowSurrogate(lo) then None
              else ParseChars(s[12..], acc + [((hi - 0xD800) * 0x400 + (lo - 0xDC00) + 0x1_0000) as char])
    else if s[0] as int < 0x20 then None
    else ParseChars(s[1..], acc + [s[0]])
  }

  /** The length of the run of decimal digits at the start of `s`. */
  function DigitRun(s: string): (n: nat)
    ensures n <= |s| && forall k :: 0 <= k < n ==> IsDigit(s[k])
    ensures n < |s| ==> !IsDigit(s[n])
  {
    if s != [] && IsDigit(s[0]) then
      var n := 1 + DigitRun(s[1..]);
      assert forall k :: 1 <= k < n ==> s[k] == s[1..][k - 1];
      n
    else 0
  }

  /** An integer: an optional minus sign and either `0` or digits not starting with `0`. */
  function ParseInt(s: string): (r: Option<(Json, string)>)
    ensures r.Some? ==> |r.value.1| < |s|
  {
    var neg := s != [] && s[0] == '-';
    var u := if neg then s[1..] else s;
    var n := if u != [] && u[0] == '0' then 1 else DigitRun(u);
    if n == 0 then None
    else
      var v: int := NumberValue(u[..n], 10);
      Some((JInt(if neg then -v else v), u[n..]))
  }

  function ParseLiteral(s: string, word: string, v: Json): (r: Option<(Json, string)>)
    requires word != []
    ensures r.Some? ==> |r.value.1| < |s|
  {
    if |word| <= |s| && s[..|word|] == word then Some((v, s[|word|..])) else None
  }

  /** One JSON value after optional white space, and the text after it. */
  function ParseValue(s: string): (r: Option<(Json, string)>)
    ensures r.Some? ==> |r.value.1| < |s|
    decreases |s|, 0
  {
    var t := SkipWs(s);
    if t == [] then None
    else if t[0] == 'n' then ParseLiteral(t, "null", JNull)
    else if t[0] == 't' then ParseLiteral(t, "true", JBool(true))
    else if t[0] == 'f' then ParseLiteral(t, "false", JBool(false))
    else if t[0] == '-' || IsDigit(t[0]) then ParseInt(t)
    else if t[0] == '"' then
      match ParseChars(t[1..], [])
      case None => None
      case Some((str, rest)) => Some((JStr(str), rest))
    else if t[0] == '[' then ParseArray(t[1..])
    else if t[0] == '{' then ParseObject(t[1..])
    else None
  }

  /** The rest of an array after its `[`. */
  function ParseArray(s: string): (r: Option<(Json, string)>)
    ensures r.Some? ==> |r.value.1| < |s|
    decreases |s|, 2
  {
    var t := SkipWs(s);
    if t != [] && t[0] == ']' then Some((JArr([]), t[1..])) else ParseItems(t, [])
  }

  /** The elements of a non-empty array, appended to `acc`, and the text after its `]`. */
  function ParseItems(s: string, acc: seq<Json>): (r: Option<(Json, string)>)
    ensures r.Some? ==> |r.value.1| < |s|
    decreases |s|, 1
  {
    match ParseValue(s)
    case None => None
    case Some((v, rest)) =>
      var u := SkipWs(rest);
      if u == [] then None
      else if u[0] == ',' then ParseItems(u[1..], acc + [v])
      else if u[0] == ']' then Some((JArr(acc + [v]), u[1..]))
      else None
  }

  /** The rest of an object after its `{`. */
  function ParseObject(s: string): (r: Option<(Json, string)>)
    ensures r.Some? ==> |r.value.1| < |s|
    decreases |s|, 2
  {
    var t := SkipWs(s);
    if t != [] && t[0] == '}' then Some((JObj([]), t[1..])) else ParseMembers(t, [])
  }

  /** The members of a non-empty object, appended to `acc`, and the text after its `}`. */
  function ParseMembers(s: string, acc: Members): (r: Option<(Json, string)>)
    ensures r.Some? ==> |r.value.1| < |s|
    decreases |s|, 1
  {
    var t := SkipWs(s);
    if t == [] || t[0] != '"' then None
    else
      match ParseChars(t[1..], [])
      case None => None
      case Some((key, r1)) =>
        var u := SkipWs(r1);
        if u == [] || u[0] != ':' then None
        else
          match ParseValue(u[1..])
          case None => None
          case Some((v, r2)) =>
            var w := SkipWs(r2);
            if w == [] then None
            else if w[0] == ',' then ParseMembers(w[1..], acc + [(key, v)])
            else if w[0] == '}' then Some((JObj(acc + [(key, v)]), w[1..]))
            else None
  }
}
