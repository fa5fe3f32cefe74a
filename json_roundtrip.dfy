/** What `json.dumps` writes is read back by the parser of `JsonText` as the
    same value: `Decode(Serialize(j)) == Some(j)` for every value. */
module JsonRoundTrip {
  import opened Wrappers
  import opened JsonData
  import opened JsonText

  // ---------------------------------------------------------------- text

  // Proof hints, not properties of the model: sequence facts the solver
  // needs spelt out where the proofs below take texts apart
  // (`SplitAt`, `Regroup`, `DropFirst`, `DropComma`, `AppendFirst`, and
  // `EmptyAppend` further down).

  lemma SplitAt(a: string, b: string)
    ensures (a + b)[..|a|] == a && (a + b)[|a|..] == b
    ensures forall m :: 0 <= m < |a| ==> (a + b)[m] == a[m]
  {
  }

  lemma Regroup(a: string, b: string, c: string)
    ensures a + b + c == a + (b + c)
  {
  }

  lemma DropFirst(c: char, t: string)
    ensures ([c] + t)[1..] == t
  {
  }

  lemma DropComma(t: string)
    ensures (", " + t)[1..] == " " + t
  {
  }

  lemma AppendFirst<T>(acc: seq<T>, xs: seq<T>)
    requires xs != []
    ensures acc + [xs[0]] + xs[1..] == acc + xs
  {
  }

  // ---------------------------------------------------------------- numbers

  lemma {:induction false} HexDigitsValue(n: nat, width: nat)
    requires n < Pow(16, width)
    ensures NumberValue(HexDigits(n, width), 16) == n
  {
    if width > 0 {
      var r := HexDigits(n, width);
      HexDigitsValue(n / 16, width - 1);
      assert r[..|r| - 1] == HexDigits(n / 16, width - 1);
    }
  }

  lemma Hex4After(n: nat, t: string)
    requires n < 0x1_0000
    ensures Hex4(HexDigits(n, 4) + t) == Some(n)
  {
    var h := HexDigits(n, 4);
    assert (h + t)[..4] == h;
    HexDigitsValue(n, 4);
  }

  lemma {:induction false} NatTextValue(n: nat)
    ensures NumberValue(NatText(n), 10) == n
    ensures NatText(n)[0] == '0' ==> n == 0
  {
    if n >= 10 {
      var r := NatText(n);
      NatTextValue(n / 10);
      assert r[..|r| - 1] == NatText(n / 10);
    }
  }

  lemma {:induction false} DigitRunAfter(ds: string, rest: string)
    requires forall k :: 0 <= k < |ds| ==> IsDigit(ds[k])
    requires rest == [] || !IsDigit(rest[0])
    ensures DigitRun(ds + rest) == |ds|
  {
    if ds != [] {
      assert (ds + rest)[1..] == ds[1..] + rest;
      DigitRunAfter(ds[1..], rest);
    }
  }

  /** The digits that `ParseInt` takes from `NatText(n) + rest` are those of `NatText(n)`. */
  lemma NatTextRun(n: nat, rest: string)
    requires rest == [] || !IsDigit(rest[0])
    ensures var u := NatText(n) + rest;
      (if u != [] && u[0] == '0' then 1 else DigitRun(u)) == |NatText(n)|
  {
    var d := NatText(n);
    NatTextValue(n);
    if d[0] == '0' {
      assert d == "0";
    } else {
      DigitRunAfter(d, rest);
    }
  }

  /** What `ParseInt` reads from `u`, whose number has `k` digits. */
  lemma ParseNonNegative(u: string, k: nat)
    requires 0 < k <= |u| && u[0] != '-' && (if u[0] == '0' then 1 else DigitRun(u)) == k
    requires forall m :: 0 <= m < k ==> IsDigit(u[m])
    ensures ParseInt(u) == Some((JInt(NumberValue(u[..k], 10)), u[k..]))
  {
  }

  /** What `ParseInt` reads from a minus sign followed by `u`, whose number has `k` digits. */
  lemma ParseNegative(s: string, u: string, k: nat)
    requires s != [] && s[0] == '-' && s[1..] == u
    requires 0 < k <= |u| && (if u[0] == '0' then 1 else DigitRun(u)) == k
    requires forall m :: 0 <= m < k ==> IsDigit(u[m])
    ensures var v: int := NumberValue(u[..k], 10); ParseInt(s) == Some((JInt(-v), u[k..]))
  {
  }

  lemma IntRoundTrip(i: int, rest: string)
    requires rest == [] || !IsDigit(rest[0])
    ensures ParseInt(IntText(i) + rest) == Some((JInt(i), rest))
  {
    var n: nat := if i < 0 then -i else i;
    var d := NatText(n);
    var u := d + rest;
    NatTextRun(n, rest);
    NatTextValue(n);
    SplitAt(d, rest);
    if i < 0 {
      var s := IntText(i) + rest;
      Regroup("-", d, rest);
      assert s[0] == '-' && s[1..] == u;
      ParseNegative(s, u, |d|);
    } else {
      ParseNonNegative(u, |d|);
    }
  }

  // ---------------------------------------------------------------- strings

  lemma PlainCharRoundTrip(c: char, t: string, acc: string)
    requires ' ' <= c <= '~' && c != '"' && c != '\\'
    ensures ParseChars([c] + t, acc) == ParseChars(t, acc + [c])
  {
    assert ([c] + t)[1..] == t;
  }

  lemma ShortEscapeRoundTrip(c: char, t: string, acc: string)
    requires c == '"' || c == '\\' || c == '\n' || c == '\r' || c == '\t' || c as int == 8 || c as int == 12
    ensures ParseChars(EscapeChar(c) + t, acc) == ParseChars(t, acc + [c])
  {
    var e := EscapeChar(c);
    var s := e + t;
    assert |e| == 2 && s[0] == '\\' && s[1] == e[1] && s[2..] == t;
  }

  lemma BmpEscapeRoundTrip(c: char, t: string, acc: string)
    requires c as int < 0x1_0000
    ensures ParseChars("\\u" + HexDigits(c as int, 4) + t, acc) == ParseChars(t, acc + [c])
  {
    var h := HexDigits(c as int, 4);
    var s := "\\u" + h + t;
    assert s[2..] == h + t && s[6..] == t;
    Hex4After(c as int, t);
  }

  lemma PairShape(h1: string, h2: string, t: string)
    requires |h1| == 4 && |h2| == 4
    ensures var s := "\\u" + h1 + "\\u" + h2 + t;
      |s| >= 12 && s[0] == '\\' && s[1] == 'u' && s[6] == '\\' && s[7] == 'u' &&
      s[2..] == h1 + ("\\u" + h2 + t) && s[8..] == h2 + t && s[12..] == t
  {
    var s := "\\u" + h1 + "\\u" + h2 + t;
    assert s == "\\u" + (h1 + ("\\u" + (h2 + t)));
  }

  /** What `ParseChars` does with a `\u` escape of a high surrogate followed by one of a low surrogate. */
  lemma ParsePairStep(s: string, hi: nat, lo: nat, acc: string)
    requires |s| >= 12 && s[0] == '\\' && s[1] == 'u' && s[6] == '\\' && s[7] == 'u'
    requires IsHighSurrogate(hi) && IsLowSurrogate(lo)
    requires Hex4(s[2..]) == Some(hi) && Hex4(s[8..]) == Some(lo)
    ensures var n := (hi - 0xD800) * 0x400 + (lo - 0xDC00) + 0x1_0000;
      0x1_0000 <= n < 0x11_0000 &&
      ParseChars(s, acc) == ParseChars(s[12..], acc + [n as char])
  {
  }

  /** A surrogate pair written as two `\u` escapes is read as one character. */
  lemma SurrogatePairRoundTrip(hi: nat, lo: nat, t: string, acc: string)
    requires IsHighSurrogate(hi) && IsLowSurrogate(lo)
    ensures var n := (hi - 0xD800) * 0x400 + (lo - 0xDC00) + 0x1_0000;
      0x1_0000 <= n < 0x11_0000 &&
      ParseChars("\\u" + HexDigits(hi, 4) + "\\u" + HexDigits(lo, 4) + t, acc) == ParseChars(t, acc + [n as char])
  {
    var h1 := HexDigits(hi, 4);
    var h2 := HexDigits(lo, 4);
    PairShape(h1, h2, t);
    Hex4After(hi, "\\u" + h2 + t);
    Hex4After(lo, t);
    ParsePairStep("\\u" + h1 + "\\u" + h2 + t, hi, lo, acc);
  }

  lemma SurrogateEscapeRoundTrip(c: char, t: string, acc: string)
    requires c as int >= 0x1_0000
    ensures var v := c as int - 0x1_0000;
      ParseChars("\\u" + HexDigits(0xD800 + v / 0x400, 4) + "\\u" + HexDigits(0xDC00 + v % 0x400, 4) + t, acc)
      == ParseChars(t, acc + [c])
  {
    var v := c as int - 0x1_0000;
    var hi := 0xD800 + v / 0x400;
    var lo := 0xDC00 + v % 0x400;
    assert (hi - 0xD800) * 0x400 + (lo - 0xDC00) + 0x1_0000 == c as int;
    SurrogatePairRoundTrip(hi, lo, t, acc);
  }

  lemma CharRoundTrip(c: char, t: string, acc: string)
    ensures ParseChars(EscapeChar(c) + t, acc) == ParseChars(t, acc + [c])
  {
    if c == '"' || c == '\\' || c == '\n' || c == '\r' || c == '\t' || c as int == 8 || c as int == 12 {
      ShortEscapeRoundTrip(c, t, acc);
    } else if ' ' <= c <= '~' {
      PlainCharRoundTrip(c, t, acc);
    } else if c as int < 0x1_0000 {
      BmpEscapeRoundTrip(c, t, acc);
    } else {
      SurrogateEscapeRoundTrip(c, t, acc);
    }
  }

  lemma EscapeCons(str: string, t: string, acc: string)
    requires str != []
    ensures Escape(str) + t == EscapeChar(str[0]) + (Escape(str[1..]) + t)
    ensures acc + [str[0]] + str[1..] == acc + str
  {
    var e, rest := EscapeChar(str[0]), Escape(str[1..]);
    assert Escape(str) == e + rest;
    Regroup(e, rest, t);
    assert str == [str[0]] + str[1..];
  }

  lemma {:induction false} EscapeRoundTrip(str: string, t: string, acc: string)
    ensures ParseChars(Escape(str) + t, acc) == ParseChars(t, acc + str)
  {
    if str != [] {
      EscapeCons(str, t, acc);
      CharRoundTrip(str[0], Escape(str[1..]) + t, acc);
      EscapeRoundTrip(str[1..], t, acc + [str[0]]);
    } else {
      assert Escape(str) + t == t && acc + str == acc;
    }
  }

  lemma QuoteRoundTrip(str: string, rest: string)
    ensures ParseChars((Quote(str) + rest)[1..], []) == Some((str, rest))
  {
    assert (Quote(str) + rest)[1..] == Escape(str) + ("\"" + rest);
    EscapeRoundTrip(str, "\"" + rest, []);
    assert [] + str == str;
  }

  // ---------------------------------------------------------------- values

  /** A character that can begin the text of a value. */
  predicate StartsValue(c: char)
  {
    c == 'n' || c == 't' || c == 'f' || c == '"' || c == '-' || IsDigit(c) || c == '[' || c == '{'
  }

  lemma SerializeStart(j: Json)
    ensures Serialize(j) != [] && StartsValue(Serialize(j)[0])
  {
  }

  lemma SkipWsSpace(x: string)
    ensures SkipWs(" " + x) == SkipWs(x)
  {
    assert (" " + x)[1..] == x;
  }

  lemma ParseItemsSpace(x: string, acc: seq<Json>)
    ensures ParseItems(" " + x, acc) == ParseItems(x, acc)
  {
    ParseValueSpace(x);
  }

  lemma ParseMembersSpace(x: string, acc: Members)
    ensures ParseMembers(" " + x, acc) == ParseMembers(x, acc)
  {
    SkipWsSpace(x);
  }

  /** One step of `ParseItems` over an element whose text is known to parse. */
  lemma ItemStep(v: Json, text: string, after: string, acc: seq<Json>)
    requires after != [] && (after[0] == ',' || after[0] == ']')
    requires ParseValue(text + after) == Some((v, after))
    ensures ParseItems(text + after, acc) ==
      if after[0] == ',' then ParseItems(after[1..], acc + [v]) else Some((JArr(acc + [v]), after[1..]))
  {
  }

  /** One step of `ParseMembers`, from what each of its parts reads. */
  lemma ParseMembersStep(s: string, key: string, r1: string, v: Json, after: string, acc: Members)
    requires SkipWs(s) == s && s != [] && s[0] == '"'
    requires ParseChars(s[1..], []) == Some((key, r1))
    requires SkipWs(r1) == r1 && r1 != [] && r1[0] == ':'
    requires ParseValue(r1[1..]) == Some((v, after))
    requires after != [] && (after[0] == ',' || after[0] == '}')
    requires SkipWs(after) == after
    ensures ParseMembers(s, acc) ==
      if after[0] == ',' then ParseMembers(after[1..], acc + [(key, v)]) else Some((JObj(acc + [(key, v)]), after[1..]))
  {
  }

  /** One step of `ParseMembers` over a member whose value's text is known to parse. */
  lemma MemberStep(key: string, v: Json, text: string, after: string, acc: Members)
    requires after != [] && (after[0] == ',' || after[0] == '}')
    requires ParseValue(text + after) == Some((v, after))
    ensures ParseMembers(Quote(key) + ": " + text + after, acc) ==
      if after[0] == ',' then ParseMembers(after[1..], acc + [(key, v)]) else Some((JObj(acc + [(key, v)]), after[1..]))
  {
    var x := text + after;
    var r1 := ": " + x;
    var s := Quote(key) + r1;
    assert Quote(key) + ": " + text + after == s by {
      Regroup(Quote(key), ": ", text);
      Regroup(Quote(key) + ": ", text, after);
      Regroup(Quote(key), ": " + text, after);
      Regroup(": ", text, after);
    }
    KeyText(key, r1);
    ColonText(x);
    ParseValueSpace(x);
    ParseMembersStep(s, key, r1, v, after, acc);
  }

  /** A quoted key at the start of a member's text. */
  lemma KeyText(key: string, r1: string)
    ensures var s := Quote(key) + r1;
      SkipWs(s) == s && s != [] && s[0] == '"' && ParseChars(s[1..], []) == Some((key, r1))
  {
    var s := Quote(key) + r1;
    assert s[0] == Quote(key)[0];
    QuoteRoundTrip(key, r1);
  }

  /** The `: ` separator between a key and its value. */
  lemma ColonText(x: string)
    ensures var r1 := ": " + x;
      SkipWs(r1) == r1 && r1 != [] && r1[0] == ':' && r1[1..] == " " + x
  {
  }

  lemma ParseValueSpace(x: string)
    ensures ParseValue(" " + x) == ParseValue(x)
  {
    SkipWsSpace(x);
  }

  lemma ArrayDispatch(s: string)
    requires s != [] && s[0] == '['
    ensures ParseValue(s) == ParseArray(s[1..])
  {
  }

  lemma ObjectDispatch(s: string)
    requires s != [] && s[0] == '{'
    ensures ParseValue(s) == ParseObject(s[1..])
  {
  }

  lemma LiteralRoundTrip(word: string, v: Json, rest: string)
    requires (word == "null" && v == JNull) || (word == "true" && v == JBool(true)) ||
             (word == "false" && v == JBool(false))
    ensures ParseValue(word + rest) == Some((v, rest))
  {
    var s := word + rest;
    assert s[0] == word[0] && s[..|word|] == word && s[|word|..] == rest;
  }

  lemma IntDispatch(s: string)
    requires s != [] && (s[0] == '-' || IsDigit(s[0]))
    ensures ParseValue(s) == ParseInt(s)
  {
    assert SkipWs(s) == s;
  }

  lemma StringDispatch(s: string)
    requires s != [] && s[0] == '"'
    ensures ParseValue(s) ==
      match ParseChars(s[1..], []) case None => None case Some((str, rest)) => Some((JStr(str), rest))
  {
  }

  lemma ScalarRoundTrip(j: Json, rest: string)
    requires !IsContainer(j)
    requires rest == [] || !IsDigit(rest[0])
    ensures ParseValue(Serialize(j) + rest) == Some((j, rest))
  {
    match j
    case JNull =>
      LiteralRoundTrip("null", j, rest);
    case JBool(b) =>
      LiteralRoundTrip(if b then "true" else "false", j, rest);
    case JInt(i) =>
      IntRoundTrip(i, rest);
      SerializeStart(j);
      IntDispatch(IntText(i) + rest);
    case JStr(str) =>
      QuoteRoundTrip(str, rest);
      assert (Quote(str) + rest)[0] == '"';
      StringDispatch(Quote(str) + rest);
  }

  lemma {:induction false} ValueRoundTrip(j: Json, rest: string)
    requires rest == [] || !IsDigit(rest[0])
    ensures ParseValue(Serialize(j) + rest) == Some((j, rest))
    decreases j, 2
  {
    if j.JArr? {
      ArrayRoundTrip(j.items, rest);
    } else if j.JObj? {
      ObjectRoundTrip(j.members, rest);
    } else {
      ScalarRoundTrip(j, rest);
    }
  }

  lemma ArrayText(items: seq<Json>, rest: string)
    ensures Serialize(JArr(items)) + rest == "[" + (SerializeItems(items) + "]" + rest)
  {
  }

  lemma ObjectText(members: Members, rest: string)
    ensures Serialize(JObj(members)) + rest == "{" + (SerializeMembers(members) + "}" + rest)
  {
  }

  lemma ItemsFirst(items: seq<Json>, suffix: string)
    requires items != []
    ensures SerializeItems(items) + suffix != [] && StartsValue((SerializeItems(items) + suffix)[0])
  {
    SerializeStart(items[0]);
    if |items| >= 2 {
      SerializeItemsCons(items);
    }
  }

  lemma MembersFirst(members: Members, suffix: string)
    requires members != []
    ensures SerializeMembers(members) + suffix != [] && (SerializeMembers(members) + suffix)[0] == '"'
  {
    if |members| >= 2 {
      SerializeMembersCons(members);
    } else {
      SerializeMembersOne(members);
    }
  }

  lemma ParseArrayEmpty(rest: string)
    ensures ParseArray("]" + rest) == Some((JArr([]), rest))
  {
    DropFirst(']', rest);
  }

  lemma ParseArrayItems(x: string)
    requires x != [] && StartsValue(x[0])
    ensures ParseArray(x) == ParseItems(x, [])
  {
  }

  lemma ParseObjectEmpty(rest: string)
    ensures ParseObject("}" + rest) == Some((JObj([]), rest))
  {
    DropFirst('}', rest);
  }

  lemma ParseObjectMembers(x: string)
    requires x != [] && x[0] == '"'
    ensures ParseObject(x) == ParseMembers(x, [])
  {
  }

  /** Proof hint (see `SplitAt`). */
  lemma EmptyAppend<T>(xs: seq<T>)
    ensures [] + xs == xs
  {
  }

  lemma {:induction false} ArrayRoundTrip(items: seq<Json>, rest: string)
    ensures ParseValue(Serialize(JArr(items)) + rest) == Some((JArr(items), rest))
    decreases items, 1
  {
    var x := SerializeItems(items) + "]" + rest;
    ArrayText(items, rest);
    ArrayDispatch("[" + x);
    DropFirst('[', x);
    if items == [] {
      assert x == "]" + rest;
      ParseArrayEmpty(rest);
    } else {
      ItemsFirst(items, "]" + rest);
      Regroup(SerializeItems(items), "]", rest);
      ParseArrayItems(x);
      ItemsRoundTrip(items, [], rest);
      EmptyAppend(items);
    }
  }

  lemma {:induction false} ObjectRoundTrip(members: Members, rest: string)
    ensures ParseValue(Serialize(JObj(members)) + rest) == Some((JObj(members), rest))
    decreases members, 1
  {
    var x := SerializeMembers(members) + "}" + rest;
    ObjectText(members, rest);
    ObjectDispatch("{" + x);
    DropFirst('{', x);
    if members == [] {
      assert x == "}" + rest;
      ParseObjectEmpty(rest);
    } else {
      MembersFirst(members, "}" + rest);
      Regroup(SerializeMembers(members), "}", rest);
      ParseObjectMembers(x);
      MembersRoundTrip(members, [], rest);
      EmptyAppend(members);
    }
  }

  lemma SerializeItemsCons(items: seq<Json>)
    requires |items| >= 2
    ensures SerializeItems(items) == Serialize(items[0]) + ", " + SerializeItems(items[1..])
  {
  }

  lemma SerializeMembersCons(members: Members)
    requires |members| >= 2
    ensures SerializeMembers(members) == Quote(members[0].0) + ": " + Serialize(members[0].1) + ", " + SerializeMembers(members[1..])
  {
  }

  lemma SerializeMembersOne(members: Members)
    requires |members| == 1
    ensures SerializeMembers(members) == Quote(members[0].0) + ": " + Serialize(members[0].1)
  {
  }

  /** An element, with the text `text`, followed by more elements with the text `more`. */
  lemma NextItem(x: Json, text: string, more: string, xs: seq<Json>, acc: seq<Json>, rest: string)
    requires ParseValue(text + (", " + (more + "]" + rest))) == Some((x, ", " + (more + "]" + rest)))
    requires ParseItems(more + "]" + rest, acc + [x]) == Some((JArr(acc + [x] + xs), rest))
    ensures ParseItems(text + ", " + more + "]" + rest, acc) == Some((JArr(acc + [x] + xs), rest))
  {
    var tail := more + "]" + rest;
    var after := ", " + tail;
    Regroup(text, ", ", more + "]" + rest);
    assert text + ", " + more + "]" + rest == text + after;
    ItemStep(x, text, after, acc);
    DropComma(tail);
    ParseItemsSpace(tail, acc + [x]);
  }

  /** The last element, with the text `text`. */
  lemma LastItem(x: Json, text: string, acc: seq<Json>, rest: string)
    requires ParseValue(text + ("]" + rest)) == Some((x, "]" + rest))
    ensures ParseItems(text + "]" + rest, acc) == Some((JArr(acc + [x]), rest))
  {
    Regroup(text, "]", rest);
    ItemStep(x, text, "]" + rest, acc);
    DropFirst(']', rest);
  }

  lemma {:induction false} ItemsRoundTrip(items: seq<Json>, acc: seq<Json>, rest: string)
    requires |items| >= 1
    ensures ParseItems(SerializeItems(items) + "]" + rest, acc) == Some((JArr(acc + items), rest))
    decreases items, 0
  {
    var x := items[0];
    if |items| == 1 {
      ValueRoundTrip(x, "]" + rest);
      LastItem(x, Serialize(x), acc, rest);
      assert [x] == items;
    } else {
      var more := SerializeItems(items[1..]);
      SerializeItemsCons(items);
      ValueRoundTrip(x, ", " + (more + "]" + rest));
      ItemsRoundTrip(items[1..], acc + [x], rest);
      NextItem(x, Serialize(x), more, items[1..], acc, rest);
      AppendFirst(acc, items);
    }
  }

  /** A member, whose value has the text `text`, followed by more members with the text `more`. */
  lemma NextMember(key: string, v: Json, text: string, more: string, ms: Members, acc: Members, rest: string)
    requires ParseValue(text + (", " + (more + "}" + rest))) == Some((v, ", " + (more + "}" + rest)))
    requires ParseMembers(more + "}" + rest, acc + [(key, v)]) == Some((JObj(acc + [(key, v)] + ms), rest))
    ensures ParseMembers(Quote(key) + ": " + text + ", " + more + "}" + rest, acc) ==
      Some((JObj(acc + [(key, v)] + ms), rest))
  {
    var tail := more + "}" + rest;
    var after := ", " + tail;
    assert Quote(key) + ": " + text + ", " + more + "}" + rest == Quote(key) + ": " + text + after;
    MemberStep(key, v, text, after, acc);
    DropComma(tail);
    ParseMembersSpace(tail, acc + [(key, v)]);
  }

  /** The last member, whose value has the text `text`. */
  lemma LastMember(key: string, v: Json, text: string, acc: Members, rest: string)
    requires ParseValue(text + ("}" + rest)) == Some((v, "}" + rest))
    ensures ParseMembers(Quote(key) + ": " + text + "}" + rest, acc) == Some((JObj(acc + [(key, v)]), rest))
  {
    assert Quote(key) + ": " + text + "}" + rest == Quote(key) + ": " + text + ("}" + rest);
    MemberStep(key, v, text, "}" + rest, acc);
    DropFirst('}', rest);
  }

  lemma {:induction false} MembersRoundTrip(members: Members, acc: Members, rest: string)
    requires |members| >= 1
    ensures ParseMembers(SerializeMembers(members) + "}" + rest, acc) == Some((JObj(acc + members), rest))
    decreases members, 0
  {
    var m := members[0];
    assert m in members && m.1 < m;
    if |members| == 1 {
      SerializeMembersOne(members);
      ValueRoundTrip(m.1, "}" + rest);
      LastMember(m.0, m.1, Serialize(m.1), acc, rest);
      assert [m] == members;
    } else {
      var more := SerializeMembers(members[1..]);
      SerializeMembersCons(members);
      ValueRoundTrip(m.1, ", " + (more + "}" + rest));
      MembersRoundTrip(members[1..], acc + [m], rest);
      NextMember(m.0, m.1, Serialize(m.1), more, members[1..], acc, rest);
      AppendFirst(acc, members);
    }
  }

  /** `json.loads(s)`: one value, with nothing but white space after it.
      Whatever `json.dumps` writes reads back as the value it was written
      from: `json.loads(json.dumps(j)) == j`. */
  function Decode(s: string): (r: Option<Json>)
    ensures forall j :: Serialize(j) == s ==> r == Some(j)
  {
    assert forall j :: Serialize(j) == s ==> ParseValue(s) == Some((j, [])) by {
      forall j | Serialize(j) == s
        ensures ParseValue(s) == Some((j, []))
      {
        ValueRoundTrip(j, []);
        assert Serialize(j) + [] == Serialize(j);
      }
    }
    match ParseValue(s)
    case None => None
    case Some((v, rest)) => if SkipWs(rest) == [] then Some(v) else None
  }
}
