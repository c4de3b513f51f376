/** The part of JSON the program relies on: `JSON.parse` over the full JSON
    grammar and `JSON.stringify` for the values the program writes. A number
    keeps its source text; an object keeps its members in text order, and a
    lookup takes the last member with the key, as `JSON.parse` does. */
module Json {
  import opened Wrappers
  import Text

  datatype Json =
    | JNull
    | JBool(b: bool)
    | JNumber(lexeme: string)
    | JString(str: string)
    | JArray(items: seq<Json>)
    | JObject(members: seq<Member>)

  datatype Member = Member(key: string, value: Json)

  /** The `SyntaxError` that `JSON.parse` throws. */
  datatype SyntaxError = SyntaxError

  /** A value parsed from the front of a text, with the text that follows it. */
  type Parsed<T> = Result<(T, string), SyntaxError>

  // ---------------------------------------------------------------------------
  // Object members

  /** The value of property `key`; with duplicate keys the last one wins. */
  function Lookup(ms: seq<Member>, key: string): (r: Option<Json>)
    ensures r.None? <==> forall i :: 0 <= i < |ms| ==> ms[i].key != key
    ensures r.Some? ==> exists i :: 0 <= i < |ms| && ms[i] == Member(key, r.value)
                          && forall j :: i < j < |ms| ==> ms[j].key != key
    decreases |ms|
  {
    if ms == [] then None
    else if ms[|ms| - 1].key == key then Some(ms[|ms| - 1].value)
    else Lookup(ms[..|ms| - 1], key)
  }

  /** A key that occurs once is found at its one position. */
  lemma {:induction false} LookupUnique(ms: seq<Member>, key: string, i: nat)
    requires i < |ms| && ms[i].key == key
    requires forall j :: 0 <= j < |ms| && j != i ==> ms[j].key != key
    ensures Lookup(ms, key) == Some(ms[i].value)
  {
    var r := Lookup(ms, key);
    assert r.Some?;
    var k :| 0 <= k < |ms| && ms[k] == Member(key, r.value);
    assert k == i;
  }

  /** Property access `v[key]` on a parsed value; `None` stands for `undefined`. */
  function Get(v: Json, key: string): Option<Json> {
    if v.JObject? then Lookup(v.members, key) else None
  }

  // ---------------------------------------------------------------------------
  // JSON.stringify

  function HexDigit(d: nat): (c: char)
    requires d < 16
  {
    if d < 10 then Text.DigitChar(d) else (d - 10 + 'a' as int) as char
  }

  /** How `JSON.stringify` writes one character inside a string literal: quote
      and backslash are escaped, the five short control escapes are used, other
      control characters become `\u00xx` in lower-case hex, and everything else
      is copied. */
  function EscapeChar(c: char): (r: string)
  {
    if c == '"' then "\\\""
    else if c == '\\' then "\\\\"
    else if c == '\U{0008}' then "\\b"
    else if c == '\t' then "\\t"
    else if c == '\n' then "\\n"
    else if c == '\U{000C}' then "\\f"
    else if c == '\r' then "\\r"
    else if c < ' ' then "\\u00" + [HexDigit(c as int / 16), HexDigit(c as int % 16)]
    else [c]
  }

  function Escape(s: string): string
    decreases |s|
  {
    if s == [] then [] else EscapeChar(s[0]) + Escape(s[1..])
  }

  function Quote(s: string): string {
    "\"" + Escape(s) + "\""
  }

  function Serialize(v: Json): string
    decreases v
  {
    match v
    case JNull => "null"
    case JBool(b) => if b then "true" else "false"
    case JNumber(lexeme) => lexeme
    case JString(s) => Quote(s)
    case JArray(items) => "[" + SerializeItems(items) + "]"
    case JObject(ms) => "{" + SerializeMembers(ms) + "}"
  }

  function SerializeItems(items: seq<Json>): string
    decreases items
  {
    if items == [] then []
    else if |items| == 1 then Serialize(items[0])
    else Serialize(items[0]) + "," + SerializeItems(items[1..])
  }

  function SerializeMember(m: Member): string
    decreases m
  {
    Quote(m.key) + ":" + Serialize(m.value)
  }

  function SerializeMembers(ms: seq<Member>): string
    decreases ms
  {
    if ms == [] then []
    else if |ms| == 1 then SerializeMember(ms[0])
    else SerializeMember(ms[0]) + "," + SerializeMembers(ms[1..])
  }

  // ---------------------------------------------------------------------------
  // JSON.parse

  predicate IsWs(c: char) {
    c == ' ' || c == '\t' || c == '\n' || c == '\r'
  }

  function SkipWs(s: string): (r: string)
    ensures |r| <= |s|
    ensures r == [] || !IsWs(r[0])
    decreases |s|
  {
    if s != [] && IsWs(s[0]) then SkipWs(s[1..]) else s
  }

  /** `JSON.parse(text)`: one value, with only whitespace around it. */
  function Parse(text: string): (r: Result<Json, SyntaxError>)
  {
    var p :- ParseValue(SkipWs(text));
    if SkipWs(p.1) == [] then Success(p.0) else Failure(SyntaxError)
  }

  function Literal(s: string, word: string, v: Json): (r: Parsed<Json>)
    requires |word| > 0
    ensures r.Success? ==> |r.value.1| < |s|
  {
    if Text.StartsWith(s, word) then Success((v, s[|word|..])) else Failure(SyntaxError)
  }

  /** One value at the very front of `s`. */
  function ParseValue(s: string): (r: Parsed<Json>)
    ensures r.Success? ==> |r.value.1| < |s|
    decreases |s|, 0
  {
    if s == [] then Failure(SyntaxError)
    else if s[0] == 'n' then Literal(s, "null", JNull)
    else if s[0] == 't' then Literal(s, "true", JBool(true))
    else if s[0] == 'f' then Literal(s, "false", JBool(false))
    else if s[0] == '"' then
      var p :- ParseString(s[1..]);
      Success((JString(p.0), p.1))
    else if s[0] == '[' then
      var t := SkipWs(s[1..]);
      if t != [] && t[0] == ']' then Success((JArray([]), t[1..]))
      else
        var p :- ParseItems(t);
        Success((JArray(p.0), p.1))
    else if s[0] == '{' then
      var t := SkipWs(s[1..]);
      if t != [] && t[0] == '}' then Success((JObject([]), t[1..]))
      else
        var p :- ParseMembers(t);
        Success((JObject(p.0), p.1))
    else if s[0] == '-' || Text.IsDigit(s[0]) then ParseNumber(s)
    else Failure(SyntaxError)
  }

  /** The elements of a non-empty array and its closing bracket. */
  function ParseItems(s: string): (r: Parsed<seq<Json>>)
    ensures r.Success? ==> |r.value.1| < |s|
    decreases |s|, 1
  {
    var p :- ParseValue(s);
    var t := SkipWs(p.1);
    if t == [] then Failure(SyntaxError)
    else if t[0] == ']' then Success(([p.0], t[1..]))
    else if t[0] == ',' then
      var q :- ParseItems(SkipWs(t[1..]));
      Success(([p.0] + q.0, q.1))
    else Failure(SyntaxError)
  }

  /** One `"key": value` pair. */
  function ParseMember(s: string): (r: Parsed<Member>)
    ensures r.Success? ==> |r.value.1| < |s|
    decreases |s|, 0
  {
    if s == [] || s[0] != '"' then Failure(SyntaxError)
    else
      var k :- ParseString(s[1..]);
      var t := SkipWs(k.1);
      if t == [] || t[0] != ':' then Failure(SyntaxError)
      else
        var p :- ParseValue(SkipWs(t[1..]));
        Success((Member(k.0, p.0), p.1))
  }

  /** The members of a non-empty object and its closing brace. */
  function ParseMembers(s: string): (r: Parsed<seq<Member>>)
    ensures r.Success? ==> |r.value.1| < |s|
    decreases |s|, 1
  {
    var m :- ParseMember(s);
    var u := SkipWs(m.1);
    if u == [] then Failure(SyntaxError)
    else if u[0] == '}' then Success(([m.0], u[1..]))
    else if u[0] == ',' then
      var q :- ParseMembers(SkipWs(u[1..]));
      Success(([m.0] + q.0, q.1))
    else Failure(SyntaxError)
  }

  /** The body of a string literal after its opening quote, up to and
      including the closing quote. Raw control characters are refused. */
  function ParseString(s: string): (r: Parsed<string>)
    ensures r.Success? ==> |r.value.1| < |s|
    decreases |s|
  {
    if s == [] then Failure(SyntaxError)
    else if s[0] == '"' then Success(([], s[1..]))
    else if s[0] == '\\' then
      var e :- ParseEscape(s[1..]);
      var p :- ParseString(e.1);
      Success(([e.0] + p.0, p.1))
    else if s[0] < ' ' then Failure(SyntaxError)
    else
      var p :- ParseString(s[1..]);
      Success(([s[0]] + p.0, p.1))
  }

  /** An escape sequence after its backslash. A `\u` escape of a surrogate must
      be a high surrogate followed by a `\u` escape of a low one; the pair
      denotes one character. */
  function ParseEscape(s: string): (r: Parsed<char>)
    ensures r.Success? ==> |r.value.1| < |s|
  {
    if s == [] then Failure(SyntaxError)
    else if s[0] == '"' then Success(('"', s[1..]))
    else if s[0] == '\\' then Success(('\\', s[1..]))
    else if s[0] == '/' then Success(('/', s[1..]))
    else if s[0] == 'b' then Success(('\U{0008}', s[1..]))
    else if s[0] == 'f' then Success(('\U{000C}', s[1..]))
    else if s[0] == 'n' then Success(('\n', s[1..]))
    else if s[0] == 'r' then Success(('\r', s[1..]))
    else if s[0] == 't' then Success(('\t', s[1..]))
    else if s[0] == 'u' then
      var u :- CodeUnit(s[1..]);
      if u.0 < 0xD800 || 0xE000 <= u.0 then Success((u.0 as char, u.1))
      else if u.0 < 0xDC00 && |u.1| >= 2 && u.1[0] == '\\' && u.1[1] == 'u' then
        var l :- CodeUnit(u.1[2..]);
        if 0xDC00 <= l.0 < 0xE000 then
          Success(((0x10000 + (u.0 - 0xD800) * 0x400 + (l.0 - 0xDC00)) as char, l.1))
        else Failure(SyntaxError)
      else Failure(SyntaxError)
    else Failure(SyntaxError)
  }

  function HexValue(c: char): Option<nat> {
    if Text.IsDigit(c) then Some(Text.DigitValue(c))
    else if 'a' <= c <= 'f' then Some(c as int - 'a' as int + 10)
    else if 'A' <= c <= 'F' then Some(c as int - 'A' as int + 10)
    else None
  }

  /** Four hexadecimal digits. */
  function CodeUnit(s: string): (r: Parsed<nat>)
    ensures r.Success? ==> r.value.0 < 0x10000 && |s| >= 4 && r.value.1 == s[4..]
  {
    if |s| < 4 then Failure(SyntaxError)
    else
      match (HexValue(s[0]), HexValue(s[1]), HexValue(s[2]), HexValue(s[3]))
      case (Some(a), Some(b), Some(c), Some(d)) =>
        if a < 16 && b < 16 && c < 16 && d < 16
        then Success((((a * 16 + b) * 16 + c) * 16 + d, s[4..]))
        else Failure(SyntaxError)
      case _ => Failure(SyntaxError)
  }

  /** The states of the scanner for a number: optional minus, `0` or a digit
      run not starting with `0`, an optional fraction, an optional exponent. */
  datatype NumState = Start | Minus | Zero | Whole | Point | Fract | Exp | ExpSign | ExpDigits

  predicate Accepting(st: NumState) {
    st == Zero || st == Whole || st == Fract || st == ExpDigits
  }

  function NumStep(st: NumState, c: char): Option<NumState> {
    match st
    case Start =>
      if c == '-' then Some(Minus) else if c == '0' then Some(Zero)
      else if Text.IsDigit(c) then Some(Whole) else None
    case Minus => if c == '0' then Some(Zero) else if Text.IsDigit(c) then Some(Whole) else None
    case Zero => if c == '.' then Some(Point) else if c == 'e' || c == 'E' then Some(Exp) else None
    case Whole =>
      if Text.IsDigit(c) then Some(Whole) else if c == '.' then Some(Point)
      else if c == 'e' || c == 'E' then Some(Exp) else None
    case Point => if Text.IsDigit(c) then Some(Fract) else None
    case Fract =>
      if Text.IsDigit(c) then Some(Fract) else if c == 'e' || c == 'E' then Some(Exp) else None
    case Exp => if c == '+' || c == '-' then Some(ExpSign) else if Text.IsDigit(c) then Some(ExpDigits) else None
    case ExpSign => if Text.IsDigit(c) then Some(ExpDigits) else None
    case ExpDigits => if Text.IsDigit(c) then Some(ExpDigits) else None
  }

  /** Runs the number scanner from index `i` in state `st` as far as it goes;
      the end index when it stops in an accepting state. */
  function ScanNumber(s: string, i: nat, st: NumState): (r: Option<nat>)
    requires i <= |s|
    ensures r.Some? ==> i <= r.value <= |s|
    ensures r.Some? && !Accepting(st) ==> i < r.value
    decreases |s| - i
  {
    var next := if i < |s| then NumStep(st, s[i]) else None;
    match next
    case Some(st') => ScanNumber(s, i + 1, st')
    case None => if Accepting(st) then Some(i) else None
  }

  function ParseNumber(s: string): (r: Parsed<Json>)
    ensures r.Success? ==> |r.value.1| < |s|
  {
    match ScanNumber(s, 0, Start)
    case Some(d) => Success((JNumber(s[..d]), s[d..]))
    case None => Failure(SyntaxError)
  }

  // ---------------------------------------------------------------------------
  // What the parser reads back from the serializer

  /** How `JSON.stringify` writes a non-negative integer. */
  predicate NatLexeme(l: string) {
    |l| >= 1 && (forall i :: 0 <= i < |l| ==> Text.IsDigit(l[i])) && (l[0] == '0' ==> |l| == 1)
  }

  /** The values the program writes: every number in them is a non-negative
      integer. */
  predicate Canonical(v: Json)
    decreases v
  {
    match v
    case JNumber(l) => NatLexeme(l)
    case JArray(items) => forall i :: 0 <= i < |items| ==> Canonical(items[i])
    case JObject(ms) => forall i :: 0 <= i < |ms| ==> Canonical(ms[i].value)
    case _ => true
  }

  /** What may follow a value inside a document. */
  predicate Delimited(rest: string) {
    |rest| == 0 || rest[0] == ',' || rest[0] == ']' || rest[0] == '}'
  }

  predicate NoControl(s: string) {
    forall i :: 0 <= i < |s| ==> s[i] >= ' '
  }

  predicate StartsValue(c: char) {
    c == 'n' || c == 't' || c == 'f' || c == '"' || c == '[' || c == '{' || Text.IsDigit(c)
  }

  lemma {:induction false} SerializeStart(v: Json)
    requires Canonical(v)
    ensures |Serialize(v)| > 0 && StartsValue(Serialize(v)[0])
  {
  }

  lemma {:induction false} HexDigitValue(d: nat)
    requires d < 16
    ensures HexValue(HexDigit(d)) == Some(d)
  {
  }

  /** A control character written as `\u00xx` reads back. */
  lemma UnicodeEscapeStep(c: char, x: string)
    requires c < ' ' && c != '\U{0008}' && c != '\t' && c != '\n' && c != '\U{000C}' && c != '\r'
    ensures (EscapeChar(c) + x)[0] == '\\'
    ensures ParseEscape((EscapeChar(c) + x)[1..]) == Success((c, x))
  {
    var s := EscapeChar(c) + x;
    var hi, lo := c as int / 16, c as int % 16;
    HexDigitValue(hi);
    HexDigitValue(lo);
    assert s[1..] == "u00" + [HexDigit(hi), HexDigit(lo)] + x;
    assert s[1..][1..] == "00" + [HexDigit(hi), HexDigit(lo)] + x;
    assert CodeUnit(s[1..][1..]) == Success((c as int, x));
  }

  /** A character with a two-character escape reads back. */
  lemma ShortEscapeStep(c: char, x: string)
    requires c == '"' || c == '\\' || c == '\U{0008}' || c == '\t' || c == '\n' || c == '\U{000C}' || c == '\r'
    ensures (EscapeChar(c) + x)[0] == '\\'
    ensures ParseEscape((EscapeChar(c) + x)[1..]) == Success((c, x))
  {
    var s := EscapeChar(c) + x;
    assert s[1..] == [s[1]] + x;
  }

  /** The parser undoes the escaping of one character, whatever follows. */
  lemma {:induction false} EscapeCharStep(c: char, x: string, t: string, rest: string)
    requires ParseString(x) == Success((t, rest))
    ensures ParseString(EscapeChar(c) + x) == Success(([c] + t, rest))
  {
    var s := EscapeChar(c) + x;
    if c == '"' || c == '\\' || c == '\U{0008}' || c == '\t' || c == '\n' || c == '\U{000C}' || c == '\r' {
      ShortEscapeStep(c, x);
    } else if c < ' ' {
      UnicodeEscapeStep(c, x);
    } else {
      assert s[1..] == x;
    }
  }

  lemma ClosingQuote(rest: string)
    ensures ParseString(Escape([]) + "\"" + rest) == Success(([], rest))
  {
    var s := Escape([]) + "\"" + rest;
    assert s == "\"" + rest;
    assert s[0] == '"' && s[1..] == rest;
  }

  lemma EscapeFront(str: string)
    requires |str| > 0
    ensures Escape(str) == EscapeChar(str[0]) + Escape(str[1..])
  {
  }

  lemma RegroupQuoted(e: string, tail: string, rest: string)
    ensures e + tail + "\"" + rest == e + (tail + "\"" + rest)
  {
  }

  /** A quoted string reads back as the original text. */
  lemma {:induction false} ParseEscaped(str: string, rest: string)
    ensures ParseString(Escape(str) + "\"" + rest) == Success((str, rest))
    decreases |str|
  {
    if |str| == 0 {
      ClosingQuote(rest);
    } else {
      var x := Escape(str[1..]) + "\"" + rest;
      ParseEscaped(str[1..], rest);
      EscapeCharStep(str[0], x, str[1..], rest);
      EscapeFront(str);
      RegroupQuoted(EscapeChar(str[0]), Escape(str[1..]), rest);
      assert [str[0]] + str[1..] == str;
    }
  }

  /** A run of digits is consumed up to the first non-digit. */
  lemma {:induction false} ScanWhole(s: string, i: nat, n: nat)
    requires i <= n <= |s|
    requires forall k :: i <= k < n ==> Text.IsDigit(s[k])
    requires n == |s| || (s[n] != '.' && s[n] != 'e' && s[n] != 'E' && !Text.IsDigit(s[n]))
    ensures ScanNumber(s, i, Whole) == Some(n)
    decreases n - i
  {
    if i < n {
      ScanWhole(s, i + 1, n);
    }
  }

  lemma {:induction false} ParseNatLexeme(l: string, rest: string)
    requires NatLexeme(l) && Delimited(rest)
    ensures ParseNumber(l + rest) == Success((JNumber(l), rest))
  {
    var s := l + rest;
    assert s[0] == l[0];
    if l[0] == '0' {
      assert ScanNumber(s, 1, Zero) == Some(1);
    } else {
      ScanWhole(s, 1, |l|);
    }
    assert ScanNumber(s, 0, Start) == Some(|l|);
    assert s[..|l|] == l && s[|l|..] == rest;
  }

  // One step of the parser on a text of a known shape.

  lemma {:induction false} ValueLiteral(s: string, word: string, v: Json, rest: string)
    requires (word, v) == ("null", JNull) || (word, v) == ("true", JBool(true)) || (word, v) == ("false", JBool(false))
    requires s == word + rest
    ensures ParseValue(s) == Success((v, rest))
  {
    assert s[0] == word[0];
    assert s[..|word|] == word && s[|word|..] == rest;
  }

  lemma {:induction false} ValueString(s: string, str: string, rest: string)
    requires |s| > 0 && s[0] == '"' && ParseString(s[1..]) == Success((str, rest))
    ensures ParseValue(s) == Success((JString(str), rest))
  {
  }

  lemma {:induction false} ValueNumber(s: string, v: Json, rest: string)
    requires |s| > 0 && Text.IsDigit(s[0]) && ParseNumber(s) == Success((v, rest))
    ensures ParseValue(s) == Success((v, rest))
  {
  }

  lemma {:induction false} ValueArray(s: string, items: seq<Json>, rest: string)
    requires |s| > 0 && s[0] == '['
    requires |items| == 0 ==> SkipWs(s[1..]) == "]" + rest
    requires |items| > 0 ==> var t := SkipWs(s[1..]);
      |t| > 0 && t[0] != ']' && ParseItems(t) == Success((items, rest))
    ensures ParseValue(s) == Success((JArray(items), rest))
  {
    if |items| == 0 {
      assert ("]" + rest)[1..] == rest;
    }
  }

  lemma {:induction false} ValueObject(s: string, ms: seq<Member>, rest: string)
    requires |s| > 0 && s[0] == '{'
    requires |ms| == 0 ==> SkipWs(s[1..]) == "}" + rest
    requires |ms| > 0 ==> var t := SkipWs(s[1..]);
      |t| > 0 && t[0] != '}' && ParseMembers(t) == Success((ms, rest))
    ensures ParseValue(s) == Success((JObject(ms), rest))
  {
    if |ms| == 0 {
      assert ("}" + rest)[1..] == rest;
    }
  }

  lemma {:induction false} ItemsLast(s: string, v: Json, rest: string)
    requires ParseValue(s) == Success((v, "]" + rest))
    ensures ParseItems(s) == Success(([v], rest))
  {
    var a := "]" + rest;
    assert a[0] == ']' && !IsWs(a[0]);
    assert SkipWs(a) == a;
    assert a[1..] == rest;
  }

  lemma {:induction false} ItemsMore(s: string, v: Json, tail: string, vs: seq<Json>, rest: string)
    requires ParseValue(s) == Success((v, "," + tail))
    requires ParseItems(SkipWs(tail)) == Success((vs, rest))
    ensures ParseItems(s) == Success(([v] + vs, rest))
  {
    var a := "," + tail;
    assert SkipWs(a) == a && a[1..] == tail;
  }

  lemma {:induction false} MemberStep(s: string, key: string, afterKey: string, v: Json, rest: string)
    requires |s| > 0 && s[0] == '"' && ParseString(s[1..]) == Success((key, ":" + afterKey))
    requires ParseValue(SkipWs(afterKey)) == Success((v, rest))
    ensures ParseMember(s) == Success((Member(key, v), rest))
  {
    var t := ":" + afterKey;
    assert SkipWs(t) == t && t[1..] == afterKey;
  }

  lemma {:induction false} MembersLast(s: string, m: Member, rest: string)
    requires ParseMember(s) == Success((m, "}" + rest))
    ensures ParseMembers(s) == Success(([m], rest))
  {
    var a := "}" + rest;
    assert a[0] == '}' && !IsWs(a[0]);
    assert SkipWs(a) == a;
    assert a[1..] == rest;
  }

  lemma {:induction false} MembersMore(s: string, m: Member, tail: string, ms: seq<Member>, rest: string)
    requires ParseMember(s) == Success((m, "," + tail))
    requires ParseMembers(SkipWs(tail)) == Success((ms, rest))
    ensures ParseMembers(s) == Success(([m] + ms, rest))
  {
    var a := "," + tail;
    assert SkipWs(a) == a && a[1..] == tail;
  }

  lemma {:induction false} SkipWsAtValue(x: string)
    requires |x| > 0 && StartsValue(x[0])
    ensures SkipWs(x) == x && x[0] != ']' && x[0] != '}'
  {
  }

  /** An opening character, a body and a closing character, followed by the
      rest of the text. */
  lemma Enclosed(open: string, body: string, close: string, rest: string)
    requires |open| == 1
    ensures (open + body + close + rest)[0] == open[0]
    ensures (open + body + close + rest)[1..] == body + close + rest
    ensures open + body + close + rest == open + (body + close + rest)
  {
  }

  /** Any canonical value is read back from its serialization, whatever
      delimiter follows it. */
  lemma {:induction false} ParseSerialized(v: Json, rest: string)
    requires Canonical(v) && Delimited(rest)
    ensures ParseValue(Serialize(v) + rest) == Success((v, rest))
    decreases v, 2
  {
    var s := Serialize(v) + rest;
    match v
    case JNull =>
      ValueLiteral(s, "null", v, rest);
    case JBool(b) =>
      if b {
        ValueLiteral(s, "true", v, rest);
      } else {
        ValueLiteral(s, "false", v, rest);
      }
    case JNumber(l) =>
      ParseNatLexeme(l, rest);
      ValueNumber(s, v, rest);
    case JString(str) =>
      var e := Escape(str);
      assert Serialize(v) == "\"" + e + "\"";
      Enclosed("\"", e, "\"", rest);
      ParseEscaped(str, rest);
      ValueString(s, str, rest);
    case JArray(items) =>
      var body := SerializeItems(items);
      assert Serialize(v) == "[" + body + "]";
      Enclosed("[", body, "]", rest);
      ParseSerializedArray(items, rest);
    case JObject(ms) =>
      var body := SerializeMembers(ms);
      assert Serialize(v) == "{" + body + "}";
      Enclosed("{", body, "}", rest);
      ParseSerializedObject(ms, rest);
  }

  lemma {:induction false} ParseSerializedArray(items: seq<Json>, rest: string)
    requires Delimited(rest)
    requires forall i :: 0 <= i < |items| ==> Canonical(items[i])
    ensures ParseValue("[" + (SerializeItems(items) + "]" + rest)) == Success((JArray(items), rest))
    decreases items, 1
  {
    var body := SerializeItems(items) + "]" + rest;
    var s := "[" + body;
    assert s[0] == '[' && s[1..] == body;
    if |items| == 0 {
      assert body == "]" + rest;
      assert SkipWs(body) == body;
    } else {
      SerializeItemsStart(items);
      SkipWsAtValue(body);
      ParseSerializedItems(items, rest);
    }
    ValueArray(s, items, rest);
  }

  lemma {:induction false} ParseSerializedObject(ms: seq<Member>, rest: string)
    requires Delimited(rest)
    requires forall i :: 0 <= i < |ms| ==> Canonical(ms[i].value)
    ensures ParseValue("{" + (SerializeMembers(ms) + "}" + rest)) == Success((JObject(ms), rest))
    decreases ms, 1
  {
    var body := SerializeMembers(ms) + "}" + rest;
    var s := "{" + body;
    assert s[0] == '{' && s[1..] == body;
    if |ms| == 0 {
      assert body == "}" + rest;
      assert SkipWs(body) == body;
    } else {
      SerializeMembersStart(ms);
      SkipWsAtValue(body);
      ParseSerializedMembers(ms, rest);
    }
    ValueObject(s, ms, rest);
  }

  lemma {:induction false} SerializeItemsStart(items: seq<Json>)
    requires |items| >= 1 && Canonical(items[0])
    ensures |SerializeItems(items)| > 0 && StartsValue(SerializeItems(items)[0])
  {
    SerializeStart(items[0]);
    if |items| > 1 {
      assert SerializeItems(items) == Serialize(items[0]) + ("," + SerializeItems(items[1..]));
    }
  }

  lemma {:induction false} SerializeMembersStart(ms: seq<Member>)
    requires |ms| >= 1
    ensures |SerializeMembers(ms)| > 0 && StartsValue(SerializeMembers(ms)[0])
  {
    if |ms| > 1 {
      assert SerializeMembers(ms) == SerializeMember(ms[0]) + ("," + SerializeMembers(ms[1..]));
    }
  }

  lemma {:induction false} ParseSerializedItems(items: seq<Json>, rest: string)
    requires |items| >= 1 && Delimited(rest)
    requires forall i :: 0 <= i < |items| ==> Canonical(items[i])
    ensures ParseItems(SerializeItems(items) + "]" + rest) == Success((items, rest))
    decreases items, 0
  {
    var s := SerializeItems(items) + "]" + rest;
    var head := Serialize(items[0]);
    if |items| == 1 {
      assert s == head + ("]" + rest);
      ParseSerialized(items[0], "]" + rest);
      ItemsLast(s, items[0], rest);
      assert [items[0]] == items;
    } else {
      var body := SerializeItems(items[1..]);
      var tail := body + "]" + rest;
      Regroup(head, ',', body, "]", rest);
      ParseSerialized(items[0], "," + tail);
      SerializeItemsStart(items[1..]);
      SkipWsAtValue(tail);
      ParseSerializedItems(items[1..], rest);
      ItemsMore(s, items[0], tail, items[1..], rest);
      assert [items[0]] + items[1..] == items;
    }
  }

  /** `(a + [c] + b) + d + e` regrouped around the separator. */
  lemma {:induction false} Regroup(a: string, c: char, b: string, d: string, e: string)
    ensures a + [c] + b + d + e == a + ([c] + (b + d + e))
  {
  }

  /** A member reads back from its serialization. */
  lemma MemberRegroup(e: string, v: string, after: string)
    ensures "\"" + e + "\"" + ":" + v + after == "\"" + (e + "\"" + (":" + (v + after)))
  {
  }

  lemma {:induction false} ParseSerializedMember(m: Member, after: string)
    requires Canonical(m.value) && Delimited(after)
    ensures ParseMember(SerializeMember(m) + after) == Success((m, after))
    decreases m, 0
  {
    var s := SerializeMember(m) + after;
    var e, v := Escape(m.key), Serialize(m.value);
    var afterKey := v + after;
    assert SerializeMember(m) == "\"" + e + "\"" + ":" + v;
    MemberRegroup(e, v, after);
    assert s[0] == '"';
    assert s[1..] == e + "\"" + (":" + afterKey);
    ParseEscaped(m.key, ":" + afterKey);
    SerializeStart(m.value);
    SkipWsAtValue(afterKey);
    ParseSerialized(m.value, after);
    MemberStep(s, m.key, afterKey, m.value, after);
  }

  lemma {:induction false} ParseSerializedMembers(ms: seq<Member>, rest: string)
    requires |ms| >= 1 && Delimited(rest)
    requires forall i :: 0 <= i < |ms| ==> Canonical(ms[i].value)
    ensures ParseMembers(SerializeMembers(ms) + "}" + rest) == Success((ms, rest))
    decreases ms, 0
  {
    var s := SerializeMembers(ms) + "}" + rest;
    var head := SerializeMember(ms[0]);
    if |ms| == 1 {
      assert s == head + ("}" + rest);
      ParseSerializedMember(ms[0], "}" + rest);
      MembersLast(s, ms[0], rest);
      assert [ms[0]] == ms;
    } else {
      var body := SerializeMembers(ms[1..]);
      var tail := body + "}" + rest;
      Regroup(head, ',', body, "}", rest);
      ParseSerializedMember(ms[0], "," + tail);
      SerializeMembersStart(ms[1..]);
      SkipWsAtValue(tail);
      ParseSerializedMembers(ms[1..], rest);
      MembersMore(s, ms[0], tail, ms[1..], rest);
      assert [ms[0]] + ms[1..] == ms;
    }
  }

  /** `JSON.parse(JSON.stringify(v))` gives `v` back. */
  lemma {:induction false} ParseOfSerialize(v: Json)
    requires Canonical(v)
    ensures Parse(Serialize(v)) == Success(v)
  {
    SerializeStart(v);
    ParseSerialized(v, []);
    assert Serialize(v) + [] == Serialize(v);
  }
  // ---------------------------------------------------------------------------
  // A serialization is a single line

  lemma {:induction false} NoControlAppend(a: string, b: string)
    requires NoControl(a) && NoControl(b)
    ensures NoControl(a + b)
  {
    forall i | 0 <= i < |a + b|
      ensures (a + b)[i] >= ' '
    {
      if i >= |a| {
        assert (a + b)[i] == b[i - |a|];
      }
    }
  }

  lemma {:induction false} EscapeNoControl(s: string)
    ensures NoControl(Escape(s))
    decreases |s|
  {
    if |s| > 0 {
      EscapeNoControl(s[1..]);
      NoControlAppend(EscapeChar(s[0]), Escape(s[1..]));
    }
  }

  /** No control character, and so no line break, appears in the text
      `JSON.stringify` writes for a canonical value. */
  lemma {:induction false} SerializeNoControl(v: Json)
    requires Canonical(v)
    ensures NoControl(Serialize(v))
    decreases v, 1
  {
    match v
    case JNull =>
    case JBool(b) =>
    case JNumber(l) =>
    case JString(str) =>
      EscapeNoControl(str);
      NoControlAppend("\"", Escape(str));
      NoControlAppend("\"" + Escape(str), "\"");
    case JArray(items) =>
      SerializeItemsNoControl(items);
      NoControlAppend("[", SerializeItems(items));
      NoControlAppend("[" + SerializeItems(items), "]");
    case JObject(ms) =>
      SerializeMembersNoControl(ms);
      NoControlAppend("{", SerializeMembers(ms));
      NoControlAppend("{" + SerializeMembers(ms), "}");
  }

  lemma {:induction false} SerializeItemsNoControl(items: seq<Json>)
    requires forall i :: 0 <= i < |items| ==> Canonical(items[i])
    ensures NoControl(SerializeItems(items))
    decreases items, 0
  {
    if |items| == 1 {
      SerializeNoControl(items[0]);
    } else if |items| > 1 {
      SerializeNoControl(items[0]);
      SerializeItemsNoControl(items[1..]);
      NoControlAppend(Serialize(items[0]), ",");
      NoControlAppend(Serialize(items[0]) + ",", SerializeItems(items[1..]));
    }
  }

  lemma {:induction false} SerializeMembersNoControl(ms: seq<Member>)
    requires forall i :: 0 <= i < |ms| ==> Canonical(ms[i].value)
    ensures NoControl(SerializeMembers(ms))
    decreases ms, 0
  {
    if |ms| >= 1 {
      var m := ms[0];
      EscapeNoControl(m.key);
      SerializeNoControl(m.value);
      NoControlAppend("\"", Escape(m.key));
      NoControlAppend("\"" + Escape(m.key), "\":");
      assert "\"" + Escape(m.key) + "\"" + ":" == "\"" + Escape(m.key) + "\":";
      NoControlAppend("\"" + Escape(m.key) + "\":", Serialize(m.value));
      if |ms| > 1 {
        SerializeMembersNoControl(ms[1..]);
        NoControlAppend(SerializeMember(m), ",");
        NoControlAppend(SerializeMember(m) + ",", SerializeMembers(ms[1..]));
      }
    }
  }
}
