/** String helpers with the semantics of the JavaScript built-ins the program uses:
    `toLowerCase`, `startsWith`/`endsWith`/`includes`, `replace` with a string
    pattern, `split` on one character, `trim`, `String(n)` for a non-negative
    integer, and Node's `path.basename`. */
module Text {

  // ---------------------------------------------------------------------------
  // Characters

  /** `toLowerCase` on one character. ASCII letters and the Kelvin sign (which
      lower-cases to an ASCII `k`) are mapped; every other character is kept.
      JavaScript maps further non-ASCII letters. Apart from U+0130, which
      becomes `i` followed by a combining dot, their lower-case forms hold no
      ASCII character, and no suffix or language code compared in this model
      contains an `i`, so no comparison here can tell the two apart. */
  function LowerChar(c: char): char {
    if 'A' <= c <= 'Z' then (c as int - 'A' as int + 'a' as int) as char
    else if c == '\U{212A}' then 'k'
    else c
  }

  function Lower(s: string): (r: string)
    ensures |r| == |s|
    ensures forall i :: 0 <= i < |s| ==> r[i] == LowerChar(s[i])
  {
    if s == [] then [] else [LowerChar(s[0])] + Lower(s[1..])
  }

  lemma LowerAppend(a: string, b: string)
    ensures Lower(a + b) == Lower(a) + Lower(b)
  {
    forall i | 0 <= i < |a + b|
      ensures Lower(a + b)[i] == (Lower(a) + Lower(b))[i]
    {
      if i < |a| {
        assert (a + b)[i] == a[i];
      } else {
        assert (a + b)[i] == b[i - |a|];
      }
    }
  }

  // ---------------------------------------------------------------------------
  // UTF-16

  /** A UTF-16 code unit: JavaScript's `length` and `substring` count and cut
      strings in these, while a Dafny `char` is a whole Unicode scalar value. */
  type CodeUnit = n: nat | n < 0x10000

  predicate IsAstral(c: char) {
    c as int >= 0x10000
  }

  /** The code units of one character: the character itself below U+10000,
      else a high surrogate followed by a low one. */
  function CharUnits(c: char): (u: seq<CodeUnit>)
    ensures |u| == if IsAstral(c) then 2 else 1
    ensures !IsAstral(c) ==> u[0] == c as int
    ensures IsAstral(c) ==> 0xD800 <= u[0] < 0xDC00 <= u[1] < 0xE000
  {
    if !IsAstral(c) then [c as int]
    else
      var v := c as int - 0x10000;
      [0xD800 + v / 0x400, 0xDC00 + v % 0x400]
  }

  /** A surrogate pair decodes back to the character it encodes. */
  lemma CharUnitsDecode(c: char)
    requires IsAstral(c)
    ensures var u := CharUnits(c); 0x10000 + (u[0] as int - 0xD800) * 0x400 + (u[1] as int - 0xDC00) == c as int
  {
  }

  function AstralCount(s: string): nat {
    if s == [] then 0 else (if IsAstral(s[0]) then 1 else 0) + AstralCount(s[1..])
  }

  /** The UTF-16 encoding of a string: one unit per character, plus one more
      for each character beyond U+FFFF. */
  function Utf16(s: string): (u: seq<CodeUnit>)
    ensures |u| == |s| + AstralCount(s)
  {
    if s == [] then [] else CharUnits(s[0]) + Utf16(s[1..])
  }

  lemma {:induction false} Utf16Append(a: string, b: string)
    ensures Utf16(a + b) == Utf16(a) + Utf16(b)
  {
    if a == [] {
      assert a + b == b;
    } else {
      assert (a + b)[0] == a[0];
      assert (a + b)[1..] == a[1..] + b;
      Utf16Append(a[1..], b);
      calc {
        Utf16(a + b);
        CharUnits(a[0]) + Utf16(a[1..] + b);
        CharUnits(a[0]) + (Utf16(a[1..]) + Utf16(b));
        (CharUnits(a[0]) + Utf16(a[1..])) + Utf16(b);
        Utf16(a) + Utf16(b);
      }
    }
  }

  /** Without characters beyond U+FFFF, units and characters coincide. */
  lemma {:induction false} Utf16Bmp(s: string)
    requires AstralCount(s) == 0
    ensures |Utf16(s)| == |s|
    ensures forall i :: 0 <= i < |s| ==> !IsAstral(s[i]) && Utf16(s)[i] == s[i] as int
  {
    if s != [] {
      Utf16Bmp(s[1..]);
      assert forall i :: 1 <= i < |s| ==> s[i] == s[1..][i - 1];
    }
  }

  /** When every character lies beyond U+FFFF, each takes two units. */
  lemma {:induction false} AllAstralCount(s: string)
    requires forall i :: 0 <= i < |s| ==> IsAstral(s[i])
    ensures AstralCount(s) == |s| && |Utf16(s)| == 2 * |s|
  {
    if s != [] {
      AllAstralCount(s[1..]);
    }
  }

  /** When every character lies beyond U+FFFF, character `i` takes units
      `2i` and `2i + 1`. */
  lemma {:induction false} Utf16AstralAt(s: string, i: nat)
    requires forall j :: 0 <= j < |s| ==> IsAstral(s[j])
    requires i < |s|
    ensures |Utf16(s)| == 2 * |s|
    ensures Utf16(s)[2 * i] == CharUnits(s[i])[0] && Utf16(s)[2 * i + 1] == CharUnits(s[i])[1]
  {
    AllAstralCount(s);
    if i > 0 {
      Utf16AstralAt(s[1..], i - 1);
      assert s[1..][i - 1] == s[i];
      assert Utf16(s) == CharUnits(s[0]) + Utf16(s[1..]);
    }
  }

  function Suffix(s: string, n: nat): string
    requires n <= |s|
  {
    s[|s| - n..]
  }

  predicate StartsWith(s: string, p: string) {
    |p| <= |s| && s[..|p|] == p
  }

  predicate EndsWith(s: string, p: string) {
    |p| <= |s| && Suffix(s, |p|) == p
  }

  /** `s.includes(sub)` */
  predicate Contains(s: string, sub: string) {
    exists i | 0 <= i <= |s| - |sub| :: MatchAt(s, sub, i)
  }

  /** `sub` occurs in `s` starting at index `i`. */
  predicate MatchAt(s: string, sub: string, i: int) {
    0 <= i <= |s| - |sub| && s[i..i + |sub|] == sub
  }

  /** Dropping the first character keeps a text free of the pattern. */
  lemma NotContainsTail(s: string, sub: string)
    requires s != [] && !Contains(s, sub)
    ensures !Contains(s[1..], sub)
  {
    forall i | MatchAt(s[1..], sub, i)
      ensures false
    {
      assert s[1..][i..i + |sub|] == s[i + 1..i + 1 + |sub|];
      assert MatchAt(s, sub, i + 1);
    }
  }

  // ---------------------------------------------------------------------------
  // Searching for one character

  /** Index of the first occurrence of `c`, or `|s|` when there is none. */
  function IndexOf(s: string, c: char): (i: nat)
    ensures i <= |s|
    ensures i < |s| ==> s[i] == c
    ensures forall j :: 0 <= j < i ==> s[j] != c
  {
    if s == [] then 0
    else if s[0] == c then 0
    else 1 + IndexOf(s[1..], c)
  }

  /** `s.replace(from, to)` with one-character string arguments: only the first
      occurrence is replaced. */
  function ReplaceFirst(s: string, from: char, to: char): (r: string)
    ensures |r| == |s|
    ensures forall j :: 0 <= j < |s| && j != IndexOf(s, from) ==> r[j] == s[j]
    ensures IndexOf(s, from) < |s| ==> r[IndexOf(s, from)] == to
  {
    var i := IndexOf(s, from);
    if i == |s| then s else s[..i] + [to] + s[i + 1..]
  }

  /** `s.split(c)[0]`: the text before the first `c`. */
  function BeforeFirst(s: string, c: char): (r: string)
    ensures StartsWith(s, r)
    ensures c !in r
    ensures |r| < |s| ==> s[|r|] == c
  {
    s[..IndexOf(s, c)]
  }

  /** `s.split(c).pop()`: the text after the last `c` (all of `s` when there is no `c`). */
  function AfterLast(s: string, c: char): (r: string)
    ensures EndsWith(s, r)
    ensures c !in r
    ensures |r| < |s| ==> s[|s| - |r| - 1] == c
    decreases |s|
  {
    if s == [] then []
    else if s[|s| - 1] == c then []
    else AfterLast(s[..|s| - 1], c) + [s[|s| - 1]]
  }

  /** Node's POSIX `path.basename(p)`: trailing separators are dropped, then the
      text after the last `/` is taken. */
  function Basename(p: string): (r: string)
    ensures '/' !in r
  {
    AfterLast(DropTrailing(p, '/'), '/')
  }

  /** Node's POSIX `path.join(dir, name)` for a directory without `.` or `..`
      segments or doubled separators and a relative `name`. */
  function JoinPath(dir: string, name: string): (r: string)
    ensures dir != [] ==> EndsWith(r, "/" + name)
  {
    if dir == [] then name else DropTrailing(dir, '/') + "/" + name
  }

  function DropTrailing(s: string, c: char): (r: string)
    ensures StartsWith(s, r)
    ensures r == [] || r[|r| - 1] != c
    decreases |s|
  {
    if s != [] && s[|s| - 1] == c then DropTrailing(s[..|s| - 1], c) else s
  }

  // ---------------------------------------------------------------------------
  // split / join on one character

  /** `s.split(c)` for a one-character separator. */
  function Split(s: string, c: char): (r: seq<string>)
    ensures |r| >= 1
    decreases |s|
  {
    if s == [] then [[]]
    else if s[0] == c then [[]] + Split(s[1..], c)
    else
      var rest := Split(s[1..], c);
      [[s[0]] + rest[0]] + rest[1..]
  }

  function Join(parts: seq<string>, c: char): string
    decreases |parts|
  {
    if parts == [] then []
    else if |parts| == 1 then parts[0]
    else parts[0] + [c] + Join(parts[1..], c)
  }

  lemma {:induction false} SplitNoSeparator(w: string, c: char)
    requires c !in w
    ensures Split(w, c) == [w]
    decreases |w|
  {
    if w != [] {
      SplitNoSeparator(w[1..], c);
      assert [w[0]] + w[1..] == w;
    }
  }

  /** `r` is the part of `s` after its last `c`: a `c`-free suffix that is
      either all of `s` or preceded by `c`. */
  predicate LastSegment(s: string, c: char, r: string) {
    EndsWith(s, r) && c !in r && (|r| < |s| ==> s[|s| - |r| - 1] == c)
  }

  /** There is only one such part. */
  lemma LastSegmentUnique(s: string, c: char, r1: string, r2: string)
    requires LastSegment(s, c, r1) && LastSegment(s, c, r2)
    ensures r1 == r2
  {
  }

  /** The last segment of the tail is the last segment of the whole text,
      unless it is the whole tail and the first character is not `c`. */
  lemma SegmentOfTail(s: string, c: char, last: string)
    requires s != [] && LastSegment(s[1..], c, last)
    requires |last| < |s| - 1 || s[0] == c
    ensures LastSegment(s, c, last)
  {
    SuffixOfTail(s, |last|);
    if |last| < |s| - 1 {
      assert s[|s| - |last| - 1] == s[1..][|s| - 1 - |last| - 1];
    }
  }

  /** The last piece of a split is the last segment; a split into one piece
      leaves the text whole. */
  lemma {:induction false} SplitLastSegment(s: string, c: char)
    ensures LastSegment(s, c, Split(s, c)[|Split(s, c)| - 1])
    ensures |Split(s, c)| == 1 ==> Split(s, c)[0] == s
    decreases |s|
  {
    if s != [] {
      var t := s[1..];
      SplitLastSegment(t, c);
      var rest := Split(t, c);
      var last := rest[|rest| - 1];
      if s[0] == c {
        assert Split(s, c) == [[]] + rest;
        SegmentOfTail(s, c, last);
      } else if |rest| == 1 {
        assert Split(s, c) == [[s[0]] + t];
        assert [s[0]] + t == s;
      } else {
        assert Split(s, c) == [[s[0]] + rest[0]] + rest[1..];
        assert Split(s, c)[|Split(s, c)| - 1] == last;
        if |last| == |t| {
          assert last == t;
          SplitNoSeparator(t, c);
        }
        SegmentOfTail(s, c, last);
      }
    }
  }

  /** `s.split(c).pop()` is the text after the last `c`. */
  lemma {:induction false} SplitLastIsAfterLast(s: string, c: char)
    ensures Split(s, c)[|Split(s, c)| - 1] == AfterLast(s, c)
  {
    var parts := Split(s, c);
    SplitLastSegment(s, c);
    LastSegmentIsAfterLast(s, c, parts[|parts| - 1]);
  }

  lemma LastSegmentIsAfterLast(s: string, c: char, r: string)
    requires LastSegment(s, c, r)
    ensures r == AfterLast(s, c)
  {
    LastSegmentUnique(s, c, r, AfterLast(s, c));
  }

  lemma {:induction false} SplitWordThenSeparator(w: string, c: char, t: string)
    requires c !in w
    ensures Split(w + [c] + t, c) == [w] + Split(t, c)
    decreases |w|
  {
    if w == [] {
      assert w + [c] + t == [c] + t;
      assert ([c] + t)[1..] == t;
    } else {
      var s := w + [c] + t;
      assert s[1..] == w[1..] + [c] + t;
      SplitWordThenSeparator(w[1..], c, t);
      assert [w[0]] + w[1..] == w;
    }
  }

  /** Splitting a join gives the parts back when no part contains the separator. */
  lemma {:induction false} SplitJoin(parts: seq<string>, c: char)
    requires |parts| >= 1
    requires forall i :: 0 <= i < |parts| ==> c !in parts[i]
    ensures Split(Join(parts, c), c) == parts
    decreases |parts|
  {
    if |parts| == 1 {
      SplitNoSeparator(parts[0], c);
    } else {
      SplitJoin(parts[1..], c);
      SplitWordThenSeparator(parts[0], c, Join(parts[1..], c));
      assert [parts[0]] + parts[1..] == parts;
    }
  }

  /** Joining one more part appends a separator and the part. */
  lemma {:induction false} JoinSnoc(parts: seq<string>, c: char, last: string)
    requires |parts| >= 1
    ensures Join(parts + [last], c) == Join(parts, c) + [c] + last
    decreases |parts|
  {
    if |parts| > 1 {
      JoinSnoc(parts[1..], c, last);
      assert (parts + [last])[1..] == parts[1..] + [last];
    }
  }

  /** A join of non-empty parts starts with the first part's first character
      and ends with the last part's last character. */
  lemma {:induction false} JoinEnds(parts: seq<string>, c: char)
    requires |parts| >= 1
    requires forall i :: 0 <= i < |parts| ==> |parts[i]| > 0
    ensures |Join(parts, c)| > 0
    ensures Join(parts, c)[0] == parts[0][0]
    ensures Join(parts, c)[|Join(parts, c)| - 1] == parts[|parts| - 1][|parts[|parts| - 1]| - 1]
    decreases |parts|
  {
    if |parts| > 1 {
      JoinEnds(parts[1..], c);
    }
  }

  // ---------------------------------------------------------------------------
  // trim

  /** The characters `String.prototype.trim` removes: ECMAScript WhiteSpace and
      LineTerminator. */
  predicate IsJsSpace(c: char) {
    c == '\t' || c == '\n' || c == '\U{000B}' || c == '\U{000C}' || c == '\r' || c == ' '
    || c == '\U{00A0}' || c == '\U{1680}' || ('\U{2000}' <= c <= '\U{200A}')
    || c == '\U{2028}' || c == '\U{2029}' || c == '\U{202F}' || c == '\U{205F}'
    || c == '\U{3000}' || c == '\U{FEFF}'
  }

  function TrimStart(s: string): (r: string)
    ensures EndsWith(s, r)
    ensures r == [] || !IsJsSpace(r[0])
    decreases |s|
  {
    if s != [] && IsJsSpace(s[0]) then
      var r := TrimStart(s[1..]);
      SuffixOfTail(s, |r|);
      r
    else s
  }

  /** A suffix of the tail is a suffix of the whole. */
  lemma SuffixOfTail(s: string, n: nat)
    requires 0 < |s| && n < |s|
    ensures Suffix(s[1..], n) == Suffix(s, n)
  {
  }

  function TrimEnd(s: string): (r: string)
    ensures StartsWith(s, r)
    ensures r == [] || !IsJsSpace(r[|r| - 1])
    decreases |s|
  {
    if s != [] && IsJsSpace(s[|s| - 1]) then TrimEnd(s[..|s| - 1]) else s
  }

  function Trim(s: string): string {
    TrimEnd(TrimStart(s))
  }

  /** Trimming a text that ends in a line break removes just the line break
      when the text neither starts nor ends with a space. */
  lemma TrimLine(x: string)
    requires |x| > 0 && !IsJsSpace(x[0]) && !IsJsSpace(x[|x| - 1])
    ensures Trim(x + "\n") == x
  {
    var y := x + "\n";
    assert TrimStart(y) == y;
    assert y[..|y| - 1] == x;
    assert TrimEnd(y) == TrimEnd(x);
  }

  // ---------------------------------------------------------------------------
  // Decimal numerals

  predicate IsDigit(c: char) {
    '0' <= c <= '9'
  }

  function DigitChar(d: nat): (c: char)
    requires d < 10
    ensures IsDigit(c)
  {
    (d + '0' as int) as char
  }

  function DigitValue(c: char): nat
    requires IsDigit(c)
  {
    c as int - '0' as int
  }

  /** `String(n)` for a non-negative integer below 10^21 (plain decimal, no exponent). */
  function NatToString(n: nat): (r: string)
    ensures |r| >= 1
    ensures forall i :: 0 <= i < |r| ==> IsDigit(r[i])
    ensures r[0] == '0' ==> n == 0 && |r| == 1
  {
    if n < 10 then [DigitChar(n)] else NatToString(n / 10) + [DigitChar(n % 10)]
  }

  /** `String(n)` for any integer: a minus sign before the magnitude's digits
      when negative. */
  function IntToString(n: int): (r: string)
    ensures |r| >= 1
    ensures (r[0] == '-') <==> n < 0
  {
    if n < 0 then "-" + NatToString(-n) else NatToString(n)
  }

  /** The value of a run of decimal digits. */
  function DigitsValue(s: string): nat
    requires forall i :: 0 <= i < |s| ==> IsDigit(s[i])
    decreases |s|
  {
    if s == [] then 0 else 10 * DigitsValue(s[..|s| - 1]) + DigitValue(s[|s| - 1])
  }

  lemma {:induction false} DigitsValueOfNatToString(n: nat)
    ensures DigitsValue(NatToString(n)) == n
  {
    if n >= 10 {
      DigitsValueOfNatToString(n / 10);
      var s := NatToString(n);
      assert s[..|s| - 1] == NatToString(n / 10);
    }
  }

  // ---------------------------------------------------------------------------
  // Replace-all of a literal pattern

  /** `text.replace(new RegExp(pat, 'g'), val)` when `pat` has no regular-expression
      meaning and `val` has no `$`: occurrences are found left to right, do not
      overlap, and the inserted text is not searched again. */
  function ReplaceAll(text: string, pat: string, val: string): string
    requires |pat| > 0
    decreases |text|
  {
    if |text| < |pat| then text
    else if text[..|pat|] == pat then val + ReplaceAll(text[|pat|..], pat, val)
    else [text[0]] + ReplaceAll(text[1..], pat, val)
  }

  /** Text in which the pattern does not occur is returned unchanged. */
  lemma {:induction false} ReplaceAllAbsent(text: string, pat: string, val: string)
    requires |pat| > 0
    requires !Contains(text, pat)
    ensures ReplaceAll(text, pat, val) == text
    decreases |text|
  {
    if |text| >= |pat| {
      assert text[0..0 + |pat|] == text[..|pat|];
      assert !MatchAt(text, pat, 0);
      NotContainsTail(text, pat);
      ReplaceAllAbsent(text[1..], pat, val);
      assert [text[0]] + text[1..] == text;
    }
  }

  /** A pattern is border-free when no proper non-empty prefix equals a suffix of
      the same length; then a match cannot start inside a preceding text that
      holds no match of its own. */
  predicate BorderFree(pat: string) {
    forall m :: 0 < m < |pat| ==> pat[..m] != pat[|pat| - m..]
  }

  /** A text that starts with the pattern has it replaced there. */
  lemma ReplaceAllFront(pat: string, b: string, val: string)
    requires |pat| > 0 && !Contains(b, pat)
    ensures ReplaceAll(pat + b, pat, val) == val + b
  {
    var s := pat + b;
    assert s[..|pat|] == pat;
    assert s[|pat|..] == b;
    ReplaceAllAbsent(b, pat, val);
  }

  /** No match at the front: the first character is copied. */
  lemma ReplaceAllSkip(s: string, pat: string, val: string)
    requires 0 < |pat| <= |s| && s[..|pat|] != pat
    ensures ReplaceAll(s, pat, val) == [s[0]] + ReplaceAll(s[1..], pat, val)
  {
  }

  lemma ConsRegroup(a: string, val: string, b: string)
    requires a != []
    ensures [a[0]] + (a[1..] + val + b) == a + val + b
  {
    assert [a[0]] + a[1..] == a;
  }

  /** With a border-free pattern, one occurrence surrounded by pattern-free text is
      replaced by the value and nothing else changes. */
  lemma {:induction false} ReplaceAllSingle(a: string, pat: string, b: string, val: string)
    requires |pat| > 0 && BorderFree(pat)
    requires !Contains(a, pat) && !Contains(b, pat)
    ensures ReplaceAll(a + pat + b, pat, val) == a + val + b
    decreases |a|
  {
    if a == [] {
      assert a + pat + b == pat + b;
      ReplaceAllFront(pat, b, val);
    } else {
      var s := a + pat + b;
      NoMatchAtStart(a, pat, b);
      ReplaceAllSkip(s, pat, val);
      assert s[0] == a[0] && s[1..] == a[1..] + pat + b;
      NotContainsTail(a, pat);
      ReplaceAllSingle(a[1..], pat, b, val);
      ConsRegroup(a, val, b);
    }
  }


  /** The step of `ReplaceAllSingle`: when `a` is non-empty and holds no match,
      `a + pat + b` does not start with the pattern. */
  lemma NoMatchAtStart(a: string, pat: string, b: string)
    requires |pat| > 0 && BorderFree(pat)
    requires a != [] && !Contains(a, pat)
    ensures (a + pat + b)[..|pat|] != pat
  {
    var s := a + pat + b;
    if |a| >= |pat| {
      assert s[..|pat|] == a[0..0 + |pat|];
      assert !MatchAt(a, pat, 0);
    } else {
      // a match would end inside the copy of `pat`: a border of length |pat| - |a|
      var m := |pat| - |a|;
      assert s[|a|..|pat|] == pat[..m];
      assert pat[..m] != pat[|pat| - m..];
      assert s[..|pat|][|a|..] == s[|a|..|pat|];
    }
  }
}
