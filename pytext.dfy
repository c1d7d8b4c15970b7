/**
 * The Python `str` builtins the pipeline relies on, stated over `seq<char>`:
 * `strip()`, `lower()`, `count()`, the regular expression `\d+`, `int()` and
 * `str()` of a non-negative integer, the lines `readlines()` yields in text
 * mode, and `str()` of a list of strings (the text the csv module writes for
 * a list-valued cell).
 */
module PyText {
  import opened Wrappers

  // ---------------------------------------------------------------------------
  // strip()

  /** Python's `str.isspace()`: exactly the characters `str.strip()` removes. */
  predicate IsSpace(c: char) {
    var n := c as int;
    (9 <= n <= 13) || (28 <= n <= 32) || n == 0x85 || n == 0xA0 || n == 0x1680
    || (0x2000 <= n <= 0x200A) || n == 0x2028 || n == 0x2029 || n == 0x202F
    || n == 0x205F || n == 0x3000
  }

  predicate AllSpace(s: string) {
    forall k :: 0 <= k < |s| ==> IsSpace(s[k])
  }

  /** The first position at or after k that does not hold whitespace; |s| when there is none. */
  function SkipSpace(s: string, k: nat): (n: nat)
    requires k <= |s|
    ensures k <= n <= |s|
    ensures forall j :: k <= j < n ==> IsSpace(s[j])
    ensures n < |s| ==> !IsSpace(s[n])
    decreases |s| - k
  {
    if k == |s| || !IsSpace(s[k]) then k else SkipSpace(s, k + 1)
  }

  /** The end of s[lo..e] once the whitespace at its end is cut off. */
  function SkipSpaceBack(s: string, lo: nat, e: nat): (n: nat)
    requires lo <= e <= |s|
    ensures lo <= n <= e
    ensures forall j :: n <= j < e ==> IsSpace(s[j])
    ensures lo < n ==> !IsSpace(s[n - 1])
    decreases e - lo
  {
    if e == lo || !IsSpace(s[e - 1]) then e else SkipSpaceBack(s, lo, e - 1)
  }

  /** `s.strip()`: what remains of s once the whitespace at both ends is cut off. */
  function Strip(s: string): (r: string)
    ensures |r| <= |s|
    ensures r != [] ==> !IsSpace(r[0]) && !IsSpace(r[|r| - 1])
  {
    var a := SkipSpace(s, 0);
    s[a..SkipSpaceBack(s, a, |s|)]
  }

  /**
   * The stripped text is the infix of s between a whitespace prefix and a
   * whitespace suffix.
   */
  lemma StripInfix(s: string) returns (i: nat)
    ensures i + |Strip(s)| <= |s| && Strip(s) == s[i..i + |Strip(s)|]
    ensures AllSpace(s[..i]) && AllSpace(s[i + |Strip(s)|..])
  {
    i := SkipSpace(s, 0);
    var e := SkipSpaceBack(s, i, |s|);
    assert Strip(s) == s[i..e];
    assert AllSpace(s[..i]) by {
      forall k | 0 <= k < i ensures IsSpace(s[..i][k]) {
        assert s[..i][k] == s[k];
      }
    }
    assert AllSpace(s[e..]) by {
      forall k | 0 <= k < |s| - e ensures IsSpace(s[e..][k]) {
        assert s[e..][k] == s[e + k];
      }
    }
  }

  /** A string strips to "" exactly when it is all whitespace. */
  lemma StripEmptyIff(s: string)
    ensures Strip(s) == [] <==> AllSpace(s)
  {
    var r := Strip(s);
    var i := StripInfix(s);
    if r == [] {
      forall k | 0 <= k < |s| ensures IsSpace(s[k]) {
        if k < i { assert s[k] == s[..i][k]; } else { assert s[k] == s[i..][k - i]; }
      }
    } else {
      assert r[0] == s[i];
    }
  }

  /** Stripping twice is stripping once. */
  lemma StripIdempotent(s: string)
    ensures Strip(Strip(s)) == Strip(s)
  {
    var r := Strip(s);
    assert SkipSpace(r, 0) == 0;
    assert SkipSpaceBack(r, 0, |r|) == |r|;
    assert r[0..|r|] == r;
  }

  /** A line read with its '\n', whose text has no whitespace at either end, strips to that text. */
  lemma StripLineEnd(l: string)
    requires l != [] && !IsSpace(l[0]) && !IsSpace(l[|l| - 1])
    ensures Strip(l + "\n") == l
  {
    var s := l + "\n";
    assert s[0] == l[0] && s[|s| - 2] == l[|l| - 1];
    assert SkipSpace(s, 0) == 0;
    assert SkipSpaceBack(s, 0, |s| - 1) == |s| - 1;
    assert SkipSpaceBack(s, 0, |s|) == |s| - 1;
    assert s[0..|s| - 1] == l;
  }

  /** `[t.strip() for t in texts]`. */
  function StripAll(texts: seq<string>): (r: seq<string>)
    ensures |r| == |texts|
    ensures forall i :: 0 <= i < |texts| ==> r[i] == Strip(texts[i])
  {
    seq(|texts|, i requires 0 <= i < |texts| => Strip(texts[i]))
  }

  // ---------------------------------------------------------------------------
  // lower()

  predicate IsUpper(c: char) {
    'A' <= c <= 'Z'
  }

  function LowerChar(c: char): char {
    if IsUpper(c) then (c as int + 32) as char else c
  }

  /** `str.lower()` on ASCII letters; every other character is kept. */
  function Lower(s: string): (r: string)
    ensures |r| == |s|
    ensures forall k :: 0 <= k < |s| ==> r[k] == LowerChar(s[k])
    ensures forall k :: 0 <= k < |r| ==> !IsUpper(r[k])
  {
    if s == [] then [] else [LowerChar(s[0])] + Lower(s[1..])
  }

  /** Lower-casing is idempotent. */
  lemma LowerIdempotent(s: string)
    ensures Lower(Lower(s)) == Lower(s)
  {
    var r := Lower(s);
    assert forall k :: 0 <= k < |r| ==> Lower(r)[k] == r[k];
  }

  // ---------------------------------------------------------------------------
  // str.count() of one character

  /** `s.count(c)`. */
  function Count(c: char, s: string): (n: nat)
    ensures n <= |s|
    ensures n == 0 <==> c !in s
  {
    if s == [] then 0
    else
      var p := s[..|s| - 1];
      assert s == p + [s[|s| - 1]];
      Count(c, p) + (if s[|s| - 1] == c then 1 else 0)
  }

  lemma {:induction false} CountConcat(c: char, a: string, b: string)
    ensures Count(c, a + b) == Count(c, a) + Count(c, b)
  {
    if b != [] {
      CountConcat(c, a, b[..|b| - 1]);
      assert (a + b)[..|a + b| - 1] == a + b[..|b| - 1];
    } else {
      assert a + b == a;
    }
  }

  // ---------------------------------------------------------------------------
  // split() and join() on one separator character

  /** `s.split(c)`: the pieces between the separators; "" when s is empty. */
  function Split(s: string, c: char): (parts: seq<string>)
    ensures |parts| >= 1
    ensures forall i :: 0 <= i < |parts| ==> c !in parts[i]
    decreases |s|
  {
    if s == [] then [""]
    else
      var rest := Split(s[1..], c);
      if s[0] == c then [""] + rest else [[s[0]] + rest[0]] + rest[1..]
  }

  /** `c.join(parts)`. */
  function Join(parts: seq<string>, c: char): string {
    if parts == [] then ""
    else if |parts| == 1 then parts[0]
    else parts[0] + [c] + Join(parts[1..], c)
  }

  /** `len(s.split(c))` is one more than the number of separators. */
  lemma {:induction false} SplitCount(s: string, c: char)
    ensures |Split(s, c)| == Count(c, s) + 1
    decreases |s|
  {
    if s != [] {
      SplitCount(s[1..], c);
      assert s == [s[0]] + s[1..];
      CountConcat(c, [s[0]], s[1..]);
      CountSingle(c, s[0]);
    }
  }

  /** Joining the pieces with the separator gives the text back. */
  lemma {:induction false} JoinSplit(s: string, c: char)
    ensures Join(Split(s, c), c) == s
    decreases |s|
  {
    if s != [] {
      var rest := Split(s[1..], c);
      JoinSplit(s[1..], c);
      if s[0] == c {
        assert s == [c] + s[1..];
      } else {
        var parts := [[s[0]] + rest[0]] + rest[1..];
        assert parts[1..] == rest[1..];
        if |rest| == 1 {
          assert s == [s[0]] + rest[0];
        } else {
          assert Join(rest, c) == rest[0] + [c] + Join(rest[1..], c);
          assert s == [s[0]] + (rest[0] + [c] + Join(rest[1..], c));
        }
      }
    }
  }

  /** Text without the separator is one piece. */
  lemma {:induction false} SplitNoSeparator(a: string, c: char)
    requires c !in a
    ensures Split(a, c) == [a]
    decreases |a|
  {
    if a != [] {
      SplitNoSeparator(a[1..], c);
      assert a == [a[0]] + a[1..];
    }
  }

  /** A separator-free first piece, then the separator, then the rest. */
  lemma {:induction false} SplitAfterPiece(a: string, c: char, b: string)
    requires c !in a
    ensures Split(a + [c] + b, c) == [a] + Split(b, c)
    decreases |a|
  {
    if a == [] {
      assert a + [c] + b == [c] + b;
      assert ([c] + b)[1..] == b;
    } else {
      var s := a + [c] + b;
      SplitAfterPiece(a[1..], c, b);
      assert s[1..] == a[1..] + [c] + b;
      assert s[0] == a[0];
      assert a == [a[0]] + a[1..];
    }
  }

  /** Pieces without the separator, joined and split again, come back as they were. */
  lemma {:induction false} SplitJoin(parts: seq<string>, c: char)
    requires |parts| >= 1
    requires forall i :: 0 <= i < |parts| ==> c !in parts[i]
    ensures Split(Join(parts, c), c) == parts
  {
    if |parts| == 1 {
      SplitNoSeparator(parts[0], c);
    } else {
      SplitJoin(parts[1..], c);
      SplitAfterPiece(parts[0], c, Join(parts[1..], c));
    }
  }

  // ---------------------------------------------------------------------------
  // Digits: re.search(r'(\d+)', s), int() and str()

  predicate IsDigit(c: char) {
    '0' <= c <= '9'
  }

  predicate AllDigits(s: string) {
    forall k :: 0 <= k < |s| ==> IsDigit(s[k])
  }

  function DigitChar(d: nat): (c: char)
    requires d < 10
    ensures IsDigit(c)
  {
    (d + '0' as int) as char
  }

  function DigitValue(c: char): (d: nat)
    requires IsDigit(c)
    ensures d < 10 && DigitChar(d) == c
  {
    c as int - '0' as int
  }

  /** `int(s)` for a string of ASCII digits. */
  function DigitsValue(s: string): nat
    requires AllDigits(s)
  {
    if s == [] then 0 else DigitsValue(s[..|s| - 1]) * 10 + DigitValue(s[|s| - 1])
  }

  /** `str(n)` for a non-negative integer. */
  function Decimal(n: nat): (r: string)
    ensures r != [] && AllDigits(r)
  {
    if n < 10 then [DigitChar(n)] else Decimal(n / 10) + [DigitChar(n % 10)]
  }

  /** `int(str(n)) == n`. */
  lemma {:induction false} DecimalRoundTrip(n: nat)
    ensures DigitsValue(Decimal(n)) == n
  {
    if n >= 10 {
      DecimalRoundTrip(n / 10);
      var r := Decimal(n);
      assert r[..|r| - 1] == Decimal(n / 10);
    }
  }

  /** Distinct numbers have distinct decimal texts. */
  lemma DecimalInjective(m: nat, n: nat)
    ensures Decimal(m) == Decimal(n) <==> m == n
  {
    if Decimal(m) == Decimal(n) {
      DecimalRoundTrip(m);
      DecimalRoundTrip(n);
    }
  }

  /** A digit string has a positive value exactly when one of its digits is not '0'. */
  lemma {:induction false} DigitsValuePositive(s: string)
    requires AllDigits(s)
    ensures DigitsValue(s) > 0 <==> exists k :: 0 <= k < |s| && s[k] != '0'
  {
    if s != [] {
      var p := s[..|s| - 1];
      DigitsValuePositive(p);
      assert forall k :: 0 <= k < |p| ==> p[k] == s[k];
      if DigitsValue(p) > 0 {
        var k :| 0 <= k < |p| && p[k] != '0';
        assert s[k] != '0';
      } else if s[|s| - 1] == '0' {
        forall k | 0 <= k < |s| ensures s[k] == '0' {
          if k < |p| { assert s[k] == p[k]; }
        }
      }
    }
  }

  /** The half-open range of positions a regular-expression match covers. */
  datatype Span = Span(start: nat, end: nat)

  /** How many digits s begins with. */
  function LeadingDigits(s: string): (n: nat)
    ensures n <= |s|
    ensures forall k :: 0 <= k < n ==> IsDigit(s[k])
    ensures n == |s| || !IsDigit(s[n])
  {
    if s != [] && IsDigit(s[0]) then 1 + LeadingDigits(s[1..]) else 0
  }

  /** A digit string followed by a non-digit (or nothing) is exactly the leading digits. */
  lemma {:induction false} LeadingDigitsOfDigits(d: string, rest: string)
    requires AllDigits(d) && (rest == [] || !IsDigit(rest[0]))
    ensures LeadingDigits(d + rest) == |d|
  {
    if d != [] {
      LeadingDigitsOfDigits(d[1..], rest);
      assert (d + rest)[1..] == d[1..] + rest;
    }
  }

  /**
   * The span `re.search(r'(\d+)', s)` matches: the leftmost digit and, the
   * match being greedy, every digit directly after it. No match when s holds
   * no digit.
   */
  function SearchDigits(s: string): (m: Option<Span>)
    ensures m.None? <==> forall k :: 0 <= k < |s| ==> !IsDigit(s[k])
    ensures m.Some? ==> m.value.start < m.value.end <= |s|
    ensures m.Some? ==> forall k :: 0 <= k < m.value.start ==> !IsDigit(s[k])
    ensures m.Some? ==> forall k :: m.value.start <= k < m.value.end ==> IsDigit(s[k])
    ensures m.Some? ==> m.value.end == |s| || !IsDigit(s[m.value.end])
  {
    if s == [] then None
    else if IsDigit(s[0]) then Some(Span(0, LeadingDigits(s)))
    else
      match SearchDigits(s[1..])
      case None => None
      case Some(sp) => Some(Span(sp.start + 1, sp.end + 1))
  }

  // ---------------------------------------------------------------------------
  // readlines() in text mode

  /** Text-mode reading ("universal newlines"): "\r\n" and a lone '\r' each become '\n'. */
  function UniversalNewlines(s: string): (r: string)
    ensures '\r' !in r
    decreases |s|
  {
    if s == [] then []
    else if s[0] == '\r' then
      "\n" + UniversalNewlines(if |s| > 1 && s[1] == '\n' then s[2..] else s[1..])
    else
      [s[0]] + UniversalNewlines(s[1..])
  }

  /** Text without a carriage return reads back unchanged. */
  lemma {:induction false} UniversalNewlinesPlain(s: string)
    requires '\r' !in s
    ensures UniversalNewlines(s) == s
  {
    if s != [] {
      UniversalNewlinesPlain(s[1..]);
    }
  }

  /** A line as `readlines()` yields it: not empty, no '\n' except possibly the last character. */
  predicate IsLine(l: string) {
    l != [] && '\n' !in l[..|l| - 1]
  }

  /** The length of the first line of s, its '\n' included when it has one. */
  function LineLength(s: string): (n: nat)
    requires s != []
    ensures 0 < n <= |s| && IsLine(s[..n])
    ensures n < |s| ==> s[n - 1] == '\n'
  {
    if s[0] == '\n' || |s| == 1 then 1
    else
      var n := 1 + LineLength(s[1..]);
      assert s[..n][..n - 1] == [s[0]] + s[1..][..n - 1][..n - 2];
      n
  }

  /** `file.readlines()`: the lines of s in order, each keeping its '\n'. */
  function ReadLines(s: string): seq<string>
    decreases |s|
  {
    if s == [] then [] else var n := LineLength(s); [s[..n]] + ReadLines(s[n..])
  }

  function Concat(ls: seq<string>): string {
    if ls == [] then [] else ls[0] + Concat(ls[1..])
  }

  /** A character in none of the pieces is not in their concatenation. */
  lemma {:induction false} NotInConcat(c: char, ls: seq<string>)
    requires forall i :: 0 <= i < |ls| ==> c !in ls[i]
    ensures c !in Concat(ls)
  {
    if ls != [] {
      NotInConcat(c, ls[1..]);
    }
  }

  /** The lines put back together are the text. */
  lemma {:induction false} ReadLinesConcat(s: string)
    ensures Concat(ReadLines(s)) == s
    decreases |s|
  {
    if s != [] {
      var n := LineLength(s);
      var rest := ReadLines(s[n..]);
      assert ReadLines(s) == [s[..n]] + rest;
      ReadLinesConcat(s[n..]);
      assert Concat(ReadLines(s)) == s[..n] + Concat(rest) by {
        assert ReadLines(s)[1..] == rest;
      }
      assert s == s[..n] + s[n..];
    }
  }

  /** Each piece `readlines()` yields is a line. */
  lemma {:induction false} ReadLinesAreLines(s: string)
    ensures forall i :: 0 <= i < |ReadLines(s)| ==> IsLine(ReadLines(s)[i])
    decreases |s|
  {
    if s != [] {
      var n := LineLength(s);
      var rest := ReadLines(s[n..]);
      assert ReadLines(s) == [s[..n]] + rest;
      ReadLinesAreLines(s[n..]);
    }
  }

  /** The first line holds a '\n' only when it ends with one. */
  lemma FirstLineCount(s: string)
    requires s != []
    ensures Count('\n', s[..LineLength(s)]) == if s[LineLength(s) - 1] == '\n' then 1 else 0
  {
    var n := LineLength(s);
    var line := s[..n];
    assert line == line[..n - 1] + [line[n - 1]];
    CountConcat('\n', line[..n - 1], [line[n - 1]]);
    CountSingle('\n', line[n - 1]);
  }

  /** One line per '\n', plus one for a last line without '\n'. */
  lemma {:induction false} ReadLinesCount(s: string)
    ensures |ReadLines(s)| == Count('\n', s) + (if s != [] && s[|s| - 1] != '\n' then 1 else 0)
    decreases |s|
  {
    if s != [] {
      var n := LineLength(s);
      var rest := s[n..];
      ReadLinesStep(s);
      CountAt(s, n);
      FirstLineCount(s);
      ReadLinesCount(rest);
      LastCharacter(s);
    }
  }

  lemma ReadLinesStep(s: string)
    requires s != []
    ensures |ReadLines(s)| == 1 + |ReadLines(s[LineLength(s)..])|
  {
  }

  /** Counting in s is counting on both sides of a cut. */
  lemma CountAt(s: string, n: nat)
    requires n <= |s|
    ensures Count('\n', s) == Count('\n', s[..n]) + Count('\n', s[n..])
  {
    assert s == s[..n] + s[n..];
    CountConcat('\n', s[..n], s[n..]);
  }

  /** The text's last character ends its first line, or else ends the rest. */
  lemma LastCharacter(s: string)
    requires s != []
    ensures var n := LineLength(s);
            (n == |s| ==> s[|s| - 1] == s[n - 1])
            && (n < |s| ==> s[n - 1] == '\n' && s[|s| - 1] == s[n..][|s[n..]| - 1])
  {
  }

  lemma {:induction false} LineLengthOfLine(l: string, x: string)
    requires IsLine(l) && l[|l| - 1] == '\n'
    ensures LineLength(l + x) == |l|
    decreases |l|
  {
    if |l| > 1 {
      assert l[0] != '\n' by { assert l[0] == l[..|l| - 1][0]; }
      assert IsLine(l[1..]) by { assert l[1..][..|l| - 2] == l[..|l| - 1][1..]; }
      LineLengthOfLine(l[1..], x);
      assert (l + x)[1..] == l[1..] + x;
    }
  }

  /** Lines that each end in '\n' are read back exactly. */
  lemma {:induction false} ReadLinesOfLines(ls: seq<string>)
    requires forall i :: 0 <= i < |ls| ==> IsLine(ls[i]) && ls[i][|ls[i]| - 1] == '\n'
    ensures ReadLines(Concat(ls)) == ls
  {
    if ls != [] {
      var l, x := ls[0], Concat(ls[1..]);
      LineLengthOfLine(l, x);
      assert (l + x)[..|l|] == l && (l + x)[|l|..] == x;
      ReadLinesOfLines(ls[1..]);
    }
  }

  // ---------------------------------------------------------------------------
  // str() of a list of strings

  function HexDigit(d: nat): char
    requires d < 16
  {
    "0123456789abcdef"[d]
  }

  /** The quote `repr()` puts around s: '"' only when s holds a ' and no ". */
  function QuoteFor(s: string): char {
    if '\'' in s && '"' !in s then '"' else '\''
  }

  /** How `repr()` writes one character inside quotes q. */
  function EscapeChar(c: char, q: char): string {
    if c == q || c == '\\' then ['\\', c]
    else if c == '\t' then "\\t"
    else if c == '\n' then "\\n"
    else if c == '\r' then "\\r"
    else if c as int < 32 || c as int == 127 then
      ['\\', 'x', HexDigit(c as int / 16), HexDigit(c as int % 16)]
    else [c]
  }

  function Escape(s: string, q: char): string {
    if s == [] then [] else EscapeChar(s[0], q) + Escape(s[1..], q)
  }

  /** `repr(s)`. */
  function Repr(s: string): string {
    var q := QuoteFor(s);
    [q] + Escape(s, q) + [q]
  }

  function JoinReprs(items: seq<string>): string {
    if items == [] then ""
    else if |items| == 1 then Repr(items[0])
    else Repr(items[0]) + ", " + JoinReprs(items[1..])
  }

  /** `str(items)` for a list of strings, e.g. "['a', 'b']", and "[]" for no items. */
  function ListRepr(items: seq<string>): (r: string)
    ensures |r| >= 2 && r[0] == '['
  {
    "[" + JoinReprs(items) + "]"
  }

  /** The number of c over all items. */
  function TotalCount(c: char, items: seq<string>): nat {
    if items == [] then 0 else Count(c, items[0]) + TotalCount(c, items[1..])
  }

  lemma CountSingle(c: char, x: char)
    ensures Count(c, [x]) == if x == c then 1 else 0
  {
    assert [x][..0] == [];
  }

  /** A character's escape holds a comma only when the character is one. */
  lemma EscapeCharCommas(c: char, q: char)
    requires q != ','
    ensures Count(',', EscapeChar(c, q)) == if c == ',' then 1 else 0
  {
    var e := EscapeChar(c, q);
    if c == ',' {
      CountSingle(',', c);
    } else {
      assert ',' !in e;
    }
  }

  /** Escaping neither adds nor removes a comma. */
  lemma {:induction false} EscapeKeepsCommas(s: string, q: char)
    requires q != ','
    ensures Count(',', Escape(s, q)) == Count(',', s)
  {
    if s != [] {
      EscapeKeepsCommas(s[1..], q);
      EscapeCharCommas(s[0], q);
      CountConcat(',', EscapeChar(s[0], q), Escape(s[1..], q));
      assert s == [s[0]] + s[1..];
      CountConcat(',', [s[0]], s[1..]);
      CountSingle(',', s[0]);
    }
  }

  /** `repr(s)` holds exactly the commas of s. */
  lemma ReprKeepsCommas(s: string)
    ensures Count(',', Repr(s)) == Count(',', s)
  {
    var q := QuoteFor(s);
    EscapeKeepsCommas(s, q);
    CountConcat(',', [q] + Escape(s, q), [q]);
    CountConcat(',', [q], Escape(s, q));
    CountSingle(',', q);
  }

  /** The list text holds a ", " between neighbouring items and the items' own commas. */
  lemma {:induction false} JoinReprsCommas(items: seq<string>)
    ensures Count(',', JoinReprs(items)) == (if items == [] then 0 else |items| - 1) + TotalCount(',', items)
  {
    if |items| == 1 {
      ReprKeepsCommas(items[0]);
    } else if |items| > 1 {
      JoinReprsCommas(items[1..]);
      ReprKeepsCommas(items[0]);
      CountConcat(',', Repr(items[0]) + ", ", JoinReprs(items[1..]));
      CountConcat(',', Repr(items[0]), ", ");
      assert Count(',', ", ") == 1 by {
        assert ", " == [','] + [' '];
        CountConcat(',', [','], [' ']);
        CountSingle(',', ',');
        CountSingle(',', ' ');
      }
    }
  }

  /** Commas in `str(items)`: one between each two items plus those inside the items. */
  lemma ListReprCommas(items: seq<string>)
    ensures Count(',', ListRepr(items)) == (if items == [] then 0 else |items| - 1) + TotalCount(',', items)
  {
    JoinReprsCommas(items);
    CountConcat(',', "[" + JoinReprs(items), "]");
    CountConcat(',', "[", JoinReprs(items));
    CountSingle(',', '[');
    CountSingle(',', ']');
  }
}
