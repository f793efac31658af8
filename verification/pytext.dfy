/**
 The few Python `str` and `int` operations the application relies on, written
 over `string` (a `seq<char>`): whitespace stripping, prefix tests, ASCII case
 mapping, `split`/`join`, `str(n)` for integers and `int(text)`.
 */
module PyText {
  import opened Wrappers

  // ---------------------------------------------------------------------------
  // Characters
  // ---------------------------------------------------------------------------

  /** The characters Python's `str.isspace()` accepts (and `strip()`/`split()` drop). */
  predicate IsSpace(c: char) {
    var n := c as int;
    (9 <= n <= 13) || (28 <= n <= 32) || n == 0x85 || n == 0xA0 || n == 0x1680
    || (0x2000 <= n <= 0x200A) || n == 0x2028 || n == 0x2029 || n == 0x202F
    || n == 0x205F || n == 0x3000
  }

  predicate IsDigit(c: char) {
    '0' <= c <= '9'
  }

  function DigitValue(c: char): (d: nat)
    requires IsDigit(c)
    ensures d < 10
  {
    c as int - '0' as int
  }

  function DigitChar(d: nat): (c: char)
    requires d < 10
    ensures IsDigit(c) && DigitValue(c) == d
  {
    ('0' as int + d) as char
  }

  /** ASCII lower-casing of one character. */
  function LowerChar(c: char): char {
    if 'A' <= c <= 'Z' then (c as int + 32) as char else c
  }

  /** ASCII upper-casing of one character. */
  function UpperChar(c: char): char {
    if 'a' <= c <= 'z' then (c as int - 32) as char else c
  }

  /** `s.lower()` restricted to the ASCII letters. */
  function Lower(s: string): (r: string)
    ensures |r| == |s|
    ensures forall i :: 0 <= i < |s| ==> r[i] == LowerChar(s[i])
  {
    seq(|s|, i requires 0 <= i < |s| => LowerChar(s[i]))
  }

  /** `s.upper()` restricted to the ASCII letters. */
  function Upper(s: string): (r: string)
    ensures |r| == |s|
    ensures forall i :: 0 <= i < |s| ==> r[i] == UpperChar(s[i])
  {
    seq(|s|, i requires 0 <= i < |s| => UpperChar(s[i]))
  }

  // ---------------------------------------------------------------------------
  // Prefixes, membership, stripping
  // ---------------------------------------------------------------------------

  /** `s.startswith(p)`. */
  predicate StartsWith(s: string, p: string) {
    |p| <= |s| && s[..|p|] == p
  }

  /** `sub in s` for strings. */
  predicate Contains(s: string, sub: string)
    decreases |s|
  {
    StartsWith(s, sub) || (|s| > 0 && Contains(s[1..], sub))
  }

  /** `s.lstrip()`: the suffix of `s` left after dropping leading whitespace. */
  function LStrip(s: string): (r: string)
    ensures |r| <= |s| && r == s[|s| - |r|..]
    ensures r == [] || !IsSpace(r[0])
    ensures forall i :: 0 <= i < |s| - |r| ==> IsSpace(s[i])
  {
    if |s| > 0 && IsSpace(s[0]) then LStrip(s[1..]) else s
  }

  /** `s.rstrip()`: the prefix of `s` left after dropping trailing whitespace. */
  function RStrip(s: string): (r: string)
    ensures |r| <= |s| && r == s[..|r|]
    ensures r == [] || !IsSpace(r[|r| - 1])
    ensures forall i :: |r| <= i < |s| ==> IsSpace(s[i])
  {
    if |s| > 0 && IsSpace(s[|s| - 1]) then RStrip(s[..|s| - 1]) else s
  }

  /** `s.strip()`. */
  function Strip(s: string): (r: string)
  {
    RStrip(LStrip(s))
  }

  /** A stripped text has whitespace at neither end. */
  lemma StripEdges(s: string)
    ensures Strip(s) == [] || (!IsSpace(Strip(s)[0]) && !IsSpace(Strip(s)[|Strip(s)| - 1]))
  {
    var l := LStrip(s);
    var r := RStrip(l);
    if r != [] {
      assert r[0] == l[0];
    }
  }

  /** A string with whitespace at neither end is its own strip. */
  lemma StripNoEdgeSpace(s: string)
    requires s == [] || (!IsSpace(s[0]) && !IsSpace(s[|s| - 1]))
    ensures Strip(s) == s
  {
  }

  /** Stripping twice is stripping once. */
  lemma StripIdempotent(s: string)
    ensures Strip(Strip(s)) == Strip(s)
  {
    StripEdges(s);
    StripNoEdgeSpace(Strip(s));
  }

  /** `s.strip(c)` for a single character `c`. */
  function StripChar(s: string, c: char): (r: string)
    ensures |r| <= |s|
    ensures r == [] || (r[0] != c && r[|r| - 1] != c)
    decreases |s|
  {
    if |s| > 0 && s[0] == c then StripChar(s[1..], c)
    else if |s| > 0 && s[|s| - 1] == c then StripChar(s[..|s| - 1], c)
    else s
  }

  // ---------------------------------------------------------------------------
  // split / join
  // ---------------------------------------------------------------------------

  /** Where the Python slice `xs[start:]` begins in a list of length `len`. */
  function SliceStart(len: nat, start: int): (i: nat)
    ensures i <= len
  {
    if start < 0 then (if len + start < 0 then 0 else len + start)
    else if start > len then len else start
  }

  /** `sep.join(parts)`. */
  function Join(parts: seq<string>, sep: string): string {
    if |parts| == 0 then ""
    else if |parts| == 1 then parts[0]
    else parts[0] + sep + Join(parts[1..], sep)
  }

  /** `s.split(sep)` for a one-character separator: the pieces between separators. */
  function Split(s: string, sep: char): (parts: seq<string>)
    ensures |parts| >= 1
    ensures forall k :: 0 <= k < |parts| ==> sep !in parts[k]
    decreases |s|
  {
    if sep !in s then [s]
    else
      var i := IndexOf(s, sep);
      [s[..i]] + Split(s[i + 1..], sep)
  }

  /** Index of the first occurrence of `c` in `s`. */
  function IndexOf(s: string, c: char): (i: nat)
    requires c in s
    ensures i < |s| && s[i] == c && c !in s[..i]
  {
    if s[0] == c then 0 else 1 + IndexOf(s[1..], c)
  }

  /** Splitting two separator-free pieces joined by the separator gives the
      two pieces back. */
  lemma SplitTwo(a: string, b: string, sep: char)
    requires sep !in a && sep !in b
    ensures Split(a + [sep] + b, sep) == [a, b]
  {
    var t := a + [sep] + b;
    assert t[|a|] == sep;
    var i := IndexOf(t, sep);
    assert i == |a|;
    assert t[..i] == a;
    assert t[i + 1..] == b;
    assert Split(b, sep) == [b];
  }

  /** Joining the pieces of a split with the same separator gives back the text. */
  lemma {:induction false} JoinSplit(s: string, sep: char)
    ensures Join(Split(s, sep), [sep]) == s
    decreases |s|
  {
    if sep in s {
      var i := IndexOf(s, sep);
      var head, tail := s[..i], s[i + 1..];
      var rest := Split(tail, sep);
      JoinSplit(tail, sep);
      assert Split(s, sep) == [head] + rest;
      JoinCons(head, rest, [sep]);
      assert s == head + [sep] + tail;
    }
  }

  /** Joining a list of at least two pieces puts the separator after the first. */
  lemma JoinCons(first: string, rest: seq<string>, sep: string)
    requires |rest| >= 1
    ensures Join([first] + rest, sep) == first + sep + Join(rest, sep)
  {
    assert ([first] + rest)[1..] == rest;
  }

  /** The characters of `s` that are not whitespace, in order. */
  function NonSpace(s: string): string {
    if |s| == 0 then "" else (if IsSpace(s[0]) then "" else [s[0]]) + NonSpace(s[1..])
  }

  /** The parts run together: `"".join(parts)`. */
  function Concat(parts: seq<string>): string {
    if |parts| == 0 then "" else parts[0] + Concat(parts[1..])
  }

  /** The leading run of non-whitespace characters of `s`. */
  function Word(s: string): (w: string)
    ensures |w| <= |s| && w == s[..|w|]
    ensures NoSpace(w)
    ensures |w| == |s| || IsSpace(s[|w|])
    ensures |s| > 0 && !IsSpace(s[0]) ==> |w| > 0
  {
    if |s| == 0 || IsSpace(s[0]) then "" else [s[0]] + Word(s[1..])
  }

  /** `s.split()` with no argument: the maximal runs of non-whitespace. */
  function SplitWhitespace(s: string): (words: seq<string>)
    decreases |s|
  {
    var t := LStrip(s);
    if t == "" then []
    else
      var w := Word(t);
      [w] + SplitWhitespace(t[|w|..])
  }

  /** Every piece of `split()` is a non-empty run without whitespace. */
  lemma {:induction false} SplitWhitespaceWords(s: string)
    ensures forall k :: 0 <= k < |SplitWhitespace(s)| ==> IsWord(SplitWhitespace(s)[k])
    decreases |s|
  {
    var t := LStrip(s);
    if t != "" {
      var w := Word(t);
      var rest := t[|w|..];
      var more := SplitWhitespace(rest);
      SplitWhitespaceWords(rest);
      assert IsWord(w);
      assert SplitWhitespace(s) == [w] + more;
      forall k | 0 <= k < |[w] + more| ensures IsWord(([w] + more)[k]) {
        if k > 0 {
          assert ([w] + more)[k] == more[k - 1];
        }
      }
    }
  }

  predicate NoSpace(w: string) {
    forall i :: 0 <= i < |w| ==> !IsSpace(w[i])
  }

  /** A word of `split()`: non-empty, no whitespace. */
  predicate IsWord(w: string) {
    w != "" && NoSpace(w)
  }

  lemma {:induction false} NonSpaceAppend(a: string, b: string)
    ensures NonSpace(a + b) == NonSpace(a) + NonSpace(b)
  {
    if |a| > 0 {
      assert (a + b)[1..] == a[1..] + b;
      NonSpaceAppend(a[1..], b);
    } else {
      assert a + b == b;
    }
  }

  lemma {:induction false} NonSpaceAllSpace(s: string)
    requires forall i :: 0 <= i < |s| ==> IsSpace(s[i])
    ensures NonSpace(s) == ""
  {
    if |s| > 0 {
      NonSpaceAllSpace(s[1..]);
    }
  }

  lemma {:induction false} NonSpaceNoSpace(s: string)
    requires forall i :: 0 <= i < |s| ==> !IsSpace(s[i])
    ensures NonSpace(s) == s
  {
    if |s| > 0 {
      NonSpaceNoSpace(s[1..]);
    }
  }

  /** `split()` loses exactly the whitespace: gluing the words back together gives
      the non-whitespace characters of the text, in order. */
  lemma {:induction false} SplitWhitespaceKeepsText(s: string)
    ensures Concat(SplitWhitespace(s)) == NonSpace(s)
    decreases |s|
  {
    var t := LStrip(s);
    NonSpaceLStrip(s);
    if t != "" {
      var w := Word(t);
      var rest := t[|w|..];
      assert SplitWhitespace(s) == [w] + SplitWhitespace(rest);
      assert Concat([w] + SplitWhitespace(rest)) == w + Concat(SplitWhitespace(rest));
      NonSpaceWord(t);
      SplitWhitespaceKeepsText(rest);
    }
  }

  lemma NonSpaceLStrip(s: string)
    ensures NonSpace(s) == NonSpace(LStrip(s))
  {
    var t := LStrip(s);
    var lead := s[..|s| - |t|];
    assert s == lead + t;
    NonSpaceAppend(lead, t);
    NonSpaceAllSpace(lead);
  }

  lemma NonSpaceWord(t: string)
    ensures NonSpace(t) == Word(t) + NonSpace(t[|Word(t)|..])
  {
    var w := Word(t);
    var rest := t[|w|..];
    assert t == w + rest;
    NonSpaceAppend(w, rest);
    NonSpaceNoSpace(w);
  }

  /** Splitting a join of separator-free pieces gives the pieces back. */
  lemma {:induction false} SplitJoin(parts: seq<string>, sep: char)
    requires |parts| >= 1
    requires forall k :: 0 <= k < |parts| ==> sep !in parts[k]
    ensures Split(Join(parts, [sep]), sep) == parts
  {
    if |parts| > 1 {
      var p := parts[0];
      var j := Join(parts[1..], [sep]);
      var s := Join(parts, [sep]);
      assert s == p + [sep] + j;
      assert s[|p|] == sep;
      var i := IndexOf(s, sep);
      assert s[..i] == p;
      assert s[i + 1..] == j;
      SplitJoin(parts[1..], sep);
    }
  }

  /** A character in none of the pieces and not in the separator is not in their join. */
  lemma {:induction false} JoinExcludes(parts: seq<string>, sep: string, c: char)
    requires c !in sep
    requires forall k :: 0 <= k < |parts| ==> c !in parts[k]
    ensures c !in Join(parts, sep)
    decreases |parts|
  {
    if |parts| > 1 {
      JoinExcludes(parts[1..], sep, c);
    }
  }

  /** Leading whitespace does not change `split()`. */
  lemma SplitWhitespaceSpaceCons(c: char, x: string)
    requires IsSpace(c)
    ensures SplitWhitespace([c] + x) == SplitWhitespace(x)
  {
    assert ([c] + x)[1..] == x;
    assert LStrip([c] + x) == LStrip(x);
  }

  /** The first word of a word followed by whitespace is that word. */
  lemma {:induction false} WordBeforeSpace(w: string, x: string)
    requires NoSpace(w)
    requires x == [] || IsSpace(x[0])
    ensures Word(w + x) == w
  {
    if |w| > 0 {
      assert (w + x)[1..] == w[1..] + x;
      WordBeforeSpace(w[1..], x);
    } else {
      assert w + x == x;
    }
  }

  /** A word followed by whitespace (or nothing) splits off as the first piece. */
  lemma SplitWhitespaceWordCons(w: string, x: string)
    requires IsWord(w)
    requires x == [] || IsSpace(x[0])
    ensures SplitWhitespace(w + x) == [w] + SplitWhitespace(x)
  {
    var s := w + x;
    assert s[0] == w[0];
    assert LStrip(s) == s;
    WordBeforeSpace(w, x);
    assert s[|w|..] == x;
  }

  /** `" ".join(words).split() == words` for words without whitespace. */
  lemma {:induction false} SplitWhitespaceJoin(words: seq<string>)
    requires forall k :: 0 <= k < |words| ==> IsWord(words[k])
    ensures SplitWhitespace(Join(words, " ")) == words
  {
    if |words| == 1 {
      SplitWhitespaceWordCons(words[0], []);
      assert words[0] + [] == words[0];
    } else if |words| > 1 {
      var j := Join(words[1..], " ");
      assert Join(words, " ") == words[0] + ([' '] + j);
      SplitWhitespaceWordCons(words[0], [' '] + j);
      SplitWhitespaceSpaceCons(' ', j);
      SplitWhitespaceJoin(words[1..]);
      assert words == [words[0]] + words[1..];
    }
  }

  /** `s.strip(c)` leaves a string without `c` at its ends alone. */
  lemma StripCharNone(s: string, c: char)
    requires s == [] || (s[0] != c && s[|s| - 1] != c)
    ensures StripChar(s, c) == s
  {
  }

  /** `('"' + v + '"').strip('"') == v` for a value without quotes at its ends. */
  lemma StripQuotes(v: string)
    requires v == [] || (v[0] != '"' && v[|v| - 1] != '"')
    ensures StripChar("\"" + v + "\"", '"') == v
  {
    var q := "\"" + v + "\"";
    assert q[1..] == v + "\"";
    if v == [] {
      assert StripChar(q[1..], '"') == StripChar([], '"');
    } else {
      assert (v + "\"")[..|v|] == v;
      StripCharNone(v, '"');
    }
  }

  // ---------------------------------------------------------------------------
  // Integers: str(n), f"{n:02d}" and int(text)
  // ---------------------------------------------------------------------------

  /** `str(n)` for a natural number. */
  function NatToString(n: nat): (s: string)
    ensures |s| >= 1
    ensures forall i :: 0 <= i < |s| ==> IsDigit(s[i])
    ensures |s| > 1 ==> s[0] != '0'
  {
    if n < 10 then [DigitChar(n)] else NatToString(n / 10) + [DigitChar(n % 10)]
  }

  /** `str(i)` for any integer. */
  function IntToString(i: int): string {
    if i < 0 then "-" + NatToString(-i) else NatToString(i)
  }

  /** The value of a string of decimal digits. */
  function DigitsValue(s: string): nat
    requires forall i :: 0 <= i < |s| ==> IsDigit(s[i])
  {
    if |s| == 0 then 0 else DigitsValue(s[..|s| - 1]) * 10 + DigitValue(s[|s| - 1])
  }

  /** Reading back the decimal digits of `n` gives `n`. */
  lemma {:induction false} DigitsValueNatToString(n: nat)
    ensures DigitsValue(NatToString(n)) == n
  {
    if n >= 10 {
      var s := NatToString(n);
      assert s[..|s| - 1] == NatToString(n / 10);
      DigitsValueNatToString(n / 10);
    }
  }

  /** Different numbers print differently. */
  lemma NatToStringInjective(m: nat, n: nat)
    requires NatToString(m) == NatToString(n)
    ensures m == n
  {
    DigitsValueNatToString(m);
    DigitsValueNatToString(n);
  }

  /** `f"{n:02d}"`: at least two characters, zero-padded after any sign. */
  function Pad2(n: int): (s: string)
    ensures |s| >= 2
  {
    if n < 0 then "-" + NatToString(-n)
    else if n < 10 then "0" + NatToString(n)
    else NatToString(n)
  }

  /** A number below 100 is printed as exactly two digits that read back as it. */
  lemma Pad2Digits(n: int)
    requires 0 <= n < 100
    ensures |Pad2(n)| == 2
    ensures forall i :: 0 <= i < 2 ==> IsDigit(Pad2(n)[i])
    ensures DigitsValue(Pad2(n)) == n
  {
    var s := Pad2(n);
    if n < 10 {
      assert NatToString(0) == [DigitChar(0)];
      assert NatToString(n) == [DigitChar(n)];
      assert s == [DigitChar(0), DigitChar(n)];
      assert s[..1] == [DigitChar(0)];
    } else {
      assert NatToString(n / 10) == [DigitChar(n / 10)];
      assert NatToString(n) == NatToString(n / 10) + [DigitChar(n % 10)];
      assert s == [DigitChar(n / 10), DigitChar(n % 10)];
      assert s[..1] == [DigitChar(n / 10)];
    }
    assert s[..1][..0] == [];
    assert DigitsValue(s[..1]) == DigitValue(s[0]);
    assert DigitsValue(s) == DigitValue(s[0]) * 10 + DigitValue(s[1]);
  }

  /** The digits of `s` with the `_` separators Python allows removed. */
  function DropUnderscores(s: string): string {
    if |s| == 0 then "" else (if s[0] == '_' then "" else [s[0]]) + DropUnderscores(s[1..])
  }

  /** A digit string in Python's integer-literal shape: digits, with single `_`
      separators strictly between digits. */
  predicate DigitBody(s: string) {
    && |s| > 0
    && (forall i :: 0 <= i < |s| ==> IsDigit(s[i]) || s[i] == '_')
    && IsDigit(s[0]) && IsDigit(s[|s| - 1])
    && NoDoubleUnderscore(s)
  }

  /** No two `_` stand next to each other. */
  predicate NoDoubleUnderscore(s: string)
    decreases |s|
  {
    |s| < 2 || (!(s[0] == '_' && s[1] == '_') && NoDoubleUnderscore(s[1..]))
  }

  lemma {:induction false} DigitsNoDoubleUnderscore(s: string)
    requires forall i :: 0 <= i < |s| ==> IsDigit(s[i])
    ensures NoDoubleUnderscore(s)
    decreases |s|
  {
    if |s| >= 2 {
      DigitsNoDoubleUnderscore(s[1..]);
    }
  }

  lemma {:induction false} DropUnderscoresDigits(s: string)
    requires forall i :: 0 <= i < |s| ==> IsDigit(s[i]) || s[i] == '_'
    ensures forall i :: 0 <= i < |DropUnderscores(s)| ==> IsDigit(DropUnderscores(s)[i])
  {
    if |s| > 0 {
      DropUnderscoresDigits(s[1..]);
    }
  }

  lemma {:induction false} DropUnderscoresNone(s: string)
    requires forall i :: 0 <= i < |s| ==> IsDigit(s[i])
    ensures DropUnderscores(s) == s
  {
    if |s| > 0 {
      DropUnderscoresNone(s[1..]);
    }
  }

  /** Python's `int(text)` on a `str`: `None` stands for the `ValueError`. */
  function ParseInt(text: string): Option<int> {
    ParseSigned(Strip(text))
  }

  /** `int()` once the surrounding whitespace is gone: an optional sign, then
      a digit body. */
  function ParseSigned(t: string): Option<int> {
    var neg := |t| > 0 && t[0] == '-';
    var body := if |t| > 0 && (t[0] == '-' || t[0] == '+') then t[1..] else t;
    if !DigitBody(body) then None
    else Some(if neg then -(BodyValue(body) as int) else BodyValue(body) as int)
  }

  /** The value of a digit body, separators ignored. */
  function BodyValue(body: string): nat
    requires DigitBody(body)
  {
    DropUnderscoresDigits(body);
    DigitsValue(DropUnderscores(body))
  }

  /** A run of plain digits is a digit body worth its digits' value. */
  lemma BodyValueDigits(digits: string)
    requires |digits| >= 1 && forall k :: 0 <= k < |digits| ==> IsDigit(digits[k])
    ensures DigitBody(digits) && BodyValue(digits) == DigitsValue(digits)
  {
    DigitsNoDoubleUnderscore(digits);
    DropUnderscoresNone(digits);
  }

  /** `int(str(i)) == i`. */
  lemma ParseIntToString(i: int)
    ensures ParseInt(IntToString(i)) == Some(i)
  {
    var m: nat := if i < 0 then -i else i;
    DigitsValueNatToString(m);
    if i < 0 {
      ParseNegative(NatToString(m), m);
    } else {
      ParseUnsigned(NatToString(m), m);
    }
  }

  /** A run of digits whose value is `v` reads as `v`. */
  lemma ParseUnsigned(digits: string, v: nat)
    requires |digits| >= 1 && forall k :: 0 <= k < |digits| ==> IsDigit(digits[k])
    requires v == DigitsValue(digits)
    ensures ParseInt(digits) == Some(v as int)
  {
    BodyValueDigits(digits);
    DigitsNotSpace(digits);
    UnsignedBody(digits, v);
  }

  /** A digit body of value `v` with no sign and no edge space reads as `v`. */
  lemma UnsignedBody(d: string, v: nat)
    requires DigitBody(d) && !IsSpace(d[0]) && !IsSpace(d[|d| - 1]) && BodyValue(d) == v
    ensures ParseInt(d) == Some(v as int)
  {
    StripNoEdgeSpace(d);
  }

  /** A minus sign followed by a run of digits whose value is `v` reads as
      minus `v`. */
  lemma ParseNegative(digits: string, v: nat)
    requires |digits| >= 1 && forall k :: 0 <= k < |digits| ==> IsDigit(digits[k])
    requires v == DigitsValue(digits)
    ensures ParseInt("-" + digits) == Some(-(v as int))
  {
    BodyValueDigits(digits);
    DigitsNotSpace(digits);
    NegativeBody(digits, v);
  }

  /** A minus sign before a digit body of value `v` ending in a non-space
      reads as minus `v`. */
  lemma NegativeBody(d: string, v: nat)
    requires DigitBody(d) && !IsSpace(d[|d| - 1]) && BodyValue(d) == v
    ensures ParseInt("-" + d) == Some(-(v as int))
  {
    var s := "-" + d;
    assert s[|s| - 1] == d[|d| - 1];
    StripNoEdgeSpace(s);
    assert s[0] == '-' && s[1..] == d;
  }

  lemma DigitsNotSpace(d: string)
    requires |d| >= 1 && forall i :: 0 <= i < |d| ==> IsDigit(d[i])
    ensures !IsSpace(d[0]) && !IsSpace(d[|d| - 1])
  {
  }

  /** A text `int()` accepts has a digit in it, so the empty text and blank text are refused. */
  lemma ParseIntBlank(text: string)
    requires Strip(text) == ""
    ensures ParseInt(text) == None
  {
  }
}
