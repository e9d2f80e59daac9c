/**
 * The few Python string operations the bulletin extractor relies on:
 * `str.split` and `str.join` with a one-character separator, `str(n)` for a
 * non-negative integer, `int(s)` on a string, and `str.lower`.
 */
module PyStrings {
  import opened Wrappers

  /** Index of the first `c` in `s`, or `|s|` when `s` has none. */
  function Find(s: string, c: char): (k: nat)
    ensures k <= |s|
    ensures c !in s[..k]
    ensures k < |s| ==> s[k] == c
    ensures k == |s| <==> c !in s
  {
    if |s| == 0 then 0
    else if s[0] == c then 0
    else
      assert s[1..][..Find(s[1..], c)] == s[1..1 + Find(s[1..], c)];
      assert s[..1 + Find(s[1..], c)] == [s[0]] + s[1..][..Find(s[1..], c)];
      assert s == [s[0]] + s[1..];
      1 + Find(s[1..], c)
  }

  /** `sep.join(parts)`. */
  function Join(parts: seq<string>, sep: char): string
  {
    if |parts| == 0 then ""
    else if |parts| == 1 then parts[0]
    else parts[0] + [sep] + Join(parts[1..], sep)
  }

  /** Joining a leading part onto at least one more puts one separator between them. */
  lemma JoinCons(p: string, rest: seq<string>, sep: char)
    requires |rest| >= 1
    ensures Join([p] + rest, sep) == p + [sep] + Join(rest, sep)
  {
    assert ([p] + rest)[1..] == rest;
  }

  /**
   * `s.split(sep)`: the pieces of `s` between occurrences of `sep`, cut at
   * each one from the left; there is always at least one piece.
   */
  function Split(s: string, sep: char): (parts: seq<string>)
    ensures |parts| >= 1
    decreases |s|
  {
    var k := Find(s, sep);
    if k == |s| then [s] else [s[..k]] + Split(s[k + 1..], sep)
  }

  /** No piece of a split holds the separator, and joining the pieces gives the string back. */
  lemma {:induction false} SplitPieces(s: string, sep: char)
    ensures forall k :: 0 <= k < |Split(s, sep)| ==> sep !in Split(s, sep)[k]
    ensures Join(Split(s, sep), sep) == s
    decreases |s|
  {
    var k := Find(s, sep);
    if k < |s| {
      var rest := Split(s[k + 1..], sep);
      SplitPieces(s[k + 1..], sep);
      assert s == s[..k] + [sep] + s[k + 1..];
      assert ([s[..k]] + rest)[1..] == rest;
    }
  }

  /** Python's `xs[-1]`: the last element of a non-empty list. */
  function Last<T>(xs: seq<T>): T
    requires |xs| >= 1
  {
    xs[|xs| - 1]
  }

  lemma FindAfterFree(a: string, c: char, b: string)
    requires c !in a
    ensures Find(a + [c] + b, c) == |a|
  {
    var s := a + [c] + b;
    assert s[|a|] == c;
    assert forall i :: 0 <= i < |a| ==> s[i] == a[i];
  }

  /** Splitting at a separator whose left part holds none cuts off exactly that part. */
  lemma SplitAfterFree(a: string, c: char, b: string)
    requires c !in a
    ensures Split(a + [c] + b, c) == [a] + Split(b, c)
  {
    var s := a + [c] + b;
    FindAfterFree(a, c, b);
    assert s[..|a|] == a;
    assert s[|a| + 1..] == b;
  }

  /** A string without the separator splits into itself alone. */
  lemma SplitFree(s: string, c: char)
    requires c !in s
    ensures Split(s, c) == [s]
  {
  }

  /** Whatever comes before the last separator, the last piece is the text after it. */
  lemma {:induction false} SplitLastPiece(a: string, c: char, b: string)
    requires c !in b
    ensures Last(Split(a + [c] + b, c)) == b
    decreases |a|
  {
    var s := a + [c] + b;
    var k := Find(s, c);
    assert s[|a|] == c;
    if k == |a| {
      assert s[k + 1..] == b;
      SplitFree(b, c);
    } else {
      assert forall i :: 0 <= i < |a| ==> s[i] == a[i];
      assert s[k + 1..] == a[k + 1..] + [c] + b;
      SplitLastPiece(a[k + 1..], c, b);
    }
  }

  /** Splitting undoes joining when no part holds the separator. */
  lemma {:induction false} SplitJoin(parts: seq<string>, sep: char)
    requires |parts| >= 1
    requires forall k :: 0 <= k < |parts| ==> sep !in parts[k]
    ensures Split(Join(parts, sep), sep) == parts
  {
    if |parts| == 1 {
      SplitFree(parts[0], sep);
    } else {
      SplitAfterFree(parts[0], sep, Join(parts[1..], sep));
      SplitJoin(parts[1..], sep);
    }
  }

  // ---------------------------------------------------------------- digits

  predicate IsDigit(ch: char) { '0' <= ch <= '9' }

  /** A non-empty run of ASCII decimal digits. */
  predicate IsDigits(s: string) { |s| > 0 && forall i :: 0 <= i < |s| ==> IsDigit(s[i]) }

  /** The decimal value of a run of digits (0 for the empty run). */
  function DigitsValue(s: string): nat
    requires forall i :: 0 <= i < |s| ==> IsDigit(s[i])
  {
    if |s| == 0 then 0
    else
      assert IsDigit(s[|s| - 1]);
      DigitsValue(s[..|s| - 1]) * 10 + (s[|s| - 1] as int - '0' as int)
  }

  function DigitChar(d: nat): (ch: char)
    requires d < 10
    ensures IsDigit(ch) && (ch - '0') as int == d
  {
    ('0' as int + d) as char
  }

  /** Python's `str(n)` for a non-negative integer: its decimal digits, without leading zeros. */
  function Str(n: nat): (s: string)
    ensures IsDigits(s) && DigitsValue(s) == n
    ensures |s| > 1 ==> s[0] != '0'
  {
    if n < 10 then [DigitChar(n)]
    else
      var s := Str(n / 10) + [DigitChar(n % 10)];
      assert s[..|s| - 1] == Str(n / 10);
      s
  }

  // ---------------------------------------------------------------- int()

  /**
   * The ASCII characters `int` skips around a literal: space, tab, line feed,
   * vertical tab, form feed and carriage return. The separators `\x1c`-`\x1f`,
   * which `str.isspace` accepts, are not among them.
   */
  predicate IsSpace(ch: char)
  {
    ch == ' ' || ch == '\t' || ch == '\n' || ch == '\r' || ch == '\U{B}' || ch == '\U{C}'
  }

  /** `s` without its leading and trailing white space. */
  function Strip(s: string): (t: string)
    ensures |t| <= |s|
    ensures |t| > 0 ==> !IsSpace(t[0]) && !IsSpace(t[|t| - 1])
    decreases |s|
  {
    if |s| == 0 then s
    else if IsSpace(s[0]) then Strip(s[1..])
    else if IsSpace(s[|s| - 1]) then Strip(s[..|s| - 1])
    else s
  }

  /**
   * The digits part of an integer literal as `int` reads it: digits, with
   * single underscores allowed between two digits.
   */
  predicate IsIntBody(b: string)
  {
    && |b| > 0 && IsDigit(b[0]) && IsDigit(b[|b| - 1])
    && (forall i :: 0 <= i < |b| ==> IsDigit(b[i]) || b[i] == '_')
    && (forall i :: 0 <= i < |b| - 1 ==> !(b[i] == '_' && b[i + 1] == '_'))
  }

  function DropUnderscores(b: string): (d: string)
    requires forall i :: 0 <= i < |b| ==> IsDigit(b[i]) || b[i] == '_'
    ensures forall i :: 0 <= i < |d| ==> IsDigit(d[i])
  {
    if |b| == 0 then ""
    else if b[0] == '_' then DropUnderscores(b[1..])
    else [b[0]] + DropUnderscores(b[1..])
  }

  /** CPython's default bound on the digits `int()` converts from a decimal string (`sys.get_int_max_str_digits()`). */
  const IntMaxStrDigits := 4300

  /**
   * Python's `int(s)` on a string: surrounding white space, one optional sign
   * and a digit body of at most `IntMaxStrDigits` digits, not counting
   * underscores; `None` stands for the `ValueError` it raises otherwise.
   */
  function PyInt(s: string): (r: Option<int>)
  {
    var t := Strip(s);
    if |t| > 0 && (t[0] == '+' || t[0] == '-') then
      var body := t[1..];
      if IsIntBody(body) && |DropUnderscores(body)| <= IntMaxStrDigits then
        var magnitude: int := DigitsValue(DropUnderscores(body));
        Some(if t[0] == '-' then -magnitude else magnitude)
      else None
    else if IsIntBody(t) && |DropUnderscores(t)| <= IntMaxStrDigits then Some(DigitsValue(DropUnderscores(t)))
    else None
  }

  lemma {:induction false} DropUnderscoresOfDigits(s: string)
    requires forall i :: 0 <= i < |s| ==> IsDigit(s[i])
    ensures DropUnderscores(s) == s
  {
    if |s| > 0 {
      DropUnderscoresOfDigits(s[1..]);
      assert s == [s[0]] + s[1..];
    }
  }

  /** On a run of plain digits `int` only checks the digit bound. */
  lemma PlainDigits(s: string)
    requires IsDigits(s)
    ensures PyInt(s) == if |s| <= IntMaxStrDigits then Some(DigitsValue(s)) else None
  {
    assert !IsSpace(s[0]) && !IsSpace(s[|s| - 1]);
    assert Strip(s) == s;
    assert s[0] != '+' && s[0] != '-';
    assert IsIntBody(s);
    DropUnderscoresOfDigits(s);
  }

  /** `int` reads a run of plain digits within the digit bound as its decimal value. */
  lemma PyIntOfDigits(s: string)
    requires IsDigits(s) && |s| <= IntMaxStrDigits
    ensures PyInt(s) == Some(DigitsValue(s))
  {
    PlainDigits(s);
  }

  /** A run of plain digits longer than the digit bound makes `int` raise. */
  lemma PyIntTooManyDigits(s: string)
    requires IsDigits(s) && |s| > IntMaxStrDigits
    ensures PyInt(s) == None
  {
    PlainDigits(s);
  }

  /** `int(str(n)) == n` for every `n` within the digit bound. */
  lemma PyIntOfStr(n: nat)
    requires |Str(n)| <= IntMaxStrDigits
    ensures PyInt(Str(n)) == Some(n)
  {
    PyIntOfDigits(Str(n));
  }

  /** A string holding a character that is neither a digit, a sign, an underscore nor white space is not an integer. */
  lemma PyIntRejectsStray(s: string, i: nat)
    requires i < |s|
    requires !IsDigit(s[i]) && s[i] != '_' && s[i] != '+' && s[i] != '-' && !IsSpace(s[i])
    ensures PyInt(s) == None
  {
    StripKeeps(s, i);
  }

  /** `int` skips a space and a line feed around the digits, but not the file separator `\x1c`. */
  lemma PyIntSpacing()
    ensures PyInt(" 42\n") == Some(42)
    ensures PyInt("\U{1C}42") == None
  {
    assert Strip(" 42\n") == Strip("42\n") == Strip("42") == "42";
    assert PyInt(" 42\n") == PyInt("42");
    assert IsDigits("42");
    PlainDigits("42");
    assert "42"[..1] == "4";
    PyIntRejectsStray("\U{1C}42", 0);
  }

  /** Stripping keeps every character that is not white space, and only those at the ends may go. */
  lemma {:induction false} StripKeeps(s: string, i: nat)
    requires i < |s| && !IsSpace(s[i])
    ensures exists j :: 0 <= j < |Strip(s)| && Strip(s)[j] == s[i]
    decreases |s|
  {
    if IsSpace(s[0]) {
      assert s[1..][i - 1] == s[i];
      StripKeeps(s[1..], i - 1);
      assert Strip(s) == Strip(s[1..]);
    } else if IsSpace(s[|s| - 1]) {
      assert s[..|s| - 1][i] == s[i];
      StripKeeps(s[..|s| - 1], i);
      assert Strip(s) == Strip(s[..|s| - 1]);
    } else {
      assert Strip(s)[i] == s[i];
    }
  }

  // ---------------------------------------------------------------- lower()

  function LowerChar(ch: char): char
  {
    if 'A' <= ch <= 'Z' then (ch as int + 32) as char else ch
  }

  /** `s.lower()` for ASCII text. */
  function Lower(s: string): (t: string)
    ensures |t| == |s|
    ensures forall i :: 0 <= i < |s| ==> t[i] == LowerChar(s[i])
  {
    seq(|s|, i requires 0 <= i < |s| => LowerChar(s[i]))
  }
}
