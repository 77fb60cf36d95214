/** The few Python built-ins the playlist manager relies on, on plain strings:
    `str.split` with a one-character separator, `int()` on a decimal string,
    `str()` of an integer, `str.lower`, `str.startswith` and `str.endswith`.
    Characters are treated as ASCII: Unicode digits, Unicode white space and
    non-ASCII case folding are not modelled. */
module PyBuiltins {

  datatype Option<T> = None | Some(value: T)

  /** The outcome of an expression that may raise ValueError. */
  datatype Result<T> = Ok(value: T) | ValueError

  // ---------------------------------------------------------------------
  // str.split(sep) and its inverse sep.join(pieces)

  /** `sep.join(pieces)` */
  function Join(pieces: seq<string>, sep: char): string
  {
    if pieces == [] then []
    else if |pieces| == 1 then pieces[0]
    else pieces[0] + [sep] + Join(pieces[1..], sep)
  }

  /** `s.split(sep)`: always at least one piece, no piece holds the separator,
      and joining the pieces gives back `s`. */
  function Split(s: string, sep: char): (r: seq<string>)
    ensures |r| >= 1
    ensures forall k :: 0 <= k < |r| ==> sep !in r[k]
    ensures Join(r, sep) == s
  {
    if s == [] then [[]]
    else if s[0] == sep then [[]] + Split(s[1..], sep)
    else
      var rest := Split(s[1..], sep);
      [[s[0]] + rest[0]] + rest[1..]
  }

  /** Splitting is the inverse of joining separator-free pieces. */
  lemma {:induction false} SplitJoin(pieces: seq<string>, sep: char)
    requires |pieces| >= 1
    requires forall k :: 0 <= k < |pieces| ==> sep !in pieces[k]
    ensures Split(Join(pieces, sep), sep) == pieces
  {
    if |pieces| == 1 {
      SplitFree(pieces[0], sep);
    } else {
      var tail := pieces[1..];
      assert forall k :: 0 <= k < |tail| ==> sep !in tail[k] by {
        forall k | 0 <= k < |tail| ensures sep !in tail[k] { assert tail[k] == pieces[k + 1]; }
      }
      SplitJoin(tail, sep);
      SplitPrefixed(pieces[0], Join(tail, sep), sep);
    }
  }

  /** A string without the separator is a single piece. */
  lemma {:induction false} SplitFree(s: string, sep: char)
    requires sep !in s
    ensures Split(s, sep) == [s]
  {
    if s != [] {
      assert sep !in s[1..] by { assert forall c :: c in s[1..] ==> c in s; }
      SplitFree(s[1..], sep);
    }
  }

  /** Splitting `a + [sep] + b` where `a` is separator-free. */
  lemma {:induction false} SplitPrefixed(a: string, b: string, sep: char)
    requires sep !in a
    ensures Split(a + [sep] + b, sep) == [a] + Split(b, sep)
  {
    var s := a + [sep] + b;
    if a == [] {
      assert s[1..] == b;
    } else {
      assert s[1..] == a[1..] + [sep] + b;
      assert sep !in a[1..] by { assert forall c :: c in a[1..] ==> c in a; }
      SplitPrefixed(a[1..], b, sep);
      assert [a[0]] + a[1..] == a;
    }
  }

  // ---------------------------------------------------------------------
  // Characters

  /** `c.isspace()` restricted to ASCII: space, \t \n \v \f \r and the
      separators \x1c to \x1f. */
  predicate IsSpace(c: char)
  {
    c == ' ' || (9 <= c as int <= 13) || (28 <= c as int <= 31)
  }

  predicate IsDigit(c: char)
  {
    '0' <= c <= '9'
  }

  function DigitValue(c: char): nat
    requires IsDigit(c)
  {
    c as int - '0' as int
  }

  function DigitChar(d: nat): char
    requires d < 10
  {
    (d + '0' as int) as char
  }

  /** ASCII `str.lower` of one character. */
  function LowerChar(c: char): char
  {
    if 'A' <= c <= 'Z' then (c as int - 'A' as int + 'a' as int) as char else c
  }

  /** `s.lower()` */
  function Lower(s: string): (r: string)
    ensures |r| == |s|
    ensures forall k :: 0 <= k < |s| ==> r[k] == LowerChar(s[k])
  {
    seq(|s|, k requires 0 <= k < |s| => LowerChar(s[k]))
  }

  predicate StartsWith(s: string, prefix: string)
  {
    |prefix| <= |s| && s[..|prefix|] == prefix
  }

  predicate EndsWith(s: string, suffix: string)
  {
    |suffix| <= |s| && s[|s| - |suffix|..] == suffix
  }

  // ---------------------------------------------------------------------
  // int(s): optional surrounding white space, an optional sign, then decimal
  // digits in which single underscores may separate two digits.

  function TrimLeft(s: string): (r: string)
    ensures |r| <= |s| && r == s[|s| - |r|..]
    ensures r == [] || !IsSpace(r[0])
  {
    if s != [] && IsSpace(s[0]) then TrimLeft(s[1..]) else s
  }

  function TrimRight(s: string): (r: string)
    ensures |r| <= |s| && r == s[..|r|]
    ensures r == [] || !IsSpace(r[|r| - 1])
  {
    if s != [] && IsSpace(s[|s| - 1]) then TrimRight(s[..|s| - 1]) else s
  }

  /** `s.strip()` with the white space of IsSpace. */
  function Strip(s: string): string
  {
    TrimRight(TrimLeft(s))
  }

  /** A run of decimal digits, single underscores allowed strictly between digits. */
  predicate IsDigitRun(d: string)
  {
    |d| > 0 && forall k :: 0 <= k < |d| ==> DigitOrJoin(d, k)
  }

  /** Position `k` of `d` holds a digit, or an underscore between two digits. */
  predicate DigitOrJoin(d: string, k: nat)
    requires k < |d|
  {
    IsDigit(d[k]) || (d[k] == '_' && 0 < k < |d| - 1 && IsDigit(d[k + 1]) && IsDigit(d[k - 1]))
  }

  /** The value of a digit run, underscores ignored. */
  function DigitsValue(d: string): nat
  {
    if d == [] then 0
    else if IsDigit(d[|d| - 1]) then DigitsValue(d[..|d| - 1]) * 10 + DigitValue(d[|d| - 1])
    else DigitsValue(d[..|d| - 1])
  }

  function ParseDigits(d: string): Option<nat>
  {
    if IsDigitRun(d) then Some(DigitsValue(d)) else None
  }

  /** Python's `int(s)` for base 10; None where Python raises ValueError. */
  function ParseInt(s: string): Option<int>
  {
    var t := Strip(s);
    if |t| > 0 && (t[0] == '+' || t[0] == '-') then
      match ParseDigits(t[1..])
      case None => None
      case Some(v) =>
        var n: int := if t[0] == '-' then -(v as int) else v;
        Some(n)
    else
      match ParseDigits(t)
      case None => None
      case Some(v) =>
        var n: int := v;
        Some(n)
  }

  // ---------------------------------------------------------------------
  // str(n) and the round trip int(str(n)) == n

  function NatStr(n: nat): (r: string)
    ensures |r| > 0 && forall k :: 0 <= k < |r| ==> IsDigit(r[k])
  {
    if n < 10 then [DigitChar(n)] else NatStr(n / 10) + [DigitChar(n % 10)]
  }

  /** Python's `str(n)` for an integer. */
  function Str(n: int): string
  {
    if n < 0 then "-" + NatStr(-n) else NatStr(n)
  }

  lemma {:induction false} NatStrValue(n: nat)
    ensures DigitsValue(NatStr(n)) == n
  {
    var s := NatStr(n);
    if n >= 10 {
      NatStrValue(n / 10);
      assert s[..|s| - 1] == NatStr(n / 10);
    }
  }

  lemma StripNoSpace(s: string)
    requires s != [] && !IsSpace(s[0]) && !IsSpace(s[|s| - 1])
    ensures Strip(s) == s
  {
  }

  /** `int(str(n)) == n`: what the table writes as a number reads back as it. */
  lemma ParseIntStr(n: int)
    ensures ParseInt(Str(n)) == Some(n)
  {
    var s := Str(n);
    var m: nat := if n < 0 then -n else n;
    var d := NatStr(m);
    NatStrParse(m);
    StripNoSpace(s);
    if n < 0 {
      assert s[0] == '-' && s[1..] == d;
    } else {
      assert s == d && IsDigit(s[0]);
    }
  }

  lemma NatStrParse(m: nat)
    ensures ParseDigits(NatStr(m)) == Some(m)
  {
    var d := NatStr(m);
    NatStrValue(m);
    forall k | 0 <= k < |d| ensures DigitOrJoin(d, k) { assert IsDigit(d[k]); }
  }

  /** `int(s)` raises on text that starts with something other than white
      space, a sign or a digit. */
  lemma ParseIntNotNumber(s: string)
    requires s != [] && !IsSpace(s[0])
    requires !IsDigit(s[0]) && s[0] != '+' && s[0] != '-'
    ensures ParseInt(s) == None
  {
    var t := Strip(s);
    StripFirst(s);
    assert t != [] ==> !DigitOrJoin(t, 0);
  }

  /** Stripping text that does not start with white space keeps its first
      character. */
  lemma StripFirst(s: string)
    requires s != [] && !IsSpace(s[0])
    ensures Strip(s) != [] && Strip(s)[0] == s[0]
  {
    assert TrimLeft(s) == s;
    TrimRightFirst(s);
  }

  lemma {:induction false} TrimRightFirst(s: string)
    requires s != [] && !IsSpace(s[0])
    ensures TrimRight(s) != [] && TrimRight(s)[0] == s[0]
    decreases |s|
  {
    if IsSpace(s[|s| - 1]) {
      TrimRightFirst(s[..|s| - 1]);
    }
  }

  /** `int("")` raises. */
  lemma ParseIntEmpty()
    ensures ParseInt("") == None
  {
    var e: string := [];
    assert Strip(e) == e;
    assert !IsDigitRun(e);
  }

  /** `str(n)` of a non-negative number has no hyphen and no comma. */
  lemma NatStrChars(n: nat)
    ensures '-' !in NatStr(n) && ',' !in NatStr(n)
  {
    var s := NatStr(n);
    assert forall k :: 0 <= k < |s| ==> IsDigit(s[k]);
  }
}
