/** Small value helpers shared by every module: an Option type and the
    JavaScript string operations the source relies on (`split`, `join`,
    `startsWith`, integer-to-string and `Number(...)` on integer text). */
module Basics {

  datatype Option<+T> = None | Some(value: T)

  /** `s.split(c)` for a one-character separator: always at least one part,
      and no part contains the separator ("".split(",") is [""]). */
  function Split(s: string, c: char): (parts: seq<string>)
    ensures |parts| >= 1
    ensures forall i :: 0 <= i < |parts| ==> c !in parts[i]
    decreases |s|
  {
    if |s| == 0 then [""]
    else
      var rest := Split(s[1..], c);
      if s[0] == c then [""] + rest
      else [[s[0]] + rest[0]] + rest[1..]
  }

  /** `parts.join(sep)`. */
  function Join(parts: seq<string>, sep: string): string
    decreases |parts|
  {
    if |parts| == 0 then ""
    else if |parts| == 1 then parts[0]
    else parts[0] + sep + Join(parts[1..], sep)
  }

  /** `s.startsWith(p)`. */
  predicate StartsWith(s: string, p: string)
  {
    |p| <= |s| && s[..|p|] == p
  }

  /** `s.endsWith(p)`. */
  predicate EndsWith(s: string, p: string)
  {
    |p| <= |s| && s[|s| - |p|..] == p
  }

  /** `s` with every `c` replaced by `sep`. */
  function ReplaceChar(s: string, c: char, sep: string): string
    decreases |s|
  {
    if |s| == 0 then ""
    else (if s[0] == c then sep else [s[0]]) + ReplaceChar(s[1..], c, sep)
  }

  /** `s.split(c).join(sep)` replaces every separator by `sep`. */
  lemma {:induction false} JoinSplitReplaces(s: string, c: char, sep: string)
    ensures Join(Split(s, c), sep) == ReplaceChar(s, c, sep)
    decreases |s|
  {
    if |s| > 0 {
      JoinSplitReplaces(s[1..], c, sep);
      var rest := Split(s[1..], c);
      if s[0] == c {
        if |rest| == 1 {
          assert Join(Split(s, c), sep) == "" + sep + rest[0];
        } else {
          assert Join(Split(s, c), sep) == "" + sep + Join(rest, sep);
        }
      } else {
        if |rest| == 1 {
          assert Join(Split(s, c), sep) == [s[0]] + rest[0];
        } else {
          assert Join(rest, sep) == rest[0] + sep + Join(rest[1..], sep);
          assert Join(Split(s, c), sep) == [s[0]] + rest[0] + sep + Join(rest[1..], sep);
        }
      }
    }
  }

  /** Text without the separator splits into itself alone. */
  lemma {:induction false} SplitWithoutSeparator(s: string, c: char)
    requires c !in s
    ensures Split(s, c) == [s]
    decreases |s|
  {
    if |s| > 0 {
      assert c !in s[1..];
      SplitWithoutSeparator(s[1..], c);
      assert [s[0]] + s[1..] == s;
    }
  }

  /** Splitting at the first separator: the text before it is the first part. */
  lemma {:induction false} SplitAtFirst(a: string, c: char, b: string)
    requires c !in a
    ensures Split(a + [c] + b, c) == [a] + Split(b, c)
    decreases |a|
  {
    if |a| == 0 {
      assert a + [c] + b == [c] + b;
      assert (a + [c] + b)[1..] == b;
    } else {
      assert c !in a[1..];
      SplitAtFirst(a[1..], c, b);
      assert (a + [c] + b)[1..] == a[1..] + [c] + b;
      assert [a[0]] + a[1..] == a;
    }
  }

  /** A decimal digit character. */
  predicate IsDigit(ch: char)
  {
    '0' <= ch <= '9'
  }

  predicate AllDigits(s: string)
  {
    forall i :: 0 <= i < |s| ==> IsDigit(s[i])
  }

  function DigitChar(d: nat): (ch: char)
    requires d < 10
    ensures IsDigit(ch) && ch as int - '0' as int == d
  {
    ('0' as int + d) as char
  }

  /** The value of a string of decimal digits, read most significant first. */
  function DigitsValue(s: string): nat
    requires AllDigits(s)
    decreases |s|
  {
    if |s| == 0 then 0
    else DigitsValue(s[..|s| - 1]) * 10 + (s[|s| - 1] as int - '0' as int)
  }

  /** `String(n)` for a natural number. */
  function ShowNat(n: nat): (s: string)
    ensures |s| >= 1 && AllDigits(s)
    decreases n
  {
    if n < 10 then [DigitChar(n)]
    else ShowNat(n / 10) + [DigitChar(n % 10)]
  }

  /** `String(i)` for an integer (JavaScript prints integers in plain decimal). */
  function ShowInt(i: int): (s: string)
    ensures |s| >= 1 && ' ' !in s && ',' !in s
  {
    var s := if i < 0 then "-" + ShowNat(-i) else ShowNat(i);
    assert forall k :: 0 <= k < |s| ==> s[k] == '-' || IsDigit(s[k]);
    s
  }

  /** `Number(s)` restricted to integer text: the empty string is 0, an optional
      sign followed by digits is that integer, anything else is NaN (None). */
  function ParseInt(s: string): Option<int>
  {
    if |s| == 0 then Some(0)
    else if s[0] == '-' then
      if |s| > 1 && AllDigits(s[1..]) then var v: int := DigitsValue(s[1..]); Some(-v) else None
    else if s[0] == '+' then
      if |s| > 1 && AllDigits(s[1..]) then Some(DigitsValue(s[1..])) else None
    else if AllDigits(s) then Some(DigitsValue(s))
    else None
  }

  lemma {:induction false} DigitsOfShowNat(n: nat)
    ensures DigitsValue(ShowNat(n)) == n
    decreases n
  {
    if n >= 10 {
      DigitsOfShowNat(n / 10);
      var s := ShowNat(n);
      assert s[..|s| - 1] == ShowNat(n / 10);
    }
  }

  /** Printing an integer and reading it back with `Number` gives it back. */
  lemma ParseShowInt(i: int)
    ensures ParseInt(ShowInt(i)) == Some(i)
  {
    if i < 0 {
      var d := ShowNat(-i);
      DigitsOfShowNat(-i);
      assert ShowInt(i) == "-" + d;
      assert ShowInt(i)[1..] == d;
    } else {
      var d := ShowNat(i);
      DigitsOfShowNat(i);
      assert ShowInt(i) == d && IsDigit(d[0]);
    }
  }
}
