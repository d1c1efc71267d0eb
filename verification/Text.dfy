/** The conventional optional value. */
module Options {
  datatype Option<+T> = None | Some(value: T)
}

/** Character classes, decimal numerals and colon-joined records, as the Python code uses them. */
module Text {
  import opened Options

  predicate IsDigit(c: char) { '0' <= c <= '9' }

  predicate IsLower(c: char) { 'a' <= c <= 'z' }

  predicate IsAlnum(c: char) { IsDigit(c) || IsLower(c) || 'A' <= c <= 'Z' }

  predicate IsLowerHex(c: char) { IsDigit(c) || 'a' <= c <= 'f' }

  /** `str(n)` for a natural number. */
  function Print(n: nat): (s: string)
    ensures |s| > 0
    ensures forall i :: 0 <= i < |s| ==> IsDigit(s[i])
  {
    if n < 10 then [Digit(n)] else Print(n / 10) + [Digit(n % 10)]
  }

  function Digit(d: nat): (c: char)
    requires d < 10
    ensures IsDigit(c) && DigitValue(c) == d
  {
    '0' + d as char
  }

  function DigitValue(c: char): nat
    requires IsDigit(c)
  {
    (c - '0') as nat
  }

  /** `int(s)` for a string of ASCII digits; anything else is rejected. */
  function Parse(s: string): Option<nat> {
    if s != [] && forall i :: 0 <= i < |s| ==> IsDigit(s[i]) then Some(Value(s)) else None
  }

  function Value(s: string): nat
    requires forall i :: 0 <= i < |s| ==> IsDigit(s[i])
  {
    if s == [] then 0 else 10 * Value(s[..|s| - 1]) + DigitValue(s[|s| - 1])
  }

  /** Reading back a printed number gives the number. */
  lemma {:induction false} ParsePrint(n: nat)
    ensures Parse(Print(n)) == Some(n)
  {
    var s := Print(n);
    if n < 10 {
      assert s[..|s| - 1] == [] && s[|s| - 1] == Digit(n);
      assert Value(s) == 10 * Value([]) + DigitValue(Digit(n));
    } else {
      ParsePrint(n / 10);
      assert s[..|s| - 1] == Print(n / 10);
    }
  }

  /** `str(i)` for any integer: a minus sign before the magnitude of a negative one. */
  function PrintInt(i: int): string {
    if i < 0 then "-" + Print(-i) else Print(i)
  }

  lemma PrintIntInjective(i: int, j: int)
    requires PrintInt(i) == PrintInt(j)
    ensures i == j
  {
    ParsePrint(if i < 0 then -i else i);
    ParsePrint(if j < 0 then -j else j);
    assert (i < 0) == (j < 0) by {
      assert PrintInt(i)[0] == PrintInt(j)[0];
    }
    if i < 0 {
      assert PrintInt(i)[1..] == Print(-i) && PrintInt(j)[1..] == Print(-j);
    }
  }

  predicate Free(c: char, s: string) { forall i :: 0 <= i < |s| ==> s[i] != c }

  /** `separator.join(fields)`. */
  function Join(c: char, fields: seq<string>): string {
    if |fields| == 0 then "" else if |fields| == 1 then fields[0]
    else fields[0] + [c] + Join(c, fields[1..])
  }

  /** A field without the separator is recovered from the front of a joined record. */
  lemma FrontField(c: char, a: string, x: string, b: string, y: string)
    requires Free(c, a) && Free(c, b)
    requires a + [c] + x == b + [c] + y
    ensures a == b && x == y
  {
    var l, r := a + [c] + x, b + [c] + y;
    assert l[|a|] == c && forall i :: 0 <= i < |a| ==> l[i] == a[i] != c;
    assert r[|b|] == c && forall i :: 0 <= i < |b| ==> r[i] == b[i] != c;
    assert l[..|a|] == a && r[..|b|] == b;
    assert l[|a| + 1..] == x && r[|b| + 1..] == y;
  }

  /** A field without the separator is recovered from the back of a joined record. */
  lemma BackField(c: char, x: string, a: string, y: string, b: string)
    requires Free(c, a) && Free(c, b)
    requires x + [c] + a == y + [c] + b
    ensures a == b && x == y
  {
    var l, r := x + [c] + a, y + [c] + b;
    assert l[|x|] == c && forall i :: |x| < i < |l| ==> l[i] == a[i - |x| - 1] != c;
    assert r[|y|] == c && forall i :: |y| < i < |r| ==> r[i] == b[i - |y| - 1] != c;
    assert l[..|x|] == x && r[..|y|] == y;
    assert l[|x| + 1..] == a && r[|y| + 1..] == b;
  }

  /** Joining separator-free fields loses nothing: records of the same width are equal. */
  lemma {:induction false} JoinInjective(c: char, f: seq<string>, g: seq<string>)
    requires |f| == |g|
    requires forall i :: 0 <= i < |f| ==> Free(c, f[i]) && Free(c, g[i])
    requires Join(c, f) == Join(c, g)
    ensures f == g
  {
    if |f| > 1 {
      FrontField(c, f[0], Join(c, f[1..]), g[0], Join(c, g[1..]));
      JoinInjective(c, f[1..], g[1..]);
      assert f == [f[0]] + f[1..] && g == [g[0]] + g[1..];
    }
  }

  /** `s.split(separator)`. */
  function Split(c: char, s: string): (pieces: seq<string>)
    ensures |pieces| > 0
  {
    if s == "" then [""]
    else
      var rest := Split(c, s[1..]);
      if s[0] == c then [""] + rest else [[s[0]] + rest[0]] + rest[1..]
  }

  lemma {:induction false} SplitFront(c: char, a: string, rest: string)
    requires Free(c, a)
    ensures Split(c, a + [c] + rest) == [a] + Split(c, rest)
  {
    if a == "" {
      assert (a + [c] + rest)[1..] == rest;
    } else {
      SplitFront(c, a[1..], rest);
      assert (a + [c] + rest)[1..] == a[1..] + [c] + rest;
      assert [a[0]] + a[1..] == a;
    }
  }

  lemma {:induction false} SplitFree(c: char, a: string)
    requires Free(c, a)
    ensures Split(c, a) == [a]
  {
    if a != "" {
      SplitFree(c, a[1..]);
      assert [a[0]] + a[1..] == a;
    }
  }

  /** Splitting undoes joining separator-free fields. */
  lemma {:induction false} SplitJoin(c: char, fields: seq<string>)
    requires fields != [] && forall i :: 0 <= i < |fields| ==> Free(c, fields[i])
    ensures Split(c, Join(c, fields)) == fields
  {
    if |fields| == 1 {
      SplitFree(c, fields[0]);
    } else {
      SplitFront(c, fields[0], Join(c, fields[1..]));
      SplitJoin(c, fields[1..]);
      assert fields == [fields[0]] + fields[1..];
    }
  }

  /** Joining undoes splitting. */
  lemma {:induction false} JoinSplit(c: char, s: string)
    ensures Join(c, Split(c, s)) == s
  {
    if s != "" {
      JoinSplit(c, s[1..]);
      var rest := Split(c, s[1..]);
      if s[0] == c {
        assert ([""] + rest)[1..] == rest;
      } else {
        assert ([[s[0]] + rest[0]] + rest[1..])[1..] == rest[1..];
      }
    }
  }

  /** Printing the value of a numeral without a leading zero gives the numeral. */
  lemma {:induction false} PrintValue(s: string)
    requires s != "" && forall i :: 0 <= i < |s| ==> IsDigit(s[i])
    requires |s| > 1 ==> s[0] != '0'
    ensures Print(Value(s)) == s
    ensures s[0] != '0' ==> Value(s) > 0
  {
    var n := |s| - 1;
    assert Digit(DigitValue(s[n])) == s[n];
    if n == 0 {
      assert Value(s[..0]) == 0;
    } else {
      PrintValue(s[..n]);
      assert Value(s) / 10 == Value(s[..n]) && Value(s) % 10 == DigitValue(s[n]);
      assert s == s[..n] + [s[n]];
    }
  }

  /** A printed number has no leading zero. */
  lemma {:induction false} PrintCanonical(n: nat)
    ensures Print(n)[0] == '0' ==> n == 0
    ensures n < 10 ==> |Print(n)| == 1
  {
    if n >= 10 {
      PrintCanonical(n / 10);
    }
  }
}
