/** The handful of Python string operations the pipeline is built from:
    `sep.join`, `s.split(c)`, `s.rfind(c)`, `s.endswith`, `str(n)`, `int(s)`
    and the decimal-number regular expression of the syscount decoder. */
module Text {
  import opened Errors

  /** `sep.join(parts)`. */
  function Join(sep: string, parts: seq<string>): string
    decreases |parts|
  {
    if |parts| == 0 then ""
    else if |parts| == 1 then parts[0]
    else parts[0] + sep + Join(sep, parts[1..])
  }

  /** Index of the first occurrence of `c` in `s`. */
  function IndexOf(s: string, c: char): (i: nat)
    requires c in s
    ensures i < |s| && s[i] == c && c !in s[..i]
  {
    if s[0] == c then 0
    else
      var j := IndexOf(s[1..], c);
      assert s[..1 + j] == [s[0]] + s[1..][..j];
      1 + j
  }

  /** `s.split(c)` for a one-character separator: the pieces between the
      separators, empty ones included, so never an empty list. */
  function Split(s: string, c: char): (r: seq<string>)
    ensures |r| >= 1
    ensures c in s ==> |r| >= 2
    ensures forall k :: 0 <= k < |r| ==> c !in r[k]
    decreases |s|
  {
    if c !in s then [s]
    else
      var i := IndexOf(s, c);
      [s[..i]] + Split(s[i + 1..], c)
  }

  /** `parts[-1]`. */
  function Last<T>(parts: seq<T>): T
    requires |parts| >= 1
  {
    parts[|parts| - 1]
  }

  /** `parts[:-1]`. */
  function Init<T>(parts: seq<T>): seq<T>
    requires |parts| >= 1
  {
    parts[..|parts| - 1]
  }

  /** `s.endswith(suffix)`. */
  predicate EndsWith(s: string, suffix: string)
  {
    |suffix| <= |s| && s[|s| - |suffix|..] == suffix
  }

  /** `s.rfind(c)`: the last index holding `c`, or -1 when there is none. */
  function RFind(s: string, c: char): (i: int)
    ensures -1 <= i < |s|
    ensures i >= 0 ==> s[i] == c
    ensures forall k :: i < k < |s| ==> s[k] != c
    decreases |s|
  {
    if s == [] then -1
    else if s[|s| - 1] == c then |s| - 1
    else RFind(s[..|s| - 1], c)
  }

  lemma {:induction false} JoinSnoc(sep: string, parts: seq<string>, x: string)
    requires |parts| >= 1
    ensures Join(sep, parts + [x]) == Join(sep, parts) + sep + x
    decreases |parts|
  {
    if |parts| > 1 {
      assert (parts + [x])[1..] == parts[1..] + [x];
      JoinSnoc(sep, parts[1..], x);
    }
  }

  /** `c.join(s.split(c)) == s`: splitting loses nothing. */
  lemma {:induction false} JoinSplit(s: string, c: char)
    ensures Join([c], Split(s, c)) == s
    decreases |s|
  {
    if c in s {
      var i := IndexOf(s, c);
      JoinSplit(s[i + 1..], c);
      var rest := Split(s[i + 1..], c);
      assert ([s[..i]] + rest)[1..] == rest;
      assert s == s[..i] + [c] + s[i + 1..];
    }
  }

  /** `s.split(c)` has one piece more than `s` has separators. */
  lemma {:induction false} SplitLength(s: string, c: char)
    ensures |Split(s, c)| == multiset(s)[c] + 1
    decreases |s|
  {
    if c in s {
      var i := IndexOf(s, c);
      SplitLength(s[i + 1..], c);
      assert s == s[..i] + [c] + s[i + 1..];
      assert multiset(s) == multiset(s[..i]) + multiset([c]) + multiset(s[i + 1..]);
      assert multiset(s[..i])[c] == 0;
    } else {
      assert multiset(s)[c] == 0;
    }
  }

  /** Every character of every piece of `s.split(c)` comes from `s`. */
  lemma {:induction false} SplitPieceChars(s: string, c: char, k: nat, x: char)
    requires k < |Split(s, c)| && x in Split(s, c)[k]
    ensures x in s
    decreases |s|
  {
    if c in s {
      var i := IndexOf(s, c);
      if k > 0 {
        SplitPieceChars(s[i + 1..], c, k - 1, x);
      } else {
        assert x in s[..i];
      }
    }
  }

  /** Splitting a string whose first separator follows the piece `a`. */
  lemma SplitAtFirst(a: string, c: char, b: string)
    requires c !in a
    ensures Split(a + [c] + b, c) == [a] + Split(b, c)
  {
    var s := a + [c] + b;
    SplitAtFirstIndex(a, c, b);
    assert s[..|a|] == a;
    assert s[|a| + 1..] == b;
  }

  /** `s.split(c)` undoes `c.join(parts)` when no part holds the separator. */
  lemma {:induction false} SplitJoin(parts: seq<string>, c: char)
    requires |parts| >= 1
    requires forall k :: 0 <= k < |parts| ==> c !in parts[k]
    ensures Split(Join([c], parts), c) == parts
    decreases |parts|
  {
    if |parts| > 1 {
      SplitJoin(parts[1..], c);
      SplitAtFirst(parts[0], c, Join([c], parts[1..]));
      assert parts == [parts[0]] + parts[1..];
    }
  }

  /** A separator and a separator-free tail add exactly one last piece. */
  lemma {:induction false} SplitLast(a: string, c: char, b: string)
    requires c !in b
    ensures Split(a + [c] + b, c) == Split(a, c) + [b]
    decreases |a|
  {
    if c !in a {
      SplitAtFirst(a, c, b);
    } else {
      var i := IndexOf(a, c);
      var s := a + [c] + b;
      var rest := a[i + 1..];
      assert s[..i] == a[..i];
      assert s[i + 1..] == rest + [c] + b;
      IndexOfAt(s, c, i);
      SplitLast(rest, c, b);
      calc {
        Split(s, c);
        [a[..i]] + Split(rest + [c] + b, c);
        [a[..i]] + (Split(rest, c) + [b]);
        ([a[..i]] + Split(rest, c)) + [b];
        Split(a, c) + [b];
      }
    }
  }

  // ----- digits, str(n) and int(s) -----

  predicate IsDigit(c: char)
  {
    '0' <= c <= '9'
  }

  predicate AllDigits(s: string)
  {
    forall k :: 0 <= k < |s| ==> IsDigit(s[k])
  }

  function DigitValue(c: char): nat
    requires IsDigit(c)
  {
    c as int - '0' as int
  }

  function Digit(d: nat): (c: char)
    requires d < 10
    ensures IsDigit(c) && DigitValue(c) == d
  {
    ('0' as int + d) as char
  }

  /** The value of a string of decimal digits, most significant first. */
  function DigitsValue(s: string): nat
    requires AllDigits(s)
    decreases |s|
  {
    if s == [] then 0 else 10 * DigitsValue(s[..|s| - 1]) + DigitValue(s[|s| - 1])
  }

  /** `str(n)` for `n >= 0`: decimal digits without leading zeros. */
  function NatToString(n: nat): (r: string)
    ensures 1 <= |r| && AllDigits(r)
    ensures n < 10 <==> |r| == 1
  {
    if n < 10 then [Digit(n)] else NatToString(n / 10) + [Digit(n % 10)]
  }

  /** `str(n)`. */
  function IntToString(n: int): string
  {
    if n < 0 then "-" + NatToString(-n) else NatToString(n)
  }

  /** The value of a nonempty string of ASCII digits; None for any other string. */
  function Digits(s: string): Option<nat>
    decreases |s|
  {
    if s == [] || !IsDigit(s[|s| - 1]) then None
    else if |s| == 1 then Some(DigitValue(s[0]))
    else
      match Digits(s[..|s| - 1])
      case None => None
      case Some(v) => Some(10 * v + DigitValue(s[|s| - 1]))
  }

  /** `Digits` accepts exactly the nonempty digit strings, with their value. */
  lemma {:induction false} DigitsMeaning(s: string)
    ensures Digits(s).Some? <==> |s| >= 1 && AllDigits(s)
    ensures Digits(s).Some? ==> Digits(s).value == DigitsValue(s)
    decreases |s|
  {
    if |s| >= 2 {
      var p := s[..|s| - 1];
      DigitsMeaning(p);
      if AllDigits(s) {
        assert AllDigits(p);
      }
      if Digits(p).Some? && IsDigit(s[|s| - 1]) {
        assert forall k :: 0 <= k < |s| - 1 ==> s[k] == p[k];
      }
    } else if |s| == 1 {
      assert s[..0] == [];
    }
  }

  /** `int(s)` for a string of ASCII digits with an optional sign; any other
      string raises ValueError. */
  function ParseInt(s: string): Result<int>
  {
    if |s| >= 1 && (s[0] == '-' || s[0] == '+') && Digits(s[1..]).Some? then
      var magnitude: int := Digits(s[1..]).value;
      Ok(if s[0] == '-' then -magnitude else magnitude)
    else
      match Digits(s)
      case Some(v) => Ok(v)
      case None => Err(ValueError)
  }

  /** The digits of `str(n)` read back as `n`. */
  lemma {:induction false} NatToStringDigits(n: nat)
    ensures Digits(NatToString(n)) == Some(n)
  {
    if n >= 10 {
      NatToStringDigits(n / 10);
      var s := NatToString(n / 10) + [Digit(n % 10)];
      assert s[..|s| - 1] == NatToString(n / 10);
    }
  }

  /** `int(str(n)) == n`. */
  lemma IntRoundTrip(n: int)
    ensures ParseInt(IntToString(n)) == Ok(n)
  {
    if n < 0 {
      NatToStringDigits(-n);
      ParseNegative(NatToString(-n), -n);
    } else {
      NatToStringDigits(n);
      ParseUnsigned(NatToString(n), n);
    }
  }

  lemma ParseUnsigned(t: string, v: nat)
    requires Digits(t) == Some(v) && |t| >= 1 && IsDigit(t[0])
    ensures ParseInt(t) == Ok(v)
  {
  }

  lemma ParseNegative(t: string, v: nat)
    requires Digits(t) == Some(v)
    ensures ParseInt("-" + t) == Ok(-(v as int))
  {
    assert ("-" + t)[1..] == t;
  }

  /** `str(n)` holds only digits and a leading minus sign. */
  lemma IntToStringChars(n: int)
    ensures forall k :: 0 <= k < |IntToString(n)| ==>
      IsDigit(IntToString(n)[k]) || (k == 0 && IntToString(n)[k] == '-')
  {
  }

  /** `re.match(r"^-?\d+(?:\.\d+)$", s)`: an optional minus sign, digits, a
      decimal point and digits; the point is required. */
  predicate IsDecimal(s: string)
  {
    var t := if |s| > 0 && s[0] == '-' then s[1..] else s;
    '.' in t &&
    var k := IndexOf(t, '.');
    Digits(t[..k]).Some? && Digits(t[k + 1..]).Some?
  }

  /** Every `[-]digits.digits` string is a decimal. */
  lemma DecimalOfParts(negative: bool, whole: string, fraction: string)
    requires |whole| >= 1 && AllDigits(whole)
    requires |fraction| >= 1 && AllDigits(fraction)
    ensures IsDecimal((if negative then "-" else "") + whole + "." + fraction)
  {
    var s := (if negative then "-" else "") + whole + "." + fraction;
    var t := if |s| > 0 && s[0] == '-' then s[1..] else s;
    assert t == whole + "." + fraction;
    assert '.' !in whole;
    SplitAtFirstIndex(whole, '.', fraction);
    assert t[..|whole|] == whole;
    assert t[|whole| + 1..] == fraction;
    DigitsMeaning(whole);
    DigitsMeaning(fraction);
  }

  /** Concatenation regroups freely. A regrouping hint for the verifier,
      not a fact about the pipeline: calling it is cheaper than asserting
      the sequence equality inline. */
  lemma Associative(a: string, b: string, c: string)
    ensures a + (b + c) == a + b + c
  {
  }

  /** The first occurrence is the one with none before it. */
  lemma IndexOfAt(s: string, c: char, i: nat)
    requires i < |s| && s[i] == c && c !in s[..i]
    ensures c in s && IndexOf(s, c) == i
  {
  }

  /** The first `c` of `a + [c] + b` is at `|a|` when `a` holds none. */
  lemma SplitAtFirstIndex(a: string, c: char, b: string)
    requires c !in a
    ensures c in a + [c] + b && IndexOf(a + [c] + b, c) == |a|
  {
    var s := a + [c] + b;
    assert s[|a|] == c;
  }

  /** A decimal always has a decimal point: a bare integer is not one. */
  lemma DecimalHasPoint(s: string)
    requires IsDecimal(s)
    ensures '.' in s && !AllDigits(s)
  {
    var t := if |s| > 0 && s[0] == '-' then s[1..] else s;
    var k := IndexOf(t, '.');
    DigitsMeaning(t[..k]);
    if |s| > 0 && s[0] == '-' {
      assert s[k + 1] == '.';
    } else {
      assert s[k] == '.';
    }
  }
}
