/**
 * The Python string built-ins the downloader relies on: `str.strip()`,
 * `str.isdigit()`, `str.startswith()`, `str.split(sep)`, `str.replace(a, b)`
 * with one-character arguments, and `int(str)`.
 */
module Text {
  import opened Wrappers

  /** Python's `str.isspace()` for one character, by code point. */
  predicate IsSpace(c: char)
  {
    var n := c as int;
    (9 <= n <= 13) || (28 <= n <= 32) || n == 0x85 || n == 0xA0 || n == 0x1680
    || (0x2000 <= n <= 0x200A) || n == 0x2028 || n == 0x2029 || n == 0x202F
    || n == 0x205F || n == 0x3000
  }

  /** `s` with its leading whitespace removed. */
  function TrimStart(s: string): string
  {
    if |s| > 0 && IsSpace(s[0]) then TrimStart(s[1..]) else s
  }

  /** `s` with its trailing whitespace removed. */
  function TrimEnd(s: string): string
  {
    if |s| > 0 && IsSpace(s[|s| - 1]) then TrimEnd(s[..|s| - 1]) else s
  }

  /** `TrimStart(s)` is the suffix of `s` after its leading whitespace. */
  lemma {:induction false} TrimStartSpec(s: string)
    ensures var r := TrimStart(s);
      && |r| <= |s| && r == s[|s| - |r|..]
      && (forall i :: 0 <= i < |s| - |r| ==> IsSpace(s[i]))
      && (|r| > 0 ==> !IsSpace(r[0]))
  {
    if |s| > 0 && IsSpace(s[0]) {
      TrimStartSpec(s[1..]);
    }
  }

  /** `TrimEnd(s)` is the prefix of `s` before its trailing whitespace. */
  lemma {:induction false} TrimEndSpec(s: string)
    ensures var r := TrimEnd(s);
      && |r| <= |s| && r == s[..|r|]
      && (forall i :: |r| <= i < |s| ==> IsSpace(s[i]))
      && (|r| > 0 ==> !IsSpace(r[|r| - 1]))
  {
    if |s| > 0 && IsSpace(s[|s| - 1]) {
      TrimEndSpec(s[..|s| - 1]);
    }
  }

  /** `r` is the slice `s[k..k + |r|]` and everything of `s` around it is whitespace. */
  ghost predicate Trims(s: string, r: string, k: int)
  {
    && 0 <= k && k + |r| <= |s|
    && r == s[k..k + |r|]
    && (forall i :: 0 <= i < k ==> IsSpace(s[i]))
    && (forall i :: k + |r| <= i < |s| ==> IsSpace(s[i]))
  }

  /** Trimming the front and then the back of `s` trims `s`. */
  lemma TrimsBothEnds(s: string, t: string, r: string)
    requires |t| <= |s| && t == s[|s| - |t|..]
    requires forall i :: 0 <= i < |s| - |t| ==> IsSpace(s[i])
    requires |r| <= |t| && r == t[..|r|]
    requires forall i :: |r| <= i < |t| ==> IsSpace(t[i])
    ensures Trims(s, r, |s| - |t|)
  {
    var k := |s| - |t|;
    assert s[k..][..|r|] == s[k..k + |r|];
    forall i | k + |r| <= i < |s|
      ensures IsSpace(s[i])
    {
      assert s[i] == t[i - k];
    }
  }

  /** Python's `s.strip()`. */
  function Strip(s: string): string
  {
    TrimEnd(TrimStart(s))
  }

  /**
   * `s.strip()` is a slice of `s` with only whitespace around it, and it
   * neither begins nor ends with whitespace.
   */
  lemma StripSpec(s: string)
    ensures Trims(s, Strip(s), |s| - |TrimStart(s)|)
    ensures var r := Strip(s); |r| > 0 ==> !IsSpace(r[0]) && !IsSpace(r[|r| - 1])
  {
    var t := TrimStart(s);
    var r := TrimEnd(t);
    TrimStartSpec(s);
    TrimEndSpec(t);
    TrimsBothEnds(s, t, r);
    assert |r| > 0 ==> r[0] == t[0];
  }

  /** A string that neither begins nor ends with whitespace is its own strip. */
  lemma StripUnpadded(s: string)
    requires |s| > 0 ==> !IsSpace(s[0]) && !IsSpace(s[|s| - 1])
    ensures Strip(s) == s
  {
    if |s| > 0 {
      assert TrimStart(s) == s;
    }
  }

  predicate IsDigit(c: char)
  {
    '0' <= c <= '9'
  }

  /** Python's `s.isdigit()`, restricted to ASCII digits: false on "". */
  predicate IsDigits(s: string)
  {
    |s| > 0 && forall i :: 0 <= i < |s| ==> IsDigit(s[i])
  }

  /** Python's `s.startswith(p)`. */
  predicate StartsWith(s: string, p: string)
  {
    |p| <= |s| && s[..|p|] == p
  }

  /** Python's `s.replace(a, b)` for one-character `a` and `b`. */
  function Replace(s: string, a: char, b: char): string
  {
    if |s| == 0 then "" else [if s[0] == a then b else s[0]] + Replace(s[1..], a, b)
  }

  /** Each character is kept, except that every `a` becomes `b`. */
  lemma {:induction false} ReplaceSpec(s: string, a: char, b: char)
    ensures var r := Replace(s, a, b);
      && |r| == |s|
      && forall i :: 0 <= i < |s| ==> r[i] == if s[i] == a then b else s[i]
  {
    if |s| > 0 {
      ReplaceSpec(s[1..], a, b);
    }
  }

  /** After replacing `a` by some other character, no `a` is left. */
  lemma ReplaceRemoves(s: string, a: char, b: char)
    requires a != b
    ensures a !in Replace(s, a, b)
  {
    ReplaceSpec(s, a, b);
  }

  lemma {:induction false} ReplaceAppend(s: string, t: string, a: char, b: char)
    ensures Replace(s + t, a, b) == Replace(s, a, b) + Replace(t, a, b)
  {
    if |s| > 0 {
      assert (s + t)[1..] == s[1..] + t;
      ReplaceAppend(s[1..], t, a, b);
    } else {
      assert s + t == t;
    }
  }

  /** Replacing a character that does not occur changes nothing. */
  lemma ReplaceAbsent(s: string, a: char, b: char)
    requires a !in s
    ensures Replace(s, a, b) == s
  {
    ReplaceSpec(s, a, b);
  }

  /** Python's `s.split(c)`: the pieces of `s` between occurrences of `c`. */
  function Split(s: string, c: char): (parts: seq<string>)
    ensures |parts| >= 1
  {
    if |s| == 0 then [""]
    else
      var rest := Split(s[1..], c);
      if s[0] == c then [""] + rest
      else [[s[0]] + rest[0]] + rest[1..]
  }

  /**
   * No piece holds the separator or a character `s` lacks, and there is
   * more than one piece exactly when the separator occurs.
   */
  lemma {:induction false} SplitSpec(s: string, c: char)
    ensures var parts := Split(s, c);
      && (forall i :: 0 <= i < |parts| ==> c !in parts[i])
      && ((|parts| == 1) <==> (c !in s))
      && (forall i, x :: 0 <= i < |parts| && x in parts[i] ==> x in s)
  {
    if |s| > 0 {
      SplitSpec(s[1..], c);
      assert forall x :: x in s[1..] ==> x in s;
    }
  }

  /** Python's `c.join(parts)`. */
  function Join(parts: seq<string>, c: char): string
    requires |parts| >= 1
  {
    if |parts| == 1 then parts[0] else parts[0] + [c] + Join(parts[1..], c)
  }

  /** Splitting and re-joining on the same separator gives back the string. */
  lemma {:induction false} JoinSplit(s: string, c: char)
    ensures Join(Split(s, c), c) == s
  {
    if |s| > 0 {
      var rest := Split(s[1..], c);
      JoinSplit(s[1..], c);
      if s[0] == c {
        assert Split(s, c) == [""] + rest;
        assert ([""] + rest)[1..] == rest;
      } else {
        var parts := [[s[0]] + rest[0]] + rest[1..];
        assert Split(s, c) == parts;
        if |rest| > 1 {
          assert parts[1..] == rest[1..];
          assert Join(rest, c) == rest[0] + [c] + Join(rest[1..], c);
        }
      }
      assert s == [s[0]] + s[1..];
    }
  }

  /** `s.split(c)[0]`: everything before the first `c`. */
  lemma {:induction false} SplitFirst(a: string, b: string, c: char)
    requires c !in a
    ensures Split(a + [c] + b, c)[0] == a
  {
    var s := a + [c] + b;
    if |a| == 0 {
      assert s[0] == c;
    } else {
      assert s[1..] == a[1..] + [c] + b;
      SplitFirst(a[1..], b, c);
      assert [a[0]] + a[1..] == a;
    }
  }

  /** `s.split(c)[-1]`: everything after the last `c`. */
  lemma {:induction false} SplitLast(a: string, b: string, c: char)
    requires c !in b
    ensures var parts := Split(a + [c] + b, c); parts[|parts| - 1] == b
  {
    var s := a + [c] + b;
    if |a| == 0 {
      assert s[0] == c && s[1..] == b;
      SplitSpec(b, c);
      JoinSplit(b, c);
    } else {
      assert s[1..] == a[1..] + [c] + b;
      SplitLast(a[1..], b, c);
      assert c in s[1..];
      SplitSpec(s[1..], c);
    }
  }

  /** The numeric value of a digit. */
  function DigitValue(c: char): (d: nat)
    requires IsDigit(c)
    ensures d < 10
  {
    c as int - '0' as int
  }

  /** The digit character for `d`. */
  function DigitChar(d: nat): (c: char)
    requires d < 10
    ensures IsDigit(c) && DigitValue(c) == d
  {
    ('0' as int + d) as char
  }

  /** The value of a string of decimal digits, most significant first. */
  function DigitsValue(s: string): nat
    requires forall i :: 0 <= i < |s| ==> IsDigit(s[i])
  {
    if |s| == 0 then 0 else DigitsValue(s[..|s| - 1]) * 10 + DigitValue(s[|s| - 1])
  }

  /**
   * CPython's default limit on the digits of a decimal integer string
   * (`sys.get_int_max_str_digits()`): `int()` and `str()` raise `ValueError`
   * beyond it.
   */
  const MaxStrDigits: nat := 4300

  /**
   * The information separators U+001C..U+001F: `str.isspace()` holds for
   * them, but `int()` does not skip them as padding and rejects them.
   */
  predicate IsSeparator(c: char)
  {
    '\U{1c}' <= c <= '\U{1f}'
  }

  /**
   * Python's `int(s)`: optional whitespace (any `str.isspace()` character
   * but the information separators), an optional sign, then one or more
   * digits, at most `MaxStrDigits` of them.
   */
  function ParseInt(s: string): Option<int>
  {
    var t := Strip(s);
    if exists i :: 0 <= i < |s| && IsSeparator(s[i]) then None
    else if |t| > 0 && (t[0] == '+' || t[0] == '-') then
      if IsDigits(t[1..]) && |t| - 1 <= MaxStrDigits then
        var n: int := DigitsValue(t[1..]);
        Some(if t[0] == '-' then -n else n)
      else None
    else if IsDigits(t) && |t| <= MaxStrDigits then Some(DigitsValue(t))
    else None
  }

  /** A run of digits parses exactly when it is within the digit limit. */
  lemma ParseIntDigitLimit(s: string)
    requires IsDigits(s)
    ensures ParseInt(s).Some? <==> |s| <= MaxStrDigits
    ensures |s| <= MaxStrDigits ==> ParseInt(s) == Some(DigitsValue(s))
  {
    StripUnpadded(s);
    assert !exists i :: 0 <= i < |s| && IsSeparator(s[i]) by {
      forall i | 0 <= i < |s| ensures !IsSeparator(s[i]) {
        assert IsDigit(s[i]);
      }
    }
  }

  /** An information separator anywhere in the string makes `int()` fail. */
  lemma ParseIntSeparator(s: string, i: nat)
    requires i < |s| && IsSeparator(s[i])
    ensures ParseInt(s) == None
  {
  }

  /** Python's `str(n)` for a natural number. */
  function Decimal(n: nat): (s: string)
    ensures IsDigits(s)
  {
    if n < 10 then [DigitChar(n)] else Decimal(n / 10) + [DigitChar(n % 10)]
  }

  /** Python's `str(i)` for any integer. */
  function IntDecimal(i: int): string
  {
    if i < 0 then "-" + Decimal(-i) else Decimal(i)
  }

  lemma {:induction false} DigitsValueDecimal(n: nat)
    ensures DigitsValue(Decimal(n)) == n
  {
    if n >= 10 {
      var s := Decimal(n);
      DigitsValueDecimal(n / 10);
      assert s[..|s| - 1] == Decimal(n / 10);
    }
  }

  /**
   * `int(str(i)) == i`: the parser reads back every integer Python prints
   * (`str(i)` itself raises beyond `MaxStrDigits` digits).
   */
  lemma ParseIntDecimal(i: int)
    requires |Decimal(if i < 0 then -i else i)| <= MaxStrDigits
    ensures ParseInt(IntDecimal(i)) == Some(i)
  {
    var s := IntDecimal(i);
    var d := Decimal(if i < 0 then -i else i);
    DigitsValueDecimal(if i < 0 then -i else i);
    assert !IsSpace(d[0]) && !IsSpace(d[|d| - 1]);
    StripUnpadded(s);
    if i < 0 {
      assert s[1..] == d;
    }
  }
}
