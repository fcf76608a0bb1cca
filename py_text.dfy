/** The Python `str` operations the service relies on, written over `seq<char>`:
    substring tests, `split`, `strip`, `lower`, `int()` and `str()` on integers. */
module PyText {
  import opened Wrappers

  // ------------------------------------------------------------------
  // Substrings

  /** `p` occurs in `s` starting at index `i`. */
  predicate OccursAt(s: string, p: string, i: int)
  {
    0 <= i && i + |p| <= |s| && s[i..i + |p|] == p
  }

  /** `s.startswith(p)`. */
  predicate StartsWith(s: string, p: string)
  {
    OccursAt(s, p, 0)
  }

  /** `p in s` on strings. */
  predicate Contains(s: string, p: string)
  {
    exists i | 0 <= i <= |s| - |p| :: OccursAt(s, p, i)
  }

  /** An occurrence of `p` anywhere inside `s` is also one inside `s + t`. */
  lemma ContainsAppend(s: string, t: string, p: string, i: int)
    requires OccursAt(s, p, i)
    ensures OccursAt(s + t, p, i) && Contains(s + t, p)
  {
    assert (s + t)[i..i + |p|] == s[i..i + |p|];
    assert OccursAt(s + t, p, i);
    assert 0 <= i <= |s + t| - |p|;
  }

  // ------------------------------------------------------------------
  // `str.split(sep)` with a one-character separator

  /** The number of occurrences of `c` in `s`. */
  function Count(s: string, c: char): (n: nat)
    ensures n <= |s|
    ensures n == 0 <==> c !in s
  {
    if |s| == 0 then 0 else (if s[0] == c then 1 else 0) + Count(s[1..], c)
  }

  lemma {:induction false} CountConcat(a: string, b: string, c: char)
    ensures Count(a + b, c) == Count(a, c) + Count(b, c)
  {
    if |a| == 0 {
      assert a + b == b;
    } else {
      assert (a + b)[1..] == a[1..] + b;
      CountConcat(a[1..], b, c);
    }
  }

  /** `s.split(sep)`: the pieces of `s` between occurrences of `sep`. */
  function Split(s: string, sep: char): (parts: seq<string>)
    ensures |parts| == Count(s, sep) + 1
    ensures forall k | 0 <= k < |parts| :: sep !in parts[k]
  {
    if |s| == 0 then [""]
    else
      var rest := Split(s[1..], sep);
      if s[0] == sep then [""] + rest
      else [[s[0]] + rest[0]] + rest[1..]
  }

  /** `sep.join(parts)`. */
  function Join(parts: seq<string>, sep: char): string
    requires |parts| > 0
  {
    if |parts| == 1 then parts[0] else parts[0] + [sep] + Join(parts[1..], sep)
  }

  /** Splitting loses nothing: joining the pieces back gives the string. */
  lemma {:induction false} JoinSplit(s: string, sep: char)
    ensures Join(Split(s, sep), sep) == s
  {
    if |s| > 0 {
      var rest := Split(s[1..], sep);
      JoinSplit(s[1..], sep);
      if s[0] == sep {
        assert ([""] + rest)[1..] == rest;
        assert s == [sep] + s[1..];
      } else if |rest| == 1 {
        assert s == [s[0]] + s[1..];
      } else {
        var parts := [[s[0]] + rest[0]] + rest[1..];
        assert parts[1..] == rest[1..];
        assert s == [s[0]] + s[1..];
      }
    }
  }

  /** A piece free of the separator followed by the separator splits off as one piece. */
  lemma {:induction false} SplitConcat(x: string, sep: char, y: string)
    requires sep !in x
    ensures Split(x + [sep] + y, sep) == [x] + Split(y, sep)
  {
    var s := x + [sep] + y;
    if |x| == 0 {
      assert s[1..] == y;
    } else {
      assert s[1..] == x[1..] + [sep] + y;
      SplitConcat(x[1..], sep, y);
      assert [x[0]] + x[1..] == x;
    }
  }

  /** Splitting at an occurrence of the separator splits the two sides apart. */
  lemma {:induction false} SplitAppend(a: string, sep: char, b: string)
    ensures Split(a + [sep] + b, sep) == Split(a, sep) + Split(b, sep)
  {
    var s := a + [sep] + b;
    if |a| == 0 {
      assert s[1..] == b;
    } else {
      assert s[1..] == a[1..] + [sep] + b;
      SplitAppend(a[1..], sep, b);
    }
  }

  /** A string without the separator is one piece. */
  lemma {:induction false} SplitNone(x: string, sep: char)
    requires sep !in x
    ensures Split(x, sep) == [x]
  {
    if |x| > 0 {
      SplitNone(x[1..], sep);
      assert [x[0]] + x[1..] == x;
    }
  }

  // ------------------------------------------------------------------
  // Whitespace: `str.isspace`, `str.strip()`, `str.split(maxsplit=1)`

  /** `c.isspace()`. These are also the characters the regular expression `\s`
      matches in a `str` pattern. */
  predicate IsSpace(c: char)
  {
    ('\t' <= c <= '\r') || ('\U{1C}' <= c <= '\U{1F}') || c == ' ' || c == '\U{85}'
    || c == '\U{A0}' || c == '\U{1680}' || ('\U{2000}' <= c <= '\U{200A}')
    || c == '\U{2028}' || c == '\U{2029}' || c == '\U{202F}' || c == '\U{205F}' || c == '\U{3000}'
  }

  predicate AllSpace(s: string)
  {
    forall i | 0 <= i < |s| :: IsSpace(s[i])
  }

  predicate NoSpace(s: string)
  {
    forall i | 0 <= i < |s| :: !IsSpace(s[i])
  }

  /** The length of the whitespace run that starts `s`. */
  function LeadingSpaces(s: string): (n: nat)
    ensures n <= |s|
    ensures forall i | 0 <= i < n :: IsSpace(s[i])
    ensures n < |s| ==> !IsSpace(s[n])
  {
    if |s| > 0 && IsSpace(s[0]) then 1 + LeadingSpaces(s[1..]) else 0
  }

  /** The length of the whitespace run that ends `s`. */
  function TrailingSpaces(s: string): (n: nat)
    ensures n <= |s|
    ensures forall i | |s| - n <= i < |s| :: IsSpace(s[i])
    ensures n < |s| ==> !IsSpace(s[|s| - 1 - n])
  {
    if |s| > 0 && IsSpace(s[|s| - 1]) then 1 + TrailingSpaces(s[..|s| - 1]) else 0
  }

  /** The index of the first whitespace character of `s`, or `|s|`. */
  function FirstSpace(s: string): (k: nat)
    ensures k <= |s|
    ensures forall i | 0 <= i < k :: !IsSpace(s[i])
    ensures k < |s| ==> IsSpace(s[k])
  {
    if |s| == 0 || IsSpace(s[0]) then 0 else 1 + FirstSpace(s[1..])
  }

  /** `s.strip()`: `s` without its leading and trailing whitespace. */
  function Strip(s: string): (r: string)
    ensures |r| > 0 ==> !IsSpace(r[0]) && !IsSpace(r[|r| - 1])
    ensures exists a, b | 0 <= a <= b <= |s| ::
              r == s[a..b] && AllSpace(s[..a]) && AllSpace(s[b..])
  {
    var a := LeadingSpaces(s);
    var b := |s| - TrailingSpaces(s[a..]);
    assert AllSpace(s[..a]) && AllSpace(s[b..]);
    s[a..b]
  }

  /** `s.split(maxsplit=1)`: the first whitespace-delimited word of `s` and, when
      text follows the whitespace run after it, that text. */
  function SplitFirstWord(s: string): (parts: seq<string>)
    ensures |parts| <= 2
    ensures parts == [] <==> AllSpace(s)
    ensures forall k | 0 <= k < |parts| :: parts[k] != ""
    ensures |parts| >= 1 ==> NoSpace(parts[0])
    ensures |parts| == 2 ==> !IsSpace(parts[1][0])
  {
    var a := LeadingSpaces(s);
    var t := s[a..];
    if t == "" then
      assert AllSpace(s) by { assert s == s[..a]; }
      []
    else
      var k := FirstSpace(t);
      var u := t[k..];
      var rest := u[LeadingSpaces(u)..];
      if rest == "" then [t[..k]] else [t[..k], rest]
  }

  /** The pieces of `s.split(maxsplit=1)` put back together with the whitespace
      around and between them give `s`. */
  lemma SplitFirstWordJoin(s: string)
    ensures var parts := SplitFirstWord(s);
      && (|parts| == 1 ==>
            exists a, b :: s == a + parts[0] + b && AllSpace(a) && AllSpace(b))
      && (|parts| == 2 ==>
            exists a, w :: s == a + parts[0] + w + parts[1] && AllSpace(a) && w != "" && AllSpace(w))
  {
    var parts := SplitFirstWord(s);
    var a := LeadingSpaces(s);
    var t := s[a..];
    if t != "" {
      var k := FirstSpace(t);
      var u := t[k..];
      var n := LeadingSpaces(u);
      var rest := u[n..];
      assert s == s[..a] + t[..k] + u[..n] + rest;
      assert AllSpace(s[..a]) && AllSpace(u[..n]);
      if rest == "" {
        assert s == s[..a] + parts[0] + u[..n];
      } else {
        assert s == s[..a] + parts[0] + u[..n] + parts[1];
      }
    }
  }

  // ------------------------------------------------------------------
  // `str.lower()`

  /** `c.lower()` on the Latin and Russian alphabets; other characters are kept. */
  function LowerChar(c: char): char
  {
    if 'A' <= c <= 'Z' then (c as int + 32) as char
    else if '\U{410}' <= c <= '\U{42F}' then (c as int + 32) as char
    else if c == '\U{401}' then '\U{451}'
    else c
  }

  /** `s.lower()`, character by character. */
  function Lower(s: string): (r: string)
    ensures |r| == |s|
    ensures forall i | 0 <= i < |s| :: r[i] == LowerChar(s[i])
  {
    seq(|s|, i requires 0 <= i < |s| => LowerChar(s[i]))
  }

  // ------------------------------------------------------------------
  // Decimal digits, `int(s)` and `str(n)`

  predicate IsDigit(c: char)
  {
    '0' <= c <= '9'
  }

  predicate AllDigits(s: string)
  {
    forall i | 0 <= i < |s| :: IsDigit(s[i])
  }

  /** The length of the digit run that starts `s`. */
  function LeadingDigits(s: string): (n: nat)
    ensures n <= |s|
    ensures AllDigits(s[..n])
    ensures n < |s| ==> !IsDigit(s[n])
  {
    if |s| > 0 && IsDigit(s[0]) then
      var m := LeadingDigits(s[1..]);
      assert s[..1 + m] == [s[0]] + s[1..][..m];
      1 + m
    else 0
  }

  function DigitValue(c: char): nat
    requires IsDigit(c)
  {
    c as int - '0' as int
  }

  function DigitChar(d: nat): (c: char)
    requires d < 10
    ensures IsDigit(c) && DigitValue(c) == d
  {
    ('0' as int + d) as char
  }

  /** The value of a string of decimal digits, most significant first. */
  function DigitsValue(s: string): nat
    requires AllDigits(s)
  {
    if |s| == 0 then 0 else 10 * DigitsValue(s[..|s| - 1]) + DigitValue(s[|s| - 1])
  }

  /** Python `int(s)` on a string: an optional sign followed by decimal digits;
      anything else raises `ValueError`, modelled as `None`. */
  function ParseInt(s: string): (r: Option<int>)
    ensures r.Some? ==> |s| > 0
  {
    if |s| > 0 && (s[0] == '+' || s[0] == '-') then
      if |s| > 1 && AllDigits(s[1..]) then
        var v: int := DigitsValue(s[1..]);
        Some(if s[0] == '-' then -v else v)
      else None
    else if |s| > 0 && AllDigits(s) then Some(DigitsValue(s))
    else None
  }

  /** Python `str(n)` for a non-negative `n`. */
  function NatDecimal(n: nat): string
  {
    if n < 10 then [DigitChar(n)] else NatDecimal(n / 10) + [DigitChar(n % 10)]
  }

  /** `str(n)` is a non-empty run of digits that reads back as `n`. */
  lemma {:induction false} NatDecimalDigits(n: nat)
    ensures |NatDecimal(n)| > 0 && AllDigits(NatDecimal(n))
    ensures DigitsValue(NatDecimal(n)) == n
  {
    if n >= 10 {
      NatDecimalDigits(n / 10);
      var r := NatDecimal(n);
      assert r[..|r| - 1] == NatDecimal(n / 10);
    }
  }

  /** Python `str(n)`. */
  function Decimal(n: int): (r: string)
  {
    if n < 0 then "-" + NatDecimal(-n) else NatDecimal(n)
  }

  /** `int(str(n)) == n`. */
  lemma ParseIntDecimal(n: int)
    ensures ParseInt(Decimal(n)) == Some(n)
  {
    NatDecimalDigits(if n < 0 then -n else n);
    if n < 0 {
      assert Decimal(n)[1..] == NatDecimal(-n);
    }
  }

  /** `str` is injective on integers. */
  lemma DecimalInjective(m: int, n: int)
    ensures Decimal(m) == Decimal(n) ==> m == n
  {
    ParseIntDecimal(m);
    ParseIntDecimal(n);
  }

  /** The decimal rendering of a number contains no `[`. */
  lemma NatDecimalNoBracket(n: nat)
    ensures '[' !in NatDecimal(n)
  {
    var r := NatDecimal(n);
    NatDecimalDigits(n);
    assert forall i | 0 <= i < |r| :: r[i] != '[';
  }
}
