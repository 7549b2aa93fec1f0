/**
  The Python string builtins the bot applies to user input and to feed values:
  `str.split(' ')`, `str.upper()`, `str.replace(',', '.')`, `int()` and `float()`.
  Only the ASCII part of their behaviour is modelled: `upper` maps `a`..`z`,
  `int()` reads an optional sign and decimal digits, `float()` reads an optional
  sign and decimal digits with at most one `.`.
*/
module PyText {
  import opened Options

  /** Number of occurrences of `c` in `s`. */
  function Count(s: string, c: char): nat
  {
    if s == [] then 0 else (if s[0] == c then 1 else 0) + Count(s[1..], c)
  }

  lemma {:induction false} CountAppend(a: string, b: string, c: char)
    ensures Count(a + b, c) == Count(a, c) + Count(b, c)
  {
    if a != [] {
      assert (a + b)[1..] == a[1..] + b;
      CountAppend(a[1..], b, c);
    } else {
      assert a + b == b;
    }
  }

  lemma {:induction false} CountNone(s: string, c: char)
    requires c !in s
    ensures Count(s, c) == 0
  {
    if s != [] {
      CountNone(s[1..], c);
    }
  }

  /**
    `s.split(sep)` with an explicit separator: every occurrence of `sep` ends a
    token, so adjacent separators produce empty tokens and the empty string
    yields one empty token.
  */
  function Split(s: string, sep: char): (tokens: seq<string>)
    ensures |tokens| == Count(s, sep) + 1
    ensures forall i :: 0 <= i < |tokens| ==> sep !in tokens[i]
  {
    if s == [] then [""]
    else
      var rest := Split(s[1..], sep);
      if s[0] == sep then [""] + rest
      else [[s[0]] + rest[0]] + rest[1..]
  }

  /** `sep.join(tokens)`, the inverse of `Split`. */
  function Join(tokens: seq<string>, sep: char): string
    requires |tokens| >= 1
  {
    if |tokens| == 1 then tokens[0] else tokens[0] + [sep] + Join(tokens[1..], sep)
  }

  /** Splitting loses nothing: joining the tokens gives the text back. */
  lemma {:induction false} JoinSplit(s: string, sep: char)
    ensures Join(Split(s, sep), sep) == s
  {
    if s != [] {
      var rest := Split(s[1..], sep);
      JoinSplit(s[1..], sep);
      if s[0] != sep {
        if |rest| == 1 {
          assert Join(Split(s, sep), sep) == [s[0]] + rest[0];
        } else {
          assert rest == [rest[0]] + rest[1..];
          assert Join(rest, sep) == rest[0] + [sep] + Join(rest[1..], sep);
          assert Join(Split(s, sep), sep) == [s[0]] + rest[0] + [sep] + Join(rest[1..], sep);
        }
      }
    }
  }

  /** A separator-free prefix is glued onto the first token. */
  lemma {:induction false} SplitPrefix(a: string, s: string, sep: char)
    requires sep !in a
    ensures Split(a + s, sep) == [a + Split(s, sep)[0]] + Split(s, sep)[1..]
  {
    if a != [] {
      assert (a + s)[0] == a[0];
      assert (a + s)[1..] == a[1..] + s;
      SplitPrefix(a[1..], s, sep);
      assert [a[0]] + (a[1..] + Split(s, sep)[0]) == a + Split(s, sep)[0];
    } else {
      var t := Split(s, sep);
      assert a + s == s;
      assert a + t[0] == t[0];
      assert t == [t[0]] + t[1..];
    }
  }

  /** Tokens without separators are split back exactly as they were joined. */
  lemma {:induction false} SplitJoin(tokens: seq<string>, sep: char)
    requires |tokens| >= 1
    requires forall i :: 0 <= i < |tokens| ==> sep !in tokens[i]
    ensures Split(Join(tokens, sep), sep) == tokens
  {
    if |tokens| == 1 {
      SplitPrefix(tokens[0], "", sep);
      assert tokens[0] + "" == tokens[0];
    } else {
      var rest := Join(tokens[1..], sep);
      SplitJoin(tokens[1..], sep);
      assert ([sep] + rest)[1..] == rest;
      assert Split([sep] + rest, sep) == [""] + tokens[1..];
      assert tokens[0] + [sep] + rest == tokens[0] + ([sep] + rest);
      SplitPrefix(tokens[0], [sep] + rest, sep);
      assert tokens[0] + "" == tokens[0];
    }
  }

  /** `c.upper()` for ASCII letters; every other character is kept. */
  function UpperChar(c: char): char
  {
    if 'a' <= c <= 'z' then (c as int - 32) as char else c
  }

  /** `s.upper()`. */
  function Upper(s: string): (u: string)
    ensures |u| == |s|
    ensures forall i :: 0 <= i < |s| && 'a' <= s[i] <= 'z' ==> 'A' <= u[i] <= 'Z' && u[i] as int + 32 == s[i] as int
    ensures forall i :: 0 <= i < |s| && !('a' <= s[i] <= 'z') ==> u[i] == s[i]
  {
    seq(|s|, i requires 0 <= i < |s| => UpperChar(s[i]))
  }

  /** Two characters that are equal, or are the lower- and upper-case forms of one ASCII letter. */
  predicate SameLetter(c: char, d: char)
  {
    c == d || ('a' <= c <= 'z' && d as int + 32 == c as int) || ('a' <= d <= 'z' && c as int + 32 == d as int)
  }

  /** Two texts that differ only in the case of ASCII letters, such as `usd`, `Usd` and `USD`. */
  predicate SameUpToCase(s: string, t: string)
  {
    |s| == |t| && forall i :: 0 <= i < |s| ==> SameLetter(s[i], t[i])
  }

  /** Texts that differ only in ASCII case upper-case to the same code. */
  lemma UpperIgnoresCase(s: string, t: string)
    requires SameUpToCase(s, t)
    ensures Upper(s) == Upper(t)
  {
    var u, w := Upper(s), Upper(t);
    forall i | 0 <= i < |s|
      ensures u[i] == w[i]
    {
      assert SameLetter(s[i], t[i]);
    }
  }

  /** `s.replace(a, b)` for single characters. */
  function ReplaceChar(s: string, a: char, b: char): (r: string)
    ensures |r| == |s|
    ensures a != b ==> a !in r
    ensures forall i :: 0 <= i < |s| && s[i] == a ==> r[i] == b
    ensures forall i :: 0 <= i < |s| && s[i] != a ==> r[i] == s[i]
  {
    seq(|s|, i requires 0 <= i < |s| => if s[i] == a then b else s[i])
  }

  predicate IsDigit(c: char)
  {
    '0' <= c <= '9'
  }

  predicate AllDigits(s: string)
  {
    forall i :: 0 <= i < |s| ==> IsDigit(s[i])
  }

  function DigitValue(c: char): (d: nat)
    requires IsDigit(c)
    ensures d < 10
  {
    c as int - '0' as int
  }

  function DigitChar(d: nat): (c: char)
    requires d < 10
    ensures IsDigit(c) && DigitValue(c) == d
  {
    ('0' as int + d) as char
  }

  /** The value of a string of decimal digits, most significant first. */
  function DigitsValue(s: string): nat
    requires AllDigits(s)
  {
    if s == [] then 0 else 10 * DigitsValue(s[..|s| - 1]) + DigitValue(s[|s| - 1])
  }

  /** `str(n)` for a natural number. */
  function NatDigits(n: nat): (s: string)
    ensures |s| >= 1 && AllDigits(s)
  {
    if n < 10 then [DigitChar(n)] else NatDigits(n / 10) + [DigitChar(n % 10)]
  }

  /** `str(n)`: the canonical decimal form of an integer. */
  function IntToString(n: int): (s: string)
    ensures ' ' !in s
  {
    if n < 0 then "-" + NatDigits(-n) else NatDigits(n)
  }

  /** `int(s)`: an optional sign followed by one or more decimal digits. */
  function ParseInt(s: string): Option<int>
  {
    if |s| > 0 && (s[0] == '+' || s[0] == '-') then
      var body := s[1..];
      if |body| > 0 && AllDigits(body) then
        var v: int := DigitsValue(body);
        Some(if s[0] == '-' then -v else v)
      else None
    else if |s| > 0 && AllDigits(s) then Some(DigitsValue(s))
    else None
  }

  lemma {:induction false} NatDigitsRoundTrip(n: nat)
    ensures DigitsValue(NatDigits(n)) == n
  {
    if n >= 10 {
      NatDigitsRoundTrip(n / 10);
      var s := NatDigits(n);
      assert s[..|s| - 1] == NatDigits(n / 10);
    }
  }

  /** Every integer written in its canonical form is accepted by `int()`, zero and negatives included. */
  lemma {:induction false} IntRoundTrip(n: int)
    ensures ParseInt(IntToString(n)) == Some(n)
  {
    var s := IntToString(n);
    if n < 0 {
      var body := NatDigits(-n);
      NatDigitsRoundTrip(-n);
      assert s == "-" + body;
      assert s[0] == '-' && s[1..] == body;
      assert |body| > 0 && AllDigits(body);
    } else {
      NatDigitsRoundTrip(n);
      assert s == NatDigits(n);
      assert IsDigit(s[0]);
    }
  }

  /** `int()` refuses a character that is neither a digit nor a leading sign, so `10.5` and `abc` fail. */
  lemma ParseIntRejects(s: string, i: nat)
    requires i < |s| && !IsDigit(s[i])
    requires i == 0 ==> s[0] != '+' && s[0] != '-'
    ensures ParseInt(s) == None
  {
    if |s| > 0 && (s[0] == '+' || s[0] == '-') {
      assert s[1..][i - 1] == s[i];
    }
  }

  function Pow10(n: nat): (p: nat)
    ensures p >= 1
  {
    if n == 0 then 1 else 10 * Pow10(n - 1)
  }

  /** The value of `ip.fp` where both parts are digit strings. */
  function DecimalValue(ip: string, fp: string): (x: real)
    requires AllDigits(ip) && AllDigits(fp)
    ensures x >= 0.0
  {
    DigitsValue(ip) as real + DigitsValue(fp) as real / Pow10(|fp|) as real
  }

  /**
    Unsigned `float()` input, read left to right: digits, then optionally one
    `.` and more digits, with at least one digit in all. `acc` is the value of
    the integer digits read so far and `seen` says whether there were any.
  */
  function ScanInt(s: string, acc: nat, seen: bool): Option<real>
  {
    if s == [] then (if seen then Some(acc as real) else None)
    else if s[0] == '.' then ScanFrac(s[1..], acc as real, 1, seen)
    else if IsDigit(s[0]) then ScanInt(s[1..], 10 * acc + DigitValue(s[0]), true)
    else None
  }

  /** The digits after the point; the next digit is worth `1 / (10 * scale)`. */
  function ScanFrac(s: string, acc: real, scale: nat, seen: bool): Option<real>
    requires scale >= 1
  {
    if s == [] then (if seen then Some(acc) else None)
    else if IsDigit(s[0]) then
      ScanFrac(s[1..], acc + DigitValue(s[0]) as real / (10 * scale) as real, 10 * scale, true)
    else None
  }

  /** `float(s)` restricted to an optional sign and a plain decimal. */
  function ParseFloat(s: string): Option<real>
  {
    if |s| > 0 && (s[0] == '+' || s[0] == '-') then
      match ScanInt(s[1..], 0, false)
      case None => None
      case Some(x) => Some(if s[0] == '-' then -x else x)
    else ScanInt(s, 0, false)
  }

  lemma {:induction false} ScanIntDigits(ip: string, rest: string, acc: nat, seen: bool)
    requires AllDigits(ip)
    ensures ScanInt(ip + rest, acc, seen) == ScanInt(rest, acc * Pow10(|ip|) + DigitsValue(ip), seen || |ip| > 0)
    decreases |ip|
  {
    if ip == [] {
      assert ip + rest == rest;
    } else {
      var init := ip[..|ip| - 1];
      var c := ip[|ip| - 1];
      assert ip + rest == init + ([c] + rest);
      ScanIntDigits(init, [c] + rest, acc, seen);
      var a := acc * Pow10(|init|) + DigitsValue(init);
      assert ([c] + rest)[1..] == rest;
      assert ScanInt([c] + rest, a, seen || |init| > 0) == ScanInt(rest, 10 * a + DigitValue(c), true);
      assert DigitsValue(ip) == 10 * DigitsValue(init) + DigitValue(c);
      assert Pow10(|ip|) == 10 * Pow10(|init|);
      ShiftDigit(acc, Pow10(|init|), DigitsValue(init), DigitValue(c), Pow10(|ip|), DigitsValue(ip));
    }
  }

  /** Appending a digit `c` multiplies the leading part by ten. */
  lemma ShiftDigit(a: nat, p: nat, v: nat, c: nat, p': nat, v': nat)
    requires p' == 10 * p && v' == 10 * v + c
    ensures 10 * (a * p + v) + c == a * p' + v'
  {
    assert a * p' == 10 * (a * p);
  }

  /** The leading digit of `s` is worth its value times a power of ten. */
  lemma {:induction false} DigitsValueFront(s: string)
    requires |s| > 0 && AllDigits(s)
    ensures DigitsValue(s) == DigitValue(s[0]) * Pow10(|s| - 1) + DigitsValue(s[1..])
  {
    if |s| > 1 {
      var init := s[..|s| - 1];
      var tail := s[1..];
      DigitsValueFront(init);
      assert init[0] == s[0];
      assert tail[..|s| - 2] == init[1..];
      assert tail[|s| - 2] == s[|s| - 1];
      var d, last := DigitValue(s[0]), DigitValue(s[|s| - 1]);
      assert DigitsValue(s) == 10 * DigitsValue(init) + last;
      assert DigitsValue(tail) == 10 * DigitsValue(init[1..]) + last;
      assert Pow10(|s| - 1) == 10 * Pow10(|s| - 2);
      ShiftDigit(d, Pow10(|s| - 2), DigitsValue(init[1..]), last, Pow10(|s| - 1), DigitsValue(tail));
    } else {
      assert s[1..] == [];
    }
  }

  lemma {:induction false} ScanFracDigits(fp: string, acc: real, scale: nat)
    requires AllDigits(fp) && scale >= 1
    ensures ScanFrac(fp, acc, scale, true) == Some(acc + DigitsValue(fp) as real / (scale * Pow10(|fp|)) as real)
    decreases |fp|
  {
    if fp != [] {
      var d := DigitValue(fp[0]);
      var t := fp[1..];
      var next := acc + d as real / (10 * scale) as real;
      assert ScanFrac(fp, acc, scale, true) == ScanFrac(t, next, 10 * scale, true);
      ScanFracDigits(t, next, 10 * scale);
      DigitsValueFront(fp);
      assert Pow10(|fp|) == 10 * Pow10(|t|);
      FracCombine(acc, d, DigitsValue(t), DigitsValue(fp), scale, Pow10(|t|), Pow10(|fp|));
    }
  }

  lemma FracStep(d: nat, t: nat, s: nat, p: nat)
    requires s >= 1 && p >= 1
    ensures d as real / (10 * s) as real + t as real / (10 * s * p) as real == (d * p + t) as real / (10 * s * p) as real
  {
    var S := (10 * s) as real;
    var P := p as real;
    assert (10 * s * p) as real == S * P;
    assert d as real / S == (d as real * P) / (S * P);
    assert (d * p) as real == d as real * P;
  }

  /** One digit `d` at scale `s` followed by the digits `t` worth `total` at scale `s * q`. */
  lemma FracCombine(acc: real, d: nat, t: nat, total: nat, s: nat, p: nat, q: nat)
    requires s >= 1 && p >= 1
    requires total == d * p + t && q == 10 * p
    ensures acc + d as real / (10 * s) as real + t as real / (10 * s * p) as real == acc + total as real / (s * q) as real
  {
    assert s * q == 10 * s * p;
    FracStep(d, t, s, p);
  }

  /** A number written `ip.fp` reads as its decimal value. */
  lemma ParseFloatParts(ip: string, fp: string)
    requires |ip| > 0 && AllDigits(ip) && AllDigits(fp)
    ensures ParseFloat(ip + "." + fp) == Some(DecimalValue(ip, fp))
  {
    assert ip + "." + fp == ip + ("." + fp);
    assert !IsDigit('.');
    assert (ip + "." + fp)[0] == ip[0];
    ScanIntDigits(ip, "." + fp, 0, false);
    assert ("." + fp)[1..] == fp;
    ScanFracDigits(fp, DigitsValue(ip) as real, 1);
  }
}
