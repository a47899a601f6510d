/** The Java string operations the plug-in relies on: `contains`,
    `lastIndexOf`, `substring`, `replace`, decimal conversion of `int`
    values (string concatenation, `Integer.parseInt`) and
    `StringUtils.countMatches`. */
module Text {
  import opened Wrappers

  /** `s.startsWith(w)`. */
  predicate StartsWith(s: string, w: string)
  {
    |w| <= |s| && s[..|w|] == w
  }

  /** The two parts of a concatenation are its prefix and its suffix. */
  lemma ConcatParts(a: string, b: string)
    ensures StartsWith(a + b, a) && (a + b)[..|a|] == a && (a + b)[|a|..] == b
  {
  }

  /** Appending text keeps a prefix. */
  lemma StartsWithAppend(s: string, w: string, x: string)
    requires StartsWith(s, w)
    ensures StartsWith(s + x, w)
  {
    assert (s + x)[..|w|] == s[..|w|];
  }

  /** `s.contains(w)`: w occurs in s at some position. */
  predicate Contains(s: string, w: string)
  {
    exists k | 0 <= k <= |s| - |w| :: StartsWith(s[k..], w)
  }

  lemma ContainsAt(s: string, w: string, k: int)
    requires 0 <= k <= |s| - |w| && s[k..k + |w|] == w
    ensures Contains(s, w)
  {
    assert s[k..][..|w|] == s[k..k + |w|];
    assert StartsWith(s[k..], w);
  }

  /** Every string contains itself wherever it is placed. */
  lemma {:induction false} ContainsInfix(a: string, w: string, b: string)
    ensures Contains(a + w + b, w)
  {
    assert (a + w + b)[|a|..|a| + |w|] == w;
    ContainsAt(a + w + b, w, |a|);
  }

  /** A string that lacks one of w's characters cannot contain w. */
  lemma {:induction false} LacksCharNotContains(s: string, w: string, c: char)
    requires c in w && c !in s
    ensures !Contains(s, w)
  {
  }

  /** An occurrence of w cannot straddle a separator that w does not hold. */
  lemma {:induction false} NotContainsAcross(a: string, c: char, b: string, w: string)
    requires c !in w
    requires !Contains(a, w) && !Contains(b, w)
    ensures !Contains(a + [c] + b, w)
  {
    var s := a + [c] + b;
    forall k | 0 <= k <= |s| - |w|
      ensures !StartsWith(s[k..], w)
    {
      if k + |w| <= |a| {
        assert s[k..][..|w|] == a[k..][..|w|];
      } else if k > |a| {
        assert s[k..] == b[k - |a| - 1..];
      } else {
        assert s[k..][|a| - k] == c;
      }
    }
  }

  /** An occurrence of w in a + b that cannot start inside a lies in b. */
  lemma {:induction false} NotContainsAfter(a: string, b: string, w: string)
    requires |w| > 0 && w[0] !in a && !Contains(b, w)
    ensures !Contains(a + b, w)
  {
    var s := a + b;
    forall k | 0 <= k <= |s| - |w|
      ensures !StartsWith(s[k..], w)
    {
      if k < |a| {
        assert s[k..][0] == a[k];
      } else {
        assert s[k..] == b[k - |a|..];
      }
    }
  }

  /** Every character of s is a lower-case letter, a space or one of cs. */
  predicate Plain(s: string, cs: string)
  {
    forall i | 0 <= i < |s| :: 'a' <= s[i] <= 'z' || s[i] == ' ' || s[i] in cs
  }

  lemma PlainLacks(s: string, cs: string, c: char)
    requires Plain(s, cs) && !('a' <= c <= 'z') && c != ' ' && c !in cs
    ensures c !in s
  {
  }

  lemma PlainConcat(a: string, b: string, cs: string)
    requires Plain(a, cs) && Plain(b, cs)
    ensures Plain(a + b, cs)
  {
  }

  /** `s.lastIndexOf(c)`: the position of the last c in s, or -1. */
  function LastIndexOf(s: string, c: char): (r: int)
    ensures -1 <= r < |s|
    ensures r == -1 <==> c !in s
    ensures 0 <= r ==> s[r] == c && c !in s[r + 1..]
  {
    if |s| == 0 then -1
    else if s[|s| - 1] == c then |s| - 1
    else
      var r := LastIndexOf(s[..|s| - 1], c);
      assert s == s[..|s| - 1] + [s[|s| - 1]];
      assert r >= 0 ==> s[r + 1..] == s[..|s| - 1][r + 1..] + [s[|s| - 1]];
      r
  }

  /** A separator followed by text without separators is the last one. */
  lemma {:induction false} LastIndexAfterSeparator(a: string, c: char, b: string)
    requires c !in b
    ensures LastIndexOf(a + [c] + b, c) == |a|
  {
    var s := a + [c] + b;
    var r := LastIndexOf(s, c);
    assert s[|a|] == c;
  }

  /** `line.substring(line.lastIndexOf("\t") + 1)`: the text after the last
      tab, or the whole line when it has none. */
  function AfterLastTab(line: string): string
  {
    line[LastIndexOf(line, '\t') + 1..]
  }

  lemma {:induction false} AfterLastTabOf(a: string, b: string)
    requires '\t' !in b
    ensures AfterLastTab(a + "\t" + b) == b
  {
    assert a + "\t" + b == a + ['\t'] + b;
    LastIndexAfterSeparator(a, '\t', b);
  }

  /** `s.replace(from, to)` for one-character strings: every occurrence. */
  function ReplaceChar(s: string, from: char, to: char): (r: string)
    ensures |r| == |s|
    ensures forall i | 0 <= i < |s| :: r[i] == (if s[i] == from then to else s[i])
  {
    if |s| == 0 then []
    else ReplaceChar(s[..|s| - 1], from, to) + [if s[|s| - 1] == from then to else s[|s| - 1]]
  }

  /** The decimal-separator repair the settings reader applies to a number:
      commas become dots, but only when the text holds no dot. */
  function NormalizeDecimal(t: string): (r: string)
    ensures ',' in t && '.' !in t ==> ',' !in r && |r| == |t|
    ensures ',' in t && '.' !in t ==> forall i | 0 <= i < |t| :: r[i] == (if t[i] == ',' then '.' else t[i])
    ensures !(',' in t && '.' !in t) ==> r == t
  {
    if ',' in t && '.' !in t then ReplaceChar(t, ',', '.') else t
  }

  /** The repair is idempotent: normalised text is left alone. */
  lemma {:induction false} NormalizeDecimalIdempotent(t: string)
    ensures NormalizeDecimal(NormalizeDecimal(t)) == NormalizeDecimal(t)
  {
    if ',' in t && '.' !in t {
      var r := NormalizeDecimal(t);
      assert ',' !in r;
    }
  }

  // ---------------------------------------------------------------------
  // Decimal text of integers
  // ---------------------------------------------------------------------

  const IntMin: int := -0x8000_0000
  const IntMax: int := 0x7FFF_FFFF

  predicate IsDigit(ch: char)
  {
    '0' <= ch <= '9'
  }

  predicate AllDigits(s: string)
  {
    forall i | 0 <= i < |s| :: IsDigit(s[i])
  }

  function DigitChar(d: nat): (ch: char)
    requires d < 10
    ensures IsDigit(ch) && ch as int - '0' as int == d
  {
    ('0' as int + d) as char
  }

  /** The decimal digits of n without leading zeros, as Java prints it. */
  function NatToString(n: nat): (r: string)
    ensures |r| >= 1 && AllDigits(r)
  {
    if n < 10 then [DigitChar(n)] else NatToString(n / 10) + [DigitChar(n % 10)]
  }

  /** `"" + i` and `Integer.toString(i)`. */
  function IntToString(i: int): (r: string)
    ensures |r| >= 1
    ensures i >= 0 ==> AllDigits(r)
    ensures i < 0 ==> r[0] == '-' && AllDigits(r[1..])
  {
    if i < 0 then "-" + NatToString(-i) else NatToString(i)
  }

  /** The characters numbers are written with: digits, a minus sign and
      decimal separators. */
  predicate Numeric(s: string)
  {
    forall i | 0 <= i < |s| :: IsDigit(s[i]) || s[i] == '-' || s[i] == '.' || s[i] == ','
  }

  lemma NumericLacks(s: string, c: char)
    requires Numeric(s) && !IsDigit(c) && c != '-' && c != '.' && c != ','
    ensures c !in s
  {
  }

  lemma {:induction false} IntToStringNumeric(i: int)
    ensures Numeric(IntToString(i)) && ',' !in IntToString(i) && '\t' !in IntToString(i)
  {
    var s := IntToString(i);
    if i < 0 {
      assert forall k | 1 <= k < |s| :: s[k] == s[1..][k - 1];
    }
  }

  /** The value of a string of decimal digits. */
  function DigitsValue(s: string): nat
    requires AllDigits(s)
  {
    if |s| == 0 then 0
    else DigitsValue(s[..|s| - 1]) * 10 + (s[|s| - 1] as int - '0' as int)
  }

  lemma {:induction false} DigitsValueOfNatToString(n: nat)
    ensures DigitsValue(NatToString(n)) == n
  {
    if n >= 10 {
      var s := NatToString(n / 10) + [DigitChar(n % 10)];
      assert s[..|s| - 1] == NatToString(n / 10);
      DigitsValueOfNatToString(n / 10);
    }
  }

  /** Distinct numbers print differently. */
  lemma NatToStringInjective(m: nat, n: nat)
    requires NatToString(m) == NatToString(n)
    ensures m == n
  {
    DigitsValueOfNatToString(m);
    DigitsValueOfNatToString(n);
  }

  /** `Integer.parseInt(s)`: an optional sign and at least one digit, and the
      value must fit in 32 bits; `None` is a NumberFormatException. */
  function ParseInt(s: string): (r: Option<int>)
    ensures r.Some? ==> IntMin <= r.value <= IntMax
    ensures r.Some? ==> |s| >= 1
  {
    if |s| == 0 then None
    else
      var body := if s[0] == '-' || s[0] == '+' then s[1..] else s;
      if |body| == 0 || !AllDigits(body) then None
      else
        var v: int := if s[0] == '-' then -(DigitsValue(body) as int) else DigitsValue(body);
        if IntMin <= v <= IntMax then Some(v) else None
  }

  /** sign and digits spell the `int` n: one or more digits, whose value,
      negated after a minus, fits in 32 bits. */
  predicate SpellsInt(sign: string, digits: string, n: int)
  {
    (sign == "" || sign == "-" || sign == "+") && |digits| >= 1 && AllDigits(digits) &&
    IntMin <= n <= IntMax && n == (if sign == "-" then -(DigitsValue(digits) as int) else DigitsValue(digits))
  }

  lemma ParseIntSpelled(s: string, n: int)
    requires ParseInt(s) == Some(n)
    ensures var k := if s[0] == '-' || s[0] == '+' then 1 else 0;
      s == s[..k] + s[k..] && SpellsInt(s[..k], s[k..], n)
  {
  }

  lemma ParseIntOfSpelled(sign: string, digits: string, n: int)
    requires SpellsInt(sign, digits, n)
    ensures ParseInt(sign + digits) == Some(n)
  {
    var s := sign + digits;
    if sign == "" {
      assert s == digits && IsDigit(s[0]);
    } else {
      assert s[0] == sign[0] && s[1..] == digits;
    }
  }

  /** The strings `Integer.parseInt` accepts and what they mean: exactly an
      optional sign followed by digits that spell an `int`; every other
      string is rejected. */
  lemma {:induction false} ParseIntMeaning(s: string, n: int)
    ensures ParseInt(s) == Some(n) <==>
      exists sign: string, digits: string | s == sign + digits :: SpellsInt(sign, digits, n)
  {
    if ParseInt(s) == Some(n) {
      ParseIntSpelled(s, n);
      var k := if s[0] == '-' || s[0] == '+' then 1 else 0;
      assert s == s[..k] + s[k..] && SpellsInt(s[..k], s[k..], n);
    }
    if exists sign: string, digits: string | s == sign + digits :: SpellsInt(sign, digits, n) {
      var sign: string, digits: string :| s == sign + digits && SpellsInt(sign, digits, n);
      ParseIntOfSpelled(sign, digits, n);
    }
  }

  /** Printing a Java `int` and parsing it back gives the same `int`. */
  lemma {:induction false} ParseIntOfIntToString(i: int)
    requires IntMin <= i <= IntMax
    ensures ParseInt(IntToString(i)) == Some(i)
  {
    if i < 0 {
      DigitsValueOfNatToString(-i);
      ParseIntOfSpelled("-", NatToString(-i), i);
    } else {
      DigitsValueOfNatToString(i);
      ParseIntOfSpelled("", NatToString(i), i);
      assert "" + NatToString(i) == NatToString(i);
    }
  }

  /** `StringUtils.countMatches(s, "" + c)`: the number of c in s. */
  function CountChar(s: string, c: char): (r: nat)
    ensures r <= |s|
    ensures r == 0 <==> c !in s
  {
    if |s| == 0 then 0
    else
      var r := CountChar(s[..|s| - 1], c);
      assert s == s[..|s| - 1] + [s[|s| - 1]];
      r + (if s[|s| - 1] == c then 1 else 0)
  }

  /** The positions of c in s. */
  ghost function Positions(s: string, c: char): set<int>
  {
    set i | 0 <= i < |s| && s[i] == c
  }

  /** countMatches counts exactly the positions of the character. */
  lemma {:induction false} CountCharIsPositions(s: string, c: char)
    ensures CountChar(s, c) == |Positions(s, c)|
  {
    if |s| > 0 {
      var t := s[..|s| - 1];
      CountCharIsPositions(t, c);
      if s[|s| - 1] == c {
        assert Positions(s, c) == Positions(t, c) + {|s| - 1};
      } else {
        assert Positions(s, c) == Positions(t, c);
      }
    }
  }

  /** `countMatches` adds up over concatenation. */
  lemma {:induction false} CountCharConcat(a: string, b: string, c: char)
    ensures CountChar(a + b, c) == CountChar(a, c) + CountChar(b, c)
  {
    if |b| > 0 {
      var b' := b[..|b| - 1];
      var last := if b[|b| - 1] == c then 1 else 0;
      assert (a + b)[..|a + b| - 1] == a + b';
      assert CountChar(a + b, c) == CountChar(a + b', c) + last;
      assert CountChar(b, c) == CountChar(b', c) + last;
      CountCharConcat(a, b', c);
    } else {
      assert a + b == a;
    }
  }

  /** The number of leading decimal digits of s. */
  function DigitRun(s: string): (r: nat)
    ensures r <= |s|
    ensures AllDigits(s[..r])
  {
    if |s| == 0 || !IsDigit(s[0]) then 0
    else
      var r := DigitRun(s[1..]);
      assert s[..r + 1] == [s[0]] + s[1..][..r];
      1 + r
  }

  /** A string of digits followed by a non-digit is the whole leading digit
      run, so such a number can be read back off the front of a string. */
  lemma {:induction false} DigitRunPrefix(s: string, n: string)
    requires AllDigits(n) && |n| < |s| && s[..|n|] == n && !IsDigit(s[|n|])
    ensures DigitRun(s) == |n|
  {
    if |n| > 0 {
      assert s[0] == n[0];
      assert s[1..][..|n| - 1] == n[1..];
      DigitRunPrefix(s[1..], n[1..]);
    }
  }

  /** A digit string followed by text that starts with a non-digit splits
      in one way only. */
  lemma {:induction false} DigitsThenSplit(m: string, a: string, n: string, b: string)
    requires AllDigits(m) && AllDigits(n) && |a| > 0 && !IsDigit(a[0]) && |b| > 0 && !IsDigit(b[0])
    requires m + a == n + b
    ensures m == n && a == b
  {
    var s := m + a;
    assert s[..|m|] == m && s[|m|] == a[0];
    DigitRunPrefix(s, m);
    assert s[..|n|] == n && s[|n|] == b[0];
    DigitRunPrefix(s, n);
    assert a == s[|m|..] && b == s[|n|..];
  }

  /** Equal strings with a common prefix have equal remainders. */
  lemma DropPrefix(p: string, a: string, b: string)
    requires p + a == p + b
    ensures a == b
  {
    assert a == (p + a)[|p|..] && b == (p + b)[|p|..];
  }

  /** Two digit strings that continue with the same non-digit text are equal. */
  lemma DigitsBeforeSame(m: string, n: string, rest: string)
    requires AllDigits(m) && AllDigits(n) && |rest| > 0 && !IsDigit(rest[0])
    requires m + rest == n + rest
    ensures m == n
  {
    var s := m + rest;
    assert s[..|m|] == m && s[|m|] == rest[0];
    DigitRunPrefix(s, m);
    assert s[..|n|] == n && s[|n|] == rest[0];
    DigitRunPrefix(s, n);
    assert m == s[..|m|] == s[..|n|] == n;
  }
}
