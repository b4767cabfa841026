/** The string operations the vector compiler leans on: trimming, cutting a line
    at a character, and decimal numbers. */
module Text {

  datatype Option<+T> = None | Some(value: T)

  /** The characters Python's strip() removes by default. */
  predicate IsSpace(c: char) {
    c == ' ' || 9 <= c as int <= 13
  }

  lemma SpacesAre(c: char)
    ensures IsSpace(c) <==> c in " \t\n\r" || c as int in [11, 12]
  {
  }

  predicate IsBracket(c: char) {
    c == '[' || c == ']'
  }

  lemma BracketsAre(c: char)
    ensures IsBracket(c) <==> c in "[]"
  {
  }

  predicate StartsWith(s: string, c: char) {
    s != "" && s[0] == c
  }

  predicate HasPrefix(s: string, p: string) {
    |p| <= |s| && s[..|p|] == p
  }

  function TrimLeft(s: string, drop: char -> bool): (t: string)
    ensures |t| <= |s|
    ensures t != "" ==> !drop(t[0])
  {
    if s != "" && drop(s[0]) then TrimLeft(s[1..], drop) else s
  }

  function TrimRight(s: string, drop: char -> bool): (t: string)
    ensures |t| <= |s|
    ensures t != "" ==> !drop(t[|t| - 1])
  {
    if s != "" && drop(s[|s| - 1]) then TrimRight(s[..|s| - 1], drop) else s
  }

  function Trim(s: string, drop: char -> bool): string {
    TrimRight(TrimLeft(s, drop), drop)
  }

  function Strip(s: string): string {
    Trim(s, IsSpace)
  }

  /** s has no character of the dropped kind at either end. */
  predicate Bare(s: string, drop: char -> bool) {
    s == "" || (!drop(s[0]) && !drop(s[|s| - 1]))
  }

  predicate AllOf(s: string, kind: char -> bool) {
    forall i :: 0 <= i < |s| ==> kind(s[i])
  }

  lemma {:induction false} TrimLeftDropsPrefix(p: string, s: string, drop: char -> bool)
    requires AllOf(p, drop)
    ensures TrimLeft(p + s, drop) == TrimLeft(s, drop)
  {
    if p == "" {
      assert p + s == s;
    } else {
      assert (p + s)[0] == p[0];
      assert (p + s)[1..] == p[1..] + s;
      TrimLeftDropsPrefix(p[1..], s, drop);
    }
  }

  lemma {:induction false} TrimRightDropsSuffix(s: string, q: string, drop: char -> bool)
    requires AllOf(q, drop)
    ensures TrimRight(s + q, drop) == TrimRight(s, drop)
    decreases |q|
  {
    if q == "" {
      assert s + q == s;
    } else {
      var r := q[..|q| - 1];
      assert (s + q)[|s + q| - 1] == q[|q| - 1];
      assert (s + q)[..|s + q| - 1] == s + r;
      TrimRightDropsSuffix(s, r, drop);
    }
  }

  lemma {:induction false} TrimLeftKeepsSuffix(s: string, q: string, drop: char -> bool)
    ensures TrimLeft(s, drop) != "" ==> TrimLeft(s + q, drop) == TrimLeft(s, drop) + q
    ensures TrimLeft(s, drop) == "" ==> AllOf(s, drop)
  {
    if s != "" && drop(s[0]) {
      assert (s + q)[1..] == s[1..] + q;
      TrimLeftKeepsSuffix(s[1..], q, drop);
    }
  }

  lemma StripDropsSuffix(s: string, q: string)
    requires AllOf(q, IsSpace)
    ensures Strip(s + q) == Strip(s)
  {
    TrimLeftKeepsSuffix(s, q, IsSpace);
    if TrimLeft(s, IsSpace) == "" {
      TrimLeftDropsPrefix(s, q, IsSpace);
      assert q + "" == q;
      TrimLeftDropsPrefix(q, "", IsSpace);
    } else {
      TrimRightDropsSuffix(TrimLeft(s, IsSpace), q, IsSpace);
    }
  }

  /** Trimming removes exactly the padding around a bare core. */
  lemma TrimPadded(p: string, core: string, q: string, drop: char -> bool)
    requires AllOf(p, drop) && AllOf(q, drop) && Bare(core, drop)
    ensures Trim(p + core + q, drop) == core
  {
    assert p + core + q == p + (core + q);
    TrimLeftDropsPrefix(p, core + q, drop);
    if core == "" {
      assert core + q == q && q == q + "";
      TrimLeftDropsPrefix(q, "", drop);
    } else {
      assert (core + q)[0] == core[0];
      TrimRightDropsSuffix(core, q, drop);
    }
  }

  /** The two parts around the only occurrence of c: what unpacking
      line.split(c) into two names accepts. */
  function CutOnce(s: string, c: char): (r: Option<(string, string)>)
    ensures r.Some? ==> s == r.value.0 + [c] + r.value.1 && c !in r.value.0 && c !in r.value.1
  {
    match CutFirst(s, c)
    case None => None
    case Some((a, b)) => if c in b then None else Some((a, b))
  }

  function CutFirst(s: string, c: char): (r: Option<(string, string)>)
    ensures r.None? <==> c !in s
    ensures r.Some? ==> s == r.value.0 + [c] + r.value.1 && c !in r.value.0
  {
    if s == "" then None
    else if s[0] == c then Some(("", s[1..]))
    else
      match CutFirst(s[1..], c)
      case None => None
      case Some((a, b)) =>
        assert s == [s[0]] + s[1..];
        Some(([s[0]] + a, b))
  }

  lemma {:induction false} CutFirstAt(a: string, c: char, b: string)
    requires c !in a
    ensures CutFirst(a + [c] + b, c) == Some((a, b))
  {
    var s := a + [c] + b;
    if a == "" {
      assert s == [c] + b;
      assert s[1..] == b;
    } else {
      assert s[1..] == a[1..] + [c] + b;
      assert a == [a[0]] + a[1..];
      CutFirstAt(a[1..], c, b);
    }
  }

  /** CutOnce fails exactly if there is no c, or more than one. */
  lemma CutOnceExactly(s: string, c: char)
    ensures CutOnce(s, c).Some? <==> multiset(s)[c] == 1
    ensures CutFirst(s, c).None? <==> multiset(s)[c] == 0
  {
    if CutFirst(s, c).Some? {
      var (a, b) := CutFirst(s, c).value;
      assert multiset(s) == multiset(a) + multiset{c} + multiset(b);
      assert multiset(b)[c] > 0 <==> c in b;
    }
  }

  predicate IsDigit(c: char) {
    '0' <= c <= '9'
  }

  /** The decimal text of n, as the format method writes an int. */
  function NatText(n: nat): (s: string)
    ensures s != "" && AllOf(s, IsDigit)
  {
    if n < 10 then [(n + '0' as int) as char]
    else NatText(n / 10) + [(n % 10 + '0' as int) as char]
  }

  function IntText(n: int): string {
    if n < 0 then "-" + NatText(-n) else NatText(n)
  }

  function DigitValue(c: char): nat
    requires IsDigit(c)
  {
    c as int - '0' as int
  }

  lemma DigitsInOrder(c: char)
    requires IsDigit(c)
    ensures DigitValue(c) < 10 && c == "0123456789"[DigitValue(c)]
  {
  }

  function DigitsValue(s: string): nat
    requires AllOf(s, IsDigit)
  {
    if s == "" then 0 else 10 * DigitsValue(s[..|s| - 1]) + DigitValue(s[|s| - 1])
  }

  /** int(): an optional sign followed by digits; None is its ValueError. */
  function ParseInt(s: string): Option<int> {
    var (sign, digits) :=
      if StartsWith(s, '-') then (-1, s[1..]) else if StartsWith(s, '+') then (1, s[1..]) else (1, s);
    if digits != "" && AllOf(digits, IsDigit) then Some(sign * DigitsValue(digits)) else None
  }

  lemma {:induction false} DigitsOfNat(n: nat)
    ensures DigitsValue(NatText(n)) == n
  {
    var s := NatText(n);
    if n < 10 {
      assert s[..|s| - 1] == "";
    } else {
      assert s[..|s| - 1] == NatText(n / 10);
      DigitsOfNat(n / 10);
    }
  }

  lemma ParseIntOfText(n: int)
    ensures ParseInt(IntText(n)) == Some(n)
    ensures IntText(n) != "" && forall c :: c in IntText(n) ==> c == '-' || IsDigit(c)
  {
    var s := IntText(n);
    if n < 0 {
      assert s[1..] == NatText(-n);
      DigitsOfNat(-n);
    } else {
      DigitsOfNat(n);
    }
  }

  function Power(base: nat, n: nat): nat {
    if n == 0 then 1 else base * Power(base, n - 1)
  }

  lemma TenTimes(d: int, p: int)
    ensures 10 * (d * p) == d * (10 * p)
  {
  }

  /** Every digit counts for a power of ten, from the left as from the right. */
  lemma {:induction false} DecimalPlaces(c: char, s: string)
    requires IsDigit(c) && AllOf(s, IsDigit)
    ensures DigitsValue([c] + s) == DigitValue(c) * Power(10, |s|) + DigitsValue(s)
    decreases |s|
  {
    if s == "" {
      assert [c] + s == [c] && [c][..0] == "";
    } else {
      var init := s[..|s| - 1];
      DecimalPlaces(c, init);
      assert ([c] + s)[..|s|] == [c] + init && ([c] + s)[|s|] == s[|s| - 1];
      TenTimes(DigitValue(c), Power(10, |init|));
    }
  }

  /** An optional sign and at least one digit, leading zeros included, and nothing else. */
  lemma ParseIntExactly(digits: string)
    requires digits != "" && AllOf(digits, IsDigit)
    ensures ParseInt(digits) == Some(DigitsValue(digits))
    ensures ParseInt("+" + digits) == Some(DigitsValue(digits))
    ensures var n: int := DigitsValue(digits); ParseInt("-" + digits) == Some(-n)
  {
    assert IsDigit(digits[0]);
    assert ("+" + digits)[1..] == digits;
    assert ("-" + digits)[1..] == digits;
  }

  lemma ParseIntOnly(s: string) returns (sign: string, digits: string)
    requires ParseInt(s).Some?
    ensures s == sign + digits && sign in ["", "+", "-"] && digits != "" && AllOf(digits, IsDigit)
  {
    if StartsWith(s, '-') {
      sign, digits := "-", s[1..];
    } else if StartsWith(s, '+') {
      sign, digits := "+", s[1..];
    } else {
      sign, digits := "", s;
    }
  }

  /** The longest prefix of s made of one kind of character, and the rest. */
  function Run(s: string, kind: char -> bool): (r: (string, string))
    ensures s == r.0 + r.1 && AllOf(r.0, kind) && |r.1| <= |s|
  {
    if s != "" && kind(s[0]) then
      var (run, rest) := Run(s[1..], kind);
      assert s == [s[0]] + s[1..];
      ([s[0]] + run, rest)
    else ("", s)
  }

  lemma {:induction false} RunStops(run: string, rest: string, kind: char -> bool)
    requires AllOf(run, kind) && (rest == "" || !kind(rest[0]))
    ensures Run(run + rest, kind) == (run, rest)
    decreases |run|
  {
    if run == "" {
      assert run + rest == rest;
    } else {
      assert (run + rest)[1..] == run[1..] + rest;
      RunStops(run[1..], rest, kind);
      assert [run[0]] + run[1..] == run;
    }
  }
}
