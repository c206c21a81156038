/** The string operations the driver relies on: '%s' formatting of a natural,
    Python 2's int() on a string, str.rsplit(sep, 1) and str.split(sep)[0]. */
module Text {
  import opened Wrappers

  predicate IsDigit(c: char) { '0' <= c <= '9' }

  predicate AllDigits(s: string) { forall i :: 0 <= i < |s| ==> IsDigit(s[i]) }

  /** Python 2 str.isspace for ASCII: space, tab, newline, vertical tab, form feed, return. */
  predicate IsSpace(c: char) { c == ' ' || c == '\t' || c == '\n' || c == '\r' || c as int == 11 || c as int == 12 }

  function DigitChar(d: int): (c: char)
    requires 0 <= d < 10
    ensures IsDigit(c)
  {
    ('0' as int + d) as char
  }

  function DigitValue(c: char): (d: int)
    requires IsDigit(c)
    ensures 0 <= d < 10 && DigitChar(d) == c
  {
    c as int - '0' as int
  }

  /** "%s" % n for a natural n: its decimal digits, without leading zeros. */
  function DecimalString(n: nat): (s: string)
    ensures |s| >= 1 && AllDigits(s)
    ensures |s| > 1 ==> s[0] != '0'
  {
    if n < 10 then [DigitChar(n)] else DecimalString(n / 10) + [DigitChar(n % 10)]
  }

  /** The value of a string of decimal digits, most significant first. */
  function DigitsValue(s: string): nat
    requires AllDigits(s)
  {
    if s == [] then 0 else DigitsValue(s[..|s| - 1]) * 10 + DigitValue(s[|s| - 1])
  }

  function TrimLeft(s: string): (r: string)
    ensures |r| <= |s| && r == s[|s| - |r|..]
    ensures r != [] ==> !IsSpace(r[0])
  {
    if s != [] && IsSpace(s[0]) then TrimLeft(s[1..]) else s
  }

  function TrimRight(s: string): (r: string)
    ensures |r| <= |s| && r == s[..|r|]
    ensures r != [] ==> !IsSpace(r[|r| - 1])
  {
    if s != [] && IsSpace(s[|s| - 1]) then TrimRight(s[..|s| - 1]) else s
  }

  /** str.strip(): the string without leading and trailing white space. */
  function Strip(s: string): string { TrimRight(TrimLeft(s)) }

  /** Python 2 int(s) on a str in base 10: white space, an optional sign,
      more white space, at least one decimal digit, then white space; anything
      else is a ValueError, returned here as None. */
  function ParseInt(s: string): (r: Option<int>)
    ensures r.Some? && r.value < 0 ==> '-' in s
  {
    var t := Strip(s);
    assert t != [] ==> t[0] in s by {
      if t != [] { var u := TrimLeft(s); assert t == u[..|t|]; assert u == s[|s| - |u|..]; assert t[0] == s[|s| - |u|]; }
    }
    ParseSigned(t)
  }

  /** int() once the surrounding white space is gone: a sign, white space, digits. */
  function ParseSigned(t: string): (r: Option<int>)
    ensures r.Some? && r.value < 0 ==> t != [] && t[0] == '-'
  {
    var body := Unsigned(t);
    if body != [] && AllDigits(body) then
      var magnitude: int := DigitsValue(body);
      Some(if t != [] && t[0] == '-' then -magnitude else magnitude)
    else None
  }

  predicate HasSign(t: string) { t != [] && (t[0] == '-' || t[0] == '+') }

  /** What follows the sign and the white space after it. */
  function Unsigned(t: string): string
  {
    if HasSign(t) then TrimLeft(t[1..]) else t
  }

  predicate AllSpace(s: string) { forall i :: 0 <= i < |s| ==> IsSpace(s[i]) }

  /** The shape int() accepts: lead, sign, mid and trail are white space, the
      sign is empty, "+" or "-", and digits is a non-empty run of digits. */
  predicate IntSyntax(s: string, lead: string, sign: string, mid: string, digits: string, trail: string)
  {
    && s == lead + sign + mid + digits + trail
    && AllSpace(lead) && AllSpace(mid) && AllSpace(trail)
    && (sign == [] || sign == ['+'] || sign == ['-'])
    && digits != [] && AllDigits(digits)
  }

  /** The value of a sign and a run of digits. */
  function SignedValue(sign: string, digits: string): int
    requires AllDigits(digits)
  {
    var magnitude: int := DigitsValue(digits);
    if sign == ['-'] then -magnitude else magnitude
  }

  /** White space in front of a string that does not start with white space is dropped. */
  lemma {:induction false} TrimLeftSpace(w: string, x: string)
    requires AllSpace(w) && (x == [] || !IsSpace(x[0]))
    ensures TrimLeft(w + x) == x
  {
    if w != [] {
      assert (w + x)[1..] == w[1..] + x;
      TrimLeftSpace(w[1..], x);
    }
  }

  /** White space after a string that does not end with white space is dropped. */
  lemma {:induction false} TrimRightSpace(x: string, w: string)
    requires AllSpace(w) && (x == [] || !IsSpace(x[|x| - 1]))
    ensures TrimRight(x + w) == x
  {
    if w == [] {
      assert x + w == x;
    } else {
      assert (x + w)[..|x + w| - 1] == x + w[..|w| - 1];
      TrimRightSpace(x, w[..|w| - 1]);
    }
  }

  /** A string that neither starts nor ends with white space, padded with white space, strips back to itself. */
  lemma StripPadded(lead: string, core: string, trail: string)
    requires AllSpace(lead) && AllSpace(trail)
    requires core != [] && !IsSpace(core[0]) && !IsSpace(core[|core| - 1])
    ensures Strip(lead + core + trail) == core
  {
    assert lead + core + trail == lead + (core + trail);
    TrimLeftSpace(lead, core + trail);
    TrimRightSpace(core, trail);
  }

  /** What TrimLeft drops is white space. */
  lemma {:induction false} TrimLeftDropsSpace(s: string)
    ensures AllSpace(s[..|s| - |TrimLeft(s)|])
  {
    if s != [] && IsSpace(s[0]) {
      TrimLeftDropsSpace(s[1..]);
      assert s[..|s| - |TrimLeft(s)|] == [s[0]] + s[1..][..|s[1..]| - |TrimLeft(s[1..])|];
    }
  }

  /** What TrimRight drops is white space. */
  lemma {:induction false} TrimRightDropsSpace(s: string)
    ensures AllSpace(s[|TrimRight(s)|..])
  {
    if s != [] && IsSpace(s[|s| - 1]) {
      var front := s[..|s| - 1];
      TrimRightDropsSpace(front);
      assert s[|TrimRight(s)|..] == front[|TrimRight(front)|..] + [s[|s| - 1]];
    }
  }

  lemma Rejoin(s: string, k: nat)
    requires k <= |s|
    ensures s == s[..k] + s[k..]
  {
  }

  /** A string is what TrimLeft drops, which is white space, and what it keeps. */
  lemma TrimLeftSplit(s: string)
    ensures s == s[..|s| - |TrimLeft(s)|] + TrimLeft(s) && AllSpace(s[..|s| - |TrimLeft(s)|])
  {
    TrimLeftDropsSpace(s);
    Rejoin(s, |s| - |TrimLeft(s)|);
  }

  /** A string is what TrimRight keeps and what it drops, which is white space. */
  lemma TrimRightSplit(s: string)
    ensures s == TrimRight(s) + s[|TrimRight(s)|..] && AllSpace(s[|TrimRight(s)|..])
  {
    TrimRightDropsSpace(s);
    Rejoin(s, |TrimRight(s)|);
  }

  /** A sign, white space and digits parse to the signed value. */
  lemma ParseSignedOf(sign: string, mid: string, digits: string)
    requires sign == ['+'] || sign == ['-']
    requires AllSpace(mid) && digits != [] && AllDigits(digits)
    ensures ParseSigned(sign + mid + digits) == Some(SignedValue(sign, digits))
  {
    var t := sign + mid + digits;
    UnsignedOf(sign, mid, digits);
    assert t[0] == sign[0];
  }

  lemma UnsignedOf(sign: string, mid: string, digits: string)
    requires sign == ['+'] || sign == ['-']
    requires AllSpace(mid) && digits != [] && IsDigit(digits[0])
    ensures Unsigned(sign + mid + digits) == digits
  {
    var t := sign + mid + digits;
    assert HasSign(t);
    assert t[1..] == mid + digits;
    TrimLeftSpace(mid, digits);
  }

  /** Every string of the accepted shape parses, to its signed value. */
  lemma ParseIntOfSyntax(s: string, lead: string, sign: string, mid: string, digits: string, trail: string)
    requires IntSyntax(s, lead, sign, mid, digits, trail)
    ensures ParseInt(s) == Some(SignedValue(sign, digits))
  {
    assert IsDigit(digits[0]) && IsDigit(digits[|digits| - 1]);
    if sign == [] {
      assert s == (lead + mid) + digits + trail;
      assert AllSpace(lead + mid);
      StripPadded(lead + mid, digits, trail);
      assert digits[0] != '-' && digits[0] != '+';
    } else {
      var core := sign + mid + digits;
      assert s == lead + core + trail;
      assert core[0] == sign[0] && core[|core| - 1] == digits[|digits| - 1];
      StripPadded(lead, core, trail);
      ParseSignedOf(sign, mid, digits);
    }
  }

  /** White space may also follow the sign: int(" + 3 ") is 3. */
  lemma ParseIntExamples()
    ensures ParseInt(" + 3 ") == Some(3)
  {
    var sp, three := [' '], ['3'];
    assert " + 3 " == sp + ['+'] + sp + three + sp;
    assert AllSpace(sp) && AllDigits(three) && DigitsValue(three) == 3;
    ParseIntOfSyntax(" + 3 ", sp, ['+'], sp, three, sp);
  }

  /** A signed string is its sign, white space, and what Unsigned keeps. */
  lemma UnsignedSplit(t: string)
    requires HasSign(t)
    ensures var w := t[1..];
      t == [t[0]] + w[..|w| - |Unsigned(t)|] + Unsigned(t) && AllSpace(w[..|w| - |Unsigned(t)|])
  {
    var w := t[1..];
    assert Unsigned(t) == TrimLeft(w);
    TrimLeftSplit(w);
    assert t == [t[0]] + w;
  }

  /** What Strip drops on either side is white space. */
  lemma StripParts(s: string) returns (lead: string, trail: string)
    ensures s == lead + Strip(s) + trail && AllSpace(lead) && AllSpace(trail)
  {
    var u := TrimLeft(s);
    var t := TrimRight(u);
    TrimLeftSplit(s);
    TrimRightSplit(u);
    lead, trail := s[..|s| - |u|], u[|t|..];
    Regroup(s, lead, u, t, trail);
  }

  lemma Regroup(s: string, a: string, u: string, b: string, c: string)
    requires s == a + u && u == b + c
    ensures s == a + b + c
  {
  }

  /** A sign, white space and a non-empty run of digits, in that order. */
  predicate SignedDigits(t: string, sign: string, mid: string, digits: string)
  {
    && t == sign + mid + digits
    && AllSpace(mid)
    && (sign == [] || sign == ['+'] || sign == ['-'])
    && digits != [] && AllDigits(digits)
  }

  /** A stripped string that parses is a sign, white space and digits, and
      its value is their signed value. */
  lemma SignedParts(t: string, v: int) returns (sign: string, mid: string, digits: string)
    requires ParseSigned(t) == Some(v)
    ensures SignedDigits(t, sign, mid, digits) && v == SignedValue(sign, digits)
  {
    digits := Unsigned(t);
    if HasSign(t) {
      var w := t[1..];
      sign, mid := [t[0]], w[..|w| - |digits|];
      UnsignedSplit(t);
    } else {
      sign, mid := [], [];
      NoPrefix(t);
    }
    assert v == SignedValue(sign, digits);
  }

  lemma NoPrefix(t: string)
    ensures t == [] + [] + t
  {
  }

  /** Every string that parses has the accepted shape, and its value is the signed value. */
  lemma ParseIntSyntax(s: string)
    requires ParseInt(s).Some?
    ensures exists lead, sign, mid, digits, trail ::
      IntSyntax(s, lead, sign, mid, digits, trail) && ParseInt(s).value == SignedValue(sign, digits)
  {
    var v := ParseInt(s).value;
    var t := Strip(s);
    assert ParseSigned(t) == Some(v);
    var lead, trail := StripParts(s);
    var sign, mid, digits := SignedParts(t, v);
    SyntaxLift(s, lead, t, trail, sign, mid, digits);
    SyntaxWitness(s, lead, sign, mid, digits, trail, v);
  }

  /** White space around a signed string of digits keeps the shape. */
  lemma SyntaxLift(s: string, lead: string, t: string, trail: string, sign: string, mid: string, digits: string)
    requires s == lead + t + trail && AllSpace(lead) && AllSpace(trail)
    requires SignedDigits(t, sign, mid, digits)
    ensures IntSyntax(s, lead, sign, mid, digits, trail)
  {
  }

  lemma SyntaxWitness(s: string, lead: string, sign: string, mid: string, digits: string, trail: string, v: int)
    requires IntSyntax(s, lead, sign, mid, digits, trail) && v == SignedValue(sign, digits)
    ensures exists lead, sign, mid, digits, trail ::
      IntSyntax(s, lead, sign, mid, digits, trail) && v == SignedValue(sign, digits)
  {
  }

  lemma {:induction false} DigitsValueOfDecimal(n: nat)
    ensures DigitsValue(DecimalString(n)) == n
  {
    var s := DecimalString(n);
    if n >= 10 {
      DigitsValueOfDecimal(n / 10);
      assert s[..|s| - 1] == DecimalString(n / 10);
    }
  }

  /** A string that neither starts nor ends with white space is its own strip(). */
  lemma StripUnspaced(s: string)
    requires s != [] && !IsSpace(s[0]) && !IsSpace(s[|s| - 1])
    ensures Strip(s) == s
  {
    assert TrimLeft(s) == s;
  }

  /** int() of a string of digits is their value. */
  lemma ParseDigits(s: string)
    requires s != [] && AllDigits(s)
    ensures ParseInt(s) == Some(DigitsValue(s))
  {
    assert IsDigit(s[0]) && IsDigit(s[|s| - 1]);
    StripUnspaced(s);
    assert s[0] != '-' && s[0] != '+';
  }

  /** Parsing the decimal form of a natural gives that natural back. */
  lemma ParseDecimal(n: nat)
    ensures ParseInt(DecimalString(n)) == Some(n)
  {
    ParseDigits(DecimalString(n));
    DigitsValueOfDecimal(n);
  }

  /** Distinct naturals have distinct decimal forms. */
  lemma DecimalStringInjective(a: nat, b: nat)
    requires DecimalString(a) == DecimalString(b)
    ensures a == b
  {
    ParseDecimal(a);
    ParseDecimal(b);
  }

  /** What follows the last c in s, or all of s when c does not occur:
      the last element of s.rsplit(c, 1). */
  function AfterLast(s: string, c: char): (r: string)
    ensures c !in r
    ensures |r| <= |s| && r == s[|s| - |r|..]
    ensures c !in s ==> r == s
    ensures c in s ==> |r| < |s| && s[|s| - |r| - 1] == c
  {
    if s == [] then []
    else if s[|s| - 1] == c then []
    else
      var rest := AfterLast(s[..|s| - 1], c);
      AfterLastStep(s, c, rest);
      rest + [s[|s| - 1]]
  }

  /** One more character that is not c extends the part after the last c. */
  lemma AfterLastStep(s: string, c: char, rest: string)
    requires s != [] && s[|s| - 1] != c
    requires c !in rest && |rest| <= |s| - 1 && rest == s[..|s| - 1][|s| - 1 - |rest|..]
    requires c !in s[..|s| - 1] ==> rest == s[..|s| - 1]
    requires c in s[..|s| - 1] ==> |rest| < |s| - 1 && s[..|s| - 1][|s| - 2 - |rest|] == c
    ensures var r := rest + [s[|s| - 1]];
      && c !in r && |r| <= |s| && r == s[|s| - |r|..]
      && (c !in s ==> r == s)
      && (c in s ==> |r| < |s| && s[|s| - |r| - 1] == c)
  {
    var front, r := s[..|s| - 1], rest + [s[|s| - 1]];
    assert s == front + [s[|s| - 1]];
    assert c in s <==> c in front;
  }

  /** What precedes the last c in s: the first element of s.rsplit(c, 1). */
  function BeforeLast(s: string, c: char): (r: string)
    requires c in s
    ensures r + [c] + AfterLast(s, c) == s
  {
    var tail := AfterLast(s, c);
    s[..|s| - |tail| - 1]
  }

  /** When b has no c, what follows the last c of a + [c] + b is b. */
  lemma {:induction false} AfterLastJoin(a: string, c: char, b: string)
    requires c !in b
    ensures AfterLast(a + [c] + b, c) == b
  {
    var s := a + [c] + b;
    if b == [] {
      assert s[|s| - 1] == c;
    } else {
      var b' := b[..|b| - 1];
      assert s[..|s| - 1] == a + [c] + b';
      assert c !in b' by { assert forall x :: x in b' ==> x in b; }
      AfterLastJoin(a, c, b');
      assert b == b' + [b[|b| - 1]];
    }
  }

  /** When b has no c, splitting a + [c] + b at its last c gives back a and b. */
  lemma SplitAtLastJoin(a: string, c: char, b: string)
    requires c !in b
    ensures c in a + [c] + b
    ensures AfterLast(a + [c] + b, c) == b
    ensures BeforeLast(a + [c] + b, c) == a
  {
    var s := a + [c] + b;
    assert s[|a|] == c;
    AfterLastJoin(a, c, b);
    var before := BeforeLast(s, c);
    assert before + [c] + b == a + [c] + b;
    assert |before| == |a|;
    assert before == (before + [c] + b)[..|a|];
  }

  /** s.split(c)[0]: what precedes the first c in s, or all of s. */
  function BeforeFirst(s: string, c: char): (r: string)
    ensures c !in r
    ensures r <= s
    ensures |r| < |s| ==> s[|r|] == c
  {
    if s == [] || s[0] == c then [] else [s[0]] + BeforeFirst(s[1..], c)
  }
}
