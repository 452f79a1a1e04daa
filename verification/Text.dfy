/** Byte strings: searching, white space and decimal numbers. */
module Text {
  import opened Errors

  const CR := '\r'
  const LF := '\n'
  const CRLF := "\r\n"
  const CRLFCRLF := "\r\n\r\n"

  // ---------------------------------------------------------------- searching

  /** `d` occurs in `s` at position `i`. */
  ghost predicate At(s: string, d: string, i: int) {
    0 <= i && i + |d| <= |s| && s[i..i + |d|] == d
  }

  /** The position of the first occurrence of `d` in `s`, or -1. */
  function Find(s: string, d: string): (i: int)
    ensures -1 <= i
    ensures 0 <= i ==> At(s, d, i)
    ensures forall j :: 0 <= j && (i < 0 || j < i) ==> !At(s, d, j)
  {
    FindFrom(s, d, 0)
  }

  /** The position of the first occurrence at or after `k`, or -1. */
  function FindFrom(s: string, d: string, k: nat): (i: int)
    requires k <= |s|
    ensures -1 <= i
    ensures 0 <= i ==> k <= i && At(s, d, i)
    ensures forall j :: k <= j && (i < 0 || j < i) ==> !At(s, d, j)
    decreases |s| - k
  {
    if |s| < k + |d| then -1
    else if s[k..k + |d|] == d then k
    else FindFrom(s, d, k + 1)
  }

  lemma AtPrefix(s: string, t: string, d: string, i: int)
    requires s <= t
    ensures At(s, d, i) ==> At(t, d, i)
    ensures At(t, d, i) && i + |d| <= |s| ==> At(s, d, i)
  {
    if 0 <= i && i + |d| <= |s| {
      assert s[i..i + |d|] == t[i..i + |d|];
    }
  }

  lemma AtSuffix(s: string, n: nat, d: string, i: nat)
    requires n <= |s|
    ensures At(s[n..], d, i) <==> At(s, d, n + i)
  {
    if n + i + |d| <= |s| {
      assert s[n..][i..i + |d|] == s[n + i..n + i + |d|];
    }
  }

  /** Appending bytes never moves a first occurrence that is already there. */
  lemma FindPrefix(s: string, t: string, d: string)
    requires s <= t
    ensures 0 <= Find(s, d) ==> Find(t, d) == Find(s, d)
    ensures 0 <= Find(t, d) && Find(t, d) + |d| <= |s| ==> Find(s, d) == Find(t, d)
  {
    forall i ensures At(s, d, i) ==> At(t, d, i)
      ensures At(t, d, i) && i + |d| <= |s| ==> At(s, d, i)
    {
      AtPrefix(s, t, d, i);
    }
  }

  /** For a single byte, searching is membership. */
  lemma FindByte(s: string, c: char)
    ensures 0 <= Find(s, [c]) <==> c in s
    ensures 0 <= Find(s, [c]) ==> s[Find(s, [c])] == c && c !in s[..Find(s, [c])]
  {
    forall k | 0 <= k < |s| && s[k] == c ensures At(s, [c], k) {
    }
    var i := Find(s, [c]);
    if 0 <= i {
      assert s[i] == s[i..i + 1][0] == c;
    }
  }

  /** The first `c` after a `c`-free prefix is the one that follows it. */
  lemma FindByteAfter(a: string, c: char, b: string)
    requires c !in a
    ensures Find(a + [c] + b, [c]) == |a|
  {
    var s := a + [c] + b;
    assert At(s, [c], |a|) by {
      assert s[|a|..|a| + 1] == [c];
    }
    forall j | 0 <= j < |a| ensures !At(s, [c], j) {
      assert s[j..j + 1] == [a[j]];
    }
  }

  /** The first line break after a CR-free prefix is the one that follows it. */
  lemma FindCrlfAfter(a: string, b: string)
    requires CR !in a
    ensures Find(a + CRLF + b, CRLF) == |a|
  {
    var s := a + CRLF + b;
    assert At(s, CRLF, |a|) by {
      assert s[|a|..|a| + 2] == CRLF;
    }
    forall j | 0 <= j < |a| ensures !At(s, CRLF, j) {
      assert s[j] == a[j];
      assert s[j..j + 2][0] == s[j];
    }
  }

  // -------------------------------------------------------------- white space

  /** `std::isspace` in the classic locale. */
  predicate IsSpace(c: char) {
    c == ' ' || c == '\t' || c == '\n' || c == '\r' || c == '\U{0B}' || c == '\U{0C}'
  }

  /** How many leading bytes of `s` are white space. */
  function Blanks(s: string): (k: nat)
    ensures k <= |s|
    ensures forall i :: 0 <= i < k ==> IsSpace(s[i])
    ensures k < |s| ==> !IsSpace(s[k])
  {
    if s == "" || !IsSpace(s[0]) then 0 else 1 + Blanks(s[1..])
  }

  /** How many leading bytes of `s` are not white space. */
  function Solid(s: string): (k: nat)
    ensures k <= |s|
    ensures forall i :: 0 <= i < k ==> !IsSpace(s[i])
    ensures k < |s| ==> IsSpace(s[k])
  {
    if s == "" || IsSpace(s[0]) then 0 else 1 + Solid(s[1..])
  }

  /** A non-empty string without white space: what one `>>` extracts. */
  predicate IsWord(w: string) {
    w != "" && forall c :: c in w ==> !IsSpace(c)
  }

  // ---------------------------------------------------------- decimal numbers

  predicate IsDigit(c: char) {
    '0' <= c <= '9'
  }

  predicate AllDigits(s: string) {
    s != "" && forall c :: c in s ==> IsDigit(c)
  }

  function DigitChar(d: nat): (c: char)
    requires d < 10
    ensures IsDigit(c) && c as int == '0' as int + d
  {
    ('0' as int + d) as char
  }

  /** `std::to_string` of an unsigned number. */
  function Decimal(n: nat): (s: string)
    ensures AllDigits(s)
  {
    if n < 10 then [DigitChar(n)] else Decimal(n / 10) + [DigitChar(n % 10)]
  }

  /** The number a digit string denotes. */
  function DigitsValue(s: string): nat
    requires forall c :: c in s ==> IsDigit(c)
  {
    if s == "" then 0
    else
      assert IsDigit(s[|s| - 1]);
      10 * DigitsValue(s[..|s| - 1]) + (s[|s| - 1] as int - '0' as int)
  }

  lemma {:induction false} DecimalRoundTrip(n: nat)
    ensures DigitsValue(Decimal(n)) == n
  {
    if n < 10 {
      assert Decimal(n)[..0] == "";
    } else {
      DecimalRoundTrip(n / 10);
      assert Decimal(n)[..|Decimal(n)| - 1] == Decimal(n / 10);
    }
  }

  lemma DecimalIsWord(n: nat)
    ensures IsWord(Decimal(n)) && CR !in Decimal(n)
  {
    assert forall c :: IsDigit(c) ==> !IsSpace(c) && c != CR;
  }

  /** How many leading bytes of `s` are digits. */
  function Digits(s: string): (k: nat)
    ensures k <= |s|
    ensures forall i :: 0 <= i < k ==> IsDigit(s[i])
    ensures k < |s| ==> !IsDigit(s[k])
  {
    if s == "" || !IsDigit(s[0]) then 0 else 1 + Digits(s[1..])
  }

  /** The width of `unsigned long` on the platform the project files target. */
  const ULONG_RANGE: nat := 0x1_0000_0000

  /** `std::stoul(s)`; `None` stands for the two exceptions, which are both `std::logic_error`s. */
  function Stoul(s: string): Option<nat> {
    Signed(s[Blanks(s)..])
  }

  /** With an optional sign at the front; a minus sign negates within the type. */
  function Signed(t: string): Option<nat> {
    if t == "" then None
    else if t[0] == '+' then Unsigned(t[1..])
    else if t[0] == '-' then Negated(Unsigned(t[1..]))
    else Unsigned(t)
  }

  /** The digits at the front, if there are any and their number fits the type. */
  function Unsigned(u: string): Option<nat> {
    var k := Digits(u);
    if k == 0 || ULONG_RANGE <= DigitsValue(u[..k]) then None else Some(DigitsValue(u[..k]))
  }

  function Negated(n: Option<nat>): Option<nat> {
    match n
    case None => None
    case Some(v) => Some((ULONG_RANGE - v) % ULONG_RANGE)
  }

  /** `stoul` undoes `to_string` exactly as far as the type reaches. */
  lemma StoulDecimal(n: nat)
    ensures Stoul(Decimal(n)) == if n < ULONG_RANGE then Some(n) else None
  {
    var s := Decimal(n);
    assert s[0] in s && IsDigit(s[0]);
    assert Blanks(s) == 0 && s[0..] == s;
    assert forall i :: 0 <= i < |s| ==> s[i] in s && IsDigit(s[i]);
    assert Digits(s) == |s|;
    assert s[..|s|] == s;
    DecimalRoundTrip(n);
  }

  /** What `stoul` reads: blanks, perhaps a sign, digits, and anything that does not go on with a digit. */
  ghost predicate NumberIn(s: string, blank: string, sign: string, digits: string, rest: string) {
    && s == blank + (sign + (digits + rest)) && (sign == "" || sign == "+" || sign == "-") && AllDigits(digits)
    && (forall i :: 0 <= i < |blank| ==> IsSpace(blank[i]))
    && (rest != "" ==> !IsDigit(rest[0]))
  }

  lemma BlanksOf(s: string, blank: string, number: string)
    requires s == blank + number && (forall i :: 0 <= i < |blank| ==> IsSpace(blank[i]))
    requires number != "" && !IsSpace(number[0])
    ensures Stoul(s) == Signed(number)
  {
    assert forall i :: 0 <= i < |blank| ==> s[i] == blank[i];
    assert s[|blank|] == number[0];
    assert Blanks(s) == |blank| && s[|blank|..] == number;
  }

  lemma DigitsOf(u: string, digits: string, rest: string)
    requires u == digits + rest && AllDigits(digits) && (rest != "" ==> !IsDigit(rest[0]))
    ensures u != "" && IsDigit(u[0])
    ensures Unsigned(u) == if DigitsValue(digits) < 0x1_0000_0000 then Some(DigitsValue(digits)) else None
  {
    assert forall i :: 0 <= i < |digits| ==> u[i] == digits[i] && digits[i] in digits;
    assert rest != "" ==> u[|digits|] == rest[0];
    assert Digits(u) == |digits| && u[..|digits|] == digits;
  }

  /** A number too big for the type is refused; a minus sign gives the number that adds up to zero with it. */
  lemma StoulOfNumber(s: string, blank: string, sign: string, digits: string, rest: string)
    requires NumberIn(s, blank, sign, digits, rest)
    ensures var v := DigitsValue(digits);
            match Stoul(s)
            case None => 0x1_0000_0000 <= v
            case Some(n) =>
              v < 0x1_0000_0000 && n < 0x1_0000_0000
              && if sign == "-" then n == (if v == 0 then 0 else 0x1_0000_0000 - v) else n == v
  {
    var u := digits + rest;
    DigitsOf(u, digits, rest);
    StoulOfSigned(s, blank, sign, u);
  }

  lemma StoulOfSigned(s: string, blank: string, sign: string, u: string)
    requires s == blank + (sign + u) && (sign == "" || sign == "+" || sign == "-") && u != "" && IsDigit(u[0])
    requires forall i :: 0 <= i < |blank| ==> IsSpace(blank[i])
    ensures Stoul(s) == if sign == "-" then Negated(Unsigned(u)) else Unsigned(u)
  {
    SignOf(sign, u);
    BlanksOf(s, blank, sign + u);
  }

  lemma SignOf(sign: string, u: string)
    requires (sign == "" || sign == "+" || sign == "-") && u != "" && IsDigit(u[0])
    ensures Signed(sign + u) == if sign == "-" then Negated(Unsigned(u)) else Unsigned(u)
    ensures sign + u != "" && !IsSpace((sign + u)[0])
  {
    if sign == "" {
      assert sign + u == u;
    } else {
      assert (sign + u)[1..] == u && (sign + u)[0] == sign[0];
    }
  }

  /** Anything else is refused, too. */
  lemma StoulNeedsNumber(s: string) returns (blank: string, sign: string, digits: string, rest: string)
    requires Stoul(s).Some?
    ensures NumberIn(s, blank, sign, digits, rest)
  {
    blank := s[..Blanks(s)];
    assert forall i :: 0 <= i < |blank| ==> blank[i] == s[i];
    sign, digits, rest := SignedParts(s[Blanks(s)..]);
    assert s == blank + s[Blanks(s)..];
  }

  lemma SignedParts(t: string) returns (sign: string, digits: string, rest: string)
    requires Signed(t).Some?
    ensures t == sign + (digits + rest) && (sign == "" || sign == "+" || sign == "-") && AllDigits(digits)
    ensures rest != "" ==> !IsDigit(rest[0])
  {
    sign := if t[0] == '-' || t[0] == '+' then [t[0]] else "";
    var u := t[|sign|..];
    assert t == sign + u;
    digits, rest := UnsignedParts(u);
  }

  lemma UnsignedParts(u: string) returns (digits: string, rest: string)
    requires Unsigned(u).Some?
    ensures u == digits + rest && AllDigits(digits) && (rest != "" ==> !IsDigit(rest[0]))
  {
    digits, rest := u[..Digits(u)], u[Digits(u)..];
  }
}
