/** C strings and decimal numbers. */
module Text {

  datatype Option<+T> = None | Some(value: T)

  const CRLF: string := "\r\n"

  // The C string that starts a byte buffer: everything before the first NUL.
  function CString(s: string): (r: string)
    ensures r <= s
    ensures forall k | 0 <= k < |r| :: r[k] != '\0'
    ensures |r| < |s| ==> s[|r|] == '\0'
  {
    if s == "" || s[0] == '\0' then "" else [s[0]] + CString(s[1..])
  }

  predicate NulFree(s: string) {
    forall k | 0 <= k < |s| :: s[k] != '\0'
  }

  // What a fixed-size field holds after l = min(|s|, n) bytes and a NUL were copied into it.
  function Clip(s: string, n: nat): (r: string)
    ensures |r| <= n
    ensures NulFree(s) ==> r == if |s| <= n then s else s[..n]
  {
    CString(if |s| > n then s[..n] else s)
  }

  predicate IsDigit(c: char) {
    '0' <= c <= '9'
  }

  function DigitOf(c: char): (d: nat)
    requires IsDigit(c)
    ensures d < 10
  {
    c as int - '0' as int
  }

  function DigitChar(d: nat): (c: char)
    requires d < 10
    ensures IsDigit(c) && DigitOf(c) == d
  {
    (d + '0' as int) as char
  }

  /** printf("%u", n) */
  function Decimal(n: nat): (s: string)
    ensures s != "" && forall k | 0 <= k < |s| :: IsDigit(s[k])
  {
    if n < 10 then [DigitChar(n)] else Decimal(n / 10) + [DigitChar(n % 10)]
  }

  // The number a run of digits denotes, read on after r.
  function Number(s: string, r: nat): (n: nat)
    requires forall k | 0 <= k < |s| :: IsDigit(s[k])
    ensures r <= n
  {
    if s == "" then r else Number(s[1..], r * 10 + DigitOf(s[0]))
  }

  lemma {:induction false} NumberAppend(s: string, t: string, r: nat)
    requires forall k | 0 <= k < |s| :: IsDigit(s[k])
    requires forall k | 0 <= k < |t| :: IsDigit(t[k])
    ensures Number(s + t, r) == Number(t, Number(s, r))
  {
    if s == "" {
      assert s + t == t;
    } else {
      assert (s + t)[1..] == s[1..] + t;
      NumberAppend(s[1..], t, r * 10 + DigitOf(s[0]));
    }
  }

  lemma {:induction false} NumberOfDecimal(n: nat)
    ensures Number(Decimal(n), 0) == n
  {
    if n >= 10 {
      NumberOfDecimal(n / 10);
      NumberAppend(Decimal(n / 10), [DigitChar(n % 10)], 0);
    }
  }

  lemma {:induction false} DecimalLength(n: nat, w: nat, bound: nat)
    requires w > 0 && n < bound && bound <= Power10(w)
    ensures |Decimal(n)| <= w
    decreases w
  {
    if n >= 10 {
      DecimalLength(n / 10, w - 1, n / 10 + 1);
    }
  }

  function Power10(w: nat): nat {
    if w == 0 then 1 else 10 * Power10(w - 1)
  }

  // isspace in the C locale
  predicate IsSpace(c: char) {
    c == ' ' || ('\t' <= c <= '\r')
  }

  lemma SpacesAre(c: char)
    ensures IsSpace(c) <==> c in {' ', '\t', '\n', '\U{0B}', '\U{0C}', '\r'}
  {
    assert '\t' as int == 9 && '\n' as int == 10 && '\r' as int == 13;
    if 9 < c as int < 13 { assert c == '\n' || c == '\U{0B}' || c == '\U{0C}'; }
  }

  // The value of the digits s starts with, read on after r.
  function LeadingNumber(s: string, r: nat): nat {
    if s == "" || !IsDigit(s[0]) then r else LeadingNumber(s[1..], r * 10 + DigitOf(s[0]))
  }

  /** atoi, without the overflow that C leaves undefined */
  function Atoi(s: string): int {
    if s != "" && IsSpace(s[0]) then Atoi(s[1..])
    else if s != "" && s[0] == '-' then 0 - LeadingNumber(s[1..], 0)
    else if s != "" && s[0] == '+' then LeadingNumber(s[1..], 0)
    else LeadingNumber(s, 0)
  }

  lemma {:induction false} LeadingNumberOf(s: string, t: string, r: nat)
    requires forall k | 0 <= k < |s| :: IsDigit(s[k])
    requires t == "" || !IsDigit(t[0])
    ensures LeadingNumber(s + t, r) == Number(s, r)
    decreases |s|
  {
    if s == "" {
      assert s + t == t;
    } else {
      assert (s + t)[1..] == s[1..] + t;
      LeadingNumberOf(s[1..], t, r * 10 + DigitOf(s[0]));
    }
  }

  lemma AtoiOfDecimal(n: nat, t: string)
    requires t == "" || !IsDigit(t[0])
    ensures Atoi(Decimal(n) + t) == n
  {
    var s := Decimal(n);
    assert (s + t)[0] == s[0];
    LeadingNumberOf(s, t, 0);
    NumberOfDecimal(n);
  }

  lemma {:induction false} SpacesSkipped(spaces: string, s: string)
    requires forall k | 0 <= k < |spaces| :: spaces[k] in {' ', '\t', '\n', '\U{0B}', '\U{0C}', '\r'}
    ensures Atoi(spaces + s) == Atoi(s)
    decreases |spaces|
  {
    if spaces == "" {
      assert spaces + s == s;
    } else {
      SpacesAre(spaces[0]);
      assert (spaces + s)[1..] == spaces[1..] + s;
      SpacesSkipped(spaces[1..], s);
    }
  }

  /** White space, a sign and a number in decimal digits: the number, whatever follows it. */
  lemma AtoiIs(spaces: string, sign: string, n: nat, t: string)
    requires forall k | 0 <= k < |spaces| :: spaces[k] in {' ', '\t', '\n', '\U{0B}', '\U{0C}', '\r'}
    requires (sign == "" || sign == "+" || sign == "-") && (t == "" || !('0' <= t[0] <= '9'))
    ensures Atoi(spaces + (sign + (Decimal(n) + t))) == if sign == "-" then 0 - n else n
  {
    var s := Decimal(n) + t;
    SpacesSkipped(spaces, sign + s);
    LeadingNumberOf(Decimal(n), t, 0);
    NumberOfDecimal(n);
    if sign == "" {
      assert sign + s == s && s[0] == Decimal(n)[0];
    } else {
      assert (sign + s)[0] == sign[0] && (sign + s)[1..] == s;
    }
  }

  /** Decimal digits in their order. */
  lemma DigitsAre(d: nat)
    requires d < 10
    ensures DigitChar(d) == "0123456789"[d] && IsDigit("0123456789"[d]) && DigitOf("0123456789"[d]) == d
  {
    if d < 5 {
      assert d == 0 || d == 1 || d == 2 || d == 3 || d == 4;
    } else {
      assert d == 5 || d == 6 || d == 7 || d == 8 || d == 9;
    }
  }
}
