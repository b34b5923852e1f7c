/**
 * The two pieces of library text handling the ledger loaders rely on:
 * `strings.Trim(s, " ")`, which strips leading and trailing blanks, and
 * `big.Int.SetString(s, 10)`, which reads an exact base-10 integer, together
 * with `big.Int.String()`, its inverse, used here to state round trips.
 */
module BigIntText {

  datatype Option<T> = None | Some(value: T)

  /** A run of `n` blanks. */
  function Spaces(n: nat): (r: string)
    ensures |r| == n
    ensures forall k :: 0 <= k < n ==> r[k] == ' '
  {
    seq(n, _ => ' ')
  }

  /** Strips the leading blanks: what is left is a suffix that does not start with one. */
  function TrimLeft(s: string): (r: string)
    ensures |r| <= |s| && r == s[|s| - |r|..]
    ensures forall k :: 0 <= k < |s| - |r| ==> s[k] == ' '
    ensures r == [] || r[0] != ' '
  {
    if s != [] && s[0] == ' ' then TrimLeft(s[1..]) else s
  }

  /** Strips the trailing blanks: what is left is a prefix that does not end with one. */
  function TrimRight(s: string): (r: string)
    ensures |r| <= |s| && r == s[..|r|]
    ensures forall k :: |r| <= k < |s| ==> s[k] == ' '
    ensures r == [] || r[|r| - 1] != ' '
  {
    if s != [] && s[|s| - 1] == ' ' then TrimRight(s[..|s| - 1]) else s
  }

  /**
   * `strings.Trim(s, " ")`: only the blank character is stripped, from both
   * ends; blanks inside the text and every other kind of white space stay.
   * The input is the result with blanks around it, and the result neither
   * starts nor ends with a blank.
   */
  function Trim(s: string): (r: string)
    ensures |r| <= |s|
    ensures r == [] || (r[0] != ' ' && r[|r| - 1] != ' ')
    ensures exists a, b :: s == Spaces(a) + r + Spaces(b)
  {
    var l := TrimLeft(s);
    var r := TrimRight(l);
    TrimSplit(s);
    assert s == Spaces(|s| - |l|) + r + Spaces(|l| - |r|);
    r
  }

  /** Trimming strips a run of blanks from each end. */
  lemma TrimSplit(s: string)
    ensures s == Spaces(|s| - |TrimLeft(s)|) + TrimRight(TrimLeft(s)) + Spaces(|TrimLeft(s)| - |TrimRight(TrimLeft(s))|)
  {
    var l := TrimLeft(s);
    var r := TrimRight(l);
    TrimLeftSplit(s);
    TrimRightSplit(l);
    Surround(s, l, r, |s| - |l|, |l| - |r|);
  }

  /** Blanks, then a text, then blanks. */
  lemma Surround(s: string, l: string, r: string, a: nat, b: nat)
    requires s == Spaces(a) + l && l == r + Spaces(b)
    ensures s == Spaces(a) + r + Spaces(b)
  {
    assert Spaces(a) + (r + Spaces(b)) == Spaces(a) + r + Spaces(b);
  }

  /** What TrimLeft strips is a run of blanks. */
  lemma TrimLeftSplit(s: string)
    ensures s == Spaces(|s| - |TrimLeft(s)|) + TrimLeft(s)
  {
    var a := |s| - |TrimLeft(s)|;
    assert s == s[..a] + s[a..];
    assert s[..a] == Spaces(a);
  }

  /** What TrimRight strips is a run of blanks. */
  lemma TrimRightSplit(s: string)
    ensures s == TrimRight(s) + Spaces(|s| - |TrimRight(s)|)
  {
    var n := |TrimRight(s)|;
    assert s == s[..n] + s[n..];
    assert s[n..] == Spaces(|s| - n);
  }

  /** Padding a blank-free-ended text with blanks on both sides and trimming gives the text back. */
  lemma {:induction false} TrimPadded(a: nat, t: string, b: nat)
    requires t == [] || (t[0] != ' ' && t[|t| - 1] != ' ')
    ensures Trim(Spaces(a) + t + Spaces(b)) == t
  {
    var s := Spaces(a) + t + Spaces(b);
    var l := TrimLeft(s);
    if t == [] {
      assert s == Spaces(a + b);
      assert l == [];
    } else {
      // TrimLeft stops exactly at t's first character
      assert s[a] == t[0] != ' ';
      assert l == [] || l[0] == s[|s| - |l|];
      assert |l| == |s| - a;
      assert l == t + Spaces(b);
      var r := TrimRight(l);
      assert l[|t| - 1] == t[|t| - 1] != ' ';
      assert r == [] || r[|r| - 1] == l[|r| - 1];
      assert |r| == |t|;
      assert r == l[..|t|];
    }
  }

  /** Trimming twice is trimming once. */
  lemma TrimIdempotent(s: string)
    ensures Trim(Trim(s)) == Trim(s)
  {
    var t := Trim(s);
    TrimPadded(0, t, 0);
    assert Spaces(0) + t + Spaces(0) == t;
  }

  predicate IsDigit(c: char)
  {
    '0' <= c <= '9'
  }

  predicate AllDigits(s: string)
  {
    forall k :: 0 <= k < |s| ==> IsDigit(s[k])
  }

  /** The value of a run of decimal digits, most significant first. */
  function DigitsValue(ds: string): nat
    requires AllDigits(ds)
  {
    if ds == [] then 0
    else DigitsValue(ds[..|ds| - 1]) * 10 + (ds[|ds| - 1] as int - '0' as int)
  }

  /**
   * `new(big.Int).SetString(s, 10)`: an optional `+` or `-` followed by one or
   * more decimal digits, and nothing else (no blanks, no underscores, no
   * prefix); otherwise the call reports failure.
   */
  function ParseInt(s: string): (r: Option<int>)
    ensures r.Some? <==>
              |s| > 0 && (if s[0] == '+' || s[0] == '-' then |s| > 1 && AllDigits(s[1..]) else AllDigits(s))
    ensures r.Some? && s[0] == '-' ==> r.value <= 0
    ensures r.Some? && s[0] != '-' ==> r.value >= 0
  {
    if |s| > 0 && (s[0] == '+' || s[0] == '-') then
      var ds := s[1..];
      if |ds| > 0 && AllDigits(ds) then
        Some(if s[0] == '-' then -(DigitsValue(ds) as int) else DigitsValue(ds))
      else None
    else if |s| > 0 && AllDigits(s) then Some(DigitsValue(s))
    else None
  }

  function DigitChar(d: nat): char
    requires d < 10
  {
    ('0' as int + d) as char
  }

  /** The shortest decimal form of a natural number. */
  function FormatNat(n: nat): (r: string)
    ensures |r| > 0 && AllDigits(r)
    ensures r[0] != ' '
  {
    if n < 10 then [DigitChar(n)] else FormatNat(n / 10) + [DigitChar(n % 10)]
  }

  /** `big.Int.String()`: a `-` for negative values, then the digits. */
  function FormatInt(n: int): string
  {
    if n < 0 then "-" + FormatNat(-n) else FormatNat(n)
  }

  lemma {:induction false} FormatNatValue(n: nat)
    ensures DigitsValue(FormatNat(n)) == n
  {
    var r := FormatNat(n);
    if n >= 10 {
      FormatNatValue(n / 10);
      assert r[..|r| - 1] == FormatNat(n / 10);
    }
  }

  /** Reading back what `big.Int.String()` wrote gives the same integer. */
  lemma ParseFormatRoundTrip(n: int)
    ensures ParseInt(FormatInt(n)) == Some(n)
  {
    if n < 0 {
      FormatNatValue(-n);
      ParseNegative(FormatNat(-n));
    } else {
      FormatNatValue(n);
      ParseUnsigned(FormatNat(n));
    }
  }

  /** A plain run of digits reads as its value. */
  lemma ParseUnsigned(ds: string)
    requires |ds| > 0 && AllDigits(ds)
    ensures ParseInt(ds) == Some(DigitsValue(ds) as int)
  {
    assert IsDigit(ds[0]);
  }

  /** A plus sign and a run of digits read as the value of the digits. */
  lemma ParsePlus(ds: string)
    requires |ds| > 0 && AllDigits(ds)
    ensures ParseInt("+" + ds) == Some(DigitsValue(ds) as int)
  {
    assert ("+" + ds)[1..] == ds;
  }

  /** A minus sign and a run of digits read as the negated value. */
  lemma ParseNegative(ds: string)
    requires |ds| > 0 && AllDigits(ds)
    ensures ParseInt("-" + ds) == Some(-(DigitsValue(ds) as int))
  {
    assert ("-" + ds)[1..] == ds;
  }

  /** A ledger amount field written with blanks around it reads back as the same integer. */
  lemma PaddedAmountReadsBack(a: nat, n: int, b: nat)
    ensures ParseInt(Trim(Spaces(a) + FormatInt(n) + Spaces(b))) == Some(n)
  {
    var t := FormatInt(n);
    assert t[0] != ' ';
    assert t[|t| - 1] != ' ' by {
      if n < 0 {
        assert t[|t| - 1] == FormatNat(-n)[|FormatNat(-n)| - 1];
      }
    }
    TrimPadded(a, t, b);
    ParseFormatRoundTrip(n);
  }
}
