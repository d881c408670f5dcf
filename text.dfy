/**
 * The pieces of Go's `strings` and `strconv` packages that main.go relies on:
 * `strings.Split` on a one-character separator, `strings.ToLower`,
 * `strconv.Atoi`, decimal formatting (`%d`) and the `uint(...)` conversion.
 */
module Text {
  import opened Wrappers

  const Int64Min: int := -0x8000_0000_0000_0000
  const Int64Max: int := 0x7FFF_FFFF_FFFF_FFFF
  const Two64: int := 0x1_0000_0000_0000_0000

  /** Position of the first occurrence of `c` in `s`. */
  function IndexOf(s: string, c: char): (i: nat)
    requires c in s
    ensures i < |s| && s[i] == c
    ensures forall j :: 0 <= j < i ==> s[j] != c
  {
    if s[0] == c then 0
    else
      assert s == [s[0]] + s[1..];
      1 + IndexOf(s[1..], c)
  }

  /** The pieces separated by `sep`, put back together (reference for `Split`). */
  function Join(parts: seq<string>, sep: char): string
  {
    if parts == [] then ""
    else if |parts| == 1 then parts[0]
    else parts[0] + [sep] + Join(parts[1..], sep)
  }

  /**
   * `strings.Split(s, string(sep))`: the text between consecutive separators.
   * There is always at least one piece; the empty string gives `[""]`.
   */
  function Split(s: string, sep: char): (parts: seq<string>)
    ensures |parts| >= 1
    decreases |s|
  {
    if sep !in s then [s]
    else
      var i := IndexOf(s, sep);
      [s[..i]] + Split(s[i + 1..], sep)
  }

  /** The pieces hold no separator, and joining them with it gives back the string. */
  lemma {:induction false} SplitJoin(s: string, sep: char)
    ensures forall k :: 0 <= k < |Split(s, sep)| ==> sep !in Split(s, sep)[k]
    ensures Join(Split(s, sep), sep) == s
    decreases |s|
  {
    if sep in s {
      var i := IndexOf(s, sep);
      var rest := Split(s[i + 1..], sep);
      SplitJoin(s[i + 1..], sep);
      assert sep !in s[..i] by {
        forall j | 0 <= j < i ensures s[..i][j] != sep { }
      }
      assert ([s[..i]] + rest)[1..] == rest;
      assert s == s[..i] + [sep] + s[i + 1..];
    }
  }

  /** Splitting after a separator-free prefix yields that prefix, then the pieces of the rest. */
  lemma SplitAfter(p: string, sep: char, t: string)
    requires sep !in p
    ensures Split(p + [sep] + t, sep) == [p] + Split(t, sep)
  {
    var s := p + [sep] + t;
    assert s[|p|] == sep;
    var i := IndexOf(s, sep);
    assert i == |p|;
    assert s[..i] == p;
    assert s[i + 1..] == t;
  }

  /** With a separator present, the first piece ends just before the first one. */
  lemma SplitFirst(s: string, sep: char)
    requires sep in s
    ensures Split(s, sep)[0] == s[..IndexOf(s, sep)]
    ensures Split(s, sep)[1..] == Split(s[IndexOf(s, sep) + 1..], sep)
  {
  }

  lemma Assoc(a: string, b: string, c: string)
    ensures a + b + c == a + (b + c)
  {
  }

  /** A separator-free string is its own single piece. */
  lemma SplitNone(s: string, sep: char)
    requires sep !in s
    ensures Split(s, sep) == [s]
  {
  }

  function LowerChar(c: char): char
  {
    if 'A' <= c <= 'Z' then (c as int - 'A' as int + 'a' as int) as char else c
  }

  /**
   * `strings.ToLower`, on the ASCII letters: the result has no upper-case
   * ASCII letter, and each character is either kept or is the lower-case
   * form of an upper-case ASCII letter.
   */
  function Lower(s: string): (r: string)
    ensures |r| == |s|
    ensures forall i :: 0 <= i < |r| ==> !('A' <= r[i] <= 'Z')
    ensures forall i :: 0 <= i < |s| ==>
              r[i] == s[i] || ('A' <= s[i] <= 'Z' && r[i] as int == s[i] as int + 32)
  {
    seq(|s|, i requires 0 <= i < |s| => LowerChar(s[i]))
  }

  /** `a` and `b` agree letter by letter when case is ignored. */
  predicate EqualIgnoringCase(a: string, b: string)
  {
    |a| == |b| && forall i :: 0 <= i < |a| ==> LowerChar(a[i]) == LowerChar(b[i])
  }

  /** Lower-casing both sides and comparing is comparing letter by letter, ignoring case. */
  lemma LowerEqualIff(a: string, b: string)
    ensures Lower(a) == Lower(b) <==> EqualIgnoringCase(a, b)
  {
    if Lower(a) == Lower(b) {
      assert |a| == |Lower(a)|;
      forall i | 0 <= i < |a| ensures LowerChar(a[i]) == LowerChar(b[i]) {
        assert Lower(a)[i] == Lower(b)[i];
      }
    }
  }

  predicate IsDigit(c: char)
  {
    '0' <= c <= '9'
  }

  predicate AllDigits(s: string)
  {
    forall i :: 0 <= i < |s| ==> IsDigit(s[i])
  }

  function DigitChar(d: nat): (c: char)
    requires d < 10
    ensures IsDigit(c) && c as int - '0' as int == d
  {
    ('0' as int + d) as char
  }

  /** The number a string of decimal digits denotes. */
  function DigitsValue(s: string): nat
    requires AllDigits(s)
  {
    if s == [] then 0
    else DigitsValue(s[..|s| - 1]) * 10 + (s[|s| - 1] as int - '0' as int)
  }

  /** Decimal digits of `n`, without leading zeros. */
  function FormatNat(n: nat): (s: string)
    ensures |s| >= 1 && AllDigits(s)
    ensures DigitsValue(s) == n
    ensures s[0] == '0' ==> s == "0"
  {
    if n < 10 then [DigitChar(n)]
    else
      var s := FormatNat(n / 10) + [DigitChar(n % 10)];
      assert s[..|s| - 1] == FormatNat(n / 10);
      s
  }

  /** `fmt.Sprintf("%d", n)`: a minus sign exactly for negative `n`, then digits. */
  function FormatInt(n: int): (s: string)
    ensures |s| >= 1
    ensures s[0] == '-' <==> n < 0
    ensures n >= 0 ==> IsDigit(s[0])
    ensures forall i :: 0 < i < |s| ==> IsDigit(s[i])
  {
    if n < 0 then "-" + FormatNat(-n) else FormatNat(n)
  }

  /**
   * The integer syntax `strconv.Atoi` accepts: an optional `+` or `-`, then one or
   * more decimal digits; no spaces, underscores or base prefixes. Unbounded.
   */
  function ParseInt(s: string): (r: Option<int>)
    ensures r.Some? <==> |s| >= 1 && (AllDigits(s) || (|s| >= 2 && (s[0] == '+' || s[0] == '-') && AllDigits(s[1..])))
    ensures r.Some? && r.value < 0 ==> s[0] == '-'
  {
    if |s| > 0 && (s[0] == '+' || s[0] == '-') then
      var digits := s[1..];
      if |digits| > 0 && AllDigits(digits) then
        var magnitude: int := DigitsValue(digits);
        Some(if s[0] == '-' then -magnitude else magnitude)
      else None
    else if |s| > 0 && AllDigits(s) then Some(DigitsValue(s))
    else None
  }

  /** A leading `+` changes nothing. */
  lemma ParsePlus(t: string)
    requires |t| >= 1 && AllDigits(t)
    ensures ParseInt("+" + t) == ParseInt(t)
  {
    assert ("+" + t)[1..] == t;
  }

  /** A leading zero does not change the value a string of digits denotes. */
  lemma {:induction false} LeadingZeroValue(t: string)
    requires AllDigits(t)
    ensures AllDigits("0" + t) && DigitsValue("0" + t) == DigitsValue(t)
    decreases |t|
  {
    assert AllDigits("0" + t) by {
      forall i | 0 <= i < |"0" + t| ensures IsDigit(("0" + t)[i]) {
        if i > 0 { assert ("0" + t)[i] == t[i - 1]; }
      }
    }
    if t == [] {
      assert DigitsValue("0") == DigitsValue("0"[..0]) * 10 + 0;
    } else {
      var u := t[..|t| - 1];
      assert AllDigits(u) by {
        forall i | 0 <= i < |u| ensures IsDigit(u[i]) { assert u[i] == t[i]; }
      }
      LeadingZeroValue(u);
      assert ("0" + t)[..|"0" + t| - 1] == "0" + u;
    }
  }

  /** Leading zeros are accepted and do not change the value. */
  lemma ParseLeadingZero(t: string)
    requires |t| >= 1 && AllDigits(t)
    ensures ParseInt("0" + t) == ParseInt(t)
  {
    LeadingZeroValue(t);
  }

  /** Leading zeros after a `-` are accepted and do not change the value (`-05` is -5). */
  lemma ParseNegLeadingZero(t: string)
    requires |t| >= 1 && AllDigits(t)
    ensures ParseInt("-0" + t) == ParseInt("-" + t)
  {
    LeadingZeroValue(t);
    assert ("-0" + t)[1..] == "0" + t;
    assert ("-" + t)[1..] == t;
  }

  /** `strconv.Atoi` on a 64-bit platform: `ParseInt` plus the `int` range check. */
  function Atoi(s: string): (r: Option<int>)
    ensures r.Some? ==> Int64Min <= r.value <= Int64Max
  {
    match ParseInt(s)
    case None => None
    case Some(n) => if Int64Min <= n <= Int64Max then Some(n) else None
  }

  /** Reading back what `FormatInt` writes gives the number again. */
  lemma {:induction false} ParseFormatInt(n: int)
    ensures ParseInt(FormatInt(n)) == Some(n)
  {
    if n < 0 {
      var s := FormatInt(n);
      assert s[1..] == FormatNat(-n);
    }
  }

  /** `Atoi` accepts every `%d` rendering of a 64-bit integer. */
  lemma AtoiFormatInt(n: int)
    requires Int64Min <= n <= Int64Max
    ensures Atoi(FormatInt(n)) == Some(n)
  {
    ParseFormatInt(n);
  }

  /** `Atoi` rejects the `%d` rendering of every integer outside the 64-bit range. */
  lemma AtoiRejectsOutOfRange(n: int)
    requires n < Int64Min || n > Int64Max
    ensures Atoi(FormatInt(n)) == None
  {
    ParseFormatInt(n);
  }

  /** Go's `uint(n)` for a 64-bit `int`: two's-complement reinterpretation. */
  function GoUint(n: int): (u: nat)
    requires Int64Min <= n <= Int64Max
    ensures u < Two64
    ensures n >= 0 ==> u == n
    ensures n < 0 ==> u == Two64 + n
  {
    n % Two64
  }
}
