/**
 * The few C and C++ library text routines the driver relies on, written out over `string`:
 * `snprintf` with `%x`/`%.Nx`/`%d` (and the equivalent `std::hex << std::setw(N) <<
 * std::setfill('0')` stream formatting), `strtoul`/`strtol`/`atol`, `sscanf("%x")`, and the
 * upper-casing, trimming and splitting helpers of the C locale.
 */
module CText {

  const ULongMax: nat := 0xFFFF_FFFF_FFFF_FFFF
  const LongMax: int := 0x7FFF_FFFF_FFFF_FFFF
  const LongMin: int := -0x8000_0000_0000_0000

  /** The lower-case digit character for `d`, as `%x` and `%d` print it. */
  function DigitChar(d: nat): char
    requires d < 16
  {
    if d < 10 then ('0' as int + d) as char else ('a' as int + d - 10) as char
  }

  predicate IsLowerHexChar(c: char)
  {
    '0' <= c <= '9' || 'a' <= c <= 'f'
  }

  function Pow(b: nat, e: nat): nat
  {
    if e == 0 then 1 else b * Pow(b, e - 1)
  }

  // ------------------------------------------------------------------
  // Formatting
  // ------------------------------------------------------------------

  /** The digits of `n` in `base`, most significant first, lower-case, no leading zeros. */
  function DigitsOf(n: nat, base: nat): string
    requires 2 <= base <= 16
    decreases n
  {
    if n < base then [DigitChar(n)] else DigitsOf(n / base, base) + [DigitChar(n % base)]
  }

  function Zeros(k: nat): string
  {
    if k == 0 then "" else "0" + Zeros(k - 1)
  }

  /** `n` printed as lower-case hexadecimal with at least `width` digits, zero-padded. */
  function Hex(n: nat, width: nat): string
  {
    var ds := DigitsOf(n, 16);
    if |ds| < width then Zeros(width - |ds|) + ds else ds
  }

  /** `i` printed with `%d`. */
  function Dec(i: int): string
  {
    if i < 0 then "-" + DigitsOf(-i, 10) else DigitsOf(i, 10)
  }

  // ------------------------------------------------------------------
  // Parsing (glibc semantics for a 64-bit `long`)
  // ------------------------------------------------------------------

  /** The value of a digit character in any base up to 36; 36 for a non-digit. */
  function DigitValue(c: char): nat
  {
    if '0' <= c <= '9' then c as nat - '0' as nat
    else if 'a' <= c <= 'z' then c as nat - 'a' as nat + 10
    else if 'A' <= c <= 'Z' then c as nat - 'A' as nat + 10
    else 36
  }

  predicate IsDigit(c: char, base: nat)
  {
    DigitValue(c) < base
  }

  /** `isspace` in the C locale. */
  predicate IsSpace(c: char)
  {
    c == ' ' || 9 <= c as int <= 13
  }

  /** The length of the longest prefix of `s` made of digits of `base`. */
  function DigitRun(s: string, base: nat): (k: nat)
    ensures k <= |s|
    ensures forall i :: 0 <= i < k ==> IsDigit(s[i], base)
    ensures k < |s| ==> !IsDigit(s[k], base)
  {
    if s == [] || !IsDigit(s[0], base) then 0 else 1 + DigitRun(s[1..], base)
  }

  /** The number a run of digits denotes. */
  function DigitsValue(s: string, base: nat): nat
  {
    if s == [] then 0 else DigitsValue(s[..|s| - 1], base) * base + DigitValue(s[|s| - 1])
  }

  /** The number of leading blanks of `s`. */
  function SkipSpaces(s: string): (k: nat)
    ensures k <= |s|
    ensures forall i :: 0 <= i < k ==> IsSpace(s[i])
    ensures k < |s| ==> !IsSpace(s[k])
  {
    if s == [] || !IsSpace(s[0]) then 0 else 1 + SkipSpaces(s[1..])
  }

  /** The subject sequence the `strto*` family and `%x` conversions read: its sign, its
      base (base 0 picks 16 after "0x"/"0X", 8 after a leading 0, 10 otherwise) and its digits. */
  datatype Subject = Subject(negative: bool, base: nat, digits: string)

  function SubjectOf(s: string, base: nat): Subject
  {
    var t := s[SkipSpaces(s)..];
    var negative := |t| > 0 && t[0] == '-';
    var u := if |t| > 0 && (t[0] == '-' || t[0] == '+') then t[1..] else t;
    var hexPrefix := |u| >= 3 && u[0] == '0' && (u[1] == 'x' || u[1] == 'X') && IsDigit(u[2], 16);
    var b := if base == 0 then (if hexPrefix then 16 else if |u| > 0 && u[0] == '0' then 8 else 10)
             else base;
    var v := if b == 16 && hexPrefix then u[2..] else u;
    Subject(negative, b, v[..DigitRun(v, b)])
  }

  /** `strtoul(s, &end, base)`: saturates at ULONG_MAX, negates modulo 2^64 after a '-'. */
  function StrToUL(s: string, base: nat): (r: nat)
    ensures r <= ULongMax
  {
    var sub := SubjectOf(s, base);
    var m := DigitsValue(sub.digits, sub.base);
    if m > ULongMax then ULongMax
    else if sub.negative then (ULongMax + 1 - m) % (ULongMax + 1)
    else m
  }

  /** `strtol(s, &end, base)`: saturates at LONG_MIN and LONG_MAX. */
  function StrToL(s: string, base: nat): (r: int)
    ensures LongMin <= r <= LongMax
  {
    var sub := SubjectOf(s, base);
    var m := DigitsValue(sub.digits, sub.base);
    if sub.negative then (if m > -LongMin then LongMin else -(m as int))
    else (if m > LongMax then LongMax else m)
  }

  /** `atol(s)`, which glibc implements as `strtol(s, NULL, 10)`. */
  function Atol(s: string): int
  {
    StrToL(s, 10)
  }

  /** What `sscanf(s, "%x", &u)` into an `unsigned int u` returns: EOF when the input holds
      nothing but blanks, 0 when no hexadecimal digit follows, 1 with the converted value. */
  datatype HexScan = Matched(value: nat) | NoMatch | InputFailure

  function ScanHex(s: string): (r: HexScan)
    ensures r.Matched? ==> r.value < 0x1_0000_0000
  {
    if SkipSpaces(s) == |s| then InputFailure
    else if SubjectOf(s, 16).digits == [] then NoMatch
    else Matched(StrToUL(s, 16) % 0x1_0000_0000)
  }

  // ------------------------------------------------------------------
  // Case, trimming and splitting
  // ------------------------------------------------------------------

  function UpperChar(c: char): char
  {
    if 'a' <= c <= 'z' then (c as int - 32) as char else c
  }

  /** `ToUpper` of the driver's utilities: ASCII upper-casing. */
  function ToUpper(s: string): (r: string)
    ensures |r| == |s|
    ensures forall i :: 0 <= i < |s| ==> r[i] == UpperChar(s[i])
  {
    if s == [] then "" else [UpperChar(s[0])] + ToUpper(s[1..])
  }

  /** `trim`: the string without its leading and trailing blanks. */
  function Trim(s: string): string
  {
    var a := SkipSpaces(s);
    TrimRight(s[a..])
  }

  function TrimRight(s: string): string
  {
    if s != [] && IsSpace(s[|s| - 1]) then TrimRight(s[..|s| - 1]) else s
  }

  /** The pieces of `s` between occurrences of `sep`, in order, empty pieces included. */
  function Pieces(s: string, sep: char): seq<string>
  {
    if sep !in s then [s]
    else
      var i := IndexOf(s, sep);
      [s[..i]] + Pieces(s[i + 1..], sep)
  }

  function IndexOf(s: string, c: char): (i: nat)
    requires c in s
    ensures i < |s| && s[i] == c && c !in s[..i]
  {
    if s[0] == c then 0 else 1 + IndexOf(s[1..], c)
  }

  /** `IndexOf` finds the first occurrence: it is at most any index holding `c`. */
  lemma {:induction false} IndexOfFirst(s: string, c: char, j: nat)
    requires j < |s| && s[j] == c
    ensures c in s && IndexOf(s, c) <= j
  {
    if s[0] != c {
      assert s[1..][j - 1] == c;
      IndexOfFirst(s[1..], c, j - 1);
    }
  }

  function NonEmpty(ps: seq<string>): (r: seq<string>)
    ensures forall p :: p in r ==> p in ps && p != ""
  {
    if ps == [] then []
    else (if ps[0] == "" then [] else [ps[0]]) + NonEmpty(ps[1..])
  }

  /** `split(list, s, sep, true)`: the pieces between separators, empty ones dropped. */
  function Split(s: string, sep: char): seq<string>
  {
    NonEmpty(Pieces(s, sep))
  }

  // ------------------------------------------------------------------
  // Lemmas
  // ------------------------------------------------------------------

  lemma DigitCharFacts(d: nat)
    requires d < 16
    ensures DigitValue(DigitChar(d)) == d && IsLowerHexChar(DigitChar(d))
    ensures (DigitChar(d) == '0') <==> d == 0
  {
  }

  lemma DivMod(n: nat, base: nat)
    requires 2 <= base
    ensures n == (n / base) * base + n % base && n % base < base
    ensures n >= base ==> 0 < n / base < n
  {
  }

  lemma {:induction false} DigitsOfDigits(n: nat, base: nat)
    requires 2 <= base <= 16
    ensures |DigitsOf(n, base)| >= 1
    ensures forall i :: 0 <= i < |DigitsOf(n, base)| ==>
              IsDigit(DigitsOf(n, base)[i], base) && IsLowerHexChar(DigitsOf(n, base)[i])
    ensures DigitsValue(DigitsOf(n, base), base) == n
    decreases n
  {
    var ds := DigitsOf(n, base);
    if n < base {
      DigitCharFacts(n);
      assert ds[..0] == [];
    } else {
      DivMod(n, base);
      var q, r := n / base, n % base;
      DigitsOfDigits(q, base);
      DigitCharFacts(r);
      var qs := DigitsOf(q, base);
      assert ds == qs + [DigitChar(r)];
      assert ds[..|ds| - 1] == qs;
      assert DigitsValue(ds, base) == DigitsValue(qs, base) * base + r;
    }
  }

  /** Only zero is printed with a leading '0'. */
  lemma {:induction false} DigitsOfLeading(n: nat, base: nat)
    requires 2 <= base <= 16
    ensures (DigitsOf(n, base)[0] == '0') <==> n == 0
    decreases n
  {
    DigitsOfDigits(n, base);
    if n < base {
      DigitCharFacts(n);
    } else {
      DivMod(n, base);
      DigitsOfLeading(n / base, base);
      DigitsOfDigits(n / base, base);
      assert DigitsOf(n, base)[0] == DigitsOf(n / base, base)[0];
    }
  }

  lemma {:induction false} DigitsOfLength(n: nat, base: nat, w: nat)
    requires 2 <= base <= 16 && 1 <= w && n < Pow(base, w)
    ensures |DigitsOf(n, base)| <= w
    decreases w
  {
    if n >= base {
      assert w != 1 by { assert Pow(base, 1) == base; }
      var p := Pow(base, w - 1);
      assert Pow(base, w) == base * p;
      QuotientBound(n, base, p);
      DigitsOfLength(n / base, base, w - 1);
    }
  }

  /** Below `base * p`, the quotient by `base` is below `p`. */
  lemma QuotientBound(n: nat, base: nat, p: nat)
    requires 2 <= base && n < base * p
    ensures n / base < p
  {
    assert (n / base) * base <= n;
  }

  lemma {:induction false} ZerosFacts(k: nat)
    ensures |Zeros(k)| == k
    ensures forall i :: 0 <= i < k ==> Zeros(k)[i] == '0'
  {
    if k > 0 { ZerosFacts(k - 1); }
  }

  /** Leading zeros do not change the value of a digit run. */
  lemma {:induction false} ZerosPrefixValue(k: nat, s: string, base: nat)
    ensures DigitsValue(Zeros(k) + s, base) == DigitsValue(s, base)
    decreases |s|, k
  {
    if s == [] {
      assert Zeros(k) + s == Zeros(k);
      if k > 0 {
        ZerosFacts(k);
        assert Zeros(k)[..k - 1] == Zeros(k - 1) by { ZerosFacts(k - 1); }
        ZerosPrefixValue(k - 1, [], base);
        assert Zeros(k - 1) + [] == Zeros(k - 1);
      }
    } else {
      var t := Zeros(k) + s;
      assert t[..|t| - 1] == Zeros(k) + s[..|s| - 1];
      ZerosPrefixValue(k, s[..|s| - 1], base);
    }
  }

  /** `Hex(n, w)` has exactly `w` lower-case hex digits when `n` fits, and denotes `n`. */
  lemma HexFacts(n: nat, w: nat)
    requires 1 <= w && n < Pow(16, w)
    ensures |Hex(n, w)| == w
    ensures forall i :: 0 <= i < w ==> IsDigit(Hex(n, w)[i], 16) && IsLowerHexChar(Hex(n, w)[i])
    ensures DigitsValue(Hex(n, w), 16) == n
  {
    var ds := DigitsOf(n, 16);
    DigitsOfDigits(n, 16);
    DigitsOfLength(n, 16, w);
    if |ds| < w {
      ZerosFacts(w - |ds|);
      ZerosPrefixValue(w - |ds|, ds, 16);
      var h := Zeros(w - |ds|) + ds;
      forall i | 0 <= i < w ensures IsDigit(h[i], 16) && IsLowerHexChar(h[i]) {
        if i < w - |ds| { assert h[i] == '0'; } else { assert h[i] == ds[i - (w - |ds|)]; }
      }
    }
  }

  /** A run that is all digits is read whole. */
  lemma {:induction false} DigitRunAll(s: string, base: nat)
    requires forall i :: 0 <= i < |s| ==> IsDigit(s[i], base)
    ensures DigitRun(s, base) == |s|
  {
    if s != [] { DigitRunAll(s[1..], base); }
  }

  /** `strtoul(s, &p, 0)` reads back what `snprintf("0x%.8x")` wrote. */
  lemma StrToULReadsHex(n: nat)
    requires n < 0x1_0000_0000
    ensures StrToUL("0x" + Hex(n, 8), 0) == n
  {
    assert Pow(16, 8) == 0x1_0000_0000;
    HexFacts(n, 8);
    var s := "0x" + Hex(n, 8);
    assert SkipSpaces(s) == 0;
    assert s[0..] == s;
    assert s[2..] == Hex(n, 8);
    DigitRunAll(Hex(n, 8), 16);
    assert Hex(n, 8)[..8] == Hex(n, 8);
  }

  /** `strtol(s, &p, 0)` reads back what `snprintf("%d")` wrote, for a non-negative value.
      (A leading '0' would select octal, but `%d` never writes one except for zero itself.) */
  lemma StrToLReadsDec(v: nat)
    requires v <= LongMax
    ensures StrToL(Dec(v), 0) == v
  {
    var s := DigitsOf(v, 10);
    DigitsOfDigits(v, 10);
    DigitsOfLeading(v, 10);
    assert !IsSpace(s[0]) && s[0] != '-' && s[0] != '+';
    assert SkipSpaces(s) == 0;
    assert s[0..] == s;
    if v == 0 {
      assert s == "0";
      assert DigitRun(s, 8) == 1;
      assert s[..1] == "0";
      assert DigitsValue("0", 8) == DigitsValue([], 8) * 8 + 0;
    } else {
      DigitRunAll(s, 10);
      assert s[..|s|] == s;
    }
  }
}
