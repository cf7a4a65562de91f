/**
 The ICAP address codec: base 36 plus the ISO 13616 check digits (ISO/IEC 7064, MOD 97-10).
 An address is its 160-bit number.
 */
module Icap {

  const ADDRESS_SPACE := 0x1_0000_0000_0000_0000_0000_0000_0000_0000_0000_0000

  type Address = a: nat | a < ADDRESS_SPACE

  datatype IcapError =
    | LengthError
    | EncodingError
    | ChecksumError
    | CountryCodeError
    | AssetIdentError
    | NotImplemented

  datatype Result<+T> = Ok(value: T) | Err(error: IcapError)

  // ----- characters -----

  predicate IsDigit(c: char) {
    '0' <= c <= '9'
  }

  predicate IsLetter(c: char) {
    'A' <= c <= 'Z'
  }

  predicate ValidBase36(s: string) {
    forall i :: 0 <= i < |s| ==> IsDigit(s[i]) || IsLetter(s[i])
  }

  const BASE36_CHARS := "0123456789ABCDEFGHIJKLMNOPQRSTUVWXYZ"

  /** The value of a character, in base 36 and in the ISO 13616 expansion alike. */
  function Val(c: char): (v: nat)
    requires IsDigit(c) || IsLetter(c)
    ensures v < 36
  {
    if IsLetter(c) then c as int - 'A' as int + 10 else c as int - '0' as int
  }

  function Char36(v: nat): (c: char)
    requires v < 36
    ensures (IsDigit(c) || IsLetter(c)) && Val(c) == v
  {
    if v < 10 then ('0' as int + v) as char else ('A' as int + v - 10) as char
  }

  lemma Char36Table()
    ensures |BASE36_CHARS| == 36 && forall v :: 0 <= v < 36 ==> BASE36_CHARS[v] == Char36(v)
  {
  }

  // ----- base 36 -----

  function Base36(n: nat): (s: string)
    ensures |s| > 0 && ValidBase36(s)
  {
    if n < 36 then [Char36(n)] else Base36(n / 36) + [Char36(n % 36)]
  }

  /** `SetString(s, 36)`. */
  function FromBase36(s: string): nat
    requires ValidBase36(s)
  {
    if s == [] then 0 else 36 * FromBase36(s[..|s| - 1]) + Val(s[|s| - 1])
  }

  function Reverse(s: string): (r: string)
    ensures |r| == |s|
  {
    seq(|s|, i requires 0 <= i < |s| => s[|s| - 1 - i])
  }

  /** The digits come out least significant first and are then reversed in place. */
  method Base36Encode(n: nat) returns (s: string)
    ensures s == Base36(n)
  {
    Char36Table();
    var i := n;
    var chars := [];
    while true
      invariant i > 0 || chars == []
      invariant Base36(n) == Base36(i) + Reverse(chars)
      decreases i
    {
      var x := i % 36;
      ghost var before := chars;
      chars := chars + [BASE36_CHARS[x]];
      assert Reverse(chars) == [Char36(x)] + Reverse(before);
      if i / 36 == 0 {
        break;
      }
      assert Base36(i) == Base36(i / 36) + [Char36(x)];
      i := i / 36;
    }
    s := ReverseSlice(chars);
  }

  method ReverseSlice(chars: string) returns (s: string)
    ensures s == Reverse(chars)
  {
    s := chars;
    var i, j := 0, |chars| - 1;
    while i < j
      invariant 0 <= i <= j + 2 && i + j == |chars| - 1 && |s| == |chars|
      invariant forall k :: i <= k <= j ==> s[k] == chars[k]
      invariant forall k :: 0 <= k < |s| && (k < i || j < k) ==> s[k] == chars[|chars| - 1 - k]
    {
      s := s[i := s[j]][j := s[i]];
      i, j := i + 1, j - 1;
    }
  }

  lemma {:induction false} Base36RoundTrip(n: nat)
    ensures FromBase36(Base36(n)) == n
    decreases n
  {
    if n >= 36 {
      Base36RoundTrip(n / 36);
      assert Base36(n)[..|Base36(n)| - 1] == Base36(n / 36);
    } else {
      assert Base36(n)[..0] == [];
    }
  }

  function Zeros(n: nat): (s: string)
    ensures |s| == n && ValidBase36(s)
  {
    seq(n, _ => '0')
  }

  lemma {:induction false} LeadingZeros(n: nat, s: string)
    requires ValidBase36(s)
    ensures ValidBase36(Zeros(n) + s) && FromBase36(Zeros(n) + s) == FromBase36(s)
    decreases n + |s|
  {
    var t := Zeros(n) + s;
    if s != [] {
      assert t[..|t| - 1] == Zeros(n) + s[..|s| - 1];
      LeadingZeros(n, s[..|s| - 1]);
    } else if n > 0 {
      assert t[..n - 1] == Zeros(n - 1) + s;
      LeadingZeros(n - 1, s);
    }
  }

  function Pow36(k: nat): (p: nat)
    ensures p > 0
  {
    if k == 0 then 1 else 36 * Pow36(k - 1)
  }

  lemma {:induction false} Base36Length(n: nat, k: nat)
    requires k > 0
    ensures |Base36(n)| <= k <==> n < Pow36(k)
    decreases k
  {
    if k == 1 {
      assert Pow36(1) == 36 * Pow36(0);
    } else if n >= 36 {
      Base36Length(n / 36, k - 1);
    } else {
      Pow36Grows(k);
    }
  }

  lemma {:induction false} Pow36Grows(k: nat)
    requires k > 0
    ensures Pow36(k) >= 36
  {
    if k > 1 {
      Pow36Grows(k - 1);
    }
  }

  lemma {:induction false} Pow36Add(j: nat, k: nat)
    ensures Pow36(j + k) == Pow36(j) * Pow36(k)
    decreases j
  {
    if j > 0 {
      Pow36Add(j - 1, k);
      assert 36 * (Pow36(j - 1) * Pow36(k)) == 36 * Pow36(j - 1) * Pow36(k);
    }
  }

  /** Thirty digits are too few for some addresses, thirty-one are enough for all. */
  lemma AddressDigits()
    ensures Pow36(30) <= ADDRESS_SPACE <= Pow36(31)
  {
    assert Pow36(3) == 46656 by {
      assert Pow36(0) == 1 && Pow36(1) == 36 && Pow36(2) == 1296;
    }
    Pow36Add(3, 3);
    Pow36Add(6, 6);
    Pow36Add(12, 3);
    Pow36Add(15, 15);
  }

  // ----- the expansion and the checksum -----

  /** Decimal digits of a number below one hundred. */
  function Decimal(n: nat): (s: string)
    requires n < 100
    ensures ValidBase36(s)
  {
    if n < 10 then [Char36(n)] else [Char36(n / 10), Char36(n % 10)]
  }

  function Expand(c: char): string
    requires IsDigit(c) || IsLetter(c)
  {
    if IsLetter(c) then Decimal(Val(c)) else [c]
  }

  function ExpandAll(s: string): string
    requires ValidBase36(s)
  {
    if s == [] then []
    else ExpandAll(s[..|s| - 1]) + Expand(s[|s| - 1])
  }

  /** Letters become two decimal digits, digits stay. */
  method Iso13616Expand(s: string) returns (r: Result<string>)
    ensures r == if ValidBase36(s) then Ok(ExpandAll(s)) else Err(EncodingError)
  {
    for i := 0 to |s|
      invariant ValidBase36(s[..i])
    {
      var n := s[i] as int;
      if n < 48 || (n > 57 && n < 65) || n > 90 {
        return Err(EncodingError);
      }
    }
    assert s[..|s|] == s;
    var parts := [];
    for i := 0 to |s|
      invariant parts == ExpandAll(s[..i])
    {
      assert s[..i + 1][..i] == s[..i];
      if s[i] as int >= 65 {
        parts := parts + Decimal(s[i] as int - 55);
      } else {
        parts := parts + [s[i]];
      }
    }
    r := Ok(parts);
  }

  /** `SetString(s, 10)` on a string of decimal digits. */
  function FromDecimal(s: string): nat
    requires forall i :: 0 <= i < |s| ==> IsDigit(s[i])
  {
    if s == [] then 0 else 10 * FromDecimal(s[..|s| - 1]) + Val(s[|s| - 1])
  }

  function Scale(c: char): nat {
    if IsLetter(c) then 100 else 10
  }

  /** The number that the expansion of `s` spells, read off `s` directly. */
  function Num(s: string): nat
    requires ValidBase36(s)
  {
    if s == [] then 0 else Num(s[..|s| - 1]) * Scale(s[|s| - 1]) + Val(s[|s| - 1])
  }

  lemma FromDecimalAppend(e: string, c: char)
    requires IsDigit(c) && forall i :: 0 <= i < |e| ==> IsDigit(e[i])
    ensures FromDecimal(e + [c]) == 10 * FromDecimal(e) + Val(c)
  {
    assert (e + [c])[..|e|] == e;
  }

  lemma {:induction false} ExpansionNumber(s: string)
    requires ValidBase36(s)
    ensures forall i :: 0 <= i < |ExpandAll(s)| ==> IsDigit(ExpandAll(s)[i])
    ensures FromDecimal(ExpandAll(s)) == Num(s)
    decreases |s|
  {
    if s != [] {
      hide FromDecimal, Expand, Scale;
      ExpansionNumber(s[..|s| - 1]);
      ExpandLast(ExpandAll(s[..|s| - 1]), s[|s| - 1]);
    }
  }

  /** One character more multiplies by its weight and adds its value. */
  lemma ExpandLast(e: string, c: char)
    requires (IsDigit(c) || IsLetter(c)) && forall i :: 0 <= i < |e| ==> IsDigit(e[i])
    ensures forall i :: 0 <= i < |e + Expand(c)| ==> IsDigit((e + Expand(c))[i])
    ensures FromDecimal(e + Expand(c)) == FromDecimal(e) * Scale(c) + Val(c)
  {
    hide FromDecimal;
    if IsLetter(c) {
      var tens, units := Char36(Val(c) / 10), Char36(Val(c) % 10);
      assert e + Expand(c) == (e + [tens]) + [units];
      FromDecimalAppend(e, tens);
      FromDecimalAppend(e + [tens], units);
    } else {
      FromDecimalAppend(e, c);
    }
  }

  predicate Checksum(s: string) {
    ValidBase36(s) && Num(s) % 97 == 1
  }

  /** The country code and the check digits move to the end before the number is formed. */
  function Rotated(s: string): string
    requires |s| >= 4
  {
    s[4..] + s[..4]
  }

  lemma RotatedValid(s: string)
    requires |s| >= 4
    ensures ValidBase36(Rotated(s)) <==> ValidBase36(s)
  {
    var t := Rotated(s);
    assert forall i :: 0 <= i < |s| ==> s[i] == t[if i < 4 then |s| - 4 + i else i - 4];
  }

  function ValidCheckSum(s: string): Result<()>
    requires |s| >= 4
  {
    if !ValidBase36(Rotated(s)) then Err(EncodingError)
    else if !Checksum(Rotated(s)) then Err(ChecksumError)
    else Ok(())
  }

  method CheckSumOf(s: string) returns (r: Result<()>)
    requires |s| >= 4
    ensures r == ValidCheckSum(s)
  {
    var expanded := Iso13616Expand(s[4..] + s[..4]);
    if expanded.Err? {
      return Err(expanded.error);
    }
    ExpansionNumber(Rotated(s));
    if FromDecimal(expanded.value) % 97 != 1 {
      return Err(ChecksumError);
    }
    r := Ok(());
  }

  /** Always two characters, between 02 and 98. */
  function CheckDigits(s: string): string
    requires ValidBase36(s)
  {
    var n := 98 - Num(s + "XE00") % 97;
    if n < 10 then "0" + Decimal(n) else Decimal(n)
  }

  // ----- the codec -----

  function Padded(a: Address): (s: string)
    ensures ValidBase36(s)
  {
    if |Base36(a)| < 30 then Zeros(30 - |Base36(a)|) + Base36(a) else Base36(a)
  }

  function AddressToIcap(a: Address): (s: string) {
    "XE" + CheckDigits(Padded(a)) + Padded(a)
  }

  function ParseIcap(s: string): Result<Address>
    requires |s| >= 4
  {
    if s[..2] != "XE" then Err(CountryCodeError)
    else
      var c := ValidCheckSum(s);
      if c.Err? then Err(c.error) else
        RotatedValid(s);
        Ok(FromBase36(s[4..]) % ADDRESS_SPACE)
  }

  function ParseIndirectIcap(s: string): Result<Address>
    requires |s| >= 7
  {
    if s[..2] != "XE" then Err(CountryCodeError)
    else if s[4..7] != "ETH" then Err(AssetIdentError)
    else
      var c := ValidCheckSum(s);
      if c.Err? then Err(c.error) else Err(NotImplemented)
  }

  function IcapToAddress(s: string): Result<Address> {
    if |s| == 35 || |s| == 34 then ParseIcap(s)
    else if |s| == 20 then ParseIndirectIcap(s)
    else Err(LengthError)
  }

  // ----- the checksum, algebraically -----

  function Weight(s: string): nat {
    if s == [] then 1 else Weight(s[..|s| - 1]) * Scale(s[|s| - 1])
  }

  lemma {:induction false} NumConcat(u: string, v: string)
    requires ValidBase36(u) && ValidBase36(v)
    ensures ValidBase36(u + v) && Num(u + v) == Num(u) * Weight(v) + Num(v)
    decreases |v|
  {
    if v == [] {
      assert u + v == u;
    } else {
      var init, c := v[..|v| - 1], v[|v| - 1];
      NumConcat(u, init);
      assert (u + v)[..|u + v| - 1] == u + init;
      assert Num(u + v) == (Num(u) * Weight(init) + Num(init)) * Scale(c) + Val(c);
      Distribute(Num(u), Weight(init), Num(init), Scale(c));
    }
  }

  lemma Distribute(x: int, y: int, z: int, k: int)
    ensures (x * y + z) * k == x * (y * k) + z * k
  {
  }

  /** Ninety-seven is prime to the weights, so a multiple of it stays visible behind any suffix. */
  lemma {:induction false} WeightInvertible(x: int, v: string)
    requires x * Weight(v) % 97 == 0
    ensures x % 97 == 0
    decreases |v|
  {
    if v != [] {
      var y := x * Weight(v[..|v| - 1]);
      assert y * Scale(v[|v| - 1]) % 97 == 0 by {
        Distribute(x, Weight(v[..|v| - 1]), 0, Scale(v[|v| - 1]));
      }
      ScaleInvertible(y, v[|v| - 1]);
      WeightInvertible(x, v[..|v| - 1]);
    }
  }

  lemma ScaleInvertible(y: int, c: char)
    requires y * Scale(c) % 97 == 0
    ensures y % 97 == 0
  {
    if IsLetter(c) {
      var q := y * 100 / 97;
      assert y * 100 == 97 * q;
      assert y == 97 * (65 * q - 67 * y);
    } else {
      var q := y * 10 / 97;
      assert y * 10 == 97 * q;
      assert y == 97 * (68 * q - 7 * y);
    }
  }

  // ----- the round trip -----

  lemma NumXE00(p: string)
    requires ValidBase36(p)
    ensures ValidBase36(p + "XE") && ValidBase36(p + "XE00")
    ensures Num(p + "XE00") == Num(p + "XE") * 100
  {
    var t := p + "XE";
    assert p + "XE00" == t + "00";
    NumConcat(t, "00");
    assert "00"[..1] == "0" && "0"[..0] == "";
    assert Weight("") == 1 && Weight("0") == 10 && Weight("00") == 100;
    assert Num("") == 0 && Num("0") == 0 && Num("00") == 0;
  }

  lemma NumTwoDigits(t: string, x: char, y: char)
    requires ValidBase36(t) && IsDigit(x) && IsDigit(y)
    ensures ValidBase36(t + [x, y]) && Num(t + [x, y]) == Num(t) * 100 + 10 * Val(x) + Val(y)
  {
    var u := t + [x, y];
    assert u[..|u| - 1] == t + [x];
    assert (t + [x])[..|t|] == t;
  }

  /** The check digits as two decimal digits, and what they are for. */
  lemma CheckDigitsFit(p: string)
    requires ValidBase36(p)
    ensures
      var n := 98 - Num(p + "XE00") % 97;
      && 2 <= n <= 98
      && CheckDigits(p) == [Char36(n / 10), Char36(n % 10)]
      && Checksum(p + "XE" + CheckDigits(p))
  {
    hide Num, ValidBase36;
    NumXE00(p);
    var n := 98 - Num(p + "XE00") % 97;
    TwoDigits(n);
    NumTwoDigits(p + "XE", Char36(n / 10), Char36(n % 10));
    CompleteTo98(Num(p + "XE") * 100);
    assert p + "XE" + CheckDigits(p) == p + "XE" + [Char36(n / 10), Char36(n % 10)];
  }

  lemma TwoDigits(n: nat)
    requires 2 <= n <= 98
    ensures (if n < 10 then "0" + Decimal(n) else Decimal(n)) == [Char36(n / 10), Char36(n % 10)]
    ensures IsDigit(Char36(n / 10)) && IsDigit(Char36(n % 10))
    ensures 10 * Val(Char36(n / 10)) + Val(Char36(n % 10)) == n
  {
  }

  lemma CompleteTo98(base: nat)
    ensures (base + (98 - base % 97)) % 97 == 1
  {
  }

  lemma PaddedFacts(a: Address)
    ensures |Padded(a)| == 30 || |Padded(a)| == 31
    ensures FromBase36(Padded(a)) == a
    ensures |AddressToIcap(a)| == |Padded(a)| + 4
    ensures AddressToIcap(a)[..2] == "XE" && AddressToIcap(a)[2..4] == CheckDigits(Padded(a))
    ensures AddressToIcap(a)[4..] == Padded(a)
  {
    hide Base36, FromBase36, Pow36, Num;
    AddressDigits();
    Base36Length(a, 31);
    Base36RoundTrip(a);
    if |Base36(a)| < 30 {
      LeadingZeros(30 - |Base36(a)|, Base36(a));
    }
    CheckDigitsFit(Padded(a));
  }

  /** Every address survives encoding and decoding; the code has length 34 or 35 and a valid checksum. */
  lemma IcapRoundTrip(a: Address)
    ensures |AddressToIcap(a)| == 34 || |AddressToIcap(a)| == 35
    ensures ValidCheckSum(AddressToIcap(a)) == Ok(())
    ensures IcapToAddress(AddressToIcap(a)) == Ok(a)
  {
    hide Base36, FromBase36, Num, CheckDigits, Padded, ValidBase36, ValidCheckSum, IcapToAddress;
    PaddedFacts(a);
    DecodesWithCheckDigits(Padded(a));
  }

  // ----- which codes are the ones the encoder produces -----

  /** Any digit string is the canonical digits of its value behind some zeros. */
  lemma {:induction false} DigitsOfValue(t: string)
    requires t != [] && ValidBase36(t)
    ensures |Base36(FromBase36(t))| <= |t|
    ensures t == Zeros(|t| - |Base36(FromBase36(t))|) + Base36(FromBase36(t))
    decreases |t|
  {
    hide Base36, FromBase36;
    var init, c := t[..|t| - 1], t[|t| - 1];
    PushDigit(init, c);
    assert t == init + [c];
    if init != [] {
      DigitsOfValue(init);
    }
  }

  lemma PushDigit(init: string, c: char)
    requires ValidBase36(init + [c]) && ValidBase36(init)
    ensures FromBase36("") == 0 && Base36(0) == "0"
    ensures
      var v := FromBase36(init);
      Base36(FromBase36(init + [c])) == if v > 0 then Base36(v) + [c] else [c]
  {
    hide Base36, FromBase36;
    assert (init + [c])[|init|] == c;
    FromBase36Push(init, c);
    Base36Step(FromBase36(init), Val(c));
    assert Char36(Val(c)) == c;
  }

  lemma FromBase36Push(init: string, c: char)
    requires ValidBase36(init + [c]) && ValidBase36(init) && (IsDigit(c) || IsLetter(c))
    ensures FromBase36("") == 0 && FromBase36(init + [c]) == 36 * FromBase36(init) + Val(c)
  {
    assert (init + [c])[..|init|] == init && (init + [c])[|init|] == c;
  }

  lemma Base36Step(v: nat, d: nat)
    requires d < 36
    ensures Base36(0) == "0"
    ensures Base36(36 * v + d) == if v > 0 then Base36(v) + [Char36(d)] else [Char36(d)]
  {
    assert (36 * v + d) / 36 == v && (36 * v + d) % 36 == d;
  }

  lemma {:induction false} NoLeadingZero(n: nat)
    ensures Base36(n)[0] == '0' ==> n == 0
    decreases n
  {
    if n >= 36 {
      NoLeadingZero(n / 36);
    }
  }

  predicate Canonical(s: string)
    requires |s| >= 34 && ValidBase36(s)
  {
    && IsDigit(s[2]) && IsDigit(s[3]) && 2 <= 10 * Val(s[2]) + Val(s[3]) <= 98
    && (|s| == 35 ==> s[4] != '0' && FromBase36(s[4..]) < ADDRESS_SPACE)
  }

  lemma DecodedShape(s: string)
    requires IcapToAddress(s).Ok?
    ensures (|s| == 34 || |s| == 35) && ValidBase36(s) && s[..2] == "XE"
    ensures Num(Rotated(s)) % 97 == 1
    ensures IcapToAddress(s).value == FromBase36(s[4..]) % ADDRESS_SPACE
  {
    RotatedValid(s);
  }

  lemma EncodedIsCanonical(a: Address)
    ensures |AddressToIcap(a)| >= 34 && ValidBase36(AddressToIcap(a)) && Canonical(AddressToIcap(a))
  {
    var s, p := AddressToIcap(a), Padded(a);
    PaddedFacts(a);
    CheckDigitsFit(p);
    assert s[2] == CheckDigits(p)[0] && s[3] == CheckDigits(p)[1];
    assert s == s[..2] + s[2..4] + s[4..];
    if |s| == 35 {
      NoLeadingZero(a);
      assert s[4] == p[0];
    }
  }

  lemma CanonicalIsEncoded(s: string)
    requires IcapToAddress(s).Ok? && |s| >= 34 && ValidBase36(s) && Canonical(s)
    ensures AddressToIcap(IcapToAddress(s).value) == s
  {
    hide Num, Base36, FromBase36, Pow36, CheckDigits, IcapToAddress, Padded;
    DecodedShape(s);
    var t := s[4..];
    CanonicalDigits(t);
    assert Rotated(s) == (t + "XE") + [s[2], s[3]];
    CheckDigitsUnique(t, s[2], s[3]);
    assert s == "XE" + [s[2], s[3]] + t;
  }

  /** Only one pair of check digits between 02 and 98 completes a body. */
  lemma CheckDigitsUnique(t: string, x: char, y: char)
    requires ValidBase36(t) && IsDigit(x) && IsDigit(y) && 2 <= 10 * Val(x) + Val(y) <= 98
    requires ValidBase36((t + "XE") + [x, y]) && Num((t + "XE") + [x, y]) % 97 == 1
    ensures CheckDigits(t) == [x, y]
  {
    hide Num, CheckDigits;
    NumXE00(t);
    NumTwoDigits(t + "XE", x, y);
    UniqueCheck(Num(t + "XE") * 100, 10 * Val(x) + Val(y));
    CheckDigitsFit(t);
  }

  /** Thirty digits, or thirty-one without a leading zero, are what padding makes of their value. */
  lemma CanonicalDigits(t: string)
    requires ValidBase36(t) && (|t| == 30 || |t| == 31)
    requires |t| == 31 ==> t[0] != '0' && FromBase36(t) < ADDRESS_SPACE
    ensures FromBase36(t) < ADDRESS_SPACE && Padded(FromBase36(t)) == t
  {
    hide Base36, FromBase36, Pow36, Zeros, ValidBase36;
    var v := FromBase36(t);
    var missing := |t| - |Base36(v)|;
    DigitsOfValue(t);
    AddressDigits();
    Base36Length(v, 30);
    ZerosHead(missing);
    if missing == 0 {
      assert Zeros(0) + Base36(v) == Base36(v);
    }
  }

  lemma ZerosHead(n: nat)
    ensures n > 0 ==> Zeros(n)[0] == '0'
  {
  }

  lemma UniqueCheck(base: nat, d: nat)
    requires 2 <= d <= 98 && (base + d) % 97 == 1
    ensures d == 98 - base % 97
  {
  }

  /** A code that decodes is the encoding of what it decodes to exactly when it is canonical: check
      digits between 02 and 98, and for the long form no leading zero and no overflow. */
  lemma DecodeEncodeIff(s: string)
    requires IcapToAddress(s).Ok?
    ensures |s| >= 34 && ValidBase36(s)
    ensures AddressToIcap(IcapToAddress(s).value) == s <==> Canonical(s)
  {
    DecodedShape(s);
    EncodedIsCanonical(IcapToAddress(s).value);
    if Canonical(s) {
      CanonicalIsEncoded(s);
    }
  }

  /** One family that fails: a short body behind one more zero, with the check digits of the longer
      body. It decodes to the same address and is not its encoding. */
  lemma LongerCodeDecodes(a: Address)
    requires |Padded(a)| == 30
    ensures
      var long := "0" + Padded(a);
      var s := "XE" + CheckDigits(long) + long;
      IcapToAddress(s) == Ok(a) && AddressToIcap(a) != s
  {
    hide Base36, FromBase36, Num, Pow36;
    var p := Padded(a);
    PaddedFacts(a);
    LeadingZeros(1, p);
    assert Zeros(1) + p == "0" + p;
    DecodesWithCheckDigits("0" + p);
  }

  /** Any body of the right length behind its check digits decodes to its value. */
  lemma DecodesWithCheckDigits(t: string)
    requires ValidBase36(t) && (|t| == 30 || |t| == 31)
    ensures
      var s := "XE" + CheckDigits(t) + t;
      && |s| == |t| + 4 && ValidCheckSum(s) == Ok(())
      && IcapToAddress(s) == Ok(FromBase36(t) % ADDRESS_SPACE)
  {
    hide Base36, FromBase36, Num, Pow36, CheckDigits;
    CheckDigitsFit(t);
    var s := "XE" + CheckDigits(t) + t;
    assert s[..2] == "XE" && s[4..] == t && s[..4] == "XE" + CheckDigits(t);
    assert Rotated(s) == t + "XE" + CheckDigits(t);
  }

  /** Which codes decode, and what is wrong with the others, in the order of the code. */
  lemma DecodeVerdict(s: string)
    ensures
      var r := IcapToAddress(s);
      if |s| == 34 || |s| == 35 then
        if s[..2] != "XE" then r == Err(CountryCodeError)
        else if !ValidBase36(s) then r == Err(EncodingError)
        else if !Checksum(s[4..] + s[..4]) then r == Err(ChecksumError)
        else r.Ok?
      else if |s| == 20 then
        if s[..2] != "XE" then r == Err(CountryCodeError)
        else if s[4..7] != "ETH" then r == Err(AssetIdentError)
        else if !ValidBase36(s) then r == Err(EncodingError)
        else if !Checksum(s[4..] + s[..4]) then r == Err(ChecksumError)
        else r == Err(NotImplemented)
      else r == Err(LengthError)
  {
    hide Checksum, FromBase36;
    if |s| >= 4 {
      RotatedValid(s);
    }
  }

  /** The code of the zero address. */
  lemma ZeroAddress()
    ensures AddressToIcap(0) == "XE50" + Zeros(30)
  {
    hide Num, CheckDigits, Zeros, ValidBase36;
    assert Base36(0) == "0";
    ZerosSnoc(29);
    ZeroCheckDigits();
    assert "XE" + "50" + Zeros(30) == "XE50" + Zeros(30);
  }

  lemma ZeroCheckDigits()
    ensures CheckDigits(Zeros(30)) == "50"
  {
    hide Num, Zeros;
    var z := Zeros(30);
    NumOfZeros(30);
    NumXE();
    NumConcat(z, "XE");
    NumXE00(z);
    TwoDigits(50);
    assert Char36(5) == '5' && Char36(0) == '0';
  }

  lemma NumXE()
    ensures ValidBase36("XE") && Num("XE") == 3314
  {
    ShortNums('X', 'E');
    assert "XE" == ['X', 'E'];
  }

  lemma {:induction false} ZerosSnoc(n: nat)
    ensures Zeros(n) + "0" == Zeros(n + 1)
    decreases n
  {
    if n > 0 {
      ZerosSnoc(n - 1);
    }
  }

  lemma {:induction false} NumOfZeros(n: nat)
    ensures Num(Zeros(n)) == 0
    decreases n
  {
    if n > 0 {
      NumOfZeros(n - 1);
      ZerosSnoc(n - 1);
      assert Zeros(n)[..n - 1] == Zeros(n - 1) && Zeros(n)[n - 1] == '0';
    }
  }

  // ----- errors that the checksum detects -----

  predicate SameClass(c: char, d: char) {
    (IsDigit(c) && IsDigit(d)) || (IsLetter(c) && IsLetter(d))
  }

  lemma NumSplit(u: string, m: string, v: string)
    requires ValidBase36(u) && ValidBase36(m) && ValidBase36(v)
    ensures ValidBase36(u + m + v)
    ensures Num(u + m + v) == (Num(u) * Weight(m) + Num(m)) * Weight(v) + Num(v)
  {
    NumConcat(u, m);
    NumConcat(u + m, v);
  }

  /** Two numbers whose middles differ by no multiple of 97 cannot both pass. */
  lemma DifferentMiddles(u: string, m: string, m': string, v: string)
    requires ValidBase36(u) && ValidBase36(m) && ValidBase36(m') && ValidBase36(v)
    requires Weight(m) == Weight(m') && (Num(m) - Num(m')) % 97 != 0
    requires Checksum(u + m + v)
    ensures ValidBase36(u + m' + v) && !Checksum(u + m' + v)
  {
    hide Num, Weight, ValidBase36;
    NumSplit(u, m, v);
    NumSplit(u, m', v);
    var x := Num(m) - Num(m');
    Subtract(Num(u) * Weight(m), Num(m), Num(m'), Weight(v), Num(v));
    if Num(u + m' + v) % 97 == 1 {
      SameResidue(Num(u + m + v), Num(u + m' + v));
      WeightInvertible(x, v);
    }
  }

  lemma Subtract(a: int, b: int, c: int, w: int, z: int)
    ensures ((a + b) * w + z) - ((a + c) * w + z) == (b - c) * w
  {
  }

  lemma SameResidue(x: int, y: int)
    requires x % 97 == y % 97
    ensures (x - y) % 97 == 0
  {
  }

  /** Exchanging two different characters of a class changes their number by 9 or by 99 times their
      distance, which is no multiple of 97. */
  lemma SwappedMiddles(x: char, y: char)
    requires SameClass(x, y) && x != y
    ensures Weight([x, y]) == Weight([y, x]) && (Num([x, y]) - Num([y, x])) % 97 != 0
  {
    hide Num, Weight;
    ShortNums(x, y);
    ShortNums(y, x);
    NoSmallMultiple(Val(x) - Val(y));
  }

  lemma NoSmallMultiple(d: int)
    requires d != 0 && -25 <= d <= 25
    ensures 9 * d % 97 != 0 && 99 * d % 97 != 0
  {
  }

  lemma ShortNums(c: char, d: char)
    requires (IsDigit(c) || IsLetter(c)) && (IsDigit(d) || IsLetter(d))
    ensures Num([c]) == Val(c) && Weight([c]) == Scale(c)
    ensures Num([c, d]) == Val(c) * Scale(d) + Val(d) && Weight([c, d]) == Scale(c) * Scale(d)
  {
    assert [c][..0] == [] && [c, d][..1] == [c];
  }

  /** Where a position ends up after the rotation. */
  function Home(s: string, i: nat): nat
    requires 4 <= |s| && i < |s|
  {
    if i < 4 then |s| - 4 + i else i - 4
  }

  /** Changing one digit to another digit, or one letter to another letter, anywhere in a code of any
      length, makes the checksum fail. */
  lemma SubstitutionDetected(s: string, i: nat, c: char)
    requires |s| >= 4 && i < |s| && ValidCheckSum(s) == Ok(())
    requires c != s[i] && SameClass(s[i], c)
    ensures ValidCheckSum(s[i := c]) == Err(ChecksumError)
  {
    hide Num, Weight, Rotated, Checksum;
    var u, v := SubstitutionShape(s, i, c);
    ShortNums(s[i], c);
    ShortNums(c, s[i]);
    DifferentMiddles(u, [s[i]], [c], v);
  }

  lemma SubstitutionShape(s: string, i: nat, c: char) returns (u: string, v: string)
    requires |s| >= 4 && i < |s| && ValidBase36(Rotated(s)) && (IsDigit(c) || IsLetter(c))
    ensures ValidBase36(u) && ValidBase36(v) && ValidBase36([s[i]])
    ensures Rotated(s) == u + [s[i]] + v
    ensures Rotated(s[i := c]) == u + [c] + v
  {
    var t, k := Rotated(s), Home(s, i);
    u, v := t[..k], t[k + 1..];
    assert t[k] == s[i];
    assert Rotated(s[i := c]) == t[k := c];
  }

  /** Exchanging two different neighbours of the same class does so too, except across the place where
      the rotation cuts the code. */
  lemma TranspositionDetected(s: string, i: nat)
    requires |s| >= 4 && i + 1 < |s| && i != 3 && ValidCheckSum(s) == Ok(())
    requires s[i] != s[i + 1] && SameClass(s[i], s[i + 1])
    ensures ValidCheckSum(s[i := s[i + 1]][i + 1 := s[i]]) == Err(ChecksumError)
  {
    hide Num, Weight, Rotated, Checksum;
    var u, v := SwapShape(s, i);
    SwappedMiddles(s[i], s[i + 1]);
    DifferentMiddles(u, [s[i], s[i + 1]], [s[i + 1], s[i]], v);
  }

  lemma SwapShape(s: string, i: nat) returns (u: string, v: string)
    requires |s| >= 4 && i + 1 < |s| && i != 3 && ValidBase36(Rotated(s))
    ensures ValidBase36(u) && ValidBase36(v) && ValidBase36([s[i], s[i + 1]])
    ensures Rotated(s) == u + [s[i], s[i + 1]] + v
    ensures Rotated(s[i := s[i + 1]][i + 1 := s[i]]) == u + [s[i + 1], s[i]] + v
  {
    var t, k := Rotated(s), Home(s, i);
    u, v := t[..k], t[k + 2..];
    assert t[k] == s[i] && t[k + 1] == s[i + 1];
  }
}
