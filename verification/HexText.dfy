/** Hexadecimal text: how octets are printed, read back and assembled from integers. */
module HexText {
  import opened Basics
  import opened Octets

  // ---------- digits ----------

  function Digit(d: nat): char
    requires d < 16
  {
    if d < 10 then '0' + d as char else 'A' + (d - 10) as char
  }

  /** Value of a hexadecimal digit of either case. */
  function Value(c: char): (v: Option<nat>)
    ensures v.Some? ==> v.value < 16
  {
    if '0' <= c <= '9' then Some((c - '0') as nat)
    else if 'a' <= c <= 'f' then Some((c - 'a') as nat + 10)
    else if 'A' <= c <= 'F' then Some((c - 'A') as nat + 10)
    else None
  }

  lemma DigitValue(d: nat)
    requires d < 16
    ensures Value(Digit(d)) == Some(d)
    ensures Digit(d) != '\n' && Digit(d) != '>'
  {
  }

  /** Digits are printed in upper case and read in either. */
  lemma DigitsExact(d: nat, c: char)
    requires d < 16
    ensures Digit(d) == "0123456789ABCDEF"[d]
    ensures Value(c) == Some(d) <==> c == "0123456789ABCDEF"[d] || c == "0123456789abcdef"[d]
  {
  }

  // ---------- octets ----------

  function PrintOctet(o: Octet): string { [Digit(o / 16), Digit(o % 16)] }

  /** %02X for every octet. */
  function Print(os: seq<Octet>): string {
    if os == [] then "" else PrintOctet(os[0]) + Print(os[1..])
  }

  /** The inverse: pairs of digits, nothing else. */
  function Parse(s: string): Option<seq<Octet>> {
    if s == "" then Some([])
    else if |s| == 1 then None
    else
      var hi, lo, rest := Value(s[0]), Value(s[1]), Parse(s[2..]);
      if hi.None? || lo.None? || rest.None? then None
      else Some([(16 * hi.value + lo.value) as Octet] + rest.value)
  }

  lemma {:induction false} PrintLength(os: seq<Octet>)
    ensures |Print(os)| == 2 * |os|
  {
    if os != [] {
      PrintLength(os[1..]);
    }
  }

  lemma {:induction false} PrintConcat(a: seq<Octet>, b: seq<Octet>)
    ensures Print(a + b) == Print(a) + Print(b)
  {
    if a == [] {
      assert a + b == b;
    } else {
      PrintConcat(a[1..], b);
      assert (a + b)[1..] == a[1..] + b;
      Assoc(PrintOctet(a[0]), Print(a[1..]), Print(b));
    }
  }

  /** Reading what was printed gives the octets back. */
  lemma {:induction false} ParsePrint(os: seq<Octet>)
    ensures Parse(Print(os)) == Some(os)
  {
    if os != [] {
      ParsePrint(os[1..]);
      DigitValue(os[0] / 16);
      DigitValue(os[0] % 16);
      var s := Print(os);
      assert s[0] == Digit(os[0] / 16) && s[1] == Digit(os[0] % 16) && s[2..] == Print(os[1..]);
      assert 16 * (os[0] / 16) + os[0] % 16 == os[0];
      assert [os[0]] + os[1..] == os;
    }
  }

  // ---------- integers ----------

  /** sprintf %X: as many digits as needed. */
  function Hex(v: nat): string {
    if v < 16 then [Digit(v)] else Hex(v / 16) + [Digit(v % 16)]
  }

  function Zeros(n: nat): string { if n == 0 then "" else "0" + Zeros(n - 1) }

  /** sprintf %0*X: padded to a width, but never cut. */
  function Padded(v: nat, width: nat): string {
    var s := Hex(v);
    if |s| >= width then s else Zeros(width - |s|) + s
  }

  /** The first n pairs of digits, last pair first. */
  function PairsReversed(s: string, n: nat): string
    requires 2 * n <= |s|
  {
    if n == 0 then "" else s[2 * n - 2..2 * n] + PairsReversed(s, n - 1)
  }

  lemma {:induction false} PaddedLength(v: nat, width: nat)
    ensures |Padded(v, width)| >= width
  {
    ZerosLength(if |Hex(v)| >= width then 0 else width - |Hex(v)|);
  }

  lemma {:induction false} ZerosLength(n: nat)
    ensures |Zeros(n)| == n
  {
    if n > 0 {
      ZerosLength(n - 1);
    }
  }

  /** int2hex: the leading n octets of the padded number, least significant first. */
  function Int2Hex(v: nat, n: nat): string {
    PaddedLength(v, 2 * n);
    PairsReversed(Padded(v, 2 * n), n)
  }

  method Int2HexLoop(v: nat, nbyte: nat) returns (strhex: string)
    ensures strhex == Int2Hex(v, nbyte)
  {
    PaddedLength(v, 2 * nbyte);
    var valhex := Padded(v, 2 * nbyte);
    strhex := "";
    var i := 0;
    while i < nbyte
      invariant 0 <= i <= nbyte
      invariant strhex == PairsReversed(valhex, i)
    {
      strhex := valhex[2 * i..2 * i + 2] + strhex;
      i := i + 1;
    }
  }

  /** The n octets of v, least significant first. */
  function LittleEndian(v: nat, n: nat): seq<Octet>
    decreases n
  {
    if n == 0 then [] else [(v % 256) as Octet] + LittleEndian(v / 256, n - 1)
  }

  function FromLittleEndian(os: seq<Octet>): nat {
    if os == [] then 0 else os[0] as int + 256 * FromLittleEndian(os[1..])
  }

  function Pow256(n: nat): nat { if n == 0 then 1 else 256 * Pow256(n - 1) }

  lemma {:induction false} LittleEndianLength(v: nat, n: nat)
    ensures |LittleEndian(v, n)| == n
    decreases n
  {
    if n > 0 {
      LittleEndianLength(v / 256, n - 1);
    }
  }

  lemma {:induction false} FromToLittleEndian(v: nat, n: nat)
    requires v < Pow256(n)
    ensures FromLittleEndian(LittleEndian(v, n)) == v
    decreases n
  {
    if n > 0 {
      FromToLittleEndian(v / 256, n - 1);
      assert LittleEndian(v, n)[1..] == LittleEndian(v / 256, n - 1);
    }
  }

  lemma {:induction false} ToFromLittleEndian(os: seq<Octet>)
    ensures FromLittleEndian(os) < Pow256(|os|)
    ensures LittleEndian(FromLittleEndian(os), |os|) == os
  {
    if os != [] {
      ToFromLittleEndian(os[1..]);
      var low, high: nat := os[0] as int, FromLittleEndian(os[1..]);
      assert (low + 256 * high) % 256 == low && (low + 256 * high) / 256 == high;
      assert [os[0]] + os[1..] == os;
    }
  }

  lemma {:induction false} FromStep(os: seq<Octet>, k: nat)
    requires k < |os|
    ensures FromLittleEndian(os[k..]) == os[k] as int + 256 * FromLittleEndian(os[k + 1..])
  {
    assert os[k..][1..] == os[k + 1..];
  }

  /** Exactly `width` digits, most significant first. */
  function Fixed(v: nat, width: nat): string
    decreases width
  {
    if width == 0 then "" else Fixed(v / 16, width - 1) + [Digit(v % 16)]
  }

  function Pow16(n: nat): nat { if n == 0 then 1 else 16 * Pow16(n - 1) }

  lemma {:induction false} FixedLength(v: nat, width: nat)
    ensures |Fixed(v, width)| == width
    decreases width
  {
    if width > 0 {
      FixedLength(v / 16, width - 1);
    }
  }

  lemma {:induction false} FixedZero(width: nat)
    ensures Fixed(0, width) == Zeros(width)
  {
    if width > 0 {
      FixedZero(width - 1);
      ZerosSnoc(width - 1);
    }
  }

  lemma {:induction false} ZerosSnoc(n: nat)
    ensures "0" + Zeros(n) == Zeros(n) + "0"
  {
    if n > 0 {
      ZerosSnoc(n - 1);
      assert "0" + Zeros(n) == "0" + ("0" + Zeros(n - 1));
    }
  }

  /** A number that fits is padded to exactly the width. */
  lemma {:induction false} PaddedIsFixed(v: nat, width: nat)
    requires v < Pow16(width) && width >= 1
    ensures Padded(v, width) == Fixed(v, width)
    decreases width
  {
    FixedLength(v, width);
    if v < 16 {
      FixedZero(width - 1);
      assert Fixed(v, width) == Fixed(0, width - 1) + [Digit(v)];
      if width == 1 {
        assert Fixed(0, 0) == "";
      }
    } else {
      assert width >= 2;
      PaddedIsFixed(v / 16, width - 1);
      assert Hex(v) == Hex(v / 16) + [Digit(v % 16)];
      var z := width - |Hex(v)|;
      if z > 0 {
        assert Padded(v, width) == Zeros(z) + (Hex(v / 16) + [Digit(v % 16)]);
        assert Padded(v / 16, width - 1) == Zeros(z) + Hex(v / 16);
      } else {
        PaddedLength(v / 16, width - 1);
        FixedLength(v / 16, width - 1);
      }
    }
  }

  lemma {:induction false} Pow16Pow256(n: nat)
    ensures Pow16(2 * n) == Pow256(n)
  {
    if n > 0 {
      Pow16Pow256(n - 1);
      assert Pow16(2 * n) == 16 * Pow16(2 * n - 1) == 256 * Pow16(2 * n - 2);
    }
  }

  lemma {:induction false} PairsOfFixed(v: nat, n: nat)
    ensures |Fixed(v, 2 * n)| == 2 * n
    ensures PairsReversed(Fixed(v, 2 * n), n) == Print(LittleEndian(v, n))
    decreases n
  {
    FixedLength(v, 2 * n);
    if n > 0 {
      PairsOfFixed(v / 256, n - 1);
      var front := Fixed(v / 256, 2 * n - 2);
      assert v / 16 / 16 == v / 256;
      assert Fixed(v, 2 * n) == front + [Digit(v / 16 % 16), Digit(v % 16)];
      assert Fixed(v, 2 * n)[2 * n - 2..2 * n] == PrintOctet((v % 256) as Octet) by {
        assert v % 256 / 16 == v / 16 % 16 && v % 256 % 16 == v % 16;
      }
      PairsPrefix(front, [Digit(v / 16 % 16), Digit(v % 16)], n - 1);
    }
  }

  lemma {:induction false} PairsPrefix(s: string, t: string, n: nat)
    requires 2 * n <= |s|
    ensures PairsReversed(s + t, n) == PairsReversed(s, n)
    decreases n
  {
    if n > 0 {
      PairsPrefix(s, t, n - 1);
      assert (s + t)[2 * n - 2..2 * n] == s[2 * n - 2..2 * n];
    }
  }

  /** A number that fits n octets is printed as exactly those octets, low octet first. */
  lemma {:induction false} Int2HexExact(v: nat, n: nat)
    requires v < Pow256(n)
    ensures Int2Hex(v, n) == Print(LittleEndian(v, n))
  {
    Pow16Pow256(n);
    PaddedLength(v, 2 * n);
    if n > 0 {
      PaddedIsFixed(v, 2 * n);
      PairsOfFixed(v, n);
    }
  }
}
