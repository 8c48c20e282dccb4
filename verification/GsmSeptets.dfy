/** The unpacker of 7-bit SMS text, against the packing of section 6.1.2.1 of 3GPP TS 23.038.
    Bit strings are written most significant bit first, so a stream of octets that grows towards
    higher bits grows to the left. */
module GsmSeptets {
  import opened Basics
  import opened Octets

  type Bits = seq<bool>
  type Septet = x: int | 0 <= x < 128

  // ---------- bit strings ----------

  function Pow2(n: nat): (p: nat)
    ensures p > 0
  {
    if n == 0 then 1 else 2 * Pow2(n - 1)
  }

  /** The n lowest bits of a value. */
  function Bin(v: nat, n: nat): (b: Bits)
    ensures |b| == n
  {
    if n == 0 then [] else Bin(v / 2, n - 1) + [v % 2 == 1]
  }

  function Val(b: Bits): (v: nat)
    ensures v < Pow2(|b|)
  {
    if b == [] then 0 else 2 * Val(b[..|b| - 1]) + if b[|b| - 1] then 1 else 0
  }

  lemma {:induction false} ValBin(v: nat, n: nat)
    requires v < Pow2(n)
    ensures Val(Bin(v, n)) == v
  {
    if n > 0 {
      ValBin(v / 2, n - 1);
      assert Bin(v, n)[..n - 1] == Bin(v / 2, n - 1);
    }
  }

  lemma {:induction false} BinVal(b: Bits)
    ensures Bin(Val(b), |b|) == b
  {
    if b != [] {
      BinVal(b[..|b| - 1]);
    }
  }

  lemma Powers()
    ensures Pow2(7) == 128 && Pow2(8) == 256
  {
  }

  function OctetBin(o: Octet): (b: Bits)
    ensures |b| == 8
  {
    Bin(o, 8)
  }

  function Zeros(n: nat): Bits { seq(n, _ => false) }

  /** Only a string of zeros has the value zero. */
  lemma {:induction false} ValZero(b: Bits)
    ensures Val(b) == 0 <==> b == Zeros(|b|)
  {
    if b != [] {
      var c := b[..|b| - 1];
      ValZero(c);
      assert b == c + [b[|b| - 1]] && Zeros(|b|) == Zeros(|c|) + [false];
    }
  }

  // ---------- packing ----------

  function SeptetBits(s: seq<Septet>): Bits {
    if s == [] then [] else SeptetBits(s[1..]) + Bin(s[0], 7)
  }

  /** Octets from the low end; the last is filled up with zero bits. */
  function Cut(b: Bits): seq<Octet> {
    Powers();
    if b == [] then []
    else if |b| < 8 then [Val(Zeros(8 - |b|) + b)]
    else [Val(b[|b| - 8..])] + Cut(b[..|b| - 8])
  }

  function Pack(s: seq<Septet>): seq<Octet> { Cut(SeptetBits(s)) }

  // ---------- unpacking ----------

  function SeptetOf(ch: Bits): (v: Septet)
    requires |ch| == 7
    ensures v == Val(ch) && (v == 0 <==> ch == Zeros(7))
  {
    Powers();
    ValZero(ch);
    Val(ch)
  }

  function OctetBits(os: seq<Octet>): Bits {
    if os == [] then [] else OctetBits(os[1..]) + OctetBin(os[0])
  }

  /** Groups of seven bits from the low end; fewer than seven are dropped. */
  function Groups(b: Bits): seq<Septet> {
    if |b| < 7 then [] else [SeptetOf(b[|b| - 7..])] + Groups(b[..|b| - 7])
  }

  /** Place of a septet in its group of eight. */
  type Lane = x: int | 0 <= x < 8

  function NextLane(j: Lane): Lane { if j == 7 then 0 else j + 1 }

  /** Zero septets are skipped, except every eighth. */
  function Kept(v: Septet, j: Lane): seq<Septet> { if v != 0 || j == 7 then [v] else [] }

  function Shown(gs: seq<Septet>, j: Lane): seq<Septet>
    decreases |gs|
  {
    if gs == [] then [] else Kept(gs[0], j) + Shown(gs[1..], NextLane(j))
  }

  /** What is still to be shown of the bits `b`, the next septet having place `j`. */
  ghost function Left(b: Bits, j: Lane): seq<Septet> { Shown(Groups(b), j) }

  /** The lowest seven bits are the next septet. */
  lemma {:induction false} LeftStep(high: Bits, ch: Bits, j: Lane)
    requires |ch| == 7
    ensures Left(high + ch, j) == Kept(SeptetOf(ch), j) + Left(high, NextLane(j))
  {
    var b := high + ch;
    assert b[|b| - 7..] == ch && b[..|b| - 7] == high;
    var gs := Groups(b);
    assert gs == [SeptetOf(ch)] + Groups(high) && gs[1..] == Groups(high);
  }

  lemma Regroup(more: Bits, octet: Bits, k: nat, rest: Bits)
    requires k <= |octet|
    ensures (more + octet) + rest == (more + octet[..k]) + (octet[k..] + rest)
  {
  }

  /** A turn of the loop: seven bits out of the octet and what was left of the one before. */
  lemma {:induction false} Turn(os: seq<Octet>, i: nat, rest: Bits, text: seq<Septet>)
    requires i < |os| && |rest| <= 6
    ensures var octet, k := OctetBin(os[i]), |rest| + 1;
      text + Left(OctetBits(os[i..]) + rest, k - 1)
      == (text + Kept(SeptetOf(octet[k..] + rest), k - 1)) + Left(OctetBits(os[i + 1..]) + octet[..k], k)
  {
    var octet, k, more := OctetBin(os[i]), |rest| + 1, OctetBits(os[i + 1..]);
    var ch := octet[k..] + rest;
    assert os[i..][1..] == os[i + 1..];
    Regroup(more, octet, k, rest);
    LeftStep(more + octet[..k], ch, k - 1);
    Assoc(text, Kept(SeptetOf(ch), k - 1), Left(more + octet[..k], k));
  }

  lemma {:induction false} LastOfEight(more: Bits, rest: Bits, text: seq<Septet>)
    requires |rest| == 7
    ensures text + Left(more + rest, 7) == (text + [SeptetOf(rest)]) + Left(more + [], 0)
  {
    LeftStep(more, rest, 7);
    Assoc(text, [SeptetOf(rest)], Left(more, 0));
    assert more + [] == more;
  }

  /** `text`, then what octets from `i` on and the bits `rest` still give, is the whole text. */
  ghost predicate Owes(os: seq<Octet>, i: nat, rest: Bits, text: seq<Septet>)
    requires i <= |os| && |rest| <= 7
  {
    text + Left(OctetBits(os[i..]) + rest, |rest|) == Left(OctetBits(os), 0)
  }

  lemma {:induction false} OwesAll(os: seq<Octet>)
    ensures Owes(os, 0, [], [])
  {
    assert os[0..] == os && OctetBits(os) + [] == OctetBits(os);
  }

  lemma {:induction false} OwesLess(os: seq<Octet>, i: nat, rest: Bits, text: seq<Septet>)
    requires i < |os| && |rest| <= 6 && Owes(os, i, rest, text)
    ensures var octet, k := OctetBin(os[i]), |rest| + 1;
      var ch := octet[k..] + rest;
      Owes(os, i + 1, octet[..k], if ch != Zeros(7) then text + [SeptetOf(ch)] else text)
  {
    Turn(os, i, rest, text);
    assert text + [] == text;
  }

  lemma {:induction false} OwesNothing(os: seq<Octet>, rest: Bits, text: seq<Septet>)
    requires |rest| <= 6 && Owes(os, |os|, rest, text)
    ensures text == Left(OctetBits(os), 0)
  {
    assert os[|os|..] == [] && [] + rest == rest;
  }

  /** The decoder's loop: one octet a turn, its high bits kept for the next septet. */
  method GsmDecode(os: seq<Octet>) returns (text: seq<Septet>)
    ensures text == Shown(Groups(OctetBits(os)), 0)
  {
    text := [];
    var rest: Bits := [];
    var pos, i := 2, 0;
    OwesAll(os);
    while i < |os|
      invariant 0 <= i <= |os| && 2 <= pos <= 8 && |rest| == pos - 2
      invariant Owes(os, i, rest, text)
    {
      OwesLess(os, i, rest, text);
      var octet := OctetBin(os[i]);
      var ch := octet[pos - 1..] + rest;
      if ch != Zeros(7) {
        text := text + [SeptetOf(ch)];
      }
      rest := octet[..pos - 1];
      pos, i := pos + 1, i + 1;
      if pos == 9 {
        LastOfEight(OctetBits(os[i..]), rest, text);
        text := text + [SeptetOf(rest)];
        pos, rest := 2, [];
      }
    }
    OwesNothing(os, rest, text);
  }

  // ---------- the packing as a number ----------

  /** The number whose base-128 digits, least significant first, are the septets. */
  function Number128(s: seq<Septet>): nat { if s == [] then 0 else s[0] + 128 * Number128(s[1..]) }

  function Number256(os: seq<Octet>): nat { if os == [] then 0 else os[0] + 256 * Number256(os[1..]) }

  lemma {:induction false} ValConcat(a: Bits, b: Bits)
    ensures Val(a + b) == Val(a) * Pow2(|b|) + Val(b)
    decreases |b|
  {
    if b == [] {
      assert a + b == a;
    } else {
      var n := |b| - 1;
      ValConcat(a, b[..n]);
      ValLast(a + b);
      ValLast(b);
      assert (a + b)[..|a + b| - 1] == a + b[..n] && (a + b)[|a + b| - 1] == b[n];
      Doubled(Val(a), Pow2(n), Val(b[..n]));
    }
  }

  lemma ValLast(b: Bits)
    requires b != []
    ensures Val(b) == 2 * Val(b[..|b| - 1]) + (if b[|b| - 1] then 1 else 0) && Pow2(|b|) == 2 * Pow2(|b| - 1)
  {
  }

  lemma Doubled(x: nat, p: nat, y: nat)
    ensures 2 * (x * p + y) == x * (2 * p) + 2 * y
  {
  }

  lemma {:induction false} SeptetNumber(s: seq<Septet>)
    ensures Val(SeptetBits(s)) == Number128(s)
  {
    if s != [] {
      SeptetNumber(s[1..]);
      Powers();
      LowDigit(SeptetBits(s[1..]), s[0], 7, 128);
    }
  }

  lemma {:induction false} LowDigit(high: Bits, v: nat, n: nat, p: nat)
    requires p == Pow2(n) && v < p
    ensures Val(high + Bin(v, n)) == Val(high) * p + v
  {
    ValConcat(high, Bin(v, n));
    ValBin(v, n);
  }

  lemma {:induction false} OctetNumber(os: seq<Octet>)
    ensures Val(OctetBits(os)) == Number256(os)
  {
    if os != [] {
      OctetNumber(os[1..]);
      Powers();
      LowDigit(OctetBits(os[1..]), os[0], 8, 256);
    }
  }

  /** Packing changes the base: the octets, least significant first, are the base-256 digits of the
      number whose base-128 digits are the septets. */
  lemma {:induction false} PackChangesBase(s: seq<Septet>)
    ensures Number256(Pack(s)) == Number128(s) && |Pack(s)| == (7 * |s| + 7) / 8
  {
    SeptetNumber(s);
    OctetNumber(Pack(s));
    OctetsOfCut(SeptetBits(s));
    SeptetLength(s);
    FilledValue(Fill(7 * |s|), SeptetBits(s));
    OctetLength(Pack(s));
    FilledLength(|s|, |Pack(s)|);
  }

  lemma {:induction false} FilledValue(n: nat, b: Bits)
    ensures Val(Zeros(n) + b) == Val(b)
  {
    ValConcat(Zeros(n), b);
    ValZero(Zeros(n));
  }

  lemma {:induction false} OctetLength(os: seq<Octet>)
    ensures |OctetBits(os)| == 8 * |os|
  {
    if os != [] {
      OctetLength(os[1..]);
    }
  }

  lemma FilledLength(n: nat, m: nat)
    requires 8 * m == Fill(7 * n) + 7 * n
    ensures m == (7 * n + 7) / 8
  {
  }

  // ---------- the round trip ----------

  /** Number of zero bits that fill the last octet. */
  function Fill(n: nat): nat { (8 - n % 8) % 8 }

  lemma {:induction false} OctetOf(b: Bits)
    requires |b| == 8
    ensures Val(b) < 256 && OctetBin(Val(b)) == b && OctetBits([Val(b)]) == b
  {
    Powers();
    BinVal(b);
    var os: seq<Octet> := [Val(b)];
    assert os[1..] == [] && [] + b == b;
  }

  lemma {:induction false} OctetsOfCut(b: Bits)
    ensures OctetBits(Cut(b)) == Zeros(Fill(|b|)) + b
  {
    if |b| < 8 {
      CutShort(b);
    } else {
      var high, low, z := b[..|b| - 8], b[|b| - 8..], Zeros(Fill(|b|));
      OctetsOfCut(high);
      FillStep(|b|);
      CutMore(b);
      assert OctetBits(Cut(b)) == (z + high) + low;
      Assoc(z, high, low);
      Halves(b, |b| - 8);
    }
  }

  lemma {:induction false} CutShort(b: Bits)
    requires |b| < 8
    ensures OctetBits(Cut(b)) == Zeros(Fill(|b|)) + b
  {
    var z := Zeros(Fill(|b|)) + b;
    if b == [] {
      assert z == [];
    } else {
      assert Fill(|b|) == 8 - |b|;
      OctetOf(z);
      assert Cut(b) == [Val(z)];
    }
  }

  lemma FillStep(n: nat)
    requires n >= 8
    ensures Fill(n - 8) == Fill(n)
  {
  }

  lemma {:induction false} CutMore(b: Bits)
    requires |b| >= 8
    ensures Val(b[|b| - 8..]) < 256
    ensures OctetBits(Cut(b)) == OctetBits(Cut(b[..|b| - 8])) + b[|b| - 8..]
  {
    OctetOf(b[|b| - 8..]);
    assert Cut(b)[1..] == Cut(b[..|b| - 8]);
  }

  lemma {:induction false} SeptetLength(s: seq<Septet>)
    ensures |SeptetBits(s)| == 7 * |s|
  {
    if s != [] {
      SeptetLength(s[1..]);
    }
  }

  /** Fill bits make one septet more exactly when there are seven of them. */
  lemma {:induction false} GroupsOfSeptets(n: nat, s: seq<Septet>)
    requires n <= 7
    ensures Groups(Zeros(n) + SeptetBits(s)) == s + if n == 7 then [0] else []
    decreases |s|
  {
    if s == [] {
      GroupsOfFill(n);
    } else {
      GroupsOfSeptets(n, s[1..]);
      Assoc(Zeros(n), SeptetBits(s[1..]), Bin(s[0], 7));
      GroupsMore(Zeros(n) + SeptetBits(s[1..]), s[0]);
    }
  }

  lemma {:induction false} GroupsMore(high: Bits, v: Septet)
    ensures Groups(high + Bin(v, 7)) == [v] + Groups(high)
  {
    Powers();
    ValBin(v, 7);
    var b := high + Bin(v, 7);
    assert b[|b| - 7..] == Bin(v, 7) && b[..|b| - 7] == high;
  }

  lemma {:induction false} GroupsOfFill(n: nat)
    requires n <= 7
    ensures Groups(Zeros(n) + SeptetBits([])) == [] + if n == 7 then [0] else []
  {
    var z := Zeros(n);
    assert z + SeptetBits([]) == z;
    if n == 7 {
      ValZero(z);
      assert z[|z| - 7..] == z && z[..|z| - 7] == [];
    }
  }

  lemma {:induction false} FillSeven(n: nat)
    ensures Fill(7 * n) == 7 <==> n % 8 == 7
  {
    var q, r := n / 8, n % 8;
    assert 7 * n == 8 * (7 * q) + 7 * r;
    assert 7 * n % 8 == 7 * r % 8;
  }

  function Extra(n: nat): seq<Septet> { if n % 8 == 7 then [0] else [] }

  /** Packed text regrouped is the text, and one zero septet more if the fill makes one. */
  lemma {:induction false} UnpackPacked(s: seq<Septet>)
    ensures Groups(OctetBits(Pack(s))) == s + Extra(|s|)
  {
    SeptetLength(s);
    OctetsOfCut(SeptetBits(s));
    FillSeven(|s|);
    GroupsOfSeptets(Fill(7 * |s|), s);
  }

  /** Zero septets stand in the last place of eight only. */
  ghost predicate AllKept(gs: seq<Septet>, j: Lane) {
    forall i :: 0 <= i < |gs| ==> gs[i] != 0 || (j + i) % 8 == 7
  }

  lemma {:induction false} AllKeptRest(gs: seq<Septet>, j: Lane)
    requires gs != []
    ensures AllKept(gs, j) <==> (gs[0] != 0 || j == 7) && AllKept(gs[1..], NextLane(j))
  {
    var rest := gs[1..];
    assert forall i :: 0 <= i < |rest| ==> rest[i] == gs[i + 1];
    if (gs[0] != 0 || j == 7) && AllKept(rest, NextLane(j)) {
      forall i | 0 <= i < |gs| ensures gs[i] != 0 || (j + i) % 8 == 7 {
        if i > 0 {
          assert gs[i] == rest[i - 1];
        }
      }
    }
  }

  lemma {:induction false} ShownAll(gs: seq<Septet>, j: Lane)
    ensures |Shown(gs, j)| <= |gs|
    ensures Shown(gs, j) == gs <==> AllKept(gs, j)
    decreases |gs|
  {
    if gs != [] {
      AllKeptRest(gs, j);
      ShownAll(gs[1..], NextLane(j));
      assert [gs[0]] + gs[1..] == gs;
      if Kept(gs[0], j) == [gs[0]] {
        assert Shown(gs, j)[1..] == Shown(gs[1..], NextLane(j));
      }
    }
  }

  lemma {:induction false} ShownLast(gs: seq<Septet>, v: Septet, j: Lane)
    ensures Shown(gs + [v], j) == Shown(gs, j) + Kept(v, (j + |gs|) % 8)
    decreases |gs|
  {
    if gs == [] {
      assert gs + [v] == [v] && [v][1..] == [];
      assert Kept(v, j) + [] == [] + Kept(v, j);
    } else {
      ShownLast(gs[1..], v, NextLane(j));
      assert (gs + [v])[1..] == gs[1..] + [v];
      Assoc(Kept(gs[0], j), Shown(gs[1..], NextLane(j)), Kept(v, (j + |gs|) % 8));
    }
  }

  /** The text a reader gets back when the packing of `s` is decoded. */
  ghost function Back(s: seq<Septet>): seq<Septet> { Shown(Groups(OctetBits(Pack(s))), 0) }

  /** Decoding the packing of any text: zero septets vanish unless they are eighth, and a fill
      of seven bits shows up as one zero septet more. */
  lemma {:induction false} BackExact(s: seq<Septet>)
    ensures Back(s) == Shown(s, 0) + Extra(|s|)
  {
    UnpackPacked(s);
    ShownExtra(s);
  }

  lemma {:induction false} ShownExtra(s: seq<Septet>)
    ensures Shown(s + Extra(|s|), 0) == Shown(s, 0) + Extra(|s|)
  {
    if |s| % 8 == 7 {
      ShownLast(s, 0, 0);
      assert Kept(0, (0 + |s|) % 8) == Extra(|s|);
    } else {
      NoneAdded(s, Extra(|s|));
      NoneAdded(Shown(s, 0), Extra(|s|));
    }
  }

  lemma NoneAdded(a: seq<Septet>, none: seq<Septet>)
    requires none == []
    ensures a + none == a
  {
  }

  /** Exactly which texts survive packing and decoding. */
  lemma {:induction false} RoundTripIff(s: seq<Septet>)
    ensures Back(s) == s <==>
      if |s| % 8 == 7 then s[|s| - 1] == 0 && AllKept(s[..|s| - 1], 0) else AllKept(s, 0)
  {
    BackExact(s);
    if |s| % 8 == 7 {
      var t, v := s[..|s| - 1], s[|s| - 1];
      assert s == t + [v];
      ShownLast(t, v, 0);
      ShownAll(t, 0);
      SameLast(Shown(t, 0), Kept(v, 6), t, v);
    } else {
      ShownAll(s, 0);
      assert Shown(s, 0) + [] == Shown(s, 0);
    }
  }

  lemma {:induction false} SameLast(a: seq<Septet>, kept: seq<Septet>, t: seq<Septet>, v: Septet)
    requires kept == Kept(v, 6)
    ensures a + kept + [0] == t + [v] <==> v == 0 && a == t
  {
    var x, y := a + kept + [0], t + [v];
    assert x[|x| - 1] == 0 && y[|y| - 1] == v;
    if v == 0 {
      assert a + [] == a;
      assert x[..|x| - 1] == a && y[..|y| - 1] == t;
    }
  }

  /** For text without zero septets the decoder inverts the packing if and only if the length
      is not 7 modulo 8. */
  lemma {:induction false} NonZeroRoundTrip(s: seq<Septet>)
    requires forall i :: 0 <= i < |s| ==> s[i] != 0
    ensures Back(s) == s <==> |s| % 8 != 7
    ensures |s| % 8 == 7 ==> Back(s) == s + [0]
  {
    RoundTripIff(s);
    BackExact(s);
    ShownAll(s, 0);
  }
}
