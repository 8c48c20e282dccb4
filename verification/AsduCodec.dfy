/** Information objects and ASDUs: the text the packer builds for them, the octets that text
    stands for, and a decoder written from the layout of IEC 60870-5-101 (sections 7.2.2,
    7.2.6.3 and 7.2.6.18), independent of the packer.
 */
module AsduCodec {
  import opened Basics
  import opened Octets
  import opened HexText

  const TIME: nat := 7   // octets of a CP56Time2a

  datatype Quality = Quality(iv: bool, nt: bool, sb: bool, bl: bool)

  datatype Time = Time(ms: nat, min: nat, hour: nat, mday: nat, wday: nat, month: nat, year: nat)

  /** Types 1, 13, 30 and 36.  A float is four opaque octets. */
  datatype Info =
    | SinglePoint(on: bool, q: Quality)
    | Measured(float: seq<Octet>, ov: bool, q: Quality)
    | SinglePointAt(on: bool, q: Quality, time: Time)
    | MeasuredAt(float: seq<Octet>, ov: bool, q: Quality, time: Time)

  datatype Record = Record(addr: nat, obj: nat, info: Info)

  function TypeId(i: Info): nat {
    match i
    case SinglePoint(_, _) => 1
    case Measured(_, _, _) => 13
    case SinglePointAt(_, _, _) => 30
    case MeasuredAt(_, _, _, _) => 36
  }

  /** Octets of an information element of each type. */
  function ElemLength(typ: nat): nat {
    if typ == 1 then 1 else if typ == 13 then 5 else if typ == 30 then 8 else if typ == 36 then 12 else 0
  }

  predicate ValidTime(t: Time) {
    t.ms < 65536 && t.min < 64 && t.hour < 32 && t.mday < 32 && t.wday < 8 && t.month < 16 && t.year < 128
  }

  predicate ValidInfo(i: Info) {
    && ((i.Measured? || i.MeasuredAt?) ==> |i.float| == 4)
    && ((i.SinglePointAt? || i.MeasuredAt?) ==> ValidTime(i.time))
  }

  predicate ValidRecord(r: Record) { r.addr < 65536 && r.obj < 16777216 && ValidInfo(r.info) }

  // ---------- the packer's text ----------

  datatype Flag = IV | NT | SB | BL | OV

  function Weight(f: Flag): nat {
    match f case IV => 128 case NT => 64 case SB => 32 case BL => 16 case OV => 1
  }

  function FlagSum(fs: seq<Flag>): nat { if fs == [] then 0 else Weight(fs[0]) + FlagSum(fs[1..]) }

  function Present(b: bool, f: Flag): seq<Flag> { if b then [f] else [] }

  function Flags(q: Quality, ov: bool): seq<Flag> {
    Present(q.iv, IV) + (Present(q.nt, NT) + (Present(q.sb, SB) + (Present(q.bl, BL) + Present(ov, OV))))
  }

  method QdsLoop(flags: seq<Flag>) returns (sum: nat)
    ensures sum == FlagSum(flags)
  {
    sum := 0;
    var i := 0;
    assert flags[0..] == flags;
    while i < |flags|
      invariant 0 <= i <= |flags|
      invariant sum + FlagSum(flags[i..]) == FlagSum(flags)
    {
      assert flags[i..][1..] == flags[i + 1..];
      match flags[i] {
        case IV => sum := sum + 128;
        case NT => sum := sum + 64;
        case SB => sum := sum + 32;
        case BL => sum := sum + 16;
        case OV => sum := sum + 1;
      }
      i := i + 1;
    }
  }

  /** qds: the sum of the flags present. */
  function Qds(q: Quality, ov: bool): nat { FlagSum(Flags(q, ov)) }

  function Bit(b: bool): nat { if b then 1 else 0 }

  /** Time with the spare bit of the minute octet set and summer time clear. */
  function Cp56Time2a(t: Time): nat {
    t.ms + (t.min + 64) * 65536 + t.hour * 16777216 + (t.mday + t.wday * 32) * 4294967296
    + t.month * 1099511627776 + t.year * 281474976710656
  }

  function IeHex(i: Info): string {
    match i
    case SinglePoint(on, q) => Int2Hex(Bit(on) + Qds(q, false), 1)
    case Measured(float, ov, q) => Print(float) + Int2Hex(Qds(q, ov), 1)
    case SinglePointAt(on, q, time) => Int2Hex(Bit(on) + Qds(q, false), 1) + Int2Hex(Cp56Time2a(time), TIME)
    case MeasuredAt(float, ov, q, time) =>
      Print(float) + Int2Hex(Qds(q, ov), 1) + Int2Hex(Cp56Time2a(time), TIME)
  }

  function FormObj(r: Record): string { Int2Hex(r.obj, 3) + IeHex(r.info) }

  // ---------- the octets it stands for ----------

  function QualityOctet(low: bool, q: Quality): Octet {
    128 * Bit(q.iv) + 64 * Bit(q.nt) + 32 * Bit(q.sb) + 16 * Bit(q.bl) + Bit(low)
  }

  function TimeOctets(t: Time): seq<Octet>
    requires ValidTime(t)
  {
    [t.ms % 256, t.ms / 256, t.min + 64, t.hour, t.mday + 32 * t.wday, t.month, t.year]
  }

  function ElemOctets(i: Info): seq<Octet>
    requires ValidInfo(i)
  {
    match i
    case SinglePoint(on, q) => [QualityOctet(on, q)]
    case Measured(float, ov, q) => float + [QualityOctet(ov, q)]
    case SinglePointAt(on, q, time) => [QualityOctet(on, q)] + TimeOctets(time)
    case MeasuredAt(float, ov, q, time) => float + [QualityOctet(ov, q)] + TimeOctets(time)
  }

  lemma ElemOctetsLength(i: Info)
    requires ValidInfo(i)
    ensures |ElemOctets(i)| == ElemLength(TypeId(i))
  {
  }

  lemma {:induction false} FlagSumCons(b: bool, f: Flag, rest: seq<Flag>)
    ensures FlagSum(Present(b, f) + rest) == Bit(b) * Weight(f) + FlagSum(rest)
  {
    if b {
      assert ([f] + rest)[1..] == rest;
    } else {
      assert [] + rest == rest;
    }
  }

  lemma {:induction false} QdsIsOctet(q: Quality, ov: bool)
    ensures Qds(q, ov) == QualityOctet(ov, q)
  {
    var e := Present(ov, OV);
    var d := Present(q.bl, BL) + e;
    var c := Present(q.sb, SB) + d;
    var b := Present(q.nt, NT) + c;
    FlagSumCons(ov, OV, []);
    assert e + [] == e;
    FlagSumCons(q.bl, BL, e);
    FlagSumCons(q.sb, SB, d);
    FlagSumCons(q.nt, NT, c);
    FlagSumCons(q.iv, IV, b);
  }

  lemma {:induction false} OneOctet(v: nat)
    requires v < 256
    ensures Int2Hex(v, 1) == Print([v as Octet])
  {
    assert Pow256(1) == 256;
    Int2HexExact(v, 1);
    assert LittleEndian(v, 1) == [v as Octet];
  }

  lemma {:induction false} TimeWhole(t: Time)
    requires ValidTime(t)
    ensures FromLittleEndian(TimeOctets(t)) == Cp56Time2a(t)
  {
    var os := TimeOctets(t);
    assert os[0..] == os && os[7..] == [];
    FromStep(os, 6);
    FromStep(os, 5);
    FromStep(os, 4);
    FromStep(os, 3);
    FromStep(os, 2);
    FromStep(os, 1);
    FromStep(os, 0);
  }

  lemma {:induction false} TimeText(t: Time)
    requires ValidTime(t)
    ensures Int2Hex(Cp56Time2a(t), TIME) == Print(TimeOctets(t))
  {
    TimeWhole(t);
    ToFromLittleEndian(TimeOctets(t));
    Int2HexExact(Cp56Time2a(t), TIME);
  }

  /** Element text is the print of the element's octets. */
  lemma {:induction false} IeHexExact(i: Info)
    requires ValidInfo(i)
    ensures IeHex(i) == Print(ElemOctets(i))
  {
    if i.SinglePoint? {
      PointText(i.on, i.q);
    } else if i.Measured? {
      MeasuredText(i.float, i.ov, i.q);
    } else if i.SinglePointAt? {
      PointAtText(i);
    } else {
      MeasuredAtText(i);
    }
  }

  lemma {:induction false} PointAtText(i: Info)
    requires ValidInfo(i) && i.SinglePointAt?
    ensures IeHex(i) == Print(ElemOctets(i))
  {
    PointText(i.on, i.q);
    TimedText([QualityOctet(i.on, i.q)], i.time);
  }

  lemma {:induction false} MeasuredAtText(i: Info)
    requires ValidInfo(i) && i.MeasuredAt?
    ensures IeHex(i) == Print(ElemOctets(i))
  {
    MeasuredText(i.float, i.ov, i.q);
    TimedText(i.float + [QualityOctet(i.ov, i.q)], i.time);
  }

  lemma {:induction false} TimedText(os: seq<Octet>, time: Time)
    requires ValidTime(time)
    ensures Print(os) + Int2Hex(Cp56Time2a(time), TIME) == Print(os + TimeOctets(time))
  {
    TimeText(time);
    PrintConcat(os, TimeOctets(time));
  }

  lemma {:induction false} MeasuredText(float: seq<Octet>, ov: bool, q: Quality)
    ensures Print(float) + Int2Hex(Qds(q, ov), 1) == Print(float + [QualityOctet(ov, q)])
  {
    QdsIsOctet(q, ov);
    OneOctet(Qds(q, ov));
    PrintConcat(float, [QualityOctet(ov, q)]);
  }

  lemma {:induction false} PointText(on: bool, q: Quality)
    ensures Int2Hex(Bit(on) + Qds(q, false), 1) == Print([QualityOctet(on, q)])
  {
    QdsIsOctet(q, false);
    OneOctet(Bit(on) + Qds(q, false));
  }

  function ObjOctets(r: Record): seq<Octet>
    requires ValidRecord(r)
  {
    LittleEndian(r.obj, 3) + ElemOctets(r.info)
  }

  lemma {:induction false} FormObjExact(r: Record)
    requires ValidRecord(r)
    ensures FormObj(r) == Print(ObjOctets(r))
  {
    assert Pow256(3) == 256 * Pow256(2) == 65536 * Pow256(1) == 16777216;
    Int2HexExact(r.obj, 3);
    IeHexExact(r.info);
    PrintConcat(LittleEndian(r.obj, 3), ElemOctets(r.info));
  }

  // ---------- reference decoder ----------

  function DecodeQuality(o: Octet): Quality {
    Quality(o / 128 % 2 == 1, o / 64 % 2 == 1, o / 32 % 2 == 1, o / 16 % 2 == 1)
  }

  function DecodeTime(os: seq<Octet>): Time
    requires |os| == 7
  {
    Time(os[0] as int + 256 * os[1] as int, os[2] % 64, os[3] % 32, os[4] % 32, os[4] / 32, os[5] % 16, os[6] % 128)
  }

  function DecodeElem(typ: nat, os: seq<Octet>): Info
    requires typ in {1, 13, 30, 36} && |os| == ElemLength(typ)
  {
    if typ == 1 then SinglePoint(os[0] % 2 == 1, DecodeQuality(os[0]))
    else if typ == 13 then Measured(os[..4], os[4] % 2 == 1, DecodeQuality(os[4]))
    else if typ == 30 then SinglePointAt(os[0] % 2 == 1, DecodeQuality(os[0]), DecodeTime(os[1..]))
    else MeasuredAt(os[..4], os[4] % 2 == 1, DecodeQuality(os[4]), DecodeTime(os[5..]))
  }

  /** n objects, each with its own address. */
  function DecodeEach(typ: nat, addr: nat, n: nat, os: seq<Octet>): Option<seq<Record>>
    requires typ in {1, 13, 30, 36}
    decreases n
  {
    var len := 3 + ElemLength(typ);
    if n == 0 then (if os == [] then Some([]) else None)
    else if |os| < len then None
    else
      var rest := DecodeEach(typ, addr, n - 1, os[len..]);
      if rest.None? then None
      else Some([Record(addr, FromLittleEndian(os[..3]), DecodeElem(typ, os[3..len]))] + rest.value)
  }

  /** n elements of consecutive objects. */
  function DecodeRun(typ: nat, addr: nat, obj: nat, n: nat, os: seq<Octet>): Option<seq<Record>>
    requires typ in {1, 13, 30, 36}
    decreases n
  {
    var len := ElemLength(typ);
    if n == 0 then (if os == [] then Some([]) else None)
    else if |os| < len then None
    else
      var rest := DecodeRun(typ, addr, obj + 1, n - 1, os[len..]);
      if rest.None? then None
      else Some([Record(addr, obj, DecodeElem(typ, os[..len]))] + rest.value)
  }

  /** A whole ASDU: type, SQ and number in the variable structure qualifier, cause, address. */
  function DecodeAsdu(os: seq<Octet>): Option<seq<Record>> {
    if |os| < 6 then None
    else
      var typ, n, body := os[0], os[1] % 128, os[6..];
      var addr := FromLittleEndian(os[4..6]);
      if n == 0 then (if body == [] then Some([]) else None)
      else if typ !in {1, 13, 30, 36} then None
      else if os[1] < 128 then DecodeEach(typ, addr, n, body)
      else if |body| < 3 then None
      else DecodeRun(typ, addr, FromLittleEndian(body[..3]), n, body[3..])
  }

  function DecodeLine(line: string): Option<seq<Record>> {
    var os := Parse(line);
    if os.None? then None else DecodeAsdu(os.value)
  }

  lemma QualityDecodes(low: bool, q: Quality)
    ensures DecodeQuality(QualityOctet(low, q)) == q && (QualityOctet(low, q) % 2 == 1 <==> low)
  {
  }

  lemma TimeDecodes(t: Time)
    requires ValidTime(t)
    ensures DecodeTime(TimeOctets(t)) == t
  {
  }

  lemma {:induction false} ElemDecodes(i: Info)
    requires ValidInfo(i)
    ensures |ElemOctets(i)| == ElemLength(TypeId(i)) && DecodeElem(TypeId(i), ElemOctets(i)) == i
  {
    var os := ElemOctets(i);
    match i {
      case SinglePoint(on, q) => QualityDecodes(on, q);
      case Measured(float, ov, q) =>
        QualityDecodes(ov, q);
        assert os[..4] == float;
      case SinglePointAt(on, q, time) =>
        QualityDecodes(on, q);
        TimeDecodes(time);
        assert os[1..] == TimeOctets(time);
      case MeasuredAt(float, ov, q, time) =>
        QualityDecodes(ov, q);
        TimeDecodes(time);
        assert os[..4] == float && os[5..] == TimeOctets(time);
    }
  }
}
