/** From octets to frames: the layout of an APDU and the reader that reassembles APDUs from
    whatever pieces the transport delivers.
 */
module Framing {
  import opened Basics
  import opened Octets
  import opened LinkLayer

  const START: Octet := 0x68
  const APDU_MIN: nat := 4
  const APDU_MAX: nat := 253
  const HEADER: nat := 6
  const CONTROL: nat := 4

  // ---------- the layout of a frame ----------

  /** A 15-bit number above a zero bit, low octet first. */
  function Number(n: nat): seq<Octet>
    requires n < 0x8000
  {
    [n % 128 * 2, n / 128]
  }

  function NumberOf(low: Octet, high: Octet): nat { low / 2 + 128 * high }

  function FuncBit(func: UFunc): Octet {
    match func
    case StartAct => 4
    case StartCon => 8
    case StopAct => 16
    case StopCon => 32
    case TestAct => 64
    case TestCon => 128
  }

  predicate Sendable(f: Frame) {
    match f
    case I(ns, nr, asdu) => ns < 0x8000 && nr < 0x8000 && |asdu| + CONTROL <= APDU_MAX
    case S(nr) => nr < 0x8000
    case U(_) => true
  }

  /** The octets written for a frame. */
  function Encode(f: Frame): seq<Octet>
    requires Sendable(f)
  {
    match f
    case I(ns, nr, asdu) => [START, |asdu| + CONTROL] + Number(ns) + Number(nr) + asdu
    case S(nr) => [START, CONTROL, 1, 0] + Number(nr)
    case U(func) => [START, CONTROL, 3 + FuncBit(func), 0, 0, 0]
  }

  predicate Bit(o: Octet, weight: nat)
    requires weight > 0
  {
    o / weight % 2 == 1
  }

  /** The lowest function bit set decides; no bit at all reads as TESTCON. */
  function FuncOf(o: Octet): UFunc {
    if Bit(o, 4) then StartAct
    else if Bit(o, 8) then StartCon
    else if Bit(o, 16) then StopAct
    else if Bit(o, 32) then StopCon
    else if Bit(o, 64) then TestAct
    else TestCon
  }

  /** What frame_recv sees in a complete buffer. */
  function Decode(a: seq<Octet>): Frame
    requires |a| >= HEADER
  {
    if !Bit(a[2], 1) then I(NumberOf(a[2], a[3]), NumberOf(a[4], a[5]), a[HEADER..])
    else if !Bit(a[2], 2) then S(NumberOf(a[4], a[5]))
    else U(FuncOf(a[2]))
  }

  predicate WellFormed(a: seq<Octet>) {
    |a| >= HEADER && a[0] == START && APDU_MIN <= a[1] <= APDU_MAX && |a| == a[1] + 2
  }

  lemma NumberRoundTrip(n: nat)
    requires n < 0x8000
    ensures NumberOf(Number(n)[0], Number(n)[1]) == n && !Bit(Number(n)[0], 1)
  {
  }

  lemma FuncRoundTrip(func: UFunc)
    ensures FuncOf(3 + FuncBit(func)) == func && Bit(3 + FuncBit(func), 1) && Bit(3 + FuncBit(func), 2)
  {
  }

  /** Type, N(S), N(R), function and payload survive encoding. */
  lemma {:induction false} FrameRoundTrip(f: Frame)
    requires Sendable(f)
    ensures WellFormed(Encode(f)) && Decode(Encode(f)) == f
  {
    match f
    case I(ns, nr, asdu) => IRoundTrip(ns, nr, asdu);
    case S(nr) => SRoundTrip(nr);
    case U(func) => URoundTrip(func);
  }

  lemma {:induction false} SRoundTrip(nr: nat)
    requires Sendable(S(nr))
    ensures var a := Encode(S(nr)); WellFormed(a) && Decode(a) == S(nr)
  {
    NumberRoundTrip(nr);
    assert Bit(1, 1) && !Bit(1, 2);
  }

  lemma {:induction false} URoundTrip(func: UFunc)
    ensures var a := Encode(U(func)); WellFormed(a) && Decode(a) == U(func)
  {
    FuncRoundTrip(func);
  }

  lemma {:induction false} IRoundTrip(ns: nat, nr: nat, asdu: Asdu)
    requires Sendable(I(ns, nr, asdu))
    ensures var a := Encode(I(ns, nr, asdu)); WellFormed(a) && Decode(a) == I(ns, nr, asdu)
  {
    NumberRoundTrip(ns);
    NumberRoundTrip(nr);
    Layout([START, |asdu| + CONTROL], Number(ns), Number(nr), asdu);
  }

  lemma Layout(h: seq<Octet>, x: seq<Octet>, y: seq<Octet>, asdu: Asdu)
    requires |h| == |x| == |y| == 2
    ensures var a := h + x + y + asdu;
      && |a| == HEADER + |asdu| && a[0] == h[0] && a[1] == h[1] && a[2] == x[0] && a[3] == x[1]
      && a[4] == y[0] && a[5] == y[1] && a[HEADER..] == asdu
  {
  }

  /** The octets on the wire, as sections 5 and 5.1 of IEC 60870-5-104 lay them down: start octet,
      length, and four control octets; N(S) and N(R) doubled, low octet first. */
  lemma {:induction false} WireLayout(ns: nat, nr: nat, asdu: Asdu)
    requires Sendable(I(ns, nr, asdu))
    ensures Encode(I(ns, nr, asdu))
         == [0x68, 4 + |asdu|, 2 * ns % 256, 2 * ns / 256, 2 * nr % 256, 2 * nr / 256] + asdu
    ensures Encode(S(nr)) == [0x68, 4, 1, 0, 2 * nr % 256, 2 * nr / 256]
    ensures Encode(U(StartAct)) == [0x68, 4, 0x07, 0, 0, 0] && Encode(U(StartCon)) == [0x68, 4, 0x0B, 0, 0, 0]
    ensures Encode(U(StopAct)) == [0x68, 4, 0x13, 0, 0, 0] && Encode(U(StopCon)) == [0x68, 4, 0x23, 0, 0, 0]
    ensures Encode(U(TestAct)) == [0x68, 4, 0x43, 0, 0, 0] && Encode(U(TestCon)) == [0x68, 4, 0x83, 0, 0, 0]
  {
    assert Number(ns) == [2 * ns % 256, 2 * ns / 256] && Number(nr) == [2 * nr % 256, 2 * nr / 256];
  }

  /** How any six octets are read: the two lowest bits of the control field give the type, and
      numbers are halved. */
  lemma {:induction false} TypeBits(a: seq<Octet>)
    requires |a| >= HEADER
    ensures Decode(a).I? <==> a[2] % 2 == 0
    ensures Decode(a).S? <==> a[2] % 4 == 1
    ensures Decode(a).U? <==> a[2] % 4 == 3
    ensures Decode(a).I? ==> 2 * Decode(a).ns == a[2] as int + 256 * a[3] as int && Decode(a).asdu == a[6..]
    ensures !Decode(a).U? ==> 2 * Decode(a).nr == (a[4] - a[4] % 2) as int + 256 * a[5] as int
  {
  }

  /** Of several function bits the lowest decides, and without any it is TESTCON. */
  lemma LowestBit(o: Octet)
    ensures FuncOf(o) ==
      if o % 8 >= 4 then StartAct
      else if o % 16 >= 8 then StartCon
      else if o % 32 >= 16 then StopAct
      else if o % 64 >= 32 then StopCon
      else if o % 128 >= 64 then TestAct
      else TestCon
  {
    BitsExact(o);
  }

  lemma BitsExact(o: Octet)
    ensures (Bit(o, 4) <==> o % 8 >= 4) && (Bit(o, 8) <==> o % 16 >= 8)
    ensures (Bit(o, 16) <==> o % 32 >= 16) && (Bit(o, 32) <==> o % 64 >= 32) && (Bit(o, 64) <==> o % 128 >= 64)
  {
    Halving(o, 4, o / 8, o % 8);
    Halving(o, 8, o / 16, o % 16);
    Halving(o, 16, o / 32, o % 32);
    Halving(o, 32, o / 64, o % 64);
    Halving(o, 64, o / 128, o % 128);
  }

  lemma {:induction false} Halving(o: Octet, weight: nat, q: nat, r: nat)
    requires weight in {4, 8, 16, 32, 64} && o == q * (2 * weight) + r && r < 2 * weight
    ensures Bit(o, weight) <==> r >= weight
  {
    assert o / weight == 2 * q + (if r >= weight then 1 else 0);
  }

  // ---------- the reader ----------

  datatype Status = Running | Closed | Aborted

  /** `part` is the frame under assembly, `left` the octets it still lacks. */
  datatype Reader = Reader(part: seq<Octet>, left: nat, got: seq<Frame>, status: Status)

  const Fresh := Reader([], 0, [], Running)

  function Finish(r: Reader): Reader
    requires |r.part| >= HEADER
  {
    r.(part := [], got := r.got + [Decode(r.part)])
  }

  predicate GoodHeader(h: seq<Octet>)
    requires |h| == HEADER
  {
    h[0] == START && APDU_MIN <= h[1] <= APDU_MAX
  }

  function TakeHeader(r: Reader, h: seq<Octet>): Reader
    requires |h| == HEADER
  {
    if !GoodHeader(h) then r.(status := Closed)
    else
      var r1 := r.(part := h, left := h[1] - CONTROL);
      if r1.left == 0 then Finish(r1) else r1
  }

  function TakeBody(r: Reader, xs: seq<Octet>): Reader
    requires |r.part| >= HEADER && |xs| <= r.left
  {
    var r1 := r.(part := r.part + xs, left := r.left - |xs|);
    if r1.left == 0 then Finish(r1) else r1
  }

  predicate Sound(r: Reader) {
    if r.part == [] then r.left == 0
    else |r.part| >= HEADER && r.left > 0 && |r.part| + r.left <= 255 && |r.part| + r.left - 2 == r.part[1]
  }

  function Least(a: nat, b: nat): nat { if a < b then a else b }

  /** How many octets one turn asks for. */
  function Want(r: Reader): nat { if r.left == 0 then HEADER else r.left }

  /** One turn of the loop: a header, or some of the rest of a frame.  A header that is not
      there in full fails an assertion. */
  function BufferRead(r: Reader, input: seq<Octet>): Reader
    requires Sound(r)
  {
    var n := Least(Want(r), |input|);
    if r.left == 0 then
      if n < HEADER then r.(status := Aborted) else TakeHeader(r, input[..HEADER])
    else TakeBody(r, input[..n])
  }

  /** Between frames, six octets close the session exactly if they do not start an APDU of
      acceptable length. */
  lemma {:induction false} HeaderRefusedIff(r: Reader, input: seq<Octet>)
    requires Sound(r) && r.status.Running? && r.left == 0 && |input| >= 6
    ensures BufferRead(r, input).status.Closed? <==> input[0] != 0x68 || input[1] < 4 || input[1] > 253
    ensures BufferRead(r, input).status.Closed? ==> BufferRead(r, input).got == r.got
  {
  }

  /** While a frame is incomplete, what is there and what lacks make up its length, so the
      255-octet buffer never overflows. */
  lemma BufferReadSound(r: Reader, input: seq<Octet>)
    requires Sound(r)
    ensures Sound(BufferRead(r, input))
  {
  }

  /** The read callback: turns until the input is used up. */
  function ReadCallback(r: Reader, input: seq<Octet>): Reader
    requires Sound(r)
    decreases |input|
  {
    if input == [] || !r.status.Running? then r
    else
      BufferReadSound(r, input);
      ReadCallback(BufferRead(r, input), input[Least(Want(r), |input|)..])
  }

  lemma {:induction false} ReadCallbackSound(r: Reader, input: seq<Octet>)
    requires Sound(r)
    ensures Sound(ReadCallback(r, input))
    decreases |input|
  {
    if input != [] && r.status.Running? {
      BufferReadSound(r, input);
      ReadCallbackSound(BufferRead(r, input), input[Least(Want(r), |input|)..]);
    }
  }

  function Callbacks(r: Reader, chunks: seq<seq<Octet>>): Reader
    requires Sound(r)
    decreases |chunks|
  {
    if chunks == [] then r
    else
      ReadCallbackSound(r, chunks[0]);
      Callbacks(ReadCallback(r, chunks[0]), chunks[1..])
  }

  // ---------- where the reader stands in a stream of APDUs ----------

  /** Offset `n` of the stream falls strictly inside a header. */
  predicate InHeader(apdus: seq<seq<Octet>>, n: nat)
    decreases |apdus|
  {
    && n > 0 && apdus != []
    && (n < HEADER || (n >= |apdus[0]| && InHeader(apdus[1..], n - |apdus[0]|)))
  }

  ghost predicate AllWellFormed(apdus: seq<seq<Octet>>) {
    forall i :: 0 <= i < |apdus| ==> WellFormed(apdus[i])
  }

  /** The reader after `n` octets of the stream, `got` being what it had before. */
  ghost function At(got: seq<Frame>, apdus: seq<seq<Octet>>, n: nat): Reader
    requires AllWellFormed(apdus)
    decreases |apdus|
  {
    if n == 0 || apdus == [] then Reader([], 0, got, Running)
    else if n < |apdus[0]| then Reader(apdus[0][..n], |apdus[0]| - n, got, Running)
    else At(got + [Decode(apdus[0])], apdus[1..], n - |apdus[0]|)
  }

  lemma {:induction false} AtSound(got: seq<Frame>, apdus: seq<seq<Octet>>, n: nat)
    requires AllWellFormed(apdus) && !InHeader(apdus, n)
    ensures Sound(At(got, apdus, n)) && At(got, apdus, n).status.Running?
    decreases |apdus|
  {
    if n > 0 && apdus != [] && n >= |apdus[0]| {
      AtSound(got + [Decode(apdus[0])], apdus[1..], n - |apdus[0]|);
    }
  }

  ghost predicate Moves(got: seq<Frame>, apdus: seq<seq<Octet>>, m: nat, n: nat)
    requires AllWellFormed(apdus) && m <= n <= |Concat(apdus)|
  {
    var r0 := At(got, apdus, m);
    && Sound(r0)
    && var r := ReadCallback(r0, Concat(apdus)[m..n]);
       if InHeader(apdus, n) then r.status.Aborted? else r == At(got, apdus, n)
  }

  /** One callback carrying the octets from offset `m` to `n`. */
  lemma {:induction false} CallbackExact(got: seq<Frame>, apdus: seq<seq<Octet>>, m: nat, n: nat)
    requires AllWellFormed(apdus) && m <= n <= |Concat(apdus)| && !InHeader(apdus, m)
    ensures Moves(got, apdus, m, n)
    decreases |apdus|, n - m
  {
    if m == n {
      MovesNone(got, apdus, m);
    } else if m >= |apdus[0]| {
      AtLater(got, apdus, m);
      CallbackExact(got + [Decode(apdus[0])], apdus[1..], m - |apdus[0]|, n - |apdus[0]|);
      MovesLater(got, apdus, m, n);
    } else if m == 0 {
      if n < HEADER {
        HeaderCut(got, apdus, n);
      } else {
        AtHeader(apdus);
        CallbackExact(got, apdus, HEADER, n);
        HeaderExact(got, apdus, n);
      }
    } else if n < |apdus[0]| {
      PartExact(got, apdus, m, n);
    } else {
      CallbackExact(got + [Decode(apdus[0])], apdus[1..], 0, n - |apdus[0]|);
      WholeExact(got, apdus, m, n);
    }
  }

  lemma {:induction false} MovesNone(got: seq<Frame>, apdus: seq<seq<Octet>>, m: nat)
    requires AllWellFormed(apdus) && m <= |Concat(apdus)| && !InHeader(apdus, m)
    ensures Moves(got, apdus, m, m)
  {
    AtSound(got, apdus, m);
    assert Concat(apdus)[m..m] == [];
  }

  lemma AtHeader(apdus: seq<seq<Octet>>)
    requires AllWellFormed(apdus)
    ensures !InHeader(apdus, HEADER)
  {
  }

  lemma {:induction false} MovesLater(got: seq<Frame>, apdus: seq<seq<Octet>>, m: nat, n: nat)
    requires AllWellFormed(apdus) && apdus != [] && |apdus[0]| <= m < n <= |Concat(apdus)|
    requires Moves(got + [Decode(apdus[0])], apdus[1..], m - |apdus[0]|, n - |apdus[0]|)
    ensures Moves(got, apdus, m, n)
  {
    AtLater(got, apdus, m);
    AtLater(got, apdus, n);
    SliceLater(apdus[0], Concat(apdus[1..]), m, n);
    assert Concat(apdus)[m..n] == Concat(apdus[1..])[m - |apdus[0]|..n - |apdus[0]|];
  }

  lemma AtLater(got: seq<Frame>, apdus: seq<seq<Octet>>, n: nat)
    requires AllWellFormed(apdus) && apdus != [] && |apdus[0]| <= n
    ensures At(got, apdus, n) == At(got + [Decode(apdus[0])], apdus[1..], n - |apdus[0]|)
    ensures InHeader(apdus, n) == InHeader(apdus[1..], n - |apdus[0]|)
  {
  }

  lemma SliceLater(a: seq<Octet>, b: seq<Octet>, m: nat, n: nat)
    requires |a| <= m <= n <= |a| + |b|
    ensures (a + b)[m..n] == b[m - |a|..n - |a|]
  {
  }

  lemma SliceHead(s: seq<Octet>, m: nat, k: nat, n: nat)
    requires m <= k <= n <= |s|
    ensures s[m..n][..k - m] == s[m..k] && s[m..n][k - m..] == s[k..n]
  {
  }

  lemma SliceWithin(a: seq<Octet>, b: seq<Octet>, m: nat, k: nat)
    requires m <= k <= |a|
    ensures (a + b)[m..k] == a[m..k] && a[..m] + a[m..k] == a[..k]
  {
  }

  /** A callback that ends inside a header. */
  lemma {:induction false} HeaderCut(got: seq<Frame>, apdus: seq<seq<Octet>>, n: nat)
    requires AllWellFormed(apdus) && apdus != [] && 0 < n < HEADER && n <= |Concat(apdus)|
    ensures Moves(got, apdus, 0, n)
  {
    TurnCut(At(got, apdus, 0), Concat(apdus)[0..n]);
    assert InHeader(apdus, n);
  }

  lemma {:induction false} TurnCut(r: Reader, input: seq<Octet>)
    requires Sound(r) && r.status.Running? && r.left == 0 && 0 < |input| < HEADER
    ensures ReadCallback(r, input).status.Aborted?
  {
    assert BufferRead(r, input).status.Aborted?;
  }

  /** A turn that starts at the head of a frame. */
  lemma {:induction false} HeaderExact(got: seq<Frame>, apdus: seq<seq<Octet>>, n: nat)
    requires AllWellFormed(apdus) && apdus != [] && HEADER <= n <= |Concat(apdus)|
    requires Moves(got, apdus, HEADER, n)
    ensures Moves(got, apdus, 0, n)
  {
    var s, h := Concat(apdus), apdus[0][..HEADER];
    assert s[0..n] == h + s[HEADER..n] by {
      HeaderFirst(apdus[0], Concat(apdus[1..]), n);
    }
    HeaderTaken(got, apdus);
    TurnHeader(At(got, apdus, 0), h, s[HEADER..n]);
  }

  lemma HeaderFirst(a: seq<Octet>, b: seq<Octet>, n: nat)
    requires HEADER <= |a| && HEADER <= n <= |a + b|
    ensures (a + b)[0..n] == a[..HEADER] + (a + b)[HEADER..n]
  {
  }

  lemma {:induction false} TurnHeader(r: Reader, h: seq<Octet>, more: seq<Octet>)
    requires Sound(r) && r.status.Running? && r.left == 0 && |h| == HEADER
    ensures Sound(TakeHeader(r, h)) && ReadCallback(r, h + more) == ReadCallback(TakeHeader(r, h), more)
  {
    var input := h + more;
    assert input[..HEADER] == h && input[HEADER..] == more;
    BufferReadSound(r, input);
  }

  lemma {:induction false} HeaderTaken(got: seq<Frame>, apdus: seq<seq<Octet>>)
    requires AllWellFormed(apdus) && apdus != []
    ensures TakeHeader(At(got, apdus, 0), apdus[0][..HEADER]) == At(got, apdus, HEADER)
  {
    var a := apdus[0];
    assert |a| == HEADER ==> a[..HEADER] == a;
  }

  /** A turn inside a frame that does not complete it. */
  lemma {:induction false} PartExact(got: seq<Frame>, apdus: seq<seq<Octet>>, m: nat, n: nat)
    requires AllWellFormed(apdus) && apdus != [] && HEADER <= m < n < |apdus[0]|
    ensures n <= |Concat(apdus)| && Moves(got, apdus, m, n)
  {
    var a, s, r := apdus[0], Concat(apdus), At(got, apdus, m);
    SliceWithin(a, Concat(apdus[1..]), m, n);
    assert s[m..n] == a[m..n] && |a[m..n]| == n - m;
    TurnPart(r, a[m..n]);
  }

  lemma {:induction false} TurnPart(r: Reader, xs: seq<Octet>)
    requires Sound(r) && r.status.Running? && 0 < |xs| < r.left
    ensures ReadCallback(r, xs) == r.(part := r.part + xs, left := r.left - |xs|)
  {
    assert xs[..|xs|] == xs && xs[|xs|..] == [];
    BufferReadSound(r, xs);
  }

  /** A turn inside a frame that completes it, with `more` behind it. */
  lemma {:induction false} TurnWhole(r: Reader, xs: seq<Octet>, more: seq<Octet>)
    requires Sound(r) && r.status.Running? && |xs| == r.left > 0
    ensures ReadCallback(r, xs + more)
         == ReadCallback(Reader([], 0, r.got + [Decode(r.part + xs)], Running), more)
  {
    var input := xs + more;
    assert input[..|xs|] == xs && input[|xs|..] == more;
    BufferReadSound(r, input);
  }

  lemma {:induction false} WholeExact(got: seq<Frame>, apdus: seq<seq<Octet>>, m: nat, n: nat)
    requires AllWellFormed(apdus) && apdus != [] && HEADER <= m < |apdus[0]| <= n <= |Concat(apdus)|
    requires Moves(got + [Decode(apdus[0])], apdus[1..], 0, n - |apdus[0]|)
    ensures Moves(got, apdus, m, n)
  {
    var a, s := apdus[0], Concat(apdus);
    var xs, more := a[m..|a|], Concat(apdus[1..])[0..n - |a|];
    SliceHead(s, m, |a|, n);
    SliceWithin(a, Concat(apdus[1..]), m, |a|);
    SliceLater(a, Concat(apdus[1..]), |a|, n);
    Halves(s[m..n], |a| - m);
    assert a[..|a|] == a;
    TurnWhole(At(got, apdus, m), xs, more);
  }

  // ---------- any stream, any pieces ----------

  /** No piece, starting from offset `m`, ends inside a header. */
  predicate Clean(apdus: seq<seq<Octet>>, m: nat, chunks: seq<seq<Octet>>)
    decreases |chunks|
  {
    chunks != [] ==>
      !InHeader(apdus, m + |chunks[0]|) && Clean(apdus, m + |chunks[0]|, chunks[1..])
  }

  lemma {:induction false} Stopped(r: Reader, chunks: seq<seq<Octet>>)
    requires Sound(r) && !r.status.Running?
    ensures Callbacks(r, chunks) == r
    decreases |chunks|
  {
    if chunks != [] {
      Stopped(r, chunks[1..]);
    }
  }

  /** Reading the pieces leads from offset `m` to offset `n`, or aborts. */
  ghost predicate Carries(got: seq<Frame>, apdus: seq<seq<Octet>>, m: nat, n: nat, chunks: seq<seq<Octet>>)
    requires AllWellFormed(apdus) && Sound(At(got, apdus, m))
  {
    var r := Callbacks(At(got, apdus, m), chunks);
    if Clean(apdus, m, chunks) then r == At(got, apdus, n) else r.status.Aborted?
  }

  lemma {:induction false} CallbacksExact(got: seq<Frame>, apdus: seq<seq<Octet>>, m: nat, n: nat, chunks: seq<seq<Octet>>)
    requires AllWellFormed(apdus) && !InHeader(apdus, m) && n == m + |Concat(chunks)| <= |Concat(apdus)|
    requires Concat(chunks) == Concat(apdus)[m..n]
    ensures Sound(At(got, apdus, m)) && Carries(got, apdus, m, n, chunks)
    decreases |chunks|
  {
    AtSound(got, apdus, m);
    if chunks != [] {
      var c, rest := chunks[0], chunks[1..];
      var k := m + |c|;
      SplitJoin(Concat(apdus), m, c, Concat(rest));
      CallbackExact(got, apdus, m, k);
      if !InHeader(apdus, k) {
        CallbacksExact(got, apdus, k, n, rest);
      }
      CarriesMore(got, apdus, m, k, n, chunks);
    }
  }

  lemma {:induction false} CarriesMore(got: seq<Frame>, apdus: seq<seq<Octet>>, m: nat, k: nat, n: nat, chunks: seq<seq<Octet>>)
    requires AllWellFormed(apdus) && chunks != [] && k == m + |chunks[0]| <= |Concat(apdus)|
    requires chunks[0] == Concat(apdus)[m..k] && Moves(got, apdus, m, k)
    requires InHeader(apdus, k) || (Sound(At(got, apdus, k)) && Carries(got, apdus, k, n, chunks[1..]))
    ensures Carries(got, apdus, m, n, chunks)
  {
    var r := At(got, apdus, m);
    CallbacksMore(r, chunks);
    if !InHeader(apdus, k) {
      assert Callbacks(r, chunks) == Callbacks(At(got, apdus, k), chunks[1..]);
    }
  }

  /** One piece after another; once aborted, the reader stays so. */
  lemma {:induction false} CallbacksMore(r: Reader, chunks: seq<seq<Octet>>)
    requires Sound(r) && chunks != []
    ensures var r' := ReadCallback(r, chunks[0]);
      && Sound(r') && Callbacks(r, chunks) == Callbacks(r', chunks[1..])
      && (r'.status.Aborted? ==> Callbacks(r, chunks) == r')
  {
    var r' := ReadCallback(r, chunks[0]);
    ReadCallbackSound(r, chunks[0]);
    if r'.status.Aborted? {
      Stopped(r', chunks[1..]);
    }
  }

  lemma {:induction false} SplitJoin(s: seq<Octet>, m: nat, c: seq<Octet>, more: seq<Octet>)
    requires m + |c| + |more| <= |s| && c + more == s[m..m + |c| + |more|]
    ensures c == s[m..m + |c|] && more == s[m + |c|..m + |c| + |more|]
  {
    SliceHead(s, m, m + |c|, m + |c| + |more|);
    assert c == (c + more)[..|c|] && more == (c + more)[|c|..];
  }

  ghost function EncodeAll(fs: seq<Frame>): seq<seq<Octet>>
    requires forall i :: 0 <= i < |fs| ==> Sendable(fs[i])
  {
    if fs == [] then [] else [Encode(fs[0])] + EncodeAll(fs[1..])
  }

  lemma {:induction false} AtEnd(got: seq<Frame>, fs: seq<Frame>)
    requires forall i :: 0 <= i < |fs| ==> Sendable(fs[i])
    ensures AllWellFormed(EncodeAll(fs))
    ensures At(got, EncodeAll(fs), |Concat(EncodeAll(fs))|) == Reader([], 0, got + fs, Running)
    decreases |fs|
  {
    if fs == [] {
      assert got + fs == got;
    } else {
      var f, rest := fs[0], fs[1..];
      FrameRoundTrip(f);
      AtEnd(got + [f], rest);
      assert got + [f] + rest == got + fs;
      assert EncodeAll(fs)[1..] == EncodeAll(rest);
    }
  }

  /** The frames written by one end, cut into pieces anyhow: the other end sees exactly those
      frames if and only if no piece ends inside a header, and otherwise the program aborts. */
  lemma {:induction false} FramingExact(fs: seq<Frame>, chunks: seq<seq<Octet>>)
    requires forall i :: 0 <= i < |fs| ==> Sendable(fs[i])
    requires Concat(chunks) == Concat(EncodeAll(fs))
    ensures var r := Callbacks(Fresh, chunks);
      && (Clean(EncodeAll(fs), 0, chunks) <==> r == Reader([], 0, fs, Running))
      && (!Clean(EncodeAll(fs), 0, chunks) <==> r.status.Aborted?)
  {
    var apdus := EncodeAll(fs);
    AtEnd([], fs);
    assert [] + fs == fs;
    var s := Concat(apdus);
    assert s == s[0..0 + |s|];
    CallbacksExact([], apdus, 0, |s|, chunks);
  }
}
