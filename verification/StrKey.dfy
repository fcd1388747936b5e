/**
 Stellar StrKey validation (SEP-0023): base32 text holding one version byte, a 32-byte
 payload and a little-endian CRC16-XModem checksum.

 The manifest validator relies on the checksum to catch mistyped addresses.  This module
 proves what it catches: every single mistyped character, every pair of adjacent mistyped
 or swapped characters, every corrupted raw byte, and every corruption of two adjacent raw
 bytes except one bit pattern at the checksum boundary.

 The argument is linear algebra over bits: the checksum of a difference is the difference
 of the checksums, so only the differences that the checksum maps to zero go unnoticed.
 */
module StrKey {

  type Bytes = seq<bv8>

  // ---------- CRC16-XModem ----------

  predicate TopBit(c: bv16) {
    c & 0x8000 != 0
  }

  function Twice(c: bv16): bv16 {
    c << 1
  }

  function Xor(a: bv16, b: bv16): bv16 {
    a ^ b
  }

  function TwiceReduced(c: bv16): bv16 {
    Xor(Twice(c), 0x1021)
  }

  /** One shift of the register: polynomial 0x1021, most significant bit first. */
  function BitStep(c: bv16): bv16 {
    if TopBit(c) then TwiceReduced(c) else Twice(c)
  }

  function BitSteps(c: bv16, n: nat): bv16 {
    if n == 0 then c else BitStep(BitSteps(c, n - 1))
  }

  const BITS_PER_BYTE: nat := 8

  function High(b: bv8): bv16 {
    (b as bv16) << 8
  }

  function Low(b: bv8): bv16 {
    b as bv16
  }

  function ByteStep(c: bv16, b: bv8): bv16 {
    BitSteps(Xor(c, High(b)), BITS_PER_BYTE)
  }

  function CrcFrom(c: bv16, data: Bytes): bv16
    decreases |data|
  {
    if data == [] then c else CrcFrom(ByteStep(c, data[0]), data[1..])
  }

  function Crc(data: Bytes): bv16 {
    CrcFrom(0, data)
  }

  /** The inner loop: eight shifts of the register. */
  method ShiftByte(mixed: bv16) returns (crc: bv16)
    ensures crc == BitSteps(mixed, BITS_PER_BYTE)
  {
    crc := mixed;
    var k := 0;
    while k < BITS_PER_BYTE
      invariant 0 <= k <= BITS_PER_BYTE
      invariant crc == BitSteps(mixed, k)
    {
      if TopBit(crc) {
        crc := TwiceReduced(crc);
      } else {
        crc := Twice(crc);
      }
      k := k + 1;
    }
  }

  /** The checksum loop over the bytes of a key. */
  method Crc16XModem(data: Bytes) returns (crc: bv16)
    ensures crc == Crc(data)
  {
    crc := 0;
    var i := 0;
    while i < |data|
      invariant 0 <= i <= |data|
      invariant CrcFrom(crc, data[i..]) == Crc(data)
    {
      crc := ShiftByte(Xor(crc, High(data[i])));
      assert data[i..][1..] == data[i + 1..];
      i := i + 1;
    }
  }

  lemma {:induction false} CrcFromSplit(c: bv16, a: Bytes, b: Bytes)
    ensures CrcFrom(c, a + b) == CrcFrom(CrcFrom(c, a), b)
    decreases |a|
  {
    if a == [] {
      assert a + b == b;
    } else {
      assert (a + b)[1..] == a[1..] + b;
      CrcFromSplit(ByteStep(c, a[0]), a[1..], b);
    }
  }

  // ---------- The register is linear in its input ----------

  lemma XorZero(a: bv16, b: bv16)
    ensures Xor(a, b) == 0 <==> a == b
  {
    assert a == b ==> Xor(a, b) == 0;
  }

  lemma XorUnit(a: bv16)
    ensures Xor(0, a) == a && Xor(a, 0) == a
  {
  }

  lemma XorCommutes(a: bv16, b: bv16)
    ensures Xor(a, b) == Xor(b, a)
  {
  }

  lemma XorAssociates(a: bv16, b: bv16, c: bv16)
    ensures Xor(Xor(a, b), c) == Xor(a, Xor(b, c))
  {
  }

  lemma XorExchange(a: bv16, b: bv16, c: bv16, d: bv16)
    ensures Xor(Xor(a, b), Xor(c, d)) == Xor(Xor(a, c), Xor(b, d))
  {
    XorAssociates(a, b, Xor(c, d));
    XorAssociates(b, c, d);
    XorCommutes(b, c);
    XorAssociates(c, b, d);
    XorAssociates(a, c, Xor(b, d));
  }

  lemma TopBitOfXor(a: bv16, b: bv16)
    ensures TopBit(Xor(a, b)) <==> TopBit(a) != TopBit(b)
  {
  }

  lemma TwiceLinear(a: bv16, b: bv16)
    ensures Xor(Twice(a), Twice(b)) == Twice(Xor(a, b))
  {
  }

  /** The feedback a leading bit causes: the polynomial, or nothing. */
  function FeedbackOf(top: bool): bv16 {
    if top then 0x1021 else 0
  }

  lemma FeedbackOfLinear(p: bool, q: bool)
    ensures Xor(FeedbackOf(p), FeedbackOf(q)) == FeedbackOf(p != q)
  {
  }

  function Feedback(c: bv16): bv16 {
    FeedbackOf(TopBit(c))
  }

  lemma FeedbackLinear(a: bv16, b: bv16)
    ensures Xor(Feedback(a), Feedback(b)) == Feedback(Xor(a, b))
  {
    TopBitOfXor(a, b);
    FeedbackOfLinear(TopBit(a), TopBit(b));
  }

  lemma BitStepFeedback(c: bv16)
    ensures BitStep(c) == Xor(Twice(c), Feedback(c))
  {
    XorUnit(Twice(c));
  }

  lemma BitStepLinear(a: bv16, b: bv16)
    ensures Xor(BitStep(a), BitStep(b)) == BitStep(Xor(a, b))
  {
    BitStepFeedback(a);
    BitStepFeedback(b);
    BitStepFeedback(Xor(a, b));
    TwiceLinear(a, b);
    FeedbackLinear(a, b);
    XorExchange(Twice(a), Feedback(a), Twice(b), Feedback(b));
  }

  lemma {:induction false} BitStepsLinear(a: bv16, b: bv16, n: nat)
    ensures Xor(BitSteps(a, n), BitSteps(b, n)) == BitSteps(Xor(a, b), n)
  {
    if n > 0 {
      BitStepsLinear(a, b, n - 1);
      BitStepLinear(BitSteps(a, n - 1), BitSteps(b, n - 1));
    }
  }

  function XorByte(a: bv8, b: bv8): bv8 {
    a ^ b
  }

  /** The bitwise difference of two equally long byte strings. */
  function Difference(a: Bytes, b: Bytes): (d: Bytes)
    requires |a| == |b|
    ensures |d| == |a|
    ensures forall i :: 0 <= i < |a| ==> d[i] == XorByte(a[i], b[i])
  {
    seq(|a|, i requires 0 <= i < |a| => XorByte(a[i], b[i]))
  }

  lemma HighLinear(x: bv8, y: bv8)
    ensures Xor(High(x), High(y)) == High(XorByte(x, y))
  {
  }

  lemma LowLinear(x: bv8, y: bv8)
    ensures Xor(Low(x), Low(y)) == Low(XorByte(x, y))
  {
  }

  lemma MixLinear(c: bv16, d: bv16, x: bv8, y: bv8)
    ensures Xor(Xor(c, High(x)), Xor(d, High(y))) == Xor(Xor(c, d), High(XorByte(x, y)))
  {
    HighLinear(x, y);
    XorExchange(c, High(x), d, High(y));
  }

  /** The register difference is the register of the difference. */
  lemma {:induction false} CrcLinear(c: bv16, d: bv16, a: Bytes, b: Bytes)
    requires |a| == |b|
    ensures Xor(CrcFrom(c, a), CrcFrom(d, b)) == CrcFrom(Xor(c, d), Difference(a, b))
    decreases |a|
  {
    if a != [] {
      MixLinear(c, d, a[0], b[0]);
      BitStepsLinear(Xor(c, High(a[0])), Xor(d, High(b[0])), BITS_PER_BYTE);
      CrcLinear(ByteStep(c, a[0]), ByteStep(d, b[0]), a[1..], b[1..]);
      assert Difference(a, b)[1..] == Difference(a[1..], b[1..]);
    }
  }

  // ---------- Differences the register cannot forget ----------

  /** The eight shifts of one byte, written out. */
  function Shift8(c: bv16): bv16 {
    BitStep(BitStep(BitStep(BitStep(BitStep(BitStep(BitStep(BitStep(c))))))))
  }

  lemma EightBitSteps(c: bv16)
    ensures BitSteps(c, BITS_PER_BYTE) == Shift8(c)
  {
    assert BitSteps(c, 1) == BitStep(BitSteps(c, 0));
    assert BitSteps(c, 2) == BitStep(BitSteps(c, 1));
    assert BitSteps(c, 3) == BitStep(BitSteps(c, 2));
    assert BitSteps(c, 4) == BitStep(BitSteps(c, 3));
    assert BitSteps(c, 5) == BitStep(BitSteps(c, 4));
    assert BitSteps(c, 6) == BitStep(BitSteps(c, 5));
    assert BitSteps(c, 7) == BitStep(BitSteps(c, 6));
  }

  lemma Shift8Kernel(c: bv16)
    ensures Shift8(c) == 0 <==> c == 0
  {
  }

  lemma ByteStepIsShift8(c: bv16, b: bv8)
    ensures ByteStep(c, b) == Shift8(Xor(c, High(b)))
  {
    EightBitSteps(Xor(c, High(b)));
  }

  lemma CrcOfNext(a: Bytes, v: bv8)
    ensures Crc(a + [v]) == Shift8(Xor(Crc(a), High(v)))
  {
    CrcFromSplit(0, a, [v]);
    ByteStepIsShift8(Crc(a), v);
    assert [v][1..] == [];
  }

  lemma CrcOfByte(u: bv8)
    ensures Crc([u]) == Shift8(High(u))
  {
    CrcOfNext([], u);
    assert [] + [u] == [u];
    XorUnit(High(u));
  }

  lemma CheckStep(data: Bytes, b: bv8, before: bv16, after: bv16)
    requires Crc(data) == before && Shift8(Xor(before, High(b))) == after
    ensures Crc(data + [b]) == after
  {
    CrcOfNext(data, b);
  }

  lemma CheckThree(data: Bytes, a: bv8, b: bv8, c: bv8, r0: bv16, r1: bv16, r2: bv16, r3: bv16)
    requires Crc(data) == r0
    requires Shift8(Xor(r0, High(a))) == r1 && Shift8(Xor(r1, High(b))) == r2 && Shift8(Xor(r2, High(c))) == r3
    ensures Crc(data + [a, b, c]) == r3
  {
    CheckStep(data, a, r0, r1);
    CheckStep(data + [a], b, r1, r2);
    CheckStep(data + [a] + [b], c, r2, r3);
    assert data + [a, b, c] == data + [a] + [b] + [c];
  }

  /** The published check value of CRC-16/XMODEM: the digits 1 to 9 give 0x31C3. */
  lemma CheckValue()
    ensures Crc([] + [0x31, 0x32, 0x33] + [0x34, 0x35, 0x36] + [0x37, 0x38, 0x39]) == 0x31C3
  {
    CheckThree([], 0x31, 0x32, 0x33, 0x0000, 0x2672, 0x20B5, 0x9752);
    CheckThree([] + [0x31, 0x32, 0x33], 0x34, 0x35, 0x36, 0x9752, 0xD789, 0x546C, 0x20E4);
    CheckThree([] + [0x31, 0x32, 0x33] + [0x34, 0x35, 0x36], 0x37, 0x38, 0x39, 0x20E4, 0x86D6, 0x9015, 0x31C3);
  }

  ghost predicate Zeros(s: Bytes) {
    forall i :: 0 <= i < |s| ==> s[i] == 0
  }

  /** Zero bytes keep a zero register zero and a nonzero register nonzero. */
  lemma {:induction false} ZeroBytes(c: bv16, s: Bytes)
    requires Zeros(s)
    ensures CrcFrom(c, s) == 0 <==> c == 0
    decreases |s|
  {
    if s != [] {
      ByteStepIsShift8(c, 0);
      assert High(0) == 0;
      XorUnit(c);
      Shift8Kernel(c);
      ZeroBytes(ByteStep(c, 0), s[1..]);
    }
  }

  ghost predicate ZeroOutside(e: Bytes, p: nat, n: nat) {
    forall i :: 0 <= i < |e| && !(p <= i < p + n) ==> e[i] == 0
  }

  /** A difference confined to a window is invisible exactly when the window alone is. */
  lemma CrcOfWindow(e: Bytes, p: nat, n: nat)
    requires p + n <= |e| && ZeroOutside(e, p, n)
    ensures Crc(e) == 0 <==> Crc(e[p..p + n]) == 0
    ensures p + n == |e| ==> Crc(e) == Crc(e[p..])
  {
    var a, w, z := e[..p], e[p..p + n], e[p + n..];
    assert e == a + (w + z);
    CrcFromSplit(0, a, w + z);
    ZeroBytes(0, a);
    CrcFromSplit(0, w, z);
    ZeroBytes(Crc(w), z);
    assert p + n == |e| ==> w + z == e[p..];
  }

  // Exhaustive facts about short differences.

  lemma PairKernel(u: bv8, v: bv8)
    requires Shift8(High(u)) == High(v)
    ensures u == 0 && v == 0
  {
  }

  lemma TripleKernel(u: bv8, v: bv8, w: bv8)
    requires u & 0xFE == 0 && w & 0x7F == 0
    requires Shift8(Xor(Shift8(High(u)), High(v))) == High(w)
    ensures u == 0 && v == 0 && w == 0
  {
  }

  lemma CrcOfPair(u: bv8, v: bv8)
    ensures Crc([u, v]) == Shift8(Xor(Shift8(High(u)), High(v)))
  {
    CrcOfByte(u);
    CrcOfNext([u], v);
    assert [u] + [v] == [u, v];
  }

  lemma PairCrcZero(u: bv8, v: bv8)
    requires Crc([u, v]) == 0
    ensures u == 0 && v == 0
  {
    CrcOfPair(u, v);
    Shift8Kernel(Xor(Shift8(High(u)), High(v)));
    XorZero(Shift8(High(u)), High(v));
    PairKernel(u, v);
  }

  lemma TripleCrcZero(u: bv8, v: bv8, w: bv8)
    requires u & 0xFE == 0 && w & 0x7F == 0
    requires Crc([u, v, w]) == 0
    ensures u == 0 && v == 0 && w == 0
  {
    CrcOfPair(u, v);
    CrcOfNext([u, v], w);
    assert [u, v] + [w] == [u, v, w];
    Shift8Kernel(Xor(Crc([u, v]), High(w)));
    XorZero(Crc([u, v]), High(w));
    TripleKernel(u, v, w);
  }

  /** At the checksum boundary exactly one byte difference leaves the high checksum byte alone. */
  lemma BoundaryKernel(u: bv8, v: bv8)
    ensures Shift8(High(u)) == Low(v) ==> (u == 0 && v == 0) || (u == 0x89 && v == 0xA1)
  {
  }

  lemma BoundaryWitness()
    ensures Shift8(High(0x89)) == 0xA1
  {
  }

  lemma BoundaryTripleKernel(u: bv8, v: bv8, w: bv8)
    requires u & 0xFE == 0 && w & 0x7F == 0
    requires Shift8(Xor(Shift8(High(u)), High(v))) == Low(w)
    ensures u == 0 && v == 0 && w == 0
  {
  }

  // ---------- Raw keys ----------

  const DATA_LENGTH: nat := 33
  const RAW_LENGTH: nat := 35

  /** The two checksum bytes, low byte first, as one word. */
  function Stored(lo: bv8, hi: bv8): bv16 {
    Xor(High(hi), Low(lo))
  }

  predicate ChecksumOk(raw: Bytes)
    requires |raw| == RAW_LENGTH
  {
    Stored(raw[33], raw[34]) == Crc(raw[..DATA_LENGTH])
  }

  function Syndrome(raw: Bytes): bv16
    requires |raw| == RAW_LENGTH
  {
    Xor(Crc(raw[..DATA_LENGTH]), Stored(raw[33], raw[34]))
  }

  lemma StoredLinear(a: bv16, b: bv16, lo: bv8, hi: bv8, lo': bv8, hi': bv8)
    ensures Xor(Xor(a, Stored(lo, hi)), Xor(b, Stored(lo', hi')))
         == Xor(Xor(a, b), Stored(XorByte(lo, lo'), XorByte(hi, hi')))
  {
    HighLinear(hi, hi');
    LowLinear(lo, lo');
    XorExchange(High(hi), Low(lo), High(hi'), Low(lo'));
    XorExchange(a, Stored(lo, hi), b, Stored(lo', hi'));
  }

  /** Whether a corrupted key still checks out depends only on the corruption. */
  lemma UndetectedIffInKernel(raw: Bytes, other: Bytes)
    requires |raw| == |other| == RAW_LENGTH
    requires ChecksumOk(raw)
    ensures ChecksumOk(other) <==> Syndrome(Difference(raw, other)) == 0
  {
    var a, b, d := raw[..DATA_LENGTH], other[..DATA_LENGTH], Difference(raw, other);
    CrcLinear(0, 0, a, b);
    assert d[..DATA_LENGTH] == Difference(a, b);
    XorUnit(0);
    StoredLinear(Crc(a), Crc(b), raw[33], raw[34], other[33], other[34]);
    XorZero(Crc(a), Stored(raw[33], raw[34]));
    XorZero(Crc(b), Stored(other[33], other[34]));
    XorUnit(Syndrome(other));
    assert Xor(Syndrome(raw), Syndrome(other)) == Syndrome(d);
  }

  lemma SliceOfTwo<T>(s: seq<T>, p: nat)
    requires p + 2 <= |s|
    ensures s[p..p + 2] == [s[p], s[p + 1]]
  {
  }

  lemma SliceOfThree<T>(s: seq<T>, p: nat)
    requires p + 3 <= |s|
    ensures s[p..p + 3] == [s[p], s[p + 1], s[p + 2]]
  {
  }

  lemma SyndromeZero(e: Bytes)
    requires |e| == RAW_LENGTH && Syndrome(e) == 0
    ensures Crc(e[..DATA_LENGTH]) == Stored(e[33], e[34])
  {
    XorZero(Crc(e[..DATA_LENGTH]), Stored(e[33], e[34]));
  }

  /** A window of corrupted bytes that stays clear of the checksum bytes. */
  lemma InsideData(e: Bytes, p: nat, n: nat)
    requires |e| == RAW_LENGTH && p + n <= DATA_LENGTH && ZeroOutside(e, p, n)
    requires Syndrome(e) == 0
    ensures Crc(e[..DATA_LENGTH][p..p + n]) == 0
  {
    SyndromeZero(e);
    StoredZero(e[33], e[34]);
    CrcOfWindow(e[..DATA_LENGTH], p, n);
  }

  /** A window that ends with the low checksum byte. */
  lemma AcrossBoundary(e: Bytes, p: nat)
    requires |e| == RAW_LENGTH && p < DATA_LENGTH && ZeroOutside(e, p, DATA_LENGTH - p + 1)
    requires Syndrome(e) == 0
    ensures Crc(e[..DATA_LENGTH][p..DATA_LENGTH]) == Low(e[33])
  {
    var data := e[..DATA_LENGTH];
    SyndromeZero(e);
    StoredLow(e[33]);
    CrcOfWindow(data, p, DATA_LENGTH - p);
    assert data[p..] == data[p..DATA_LENGTH];
  }

  /** Two adjacent corrupted bytes escape the checksum in one way only. */
  lemma PairWindow(e: Bytes, p: nat)
    requires |e| == RAW_LENGTH && p <= 33 && ZeroOutside(e, p, 2)
    requires Syndrome(e) == 0
    ensures Zeros(e) || (p == 32 && e[32] == 0x89 && e[33] == 0xA1)
  {
    var data := e[..DATA_LENGTH];
    if p <= 31 {
      InsideData(e, p, 2);
      SliceOfTwo(data, p);
      PairCrcZero(e[p], e[p + 1]);
    } else if p == 32 {
      AcrossBoundary(e, 32);
      assert data[32..DATA_LENGTH] == [e[32]];
      CrcOfByte(e[32]);
      BoundaryKernel(e[32], e[33]);
    } else {
      SyndromeZero(e);
      ZeroBytes(0, data);
      StoredZero(e[33], e[34]);
    }
  }

  /** A corruption of at most ten neighbouring bits that reaches into three bytes never escapes. */
  lemma TripleWindow(e: Bytes, p: nat)
    requires |e| == RAW_LENGTH && p <= 31 && ZeroOutside(e, p, 3)
    requires e[p] & 0xFE == 0 && e[p + 2] & 0x7F == 0
    requires Syndrome(e) == 0
    ensures Zeros(e)
  {
    var data := e[..DATA_LENGTH];
    if p <= 30 {
      InsideData(e, p, 3);
      SliceOfThree(data, p);
      TripleCrcZero(e[p], e[p + 1], e[p + 2]);
    } else {
      AcrossBoundary(e, 31);
      SliceOfTwo(data, 31);
      CrcOfPair(e[31], e[32]);
      BoundaryTripleKernel(e[31], e[32], e[33]);
    }
  }

  lemma StoredZero(lo: bv8, hi: bv8)
    ensures Stored(lo, hi) == 0 <==> lo == 0 && hi == 0
  {
  }

  lemma StoredLow(lo: bv8)
    ensures Stored(lo, 0) == Low(lo)
  {
    assert High(0) == 0;
    XorUnit(Low(lo));
  }

  lemma XorByteZero(a: bv8, b: bv8)
    ensures XorByte(a, b) == 0 <==> a == b
  {
    assert a == b ==> XorByte(a, b) == 0;
  }

  lemma ZeroDifference(a: Bytes, b: Bytes)
    requires |a| == |b|
    ensures Zeros(Difference(a, b)) <==> a == b
  {
    forall i | 0 <= i < |a| ensures XorByte(a[i], b[i]) == 0 <==> a[i] == b[i] {
      XorByteZero(a[i], b[i]);
    }
    if Zeros(Difference(a, b)) {
      assert forall i :: 0 <= i < |a| ==> a[i] == b[i];
    }
  }

  ghost predicate AgreeOutside<T>(a: seq<T>, b: seq<T>, p: nat, n: nat) {
    |a| == |b| && forall i :: 0 <= i < |a| && !(p <= i < p + n) ==> a[i] == b[i]
  }

  lemma DifferenceWindow(a: Bytes, b: Bytes, p: nat, n: nat)
    requires AgreeOutside(a, b, p, n)
    ensures ZeroOutside(Difference(a, b), p, n)
  {
    forall i | 0 <= i < |a| && !(p <= i < p + n) ensures Difference(a, b)[i] == 0 {
      XorByteZero(a[i], b[i]);
    }
  }

  /** For byte strings of any length: a change within two adjacent bytes always changes the checksum. */
  lemma AdjacentBytesChangeCrc(a: Bytes, b: Bytes, p: nat)
    requires p + 2 <= |a| && AgreeOutside(a, b, p, 2)
    ensures Crc(a) == Crc(b) <==> a == b
  {
    var e := Difference(a, b);
    DifferenceWindow(a, b, p, 2);
    XorZero(Crc(a), Crc(b));
    CrcLinear(0, 0, a, b);
    XorUnit(0);
    CrcOfWindow(e, p, 2);
    assert e[p..p + 2] == [e[p], e[p + 1]];
    if Crc(e) == 0 {
      PairCrcZero(e[p], e[p + 1]);
      assert Zeros(e);
    }
    ZeroDifference(a, b);
  }

  /** For byte strings of any length: a change of one byte always changes the checksum. */
  lemma OneByteChangesCrc(a: Bytes, b: Bytes, p: nat)
    requires p < |a| && AgreeOutside(a, b, p, 1)
    ensures Crc(a) == Crc(b) <==> a == b
  {
    var e := Difference(a, b);
    DifferenceWindow(a, b, p, 1);
    XorZero(Crc(a), Crc(b));
    CrcLinear(0, 0, a, b);
    XorUnit(0);
    CrcOfWindow(e, p, 1);
    assert e[p..p + 1] == [e[p]];
    CrcOfByte(e[p]);
    Shift8Kernel(High(e[p]));
    HighZero(e[p]);
    ZeroDifference(a, b);
  }

  lemma HighZero(b: bv8)
    ensures High(b) == 0 <==> b == 0
  {
  }

  /**
   Exactly which corruptions of two adjacent raw bytes go unnoticed: none, except the bit
   pattern 0x89, 0xA1 across the boundary between the payload and the checksum.
   */
  lemma AdjacentBytesCorruption(raw: Bytes, other: Bytes, p: nat)
    requires |raw| == RAW_LENGTH && ChecksumOk(raw)
    requires p <= 33 && AgreeOutside(raw, other, p, 2)
    ensures ChecksumOk(other) <==>
            raw == other || (p == 32 && XorByte(raw[32], other[32]) == 0x89 && XorByte(raw[33], other[33]) == 0xA1)
  {
    var e := Difference(raw, other);
    DifferenceWindow(raw, other, p, 2);
    UndetectedIffInKernel(raw, other);
    ZeroDifference(raw, other);
    if Syndrome(e) == 0 {
      PairWindow(e, p);
    } else if p == 32 && e[32] == 0x89 && e[33] == 0xA1 {
      BoundaryWitness();
      CrcOfWindow(e[..DATA_LENGTH], 32, 1);
      assert e[..DATA_LENGTH][32..] == [0x89];
      CrcOfByte(0x89);
      StoredLow(0xA1);
      XorZero(Crc(e[..DATA_LENGTH]), Stored(e[33], e[34]));
      assert false;
    }
  }

  /** One altered byte, anywhere in the decoded key, is always noticed. */
  lemma OneByteCorruption(raw: Bytes, other: Bytes, p: nat)
    requires |raw| == RAW_LENGTH && ChecksumOk(raw)
    requires p < RAW_LENGTH && AgreeOutside(raw, other, p, 1) && raw != other
    ensures !ChecksumOk(other)
  {
    var q := if p == 34 then 33 else p;
    AdjacentBytesCorruption(raw, other, q);
    XorByteZero(raw[33], other[33]);
  }
}
