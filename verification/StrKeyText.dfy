/**
 StrKey validation of manifest text: length, alphabet, base32 decoding, checksum, version.
 The main result is what the manifest documentation relies on: a valid key with one
 mistyped character, or with two adjacent characters mistyped or swapped, is rejected.
 */
module StrKeyText {
  import opened Common
  import opened StrKey

  /** A manifest value; only text can be a key. */
  datatype JsonValue = Text(text: string) | NotText

  datatype KeyError = NotAString | WrongLength | BadCharacter | BadRawLength | BadChecksum | WrongVersion

  const TEXT_LENGTH: nat := 56
  const VERSION_ACCOUNT: bv8 := 0x30
  const VERSION_CONTRACT: bv8 := 0x10

  predicate InAlphabet(c: char) {
    'A' <= c <= 'Z' || '2' <= c <= '7'
  }

  predicate AllInAlphabet(s: string) {
    forall i :: 0 <= i < |s| ==> InAlphabet(s[i])
  }

  function Quintet(c: char): bv8
    requires InAlphabet(c)
  {
    match c
    case 'A' => 0 case 'B' => 1 case 'C' => 2 case 'D' => 3
    case 'E' => 4 case 'F' => 5 case 'G' => 6 case 'H' => 7
    case 'I' => 8 case 'J' => 9 case 'K' => 10 case 'L' => 11
    case 'M' => 12 case 'N' => 13 case 'O' => 14 case 'P' => 15
    case 'Q' => 16 case 'R' => 17 case 'S' => 18 case 'T' => 19
    case 'U' => 20 case 'V' => 21 case 'W' => 22 case 'X' => 23
    case 'Y' => 24 case 'Z' => 25 case '2' => 26 case '3' => 27
    case '4' => 28 case '5' => 29 case '6' => 30 case _ => 31
  }

  function Quintets(s: string): (q: Bytes)
    requires AllInAlphabet(s)
    ensures |q| == |s|
    ensures forall i :: 0 <= i < |s| ==> q[i] == Quintet(s[i])
  {
    seq(|s|, i requires 0 <= i < |s| => Quintet(s[i]))
  }

  // Eight quintets make five bytes; the shifted parts never overlap.
  function Up1(q: bv8): bv8 { q << 1 }
  function Up2(q: bv8): bv8 { q << 2 }
  function Up3(q: bv8): bv8 { q << 3 }
  function Up4(q: bv8): bv8 { q << 4 }
  function Up5(q: bv8): bv8 { q << 5 }
  function Up6(q: bv8): bv8 { q << 6 }
  function Up7(q: bv8): bv8 { q << 7 }
  function Down1(q: bv8): bv8 { q >> 1 }
  function Down2(q: bv8): bv8 { q >> 2 }
  function Down3(q: bv8): bv8 { q >> 3 }
  function Down4(q: bv8): bv8 { q >> 4 }

  function Byte0(q0: bv8, q1: bv8): bv8 { XorByte(Up3(q0), Down2(q1)) }
  function Byte1(q1: bv8, q2: bv8, q3: bv8): bv8 { XorByte(XorByte(Up6(q1), Up1(q2)), Down4(q3)) }
  function Byte2(q3: bv8, q4: bv8): bv8 { XorByte(Up4(q3), Down1(q4)) }
  function Byte3(q4: bv8, q5: bv8, q6: bv8): bv8 { XorByte(XorByte(Up7(q4), Up2(q5)), Down3(q6)) }
  function Byte4(q6: bv8, q7: bv8): bv8 { XorByte(Up5(q6), q7) }

  /** Byte k of the five bytes that group h of the quintets encodes. */
  function ByteAt(q: Bytes, h: nat, k: nat): bv8
    requires 8 * h + 8 <= |q| && k < 5
  {
    match k
    case 0 => Byte0(q[8 * h], q[8 * h + 1])
    case 1 => Byte1(q[8 * h + 1], q[8 * h + 2], q[8 * h + 3])
    case 2 => Byte2(q[8 * h + 3], q[8 * h + 4])
    case 3 => Byte3(q[8 * h + 4], q[8 * h + 5], q[8 * h + 6])
    case _ => Byte4(q[8 * h + 6], q[8 * h + 7])
  }

  function Decode(q: Bytes): (b: Bytes)
    ensures |b| == 5 * (|q| / 8)
    ensures forall j :: 0 <= j < |b| ==> b[j] == ByteAt(q, j / 5, j % 5)
  {
    seq(5 * (|q| / 8), j requires 0 <= j < 5 * (|q| / 8) => ByteAt(q, j / 5, j % 5))
  }

  /** The validator: an error, or nothing when the text is a key of the expected version. */
  function StrKeyError(value: JsonValue, expectedVersion: bv8): Option<KeyError> {
    if !value.Text? then Some(NotAString)
    else if |value.text| != TEXT_LENGTH then Some(WrongLength)
    else if !AllInAlphabet(value.text) then Some(BadCharacter)
    else
      var raw := Decode(Quintets(value.text));
      if |raw| != RAW_LENGTH then Some(BadRawLength)
      else if !ChecksumOk(raw) then Some(BadChecksum)
      else if raw[0] != expectedVersion then Some(WrongVersion)
      else None
  }

  // ---------- Decoding is linear and one-to-one ----------

  lemma SmallUpLinear(a: bv8, b: bv8)
    ensures XorByte(Up1(a), Up1(b)) == Up1(XorByte(a, b))
    ensures XorByte(Up2(a), Up2(b)) == Up2(XorByte(a, b))
    ensures XorByte(Up3(a), Up3(b)) == Up3(XorByte(a, b))
    ensures XorByte(Up4(a), Up4(b)) == Up4(XorByte(a, b))
  {
  }

  lemma LargeUpLinear(a: bv8, b: bv8)
    ensures XorByte(Up5(a), Up5(b)) == Up5(XorByte(a, b))
    ensures XorByte(Up6(a), Up6(b)) == Up6(XorByte(a, b))
    ensures XorByte(Up7(a), Up7(b)) == Up7(XorByte(a, b))
  {
  }

  lemma UpLinear(a: bv8, b: bv8)
    ensures XorByte(Up1(a), Up1(b)) == Up1(XorByte(a, b))
    ensures XorByte(Up2(a), Up2(b)) == Up2(XorByte(a, b))
    ensures XorByte(Up3(a), Up3(b)) == Up3(XorByte(a, b))
    ensures XorByte(Up4(a), Up4(b)) == Up4(XorByte(a, b))
    ensures XorByte(Up5(a), Up5(b)) == Up5(XorByte(a, b))
    ensures XorByte(Up6(a), Up6(b)) == Up6(XorByte(a, b))
    ensures XorByte(Up7(a), Up7(b)) == Up7(XorByte(a, b))
  {
    SmallUpLinear(a, b);
    LargeUpLinear(a, b);
  }

  lemma DownLinear(a: bv8, b: bv8)
    ensures XorByte(Down1(a), Down1(b)) == Down1(XorByte(a, b))
    ensures XorByte(Down2(a), Down2(b)) == Down2(XorByte(a, b))
    ensures XorByte(Down3(a), Down3(b)) == Down3(XorByte(a, b))
    ensures XorByte(Down4(a), Down4(b)) == Down4(XorByte(a, b))
  {
  }

  lemma XorByteCommutes(a: bv8, b: bv8)
    ensures XorByte(a, b) == XorByte(b, a)
  {
  }

  lemma XorByteAssociates(a: bv8, b: bv8, c: bv8)
    ensures XorByte(XorByte(a, b), c) == XorByte(a, XorByte(b, c))
  {
  }

  lemma XorByteExchange(a: bv8, b: bv8, c: bv8, d: bv8)
    ensures XorByte(XorByte(a, b), XorByte(c, d)) == XorByte(XorByte(a, c), XorByte(b, d))
  {
    XorByteAssociates(a, b, XorByte(c, d));
    XorByteAssociates(b, c, d);
    XorByteCommutes(b, c);
    XorByteAssociates(c, b, d);
    XorByteAssociates(a, c, XorByte(b, d));
  }

  lemma Byte0Linear(a: bv8, b: bv8, a': bv8, b': bv8)
    ensures XorByte(Byte0(a, b), Byte0(a', b')) == Byte0(XorByte(a, a'), XorByte(b, b'))
  {
    UpLinear(a, a');
    DownLinear(b, b');
    XorByteExchange(Up3(a), Down2(b), Up3(a'), Down2(b'));
  }

  lemma Byte1Linear(a: bv8, b: bv8, c: bv8, a': bv8, b': bv8, c': bv8)
    ensures XorByte(Byte1(a, b, c), Byte1(a', b', c')) == Byte1(XorByte(a, a'), XorByte(b, b'), XorByte(c, c'))
  {
    UpLinear(a, a');
    UpLinear(b, b');
    DownLinear(c, c');
    XorByteExchange(Up6(a), Up1(b), Up6(a'), Up1(b'));
    XorByteExchange(XorByte(Up6(a), Up1(b)), Down4(c), XorByte(Up6(a'), Up1(b')), Down4(c'));
  }

  lemma Byte2Linear(a: bv8, b: bv8, a': bv8, b': bv8)
    ensures XorByte(Byte2(a, b), Byte2(a', b')) == Byte2(XorByte(a, a'), XorByte(b, b'))
  {
    UpLinear(a, a');
    DownLinear(b, b');
    XorByteExchange(Up4(a), Down1(b), Up4(a'), Down1(b'));
  }

  lemma Byte3Linear(a: bv8, b: bv8, c: bv8, a': bv8, b': bv8, c': bv8)
    ensures XorByte(Byte3(a, b, c), Byte3(a', b', c')) == Byte3(XorByte(a, a'), XorByte(b, b'), XorByte(c, c'))
  {
    UpLinear(a, a');
    UpLinear(b, b');
    DownLinear(c, c');
    XorByteExchange(Up7(a), Up2(b), Up7(a'), Up2(b'));
    XorByteExchange(XorByte(Up7(a), Up2(b)), Down3(c), XorByte(Up7(a'), Up2(b')), Down3(c'));
  }

  lemma Byte4Linear(a: bv8, b: bv8, a': bv8, b': bv8)
    ensures XorByte(Byte4(a, b), Byte4(a', b')) == Byte4(XorByte(a, a'), XorByte(b, b'))
  {
    UpLinear(a, a');
    XorByteExchange(Up5(a), b, Up5(a'), b');
  }

  lemma ByteAtLinear(q: Bytes, r: Bytes, h: nat, k: nat)
    requires |q| == |r| && 8 * h + 8 <= |q| && k < 5
    ensures XorByte(ByteAt(q, h, k), ByteAt(r, h, k)) == ByteAt(Difference(q, r), h, k)
  {
    var g := 8 * h;
    match k
    case 0 => Byte0Linear(q[g], q[g + 1], r[g], r[g + 1]);
    case 1 => Byte1Linear(q[g + 1], q[g + 2], q[g + 3], r[g + 1], r[g + 2], r[g + 3]);
    case 2 => Byte2Linear(q[g + 3], q[g + 4], r[g + 3], r[g + 4]);
    case 3 => Byte3Linear(q[g + 4], q[g + 5], q[g + 6], r[g + 4], r[g + 5], r[g + 6]);
    case _ => Byte4Linear(q[g + 6], q[g + 7], r[g + 6], r[g + 7]);
  }

  lemma DecodeLinear(q: Bytes, r: Bytes)
    requires |q| == |r|
    ensures Difference(Decode(q), Decode(r)) == Decode(Difference(q, r))
  {
    var a, b := Difference(Decode(q), Decode(r)), Decode(Difference(q, r));
    forall j | 0 <= j < |a| ensures a[j] == b[j] {
      ByteAtLinear(q, r, j / 5, j % 5);
    }
  }

  // ---------- What two neighbouring quintets do to the bytes ----------

  predicate IsQuintet(q: bv8) {
    q & 0xE0 == 0
  }

  lemma KernelHead(a: bv8, b: bv8, c: bv8, d: bv8)
    requires IsQuintet(a) && IsQuintet(b) && IsQuintet(c) && IsQuintet(d)
    requires Byte0(a, b) == 0 && Byte1(b, c, d) == 0
    ensures a == 0 && b == 0 && c == 0 && d & 0xF0 == 0
  {
  }

  lemma KernelMiddle(d: bv8, e: bv8, f: bv8, g: bv8)
    requires d & 0xF0 == 0 && IsQuintet(e) && IsQuintet(f) && IsQuintet(g)
    requires Byte2(d, e) == 0 && Byte3(e, f, g) == 0
    ensures d == 0 && e == 0 && f == 0 && g & 0xF8 == 0
  {
  }

  lemma KernelTail(g: bv8, h: bv8)
    requires g & 0xF8 == 0 && IsQuintet(h) && Byte4(g, h) == 0
    ensures g == 0 && h == 0
  {
  }

  ghost predicate AllQuintets(d: Bytes) {
    forall i :: 0 <= i < |d| ==> IsQuintet(d[i])
  }

  lemma GroupKernel(d: Bytes, h: nat)
    requires AllQuintets(d) && 8 * h + 8 <= |d|
    requires forall k :: 0 <= k < 5 ==> ByteAt(d, h, k) == 0
    ensures forall i :: 8 * h <= i < 8 * h + 8 ==> d[i] == 0
  {
    var g := 8 * h;
    assert ByteAt(d, h, 0) == 0 && ByteAt(d, h, 1) == 0 && ByteAt(d, h, 2) == 0;
    assert ByteAt(d, h, 3) == 0 && ByteAt(d, h, 4) == 0;
    KernelHead(d[g], d[g + 1], d[g + 2], d[g + 3]);
    KernelMiddle(d[g + 3], d[g + 4], d[g + 5], d[g + 6]);
    KernelTail(d[g + 6], d[g + 7]);
  }

  /** Byte k of a group is built from the quintets Lo(k) to Hi(k) of the group. */
  function Lo(k: nat): nat {
    match k case 0 => 0 case 1 => 1 case 2 => 3 case 3 => 4 case _ => 6
  }

  function Hi(k: nat): nat {
    match k case 0 => 1 case 1 => 3 case 2 => 4 case 3 => 6 case _ => 7
  }

  lemma UntouchedByte(d: Bytes, h: nat, k: nat)
    requires 8 * h + 8 <= |d| && k < 5
    requires forall i :: 8 * h + Lo(k) <= i <= 8 * h + Hi(k) ==> d[i] == 0
    ensures ByteAt(d, h, k) == 0
  {
  }

  /** First byte that the characters at offsets r and r + 1 of a group reach, and how many they reach. */
  function FirstByte(r: nat): nat {
    if r <= 1 then 0 else if r <= 3 then 1 else if r == 4 then 2 else if r <= 6 then 3 else 4
  }

  function ByteCount(r: nat): nat {
    if r == 3 then 3 else 2
  }

  lemma PairReach(d: Bytes, g: nat, r: nat)
    requires |d| == TEXT_LENGTH && r < 8 && 8 * g + r <= 54
    requires ZeroOutside(d, 8 * g + r, 2)
    ensures ZeroOutside(Decode(d), 5 * g + FirstByte(r), ByteCount(r))
  {
    var e, p, n := Decode(d), 5 * g + FirstByte(r), ByteCount(r);
    forall j | 0 <= j < |e| && !(p <= j < p + n) ensures e[j] == 0 {
      UntouchedByte(d, j / 5, j % 5);
    }
  }

  lemma TripleMasks(x: bv8, y: bv8)
    requires IsQuintet(x) && IsQuintet(y)
    ensures Byte1(0, 0, x) & 0xFE == 0 && Byte3(y, 0, 0) & 0x7F == 0
  {
  }

  lemma BoundaryMask(x: bv8)
    requires IsQuintet(x)
    ensures Byte2(0, x) != 0x89
  {
  }

  /** Decoding loses nothing: only zero quintets decode to zero bytes. */
  lemma DecodeKernel(d: Bytes)
    requires AllQuintets(d) && |d| % 8 == 0 && Zeros(Decode(d))
    ensures Zeros(d)
  {
    forall i | 0 <= i < |d| ensures d[i] == 0 {
      var h := i / 8;
      forall k | 0 <= k < 5 ensures ByteAt(d, h, k) == 0 {
        assert Decode(d)[5 * h + k] == ByteAt(d, h, k);
      }
      GroupKernel(d, h);
    }
  }

  lemma TripleEdges(d: Bytes, g: nat)
    requires |d| == TEXT_LENGTH && g < 7
    requires ZeroOutside(d, 8 * g + 3, 2) && AllQuintets(d)
    ensures Decode(d)[5 * g + 1] & 0xFE == 0 && Decode(d)[5 * g + 3] & 0x7F == 0
  {
    TripleMasks(d[8 * g + 3], d[8 * g + 4]);
    assert Decode(d)[5 * g + 1] == ByteAt(d, g, 1);
    assert Decode(d)[5 * g + 3] == ByteAt(d, g, 3);
  }

  lemma TriplePattern(d: Bytes, g: nat)
    requires |d| == TEXT_LENGTH && g < 7
    requires ZeroOutside(d, 8 * g + 3, 2) && AllQuintets(d)
    requires Syndrome(Decode(d)) == 0
    ensures Zeros(Decode(d))
  {
    PairReach(d, g, 3);
    TripleEdges(d, g);
    TripleWindow(Decode(d), 5 * g + 1);
  }

  lemma BoundaryPattern(d: Bytes, g: nat)
    requires |d| == TEXT_LENGTH && g < 7
    requires ZeroOutside(d, 8 * g + 4, 2) && AllQuintets(d)
    ensures Decode(d)[5 * g + 2] != 0x89
  {
    BoundaryMask(d[8 * g + 4]);
    assert Decode(d)[5 * g + 2] == ByteAt(d, g, 2);
  }

  /** A nonzero difference in two neighbouring quintets leaves a nonzero syndrome. */
  lemma PairPattern(d: Bytes, g: nat, r: nat)
    requires |d| == TEXT_LENGTH && r < 8 && 8 * g + r <= 54
    requires ZeroOutside(d, 8 * g + r, 2) && AllQuintets(d)
    requires Syndrome(Decode(d)) == 0
    ensures Zeros(d)
  {
    if r == 3 {
      TriplePattern(d, g);
    } else {
      PairReach(d, g, r);
      if r == 4 {
        BoundaryPattern(d, g);
      }
      PairWindow(Decode(d), 5 * g + FirstByte(r));
    }
    DecodeKernel(d);
  }

  lemma QuintetFacts(c: char, d: char)
    requires InAlphabet(c) && InAlphabet(d)
    ensures IsQuintet(XorByte(Quintet(c), Quintet(d)))
    ensures Quintet(c) == Quintet(d) <==> c == d
  {
  }

  /** Different texts have different quintets, and the difference stays where the texts differ. */
  lemma TypoDifference(key: string, typo: string, i: nat)
    requires AllInAlphabet(key) && AllInAlphabet(typo)
    requires AgreeOutside(key, typo, i, 2) && typo != key
    ensures var d := Difference(Quintets(key), Quintets(typo)); ZeroOutside(d, i, 2) && AllQuintets(d) && !Zeros(d)
  {
    var q, t := Quintets(key), Quintets(typo);
    DifferenceWindow(q, t, i, 2);
    ZeroDifference(q, t);
    forall j | 0 <= j < |key| ensures IsQuintet(XorByte(q[j], t[j])) && (q[j] == t[j] <==> key[j] == typo[j]) {
      QuintetFacts(key[j], typo[j]);
    }
    var j :| 0 <= j < |key| && key[j] != typo[j];
    assert q[j] != t[j];
  }

  /**
   A valid key in which up to two adjacent characters were changed, in any way and for
   whatever key type is expected, is rejected.
   */
  lemma AdjacentTypoRejected(key: string, typo: string, i: nat, version: bv8, other: bv8)
    requires StrKeyError(Text(key), version) == None
    requires i + 1 < TEXT_LENGTH && AgreeOutside(key, typo, i, 2) && typo != key
    ensures StrKeyError(Text(typo), other) != None
  {
    if AllInAlphabet(typo) {
      var q, t := Quintets(key), Quintets(typo);
      TypoDifference(key, typo, i);
      DecodeLinear(q, t);
      UndetectedIffInKernel(Decode(q), Decode(t));
      if Syndrome(Decode(Difference(q, t))) == 0 {
        PairPattern(Difference(q, t), i / 8, i % 8);
      }
    }
  }

  /** One mistyped character is always caught. */
  lemma SingleTypoRejected(key: string, i: nat, c: char, version: bv8)
    requires StrKeyError(Text(key), version) == None
    requires i < TEXT_LENGTH && key[i] != c
    ensures StrKeyError(Text(key[i := c]), version) != None
  {
    assert key[i := c][i] == c;
    AdjacentTypoRejected(key, key[i := c], if i == 55 then 54 else i, version, version);
  }

  /** Two different adjacent characters typed in the wrong order are always caught. */
  lemma SwapRejected(key: string, i: nat, version: bv8)
    requires StrKeyError(Text(key), version) == None
    requires i + 1 < TEXT_LENGTH && key[i] != key[i + 1]
    ensures StrKeyError(Text(key[i := key[i + 1]][i + 1 := key[i]]), version) != None
  {
    var typo := key[i := key[i + 1]][i + 1 := key[i]];
    assert typo[i] == key[i + 1];
    AdjacentTypoRejected(key, typo, i, version, version);
  }
}
