/**
 The encoder that StrKey validation is the inverse of.  It pins down exactly which texts are
 accepted: the encodings of 33 data bytes followed by their checksum, and nothing else.
 */
module StrKeyEncoding {
  import opened Common
  import opened StrKey
  import opened StrKeyText

  function LowByte(c: bv16): bv8 {
    (c & 0x00FF) as bv8
  }

  function HighByte(c: bv16): bv8 {
    (c >> 8) as bv8
  }

  lemma StoredBytes(c: bv16)
    ensures Stored(LowByte(c), HighByte(c)) == c
  {
  }

  /** Data bytes with their checksum, low byte first. */
  function WithChecksum(data: Bytes): (raw: Bytes)
    ensures |raw| == |data| + 2
  {
    data + [LowByte(Crc(data)), HighByte(Crc(data))]
  }

  // Five bytes make eight quintets.
  function Quintet0(b0: bv8): bv8 { b0 >> 3 }
  function Quintet1(b0: bv8, b1: bv8): bv8 { ((b0 & 0x07) << 2) | (b1 >> 6) }
  function Quintet2(b1: bv8): bv8 { (b1 >> 1) & 0x1F }
  function Quintet3(b1: bv8, b2: bv8): bv8 { ((b1 & 0x01) << 4) | (b2 >> 4) }
  function Quintet4(b2: bv8, b3: bv8): bv8 { ((b2 & 0x0F) << 1) | (b3 >> 7) }
  function Quintet5(b3: bv8): bv8 { (b3 >> 2) & 0x1F }
  function Quintet6(b3: bv8, b4: bv8): bv8 { ((b3 & 0x03) << 3) | (b4 >> 5) }
  function Quintet7(b4: bv8): bv8 { b4 & 0x1F }

  function QuintetAt(raw: Bytes, h: nat, k: nat): bv8
    requires 5 * h + 5 <= |raw| && k < 8
  {
    var g := 5 * h;
    match k
    case 0 => Quintet0(raw[g])
    case 1 => Quintet1(raw[g], raw[g + 1])
    case 2 => Quintet2(raw[g + 1])
    case 3 => Quintet3(raw[g + 1], raw[g + 2])
    case 4 => Quintet4(raw[g + 2], raw[g + 3])
    case 5 => Quintet5(raw[g + 3])
    case 6 => Quintet6(raw[g + 3], raw[g + 4])
    case _ => Quintet7(raw[g + 4])
  }

  lemma QuintetsAreSmall(b0: bv8, b1: bv8, b2: bv8, b3: bv8, b4: bv8)
    ensures IsQuintet(Quintet0(b0)) && IsQuintet(Quintet1(b0, b1)) && IsQuintet(Quintet2(b1)) && IsQuintet(Quintet3(b1, b2))
    ensures IsQuintet(Quintet4(b2, b3)) && IsQuintet(Quintet5(b3)) && IsQuintet(Quintet6(b3, b4)) && IsQuintet(Quintet7(b4))
  {
  }

  function CharOf(q: bv8): char {
    match q
    case 0 => 'A' case 1 => 'B' case 2 => 'C' case 3 => 'D'
    case 4 => 'E' case 5 => 'F' case 6 => 'G' case 7 => 'H'
    case 8 => 'I' case 9 => 'J' case 10 => 'K' case 11 => 'L'
    case 12 => 'M' case 13 => 'N' case 14 => 'O' case 15 => 'P'
    case 16 => 'Q' case 17 => 'R' case 18 => 'S' case 19 => 'T'
    case 20 => 'U' case 21 => 'V' case 22 => 'W' case 23 => 'X'
    case 24 => 'Y' case 25 => 'Z' case 26 => '2' case 27 => '3'
    case 28 => '4' case 29 => '5' case 30 => '6' case _ => '7'
  }

  lemma CharRoundTripLow(q: bv8)
    requires q & 0xF0 == 0
    ensures InAlphabet(CharOf(q)) && Quintet(CharOf(q)) == q
  {
    if q & 0x08 == 0 {
      assert q == 0 || q == 1 || q == 2 || q == 3 || q == 4 || q == 5 || q == 6 || q == 7;
    } else {
      assert q == 8 || q == 9 || q == 10 || q == 11 || q == 12 || q == 13 || q == 14 || q == 15;
    }
  }

  lemma CharRoundTripHigh(q: bv8)
    requires q & 0xF0 == 0x10
    ensures InAlphabet(CharOf(q)) && Quintet(CharOf(q)) == q
  {
    if q & 0x08 == 0 {
      assert q == 16 || q == 17 || q == 18 || q == 19 || q == 20 || q == 21 || q == 22 || q == 23;
    } else {
      assert q == 24 || q == 25 || q == 26 || q == 27 || q == 28 || q == 29 || q == 30 || q == 31;
    }
  }

  lemma CharRoundTrip(q: bv8)
    requires IsQuintet(q)
    ensures InAlphabet(CharOf(q)) && Quintet(CharOf(q)) == q
  {
    if q & 0x10 == 0 {
      CharRoundTripLow(q);
    } else {
      CharRoundTripHigh(q);
    }
  }

  function Encode(raw: Bytes): (text: string)
    ensures |text| == 8 * (|raw| / 5)
    ensures forall j :: 0 <= j < |text| ==> text[j] == CharOf(QuintetAt(raw, j / 8, j % 8))
  {
    seq(8 * (|raw| / 5), j requires 0 <= j < 8 * (|raw| / 5) => CharOf(QuintetAt(raw, j / 8, j % 8)))
  }

  lemma GroupRoundTrip(b0: bv8, b1: bv8, b2: bv8, b3: bv8, b4: bv8)
    ensures Byte0(Quintet0(b0), Quintet1(b0, b1)) == b0
    ensures Byte1(Quintet1(b0, b1), Quintet2(b1), Quintet3(b1, b2)) == b1
    ensures Byte2(Quintet3(b1, b2), Quintet4(b2, b3)) == b2
    ensures Byte3(Quintet4(b2, b3), Quintet5(b3), Quintet6(b3, b4)) == b3
    ensures Byte4(Quintet6(b3, b4), Quintet7(b4)) == b4
  {
  }

  lemma QuintetsOfEncoding(raw: Bytes)
    requires |raw| % 5 == 0
    ensures AllInAlphabet(Encode(raw))
    ensures var q := Quintets(Encode(raw)); forall j :: 0 <= j < |q| ==> q[j] == QuintetAt(raw, j / 8, j % 8)
  {
    var text := Encode(raw);
    forall j | 0 <= j < |text| ensures InAlphabet(text[j]) && Quintet(text[j]) == QuintetAt(raw, j / 8, j % 8) {
      var g := 5 * (j / 8);
      QuintetsAreSmall(raw[g], raw[g + 1], raw[g + 2], raw[g + 3], raw[g + 4]);
      CharRoundTrip(QuintetAt(raw, j / 8, j % 8));
    }
  }

  lemma ByteRoundTrip(raw: Bytes, q: Bytes, h: nat, k: nat)
    requires 5 * h + 5 <= |raw| && 8 * h + 8 <= |q| && k < 5
    requires forall i :: 0 <= i < 8 ==> q[8 * h + i] == QuintetAt(raw, h, i)
    ensures ByteAt(q, h, k) == raw[5 * h + k]
  {
    var g, e := 5 * h, 8 * h;
    assert q[e] == QuintetAt(raw, h, 0) && q[e + 1] == QuintetAt(raw, h, 1) && q[e + 2] == QuintetAt(raw, h, 2);
    assert q[e + 3] == QuintetAt(raw, h, 3) && q[e + 4] == QuintetAt(raw, h, 4) && q[e + 5] == QuintetAt(raw, h, 5);
    assert q[e + 6] == QuintetAt(raw, h, 6) && q[e + 7] == QuintetAt(raw, h, 7);
    GroupRoundTrip(raw[g], raw[g + 1], raw[g + 2], raw[g + 3], raw[g + 4]);
  }

  lemma EncodedGroup(raw: Bytes, h: nat)
    requires |raw| % 5 == 0 && 5 * h + 5 <= |raw| && AllInAlphabet(Encode(raw))
    ensures var q := Quintets(Encode(raw)); 8 * h + 8 <= |q| && forall i :: 0 <= i < 8 ==> q[8 * h + i] == QuintetAt(raw, h, i)
  {
    QuintetsOfEncoding(raw);
    var q := Quintets(Encode(raw));
    forall i | 0 <= i < 8 ensures q[8 * h + i] == QuintetAt(raw, h, i) {
      assert (8 * h + i) / 8 == h && (8 * h + i) % 8 == i;
    }
  }

  lemma DecodedFrom(raw: Bytes, q: Bytes, j: nat, h: nat, k: nat)
    requires j < |raw| && j == 5 * h + k && k < 5 && 5 * h + 5 <= |raw| && 8 * h + 8 <= |q|
    requires ByteAt(q, h, k) == raw[5 * h + k]
    ensures j < |Decode(q)| && Decode(q)[j] == raw[j]
  {
    assert j / 5 == h && j % 5 == k;
  }

  lemma DecodedByte(raw: Bytes, j: nat)
    requires |raw| % 5 == 0 && j < |raw| && AllInAlphabet(Encode(raw))
    ensures j < |Decode(Quintets(Encode(raw)))| && Decode(Quintets(Encode(raw)))[j] == raw[j]
  {
    var q, h, k := Quintets(Encode(raw)), j / 5, j % 5;
    EncodedGroup(raw, h);
    assert ByteAt(q, h, k) == raw[5 * h + k] by {
      ByteRoundTrip(raw, q, h, k);
    }
    DecodedFrom(raw, q, j, h, k);
  }

  /** Decoding undoes encoding. */
  lemma DecodeEncode(raw: Bytes)
    requires |raw| % 5 == 0
    ensures AllInAlphabet(Encode(raw)) && Decode(Quintets(Encode(raw))) == raw
  {
    QuintetsOfEncoding(raw);
    forall j | 0 <= j < |raw| ensures Decode(Quintets(Encode(raw)))[j] == raw[j] {
      DecodedByte(raw, j);
    }
  }

  lemma QuintetDifference(a: string, b: string)
    requires |a| == |b| && AllInAlphabet(a) && AllInAlphabet(b)
    ensures AllQuintets(Difference(Quintets(a), Quintets(b)))
    ensures Quintets(a) == Quintets(b) ==> a == b
  {
    var q, r := Quintets(a), Quintets(b);
    forall j | 0 <= j < |a| ensures IsQuintet(XorByte(q[j], r[j])) && (q[j] == r[j] ==> a[j] == b[j]) {
      QuintetFacts(a[j], b[j]);
    }
  }

  /** Different texts decode to different bytes. */
  lemma DecodeInjective(a: string, b: string)
    requires |a| == |b| && |a| % 8 == 0 && AllInAlphabet(a) && AllInAlphabet(b)
    requires Decode(Quintets(a)) == Decode(Quintets(b))
    ensures a == b
  {
    var q, r := Quintets(a), Quintets(b);
    QuintetDifference(a, b);
    DecodeLinear(q, r);
    ZeroDifference(Decode(q), Decode(r));
    DecodeKernel(Difference(q, r));
    ZeroDifference(q, r);
  }

  lemma ChecksumIsOk(data: Bytes)
    requires |data| == DATA_LENGTH
    ensures ChecksumOk(WithChecksum(data))
  {
    var raw := WithChecksum(data);
    assert raw[..DATA_LENGTH] == data;
    StoredBytes(Crc(data));
  }

  lemma OnlyOneChecksum(raw: Bytes)
    requires |raw| == RAW_LENGTH && ChecksumOk(raw)
    ensures raw == WithChecksum(raw[..DATA_LENGTH])
  {
    var other := WithChecksum(raw[..DATA_LENGTH]);
    ChecksumIsOk(raw[..DATA_LENGTH]);
    assert other[..DATA_LENGTH] == raw[..DATA_LENGTH];
    AdjacentBytesCorruption(raw, other, 33);
  }

  lemma AcceptedIsEncoding(text: string, raw: Bytes)
    requires |text| == TEXT_LENGTH && AllInAlphabet(text) && raw == Decode(Quintets(text))
    ensures text == Encode(raw)
  {
    DecodeEncode(raw);
    DecodeInjective(text, Encode(raw));
  }

  lemma EncodingIsAccepted(data: Bytes)
    requires |data| == DATA_LENGTH
    ensures StrKeyError(Text(Encode(WithChecksum(data))), data[0]) == None
  {
    DecodeEncode(WithChecksum(data));
    ChecksumIsOk(data);
  }

  /** Exactly the encodings of 33 data bytes with their checksum, starting with the version byte, are accepted. */
  lemma AcceptedIff(text: string, version: bv8)
    ensures StrKeyError(Text(text), version) == None
       <==> exists data: Bytes :: |data| == DATA_LENGTH && data[0] == version && text == Encode(WithChecksum(data))
  {
    if StrKeyError(Text(text), version) == None {
      var raw := Decode(Quintets(text));
      var data := raw[..DATA_LENGTH];
      OnlyOneChecksum(raw);
      AcceptedIsEncoding(text, raw);
      assert |data| == DATA_LENGTH && data[0] == version && text == Encode(WithChecksum(data));
    }
    if data: Bytes :| |data| == DATA_LENGTH && data[0] == version && text == Encode(WithChecksum(data)) {
      EncodingIsAccepted(data);
    }
  }

  // ---------- Base32 by its definition ----------

  lemma FirstLetters()
    ensures Quintet('A') == 0 && Quintet('B') == 1 && Quintet('C') == 2 && Quintet('D') == 3
    ensures Quintet('E') == 4 && Quintet('F') == 5 && Quintet('G') == 6 && Quintet('H') == 7
  {
  }

  lemma SecondLetters()
    ensures Quintet('I') == 8 && Quintet('J') == 9 && Quintet('K') == 10 && Quintet('L') == 11
    ensures Quintet('M') == 12 && Quintet('N') == 13 && Quintet('O') == 14 && Quintet('P') == 15
  {
  }

  lemma ThirdLetters()
    ensures Quintet('Q') == 16 && Quintet('R') == 17 && Quintet('S') == 18 && Quintet('T') == 19
    ensures Quintet('U') == 20 && Quintet('V') == 21 && Quintet('W') == 22 && Quintet('X') == 23
  {
  }

  lemma LastCharacters()
    ensures Quintet('Y') == 24 && Quintet('Z') == 25 && Quintet('2') == 26 && Quintet('3') == 27
    ensures Quintet('4') == 28 && Quintet('5') == 29 && Quintet('6') == 30 && Quintet('7') == 31
  {
  }

  /** The base32 alphabet in order: A to Z stand for 0 to 25, and 2 to 7 for 26 to 31. */
  lemma AlphabetInOrder()
    ensures Quintet('A') == 0 && Quintet('B') == 1 && Quintet('C') == 2 && Quintet('D') == 3
    ensures Quintet('E') == 4 && Quintet('F') == 5 && Quintet('G') == 6 && Quintet('H') == 7
    ensures Quintet('I') == 8 && Quintet('J') == 9 && Quintet('K') == 10 && Quintet('L') == 11
    ensures Quintet('M') == 12 && Quintet('N') == 13 && Quintet('O') == 14 && Quintet('P') == 15
    ensures Quintet('Q') == 16 && Quintet('R') == 17 && Quintet('S') == 18 && Quintet('T') == 19
    ensures Quintet('U') == 20 && Quintet('V') == 21 && Quintet('W') == 22 && Quintet('X') == 23
    ensures Quintet('Y') == 24 && Quintet('Z') == 25 && Quintet('2') == 26 && Quintet('3') == 27
    ensures Quintet('4') == 28 && Quintet('5') == 29 && Quintet('6') == 30 && Quintet('7') == 31
  {
    FirstLetters();
    SecondLetters();
    ThirdLetters();
    LastCharacters();
  }

  /** Bit j of a byte, the most significant first. */
  predicate BitOfByte(b: bv8, j: nat)
    requires j < 8
  {
    match j
    case 0 => b & 0x80 != 0 case 1 => b & 0x40 != 0 case 2 => b & 0x20 != 0 case 3 => b & 0x10 != 0
    case 4 => b & 0x08 != 0 case 5 => b & 0x04 != 0 case 6 => b & 0x02 != 0 case _ => b & 0x01 != 0
  }

  /** Bit j of a quintet, the most significant first. */
  predicate BitOfQuintet(q: bv8, j: nat)
    requires j < 5
  {
    match j
    case 0 => q & 0x10 != 0 case 1 => q & 0x08 != 0 case 2 => q & 0x04 != 0
    case 3 => q & 0x02 != 0 case _ => q & 0x01 != 0
  }

  lemma BitsOfByte0(a: bv8, b: bv8, j: nat)
    requires IsQuintet(a) && IsQuintet(b) && j < 8
    ensures BitOfByte(Byte0(a, b), j) == if j < 5 then BitOfQuintet(a, j) else BitOfQuintet(b, j - 5)
  {
  }

  lemma BitsOfByte1(b: bv8, c: bv8, d: bv8, j: nat)
    requires IsQuintet(b) && IsQuintet(c) && IsQuintet(d) && j < 8
    ensures BitOfByte(Byte1(b, c, d), j)
         == if j < 2 then BitOfQuintet(b, j + 3) else if j < 7 then BitOfQuintet(c, j - 2) else BitOfQuintet(d, j - 7)
  {
  }

  lemma BitsOfByte2(d: bv8, e: bv8, j: nat)
    requires IsQuintet(d) && IsQuintet(e) && j < 8
    ensures BitOfByte(Byte2(d, e), j) == if j < 4 then BitOfQuintet(d, j + 1) else BitOfQuintet(e, j - 4)
  {
  }

  lemma BitsOfByte3(e: bv8, f: bv8, g: bv8, j: nat)
    requires IsQuintet(e) && IsQuintet(f) && IsQuintet(g) && j < 8
    ensures BitOfByte(Byte3(e, f, g), j)
         == if j < 1 then BitOfQuintet(e, j + 4) else if j < 6 then BitOfQuintet(f, j - 1) else BitOfQuintet(g, j - 6)
  {
  }

  lemma BitsOfByte4(g: bv8, h: bv8, j: nat)
    requires IsQuintet(g) && IsQuintet(h) && j < 8
    ensures BitOfByte(Byte4(g, h), j) == if j < 3 then BitOfQuintet(g, j + 2) else BitOfQuintet(h, j - 3)
  {
  }

  /** Bit 8k + j of a group of forty bits is bit (8k + j) % 5 of quintet (8k + j) / 5. */
  lemma BitsOfGroup(q: Bytes, h: nat, k: nat, j: nat)
    requires AllQuintets(q) && 8 * h + 8 <= |q| && k < 5 && j < 8
    ensures BitOfByte(ByteAt(q, h, k), j) == BitOfQuintet(q[8 * h + (8 * k + j) / 5], (8 * k + j) % 5)
  {
    var g := 8 * h;
    match k
    case 0 => BitsOfByte0(q[g], q[g + 1], j);
    case 1 => BitsOfByte1(q[g + 1], q[g + 2], q[g + 3], j);
    case 2 => BitsOfByte2(q[g + 3], q[g + 4], j);
    case 3 => BitsOfByte3(q[g + 4], q[g + 5], q[g + 6], j);
    case _ => BitsOfByte4(q[g + 6], q[g + 7], j);
  }

  lemma DecodedAt(q: Bytes, h: nat, k: nat)
    requires 8 * h + 8 <= |q| && k < 5
    ensures 5 * h + k < |Decode(q)| && Decode(q)[5 * h + k] == ByteAt(q, h, k)
  {
    var j := 5 * h + k;
    assert j / 5 == h && j % 5 == k;
  }

  /** Decoding regroups the bits: bit r of a group of forty is the same among its five bytes and its eight quintets. */
  lemma DecodeKeepsBits(q: Bytes, h: nat, r: nat)
    requires AllQuintets(q) && 8 * h + 8 <= |q| && r < 40
    ensures 5 * h + r / 8 < |Decode(q)|
    ensures BitOfByte(Decode(q)[5 * h + r / 8], r % 8) == BitOfQuintet(q[8 * h + r / 5], r % 5)
  {
    DecodedAt(q, h, r / 8);
    BitsOfGroup(q, h, r / 8, r % 8);
  }
}
