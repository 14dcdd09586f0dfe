/** Z85 (RFC 32/Z85): four bytes in five printable characters. */
module Z85 {
  import opened Bytes
  import opened Sequences

  const MAX_UINT32: nat := 0xFFFF_FFFF

  /** The alphabet: digits, lower case, upper case, then twenty-three signs. */
  function Symbol(v: nat): (c: byte)
    requires v < 85
  {
    if v < 10 then 48 + v
    else if v < 36 then 97 + (v - 10)
    else if v < 62 then 65 + (v - 36)
    else match v
      case 62 => 46 case 63 => 45 case 64 => 58 case 65 => 43 case 66 => 61 case 67 => 94 case 68 => 33
      case 69 => 47 case 70 => 42 case 71 => 63 case 72 => 38 case 73 => 60 case 74 => 62 case 75 => 40
      case 76 => 41 case 77 => 91 case 78 => 93 case 79 => 123 case 80 => 125 case 81 => 64 case 82 => 37
      case 83 => 36 case _ => 35
  }

  /** The decoder table: the place of a character in the alphabet, or 255. */
  function Digit(c: byte): (d: byte)
    ensures d == 255 || (d < 85 && Symbol(d) == c)
  {
    if 48 <= c <= 57 then c - 48
    else if 97 <= c <= 122 then c - 87
    else if 65 <= c <= 90 then c - 29
    else match c
      case 33 => 68 case 35 => 84 case 36 => 83 case 37 => 82 case 38 => 72 case 40 => 75 case 41 => 76
      case 42 => 70 case 43 => 65 case 45 => 63 case 46 => 62 case 47 => 69 case 58 => 64 case 60 => 73
      case 61 => 66 case 62 => 74 case 63 => 71 case 64 => 81 case 91 => 77 case 93 => 78 case 94 => 67
      case 123 => 79 case 125 => 80 case _ => 255
  }

  lemma DigitSymbol(v: nat)
    requires v < 85
    ensures Digit(Symbol(v)) == v
  {
  }

  const SIGNS: string := ".-:+=^!/*?&<>()[]{}@%$#"

  /** The alphabet of RFC 32, in its order. */
  const ALPHABET: string := "0123456789" + "abcdefghijklmnopqrstuvwxyz" + "ABCDEFGHIJKLMNOPQRSTUVWXYZ" + SIGNS

  lemma AlphabetDigits(v: nat)
    requires v < 10
    ensures |ALPHABET| == 85 && ALPHABET[v] as int == 48 + v
  {
    assert ALPHABET[..10] == "0123456789";
    assert ALPHABET[v] == ALPHABET[..10][v];
  }

  lemma AlphabetLower(v: nat)
    requires 10 <= v < 36
    ensures |ALPHABET| == 85 && ALPHABET[v] as int == 97 + (v - 10)
  {
    assert ALPHABET[10..36] == "abcdefghijklmnopqrstuvwxyz";
    assert ALPHABET[v] == ALPHABET[10..36][v - 10];
  }

  lemma AlphabetUpper(v: nat)
    requires 36 <= v < 62
    ensures |ALPHABET| == 85 && ALPHABET[v] as int == 65 + (v - 36)
  {
    assert ALPHABET[36..62] == "ABCDEFGHIJKLMNOPQRSTUVWXYZ";
    assert ALPHABET[v] == ALPHABET[36..62][v - 36];
  }

  lemma SignAt(v: nat)
    requires 62 <= v < 85
    ensures |SIGNS| == 23 && SIGNS[v - 62] as int == Symbol(v)
  {}

  lemma AlphabetSigns(v: nat)
    requires 62 <= v < 85
    ensures |ALPHABET| == 85 && ALPHABET[v] as int == Symbol(v)
  {
    SignAt(v);
    assert ALPHABET[62..] == SIGNS;
    assert ALPHABET[v] == ALPHABET[62..][v - 62];
  }

  lemma SymbolInAlphabet(v: nat)
    requires v < 85
    ensures |ALPHABET| == 85 && Symbol(v) == ALPHABET[v] as int
  {
    if v < 10 {
      AlphabetDigits(v);
    } else if v < 36 {
      AlphabetLower(v);
    } else if v < 62 {
      AlphabetUpper(v);
    } else {
      AlphabetSigns(v);
    }
  }

  /** The 85 characters, one by one, and their places; every other byte is refused. */
  lemma AlphabetExact(v: nat, c: byte)
    requires v < 85
    ensures |ALPHABET| == 85 && Symbol(v) == ALPHABET[v] as int && Digit(Symbol(v)) == v
    ensures Digit(c) == 255 <==> forall k :: 0 <= k < 85 ==> ALPHABET[k] as int != c
  {
    SymbolInAlphabet(v);
    DigitSymbol(v);
    forall k: nat | k < 85 ensures ALPHABET[k] as int == Symbol(k) && Digit(Symbol(k)) == k {
      SymbolInAlphabet(k);
      DigitSymbol(k);
    }
    if Digit(c) != 255 { assert Symbol(Digit(c)) == c; }
  }

  // ---------------------------------------------------------------- one block

  /** The 32-bit number four bytes stand for, and the four low bytes of a number. */
  function Number(b: Bytes): (v: nat)
    requires |b| == 4
    ensures v <= MAX_UINT32
  {
    Powers();
    Value(b)
  }

  function Octets(v: nat): (b: Bytes)
    ensures |b| == 4
  {
    BigEndian(v, 4)
  }

  function FromDigits(d: seq<nat>): nat
    requires |d| == 5
  {
    (((d[0] * 85 + d[1]) * 85 + d[2]) * 85 + d[3]) * 85 + d[4]
  }

  function ToDigits(v: nat): (d: seq<nat>)
    ensures |d| == 5 && forall i :: 0 <= i < 5 ==> d[i] < 85
  {
    [v / 85 / 85 / 85 / 85 % 85, v / 85 / 85 / 85 % 85, v / 85 / 85 % 85, v / 85 % 85, v % 85]
  }

  function EncodeBlock(b: Bytes): (s: Bytes)
    requires |b| == 4
    ensures |s| == 5
  {
    var d := ToDigits(Number(b));
    [Symbol(d[0]), Symbol(d[1]), Symbol(d[2]), Symbol(d[3]), Symbol(d[4])]
  }

  predicate ValidBlock(s: Bytes) {
    |s| == 5 && forall i :: 0 <= i < 5 ==> Digit(s[i]) != 255
  }

  function DigitsOf(s: Bytes): (d: seq<nat>)
    requires ValidBlock(s)
    ensures |d| == 5 && forall i :: 0 <= i < 5 ==> d[i] < 85 && Symbol(d[i]) == s[i]
  {
    [Digit(s[0]), Digit(s[1]), Digit(s[2]), Digit(s[3]), Digit(s[4])]
  }

  /** The value of the first `i` characters. */
  function Horner(s: Bytes, i: nat): nat
    requires i <= |s|
  {
    if i == 0 then 0 else Horner(s, i - 1) * 85 + Digit(s[i - 1])
  }

  function BlockValue(s: Bytes): nat
    requires ValidBlock(s)
  {
    Horner(s, 5)
  }

  lemma BlockValueIs(s: Bytes)
    requires ValidBlock(s)
    ensures BlockValue(s) == FromDigits(DigitsOf(s))
  {
    assert Horner(s, 1) == Digit(s[0]);
    assert Horner(s, 2) == Horner(s, 1) * 85 + Digit(s[1]);
    assert Horner(s, 3) == Horner(s, 2) * 85 + Digit(s[2]);
    assert Horner(s, 4) == Horner(s, 3) * 85 + Digit(s[3]);
  }

  function DecodeBlock(s: Bytes): (r: Option<Bytes>)
    requires |s| == 5
    ensures r.Some? ==> |r.value| == 4
  {
    if !ValidBlock(s) || BlockValue(s) > MAX_UINT32 then None else Some(Octets(BlockValue(s)))
  }

  lemma DivMod(x: nat, d: nat)
    requires d < 85
    ensures (x * 85 + d) / 85 == x && (x * 85 + d) % 85 == d
  {
  }

  lemma ToDigitsFromDigits(d: seq<nat>)
    requires |d| == 5 && forall i :: 0 <= i < 5 ==> d[i] < 85
    ensures ToDigits(FromDigits(d)) == d
  {
    var a := d[0] * 85 + d[1];
    var b := a * 85 + d[2];
    var c := b * 85 + d[3];
    DivMod(d[0], d[1]);
    DivMod(a, d[2]);
    DivMod(b, d[3]);
    DivMod(c, d[4]);
    assert FromDigits(d) == c * 85 + d[4];
  }

  lemma DivideBy85(v: nat)
    ensures v == v / 85 * 85 + v % 85 && v / 85 <= v
  {}

  lemma FromDigitsToDigits(v: nat)
    requires v <= MAX_UINT32
    ensures FromDigits(ToDigits(v)) == v
  {
    var a := v / 85;
    var b := a / 85;
    var c := b / 85;
    DivideBy85(v);
    DivideBy85(a);
    DivideBy85(b);
    DivideBy85(c);
  }

  lemma OctetsNumber(b: Bytes)
    requires |b| == 4
    ensures Octets(Number(b)) == b
  {
    BigEndianValue(b);
  }

  lemma NumberOctets(v: nat)
    requires v <= MAX_UINT32
    ensures Number(Octets(v)) == v
  {
    Powers();
    ValueBigEndian(v, 4);
  }

  /** The shifts that take a number apart. */
  lemma OctetsAre(v: nat)
    ensures Octets(v) == [v / 256 / 256 / 256 % 256, v / 256 / 256 % 256, v / 256 % 256, v % 256]
  {
    var a, b, c := v / 256, v / 256 / 256, v / 256 / 256 / 256;
    assert BigEndian(c, 1) == [c % 256] by { assert BigEndian(c / 256, 0) == []; }
    assert BigEndian(b, 2) == [c % 256, b % 256];
    assert BigEndian(a, 3) == [c % 256, b % 256, a % 256];
  }

  lemma BlockThere(b: Bytes)
    requires |b| == 4
    ensures DecodeBlock(EncodeBlock(b)) == Some(b)
  {
    var d := ToDigits(Number(b));
    DigitSymbol(d[0]);
    DigitSymbol(d[1]);
    DigitSymbol(d[2]);
    DigitSymbol(d[3]);
    DigitSymbol(d[4]);
    var s := EncodeBlock(b);
    assert DigitsOf(s) == d;
    BlockValueIs(s);
    FromDigitsToDigits(Number(b));
    OctetsNumber(b);
  }

  lemma BlockFits(s: Bytes)
    requires ValidBlock(s) && BlockValue(s) <= MAX_UINT32
    ensures EncodeBlock(Octets(BlockValue(s))) == s
  {
    BlockValueIs(s);
    ToDigitsFromDigits(DigitsOf(s));
    NumberOctets(BlockValue(s));
  }

  /**
   The overflow check is what makes accepted blocks canonical: five valid characters come back
   from the four bytes they leave behind exactly when their value fits in 32 bits.
   */
  lemma OverflowCheckExact(s: Bytes)
    requires ValidBlock(s)
    ensures EncodeBlock(Octets(BlockValue(s))) == s <==> BlockValue(s) <= MAX_UINT32
  {
    if BlockValue(s) <= MAX_UINT32 {
      BlockFits(s);
    } else {
      BlockThere(Octets(BlockValue(s)));
    }
  }

  lemma BlockBack(s: Bytes)
    requires |s| == 5 && DecodeBlock(s).Some?
    ensures EncodeBlock(DecodeBlock(s).value) == s
  {
    OverflowCheckExact(s);
  }

  // ---------------------------------------------------------------- whole strings

  function Encode(b: Bytes): (s: Bytes)
    requires |b| % 4 == 0
    ensures 4 * |s| == 5 * |b| && |s| % 5 == 0
  {
    if b == [] then [] else EncodeBlock(b[..4]) + Encode(b[4..])
  }

  function Decode(s: Bytes): (r: Option<Bytes>)
    requires |s| % 5 == 0
    ensures r.Some? ==> 5 * |r.value| == 4 * |s| && |r.value| % 4 == 0
  {
    if s == [] then Some([]) else
    match (DecodeBlock(s[..5]), Decode(s[5..]))
    case (Some(b), Some(bs)) => Some(b + bs)
    case _ => None
  }

  lemma {:induction false} DecodeEncode(b: Bytes)
    requires |b| % 4 == 0
    ensures Decode(Encode(b)) == Some(b)
  {
    if b != [] {
      var s := Encode(b);
      assert s[..5] == EncodeBlock(b[..4]) && s[5..] == Encode(b[4..]);
      BlockThere(b[..4]);
      DecodeEncode(b[4..]);
      assert b[..4] + b[4..] == b;
    }
  }

  lemma {:induction false} EncodeDecode(s: Bytes)
    requires |s| % 5 == 0 && Decode(s).Some?
    ensures Encode(Decode(s).value) == s
  {
    if s != [] {
      var b, bs := DecodeBlock(s[..5]).value, Decode(s[5..]).value;
      assert (b + bs)[..4] == b && (b + bs)[4..] == bs;
      BlockBack(s[..5]);
      EncodeDecode(s[5..]);
      assert s[..5] + s[5..] == s;
    }
  }

  /** One block of the test vector: the number, its digits, their characters. */
  lemma VectorBlock(b: Bytes, v: nat, d: seq<nat>)
    requires |b| == 4 && v == Weigh4(b[0], b[1], b[2], b[3]) <= MAX_UINT32
    requires |d| == 5 && (forall i :: 0 <= i < 5 ==> d[i] < 85) && v == FromDigits(d)
    ensures EncodeBlock(b) == [Symbol(d[0]), Symbol(d[1]), Symbol(d[2]), Symbol(d[3]), Symbol(d[4])]
  {
    ValueOfFour(b);
    ToDigitsFromDigits(d);
  }

  lemma TwoBlocks(a: Bytes, b: Bytes)
    requires |a| == 4 && |b| == 4
    ensures Encode(a + b) == EncodeBlock(a) + EncodeBlock(b)
  {
    var s := a + b;
    assert s[..4] == a && s[4..] == b && b[..4] == b && b[4..] == [];
    assert Encode(b) == EncodeBlock(b) + Encode([]);
    assert EncodeBlock(b) + [] == EncodeBlock(b);
  }

  lemma VectorBlocks()
    ensures EncodeBlock([0x86, 0x4F, 0xD2, 0x6F]) == [72, 101, 108, 108, 111]
    ensures EncodeBlock([0xB5, 0x59, 0xF7, 0x5B]) == [87, 111, 114, 108, 100]
  {
    VectorBlock([0x86, 0x4F, 0xD2, 0x6F], 0x864F_D26F, [43, 14, 21, 21, 24]);
    VectorBlock([0xB5, 0x59, 0xF7, 0x5B], 0xB559_F75B, [58, 24, 27, 21, 13]);
  }

  /** The test vector of RFC 32: eight bytes that read "HelloWorld". */
  lemma TestVector()
    ensures Encode([0x86, 0x4F, 0xD2, 0x6F, 0xB5, 0x59, 0xF7, 0x5B])
         == [72, 101, 108, 108, 111, 87, 111, 114, 108, 100]
    ensures Decode([72, 101, 108, 108, 111, 87, 111, 114, 108, 100])
         == Some([0x86, 0x4F, 0xD2, 0x6F, 0xB5, 0x59, 0xF7, 0x5B])
  {
    var a: Bytes, b: Bytes := [0x86, 0x4F, 0xD2, 0x6F], [0xB5, 0x59, 0xF7, 0x5B];
    VectorBlocks();
    TwoBlocks(a, b);
    assert a + b == [0x86, 0x4F, 0xD2, 0x6F, 0xB5, 0x59, 0xF7, 0x5B];
    DecodeEncode(a + b);
  }

  predicate EncodesTo(b: Bytes, s: Bytes) {
    |b| % 4 == 0 && Encode(b) == s
  }

  /** `Decode` accepts exactly the strings that `Encode` produces. */
  lemma AcceptsExactlyEncodings(s: Bytes)
    requires |s| % 5 == 0
    ensures Decode(s).Some? <==> exists b :: EncodesTo(b, s)
  {
    if Decode(s).Some? {
      EncodeDecode(s);
      assert EncodesTo(Decode(s).value, s);
    }
    if b :| EncodesTo(b, s) { DecodeEncode(b); }
  }

  predicate ValidChars(s: Bytes) {
    forall i :: 0 <= i < |s| ==> Digit(s[i]) != 255
  }

  /** `ValidateString`: the length and the characters, but not the value of a block. */
  method ValidateString(s: Bytes) returns (ok: bool)
    ensures ok <==> |s| % 5 == 0 && ValidChars(s)
  {
    if |s| % 5 != 0 { return false; }
    for i := 0 to |s|
      invariant ValidChars(s[..i])
    {
      if s[i] >= 128 || Digit(s[i]) == 255 { return false; }
    }
    assert s[..|s|] == s;
    ok := true;
  }

  /** The blocks of a valid string stay within 32 bits. */
  predicate NoOverflow(s: Bytes)
    requires |s| % 5 == 0 && ValidChars(s)
  {
    if s == [] then true else
    assert ValidBlock(s[..5]);
    BlockValue(s[..5]) <= MAX_UINT32 && NoOverflow(s[5..])
  }

  /** A validated string decodes exactly when none of its blocks overflows. */
  lemma {:induction false} ValidatedDecodes(s: Bytes)
    requires |s| % 5 == 0
    ensures Decode(s).Some? <==> ValidChars(s) && NoOverflow(s)
  {
    if s != [] {
      ValidatedDecodes(s[5..]);
      assert ValidChars(s) <==> ValidBlock(s[..5]) && ValidChars(s[5..]) by {
        assert forall i :: 0 <= i < 5 ==> s[..5][i] == s[i];
        assert forall i :: 0 <= i < |s| - 5 ==> s[5..][i] == s[i + 5];
        assert forall i :: 5 <= i < |s| ==> s[i] == s[5..][i - 5];
      }
    }
  }

  /** Five times the last sign of the alphabet is valid and does not decode. */
  lemma ValidButUndecodable()
    ensures var s: Bytes := [35, 35, 35, 35, 35]; ValidChars(s) && Decode(s) == None
  {
    var s: Bytes := [35, 35, 35, 35, 35];
    assert s[..5] == s;
    BlockValueIs(s);
    assert BlockValue(s) == 4437053124;
  }

  // ---------------------------------------------------------------- into a buffer

  datatype Outcome = Done(written: nat) | BadLength | BufferTooSmall | BadCharacter | BlockOverflow

  lemma EncodeStep(done: Bytes, b: Bytes, i: nat, k: nat, n: nat)
    requires |b| == 4 * n && i == 4 * k && k < n
    ensures done + Encode(b[i..]) == (done + EncodeBlock(b[i..i + 4])) + Encode(b[i + 4..])
  {
    assert b[i..][..4] == b[i..i + 4] && b[i..][4..] == b[i + 4..];
  }

  /** Writes the five characters of one block, last digit first. */
  method PutBlock(dst: array<byte>, di: nat, b: Bytes)
    requires |b| == 4 && di + 5 <= dst.Length
    modifies dst
    ensures dst[..di + 5] == old(dst[..di]) + EncodeBlock(b)
    ensures dst[di + 5..] == old(dst[di + 5..])
  {
    var value := Number(b);
    dst[di + 4] := Symbol(value % 85);
    value := value / 85;
    dst[di + 3] := Symbol(value % 85);
    value := value / 85;
    dst[di + 2] := Symbol(value % 85);
    value := value / 85;
    dst[di + 1] := Symbol(value % 85);
    value := value / 85;
    dst[di] := Symbol(value % 85);
  }

  /** The first `k` of `n` blocks encode to `done`. */
  ghost predicate Encoded(done: Bytes, src: Bytes, k: nat, n: nat) {
    |src| == 4 * n && k <= n && done + Encode(src[4 * k..]) == Encode(src)
  }

  lemma EncodedNone(done: Bytes, src: Bytes, n: nat)
    requires |src| == 4 * n && done == []
    ensures Encoded(done, src, 0, n)
  {
    assert src[0..] == src && [] + Encode(src) == Encode(src);
  }

  lemma EncodedAll(done: Bytes, src: Bytes, n: nat)
    requires Encoded(done, src, n, n)
    ensures done == Encode(src)
  {
    assert Encode(src[4 * n..]) == [] && done + [] == done;
  }

  lemma SameTail(a: Bytes, b: Bytes, from: nat, to: nat)
    requires from <= to <= |a| && |a| == |b| && a[from..] == b[from..]
    ensures a[to..] == b[to..]
  {
    assert a[to..] == a[from..][to - from..] && b[to..] == b[from..][to - from..];
  }

  /** Encodes the block at `si` behind the `di` bytes written so far. */
  method PutNext(dst: array<byte>, di: nat, src: Bytes, si: nat, ghost k: nat, ghost n: nat)
    requires si == 4 * k && di == 5 * k && k < n && 5 * n <= dst.Length && Encoded(dst[..di], src, k, n)
    modifies dst
    ensures Encoded(dst[..di + 5], src, k + 1, n)
    ensures dst[5 * n..] == old(dst[5 * n..])
  {
    ghost var before := dst[..];
    EncodeStep(dst[..di], src, si, k, n);
    PutBlock(dst, di, src[si..si + 4]);
    SameTail(dst[..], before, di + 5, 5 * n);
  }

  /** Encodes `n` blocks to the front of `dst`. */
  method EncodeBlocks(dst: array<byte>, src: Bytes, n: nat)
    requires |src| == 4 * n && 5 * n <= dst.Length
    modifies dst
    ensures dst[..5 * n] == Encode(src) && dst[5 * n..] == old(dst[5 * n..])
  {
    var di, si := 0, 0;
    ghost var k := 0;
    EncodedNone(dst[..di], src, n);
    while si < |src|
      invariant si == 4 * k && di == 5 * k && k <= n
      invariant Encoded(dst[..di], src, k, n)
      invariant dst[5 * n..] == old(dst[5 * n..])
    {
      PutNext(dst, di, src, si, k, n);
      di, si, k := di + 5, si + 4, k + 1;
    }
    EncodedAll(dst[..di], src, n);
  }

  /** Fills the front of `dst` with the encoding and leaves the rest alone. */
  method EncodeInto(dst: array<byte>, src: Bytes) returns (r: Outcome)
    modifies dst
    ensures r == if |src| % 4 != 0 then BadLength else if dst.Length < |src| * 5 / 4 then BufferTooSmall
                 else Done(|src| * 5 / 4)
    ensures r.Done? ==> dst[..r.written] == Encode(src) && dst[r.written..] == old(dst[r.written..])
    ensures !r.Done? ==> dst[..] == old(dst[..])
  {
    if |src| % 4 != 0 { return BadLength; }
    if dst.Length < |src| * 5 / 4 { return BufferTooSmall; }
    EncodeBlocks(dst, src, |src| / 4);
    r := Done(|src| * 5 / 4);
  }

  lemma DecodeStep(done: Bytes, s: Bytes, i: nat, k: nat, n: nat)
    requires |s| == 5 * n && i == 5 * k && k < n
    ensures Decode(s[i..]).Some? <==> DecodeBlock(s[i..i + 5]).Some? && Decode(s[i + 5..]).Some?
    ensures Decode(s[i..]).Some? ==>
      done + Decode(s[i..]).value == (done + DecodeBlock(s[i..i + 5]).value) + Decode(s[i + 5..]).value
  {
    assert s[i..][..5] == s[i..i + 5] && s[i..][5..] == s[i + 5..];
  }

  /** Reads the five characters of one block. */
  method GetBlock(s: Bytes) returns (r: Outcome, value: nat)
    requires |s| == 5
    ensures r.Done? || r == BadCharacter || r == BlockOverflow
    ensures r.Done? <==> DecodeBlock(s).Some?
    ensures r.Done? ==> Octets(value) == DecodeBlock(s).value
    ensures r == BadCharacter <==> !ValidBlock(s)
  {
    value := 0;
    for i := 0 to 5
      invariant forall k :: 0 <= k < i ==> Digit(s[k]) != 255
      invariant value == Horner(s, i)
    {
      if s[i] >= 128 { return BadCharacter, value; }
      var d := Digit(s[i]);
      if d == 255 { return BadCharacter, value; }
      value := value * 85 + d;
    }
    r := if value > MAX_UINT32 then BlockOverflow else Done(4);
  }

  /** Writes the four bytes of one block. */
  method PutOctets(dst: array<byte>, di: nat, value: nat)
    requires di + 4 <= dst.Length
    modifies dst
    ensures dst[..di + 4] == old(dst[..di]) + Octets(value)
    ensures dst[di + 4..] == old(dst[di + 4..])
  {
    OctetsAre(value);
    dst[di] := value / 256 / 256 / 256 % 256;
    dst[di + 1] := value / 256 / 256 % 256;
    dst[di + 2] := value / 256 % 256;
    dst[di + 3] := value % 256;
  }

  /** The characters of block `k`. */
  function BlockAt(s: Bytes, k: nat): (b: Bytes)
    requires 5 * k + 5 <= |s|
    ensures |b| == 5
  {
    s[5 * k..5 * k + 5]
  }

  ghost predicate GoodBlocks(s: Bytes, k: nat) {
    forall j: nat :: j < k && 5 * j + 5 <= |s| ==> DecodeBlock(BlockAt(s, j)).Some?
  }

  /** Block `k` is the first that does not decode. */
  ghost predicate FirstBad(s: Bytes, k: nat) {
    5 * k + 5 <= |s| && GoodBlocks(s, k) && DecodeBlock(BlockAt(s, k)).None?
  }

  lemma GoodNext(s: Bytes, k: nat)
    requires 5 * k + 5 <= |s| && GoodBlocks(s, k) && DecodeBlock(BlockAt(s, k)).Some?
    ensures GoodBlocks(s, k + 1)
  {}

  lemma FirstBadUnique(s: Bytes, j: nat, k: nat)
    requires FirstBad(s, j) && FirstBad(s, k)
    ensures j == k
  {}

  /** The first bad block is the only one there is, and a string without one has none. */
  lemma BadDecides(s: Bytes, r: Outcome, bad: nat)
    requires |s| % 5 == 0
    requires r.Done? ==> GoodBlocks(s, |s| / 5)
    requires !r.Done? ==> FirstBad(s, bad) && r == if ValidBlock(BlockAt(s, bad)) then BlockOverflow else BadCharacter
    ensures r == BadCharacter <==> exists k: nat :: FirstBad(s, k) && !ValidBlock(BlockAt(s, k))
    ensures r == BlockOverflow <==> exists k: nat :: FirstBad(s, k) && ValidBlock(BlockAt(s, k))
  {
    forall k: nat | FirstBad(s, k) ensures !r.Done? && k == bad {
      assert k < |s| / 5;
      if !r.Done? { FirstBadUnique(s, k, bad); }
    }
  }

  /** The first `k` of `n` blocks are good and decode to `done`. */
  ghost predicate Decoded(done: Bytes, src: Bytes, k: nat, n: nat) {
    && |src| == 5 * n && k <= n && GoodBlocks(src, k)
    && (Decode(src).Some? <==> Decode(src[5 * k..]).Some?)
    && (Decode(src).Some? ==> done + Decode(src[5 * k..]).value == Decode(src).value)
  }

  lemma DecodedNext(done: Bytes, src: Bytes, k: nat, n: nat)
    requires Decoded(done, src, k, n) && k < n
    ensures var b := DecodeBlock(BlockAt(src, k));
            if b.Some? then Decoded(done + b.value, src, k + 1, n) else FirstBad(src, k) && Decode(src).None?
  {
    DecodeStep(done, src, 5 * k, k, n);
    if DecodeBlock(BlockAt(src, k)).Some? { GoodNext(src, k); }
  }

  lemma DecodedAll(done: Bytes, src: Bytes, n: nat)
    requires Decoded(done, src, n, n)
    ensures Decode(src) == Some(done)
  {
    assert src[5 * n..] == [] && done + [] == done;
  }

  /** Decodes the block at `si` behind the `di` bytes written so far, or says what is wrong with it. */
  method GetNext(dst: array<byte>, di: nat, src: Bytes, si: nat, ghost k: nat, ghost n: nat) returns (io: Outcome)
    requires si == 5 * k && k < n && di + 4 <= dst.Length && Decoded(dst[..di], src, k, n)
    modifies dst
    ensures io.Done? ==> Decoded(dst[..di + 4], src, k + 1, n)
    ensures !io.Done? ==> FirstBad(src, k) && Decode(src).None?
    ensures !io.Done? ==> io == if ValidBlock(BlockAt(src, k)) then BlockOverflow else BadCharacter
    ensures dst[di + 4..] == old(dst[di + 4..])
  {
    DecodedNext(dst[..di], src, k, n);
    var value;
    io, value := GetBlock(src[si..si + 5]);
    if io.Done? { PutOctets(dst, di, value); }
  }

  /** Decodes `n` blocks to the front of `dst`, stopping at the first bad one, which is `bad`. */
  method DecodeBlocks(dst: array<byte>, src: Bytes, n: nat) returns (r: Outcome, ghost bad: nat)
    requires |src| == 5 * n && 4 * n <= dst.Length
    modifies dst
    ensures r.Done? <==> Decode(src).Some?
    ensures r.Done? ==> r.written == 4 * n && dst[..4 * n] == Decode(src).value && GoodBlocks(src, n)
    ensures !r.Done? ==> FirstBad(src, bad) && r == if ValidBlock(BlockAt(src, bad)) then BlockOverflow else BadCharacter
    ensures dst[4 * n..] == old(dst[4 * n..])
  {
    var di, si := 0, 0;
    bad := 0;
    assert src[0..] == src;
    while si < |src|
      invariant si == 5 * bad && di == 4 * bad && bad <= n
      invariant Decoded(dst[..di], src, bad, n)
      invariant dst[4 * n..] == old(dst[4 * n..])
    {
      ghost var before := dst[..];
      r := GetNext(dst, di, src, si, bad, n);
      SameTail(dst[..], before, di + 4, 4 * n);
      if !r.Done? { return r, bad; }
      di, si, bad := di + 4, si + 5, bad + 1;
    }
    DecodedAll(dst[..di], src, n);
    r := Done(di);
  }

  /** The arguments pass the two length checks. */
  predicate RoomFor(length: nat, src: Bytes) { |src| % 5 == 0 && length >= |src| * 4 / 5 }

  /**
   * Fills the front of `dst` with the decoded bytes; what lies beyond is untouched in every case.
   * The first block that does not decode decides between the two character errors.
   */
  method DecodeInto(dst: array<byte>, src: Bytes) returns (r: Outcome)
    modifies dst
    ensures r == BadLength <==> |src| % 5 != 0
    ensures r == BufferTooSmall <==> |src| % 5 == 0 && dst.Length < |src| * 4 / 5
    ensures r == BadCharacter <==>
      RoomFor(dst.Length, src) && exists k: nat :: FirstBad(src, k) && !ValidBlock(BlockAt(src, k))
    ensures r == BlockOverflow <==>
      RoomFor(dst.Length, src) && exists k: nat :: FirstBad(src, k) && ValidBlock(BlockAt(src, k))
    ensures r.Done? <==> RoomFor(dst.Length, src) && Decode(src).Some?
    ensures r.Done? ==> r.written == |src| * 4 / 5 && dst[..r.written] == Decode(src).value
    ensures |src| * 4 / 5 <= dst.Length ==> dst[|src| * 4 / 5..] == old(dst[|src| * 4 / 5..])
  {
    if |src| % 5 != 0 { return BadLength; }
    if dst.Length < |src| * 4 / 5 { return BufferTooSmall; }
    ghost var bad;
    r, bad := DecodeBlocks(dst, src, |src| / 5);
    BadDecides(src, r, bad);
  }
}
