/** MD5 of auth/md5.ts against RFC 1321. The table of sines is a parameter: 64 words, whatever they are. */
module Md5 {
  import opened Octets

  type Word = w: nat | w < 0x1_0000_0000

  const WORD_SIZE := 0x1_0000_0000
  const LONG_SIZE := 0x1_0000_0000_0000_0000

  datatype State = State(a: Word, b: Word, c: Word, d: Word)

  // -------------------------------------------------------------------------------- padding

  /** The remainder of JavaScript, which takes the sign of the dividend. */
  function Rem(n: int, d: int): int
    requires d > 0
  {
    if n >= 0 then n % d else -((-n) % d)
  }

  function PaddingLength(length: nat): (n: int) {
    Rem(Rem(56 - Rem(length + 1, 64), 64) + 64, 64)
  }

  lemma PaddingFits(length: nat)
    ensures PaddingLength(length) >= 0
    ensures var total := length + 1 + PaddingLength(length) + 8;
            total % 64 == 0 && length + 9 <= total < length + 9 + 64
  {
    var x := (length + 1) % 64;
    assert PaddingLength(length) == if x <= 56 then 56 - x else 120 - x;
  }

  lemma NoMultipleBetween(n: int, total: int)
    requires n % 64 == 0 && total % 64 == 0 && n > total - 64
    ensures total <= n
  {
    assert n == 64 * (n / 64) && total == 64 * (total / 64);
  }

  /** The least multiple of 64 with room for the 0x80 byte and the eight bytes of length. */
  lemma PaddingIsLeast(length: nat)
    ensures PaddingLength(length) >= 0
    ensures var total := length + 1 + PaddingLength(length) + 8;
            total % 64 == 0 && forall n: int :: n % 64 == 0 && n >= length + 9 ==> total <= n
  {
    PaddingFits(length);
    var total := length + 1 + PaddingLength(length) + 8;
    forall n: int | n % 64 == 0 && n >= length + 9
      ensures total <= n
    {
      NoMultipleBetween(n, total);
    }
  }

  function Zeros(n: nat): Bytes {
    if n == 0 then [] else Zeros(n - 1) + [0]
  }

  /** `count` bytes, the least significant first. */
  function LittleEndian(value: nat, count: nat): (r: Bytes)
    ensures |r| == count
    decreases count
  {
    if count == 0 then [] else [value % 0x100] + LittleEndian(value / 0x100, count - 1)
  }

  function ValueOf(bytes: Bytes): nat {
    if bytes == [] then 0 else bytes[0] + 0x100 * ValueOf(bytes[1..])
  }

  function Power256(n: nat): nat {
    if n == 0 then 1 else 0x100 * Power256(n - 1)
  }

  lemma {:induction false} LittleEndianReads(value: nat, count: nat)
    requires value < Power256(count)
    ensures ValueOf(LittleEndian(value, count)) == value
    decreases count
  {
    if count == 0 {
    } else {
      LittleEndianReads(value / 0x100, count - 1);
      var rest := LittleEndian(value / 0x100, count - 1);
      assert LittleEndian(value, count)[1..] == rest;
    }
  }

  lemma Power256Of8()
    ensures Power256(8) == LONG_SIZE && Power256(4) == WORD_SIZE
  {
    assert Power256(2) == 0x1_0000;
    assert Power256(4) == 0x100 * (0x100 * Power256(2));
    assert Power256(6) == 0x100 * (0x100 * Power256(4));
    assert Power256(8) == 0x100 * (0x100 * Power256(6));
  }

  /** Section 3.1 and 3.2: one bit, zeros, and the low 64 bits of the length in bits. */
  function Padded(message: Bytes): (r: Bytes)
    ensures |r| % 64 == 0
  {
    PaddingFits(|message|);
    ZerosLength(PaddingLength(|message|));
    message + [0x80] + Zeros(PaddingLength(|message|)) + LittleEndian(8 * |message| % LONG_SIZE, 8)
  }

  lemma {:induction false} ZerosLength(n: nat)
    ensures |Zeros(n)| == n && forall i :: 0 <= i < n ==> Zeros(n)[i] == 0
  {
    if n == 0 {
    } else {
      ZerosLength(n - 1);
    }
  }

  lemma TailReadsLength(message: Bytes)
    requires |message| < 0x2000_0000_0000_0000
    ensures |Padded(message)| >= |message| + 9
    ensures ValueOf(Padded(message)[|Padded(message)| - 8..]) == 8 * |message|
  {
    var p := Padded(message);
    PaddingFits(|message|);
    ZerosLength(PaddingLength(|message|));
    LengthFieldReads(|message|);
    assert p[|p| - 8..] == LittleEndian(8 * |message| % LONG_SIZE, 8);
  }

  lemma LengthFieldReads(n: nat)
    requires n < 0x2000_0000_0000_0000
    ensures ValueOf(LittleEndian(8 * n % LONG_SIZE, 8)) == 8 * n
  {
    assert 8 * n % LONG_SIZE == 8 * n;
    LongReads(8 * n, 8);
  }

  lemma LongReads(value: nat, count: nat)
    requires count == 8 && value < LONG_SIZE
    ensures ValueOf(LittleEndian(value, count)) == value
  {
    Power256Of8();
    LittleEndianReads(value, count);
  }

  /** Messages the length field can tell apart pad to different texts. */
  lemma PaddingIsInjective(a: Bytes, b: Bytes)
    requires |a| < 0x2000_0000_0000_0000 && |b| < 0x2000_0000_0000_0000
    requires Padded(a) == Padded(b)
    ensures a == b
  {
    TailReadsLength(a);
    TailReadsLength(b);
    MessageComesFirst(a);
    MessageComesFirst(b);
  }

  lemma MessageComesFirst(message: Bytes)
    ensures message <= Padded(message)
  {
  }

  /** `pad` as written: one fresh buffer, filled in place. */
  method Pad(message: Bytes) returns (result: array<Byte>)
    ensures fresh(result) && result[..] == Padded(message)
  {
    var paddingLength := PaddingLength(|message|);
    PaddingFits(|message|);
    ZerosLength(paddingLength);
    result := new Byte[|message| + 1 + paddingLength + 8](_ => 0);
    var n := |message|;
    forall i | 0 <= i < n {
      result[i] := message[i];
    }
    result[n] := 0x80;
    var field := LittleEndian(8 * n % LONG_SIZE, 8);
    var tail := result.Length - 8;
    forall i | 0 <= i < 8 {
      result[tail + i] := field[i];
    }
    FourPieces(result[..], message, Zeros(paddingLength), field);
  }

  lemma FourPieces(all: Bytes, message: Bytes, zeros: Bytes, field: Bytes)
    requires |all| == |message| + 1 + |zeros| + |field|
    requires forall i :: 0 <= i < |message| ==> all[i] == message[i]
    requires all[|message|] == 0x80
    requires forall i :: 0 <= i < |zeros| ==> all[|message| + 1 + i] == zeros[i]
    requires forall i :: 0 <= i < |field| ==> all[|all| - |field| + i] == field[i]
    ensures all == message + [0x80] + zeros + field
  {
    var other := message + [0x80] + zeros + field;
    forall i | 0 <= i < |all|
      ensures all[i] == other[i]
    {
      if i > |message| && i <= |message| + |zeros| {
        assert all[|message| + 1 + (i - |message| - 1)] == zeros[i - |message| - 1];
      } else if i > |message| + |zeros| {
        assert all[|all| - |field| + (i - |message| - 1 - |zeros|)] == field[i - |message| - 1 - |zeros|];
      }
    }
  }

  // --------------------------------------------------------------------------- words and bits

  function Bits(w: Word): bv32 {
    w as bv32
  }

  /** `| 0`: the bits as a signed number. */
  function Signed(v: bv32): (n: int)
    ensures -0x8000_0000 <= n < 0x8000_0000 && (n - v as int) % WORD_SIZE == 0
  {
    var n := v as int;
    if n < 0x8000_0000 then n else n - WORD_SIZE
  }

  /** `>>> 0`. */
  function ToUint32(n: int): Word {
    n % WORD_SIZE
  }

  function LeftRotate(value: Word, bits: nat): Word
    requires 0 < bits < 32
  {
    RotateBits(Bits(value), bits) as int
  }

  function RotateBits(v: bv32, bits: nat): bv32
    requires 0 < bits < 32
  {
    (v << bits) | (v >> (32 - bits))
  }

  // The rotation is the circular shift of section 2 of RFC 1321, for each amount its rounds use.

  lemma RotateRound1(v: bv32)
    ensures RotateBits(v, 7) == v.RotateLeft(7)
    ensures RotateBits(v, 12) == v.RotateLeft(12)
    ensures RotateBits(v, 17) == v.RotateLeft(17)
    ensures RotateBits(v, 22) == v.RotateLeft(22)
  {
  }

  lemma RotateRound2(v: bv32)
    ensures RotateBits(v, 5) == v.RotateLeft(5)
    ensures RotateBits(v, 9) == v.RotateLeft(9)
    ensures RotateBits(v, 14) == v.RotateLeft(14)
    ensures RotateBits(v, 20) == v.RotateLeft(20)
  {
  }

  lemma RotateRound3(v: bv32)
    ensures RotateBits(v, 4) == v.RotateLeft(4)
    ensures RotateBits(v, 11) == v.RotateLeft(11)
    ensures RotateBits(v, 16) == v.RotateLeft(16)
    ensures RotateBits(v, 23) == v.RotateLeft(23)
  {
  }

  lemma RotateRound4(v: bv32)
    ensures RotateBits(v, 6) == v.RotateLeft(6)
    ensures RotateBits(v, 10) == v.RotateLeft(10)
    ensures RotateBits(v, 15) == v.RotateLeft(15)
    ensures RotateBits(v, 21) == v.RotateLeft(21)
  {
  }

  // --------------------------------------------------------------- the tables, theirs and the RFC's

  const SHIFTS: seq<nat> :=
    [7, 12, 17, 22, 7, 12, 17, 22, 7, 12, 17, 22, 7, 12, 17, 22] +
    [5, 9, 14, 20, 5, 9, 14, 20, 5, 9, 14, 20, 5, 9, 14, 20] +
    [4, 11, 16, 23, 4, 11, 16, 23, 4, 11, 16, 23, 4, 11, 16, 23] +
    [6, 10, 15, 21, 6, 10, 15, 21, 6, 10, 15, 21, 6, 10, 15, 21]

  /** The shift amounts of section 3.4, by round and position in the row. */
  const RFC_SHIFTS: seq<seq<nat>> := [[7, 12, 17, 22], [5, 9, 14, 20], [4, 11, 16, 23], [6, 10, 15, 21]]

  /** The word each operation of section 3.4 reads, by round. */
  const RFC_WORDS: seq<seq<nat>> := [
    [0, 1, 2, 3, 4, 5, 6, 7, 8, 9, 10, 11, 12, 13, 14, 15],
    [1, 6, 11, 0, 5, 10, 15, 4, 9, 14, 3, 8, 13, 2, 7, 12],
    [5, 8, 11, 14, 1, 4, 7, 10, 13, 0, 3, 6, 9, 12, 15, 2],
    [0, 7, 14, 5, 12, 3, 10, 1, 8, 15, 6, 13, 4, 11, 2, 9]
  ]

  lemma ShiftsAgree1(i: nat)
    requires 0 <= i < 16
    ensures SHIFTS[i] == RFC_SHIFTS[0][i % 4]
  {
    RowAgrees([7, 12, 17, 22], i);
  }

  lemma ShiftsAgree2(i: nat)
    requires 16 <= i < 32
    ensures SHIFTS[i] == RFC_SHIFTS[1][i % 4]
  {
    RowAgrees([5, 9, 14, 20], i - 16);
  }

  lemma ShiftsAgree3(i: nat)
    requires 32 <= i < 48
    ensures SHIFTS[i] == RFC_SHIFTS[2][i % 4]
  {
    RowAgrees([4, 11, 16, 23], i - 32);
  }

  lemma ShiftsAgree4(i: nat)
    requires 48 <= i < 64
    ensures SHIFTS[i] == RFC_SHIFTS[3][i % 4]
  {
    RowAgrees([6, 10, 15, 21], i - 48);
  }

  lemma ShiftsAgree(i: nat)
    requires i < 64
    ensures SHIFTS[i] == RFC_SHIFTS[i / 16][i % 4]
  {
    if i < 16 { ShiftsAgree1(i); }
    else if i < 32 { ShiftsAgree2(i); }
    else if i < 48 { ShiftsAgree3(i); }
    else { ShiftsAgree4(i); }
  }

  lemma RowAgrees(row: seq<nat>, j: nat)
    requires |row| == 4 && j < 16
    ensures [row[0], row[1], row[2], row[3], row[0], row[1], row[2], row[3],
             row[0], row[1], row[2], row[3], row[0], row[1], row[2], row[3]][j] == row[j % 4]
  {
  }

  function MessageIndex(i: nat): (k: nat)
    requires i < 64
    ensures k < 16
  {
    if i < 16 then i
    else if i < 32 then (5 * i + 1) % 16
    else if i < 48 then (3 * i + 5) % 16
    else (7 * i) % 16
  }

  lemma IndexesAgree1(i: nat)
    requires 0 <= i < 16
    ensures MessageIndex(i) == RFC_WORDS[0][i % 16]
  {
  }

  lemma IndexesAgree2(i: nat)
    requires 16 <= i < 32
    ensures MessageIndex(i) == RFC_WORDS[1][i % 16]
  {
  }

  lemma IndexesAgree3(i: nat)
    requires 32 <= i < 48
    ensures MessageIndex(i) == RFC_WORDS[2][i % 16]
  {
  }

  lemma IndexesAgree4(i: nat)
    requires 48 <= i < 64
    ensures MessageIndex(i) == RFC_WORDS[3][i % 16]
  {
  }

  lemma IndexesAgree(i: nat)
    requires i < 64
    ensures MessageIndex(i) == RFC_WORDS[i / 16][i % 16]
  {
    if i < 16 { IndexesAgree1(i); }
    else if i < 32 { IndexesAgree2(i); }
    else if i < 48 { IndexesAgree3(i); }
    else { IndexesAgree4(i); }
  }

  /** Where a round reads word `k`. */
  function ReadAt(round: nat, k: nat): (at: nat)
    requires round < 4 && k < 16
    ensures at < 16
  {
    if round == 0 then k
    else if round == 1 then (13 * k + 3) % 16
    else if round == 2 then (11 * k + 9) % 16
    else (7 * k) % 16
  }

  lemma RemainderIs(n: int, q: int, r: nat)
    requires n == 16 * q + r && r < 16
    ensures n % 16 == r
  {
  }

  // Multiplying by 5, 3 or 7 is undone modulo 16 by multiplying by 13, 11 or 7.

  lemma FiveUndone(j: nat, k: nat)
    requires j < 16 && k < 16
    ensures (5 * j + 1) % 16 == k <==> j == (13 * k + 3) % 16
  {
    var q, p := (5 * j + 1) / 16, (13 * k + 3) / 16;
    if (5 * j + 1) % 16 == k { RemainderIs(13 * k + 3, 4 * j + 1 - 13 * q, j); }
    if (13 * k + 3) % 16 == j { RemainderIs(5 * j + 1, 4 * k + 1 - 5 * p, k); }
  }

  lemma ThreeUndone(j: nat, k: nat)
    requires j < 16 && k < 16
    ensures (3 * j + 5) % 16 == k <==> j == (11 * k + 9) % 16
  {
    var q, p := (3 * j + 5) / 16, (11 * k + 9) / 16;
    if (3 * j + 5) % 16 == k { RemainderIs(11 * k + 9, 2 * j + 4 - 11 * q, j); }
    if (11 * k + 9) % 16 == j { RemainderIs(3 * j + 5, 2 * k + 2 - 3 * p, k); }
  }

  lemma SevenUndone(j: nat, k: nat)
    requires j < 16 && k < 16
    ensures (7 * j) % 16 == k <==> j == (7 * k) % 16
  {
    var q, p := (7 * j) / 16, (7 * k) / 16;
    if (7 * j) % 16 == k { RemainderIs(7 * k, 3 * j + 0 - 7 * q, j); }
    if (7 * k) % 16 == j { RemainderIs(7 * j, 3 * k + 0 - 7 * p, k); }
  }

  /** Every round reads every word of the block, and none twice. */
  lemma EachWordOnceARound(round: nat, j: nat, k: nat)
    requires round < 4 && j < 16 && k < 16
    ensures MessageIndex(16 * round + j) == k <==> j == ReadAt(round, k)
  {
    match round
    case 0 =>
    case 1 =>
      FiveUndone(j, k);
      RemainderIs(5 * (16 + j) + 1, 5 + (5 * j + 1) / 16, (5 * j + 1) % 16);
    case 2 =>
      ThreeUndone(j, k);
      RemainderIs(3 * (32 + j) + 5, 6 + (3 * j + 5) / 16, (3 * j + 5) % 16);
    case _ =>
      SevenUndone(j, k);
      RemainderIs(7 * (48 + j), 21 + (7 * j) / 16, (7 * j) % 16);
  }

  // ----------------------------------------------------------------------------- one block

  /** `roundFunction`, a signed number like every result of a bitwise operator. */
  function RoundFunction(i: nat, b: Word, c: Word, d: Word): int {
    Signed(RoundBits(i, Bits(b), Bits(c), Bits(d)))
  }

  function RoundBits(i: nat, b: bv32, c: bv32, d: bv32): bv32 {
    if i < 16 then (b & c) | (!b & d)
    else if i < 32 then (d & b) | (!d & c)
    else if i < 48 then b ^ c ^ d
    else c ^ (b | !d)
  }

  /** F, G, H and I of section 3.4. */
  function Auxiliary(round: nat, x: bv32, y: bv32, z: bv32): bv32 {
    if round == 0 then (x & y) | (!x & z)
    else if round == 1 then (x & z) | (y & !z)
    else if round == 2 then x ^ y ^ z
    else y ^ (x | !z)
  }

  lemma RoundsAgree(i: nat, b: bv32, c: bv32, d: bv32)
    requires i < 64
    ensures RoundBits(i, b, c, d) == Auxiliary(i / 16, b, c, d)
  {
  }

  /** The register an operation of section 3.4 writes: A, D, C, B and over again. */
  function Target(i: nat): (r: nat)
    ensures r < 4
  {
    [0, 3, 2, 1][i % 4]
  }

  type Rotation = (Word, nat) -> Word

  /** Operation `i` of section 3.4: `b + ((a + F(b, c, d) + X[k] + T[i]) <<< s)`. */
  function Result(i: nat, block: seq<Word>, sines: seq<Word>, rotate: Rotation, s: State): Word
    requires i < 64 && |block| == 16 && |sines| == 64
  {
    RfcValue(Auxiliary(i / 16, Bits(s.b), Bits(s.c), Bits(s.d)) as int, s.a, s.b,
             block[RFC_WORDS[i / 16][i % 16]], sines[i], RFC_SHIFTS[i / 16][i % 4], rotate)
  }

  function RfcValue(mixed: int, a: Word, b: Word, x: Word, t: Word, bits: nat, rotate: Rotation): Word {
    (b + rotate((a + mixed + x + t) % WORD_SIZE, bits)) % WORD_SIZE
  }

  /** The registers as [ABCD], [BCDA], [CDAB] or [DABC], from the one at `at` on. */
  function InOrder(registers: seq<Word>, at: nat): State
    requires |registers| == 4 && at < 4
  {
    var a, b, c, d := registers[0], registers[1], registers[2], registers[3];
    match at
    case 0 => State(a, b, c, d)
    case 1 => State(b, c, d, a)
    case 2 => State(c, d, a, b)
    case _ => State(d, a, b, c)
  }

  function Shifted(value: Word, bits: nat): Word {
    if 0 < bits < 32 then LeftRotate(value, bits) else value
  }

  /** `<<<`: the circular shift of section 2 of RFC 1321. */
  function Circular(value: Word, bits: nat): Word {
    if bits <= 32 then Bits(value).RotateLeft(bits) as int else value
  }

  ghost predicate Agree(f: Rotation, g: Rotation, bits: nat) {
    forall v: Word :: f(v, bits) == g(v, bits)
  }

  lemma RowAgreed(f: Rotation, g: Rotation, row: seq<nat>)
    requires |row| == 4 && Agree(f, g, row[0]) && Agree(f, g, row[1]) && Agree(f, g, row[2]) && Agree(f, g, row[3])
    ensures forall j :: 0 <= j < 4 ==> Agree(f, g, row[j])
  {
  }

  // The loop's rotation is the circular shift, for each of the sixteen amounts.

  lemma RowIsCircular1()
    ensures forall j :: 0 <= j < 4 ==> Agree(Shifted, Circular, RFC_SHIFTS[0][j])
  {
    forall v: Word
      ensures Shifted(v, 7) == Circular(v, 7) && Shifted(v, 12) == Circular(v, 12)
      ensures Shifted(v, 17) == Circular(v, 17) && Shifted(v, 22) == Circular(v, 22)
    {
      RotateRound1(Bits(v));
    }
    RowAgreed(Shifted, Circular, RFC_SHIFTS[0]);
  }

  lemma RowIsCircular2()
    ensures forall j :: 0 <= j < 4 ==> Agree(Shifted, Circular, RFC_SHIFTS[1][j])
  {
    forall v: Word
      ensures Shifted(v, 5) == Circular(v, 5) && Shifted(v, 9) == Circular(v, 9)
      ensures Shifted(v, 14) == Circular(v, 14) && Shifted(v, 20) == Circular(v, 20)
    {
      RotateRound2(Bits(v));
    }
    RowAgreed(Shifted, Circular, RFC_SHIFTS[1]);
  }

  lemma RowIsCircular3()
    ensures forall j :: 0 <= j < 4 ==> Agree(Shifted, Circular, RFC_SHIFTS[2][j])
  {
    forall v: Word
      ensures Shifted(v, 4) == Circular(v, 4) && Shifted(v, 11) == Circular(v, 11)
      ensures Shifted(v, 16) == Circular(v, 16) && Shifted(v, 23) == Circular(v, 23)
    {
      RotateRound3(Bits(v));
    }
    RowAgreed(Shifted, Circular, RFC_SHIFTS[2]);
  }

  lemma RowIsCircular4()
    ensures forall j :: 0 <= j < 4 ==> Agree(Shifted, Circular, RFC_SHIFTS[3][j])
  {
    forall v: Word
      ensures Shifted(v, 6) == Circular(v, 6) && Shifted(v, 10) == Circular(v, 10)
      ensures Shifted(v, 15) == Circular(v, 15) && Shifted(v, 21) == Circular(v, 21)
    {
      RotateRound4(Bits(v));
    }
    RowAgreed(Shifted, Circular, RFC_SHIFTS[3]);
  }

  /** Every shift of section 3.4 is circular in the loop as well. */
  lemma ShiftsAreCircular(i: nat)
    requires i < 64
    ensures Agree(Shifted, Circular, RFC_SHIFTS[i / 16][i % 4])
  {
    RowIsCircular1();
    RowIsCircular2();
    RowIsCircular3();
    RowIsCircular4();
  }

  lemma SameResult(i: nat, block: seq<Word>, sines: seq<Word>, f: Rotation, g: Rotation, s: State)
    requires i < 64 && |block| == 16 && |sines| == 64 && Agree(f, g, RFC_SHIFTS[i / 16][i % 4])
    ensures Result(i, block, sines, f, s) == Result(i, block, sines, g, s)
  {
  }

  /** What one turn of the loop in `processBlock` puts into `b`. */
  function NextB(i: nat, block: seq<Word>, sines: seq<Word>, rotate: Rotation, s: State): Word
    requires i < 64 && |block| == 16 && |sines| == 64
  {
    LoopValue(RoundFunction(i, s.b, s.c, s.d), s.a, s.b, block[MessageIndex(i)], sines[i], SHIFTS[i], rotate)
  }

  function LoopValue(mixed: int, a: Word, b: Word, x: Word, t: Word, bits: nat, rotate: Rotation): Word {
    var f := ToUint32(mixed + a + t + x);
    ToUint32(b + rotate(f, bits))
  }

  lemma SignDropsOut(v: bv32, rest: int)
    ensures ToUint32(Signed(v) + rest) == (rest + v as int) % WORD_SIZE
  {
  }

  lemma NextBIsResult(i: nat, block: seq<Word>, sines: seq<Word>, rotate: Rotation, s: State)
    requires i < 64 && |block| == 16 && |sines| == 64
    ensures NextB(i, block, sines, rotate, s) == Result(i, block, sines, rotate, s)
  {
    ShiftsAgree(i);
    IndexesAgree(i);
    RoundValue(i, s);
    ValuesAgree(Auxiliary(i / 16, Bits(s.b), Bits(s.c), Bits(s.d)), s.a, s.b,
                block[MessageIndex(i)], sines[i], SHIFTS[i], rotate);
  }

  lemma RoundValue(i: nat, s: State)
    requires i < 64
    ensures RoundFunction(i, s.b, s.c, s.d) == Signed(Auxiliary(i / 16, Bits(s.b), Bits(s.c), Bits(s.d)))
  {
    RoundsAgree(i, Bits(s.b), Bits(s.c), Bits(s.d));
  }

  lemma ValuesAgree(v: bv32, a: Word, b: Word, x: Word, t: Word, bits: nat, rotate: Rotation)
    ensures LoopValue(Signed(v), a, b, x, t, bits, rotate) == RfcValue(v as int, a, b, x, t, bits, rotate)
  {
    SignDropsOut(v, a + t + x);
  }

  /** What a step computes, from its number and the four words in the order it names them. */
  type Step = (nat, State) -> Word

  /** The RFC's steps, in place: each reads the registers as [ABCD], [DABC], [CDAB] or [BCDA] and writes the first. */
  function Operations(n: nat, step: Step, registers: seq<Word>): (r: seq<Word>)
    requires |registers| == 4
    ensures |r| == 4
  {
    if n == 0 then registers
    else
      var before := Operations(n - 1, step, registers);
      before[Target(n - 1) := step(n - 1, InOrder(before, Target(n - 1)))]
  }

  /** The loop's tuple before turn `n`. */
  function Tuple(n: nat, step: Step, s: State): State {
    if n == 0 then s
    else var t := Tuple(n - 1, step, s); State(t.d, step(n - 1, t), t.b, t.c)
  }

  function Registers(s: State): (r: seq<Word>)
    ensures |r| == 4
  {
    [s.a, s.b, s.c, s.d]
  }

  /** The rotating tuple refines the registers: before turn `n` it is they, read from the one about to be written. */
  lemma {:induction false} TupleIsRegisters(n: nat, step: Step, s: State)
    ensures Tuple(n, step, s) == InOrder(Operations(n, step, Registers(s)), Target(n))
  {
    if n == 0 {
    } else {
      TupleIsRegisters(n - 1, step, s);
      var before := Operations(n - 1, step, Registers(s));
    }
  }

  lemma {:induction false} SameSteps(n: nat, f: Step, g: Step, s: State)
    requires forall i: nat, t: State :: i < n ==> f(i, t) == g(i, t)
    ensures Tuple(n, f, s) == Tuple(n, g, s)
  {
    if n == 0 {
    } else {
      SameSteps(n - 1, f, g, s);
    }
  }

  function RfcStep(block: seq<Word>, sines: seq<Word>, rotate: Rotation): Step
    requires |block| == 16 && |sines| == 64
  {
    (i, s) => if i < 64 then Result(i, block, sines, rotate, s) else 0
  }

  function LoopStep(block: seq<Word>, sines: seq<Word>, rotate: Rotation): Step
    requires |block| == 16 && |sines| == 64
  {
    (i, s) => if i < 64 then NextB(i, block, sines, rotate, s) else 0
  }

  function Added(s: State, t: State): State {
    State(ToUint32(s.a + t.a), ToUint32(s.b + t.b), ToUint32(s.c + t.c), ToUint32(s.d + t.d))
  }

  /** Section 3.4 for one block: 64 operations, then each register added to what it held before. */
  function Block(block: seq<Word>, sines: seq<Word>, s: State): State
    requires |block| == 16 && |sines| == 64
  {
    var r := Operations(|sines|, RfcStep(block, sines, Circular), Registers(s));
    Added(s, State(r[0], r[1], r[2], r[3]))
  }

  /** Step by step, rotation included, the loop computes the RFC's value. */
  lemma StepsAgree(block: seq<Word>, sines: seq<Word>, rotate: Rotation, circular: Rotation)
    requires |block| == 16 && |sines| == 64
    requires forall i: nat :: i < 64 ==> Agree(rotate, circular, RFC_SHIFTS[i / 16][i % 4])
    ensures forall i: nat, t: State :: LoopStep(block, sines, rotate)(i, t) == RfcStep(block, sines, circular)(i, t)
  {
    forall i: nat, t: State
      ensures LoopStep(block, sines, rotate)(i, t) == RfcStep(block, sines, circular)(i, t)
    {
      if i < 64 {
        NextBIsResult(i, block, sines, rotate, t);
        SameResult(i, block, sines, rotate, circular, t);
      }
    }
  }

  lemma BlockIsTuple(block: seq<Word>, sines: seq<Word>, s: State)
    requires |block| == 16 && |sines| == 64
    ensures Block(block, sines, s) == Added(s, Tuple(|sines|, LoopStep(block, sines, Shifted), s))
  {
    var f, g := LoopStep(block, sines, Shifted), RfcStep(block, sines, Circular);
    forall i: nat | i < 64
      ensures Agree(Shifted, Circular, RFC_SHIFTS[i / 16][i % 4])
    {
      ShiftsAreCircular(i);
    }
    StepsAgree(block, sines, Shifted, Circular);
    SameSteps(|sines|, f, g, s);
    TupleIsRegisters(|sines|, g, s);
  }

  method ProcessBlock(words: seq<Word>, sines: seq<Word>, state: State) returns (after: State)
    requires |words| == 16 && |sines| == 64
    ensures after == Block(words, sines, state)
  {
    ghost var step := LoopStep(words, sines, Shifted);
    var a: Word, b: Word, c: Word, d: Word := state.a, state.b, state.c, state.d;
    var i := 0;
    while i < |sines|
      invariant 0 <= i <= |sines| && State(a, b, c, d) == Tuple(i, step, state)
    {
      var next := NextB(i, words, sines, Shifted, State(a, b, c, d));
      assert step(i, State(a, b, c, d)) == next;
      a, d, c, b := d, c, b, next;
      i := i + 1;
    }
    BlockIsTuple(words, sines, state);
    after := Added(state, State(a, b, c, d));
  }

  // ------------------------------------------------------------------------- a whole message

  const INITIAL := State(0x67452301, 0xefcdab89, 0x98badcfe, 0x10325476)

  /** The word at an offset, the least significant byte first. */
  function WordAt(data: Bytes, at: nat): Word
    requires at + 4 <= |data|
  {
    FourBytes(data[at], data[at + 1], data[at + 2], data[at + 3])
  }

  function FourBytes(a: int, b: int, c: int, d: int): int {
    a + 0x100 * (b + 0x100 * (c + 0x100 * d))
  }

  function WordsOf(data: Bytes): (r: seq<Word>)
    ensures |r| == |data| / 4
  {
    if |data| < 4 then [] else [WordAt(data, 0)] + WordsOf(data[4..])
  }

  lemma {:induction false} WordsAt(data: Bytes, k: nat)
    requires 4 * k + 4 <= |data|
    ensures WordsOf(data)[k] == WordAt(data, 4 * k)
    decreases k
  {
    if k == 0 {
    } else {
      WordsAt(data[4..], k - 1);
    }
  }

  lemma {:induction false} WordsDrop(data: Bytes, k: nat)
    requires 4 * k <= |data|
    ensures WordsOf(data)[k..] == WordsOf(data[4 * k..])
    decreases k
  {
    if k == 0 {
    } else {
      WordsDrop(data[4..], k - 1);
      assert data[4..][4 * (k - 1)..] == data[4 * k..];
      assert WordsOf(data)[k..] == WordsOf(data)[1..][k - 1..];
    }
  }

  type BlockStep = (seq<Word>, State) -> State

  function RfcBlock(sines: seq<Word>): BlockStep
    requires |sines| == 64
  {
    (block, s) => if |block| == 16 then Block(block, sines, s) else s
  }

  /** Section 3.4 over all the words: block after block, each taken once and in order. */
  function Chain(words: seq<Word>, step: BlockStep, s: State): State
    decreases |words|
  {
    if |words| < 16 then s else Chain(words[16..], step, step(words[..16], s))
  }

  lemma ChainStep(data: Bytes, step: BlockStep, s: State)
    requires |data| >= 64
    ensures Chain(WordsOf(data), step, s) == Chain(WordsOf(data[64..]), step, step(WordsOf(data)[..16], s))
  {
    WordsDrop(data, 16);
  }

  function Digest(s: State): (r: Bytes)
    ensures |r| == 16
  {
    LittleEndian(s.a, 4) + LittleEndian(s.b, 4) + LittleEndian(s.c, 4) + LittleEndian(s.d, 4)
  }

  /** One chunk's sixteen words. */
  method ReadWords(data: array<Byte>, start: nat) returns (words: seq<Word>)
    requires start + 64 <= data.Length
    ensures words == WordsOf(data[start..])[..16]
  {
    ghost var rest := data[start..];
    words := [];
    var i := 0;
    while i < 16
      invariant 0 <= i <= 16 && words == WordsOf(rest)[..i]
    {
      WordsAt(rest, i);
      var at := start + 4 * i;
      words := words + [FourBytes(data[at], data[at + 1], data[at + 2], data[at + 3])];
      i := i + 1;
    }
  }

  /** The digest of RFC 1321, for any message and any table. */
  method ComputeMd5(message: Bytes, sines: seq<Word>) returns (digest: Bytes)
    requires |sines| == 64
    ensures digest == Digest(Chain(WordsOf(Padded(message)), RfcBlock(sines), INITIAL))
  {
    var data := Pad(message);
    ghost var step := RfcBlock(sines);
    var state := INITIAL;
    var chunkStart := 0;
    assert data[0..] == Padded(message);
    while chunkStart < data.Length
      invariant 0 <= chunkStart <= data.Length && chunkStart % 64 == 0 && data.Length % 64 == 0
      invariant Chain(WordsOf(data[chunkStart..]), step, state) == Chain(WordsOf(Padded(message)), step, INITIAL)
    {
      NextChunk(chunkStart, data.Length);
      var words := ReadWords(data, chunkStart);
      ChainStep(data[chunkStart..], step, state);
      assert data[chunkStart..][64..] == data[chunkStart + 64..];
      state := NextState(words, sines, state);
      chunkStart := chunkStart + 64;
    }
    digest := Digest(state);
  }

  lemma NextChunk(start: nat, length: nat)
    requires start % 64 == 0 && length % 64 == 0 && start < length
    ensures start + 64 <= length && (start + 64) % 64 == 0
  {
  }

  method NextState(words: seq<Word>, sines: seq<Word>, state: State) returns (after: State)
    requires |words| == 16 && |sines| == 64
    ensures after == RfcBlock(sines)(words, state)
  {
    after := ProcessBlock(words, sines, state);
  }
}
