/**
 The two CRC-16s of the firmware. Both are the same bit-serial division, fed most significant
 bit first; they differ in polynomial and initial value. The bus protocol computes it through a
 256-entry table, the odometer bit by bit.
 */
module Crc {
  import opened Bytes

  const DXL_POLY: u16 := 0x8005
  const HOURS_POLY: u16 := 0x1021

  /** One step of the division: shift the register left, subtracting the polynomial on carry. */
  function Shift(poly: u16, crc: u16): u16 {
    if crc < 0x8000 then 2 * crc else XorWord(2 * crc - 0x1_0000, poly)
  }

  function XorWord(a: u16, b: u16): (r: u16)
    ensures r == Xor(a, b)
  {
    WordBound(a, b);
    Xor(a, b)
  }

  lemma WordBound(a: u16, b: u16)
    ensures Xor(a, b) < 0x1_0000
  {
    assert Pow2(4) == 16 && Pow2(8) == 256 && Pow2(12) == 4096 && Pow2(16) == 0x1_0000;
    XorBound(16, a, b);
  }

  function Shifts(poly: u16, crc: u16, n: nat): u16
    decreases n
  {
    if n == 0 then crc else Shifts(poly, Shift(poly, crc), n - 1)
  }

  /** Bring one byte in at the top of the register and divide it out. */
  function Feed(poly: u16, crc: u16, data: u8): u16 {
    Shifts(poly, XorWord(crc, 0x100 * data), 8)
  }

  /** The bit-serial CRC of a message, the reference for both implementations. */
  function Serial(poly: u16, init: u16, data: seq<u8>): u16 {
    if data == [] then init
    else Feed(poly, Serial(poly, init, data[..|data| - 1]), data[|data| - 1])
  }

  // ---- The division step is linear and, for an odd polynomial, injective ----

  function Low(n: nat, z: nat): nat {
    if z >= Pow2(n) then z - Pow2(n) else z
  }

  /** The top bit of an exclusive-or, and what is left below it. */
  lemma {:induction false} TopBit(n: nat, x: nat, y: nat)
    requires x < Pow2(n + 1) && y < Pow2(n + 1)
    ensures Xor(x, y) >= Pow2(n) <==> (x >= Pow2(n)) != (y >= Pow2(n))
    ensures Xor(Low(n, x), Low(n, y)) == Low(n, Xor(x, y))
    decreases n
  {
    if n > 0 {
      TopBit(n - 1, x / 2, y / 2);
      assert Low(n, x) / 2 == Low(n - 1, x / 2) && Low(n, y) / 2 == Low(n - 1, y / 2);
      assert Low(n, x) % 2 == x % 2 && Low(n, y) % 2 == y % 2;
    }
  }

  /** Exclusive-or of four terms, regrouped. */
  lemma XorSwap(a: nat, b: nat, c: nat, d: nat)
    ensures Xor(Xor(a, b), Xor(c, d)) == Xor(Xor(a, c), Xor(b, d))
  {
    XorAssociates(a, b, Xor(c, d));
    XorAssociates(b, c, d);
    XorCommutes(b, c);
    XorAssociates(c, b, d);
    XorAssociates(a, c, Xor(b, d));
  }

  /** What a step subtracts: the polynomial when the top bit is set. */
  function Carry(poly: u16, x: u16): u16 {
    if x >= 0x8000 then poly else 0
  }

  /** Shift with its conditional subtraction written as exclusive-or with zero or the polynomial. */
  lemma ShiftForm(poly: u16, x: u16)
    ensures Shift(poly, x) == Xor(Low(16, 2 * x), Carry(poly, x))
  {
    WordPowers();
    XorZero(2 * x);
  }

  lemma WordPowers()
    ensures Pow2(15) == 0x8000 && Pow2(16) == 0x1_0000 && Pow2(17) == 0x2_0000
  {
    assert Pow2(4) == 16 && Pow2(8) == 256 && Pow2(12) == 4096;
  }

  lemma CarryLinear(poly: u16, x: u16, y: u16)
    ensures Carry(poly, XorWord(x, y)) == Xor(Carry(poly, x), Carry(poly, y))
  {
    WordPowers();
    TopBit(15, x, y);
    XorSelf(poly);
    XorZero(poly);
    XorCommutes(0, poly);
  }

  lemma DoubleLinear(x: u16, y: u16)
    ensures Low(16, 2 * XorWord(x, y)) == Xor(Low(16, 2 * x), Low(16, 2 * y))
  {
    WordPowers();
    TopBit(16, 2 * x, 2 * y);
    XorDoubles(x, y);
  }

  lemma XorDoubles(a: nat, b: nat)
    ensures Xor(2 * a, 2 * b) == 2 * Xor(a, b)
  {
    assert 2 * a / 2 == a && 2 * b / 2 == b && 2 * a % 2 == 2 * b % 2 == 0;
  }

  lemma ShiftLinear(poly: u16, x: u16, y: u16)
    ensures Shift(poly, XorWord(x, y)) == XorWord(Shift(poly, x), Shift(poly, y))
  {
    ShiftForm(poly, x);
    ShiftForm(poly, y);
    ShiftForm(poly, XorWord(x, y));
    CarryLinear(poly, x, y);
    DoubleLinear(x, y);
    XorSwap(Low(16, 2 * x), Carry(poly, x), Low(16, 2 * y), Carry(poly, y));
  }

  lemma {:induction false} ShiftsLinear(poly: u16, x: u16, y: u16, n: nat)
    ensures Shifts(poly, XorWord(x, y), n) == XorWord(Shifts(poly, x, n), Shifts(poly, y, n))
    decreases n
  {
    if n > 0 {
      ShiftLinear(poly, x, y);
      ShiftsLinear(poly, Shift(poly, x), Shift(poly, y), n - 1);
    }
  }

  lemma ShiftInjective(poly: u16, x: u16, y: u16)
    requires poly % 2 == 1 && Shift(poly, x) == Shift(poly, y)
    ensures x == y
  {
    ShiftForm(poly, x);
    ShiftForm(poly, y);
    WordPowers();
    if (x >= 0x8000) == (y >= 0x8000) {
      XorCancels(Low(16, 2 * x), Low(16, 2 * y), Carry(poly, x));
    }
  }

  lemma {:induction false} ShiftsInjective(poly: u16, x: u16, y: u16, n: nat)
    requires poly % 2 == 1 && Shifts(poly, x, n) == Shifts(poly, y, n)
    ensures x == y
    decreases n
  {
    if n > 0 {
      ShiftsInjective(poly, Shift(poly, x), Shift(poly, y), n - 1);
      ShiftInjective(poly, x, y);
    }
  }

  // ---- What a byte does to the register ----

  /** Feeding is injective in the register: states that differ stay different. */
  lemma FeedInjective(poly: u16, c: u16, c': u16, data: u8)
    requires poly % 2 == 1 && Feed(poly, c, data) == Feed(poly, c', data)
    ensures c == c'
  {
    ShiftsInjective(poly, XorWord(c, 0x100 * data), XorWord(c', 0x100 * data), 8);
    XorCancels(c, c', 0x100 * data);
  }

  lemma LeftDouble(a: nat, n: nat)
    ensures Left(2 * a, n) == 2 * Left(a, n) && Left(a, n) >= a
  {
  }

  /** While nothing is carried out, shifting is doubling. */
  lemma {:induction false} ShiftsSmall(poly: u16, x: u16, n: nat)
    requires Left(x, n) < 0x1_0000
    ensures Shifts(poly, x, n) == Left(x, n)
    decreases n
  {
    if n > 0 {
      LeftDouble(x, n - 1);
      ShiftsSmall(poly, 2 * x, n - 1);
    }
  }

  lemma {:induction false} ShiftsAdd(poly: u16, x: u16, m: nat, n: nat)
    ensures Shifts(poly, x, m + n) == Shifts(poly, Shifts(poly, x, m), n)
    decreases m
  {
    if m > 0 {
      ShiftsAdd(poly, Shift(poly, x), m - 1, n);
    }
  }

  /** Exclusive-or acts on the two bytes of a word independently. */
  lemma XorWordFields(ah: u8, al: u8, bh: u8, bl: u8)
    ensures Xor(0x100 * ah + al, 0x100 * bh + bl) == 0x100 * Xor(ah, bh) + Xor(al, bl)
  {
    assert Pow2(4) == 16 && Pow2(8) == 0x100;
    XorFields(8, ah, al, bh, bl);
    LeftByte(ah);
    LeftByte(bh);
    LeftByte(Xor(ah, bh));
  }

  /** The byte fields of a word. */
  lemma WordFields(a: u8, b: u8)
    ensures Xor(0x100 * a, b) == 0x100 * a + b
  {
    XorWordFields(a, 0, 0, b);
    XorZero(a);
    XorCommutes(0, b);
    XorZero(b);
  }

  /** Two bytes in a row act as one 16-bit word brought in at the top of the register. */
  lemma FeedWord(poly: u16, c: u16, a: u8, b: u8)
    ensures Feed(poly, Feed(poly, c, a), b) == Shifts(poly, XorWord(c, 0x100 * a + b), 16)
  {
    var x := XorWord(c, 0x100 * a);
    FeedAfterShifts(poly, x, b);
    XorAssociates(c, 0x100 * a, b);
    WordFields(a, b);
  }

  lemma FeedAfterShifts(poly: u16, x: u16, b: u8)
    ensures Feed(poly, Shifts(poly, x, 8), b) == Shifts(poly, XorWord(x, b), 16)
  {
    LeftByte(b);
    ShiftsSmall(poly, b, 8);
    ShiftsLinear(poly, x, b, 8);
    ShiftsAdd(poly, XorWord(x, b), 8, 8);
  }

  /** Two different pairs of bytes always lead to different registers. */
  lemma FeedWordInjective(poly: u16, c: u16, a: u8, b: u8, a': u8, b': u8)
    requires poly % 2 == 1
    requires Feed(poly, Feed(poly, c, a), b) == Feed(poly, Feed(poly, c, a'), b')
    ensures a == a' && b == b'
  {
    FeedWord(poly, c, a, b);
    FeedWord(poly, c, a', b');
    ShiftsInjective(poly, XorWord(c, 0x100 * a + b), XorWord(c, 0x100 * a' + b'), 16);
    XorCommutes(c, 0x100 * a + b);
    XorCommutes(c, 0x100 * a' + b');
    XorCancels(0x100 * a + b, 0x100 * a' + b', c);
  }

  // ---- What the CRC of a message detects ----

  lemma SerialLonger(poly: u16, init: u16, s: seq<u8>, b: u8)
    ensures Serial(poly, init, s + [b]) == Feed(poly, Serial(poly, init, s), b)
  {
    assert (s + [b])[..|s|] == s;
  }

  lemma {:induction false} SerialAppend(poly: u16, init: u16, s: seq<u8>, t: seq<u8>)
    ensures Serial(poly, init, s + t) == Serial(poly, Serial(poly, init, s), t)
    decreases |t|
  {
    if t == [] {
      assert s + t == s;
    } else {
      var u, b := t[..|t| - 1], t[|t| - 1];
      SerialAppend(poly, init, s, u);
      assert t == u + [b] && s + t == (s + u) + [b];
      SerialLonger(poly, init, s + u, b);
      SerialLonger(poly, Serial(poly, init, s), u, b);
    }
  }

  lemma {:induction false} SerialInjective(poly: u16, c: u16, c': u16, t: seq<u8>)
    requires poly % 2 == 1 && Serial(poly, c, t) == Serial(poly, c', t)
    ensures c == c'
    decreases |t|
  {
    if t != [] {
      var u, last := t[..|t| - 1], t[|t| - 1];
      FeedInjective(poly, Serial(poly, c, u), Serial(poly, c', u), last);
      SerialInjective(poly, c, c', u);
    }
  }

  lemma SerialOne(poly: u16, c: u16, a: u8)
    ensures Serial(poly, c, [a]) == Feed(poly, c, a)
  {
    assert Serial(poly, c, [a][..0]) == c;
  }

  lemma SerialPair(poly: u16, c: u16, a: u8, b: u8)
    ensures Serial(poly, c, [a, b]) == Feed(poly, Feed(poly, c, a), b)
  {
    SerialAppend(poly, c, [a], [b]);
    SerialOne(poly, c, a);
    SerialOne(poly, Feed(poly, c, a), b);
    assert [a] + [b] == [a, b];
  }

  /**
   Damage confined to two adjacent bytes is always visible in the CRC, whatever surrounds it:
   messages that share a prefix and a suffix and differ only in the pair between them collide
   only when they are equal.
   */
  lemma PairDamageDetected(poly: u16, init: u16, pre: seq<u8>, a: u8, b: u8, a': u8, b': u8, post: seq<u8>)
    requires poly % 2 == 1
    requires a != a' || b != b'
    ensures Serial(poly, init, pre + [a, b] + post) != Serial(poly, init, pre + [a', b'] + post)
  {
    var c := Serial(poly, init, pre);
    SerialAppend(poly, init, pre, [a, b]);
    SerialAppend(poly, init, pre, [a', b']);
    SerialAppend(poly, init, pre + [a, b], post);
    SerialAppend(poly, init, pre + [a', b'], post);
    SerialPair(poly, c, a, b);
    SerialPair(poly, c, a', b');
    if Serial(poly, init, pre + [a, b] + post) == Serial(poly, init, pre + [a', b'] + post) {
      SerialInjective(poly, Serial(poly, c, [a, b]), Serial(poly, c, [a', b']), post);
      FeedWordInjective(poly, c, a, b, a', b');
    }
  }

  // ---- The lookup table ----

  const ROW_0: seq<u16> := [0x0000, 0x8005, 0x800F, 0x000A, 0x801B, 0x001E, 0x0014, 0x8011, 0x8033, 0x0036, 0x003C, 0x8039, 0x0028, 0x802D, 0x8027, 0x0022]
  const ROW_1: seq<u16> := [0x8063, 0x0066, 0x006C, 0x8069, 0x0078, 0x807D, 0x8077, 0x0072, 0x0050, 0x8055, 0x805F, 0x005A, 0x804B, 0x004E, 0x0044, 0x8041]
  const ROW_2: seq<u16> := [0x80C3, 0x00C6, 0x00CC, 0x80C9, 0x00D8, 0x80DD, 0x80D7, 0x00D2, 0x00F0, 0x80F5, 0x80FF, 0x00FA, 0x80EB, 0x00EE, 0x00E4, 0x80E1]
  const ROW_3: seq<u16> := [0x00A0, 0x80A5, 0x80AF, 0x00AA, 0x80BB, 0x00BE, 0x00B4, 0x80B1, 0x8093, 0x0096, 0x009C, 0x8099, 0x0088, 0x808D, 0x8087, 0x0082]
  const ROW_4: seq<u16> := [0x8183, 0x0186, 0x018C, 0x8189, 0x0198, 0x819D, 0x8197, 0x0192, 0x01B0, 0x81B5, 0x81BF, 0x01BA, 0x81AB, 0x01AE, 0x01A4, 0x81A1]
  const ROW_5: seq<u16> := [0x01E0, 0x81E5, 0x81EF, 0x01EA, 0x81FB, 0x01FE, 0x01F4, 0x81F1, 0x81D3, 0x01D6, 0x01DC, 0x81D9, 0x01C8, 0x81CD, 0x81C7, 0x01C2]
  const ROW_6: seq<u16> := [0x0140, 0x8145, 0x814F, 0x014A, 0x815B, 0x015E, 0x0154, 0x8151, 0x8173, 0x0176, 0x017C, 0x8179, 0x0168, 0x816D, 0x8167, 0x0162]
  const ROW_7: seq<u16> := [0x8123, 0x0126, 0x012C, 0x8129, 0x0138, 0x813D, 0x8137, 0x0132, 0x0110, 0x8115, 0x811F, 0x011A, 0x810B, 0x010E, 0x0104, 0x8101]
  const ROW_8: seq<u16> := [0x8303, 0x0306, 0x030C, 0x8309, 0x0318, 0x831D, 0x8317, 0x0312, 0x0330, 0x8335, 0x833F, 0x033A, 0x832B, 0x032E, 0x0324, 0x8321]
  const ROW_9: seq<u16> := [0x0360, 0x8365, 0x836F, 0x036A, 0x837B, 0x037E, 0x0374, 0x8371, 0x8353, 0x0356, 0x035C, 0x8359, 0x0348, 0x834D, 0x8347, 0x0342]
  const ROW_A: seq<u16> := [0x03C0, 0x83C5, 0x83CF, 0x03CA, 0x83DB, 0x03DE, 0x03D4, 0x83D1, 0x83F3, 0x03F6, 0x03FC, 0x83F9, 0x03E8, 0x83ED, 0x83E7, 0x03E2]
  const ROW_B: seq<u16> := [0x83A3, 0x03A6, 0x03AC, 0x83A9, 0x03B8, 0x83BD, 0x83B7, 0x03B2, 0x0390, 0x8395, 0x839F, 0x039A, 0x838B, 0x038E, 0x0384, 0x8381]
  const ROW_C: seq<u16> := [0x0280, 0x8285, 0x828F, 0x028A, 0x829B, 0x029E, 0x0294, 0x8291, 0x82B3, 0x02B6, 0x02BC, 0x82B9, 0x02A8, 0x82AD, 0x82A7, 0x02A2]
  const ROW_D: seq<u16> := [0x82E3, 0x02E6, 0x02EC, 0x82E9, 0x02F8, 0x82FD, 0x82F7, 0x02F2, 0x02D0, 0x82D5, 0x82DF, 0x02DA, 0x82CB, 0x02CE, 0x02C4, 0x82C1]
  const ROW_E: seq<u16> := [0x8243, 0x0246, 0x024C, 0x8249, 0x0258, 0x825D, 0x8257, 0x0252, 0x0270, 0x8275, 0x827F, 0x027A, 0x826B, 0x026E, 0x0264, 0x8261]
  const ROW_F: seq<u16> := [0x0220, 0x8225, 0x822F, 0x022A, 0x823B, 0x023E, 0x0234, 0x8231, 0x8213, 0x0216, 0x021C, 0x8219, 0x0208, 0x820D, 0x8207, 0x0202]

  /** The table of dynamixel_protocol.c, sixteen entries to a row. */
  const TABLE: seq<seq<u16>> := [
    ROW_0, ROW_1, ROW_2, ROW_3, ROW_4, ROW_5, ROW_6, ROW_7,
    ROW_8, ROW_9, ROW_A, ROW_B, ROW_C, ROW_D, ROW_E, ROW_F
  ]

  predicate Shaped(table: seq<seq<u16>>) {
    && |table| == 16
    && forall r | 0 <= r < 16 :: |table[r]| == 16
  }

  function Entry(table: seq<seq<u16>>, i: u8): u16
    requires Shaped(table)
  {
    table[i / 16][i % 16]
  }

  /** v exclusive-or 0x8005, for an even word v: three bits flip. */
  function FlipPoly(v: int): int {
    v + 1 + (if v / 4 % 2 == 0 then 4 else -4) + (if v < 0x8000 then 0x8000 else -0x8000)
  }

  /** even and odd are the entries at twice the index of a: one more shift, without and with a carried-in bit. */
  predicate Doubles(a: int, even: int, odd: int) {
    && even == (if a < 0x8000 then 2 * a else FlipPoly(2 * a - 0x1_0000))
    && odd == (if a < 0x8000 then FlipPoly(2 * a) else 2 * a - 0x1_0000)
  }

  predicate RowRelates(rel: (int, int, int) -> bool, a: seq<u16>, b: seq<u16>, c: seq<u16>)
  {
    |a| == 16 && |b| == 16 && |c| == 16
    && rel(a[0], b[0], b[1])
    && rel(a[1], b[2], b[3])
    && rel(a[2], b[4], b[5])
    && rel(a[3], b[6], b[7])
    && rel(a[4], b[8], b[9])
    && rel(a[5], b[10], b[11])
    && rel(a[6], b[12], b[13])
    && rel(a[7], b[14], b[15])
    && rel(a[8], c[0], c[1])
    && rel(a[9], c[2], c[3])
    && rel(a[10], c[4], c[5])
    && rel(a[11], c[6], c[7])
    && rel(a[12], c[8], c[9])
    && rel(a[13], c[10], c[11])
    && rel(a[14], c[12], c[13])
    && rel(a[15], c[14], c[15])
  }

  lemma Row0()
    ensures RowRelates(Doubles, ROW_0, ROW_0, ROW_1)
  {
  }

  lemma Row1()
    ensures RowRelates(Doubles, ROW_1, ROW_2, ROW_3)
  {
  }

  lemma Row2()
    ensures RowRelates(Doubles, ROW_2, ROW_4, ROW_5)
  {
  }

  lemma Row3()
    ensures RowRelates(Doubles, ROW_3, ROW_6, ROW_7)
  {
  }

  lemma Row4()
    ensures RowRelates(Doubles, ROW_4, ROW_8, ROW_9)
  {
  }

  lemma Row5()
    ensures RowRelates(Doubles, ROW_5, ROW_A, ROW_B)
  {
  }

  lemma Row6()
    ensures RowRelates(Doubles, ROW_6, ROW_C, ROW_D)
  {
  }

  lemma Row7()
    ensures RowRelates(Doubles, ROW_7, ROW_E, ROW_F)
  {
  }

  lemma RowAt(rel: (int, int, int) -> bool, a: seq<u16>, b: seq<u16>, c: seq<u16>, k: nat)
    requires k < 16 && RowRelates(rel, a, b, c)
    ensures |a| == |b| == |c| == 16
    ensures k < 8 ==> rel(a[k], b[2 * k], b[2 * k + 1])
    ensures k >= 8 ==> rel(a[k], c[2 * k - 16], c[2 * k - 15])
  {
  }

  lemma EntryAt(rel: (int, int, int) -> bool, table: seq<seq<u16>>, i: nat)
    requires i < 128 && Shaped(table)
    requires RowRelates(rel, table[i / 16], table[2 * (i / 16)], table[2 * (i / 16) + 1])
    ensures rel(Entry(table, i), Entry(table, 2 * i), Entry(table, 2 * i + 1))
  {
    var r, k := i / 16, i % 16;
    RowAt(rel, table[r], table[2 * r], table[2 * r + 1], k);
    if k < 8 {
      assert (2 * i) / 16 == 2 * r == (2 * i + 1) / 16;
    } else {
      assert (2 * i) / 16 == 2 * r + 1 == (2 * i + 1) / 16;
    }
  }

  lemma TableShaped()
    ensures Shaped(TABLE) && Entry(TABLE, 0) == 0
  {
  }

  lemma TableRows(r: nat)
    requires r < 4
    ensures |TABLE| == 16 && RowRelates(Doubles, TABLE[r], TABLE[2 * r], TABLE[2 * r + 1])
  {
    if r == 0 { Row0(); }
    else if r == 1 { Row1(); }
    else if r == 2 { Row2(); }
    else { Row3(); }
  }

  lemma TableRowsUpper(r: nat)
    requires 4 <= r < 8
    ensures |TABLE| == 16 && RowRelates(Doubles, TABLE[r], TABLE[2 * r], TABLE[2 * r + 1])
  {
    if r == 4 { Row4(); }
    else if r == 5 { Row5(); }
    else if r == 6 { Row6(); }
    else { Row7(); }
  }

  lemma EntryDoubles(i: nat)
    requires i < 128
    ensures Shaped(TABLE) && Doubles(Entry(TABLE, i), Entry(TABLE, 2 * i), Entry(TABLE, 2 * i + 1))
  {
    TableShaped();
    if i < 64 { TableRows(i / 16); } else { TableRowsUpper(i / 16); }
    EntryAt(Doubles, TABLE, i);
  }

  lemma FlipPolyIsXor(v: u16)
    requires v % 2 == 0
    ensures Xor(v, DXL_POLY) == FlipPoly(v)
  {
    var high: int, low: int := v / 0x100, v % 0x100;
    XorWordFields(high, low, 0x80, 0x05);
    XorHighBit(high);
    XorFive(low);
    FlipParts(v, high, low, Xor(high, 0x80), Xor(low, 0x05));
  }

  lemma FlipParts(v: int, high: int, low: int, flippedHigh: int, flippedLow: int)
    requires v == 0x100 * high + low && 0 <= low < 0x100
    requires flippedHigh == if high < 0x80 then high + 0x80 else high - 0x80
    requires flippedLow == low + 1 + (if low / 4 % 2 == 0 then 4 else -4)
    ensures 0x100 * flippedHigh + flippedLow == FlipPoly(v)
  {
    ThirdBit(high, low);
  }

  lemma ThirdBit(high: int, low: int)
    ensures (0x100 * high + low) / 4 % 2 == low / 4 % 2
  {
    var q := low / 4;
    assert (0x100 * high + low) / 4 == 2 * (32 * high) + q;
  }

  lemma XorFive(v: u8)
    requires v % 2 == 0
    ensures Xor(v, 5) == v + 1 + (if v / 4 % 2 == 0 then 4 else -4)
  {
    var h := v / 4;
    assert Xor(v, 5) == 2 * Xor(v / 2, 2) + 1;
    assert Xor(v / 2, 2) == 2 * Xor(h, 1) + (v / 2) % 2;
    XorOne(h);
  }

  lemma XorOne(v: nat)
    ensures Xor(v, 1) == if v % 2 == 0 then v + 1 else v - 1
  {
    XorZero(v / 2);
  }

  lemma XorHighBit(v: u8)
    ensures Xor(v, 0x80) == if v < 0x80 then v + 0x80 else v - 0x80
  {
    var a: int, t: int := v % 0x80, v / 0x80;
    assert Pow2(4) == 16 && Pow2(7) == 0x80;
    XorFields(7, t, a, 1, 0);
    LeftSeven(t);
    LeftSeven(1);
    LeftSeven(Xor(t, 1));
    XorZero(a);
    XorOne(t);
  }

  lemma LeftSeven(a: nat)
    ensures Left(a, 7) == 0x80 * a
  {
    LeftByte(a);
    assert Left(a, 8) == 2 * Left(a, 7);
  }

  lemma OneShiftedOut(poly: u16)
    ensures Shifts(poly, 0x100, 8) == poly
  {
    ShiftsAdd(poly, 0x100, 7, 1);
    assert Left(0x100, 2) == 0x400;
    assert Left(0x100, 4) == 0x1000;
    assert Left(0x100, 6) == 0x4000;
    assert Left(0x100, 7) == 0x8000;
    ShiftsSmall(poly, 0x100, 7);
    XorCommutes(0, poly);
    XorZero(poly);
    assert Shifts(poly, 0x8000, 1) == Shifts(poly, Shift(poly, 0x8000), 0);
  }

  lemma ShiftCommutes(poly: u16, x: u16)
    ensures Shifts(poly, Shift(poly, x), 8) == Shift(poly, Shifts(poly, x, 8))
  {
    ShiftsAdd(poly, x, 1, 8);
    ShiftsAdd(poly, x, 8, 1);
    var y := Shifts(poly, x, 8);
    assert Shifts(poly, y, 1) == Shifts(poly, Shift(poly, y), 0);
    assert Shifts(poly, x, 1) == Shifts(poly, Shift(poly, x), 0);
  }

  /** What eight steps make of the indices 2j and 2j + 1, from what they make of j. */
  lemma DoubledIndex(j: nat)
    requires j < 128
    ensures Shifts(DXL_POLY, 0x200 * j, 8) == Shift(DXL_POLY, Shifts(DXL_POLY, 0x100 * j, 8))
    ensures Shifts(DXL_POLY, 0x200 * j + 0x100, 8) == XorWord(Shifts(DXL_POLY, 0x200 * j, 8), DXL_POLY)
  {
    ShiftCommutes(DXL_POLY, 0x100 * j);
    OneShiftedOut(DXL_POLY);
    XorOddIndex(j);
    ShiftsLinear(DXL_POLY, 0x200 * j, 0x100, 8);
  }

  lemma XorOddIndex(j: nat)
    requires j < 128
    ensures Xor(0x200 * j, 0x100) == 0x200 * j + 0x100
  {
    var k: int := 2 * j;
    XorWordFields(k, 0, 1, 0);
    XorOne(k);
    XorZero(0);
    assert 0x100 * k + 0 == 0x200 * j && 0x100 * 1 + 0 == 0x100;
  }

  lemma FlippedTwice(v: u16)
    ensures Xor(XorWord(v, DXL_POLY), DXL_POLY) == v
  {
    XorAssociates(v, DXL_POLY, DXL_POLY);
    XorSelf(DXL_POLY);
    XorZero(v);
  }

  lemma FlippedIs(v: u16, flipped: u16)
    requires v % 2 == 0 && flipped == FlipPoly(v)
    ensures flipped == XorWord(v, DXL_POLY) && XorWord(flipped, DXL_POLY) == v
  {
    FlipPolyIsXor(v);
    FlippedTwice(v);
  }

  lemma DoubledEntry(a: u16, even: u16, odd: u16)
    requires Doubles(a, even, odd)
    ensures even == Shift(DXL_POLY, a) && odd == XorWord(even, DXL_POLY)
  {
    if a < 0x8000 {
      FlippedIs(2 * a, odd);
    } else {
      DoubledHigh(a, even, odd);
    }
  }

  lemma DoubledHigh(a: u16, even: u16, odd: u16)
    requires a >= 0x8000 && even == FlipPoly(2 * a - 0x1_0000) && odd == 2 * a - 0x1_0000
    ensures even == Shift(DXL_POLY, a) && odd == XorWord(even, DXL_POLY)
  {
    FlippedIs(odd, even);
  }

  /** Twice an index is one more shift; an odd index has a bit brought in at the bottom. */
  predicate DoublesAt(table: seq<seq<u16>>, j: nat)
    requires Shaped(table) && j < 128
  {
    && Entry(table, 2 * j) == Shift(DXL_POLY, Entry(table, j))
    && Entry(table, 2 * j + 1) == XorWord(Entry(table, 2 * j), DXL_POLY)
  }

  predicate DoublingUpTo(table: seq<seq<u16>>, n: nat)
    requires Shaped(table) && n <= 128
  {
    n == 0 || (DoublesAt(table, n - 1) && DoublingUpTo(table, n - 1))
  }

  /** The table starts with zero and doubles throughout. */
  predicate Doubling(table: seq<seq<u16>>)
    requires Shaped(table)
  {
    Entry(table, 0) == 0 && DoublingUpTo(table, 128)
  }

  lemma {:induction false} DoublingAt(table: seq<seq<u16>>, n: nat, j: nat)
    requires Shaped(table) && j < n <= 128 && DoublingUpTo(table, n)
    ensures DoublesAt(table, j)
    decreases n
  {
    if j < n - 1 {
      DoublingAt(table, n - 1, j);
    }
  }

  lemma {:induction false} DoublingFrom(table: seq<seq<u16>>, n: nat)
    requires Shaped(table) && n <= 128 && forall j | 0 <= j < n :: DoublesAt(table, j)
    ensures DoublingUpTo(table, n)
    decreases n
  {
    if n > 0 {
      DoublingFrom(table, n - 1);
    }
  }

  lemma TableDoubles()
    ensures Shaped(TABLE) && Doubling(TABLE)
  {
    TableShaped();
    forall j | 0 <= j < 128
      ensures DoublesAt(TABLE, j)
    {
      EntriesDouble(j);
    }
    DoublingFrom(TABLE, 128);
  }

  lemma EntriesDouble(j: nat)
    requires j < 128
    ensures Shaped(TABLE) && DoublesAt(TABLE, j)
  {
    EntryDoubles(j);
    DoubledEntry(Entry(TABLE, j), Entry(TABLE, 2 * j), Entry(TABLE, 2 * j + 1));
  }

  /** Every entry of a doubling table is what eight bit-serial steps make of its index. */
  lemma {:induction false} EntryIsSerial(table: seq<seq<u16>>, i: nat)
    requires i < 0x100 && Shaped(table) && Doubling(table)
    ensures Entry(table, i) == Shifts(DXL_POLY, 0x100 * i, 8)
    decreases i
  {
    if i == 0 {
      LeftByte(0);
      ShiftsSmall(DXL_POLY, 0, 8);
    } else {
      EntryIsSerial(table, i / 2);
      EntryFollows(table, i / 2, i);
    }
  }

  lemma EntryFollows(table: seq<seq<u16>>, j: nat, i: nat)
    requires j < 128 && Shaped(table) && Doubling(table) && (i == 2 * j || i == 2 * j + 1)
    requires Entry(table, j) == Shifts(DXL_POLY, 0x100 * j, 8)
    ensures Entry(table, i) == Shifts(DXL_POLY, 0x100 * i, 8)
  {
    DoublingAt(table, 128, j);
    if i == 2 * j {
      EvenFollows(Entry(table, j), Entry(table, i), j, i);
    } else {
      OddFollows(Entry(table, j), Entry(table, i - 1), Entry(table, i), j, i);
    }
  }

  lemma EvenFollows(a: u16, even: u16, j: nat, i: nat)
    requires j < 128 && i == 2 * j && even == Shift(DXL_POLY, a) && a == Shifts(DXL_POLY, 0x100 * j, 8)
    ensures even == Shifts(DXL_POLY, 0x100 * i, 8)
  {
    DoubledIndex(j);
    assert 0x100 * i == 0x200 * j;
  }

  lemma OddFollows(a: u16, even: u16, odd: u16, j: nat, i: nat)
    requires j < 128 && i == 2 * j + 1 && even == Shift(DXL_POLY, a) && a == Shifts(DXL_POLY, 0x100 * j, 8)
    requires odd == XorWord(even, DXL_POLY)
    ensures odd == Shifts(DXL_POLY, 0x100 * i, 8)
  {
    DoubledIndex(j);
    assert 0x100 * i == 0x200 * j + 0x100;
  }

  /** One table-driven step, as dxl_crc16 takes it. */
  function TableStep(table: seq<seq<u16>>, crc: u16, data: u8): u16
    requires Shaped(table)
  {
    XorWord(crc * 0x100 % 0x1_0000, Entry(table, XorByte(crc / 0x100, data)))
  }

  function XorByte(a: u8, b: u8): (r: u8)
    ensures r == Xor(a, b)
  {
    assert Pow2(4) == 16 && Pow2(8) == 0x100;
    XorBound(8, a, b);
    Xor(a, b)
  }

  lemma TableStepForm(table: seq<seq<u16>>, hi: u8, lo: u8, data: u8)
    requires Shaped(table)
    ensures TableStep(table, Le16(lo, hi), data) == XorWord(0x100 * (lo as int), Entry(table, XorByte(hi, data)))
  {
    assert Le16(lo, hi) * 0x100 % 0x1_0000 == 0x100 * (lo as int);
  }

  lemma TableStepIsFeed(table: seq<seq<u16>>, crc: u16, data: u8)
    requires Shaped(table) && Doubling(table)
    ensures TableStep(table, crc, data) == Feed(DXL_POLY, crc, data)
  {
    var hi, lo := crc / 0x100, crc % 0x100;
    TableStepForm(table, hi, lo, data);
    EntryIsSerial(table, XorByte(hi, data));
    FeedBySplit(hi, lo, data);
  }

  /** Feeding in two parts: the index byte through all eight steps, the rest of the register just moved up. */
  lemma FeedBySplit(hi: u8, lo: u8, data: u8)
    ensures Feed(DXL_POLY, Le16(lo, hi), data) ==
            XorWord(0x100 * (lo as int), Shifts(DXL_POLY, 0x100 * (XorByte(hi, data) as int), 8))
  {
    var idx: int := XorByte(hi, data);
    ByteIntoWord(hi, lo, data);
    WordFields(idx, lo);
    ShiftsLinear(DXL_POLY, 0x100 * idx, lo, 8);
    LeftByte(lo);
    ShiftsSmall(DXL_POLY, lo, 8);
    XorCommutes(0x100 * (lo as int), Shifts(DXL_POLY, 0x100 * idx, 8));
  }

  lemma ByteIntoWord(hi: u8, lo: u8, data: u8)
    ensures Xor(Le16(lo, hi), 0x100 * (data as int)) == 0x100 * Xor(hi, data) + lo
  {
    XorWordFields(hi, lo, data, 0);
    XorZero(lo);
  }

  /** dxl_crc16: the table-driven loop computes the bit-serial CRC of the message. */
  method DxlCrc16(data: seq<u8>) returns (crc: u16)
    ensures crc == Serial(DXL_POLY, 0, data)
  {
    crc := 0;
    TableDoubles();
    for i := 0 to |data|
      invariant crc == Serial(DXL_POLY, 0, data[..i])
    {
      TableStepIsFeed(TABLE, crc, data[i]);
      assert data[..i + 1][..i] == data[..i];
      crc := TableStep(TABLE, crc, data[i]);
    }
    assert data[..|data|] == data;
  }

  /** eeprom_hours_crc16: the nested bit loop computes the same CRC with its own polynomial and start value. */
  method HoursCrc16(data: seq<u8>) returns (crc: u16)
    ensures crc == Serial(HOURS_POLY, 0xFFFF, data)
  {
    crc := 0xFFFF;
    for i := 0 to |data|
      invariant crc == Serial(HOURS_POLY, 0xFFFF, data[..i])
    {
      assert data[..i + 1][..i] == data[..i];
      var next: int := data[i];
      crc := XorWord(crc, 0x100 * next);
      for bit := 0 to 8
        invariant Shifts(HOURS_POLY, crc, 8 - bit) == Serial(HOURS_POLY, 0xFFFF, data[..i + 1])
      {
        crc := if crc >= 0x8000 then XorWord(2 * crc - 0x1_0000, HOURS_POLY) else 2 * crc;
      }
    }
    assert data[..|data|] == data;
  }

  /** A byte fed in that is already at the top of the register leaves only what is below it, moved up. */
  lemma TopCancels(poly: u16, crc: u16, high: u8, low: u8)
    requires crc == 0x100 * high + low
    ensures Feed(poly, crc, high) == 0x100 * low
  {
    assert Pow2(4) == 16 && Pow2(8) == 256;
    LeftByte(high);
    XorFields(8, high, low, high, 0);
    XorSelf(high);
    XorZero(low);
    LeftByte(0);
    LeftByte(low);
    ShiftsSmall(poly, low, 8);
  }

  lemma OnesCancel()
    ensures Feed(HOURS_POLY, 0xFFFF, 0xFF) == 0xFF00 && Feed(HOURS_POLY, 0xFF00, 0xFF) == 0
  {
    TopCancels(HOURS_POLY, 0xFFFF, 0xFF, 0xFF);
    TopCancels(HOURS_POLY, 0xFF00, 0xFF, 0);
  }

  lemma ThenOne()
    ensures Feed(HOURS_POLY, 0, 0x01) == 0x1021
  {
    XorCommutes(0, 0x100);
    XorZero(0x100);
    OneShiftedOut(HOURS_POLY);
  }

  /** Two bytes of ones cancel the initial value of the odometer's CRC, and a last 1 brings out its polynomial. */
  lemma HoursKnown()
    ensures Serial(HOURS_POLY, 0xFFFF, [0xFF, 0xFF]) == 0 && Serial(HOURS_POLY, 0xFFFF, [0xFF, 0xFF, 0x01]) == 0x1021
  {
    OnesCancel();
    SerialPair(HOURS_POLY, 0xFFFF, 0xFF, 0xFF);
    ThenOne();
    SerialAppend(HOURS_POLY, 0xFFFF, [0xFF, 0xFF], [0x01]);
    SerialOne(HOURS_POLY, 0, 0x01);
    assert [0xFF, 0xFF] + [0x01] == [0xFF, 0xFF, 0x01];
  }
}
