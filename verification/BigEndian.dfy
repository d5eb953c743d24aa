/** Big-endian words: the most significant byte comes first. */
module BigEndian {
  import opened Bytes

  function Be16(v: u16): (r: seq<u8>)
    ensures |r| == 2
  {
    [v / 0x100, v % 0x100]
  }

  function Be32(v: u32): (r: seq<u8>)
    ensures |r| == 4
  {
    [v / 0x100_0000, v / 0x1_0000 % 0x100, v / 0x100 % 0x100, v % 0x100]
  }

  function Word(a: u8, b: u8): u16 {
    0x100 * (a as int) + b
  }

  function Long(q: seq<u8>): u32
    requires |q| == 4
  {
    0x100_0000 * (q[0] as int) + 0x1_0000 * (q[1] as int) + 0x100 * (q[2] as int) + q[3]
  }

  lemma WordRoundTrip(v: u16, a: u8, b: u8)
    ensures Word(Be16(v)[0], Be16(v)[1]) == v && Be16(Word(a, b)) == [a, b]
  {
  }

  lemma LongSplit(v: u32)
    ensures Long(Be32(v)) == v
  {
    assert v / 0x100_0000 == v / 0x1_0000 / 0x100 && v / 0x1_0000 == v / 0x100 / 0x100;
  }

  lemma LongJoin(q: seq<u8>)
    requires |q| == 4
    ensures Be32(Long(q)) == q
  {
    var v := Long(q);
    assert v / 0x100 == 0x1_0000 * (q[0] as int) + 0x100 * (q[1] as int) + q[2];
    assert v / 0x1_0000 == 0x100 * (q[0] as int) + q[1];
    assert v / 0x100_0000 == q[0] as int;
  }
}
