/** Big-endian integers on the wire. */
module Wire {
  import opened Base

  function Put16(x: u16): (b: Bytes)
    ensures |b| == 2
  {
    [x / 0x100, x % 0x100]
  }

  function Put32(x: u32): (b: Bytes)
    ensures |b| == 4
  {
    Put16(x / 0x1_0000) + Put16(x % 0x1_0000)
  }

  function Put64(x: u64): (b: Bytes)
    ensures |b| == 8
  {
    Put32(x / 0x1_0000_0000) + Put32(x % 0x1_0000_0000)
  }

  function Get16(b: Bytes): u16
    requires |b| == 2
  {
    var hi: int, lo: int := b[0], b[1];
    hi * 0x100 + lo
  }

  function Get32(b: Bytes): u32
    requires |b| == 4
  {
    var hi: int, lo: int := Get16(b[..2]), Get16(b[2..]);
    hi * 0x1_0000 + lo
  }

  function Get64(b: Bytes): u64
    requires |b| == 8
  {
    var hi: int, lo: int := Get32(b[..4]), Get32(b[4..]);
    hi * 0x1_0000_0000 + lo
  }

  lemma GetPut16(x: u16)
    ensures Get16(Put16(x)) == x
  {
  }

  lemma PutGet16(b: Bytes)
    requires |b| == 2
    ensures Put16(Get16(b)) == b
  {
  }

  lemma GetPut32(x: u32)
    ensures Get32(Put32(x)) == x
  {
    var b := Put32(x);
    assert b[..2] == Put16(x / 0x1_0000) && b[2..] == Put16(x % 0x1_0000);
    GetPut16(x / 0x1_0000);
    GetPut16(x % 0x1_0000);
  }

  lemma PutGet32(b: Bytes)
    requires |b| == 4
    ensures Put32(Get32(b)) == b
  {
    PutGet16(b[..2]);
    PutGet16(b[2..]);
    assert b == b[..2] + b[2..];
  }

  lemma GetPut64(x: u64)
    ensures Get64(Put64(x)) == x
  {
    var b := Put64(x);
    assert b[..4] == Put32(x / 0x1_0000_0000) && b[4..] == Put32(x % 0x1_0000_0000);
    GetPut32(x / 0x1_0000_0000);
    GetPut32(x % 0x1_0000_0000);
  }

  lemma JoinedHalves(hi: u32, lo: u32)
    ensures var x := hi * 0x1_0000_0000 + lo;
            x / 0x1_0000_0000 == hi && x % 0x1_0000_0000 == lo
  {
  }

  lemma PutGet64(b: Bytes)
    requires |b| == 8
    ensures Put64(Get64(b)) == b
  {
    hide Get32, Put32;
    JoinedHalves(Get32(b[..4]), Get32(b[4..]));
    PutGet32(b[..4]);
    PutGet32(b[4..]);
    assert b == b[..4] + b[4..];
  }
}
