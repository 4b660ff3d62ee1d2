/**
 * The checksum protocol of the SJH-5 infrared methane sensor, shared by
 * `sjh5Reader.py`, `sjh5aReader.py` and `mReader.py`: a request is
 * `[IP, LB, CMD, CS]` where the checksum byte makes the frame sum to zero
 * modulo 256, and a concentration reading is a big-endian pair of bytes in
 * hundredths of the unit.
 */
module SjhProtocol {
  import opened Serial

  /** The sensor's fixed address. */
  const IP: byte := 0x11
  /** The length byte: one command byte, the checksum excluded. */
  const LengthByte: byte := 0x01
  const CmdCheckMeasurement: byte := 0x01

  /** `sum(data)`. */
  function Sum(data: seq<int>): int {
    if data == [] then 0 else Sum(data[..|data| - 1]) + data[|data| - 1]
  }

  /**
   * `calculate_checksum`: `(-sum(data)) & 0xFF`. On Python's unbounded integers,
   * masking with 0xFF is reduction modulo 256 into 0..255, even for a negative sum.
   */
  function Checksum(data: seq<int>): (cs: byte)
    ensures (Sum(data) + cs) % 256 == 0
  {
    (-Sum(data)) % 256
  }

  /** The checksum is the only byte that brings the sum to zero modulo 256. */
  lemma ChecksumUnique(data: seq<int>, c: int)
    requires 0 <= c < 256 && (Sum(data) + c) % 256 == 0
    ensures c == Checksum(data)
  {
    var s := Sum(data);
    var cs := Checksum(data);
    assert (c - cs) % 256 == 0 by {
      assert c - cs == (s + c) - (s + cs);
    }
  }

  /** The frame check a receiver of these frames applies: all bytes sum to zero modulo 256. */
  predicate SumsToZero(f: seq<int>) {
    Sum(f) % 256 == 0
  }

  /** `data + [calculate_checksum(data)]`. */
  function Framed(data: seq<byte>): (f: seq<byte>)
    ensures |f| == |data| + 1 && f[..|data|] == data && SumsToZero(f)
  {
    var f := data + [Checksum(data)];
    assert f[..|data|] == data;
    f
  }

  /** The request frame `[IP, LB, cmd, CS]` sent for command `cmd`. */
  function RequestFrame(cmd: byte): (f: seq<byte>)
    ensures |f| == 4 && f[0] == IP && f[1] == LengthByte && f[2] == cmd && SumsToZero(f)
  {
    Framed([IP, LengthByte, cmd])
  }

  /** The measurement request is `11 01 01 ED`. */
  lemma MeasurementRequest()
    ensures Checksum([IP, LengthByte, CmdCheckMeasurement]) == 0xED
    ensures RequestFrame(CmdCheckMeasurement) == [0x11, 0x01, 0x01, 0xED]
  {
    var d: seq<int> := [IP, LengthByte, CmdCheckMeasurement];
    assert d[..2] == [0x11, 0x01] && d[..2][..1] == [0x11] && d[..2][..1][..0] == [];
    assert Sum(d[..2][..1]) == 0x11;
    assert Sum(d[..2]) == 0x12;
    assert Sum(d) == 0x13;
  }

  /** Changing one element by `d` changes the sum by `d`. */
  lemma {:induction false} SumUpdate(f: seq<int>, i: nat, b: int)
    requires i < |f|
    ensures Sum(f[i := b]) == Sum(f) - f[i] + b
    decreases |f|
  {
    var n := |f| - 1;
    if i < n {
      SumUpdate(f[..n], i, b);
      assert f[i := b][..n] == f[..n][i := b];
    } else {
      assert f[i := b][..n] == f[..n];
    }
  }

  /** The checksum catches every single-byte corruption of a frame. */
  lemma SingleByteErrorDetected(f: seq<byte>, i: nat, b: byte)
    requires SumsToZero(f) && i < |f| && b != f[i]
    ensures !SumsToZero(f[i := b])
  {
    SumUpdate(f, i, b);
    var d := b - f[i];
    assert Sum(f[i := b]) == Sum(f) + d;
    assert -256 < d < 256 && d != 0;
  }

  /** `df1 * 256 + df2`: the big-endian 16-bit value of two data bytes (a concentration in hundredths, or a range mantissa). */
  function Word(hi: byte, lo: byte): (h: int)
    ensures 0 <= h <= 65535
    ensures h / 256 == hi && h % 256 == lo
  {
    hi * 256 + lo
  }
}
