/**
 * The disk usage figures shown on the configuration page and the random
 * number helper: unit conversions with Go's truncating division, the
 * uint64 arithmetic on the statfs counters, and a little-endian decode.
 */
module Disk {
  import opened Wrappers
  import opened GoInt

  /** Free and used bytes, as int64 values. */
  datatype DiskInfo = DiskInfo(free: Int64, used: Int64)

  const KiB: int := 1024

  /** Bytes to whole mebibytes: two truncating divisions by 1024. */
  function MB(x: int): int { Quot(Quot(x, KiB), KiB) }

  /** Bytes to whole gibibytes: the mebibytes divided once more. */
  function GB(x: int): int { Quot(MB(x), KiB) }

  /** Total(): the int64 sum of free and used, which wraps on overflow. */
  function Total(d: DiskInfo): (r: Int64)
    ensures IsInt64(d.free + d.used) ==> r == d.free + d.used
    ensures (r - (d.free + d.used)) % TwoTo64 == 0
  {
    WrapInt64(d.free + d.used)
  }

  function Free(d: DiskInfo): Int64 { d.free }
  function Used(d: DiskInfo): Int64 { d.used }
  function TotalMB(d: DiskInfo): int { MB(Total(d)) }
  function TotalGB(d: DiskInfo): int { GB(Total(d)) }
  function FreeMB(d: DiskInfo): int { MB(d.free) }
  function FreeGB(d: DiskInfo): int { GB(d.free) }
  function UsedMB(d: DiskInfo): int { MB(d.used) }
  function UsedGB(d: DiskInfo): int { GB(d.used) }

  /** Dividing by 1024 twice is dividing by 2^20, for non-negative values. */
  lemma DivKiBKiB(x: nat)
    ensures (x / KiB) / KiB == x / 0x10_0000
  {
    var q := x / KiB;
    var q2 := q / KiB;
    assert x == KiB * q + x % KiB;
    assert q == KiB * q2 + q % KiB;
    var r := KiB * (q % KiB) + x % KiB;
    assert x == 0x10_0000 * q2 + r;
    assert 0 <= r < 0x10_0000;
  }

  /** Dividing by 2^20 and then by 1024 is dividing by 2^30, for non-negative values. */
  lemma DivMiBKiB(x: nat)
    ensures (x / 0x10_0000) / KiB == x / 0x4000_0000
  {
    var q := x / 0x10_0000;
    var q2 := q / KiB;
    assert x == 0x10_0000 * q + x % 0x10_0000;
    assert q == KiB * q2 + q % KiB;
    var r := 0x10_0000 * (q % KiB) + x % 0x10_0000;
    assert x == 0x4000_0000 * q2 + r;
    assert 0 <= r < 0x4000_0000;
  }

  /** For non-negative byte counts the units are floor divisions by 2^20 and 2^30, and never grow. */
  lemma UnitsNonNegative(x: int)
    requires x >= 0
    ensures MB(x) == x / 0x10_0000
    ensures GB(x) == x / 0x4000_0000
    ensures 0 <= GB(x) <= MB(x) <= x
  {
    DivKiBKiB(x);
    DivMiBKiB(x);
    assert MB(x) == (x / KiB) / KiB;
    assert GB(x) == MB(x) / KiB;
  }

  /** Negative byte counts convert toward zero: the unit of -x is minus the unit of x. */
  lemma UnitsNegative(x: int)
    requires x < 0
    ensures MB(x) == -MB(-x) && GB(x) == -GB(-x)
  {
    var m := (-x) / KiB;
    assert Quot(x, KiB) == -m;
    if m > 0 {
      assert Quot(-m, KiB) == -(m / KiB);
    }
    UnitsNonNegative(-x);
    assert MB(x) == -MB(-x);
    if MB(-x) > 0 {
      assert Quot(-MB(-x), KiB) == -(MB(-x) / KiB);
    }
  }

  /** The counters of a statfs call: available and total blocks, and the block size. */
  datatype Statfs = Statfs(bavail: Uint64, blocks: Uint64, bsize: Int64)

  /**
   * NewDiskInfo: free is available blocks times block size and used is total
   * minus free, computed in uint64 and stored as int64; a failed statfs is
   * reported with its error.
   */
  function NewDiskInfo(stat: Result<Statfs, string>): Result<DiskInfo, string>
  {
    if stat.Failure? then Failure("diskinfo failed: " + stat.error)
    else
      var st := stat.value;
      var bsize := WrapUint64(st.bsize);
      var free := WrapUint64(st.bavail * bsize);
      var used := WrapUint64(WrapUint64(st.blocks * bsize) - free);
      Success(DiskInfo(WrapInt64(free), WrapInt64(used)))
  }

  /**
   * When the counters fit, free and used are the available and the occupied
   * blocks in bytes, and the total is the size of the filesystem.
   */
  lemma NewDiskInfoExact(st: Statfs)
    requires st.bsize >= 0 && st.bavail <= st.blocks && st.blocks * st.bsize <= MaxInt64
    ensures NewDiskInfo(Success(st)).Success?
    ensures NewDiskInfo(Success(st)).value.free == st.bavail * st.bsize
    ensures NewDiskInfo(Success(st)).value.used == (st.blocks - st.bavail) * st.bsize
    ensures Total(NewDiskInfo(Success(st)).value) == st.blocks * st.bsize
  {
    FreeBytes(st);
    UsedBytes(st);
    var free := st.bavail * st.bsize;
    var used := (st.blocks - st.bavail) * st.bsize;
    var f := WrapUint64(st.bavail * WrapUint64(st.bsize));
    var u := WrapUint64(WrapUint64(st.blocks * WrapUint64(st.bsize)) - f);
    assert f == free && u == used;
    assert NewDiskInfo(Success(st)) == Success(DiskInfo(WrapInt64(f), WrapInt64(u)));
    assert WrapInt64(f) == free && WrapInt64(u) == used;
    MulSub(st.blocks, st.bavail, st.bsize);
    assert free + used == st.blocks * st.bsize;
  }

  lemma FreeBytes(st: Statfs)
    requires st.bsize >= 0 && st.bavail <= st.blocks && st.blocks * st.bsize <= MaxInt64
    ensures 0 <= st.bavail * st.bsize <= st.blocks * st.bsize
    ensures WrapUint64(st.bavail * WrapUint64(st.bsize)) == st.bavail * st.bsize
  {
    MulMono(st.bavail, st.blocks, st.bsize);
    assert WrapUint64(st.bsize) == st.bsize;
  }

  lemma UsedBytes(st: Statfs)
    requires st.bsize >= 0 && st.bavail <= st.blocks && st.blocks * st.bsize <= MaxInt64
    ensures 0 <= (st.blocks - st.bavail) * st.bsize <= st.blocks * st.bsize
    ensures WrapUint64(WrapUint64(st.blocks * WrapUint64(st.bsize)) - st.bavail * st.bsize) == (st.blocks - st.bavail) * st.bsize
  {
    FreeBytes(st);
    var all := st.blocks * st.bsize;
    assert WrapUint64(st.bsize) == st.bsize;
    assert WrapUint64(all) == all;
    MulSub(st.blocks, st.bavail, st.bsize);
    assert WrapUint64(all - st.bavail * st.bsize) == all - st.bavail * st.bsize;
  }

  lemma MulSub(x: int, y: int, k: int)
    ensures x * k - y * k == (x - y) * k
  {
  }

  lemma MulMono(x: nat, y: nat, k: nat)
    requires x <= y
    ensures x * k <= y * k
  {
  }

  /** A failed statfs is passed on. */
  lemma NewDiskInfoError(err: string)
    ensures NewDiskInfo(Failure(err)) == Failure("diskinfo failed: " + err)
  {
  }

  // ------------------------------------------------------------- RandomNumber

  type Byte = x: int | 0 <= x < 256

  /** binary.LittleEndian.Uint32: the first byte is the least significant. */
  function LittleEndianUint32(b: seq<Byte>): (n: int)
    requires |b| == 4
    ensures 0 <= n < 0x1_0000_0000
  {
    b[0] as int + 0x100 * (b[1] as int) + 0x1_0000 * (b[2] as int) + 0x100_0000 * (b[3] as int)
  }

  /** The four little-endian bytes of a uint32. */
  function LittleEndianBytes(n: int): (b: seq<Byte>)
    requires 0 <= n < 0x1_0000_0000
    ensures |b| == 4
  {
    [n % 0x100, (n / 0x100) % 0x100, (n / 0x1_0000) % 0x100, n / 0x100_0000]
  }

  /** Decoding and encoding are inverse: every uint32 has exactly one byte sequence. */
  lemma LittleEndianRoundTrip(n: int, b: seq<Byte>)
    requires 0 <= n < 0x1_0000_0000 && |b| == 4
    ensures LittleEndianUint32(LittleEndianBytes(n)) == n
    ensures LittleEndianBytes(LittleEndianUint32(b)) == b
  {
    EncodeDecode(n);
    DecodeEncode(b);
  }

  lemma EncodeDecode(n: int)
    requires 0 <= n < 0x1_0000_0000
    ensures LittleEndianUint32(LittleEndianBytes(n)) == n
  {
    var q1 := n / 0x100;
    var q2 := q1 / 0x100;
    assert n == n % 0x100 + 0x100 * q1;
    assert q1 == q1 % 0x100 + 0x100 * q2;
    assert q2 == q2 % 0x100 + 0x100 * (q2 / 0x100);
    DivDiv256(n);
    DivDiv256(q1);
    DivDiv256(n / 0x1_0000);
  }

  /** Dividing by 256 twice is dividing by 65536. */
  lemma DivDiv256(x: int)
    requires x >= 0
    ensures x / 0x100 / 0x100 == x / 0x1_0000
    ensures x / 0x1_0000 / 0x100 == x / 0x100_0000
  {
  }

  lemma DecodeEncode(b: seq<Byte>)
    requires |b| == 4
    ensures LittleEndianBytes(LittleEndianUint32(b)) == b
  {
    var q2 := b[2] as int + 0x100 * (b[3] as int);
    var q1 := b[1] as int + 0x100 * q2;
    var m := b[0] as int + 0x100 * q1;
    assert m == LittleEndianUint32(b);
    DivMod256(b[0], q1);
    DivMod256(b[1], q2);
    DivMod256(b[2], b[3]);
    DivDiv256(m);
    assert m / 0x1_0000 == q2;
    assert m / 0x100_0000 == b[3];
  }

  /** The low byte and the rest of a number written in base 256. */
  lemma DivMod256(a: int, q: int)
    requires 0 <= a < 0x100
    ensures (a + 0x100 * q) / 0x100 == q && (a + 0x100 * q) % 0x100 == a
  {
  }

  /** RandomNumber: the four random bytes read little-endian, or the read error. */
  function RandomNumber(read: Result<seq<Byte>, string>): (r: Result<int, string>)
    requires read.Success? ==> |read.value| == 4
    ensures r.Success? <==> read.Success?
    ensures r.Success? ==> 0 <= r.value < 0x1_0000_0000 && LittleEndianBytes(r.value) == read.value
  {
    if read.Failure? then Failure(read.error)
    else
      DecodeEncode(read.value);
      Success(LittleEndianUint32(read.value))
  }
}
