/** The RAM-backed block device of src/ramfs.c: a flat byte image read and written in blocks. */
module RamDisk {
  type Byte = n: nat | n < 256

  /** Number of whole blocks in the image (`total_blks`). */
  function Blocks(image: seq<Byte>): nat { |image| / 512 }

  function BlockAt(image: seq<Byte>, b: nat): (d: seq<Byte>)
    requires b < Blocks(image)
    ensures |d| == 512
  {
    image[512 * b..512 * b + 512]
  }

  /** The write branch of `ramfs_readwrite`: one `memcpy` into the image. */
  function PutBlock(image: seq<Byte>, b: nat, d: seq<Byte>): (r: seq<Byte>)
    requires b < Blocks(image) && |d| == 512
    ensures |r| == |image|
  {
    image[..512 * b] + d + image[512 * b + 512..]
  }

  /** A block reads back as written and no other block changes. */
  lemma {:induction false} PutThenGet(image: seq<Byte>, b: nat, d: seq<Byte>, c: nat)
    requires b < Blocks(image) && |d| == 512 && c < Blocks(image)
    ensures BlockAt(PutBlock(image, b, d), c) == if c == b then d else BlockAt(image, c)
  {
    var r := PutBlock(image, b, d);
    if c == b {
      assert r[512 * b..512 * b + 512] == d;
    } else if c < b {
      assert 512 * c + 512 <= 512 * b;
      assert r[512 * c..512 * c + 512] == image[512 * c..512 * c + 512];
    } else {
      assert 512 * b + 512 <= 512 * c;
      assert r[512 * c..512 * c + 512] == image[512 * c..512 * c + 512];
    }
  }

  /** Where a block lies: byte `k` of block `b` is byte 512 b + k of the image, and writing the block
      changes exactly those bytes. */
  lemma {:induction false} BlockBytes(image: seq<Byte>, b: nat, d: seq<Byte>)
    requires b < Blocks(image) && |d| == 512
    ensures 512 * b + 512 <= |image|
    ensures forall k :: 0 <= k < 512 ==> BlockAt(image, b)[k] == image[512 * b + k]
    ensures var r := PutBlock(image, b, d);
      && (forall k :: 0 <= k < 512 ==> r[512 * b + k] == d[k])
      && forall j :: 0 <= j < |image| && !(512 * b <= j < 512 * b + 512) ==> r[j] == image[j]
  {
  }
}
