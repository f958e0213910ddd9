/** The layout of a volume: master block, bitmap, inode table and data blocks. */
module Layout {
  import opened Arith
  import opened Signature

  const INODE_SIZE: nat := 256
  const MASTER_BLOCK_SIZE: nat := 80
  const MAGIC_NUMBER: nat := 0x4A5B

  datatype MasterBlock = MasterBlock(
    blockSize: nat, numberOfBlocks: nat, numberOfFreeBlocks: nat, dataStartBlock: nat, firstFreeBlockNumber: nat,
    numberOfBitmapBlocks: nat, numberOfInodeTableBlocks: nat, firstInodeTableBlock: nat, firstFreeInode: nat,
        magic: nat)

  function GetInitialMasterBlock(blockSize: nat, numberOfBlocks: nat): MasterBlock
    requires blockSize >= INODE_SIZE && numberOfBlocks > 0
  {
    var bitmapBlocks := CeilDiv(numberOfBlocks, blockSize * 8);
    var inodeBlocks := CeilDiv(numberOfBlocks, blockSize / INODE_SIZE);
    MasterBlock(blockSize, numberOfBlocks, numberOfBlocks - 1, 1 + bitmapBlocks + inodeBlocks, 1,
                bitmapBlocks, inodeBlocks, 1 + bitmapBlocks, 2, MAGIC_NUMBER)
  }

  /** The byte offset of a data block. */
  function GetBlockOffset(mb: MasterBlock, block: nat): nat {
    mb.blockSize * (block + mb.dataStartBlock)
  }

  /** The size of the file that holds the volume. */
  function VolumeSize(mb: MasterBlock): nat {
    (1 + mb.numberOfBitmapBlocks + mb.numberOfInodeTableBlocks + mb.numberOfBlocks) * mb.blockSize
  }

  /** The number of bytes of the bitmap, and of inodes in the table. */
  function BitmapBytes(mb: MasterBlock): nat {
    mb.numberOfBitmapBlocks * mb.blockSize
  }

  function InodeCount(mb: MasterBlock): nat {
    mb.numberOfInodeTableBlocks * mb.blockSize / INODE_SIZE
  }

  datatype Range = Range(start: nat, end: nat)

  predicate Apart(a: Range, b: Range) {
    a.end <= b.start || b.end <= a.start
  }

  /** The byte ranges of the parts of a volume: master block, bitmap, inode table and data block `b`. */
  function MasterRange(mb: MasterBlock): Range { Range(0, MASTER_BLOCK_SIZE) }

  function BitmapRange(mb: MasterBlock): Range { Range(mb.blockSize, mb.blockSize + BitmapBytes(mb)) }

  function InodeRange(mb: MasterBlock): Range {
    Range(mb.firstInodeTableBlock * mb.blockSize, mb.firstInodeTableBlock * mb.blockSize + InodeCount(mb) * INODE_SIZE)
  }

  function BlockRange(mb: MasterBlock, b: nat): Range {
    Range(GetBlockOffset(mb, b), GetBlockOffset(mb, b) + mb.blockSize)
  }

  /** The block sizes and block counts that initialisation accepts. */
  predicate Accepted(blockSize: nat, numberOfBlocks: nat) {
    blockSize >= 1024 && blockSize % INODE_SIZE == 0 && numberOfBlocks != 0
  }

  /** In every accepted layout the parts are apart and lie inside the volume. */
  lemma PartsApart(blockSize: nat, numberOfBlocks: nat, b: nat, c: nat)
    requires Accepted(blockSize, numberOfBlocks)
    requires b < numberOfBlocks && c < numberOfBlocks && b != c
    ensures var mb := GetInitialMasterBlock(blockSize, numberOfBlocks);
      && Apart(MasterRange(mb), BitmapRange(mb)) && Apart(MasterRange(mb), InodeRange(mb))
         && Apart(MasterRange(mb), BlockRange(mb, b))
      && Apart(BitmapRange(mb), InodeRange(mb)) && Apart(BitmapRange(mb), BlockRange(mb, b))
      && Apart(InodeRange(mb), BlockRange(mb, b)) && Apart(BlockRange(mb, b), BlockRange(mb, c))
      && MasterRange(mb).end <= VolumeSize(mb) && BitmapRange(mb).end <= VolumeSize(mb)
      && InodeRange(mb).end <= VolumeSize(mb) && BlockRange(mb, b).end <= VolumeSize(mb)
  {
    var mb := GetInitialMasterBlock(blockSize, numberOfBlocks);
    InodesFill(blockSize, mb.numberOfInodeTableBlocks);
    Offsets(blockSize, mb.numberOfBitmapBlocks, mb.numberOfInodeTableBlocks, numberOfBlocks, b);
    Offsets(blockSize, mb.numberOfBitmapBlocks, mb.numberOfInodeTableBlocks, numberOfBlocks, c);
    if b < c {
      MulMonotone(b + 1, c, blockSize);
    } else {
      MulMonotone(c + 1, b, blockSize);
    }
  }

  lemma Offsets(s: nat, m: nat, t: nat, n: nat, b: nat)
    requires b < n
    ensures (1 + m) * s == s + m * s
    ensures s * (b + (1 + m + t)) == s + m * s + t * s + b * s
    ensures (b + 1) * s == b * s + s
    ensures s + m * s + t * s + b * s + s <= (1 + m + t + n) * s
  {
    MulMonotone(b + 1, n, s);
  }

  lemma InodesFill(blockSize: nat, blocks: nat)
    requires blockSize % INODE_SIZE == 0
    ensures blocks * blockSize / INODE_SIZE * INODE_SIZE == blocks * blockSize
    ensures blocks * blockSize / INODE_SIZE == blocks * (blockSize / INODE_SIZE)
  {
    var k := blockSize / INODE_SIZE;
    assert blockSize == k * INODE_SIZE;
    assert blocks * blockSize == blocks * k * INODE_SIZE;
    DivModUnique(blocks * blockSize, INODE_SIZE, blocks * k, 0);
  }

  /** Every block has a bit in the bitmap, there are at least as many inodes as blocks, and room for the root and
      `.lock` besides a free one. */
  lemma TablesLargeEnough(blockSize: nat, numberOfBlocks: nat)
    requires Accepted(blockSize, numberOfBlocks)
    ensures var mb := GetInitialMasterBlock(blockSize, numberOfBlocks);
      && numberOfBlocks <= 8 * BitmapBytes(mb) && blockSize <= BitmapBytes(mb)
      && numberOfBlocks <= InodeCount(mb) < numberOfBlocks + blockSize
      && InodeCount(mb) >= 4
  {
    var mb := GetInitialMasterBlock(blockSize, numberOfBlocks);
    CeilDivBounds(numberOfBlocks, blockSize * 8);
    CeilDivBounds(numberOfBlocks, blockSize / INODE_SIZE);
    InodesFill(blockSize, mb.numberOfInodeTableBlocks);
    assert mb.numberOfBitmapBlocks * (blockSize * 8) == 8 * BitmapBytes(mb);
    MulMonotone(1, mb.numberOfInodeTableBlocks, blockSize / INODE_SIZE);
    MulMonotone(1, mb.numberOfBitmapBlocks, blockSize);
  }

  /** No table has a block too many, and the parts follow each other without gaps, up to the end of the volume. */
  lemma NothingWasted(blockSize: nat, numberOfBlocks: nat)
    requires Accepted(blockSize, numberOfBlocks)
    ensures var mb := GetInitialMasterBlock(blockSize, numberOfBlocks);
      && (mb.numberOfBitmapBlocks - 1) * (8 * blockSize) < numberOfBlocks
      && (mb.numberOfInodeTableBlocks - 1) * (blockSize / INODE_SIZE) < numberOfBlocks
      && BitmapRange(mb).start == blockSize && InodeRange(mb).start == BitmapRange(mb).end
      && BlockRange(mb, 0).start == InodeRange(mb).end
      && BlockRange(mb, numberOfBlocks - 1).end == VolumeSize(mb)
  {
    hide CeilDiv;
    var mb := GetInitialMasterBlock(blockSize, numberOfBlocks);
    CeilDivBounds(numberOfBlocks, blockSize * 8);
    CeilDivBounds(numberOfBlocks, blockSize / INODE_SIZE);
    InodesFill(blockSize, mb.numberOfInodeTableBlocks);
    Offsets(blockSize, mb.numberOfBitmapBlocks, mb.numberOfInodeTableBlocks, numberOfBlocks, 0);
    Offsets(blockSize, mb.numberOfBitmapBlocks, mb.numberOfInodeTableBlocks, numberOfBlocks, numberOfBlocks - 1);
  }

  /** The payload is a whole number of records in every 31st block size from 8192 on. */
  lemma WholeRecords(blockSize: nat)
    requires blockSize >= 1024 && blockSize % INODE_SIZE == 0
    ensures (blockSize - 8) % SIGNATURE_SIZE == 0 <==> blockSize % 7936 == 256
  {
    var q := blockSize / INODE_SIZE;
    assert blockSize == 256 * q;
    var a, b := q / 31, q % 31;
    assert blockSize == 7936 * a + 256 * b;
    DivModUnique(blockSize, 7936, a, 256 * b);
    if b == 0 {
      assert blockSize - 8 == 248 * (32 * a - 1) + 240;
    } else {
      assert blockSize - 8 == 248 * (32 * a + b) + 8 * (b - 1);
    }
  }

  /** The duplicate check counts one record too many in every 31st block size from 7936 on. */
  lemma RecordCount(blockSize: nat)
    requires blockSize >= 1024 && blockSize % INODE_SIZE == 0
    ensures blockSize / SIGNATURE_SIZE == (blockSize - 8) / SIGNATURE_SIZE <==> blockSize % 7936 != 0
  {
    var q := blockSize / INODE_SIZE;
    assert blockSize == 256 * q;
    var a, b := q / 31, q % 31;
    assert blockSize == 7936 * a + 256 * b;
    DivModUnique(blockSize, 7936, a, 256 * b);
    DivModUnique(blockSize, SIGNATURE_SIZE, 32 * a + b, 8 * b);
    if b == 0 {
      DivModUnique(blockSize - 8, SIGNATURE_SIZE, 32 * a - 1, 240);
    } else {
      DivModUnique(blockSize - 8, SIGNATURE_SIZE, 32 * a + b, 8 * (b - 1));
    }
  }
}
