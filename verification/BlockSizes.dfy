// How large a block is for chips of a given size, and how the address of a chip leads back to its block
// (src/fc/mem_block.h, meta_block_size; src/fc/block_alloc.cpp, blob_pool; src/fc/mem_block.cpp, block::release).
module BlockSizes {
  import opened Powers

  const MAX_CHIPS := 64
  const MIN_CHIPS := 33
  const WORD_BITS := 64
  const INT_WIDTH: nat := 32

  // floor(log2(n)), as the template unfolds it.
  function MetaLog2(n: nat): (r: nat)
    requires n > 0
    ensures Two(r) <= n < Two(r + 1)
  {
    if n == 1 then 0 else if n == 2 then 1 else 1 + MetaLog2(n / 2)
  }

  // The function of the same purpose at run time.
  function RunLog2(n: int): (r: nat)
    ensures n <= 0 ==> r == 0
    ensures n > 0 ==> r > 0 && Two(r - 1) <= n < Two(r)
  {
    if n <= 0 then 0 else 1 + RunLog2(n / 2)
  }

  function Needed(chip: nat, overhead: nat): nat {
    MIN_CHIPS * chip + overhead
  }

  function MetaBytes(chip: nat, overhead: nat): nat
    requires chip > 0
  {
    Two(MetaLog2(2 * Needed(chip, overhead) - 1))
  }

  function RunBytes(chip: nat, overhead: nat): nat {
    Two(RunLog2(2 * Needed(chip, overhead) - 1))
  }

  // The chips there is room for, and those that are used.
  function Room(bytes: nat, chip: nat, overhead: nat): int
    requires chip > 0
  {
    (bytes - overhead) / chip
  }

  function Count(bytes: nat, chip: nat, overhead: nat): int
    requires chip > 0
  {
    if Room(bytes, chip, overhead) < MAX_CHIPS then Room(bytes, chip, overhead) else MAX_CHIPS
  }

  lemma LogUnique(n: nat, r: nat, s: nat)
    requires Two(r) <= n < Two(r + 1) && Two(s) <= n < Two(s + 1)
    ensures r == s
  {
    if r < s { TwoMonotone(r + 1, s); }
    if s < r { TwoMonotone(s + 1, r); }
  }

  // The smallest power of two that has the room that is needed.
  lemma MetaBytesIs(chip: nat, overhead: nat)
    requires chip > 0
    ensures Needed(chip, overhead) <= MetaBytes(chip, overhead) < 2 * Needed(chip, overhead)
  {
    var n := Needed(chip, overhead);
    var r := MetaLog2(2 * n - 1);
    assert Two(r + 1) == 2 * Two(r);
  }

  lemma RoomFor(bytes: nat, chip: nat, overhead: nat, k: nat)
    requires chip > 0
    ensures Room(bytes, chip, overhead) >= k <==> overhead + k * chip <= bytes
  {
    var d := bytes - overhead;
    var q := d / chip;
    assert q * chip <= d < q * chip + chip;
    if q >= k { assert q * chip >= k * chip; }
    if q < k { assert (q + 1) * chip <= k * chip; }
  }

  // A block holds between 33 and 64 chips after its header, whatever their size.
  lemma MetaCount(chip: nat, overhead: nat)
    requires chip > 0
    ensures var bytes := MetaBytes(chip, overhead);
      var count := Count(bytes, chip, overhead);
      33 <= count <= 64 && overhead + count * chip <= bytes
  {
    var bytes := MetaBytes(chip, overhead);
    MetaBytesIs(chip, overhead);
    RoomFor(bytes, chip, overhead, MIN_CHIPS);
    RoomFor(bytes, chip, overhead, Count(bytes, chip, overhead));
  }

  // The run-time form doubles the size, and always has 64 chips.
  lemma RunCount(chip: nat, overhead: nat)
    requires chip > 0
    ensures var bytes := RunBytes(chip, overhead);
      && bytes == 2 * MetaBytes(chip, overhead)
      && Count(bytes, chip, overhead) == 64 && overhead + 64 * chip <= bytes
  {
    var n := 2 * Needed(chip, overhead) - 1;
    LogUnique(n, MetaLog2(n), RunLog2(n) - 1);
    MetaBytesIs(chip, overhead);
    RoomFor(RunBytes(chip, overhead), chip, overhead, MAX_CHIPS);
  }

  // The size, which the run-time form gets by shifting an int, is one exactly for chips of less than about 16 MB.
  lemma RunFits(chip: nat, overhead: nat)
    requires chip > 0
    ensures RunBytes(chip, overhead) < Two(INT_WIDTH - 1) <==> Needed(chip, overhead) <= Two(INT_WIDTH - 3)
  {
    var n, k := 2 * Needed(chip, overhead) - 1, INT_WIDTH - 2;
    var r := RunLog2(n);
    assert Two(k) == 2 * Two(k - 1);
    if r <= k {
      TwoMonotone(r, k);
      assert Two(k + 1) == 2 * Two(k);
    } else {
      TwoMonotone(k, r - 1);
      TwoMonotone(k + 1, r);
    }
  }

  // A power of two has room for 33 to 64 chips exactly if it is the one computed and that has room for no more.
  lemma MetaUnique(chip: nat, overhead: nat, k: nat)
    requires chip > 0
    ensures MIN_CHIPS <= Room(Two(k), chip, overhead) <= MAX_CHIPS <==>
            Two(k) == MetaBytes(chip, overhead) && Room(Two(k), chip, overhead) <= MAX_CHIPS
  {
    var r := MetaLog2(2 * Needed(chip, overhead) - 1);
    MetaBytesIs(chip, overhead);
    RoomFor(Two(k), chip, overhead, MIN_CHIPS);
    RoomFor(Two(k), chip, overhead, MAX_CHIPS + 1);
    assert Two(r + 1) == 2 * Two(r);
    if k < r {
      TwoMonotone(k + 1, r);
      assert Two(k + 1) == 2 * Two(k);
    } else if r < k {
      TwoMonotone(r + 1, k);
    }
  }

  // With chips of one byte after a header of a hundred there is no such power of two.
  lemma MetaNone(chip: nat, overhead: nat, k: nat)
    requires chip == 1 && overhead == 100
    ensures !(MIN_CHIPS <= Room(Two(k), chip, overhead) <= MAX_CHIPS)
  {
    var r := MetaLog2(265);
    assert Two(8) == 256 && Two(9) == 512;
    LogUnique(265, r, 8);
    MetaUnique(chip, overhead, k);
  }

  // The address of chip i of the block at base.
  function Address(base: nat, chip: nat, overhead: nat, i: nat): nat {
    base + overhead + i * chip
  }

  // Releasing chip i of an aligned block finds the block, by masking the address, and the index.
  method Release(ptr: nat, chip: nat, overhead: nat, blockLog: nat, ghost base: nat, ghost count: nat, ghost i: nat)
    returns (block: nat, index: int)
    requires chip > 0 && blockLog <= WORD_BITS && overhead + count * chip <= Two(blockLog) && i < count
    requires base % Two(blockLog) == 0 && base + Two(blockLog) <= Two(WORD_BITS)
    requires ptr == Address(base, chip, overhead, i)
    ensures block == base && index == i
  {
    ReleaseFinds(base, chip, overhead, blockLog, count, i);
    HighBits(ptr, WORD_BITS, blockLog);
    block := And(ptr, Two(WORD_BITS) - Two(blockLog));
    var offset := ptr - (block + overhead);
    index := offset / chip;
  }

  lemma ReleaseFinds(base: nat, chip: nat, overhead: nat, k: nat, count: nat, i: nat)
    requires chip > 0 && base % Two(k) == 0 && overhead + count * chip <= Two(k) && i < count
    ensures var ptr := Address(base, chip, overhead, i);
      ptr < base + Two(k) && ptr - ptr % Two(k) == base && (ptr - base - overhead) / chip == i
  {
    InRoom(i, count, chip);
    var d := i * chip;
    Aligned(base, overhead + d, Two(k));
    Divided(i, d, chip);
  }

  lemma InRoom(i: nat, count: nat, chip: nat)
    requires chip > 0 && i < count
    ensures i * chip < count * chip
  {
  }

  lemma Aligned(base: nat, d: nat, b: nat)
    requires b > 0 && base % b == 0 && d < b
    ensures (base + d) % b == d
  {
    var q := base / b;
    assert base == q * b;
    RemainderIs(base + d, q, d, b);
  }

  lemma Divided(i: nat, d: nat, chip: nat)
    requires chip > 0 && d == i * chip
    ensures d / chip == i
  {
    RemainderIs(d, i, 0, chip);
  }
}
