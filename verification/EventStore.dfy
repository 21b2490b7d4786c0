/** The last event of every block of events, packed into a file with just enough bits a block. */
module EventStore {
  import opened Wrappers
  import opened Arith
  import opened Bits
  import opened BitFields
  import opened FileBytes

  const WORD: nat := 0x1_0000_0000  // unsigned arithmetic of the source wraps here

  /** Events base up to below base + total, in blocks; their bits start at a byte of the file. */
  datatype Config = Config(base: nat, total: nat, blockSize: nat, offset: nat)

  ghost predicate Valid(c: Config) {
    && c.base > 0 && c.total < WORD && 0 < c.blockSize < WORD
    && c.total % c.blockSize == 0
  }

  // ----- Width of a block -----

  /** The least number of bits from w on, up to 32, that hold n. */
  function WidthFrom(n: nat, w: nat): nat
    decreases 32 - w
  {
    if w >= 32 || n < Pow2(w) then w else WidthFrom(n, w + 1)
  }

  function Width(c: Config): nat { WidthFrom(c.blockSize, 2) }

  lemma WordSize()
    ensures Pow2(32) == WORD
  {
    assert Pow2(8) == 256;
    assert Pow2(16) == 0x1_0000;
    assert Pow2(24) == 0x100_0000;
  }

  lemma {:induction false} Pow2Grows(a: nat, b: nat)
    requires a <= b
    ensures Pow2(a) <= Pow2(b)
  {
    if a < b {
      Pow2Grows(a, b - 1);
    }
  }

  lemma {:induction false} WidthFromHolds(n: nat, w: nat)
    requires n < WORD && w <= 32
    ensures w <= WidthFrom(n, w) <= 32 && n < Pow2(WidthFrom(n, w))
    ensures WidthFrom(n, w) == w || n >= Pow2(WidthFrom(n, w) - 1)
    decreases 32 - w
  {
    WordSize();
    if w < 32 && n >= Pow2(w) {
      WidthFromHolds(n, w + 1);
    }
  }

  method ComputeWidth(blockSize: nat) returns (bitsUsed: nat)
    requires blockSize < WORD
    ensures bitsUsed == WidthFrom(blockSize, 2)
    ensures 2 <= bitsUsed <= 32 && blockSize < Pow2(bitsUsed)
    ensures bitsUsed == 2 || blockSize >= Pow2(bitsUsed - 1)
  {
    bitsUsed := 2;
    var maxSize: nat := 4;
    assert Pow2(2) == 4;
    while blockSize >= maxSize && bitsUsed < 32
      invariant 2 <= bitsUsed <= 32
      invariant bitsUsed < 32 ==> maxSize == Pow2(bitsUsed)
      invariant WidthFrom(blockSize, bitsUsed) == WidthFrom(blockSize, 2)
      decreases 32 - bitsUsed
    {
      DoubleSize(maxSize, bitsUsed);
      maxSize := (2 * maxSize) % WORD;
      bitsUsed := bitsUsed + 1;
    }
    WidthFromHolds(blockSize, 2);
  }

  lemma DoubleSize(size: nat, w: nat)
    requires w < 32 && size == Pow2(w)
    ensures w + 1 < 32 ==> (2 * size) % WORD == Pow2(w + 1)
  {
    if w + 1 < 32 {
      WordSize();
      Pow2Grows(w + 2, 32);
    }
  }

  // ----- Where a block stands -----

  /** The source multiplies in 32 bits. */
  function BitAt(k: nat, w: nat): nat { (k * w) % WORD }

  /** Bits [p, p + w) and [q, q + w) have none in common. */
  predicate Apart(p: nat, q: nat, w: nat) { p + w <= q || q + w <= p }

  lemma NoWrap(k: nat, last: nat, w: nat)
    requires k <= last && last * w < WORD
    ensures BitAt(k, w) == k * w < WORD
  {
    MulMono(k, last, w);
  }

  lemma NextApart(j: nat, k: nat, w: nat)
    requires j < k
    ensures j * w + w <= k * w
  {
    MulMono(j + 1, k, w);
    Distribute(j, 1, w);
  }

  /** Blocks do not share bits exactly when the last one starts below the wrap. */
  lemma BlocksApartExactly(last: nat, w: nat)
    requires 2 <= w <= 32
    ensures (forall j: nat, k: nat | j < k <= last :: Apart(BitAt(j, w), BitAt(k, w), w)) <==> last * w < WORD
  {
    if last * w < WORD {
      forall j: nat, k: nat | j < k <= last ensures Apart(BitAt(j, w), BitAt(k, w), w) {
        NoWrap(j, last, w);
        NoWrap(k, last, w);
        NextApart(j, k, w);
      }
    } else {
      var k := FirstWrapped(last, w);
      assert BitAt(0, w) == 0;
      assert !Apart(BitAt(0, w), BitAt(k, w), w);
    }
  }

  /** The first block behind the wrap comes to lie on block 0. */
  lemma FirstWrapped(last: nat, w: nat) returns (k: nat)
    requires 2 <= w <= 32 && last * w >= WORD
    ensures 0 < k <= last && BitAt(k, w) < w
  {
    k := (WORD + w - 1) / w;
    var r := (WORD + w - 1) % w;
    assert WORD + w - 1 == k * w + r;
    if last < k {
      NextApart(last, k, w);
      assert false;
    }
    assert k * w - WORD == w - 1 - r;
    DivModUnique(k * w, WORD, 1, k * w - WORD);
    if k == 0 {
      assert false;
    }
  }

  datatype OffsetInfo = OffsetInfo(fileOffset: nat, readBytes: nat, shift: nat, bitsUsed: nat)

  function Offset(c: Config, k: nat): (info: OffsetInfo) {
    var w, at := Width(c), BitAt(k, Width(c));
    OffsetInfo(c.offset + at / 8, (at % 8 + w + 7) / 8, at % 8, w)
  }

  lemma BytesHoldBits(offset: nat, at: nat, w: nat)
    requires 2 <= w <= 32
    ensures 8 * (offset + at / 8) + at % 8 == 8 * offset + at
    ensures at % 8 + w <= 8 * ((at % 8 + w + 7) / 8) <= 40 && (at % 8 + w + 7) / 8 > 0
  {
  }

  /** At most five bytes of the file hold the block's bits. */
  method GetBlockFileOffset(c: Config, k: nat) returns (info: OffsetInfo)
    requires Valid(c)
    ensures info == Offset(c, k)
    ensures 8 * info.fileOffset + info.shift == 8 * c.offset + BitAt(k, Width(c))
    ensures info.shift + info.bitsUsed <= 8 * info.readBytes <= 40 && info.readBytes > 0
  {
    var bitsUsed := ComputeWidth(c.blockSize);
    var bitOffset := (k * bitsUsed) % WORD;
    info := OffsetInfo(c.offset + bitOffset / 8, (bitOffset % 8 + bitsUsed + 7) / 8, bitOffset % 8, bitsUsed);
    BytesHoldBits(c.offset, bitOffset, bitsUsed);
  }

  // ----- The file as a map from blocks to events -----

  /** The number the file holds for a block; zero says unknown. */
  function Stored(c: Config, f: seq<byte>, k: nat): nat {
    Field(Num(f), 8 * c.offset + BitAt(k, Width(c)), Width(c))
  }

  /** The event the file holds for a block, or 0. */
  function Get(c: Config, f: seq<byte>, k: nat): int {
    if Stored(c, f, k) == 0 then 0 else c.base + k * c.blockSize + Stored(c, f, k) - 1
  }

  predicate InRange(c: Config, event: nat) { c.base <= event < c.base + c.total }

  function BlockOf(c: Config, event: nat): nat
    requires Valid(c) && InRange(c, event)
  {
    Quotient(event - c.base, c.blockSize)
  }

  /** The number an event is stored as. */
  function Code(c: Config, event: nat): nat
    requires Valid(c) && InRange(c, event)
  {
    (event - c.base) % c.blockSize + 1
  }

  lemma CodeFits(c: Config, event: nat)
    requires Valid(c) && InRange(c, event)
    ensures 0 < Code(c, event) < Pow2(Width(c))
    ensures c.base + BlockOf(c, event) * c.blockSize + Code(c, event) - 1 == event
  {
    WidthFromHolds(c.blockSize, 2);
    Residue(event - c.base, c.blockSize);
  }

  lemma Residue(x: nat, n: nat)
    requires n > 0
    ensures x / n * n <= x && x - x / n * n == x % n < n
  {
  }

  /** Every number that a block can hold stands for an event of that block. */
  lemma CodeIsAnEvent(c: Config, k: nat, code: nat)
    requires Valid(c) && k < c.total / c.blockSize && 0 < code <= c.blockSize
    ensures var event := c.base + k * c.blockSize + code - 1;
            event >= 0 && InRange(c, event) && BlockOf(c, event) == k && Code(c, event) == code
  {
    var n := c.total / c.blockSize;
    assert c.total == n * c.blockSize;
    MulNonNegative(k, c.blockSize);
    MulMono(k + 1, n, c.blockSize);
    Distribute(k, 1, c.blockSize);
    DivModUnique(k * c.blockSize + code - 1, c.blockSize, k, code - 1);
  }

  function Saved(c: Config, f: seq<byte>, event: nat): seq<byte>
    requires Valid(c) && InRange(c, event)
  {
    var info := Offset(c, BlockOf(c, event));
    Patched(f, info.fileOffset, info.readBytes, info.shift, info.bitsUsed, Code(c, event))
  }

  /** The last block starts below the wrap. */
  ghost predicate Fits(c: Config)
    requires Valid(c)
  {
    c.total == 0 || (c.total / c.blockSize - 1) * Width(c) < WORD
  }

  lemma BlockBelow(c: Config, event: nat)
    requires Valid(c) && InRange(c, event)
    ensures BlockOf(c, event) < c.total / c.blockSize
  {
    var n, k := c.total / c.blockSize, BlockOf(c, event);
    assert c.total == n * c.blockSize;
    assert event - c.base == k * c.blockSize + (event - c.base) % c.blockSize;
    if k >= n {
      MulMono(n, k, c.blockSize);
      assert false;
    }
  }

  lemma DifferentApart(c: Config, j: nat, k: nat)
    requires Valid(c) && Fits(c) && j != k && j < c.total / c.blockSize && k < c.total / c.blockSize
    ensures Apart(BitAt(j, Width(c)), BitAt(k, Width(c)), Width(c))
  {
    var last := c.total / c.blockSize - 1;
    WidthFromHolds(c.blockSize, 2);
    BlocksApartExactly(last, Width(c));
    if k < j {
      assert Apart(BitAt(k, Width(c)), BitAt(j, Width(c)), Width(c));
    }
  }

  /** A saved event is read back, and blocks that share no bits with it keep theirs. */
  lemma SaveThenGet(c: Config, f: seq<byte>, event: nat, j: nat)
    requires Valid(c) && InRange(c, event)
    requires j != BlockOf(c, event) ==> Apart(BitAt(j, Width(c)), BitAt(BlockOf(c, event), Width(c)), Width(c))
    ensures Get(c, Saved(c, f, event), j) == if j == BlockOf(c, event) then event else Get(c, f, j)
  {
    var w := Width(c);
    var info := Offset(c, BlockOf(c, event));
    WidthFromHolds(c.blockSize, 2);
    CodeFits(c, event);
    BytesHoldBits(c.offset, BitAt(BlockOf(c, event), w), w);
    PatchChangesField(f, info.fileOffset, info.readBytes, info.shift, w, Code(c, event),
                      8 * c.offset + BitAt(j, w), w);
  }

  // ----- Runs -----

  function SavedAll(c: Config, f: seq<byte>, events: seq<nat>): seq<byte>
    requires Valid(c) && forall e | e in events :: InRange(c, e)
  {
    if events == [] then f
    else Saved(c, SavedAll(c, f, events[..|events| - 1]), events[|events| - 1])
  }

  /** The last event of block j, or `before` when there is none. */
  function Latest(c: Config, events: seq<nat>, j: nat, before: int): int
    requires Valid(c) && forall e | e in events :: InRange(c, e)
  {
    if events == [] then before
    else if BlockOf(c, events[|events| - 1]) == j then events[|events| - 1]
    else Latest(c, events[..|events| - 1], j, before)
  }

  /** After any sequence of saves each block reads back its latest event, and blocks that were not
      saved read what they did before. */
  lemma {:induction false} ReadsLatest(c: Config, f: seq<byte>, events: seq<nat>, j: nat)
    requires Valid(c) && Fits(c) && (forall e | e in events :: InRange(c, e)) && j < c.total / c.blockSize
    ensures Get(c, SavedAll(c, f, events), j) == Latest(c, events, j, Get(c, f, j))
  {
    if events != [] {
      var init, last := events[..|events| - 1], events[|events| - 1];
      ReadsLatest(c, f, init, j);
      BlockBelow(c, last);
      if j != BlockOf(c, last) {
        DifferentApart(c, j, BlockOf(c, last));
      }
      SaveThenGet(c, SavedAll(c, f, init), last, j);
    }
  }

  /** In an empty file every block is unknown. */
  lemma EmptyIsUnknown(c: Config, j: nat)
    ensures Stored(c, [], j) == 0 && Get(c, [], j) == 0
  {
    ZeroField(8 * c.offset + BitAt(j, Width(c)), Width(c));
  }

  lemma ZeroField(p: nat, w: nat)
    ensures Field(0, p, w) == 0
  {
    DivModUnique(0, Pow2(p), 0, 0);
    DivModUnique(0, Pow2(w), 0, 0);
  }

  /** The first event of block k saved into an empty file sets one bit, the block's lowest. */
  lemma FirstSaveSetsBit(c: Config, event: nat)
    requires Valid(c) && InRange(c, event) && Code(c, event) == 1
    ensures Num(Saved(c, [], event)) == Pow2(8 * c.offset + BitAt(BlockOf(c, event), Width(c)))
  {
    var w, at := Width(c), BitAt(BlockOf(c, event), Width(c));
    var info := Offset(c, BlockOf(c, event));
    var p := 8 * info.fileOffset + info.shift;
    WidthFromHolds(c.blockSize, 2);
    CodeFits(c, event);
    BytesHoldBits(c.offset, at, w);
    ZeroField(p, w);
    var low, high := PatchComposes([], info.fileOffset, info.readBytes, info.shift, w, 1);
    ComposedOne(low, p, w, high, Compose(low, p, 0, w, high), Compose(low, p, 1, w, high));
  }

  lemma ComposedOne(low: nat, p: nat, w: nat, high: nat, x: nat, y: nat)
    requires x == Compose(low, p, 0, w, high) && y == Compose(low, p, 1, w, high) && x == 0
    ensures y == Pow2(p)
  {
    var a, b := Pow2(p), Pow2(w) * high;
    assert a * (1 + b) == a + a * b;
  }

  /** A bit within the w bits at q is seen there. */
  lemma BitSeen(q: nat, x: nat, w: nat)
    requires x < w
    ensures Field(Pow2(q + x), q, w) != 0
  {
    Pow2Sum(q, x);
    FieldAbove(Pow2(q + x), 0, Pow2(x), q, 0, q, w);
    Pow2Grows(x + 1, w);
    LowestField(Pow2(x), w);
  }

  /** With a block behind the wrap, saving its first event into an empty file makes block 0, which
      was never saved, read as known. */
  lemma {:induction false} WrappedSaveLeaks(c: Config) returns (event: nat)
    requires Valid(c) && !Fits(c)
    ensures InRange(c, event) && BlockOf(c, event) != 0 && Get(c, Saved(c, [], event), 0) != 0
  {
    var n, w := c.total / c.blockSize, Width(c);
    WidthFromHolds(c.blockSize, 2);
    var k := FirstWrapped(n - 1, w);
    event := c.base + k * c.blockSize;
    Residue(c.total, c.blockSize);
    NextApart(k, n, c.blockSize);
    DivModUnique(event - c.base, c.blockSize, k, 0);
    FirstSaveSetsBit(c, event);
    assert BitAt(0, w) == 0;
    BitSeen(8 * c.offset, BitAt(k, w), w);
    var stored := Stored(c, Saved(c, [], event), 0);
    assert stored == Field(Pow2(8 * c.offset + BitAt(k, w)), 8 * c.offset, w);
  }

  ghost predicate AllInRange(c: Config, events: seq<nat>) { forall e | e in events :: InRange(c, e) }

  /** Whatever was in the file and whatever is saved, every block reads its latest event. */
  ghost predicate AlwaysReadsLatest(c: Config)
    requires Valid(c)
  {
    forall f, events, j: nat | AllInRange(c, events) && j < c.total / c.blockSize ::
      Get(c, SavedAll(c, f, events), j) == Latest(c, events, j, Get(c, f, j))
  }

  /** Main result: every block reads its latest event, over all files and all sequences of saves,
      exactly when the last block starts below the wrap. */
  lemma ReadsLatestExactly(c: Config)
    requires Valid(c)
    ensures AlwaysReadsLatest(c) <==> Fits(c)
  {
    if Fits(c) {
      forall f, events, j: nat | AllInRange(c, events) && j < c.total / c.blockSize
        ensures Get(c, SavedAll(c, f, events), j) == Latest(c, events, j, Get(c, f, j))
      {
        ReadsLatest(c, f, events, j);
      }
    } else {
      var event := WrappedSaveLeaks(c);
      SavedOnce(c, event);
      EmptyIsUnknown(c, 0);
      BlockBelow(c, event);
      assert AllInRange(c, [event]);
      assert Get(c, SavedAll(c, [], [event]), 0) != Latest(c, [event], 0, Get(c, [], 0));
    }
  }

  lemma SavedOnce(c: Config, event: nat)
    requires Valid(c) && InRange(c, event)
    ensures SavedAll(c, [], [event]) == Saved(c, [], event)
    ensures BlockOf(c, event) != 0 ==> Latest(c, [event], 0, Get(c, [], 0)) == Get(c, [], 0)
  {
    assert [event][..0] == [];
    assert SavedAll(c, [], []) == [];
    assert Latest(c, [], 0, Get(c, [], 0)) == Get(c, [], 0);
  }

  // ----- The manager -----

  class MemorizingHandlerManager {
    const c: Config
    const file: ConfigFile

    constructor (c: Config, file: ConfigFile)
      ensures this.c == c && this.file == file
    {
      this.c, this.file := c, file;
    }

    method GetBlockFromFile(k: nat) returns (event: int)
      requires Valid(c)
      modifies file
      ensures file.bytes == old(file.bytes) && event == Get(c, file.bytes, k)
    {
      var info := GetBlockFileOffset(c, k);
      file.Seek(info.fileOffset);
      var bytes := file.ReadRepeated(info.readBytes);
      FieldRead(file.bytes, info.fileOffset, info.readBytes, info.shift, info.bitsUsed);
      var data := Num(bytes) / Pow2(info.shift);
      data := data % Pow2(info.bitsUsed);
      if data == 0 {
        return 0;
      }
      data := data - 1;
      return c.base + k * c.blockSize + data;
    }

    method SaveValidEventToFile(event: nat)
      requires Valid(c) && InRange(c, event)
      modifies file
      ensures file.bytes == Saved(c, old(file.bytes), event)
    {
      var k := (event - c.base) / c.blockSize;
      Residue(event - c.base, c.blockSize);
      var value := event - c.base - k * c.blockSize;
      var info := GetBlockFileOffset(c, k);
      file.Seek(info.fileOffset);
      value := value + 1;
      CodeFits(c, event);
      assert value == Code(c, event) < Pow2(info.bitsUsed);
      PatchFile(info, value);
    }

    /** Reads the bytes of a block, replaces its bits and writes the bytes back. */
    method PatchFile(info: OffsetInfo, value: nat)
      requires info.readBytes > 0 && info.shift + info.bitsUsed <= 8 * info.readBytes && value < Pow2(info.bitsUsed)
      requires file.pos == info.fileOffset
      modifies file
      ensures file.bytes == Patched(old(file.bytes), info.fileOffset, info.readBytes, info.shift, info.bitsUsed, value)
    {
      var bytes := file.ReadRepeated(info.readBytes);
      NumBelow(bytes);
      var _, _ := PutComposes(Num(bytes), info.shift, info.bitsUsed, value, 8 * info.readBytes);
      var data := Put(Num(bytes), info.shift, info.bitsUsed, value);
      file.Seek(info.fileOffset);
      file.WriteRepeated(Bytes(data, info.readBytes));
    }
  }
}
