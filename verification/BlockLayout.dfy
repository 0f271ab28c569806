/** Storing a file as blocks of a fixed size (filemgr/file_manager_impl.go). */
module BlockLayout {

  type Byte = x: int | 0 <= x < 256
  type Bytes = seq<Byte>

  const MAX_FILE_PART_COUNT := 100000

  datatype Failure = InvalidFileSize | InvalidBlockSize | TooManyFileParts | FileShortRead
  datatype Result<T> = Ok(value: T) | Err(failure: Failure)

  function Min(a: int, b: int): int {
    if a < b then a else b
  }

  // ---------------------------------------------------------------------------
  // How many blocks
  // ---------------------------------------------------------------------------

  /** calculateFileBlockCount: the least number of blocks that hold `size` bytes. */
  function BlockCount(size: int, blockSize: int): (r: Result<nat>)
    ensures r.Ok? ==> size >= 0 && blockSize > 0 && r.value <= MAX_FILE_PART_COUNT
    ensures r.Ok? ==> size <= r.value * blockSize && (r.value > 0 ==> (r.value - 1) * blockSize < size)
    ensures r == Err(InvalidFileSize) <==> size < 0
    ensures r == Err(InvalidBlockSize) <==> size >= 0 && blockSize <= 0
    ensures r == Err(TooManyFileParts) <==> size >= 0 && blockSize > 0 && size > MAX_FILE_PART_COUNT * blockSize
  {
    if size < 0 then Err(InvalidFileSize)
    else if blockSize <= 0 then Err(InvalidBlockSize)
    else if size == 0 then Ok(0)
    else
      var count := 1 + (size - 1) / blockSize;
      CountBounds(size, blockSize);
      CountOrder(count, MAX_FILE_PART_COUNT, blockSize, size);
      if count > MAX_FILE_PART_COUNT then Err(TooManyFileParts) else Ok(count)
  }

  lemma CountBounds(size: int, blockSize: int)
    requires size > 0 && blockSize > 0
    ensures var count := 1 + (size - 1) / blockSize; count > 0 && (count - 1) * blockSize < size <= count * blockSize
  {
    var d, m := (size - 1) / blockSize, (size - 1) % blockSize;
    assert size - 1 == d * blockSize + m;
    assert (d + 1) * blockSize == d * blockSize + blockSize;
  }

  lemma Monotone(a: int, b: int, k: int)
    requires a <= b && k >= 0
    ensures a * k <= b * k
  {
  }

  lemma CountOrder(count: int, limit: int, blockSize: int, size: int)
    requires blockSize > 0 && (count - 1) * blockSize < size <= count * blockSize
    ensures count > limit <==> size > limit * blockSize
  {
    if count > limit { Monotone(limit, count - 1, blockSize); } else { Monotone(count, limit, blockSize); }
  }

  // ---------------------------------------------------------------------------
  // The layout
  // ---------------------------------------------------------------------------

  /** Where block `i` begins and ends in a file of `size` bytes. */
  ghost function Start(i: int, blockSize: int): int {
    if i <= 0 then 0 else Start(i - 1, blockSize) + blockSize
  }

  ghost function Stop(i: int, blockSize: int, size: int): int {
    Min(Start(i, blockSize) + blockSize, size)
  }

  ghost predicate IsPart(content: Bytes, blockSize: int, i: int, part: Bytes) {
    && 0 <= Start(i, blockSize) <= Stop(i, blockSize, |content|)
    && part == content[Start(i, blockSize)..Stop(i, blockSize, |content|)]
  }

  /** `parts` are the consecutive blocks of the content. */
  ghost predicate Laid(content: Bytes, blockSize: int, parts: seq<Bytes>) {
    && blockSize > 0 && |content| <= Start(|parts|, blockSize)
    && (|parts| > 0 ==> Start(|parts| - 1, blockSize) < |content|)
    && forall i :: 0 <= i < |parts| ==> IsPart(content, blockSize, i, parts[i])
  }

  lemma {:induction false} StartIs(i: nat, blockSize: int)
    ensures Start(i, blockSize) == i * blockSize
  {
    if i > 0 { StartIs(i - 1, blockSize); }
  }

  lemma {:induction false} StartMonotone(i: nat, j: nat, blockSize: int)
    requires i <= j && blockSize >= 0
    ensures 0 <= Start(i, blockSize) <= Start(j, blockSize)
    decreases j
  {
    if i < j { StartMonotone(i, j - 1, blockSize); } else if i > 0 { StartMonotone(i - 1, j - 1, blockSize); }
  }

  lemma Quotient(n: nat, k: int) returns (q: nat, r: nat)
    requires k > 0
    ensures q == n / k && r == n % k && n == Start(q, k) + r && r < k
  {
    q, r := n / k, n % k;
    StartIs(q, k);
  }

  /** The block and the position in it that hold the byte at `cursor`. */
  lemma Locate(content: Bytes, blockSize: int, parts: seq<Bytes>, cursor: nat)
    requires Laid(content, blockSize, parts) && cursor < |content|
    ensures var i, pos := cursor / blockSize, cursor % blockSize;
      && 0 <= i < |parts| && 0 <= pos < |parts[i]| && Start(i, blockSize) + pos == cursor
  {
    var i, pos := Quotient(cursor, blockSize);
    if i >= |parts| { StartMonotone(|parts|, i, blockSize); }
    assert IsPart(content, blockSize, i, parts[i]);
  }

  /** A block that ends before the content does is full. */
  lemma FullBlock(content: Bytes, blockSize: int, parts: seq<Bytes>, i: nat)
    requires Laid(content, blockSize, parts) && i < |parts| && Start(i, blockSize) + |parts[i]| < |content|
    ensures |parts[i]| == blockSize && Start(i, blockSize) + blockSize == Start(i + 1, blockSize)
    ensures (Start(i, blockSize) + blockSize) % blockSize == 0
  {
    assert IsPart(content, blockSize, i, parts[i]);
    StartIs(i + 1, blockSize);
    Divides(i + 1, blockSize);
  }

  lemma Divides(q: int, k: int)
    requires k > 0
    ensures (q * k) % k == 0
  {
    var n := q * k;
    assert n == (n / k) * k + n % k;
    if n % k != 0 {
      var d := q - n / k;
      assert d * k == n % k;
      if d <= 0 { Monotone(d, 0, k); } else { Monotone(1, d, k); }
    }
  }

  /** `part` is what block `i` of the first `size` bytes of the source must be. */
  ghost predicate CutFrom(source: Bytes, size: int, blockSize: int, i: int, part: Bytes) {
    && 0 <= Start(i, blockSize) <= Stop(i, blockSize, size) <= |source|
    && part == source[Start(i, blockSize)..Stop(i, blockSize, size)]
  }

  /** createFile: the first `size` bytes that the reader gives, stored in blocks; a reader that ends
      before fails. */
  method CreateFile(size: int, source: Bytes, blockSize: int) returns (r: Result<seq<Bytes>>)
    ensures r.Ok? ==> 0 <= size <= |source| && Laid(source[..size], blockSize, r.value)
    ensures r.Err? && r.failure != FileShortRead <==> BlockCount(size, blockSize).Err?
    ensures r.Err? && r.failure != FileShortRead ==> r.failure == BlockCount(size, blockSize).failure
    ensures r == Err(FileShortRead) <==> BlockCount(size, blockSize).Ok? && |source| < size
  {
    var counted := BlockCount(size, blockSize);
    if counted.Err? {
      return Err(counted.failure);
    }
    CountCovers(size, blockSize);
    r := StoreBlocks(counted.value, size, source, blockSize);
  }

  lemma CountCovers(size: int, blockSize: int)
    requires BlockCount(size, blockSize).Ok?
    ensures var count := BlockCount(size, blockSize).value;
      0 <= size <= Start(count, blockSize) && blockSize > 0 && (count > 0 ==> Start(count - 1, blockSize) < size)
  {
    var count := BlockCount(size, blockSize).value;
    StartIs(count, blockSize);
    if count > 0 { StartIs(count - 1, blockSize); }
  }

  /** The loop of createFile. */
  method StoreBlocks(count: nat, size: int, source: Bytes, blockSize: int) returns (r: Result<seq<Bytes>>)
    requires 0 <= size <= Start(count, blockSize) && blockSize > 0 && (count > 0 ==> Start(count - 1, blockSize) < size)
    ensures r.Ok? <==> size <= |source|
    ensures r.Ok? ==> Laid(source[..size], blockSize, r.value)
    ensures r.Err? ==> r.failure == FileShortRead
  {
    var uploaded, parts: seq<Bytes> := 0, [];
    for i := 0 to count
      invariant |parts| == i && uploaded == Min(Start(i, blockSize), size) && uploaded <= |source|
      invariant forall j :: 0 <= j < i ==> CutFrom(source, size, blockSize, j, parts[j])
    {
      StartMonotone(i, count - 1, blockSize);
      var partSize := Min(blockSize, size - uploaded);
      if |source| - uploaded < partSize {
        return Err(FileShortRead);
      }
      assert CutFrom(source, size, blockSize, i, source[uploaded..uploaded + partSize]);
      parts := parts + [source[uploaded..uploaded + partSize]];
      uploaded := uploaded + partSize;
    }
    forall j | 0 <= j < |parts| ensures IsPart(source[..size], blockSize, j, parts[j]) {
      assert CutFrom(source, size, blockSize, j, parts[j]);
    }
    r := Ok(parts);
  }
}
