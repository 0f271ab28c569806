/** A seekable stream over files joined end to end (filemgr/composite_stream.go). */
module CompositeStreams {
  import opened BlockLayout
  import opened FileStreams
  import opened StreamTurns

  // ---------------------------------------------------------------------------
  // The manifest
  // ---------------------------------------------------------------------------

  /** A source file: its content is held by its blocks. */
  datatype Source = Source(parts: seq<Bytes>, content: Bytes, ready: bool, layout: int)

  /** A row of the manifest query. */
  datatype Row = Row(index: int, segmentSize: int, source: Option<Source>)

  datatype Segment = Segment(start: int, size: int, source: Source)

  datatype Manifest = Segments(segments: seq<Segment>) | InvalidComposite

  /** The contents of the sources one after the other. */
  ghost function Joined(segments: seq<Segment>): Bytes {
    if segments == [] then [] else Joined(segments[..|segments| - 1]) + segments[|segments| - 1].source.content
  }

  ghost predicate RowSound(row: Row, i: int) {
    && row.index == i && row.source.Some? && row.source.value.ready && row.source.value.layout == 1
    && row.segmentSize == |row.source.value.content|
  }

  ghost function TotalSize(rows: seq<Row>): int {
    if rows == [] then 0 else TotalSize(rows[..|rows| - 1]) + rows[|rows| - 1].segmentSize
  }

  /** What the manifest must be. */
  ghost predicate RowsSound(rows: seq<Row>, fileSize: int) {
    rows != [] && (forall i :: 0 <= i < |rows| ==> RowSound(rows[i], i)) && TotalSize(rows) == fileSize
  }

  /** Each segment begins where the one before it ends. */
  ghost predicate Contiguous(segments: seq<Segment>) {
    forall i :: 0 <= i < |segments| ==> SegmentSound(segments, i)
  }

  ghost predicate SegmentSound(segments: seq<Segment>, i: int)
    requires 0 <= i < |segments|
  {
    segments[i].start == |Joined(segments[..i])| && segments[i].size == |segments[i].source.content|
  }

  ghost predicate Matches(rows: seq<Row>, segments: seq<Segment>) {
    |rows| == |segments| && forall i :: 0 <= i < |rows| ==> rows[i].source == Some(segments[i].source)
  }

  lemma JoinedNext(segments: seq<Segment>, s: Segment)
    ensures Joined(segments + [s]) == Joined(segments) + s.source.content
  {
    assert (segments + [s])[..|segments|] == segments;
  }

  lemma ContiguousNext(segments: seq<Segment>, s: Segment)
    requires Contiguous(segments) && s.start == |Joined(segments)| && s.size == |s.source.content|
    ensures Contiguous(segments + [s])
  {
    var more := segments + [s];
    forall i | 0 <= i < |more| ensures SegmentSound(more, i) {
      assert more[..i] == if i < |segments| then segments[..i] else segments;
      if i < |segments| { assert SegmentSound(segments, i); }
    }
  }

  /** The sizes of a sound manifest are not negative, so its beginnings do not exceed the whole. */
  lemma {:induction false} TotalsGrow(rows: seq<Row>, n: nat)
    requires n <= |rows| && forall i :: n <= i < |rows| ==> rows[i].segmentSize >= 0
    ensures TotalSize(rows[..n]) <= TotalSize(rows)
    decreases |rows| - n
  {
    if n == |rows| {
      assert rows[..n] == rows;
    } else {
      assert rows[..n + 1][..n] == rows[..n];
      TotalsGrow(rows, n + 1);
    }
  }

  /** The first `n` rows were turned into segments. */
  ghost predicate Loaded(rows: seq<Row>, n: int, segments: seq<Segment>, total: int)
    requires 0 <= n <= |rows|
  {
    && Matches(rows[..n], segments) && Contiguous(segments) && total == TotalSize(rows[..n]) == |Joined(segments)|
    && forall j :: 0 <= j < n ==> RowSound(rows[j], j)
  }

  lemma LoadedNext(rows: seq<Row>, n: nat, segments: seq<Segment>, total: int, s: Segment)
    requires n < |rows| && Loaded(rows, n, segments, total) && RowSound(rows[n], n)
    requires s == Segment(total, rows[n].segmentSize, rows[n].source.value)
    ensures Loaded(rows, n + 1, segments + [s], total + s.size)
  {
    ContiguousNext(segments, s);
    JoinedNext(segments, s);
    assert rows[..n + 1] == rows[..n] + [rows[n]];
    assert (rows[..n] + [rows[n]])[..n] == rows[..n];
  }

  /** A manifest whose beginning is larger than the file is not sound. */
  lemma TooLarge(rows: seq<Row>, n: nat, segments: seq<Segment>, total: int, fileSize: int)
    requires n < |rows| && Loaded(rows, n, segments, total) && total + rows[n].segmentSize > fileSize
    ensures !RowsSound(rows, fileSize)
  {
    assert rows[..n + 1] == rows[..n] + [rows[n]];
    assert (rows[..n] + [rows[n]])[..n] == rows[..n];
    assert TotalSize(rows[..n + 1]) > fileSize;
    if forall i :: 0 <= i < |rows| ==> RowSound(rows[i], i) {
      TotalsGrow(rows, n + 1);
    }
  }

  /** All rows were turned into segments, so only their sum decides. */
  lemma LoadedAll(rows: seq<Row>, segments: seq<Segment>, total: int, fileSize: int)
    requires Loaded(rows, |rows|, segments, total)
    ensures RowsSound(rows, fileSize) <==> segments != [] && total == fileSize
    ensures Matches(rows, segments)
  {
    assert rows[..|rows|] == rows;
  }

  /** loadCompositeManifest: the segments of the file, or a refusal if the rows are not exactly those
      of a composite of that size. */
  method LoadManifest(rows: seq<Row>, fileSize: int) returns (r: Manifest)
    ensures r.Segments? <==> RowsSound(rows, fileSize)
    ensures r.Segments? ==> Matches(rows, r.segments) && Contiguous(r.segments) && |Joined(r.segments)| == fileSize
  {
    var segments: seq<Segment>, total := [], 0;
    for i := 0 to |rows|
      invariant Loaded(rows, i, segments, total)
    {
      var valid := ValidateSegment(rows[i], i);
      if !valid {
        return InvalidComposite;
      }
      if rows[i].segmentSize < 0 || total > fileSize - rows[i].segmentSize {
        TooLarge(rows, i, segments, total, fileSize);
        return InvalidComposite;
      }
      var segment := Segment(total, rows[i].segmentSize, rows[i].source.value);
      LoadedNext(rows, i, segments, total, segment);
      segments := segments + [segment];
      total := total + segment.size;
    }
    LoadedAll(rows, segments, total, fileSize);
    if |segments| == 0 || total != fileSize {
      return InvalidComposite;
    }
    r := Segments(segments);
  }

  /** validateCompositeSegment. */
  method ValidateSegment(row: Row, i: int) returns (ok: bool)
    ensures ok <==> RowSound(row, i)
  {
    if row.index != i || row.source.None? || !row.source.value.ready || row.source.value.layout != 1 {
      return false;
    }
    ok := |row.source.value.content| == row.segmentSize;
  }

  // ---------------------------------------------------------------------------
  // Where a segment lies
  // ---------------------------------------------------------------------------

  ghost function SegmentEnd(s: Segment): int {
    s.start + s.size
  }

  lemma {:induction false} JoinedPrefix(segments: seq<Segment>, i: nat)
    requires i <= |segments|
    ensures Joined(segments[..i]) <= Joined(segments)
    decreases |segments| - i
  {
    if i == |segments| {
      assert segments[..i] == segments;
    } else {
      assert segments[..i + 1][..i] == segments[..i];
      JoinedPrefix(segments, i + 1);
    }
  }

  /** The bytes of a segment within the whole. */
  lemma SegmentBytes(segments: seq<Segment>, i: nat)
    requires Contiguous(segments) && i < |segments|
    ensures 0 <= segments[i].start <= SegmentEnd(segments[i]) <= |Joined(segments)|
    ensures segments[i].source.content == Joined(segments)[segments[i].start..SegmentEnd(segments[i])]
    ensures i + 1 < |segments| ==> segments[i + 1].start == SegmentEnd(segments[i])
    ensures i + 1 == |segments| ==> |Joined(segments)| == SegmentEnd(segments[i])
    ensures i == 0 ==> segments[i].start == 0
  {
    assert SegmentSound(segments, i);
    assert segments[..i + 1][..i] == segments[..i];
    JoinedPrefix(segments, i + 1);
    assert Joined(segments[..i + 1]) == Joined(segments[..i]) + segments[i].source.content;
    if i + 1 < |segments| { assert SegmentSound(segments, i + 1); } else { assert segments[..i + 1] == segments; }
  }

  lemma SegmentSlice(segments: seq<Segment>, i: nat, from: int, n: nat)
    requires Contiguous(segments) && i < |segments| && 0 <= from && from + n <= |segments[i].source.content|
    ensures var begin := segments[i].start + from;
      && 0 <= begin && begin + n <= |Joined(segments)|
      && segments[i].source.content[from..from + n] == Joined(segments)[begin..begin + n]
  {
    SegmentBytes(segments, i);
    SliceOfSlice(Joined(segments), segments[i].start, SegmentEnd(segments[i]), from, n);
  }

  lemma {:induction false} StopsAscend(segments: seq<Segment>, i: nat, j: nat)
    requires Contiguous(segments) && i <= j < |segments|
    ensures SegmentEnd(segments[i]) <= SegmentEnd(segments[j])
    decreases j
  {
    if i < j {
      StopsAscend(segments, i, j - 1);
      SegmentBytes(segments, j - 1);
      SegmentBytes(segments, j);
    }
  }

  lemma HeldOnce(segments: seq<Segment>, i: nat, j: nat, offset: int)
    requires Contiguous(segments) && i < |segments| && j < |segments|
    requires segments[i].start <= offset < SegmentEnd(segments[i])
    requires segments[j].start <= offset < SegmentEnd(segments[j])
    ensures i == j
  {
    if i < j { HeldBefore(segments, i, j); }
    if j < i { HeldBefore(segments, j, i); }
  }

  lemma HeldBefore(segments: seq<Segment>, i: nat, j: nat)
    requires Contiguous(segments) && i < j < |segments|
    ensures SegmentEnd(segments[i]) <= segments[j].start
  {
    StopsAscend(segments, i, j - 1);
    SegmentBytes(segments, j - 1);
  }

  /** segmentAt: the binary search for the first segment that ends after the offset. */
  method SegmentAt(segments: seq<Segment>, offset: int) returns (index: int)
    requires Contiguous(segments) && offset >= 0
    ensures index == -1 || 0 <= index < |segments|
    ensures index >= 0 ==> segments[index].start <= offset < SegmentEnd(segments[index])
    ensures index == -1 <==> offset >= |Joined(segments)|
  {
    var low, high := 0, |segments|;
    while low < high
      invariant 0 <= low <= high <= |segments|
      invariant low > 0 ==> SegmentEnd(segments[low - 1]) <= offset
      invariant high < |segments| ==> SegmentEnd(segments[high]) > offset
    {
      var middle := (low + high) / 2;
      if segments[middle].start + segments[middle].size > offset {
        high := middle;
      } else {
        low := middle + 1;
      }
    }
    if low > 0 { SegmentBytes(segments, low - 1); }
    if low == |segments| {
      assert low == 0 ==> segments == [];
      return -1;
    }
    SegmentBytes(segments, low);
    StopsAscend(segments, low, |segments| - 1);
    SegmentBytes(segments, |segments| - 1);
    index := low;
  }

  // ---------------------------------------------------------------------------
  // Where bytes were taken from
  // ---------------------------------------------------------------------------

  /** Each of the bytes, which are taken for those from `at` on, is that of the place it was taken
      from, which is never further on. */
  ghost predicate Delivered(whole: Bytes, bytes: Bytes, at: int, taken: seq<int>) {
    && |taken| == |bytes|
    && forall i :: 0 <= i < |bytes| ==> 0 <= taken[i] <= at + i && taken[i] < |whole| && bytes[i] == whole[taken[i]]
  }

  ghost function Onward(from: int, n: nat): (s: seq<int>)
    ensures |s| == n && forall i :: 0 <= i < n ==> s[i] == from + i
  {
    seq(n, i => from + i)
  }

  lemma DeliveredMore(whole: Bytes, read: Bytes, more: Bytes, at: int, taken: seq<int>, begin: int)
    requires Delivered(whole, read, at, taken) && 0 <= begin <= at + |read| && begin + |more| <= |whole|
    requires more == whole[begin..begin + |more|]
    ensures Delivered(whole, read + more, at, taken + Onward(begin, |more|))
  {
  }

  // ---------------------------------------------------------------------------
  // The stream
  // ---------------------------------------------------------------------------

  class CompositeStream {
    const segments: seq<Segment>
    const blockSize: int
    const size: int
    var offset: int
    var current: FileStream?
    var currentIndex: int
    var open: bool
    ghost var trace: Trace

    /** The segments join up to the file, and every source is stored in blocks. */
    ghost predicate Placed()
      reads this
    {
      && Contiguous(segments) && size == |Joined(segments)| && 0 <= offset <= size
      && (forall i :: 0 <= i < |segments| ==> Laid(segments[i].source.content, blockSize, segments[i].source.parts))
    }

    /** The source stream, if one is open, is that of its segment, and no further than the offset. */
    ghost predicate Attached()
      reads this, current
    {
      current != null ==>
        && 0 <= currentIndex < |segments| && segments[currentIndex].start <= offset
        && current.Stored() && current.isOpen && current.blockSize == blockSize
        && current.content == segments[currentIndex].source.content
        && current.parts == segments[currentIndex].source.parts
        && PlaceSound(current.content, blockSize, current.parts,
                      Place(offset - segments[currentIndex].start, current.Now()))
    }

    ghost predicate Ready()
      reads this, current
    {
      Placed() && Attached()
    }

    /** Where the stream stands in a segment that holds the offset; a source that is not open would be
        opened at the offset. */
    ghost function PlaceIn(index: int): Place
      requires Ready() && 0 <= index < |segments| && segments[index].start <= offset
      reads this, current
    {
      var at := offset - segments[index].start;
      if current != null && currentIndex == index then Place(at, current.Now()) else Place(at, Stand(at, None))
    }

    /** `h` are the turns since the source stream was opened, if one is. */
    ghost predicate TracedBy(h: Trace)
      requires Ready()
      reads this, current
    {
      current != null ==>
        && IsTrace(current.content, blockSize, current.parts, h)
        && h.places[|h.answers|] == PlaceIn(currentIndex)
    }

    ghost predicate Traced()
      requires Ready()
      reads this, current
    {
      TracedBy(trace)
    }

    ghost method SetTrace(h: Trace)
      requires Ready() && TracedBy(h)
      modifies this`trace
      ensures Ready() && Traced() && (Valid() <==> old(Valid())) && (Lagging() <==> old(Lagging()))
    {
      trace := h;
    }

    /** The next turn gives other bytes than those at the offset: the count of the source was lost. */
    ghost predicate Strays()
      requires Ready() && Traced()
      reads this, current
    {
      current != null && Holds(currentIndex) && Lost(blockSize, trace.places, trace.answers, |trace.answers|)
    }

    /** The source stream, if one is open, stands at the offset with its cursor and its reader. */
    ghost predicate Valid()
      reads this, current
    {
      Ready() && (current != null ==>
        !Astray(PlaceIn(currentIndex), blockSize) && !Ahead(PlaceIn(currentIndex), blockSize))
    }

    constructor (segments: seq<Segment>, blockSize: int, size: int)
      requires Contiguous(segments) && size == |Joined(segments)|
      requires forall i :: 0 <= i < |segments| ==> Laid(segments[i].source.content, blockSize, segments[i].source.parts)
      ensures Valid() && Traced() && open && offset == 0 && current == null
      ensures this.segments == segments && this.blockSize == blockSize && this.size == size
    {
      this.segments, this.blockSize, this.size := segments, blockSize, size;
      offset, current, currentIndex, open := 0, null, -1, true;
      trace := Opened(0);
    }

    /** closeCurrent, which may report a failure of the source. */
    method CloseCurrent() returns (failed: bool)
      requires Placed()
      modifies this`current, this`currentIndex
      ensures Valid() && current == null
    {
      failed := false;
      if current != null {
        failed := *;
      }
      current, currentIndex := null, -1;
    }

    ghost predicate Holds(index: int)
      reads this
    {
      0 <= index < |segments| && segments[index].start <= offset < SegmentEnd(segments[index])
    }

    /** openSegment. */
    method OpenSegment(index: int) returns (failed: bool)
      requires Ready() && Holds(index)
      modifies this`current, this`currentIndex
      ensures Ready() && (old(Valid()) || current == null ==> Valid())
      ensures if failed then current == null else current != null && currentIndex == index
      ensures PlaceIn(index) == old(PlaceIn(index))
      ensures Lagging() ==> old(Lagging())
      ensures current == null || current == old(current) || fresh(current)
    {
      if current != null && currentIndex == index {
        return false;
      }
      failed := CloseCurrent();
      if failed {
        return;
      }
      var s := segments[index];
      SegmentBytes(segments, index);
      var reader := new FileStream(s.source.parts, blockSize, s.size, s.source.content);
      var position := offset - s.start;
      if position != 0 {
        var at := reader.Seek(position, SeekStart);
      }
      current, currentIndex := reader, index;
    }

    /** The source has read a block to its end without having noticed. */
    ghost predicate Lagging()
      reads this, current
    {
      current != null && current.AtBlockEnd()
    }

    /** advancePhysicalBoundary: the source is put where the stream believes it is, but only where a
        block ends. */
    method AdvanceBoundary() returns (failed: bool)
      requires Ready() && current != null && Holds(currentIndex)
      modifies current
      ensures Ready() && (failed <==> !OnBoundary(offset - segments[currentIndex].start, blockSize))
      ensures failed ==> PlaceIn(currentIndex) == old(PlaceIn(currentIndex))
      ensures !failed ==>
        PlaceIn(currentIndex) == Place(offset - segments[currentIndex].start,
                                       Stand(offset - segments[currentIndex].start, None))
    {
      var sourceOffset := offset - segments[currentIndex].start;
      if blockSize <= 0 || sourceOffset <= 0 || sourceOffset % blockSize != 0 {
        return true;
      }
      var at := current.Seek(sourceOffset, SeekStart);
      failed := false;
    }

    /** Where the stream stands in a segment is sound, and in step if the stream is. */
    lemma PlaceInSound(index: int)
      requires Ready() && Holds(index)
      ensures var p := PlaceIn(index);
        && PlaceSound(segments[index].source.content, blockSize, segments[index].source.parts, p)
        && p.at < |segments[index].source.content| && 0 <= From(p, blockSize)
        && segments[index].start + From(p, blockSize) <= offset
        && (Valid() ==> !Astray(p, blockSize) && !Ahead(p, blockSize))
      ensures var p := PlaceIn(index);
        (p.stand.reader.Some?
         && p.stand.reader.value.pos == |segments[index].source.parts[p.stand.reader.value.block]|) ==>
          Lagging()
    {
      SegmentBytes(segments, index);
    }

    /** readSegment: some bytes of the segment, or a step over the end of a block. */
    method ReadSegment(index: int, buffer: array<Byte>, from: nat)
      returns (n: nat, failed: bool, ghost turn: Option<Answer>, ghost want: nat)
      requires Ready() && Holds(index) && from < buffer.Length
      modifies this`offset, this`current, this`currentIndex, current, buffer
      ensures Ready() && offset == old(offset) + n && from + n <= buffer.Length
      ensures current == null || current == old(current) || fresh(current)
      ensures GaveBytes(old(PlaceIn(index)), index, buffer, from, n)
      ensures forall i :: 0 <= i < buffer.Length && !(from <= i < from + n) ==> buffer[i] == old(buffer[i])
      ensures turn.None? ==>
        failed && n == 0 && PlaceIn(index) == old(PlaceIn(index)) && (current == null || currentIndex == index)
      ensures turn.Some? ==> Turned(old(PlaceIn(index)), index, want, turn.value, n, failed)
    {
      PlaceInSound(index);
      failed := OpenSegment(index);
      if failed {
        return 0, true, None, 0;
      }
      n, failed, turn, want := ReadOpened(buffer, from);
    }

    /** The turn in which segment `index` was read: `n` bytes were given, and the stream moved on
        accordingly or has closed the source. */
    ghost predicate Turned(p: Place, index: int, want: nat, a: Answer, n: nat, failed: bool)
      requires Ready()
      reads this, current
    {
      && a.n == n && (a.failed ==> failed && current != null)
      && TurnIn(p, index, want, a) && segments[index].start <= offset
      && (current != null ==> currentIndex == index && PlaceIn(index) == Turn(p, blockSize, a))
      && (!failed && n == 0 ==> Resets(p, blockSize, a))
    }

    /** readSegment once the source is open. */
    method ReadOpened(buffer: array<Byte>, from: nat)
      returns (n: nat, failed: bool, ghost turn: Option<Answer>, ghost want: nat)
      requires Ready() && current != null && Holds(currentIndex) && from < buffer.Length
      modifies this`offset, this`current, this`currentIndex, current, buffer
      ensures Ready() && offset == old(offset) + n && from + n <= buffer.Length
      ensures (current == null || current == old(current))
      ensures GaveBytes(old(PlaceIn(currentIndex)), old(currentIndex), buffer, from, n)
      ensures forall i :: 0 <= i < buffer.Length && !(from <= i < from + n) ==> buffer[i] == old(buffer[i])
      ensures turn.None? ==>
        failed && n == 0 && currentIndex == old(currentIndex)
        && current != null && PlaceIn(currentIndex) == old(PlaceIn(currentIndex))
      ensures turn.Some? ==> Turned(old(PlaceIn(currentIndex)), old(currentIndex), want, turn.value, n, failed)
    {
      var segment := segments[currentIndex];
      n, failed, turn, want := ReadSource(buffer, from);
      if failed {
        return;
      }
      if n == 0 && offset < segment.start + segment.size {
        failed := AdvanceBoundary();
        return;
      }
      if offset == segment.start + segment.size {
        failed := CloseCurrent();
      }
    }

    /** The read of the source within readSegment. */
    method ReadSource(buffer: array<Byte>, from: nat)
      returns (n: nat, failed: bool, ghost turn: Option<Answer>, ghost want: nat)
      requires Ready() && current != null && Holds(currentIndex) && from < buffer.Length
      modifies this`offset, current, buffer
      ensures Ready() && offset == old(offset) + n <= SegmentEnd(segments[currentIndex]) && from + n <= buffer.Length
      ensures GaveBytes(old(PlaceIn(currentIndex)), currentIndex, buffer, from, n)
      ensures forall i :: 0 <= i < buffer.Length && !(from <= i < from + n) ==> buffer[i] == old(buffer[i])
      ensures turn.None? ==> failed && n == 0 && PlaceIn(currentIndex) == old(PlaceIn(currentIndex))
      ensures turn.Some? ==>
        turn.value.n == n && turn.value.failed == failed && Answered(old(PlaceIn(currentIndex)), want, turn.value)
    {
      var segment := segments[currentIndex];
      ghost var p := PlaceIn(currentIndex);
      SegmentBytes(segments, currentIndex);
      var request := Min(buffer.Length - from, segment.start + segment.size - offset);
      want := request;
      var outcome;
      n, outcome, turn := current.Read(buffer, from, request);
      if turn.Some? {
        AnswerSound(current.content, blockSize, current.parts, p, want, turn.value);
      }
      offset := offset + n;
      failed := outcome.Failed?;
    }

    /** The source stream has moved from `p` as the answer says. */
    ghost predicate Answered(p: Place, want: nat, a: Answer)
      requires Ready() && current != null
      reads this, current
    {
      && TurnIn(p, currentIndex, want, a) && PlaceIn(currentIndex) == Place(p.at + a.n, Next(p.stand, blockSize, a))
    }

    /** `n` bytes of the buffer are those of the source from where the stream stood. */
    ghost predicate GaveBytes(p: Place, index: int, buffer: array<Byte>, from: int, n: int)
      reads this, buffer
    {
      && 0 <= index < |segments| && 0 <= from <= from + n <= buffer.Length
      && 0 <= From(p, blockSize) <= From(p, blockSize) + n <= |segments[index].source.content|
      && buffer[from..from + n] == segments[index].source.content[From(p, blockSize)..From(p, blockSize) + n]
    }

    ghost predicate TurnIn(p: Place, index: int, want: nat, a: Answer)
      reads this
    {
      0 <= index < |segments|
      && CanTurn(segments[index].source.content, blockSize, segments[index].source.parts, p, want, a)
    }

    /** What a turn means: a stream in step stays so exactly unless a failure came with bytes, and a
        turn that gave nothing has passed the end of a block. */
    lemma AfterTurn(p: Place, index: int, want: nat, a: Answer, n: nat, failed: bool)
      requires Ready() && Turned(p, index, want, a, n, failed)
      ensures !Astray(p, blockSize) && !Ahead(p, blockSize) ==> (Valid() <==> !(a.failed && n > 0))
      ensures !failed && n == 0 ==> !Lagging()
      ensures !failed && n == 0 ==>
        p.stand.reader.Some? && p.stand.reader.value.pos == |segments[index].source.parts[p.stand.reader.value.block]|
    {
      var source := segments[index].source;
      if !Astray(p, blockSize) && !Ahead(p, blockSize) {
        TurnInStep(source.content, blockSize, source.parts, p, want, a);
      }
      if !failed && n == 0 {
        NothingGiven(source.content, blockSize, source.parts, p, want, a);
      }
    }

    /** A turn that did not reach the backend changes nothing. */
    lemma AfterNoTurn(p: Place, index: int)
      requires Ready() && Holds(index) && PlaceIn(index) == p && (current == null || currentIndex == index)
      ensures !Astray(p, blockSize) && !Ahead(p, blockSize) ==> Valid()
    {
    }

    /** The turns so far, if the source of the segment is open. */
    ghost function TraceIn(index: int): Trace
      requires Ready() && Holds(index)
      reads this, current
    {
      if current != null && currentIndex == index then trace else Opened(offset - segments[index].start)
    }

    lemma TraceInSound(index: int)
      requires Ready() && Traced() && Holds(index)
      ensures var h, source := TraceIn(index), segments[index].source;
        IsTrace(source.content, blockSize, source.parts, h) && h.places[|h.answers|] == PlaceIn(index)
      ensures Astray(PlaceIn(index), blockSize) <==> Strays()
    {
      var h, source := TraceIn(index), segments[index].source;
      SegmentBytes(segments, index);
      TraceStrays(source.content, blockSize, source.parts, h);
      if current != null && Holds(currentIndex) { HeldOnce(segments, index, currentIndex, offset); }
    }

    /** A turn in the segment that holds the offset. */
    method ReadTurn(index: int, buffer: array<Byte>, n: nat) returns (count: nat, failed: bool, ghost late: bool)
      requires Ready() && Traced() && Holds(index) && n < buffer.Length
      modifies this`offset, this`current, this`currentIndex, this`trace, current, buffer
      ensures Ready() && Traced() && (current == null || current == old(current) || fresh(current))
      ensures offset == old(offset) + count && GaveBytes(old(PlaceIn(index)), index, buffer, n, count)
      ensures forall i :: 0 <= i < buffer.Length && !(n <= i < n + count) ==> buffer[i] == old(buffer[i])
      ensures old(Valid()) ==> (Valid() <==> !late)
      ensures late ==> failed && count > 0
      ensures !failed && count == 0 ==> old(Lagging()) && !Lagging()
    {
      ghost var p, turn, want := PlaceIn(index), None, 0;
      PlaceInSound(index);
      TraceInSound(index);
      ghost var h := TraceIn(index);
      count, failed, turn, want := ReadSegment(index, buffer, n);
      late := turn.Some? && turn.value.failed && count > 0;
      if turn.Some? {
        AfterTurn(p, index, want, turn.value, count, failed);
        TracedAfter(h, p, index, want, turn.value, count, failed);
        SetTrace(Extended(h, blockSize, want, turn.value));
      } else {
        AfterNoTurn(p, index);
        SetTrace(h);
      }
    }

    lemma TracedAfter(h: Trace, p: Place, index: int, want: nat, a: Answer, n: nat, failed: bool)
      requires Ready() && Turned(p, index, want, a, n, failed)
      requires IsTrace(segments[index].source.content, blockSize, segments[index].source.parts, h)
      requires h.places[|h.answers|] == p
      ensures TracedBy(Extended(h, blockSize, want, a))
    {
      TraceExtends(segments[index].source.content, blockSize, segments[index].source.parts, h, want, a);
    }

    /** One turn of the loop of Read: bytes from `begin` on, which is the offset if the stream is in
        step; `late` says that the source failed and gave bytes. */
    method TakeTurn(buffer: array<Byte>, n: nat) returns (count: nat, failed: bool, ghost begin: int, ghost late: bool)
      requires Ready() && Traced() && offset < size && n < buffer.Length
      modifies this`offset, this`current, this`currentIndex, this`trace, current, buffer
      ensures Ready() && Traced() && (current == null || current == old(current) || fresh(current))
      ensures offset == old(offset) + count && n + count <= buffer.Length
      ensures 0 <= begin <= old(offset) && begin + count <= size
      ensures buffer[n..n + count] == Joined(segments)[begin..begin + count]
      ensures forall i :: 0 <= i < buffer.Length && !(n <= i < n + count) ==> buffer[i] == old(buffer[i])
      ensures begin == old(offset) <==> !old(Strays())
      ensures old(Valid()) ==> begin == old(offset) && (Valid() <==> !late)
      ensures late ==> failed && count > 0
      ensures !failed && count == 0 ==> old(Lagging()) && !Lagging()
    {
      var index := SegmentAt(segments, offset);
      ghost var at := From(PlaceIn(index), blockSize);
      PlaceInSound(index);
      TraceInSound(index);
      count, failed, late := ReadTurn(index, buffer, n);
      begin := segments[index].start + at;
      SegmentSlice(segments, index, at, count);
    }

    /** What was read so far and one turn more. */
    method FillMore(buffer: array<Byte>, n: nat, ghost from: nat, ghost taken: seq<int>)
      returns (more: nat, failed: bool, ghost all: seq<int>, ghost late: bool)
      requires Ready() && Traced() && offset < size && n < buffer.Length && offset == from + n
      requires Delivered(Joined(segments), buffer[..n], from, taken)
      modifies this`offset, this`current, this`currentIndex, this`trace, current, buffer
      ensures Ready() && Traced() && (current == null || current == old(current) || fresh(current))
      ensures n <= more <= buffer.Length && offset == from + more
      ensures Delivered(Joined(segments), buffer[..more], from, all) && taken <= all
      ensures forall i :: more <= i < buffer.Length ==> buffer[i] == old(buffer[i])
      // the bytes of the turn are those at the offset exactly if the count of the source was not lost
      ensures forall i :: n <= i < more ==> (all[i] == from + i <==> !old(Strays()))
      ensures old(Valid()) ==> (Valid() <==> !late) && forall i :: n <= i < more ==> all[i] == from + i
      ensures late ==> failed && more > n
      ensures !failed && more == n ==> old(Lagging()) && !Lagging()
    {
      ghost var whole, read, begin := Joined(segments), buffer[..n], 0;
      var count;
      count, failed, begin, late := TakeTurn(buffer, n);
      more := n + count;
      all := taken + Onward(begin, count);
      assert buffer[..more] == read + buffer[n..more];
      DeliveredMore(whole, read, buffer[n..more], from, taken, begin);
    }

    /** Read fills the buffer as far as the file goes, whatever chunks the sources give.  `taken` tells
        where in the file each byte was taken from. */
    method Read(buffer: array<Byte>) returns (n: nat, outcome: Outcome, ghost taken: seq<int>, ghost late: bool)
      requires Ready() && Traced()
      modifies this`offset, this`current, this`currentIndex, this`trace, current, buffer
      ensures Ready() && Traced() && (current == null || current == old(current) || fresh(current))
      ensures outcome.NotOpen? <==> !open
      ensures outcome.EndOfFile? <==> open && buffer.Length > 0 && old(offset) == size
      ensures outcome.EndOfFile? || outcome.NotOpen? ==> n == 0
      ensures n <= buffer.Length && offset == old(offset) + n
      ensures outcome.More? ==> n == Min(buffer.Length, size - old(offset))
      ensures forall i :: n <= i < buffer.Length ==> buffer[i] == old(buffer[i])
      ensures Delivered(Joined(segments), buffer[..n], old(offset), taken)
      // a stream in step delivers the bytes at the offset, and stays in step exactly unless the source
      // fails with bytes
      ensures old(Valid()) ==> buffer[..n] == Joined(segments)[old(offset)..offset] && (Valid() <==> !late)
      ensures late ==> outcome.Failed? && n > 0
    {
      taken, late := [], false;
      if !open {
        return 0, NotOpen, [], false;
      }
      if buffer.Length == 0 {
        return 0, More, [], false;
      }
      if offset == size {
        return 0, EndOfFile, [], false;
      }
      n := 0;
      while n < buffer.Length && offset < size
        invariant Ready() && Traced() && (current == null || current == old(current) || fresh(current))
        invariant n <= buffer.Length && offset == old(offset) + n && !late
        invariant Delivered(Joined(segments), buffer[..n], old(offset), taken)
        invariant old(Valid()) ==> Valid() && forall i :: 0 <= i < n ==> taken[i] == old(offset) + i
        invariant forall i :: n <= i < buffer.Length ==> buffer[i] == old(buffer[i])
        decreases size - offset, Lagging()
      {
        var failed;
        n, failed, taken, late := FillMore(buffer, n, old(offset), taken);
        if failed {
          return n, Failed, taken, late;
        }
      }
      outcome := More;
    }

    /** Seek. */
    method Seek(to: int, whence: Whence) returns (r: SeekResult, failed: bool)
      requires Ready() && Traced()
      modifies this`offset, this`current, this`currentIndex
      ensures Ready() && Traced()
      ensures r.Closed? <==> !open
      ensures open && whence.Unknown? ==> r.InvalidOffset?
      // the target is counted from the start, from the offset or from the end
      ensures open && whence.SeekStart? ==> Lands(r, to, size)
      ensures open && whence.SeekCurrent? ==> Lands(r, old(offset) + to, size)
      ensures open && whence.SeekEnd? ==> Lands(r, size + to, size)
      ensures offset == if r.At? && !failed then r.position else old(offset)
      // whatever failed before, a seek that leads into the file puts the stream in step
      ensures r.At? ==> Valid() && current == null
      ensures !r.At? ==> !failed && current == old(current) && currentIndex == old(currentIndex)
    {
      if !open {
        return Closed, false;
      }
      if whence.Unknown? {
        return InvalidOffset, false;
      }
      r, failed := SeekTo(offset, size, to, whence), false;
      if r.At? {
        failed := CloseCurrent();
        if !failed {
          offset := r.position;
        }
      }
    }

    /** Close. */
    method Close() returns (failed: bool)
      requires Ready() && Traced()
      modifies this`open, this`current, this`currentIndex
      ensures !open && Ready() && Traced() && offset == old(offset)
      ensures old(open) ==> current == null
      ensures !old(open) ==> !failed && current == old(current)
    {
      if !open {
        return false;
      }
      open := false;
      failed := CloseCurrent();
    }
  }

  /** What a range request does: the stream is put at the start of the range, in one seek or in two that add up,
      and the next read delivers the content from there, whatever failed before. */
  method ReadFrom(s: CompositeStream, a: int, b: int, buffer: array<Byte>) returns (r: SeekResult, failed: bool, n: nat)
    requires s.Ready() && s.Traced() && s.open && 0 <= a <= s.size
    modifies s, s.current, buffer
    ensures s.Ready() && s.Traced()
    ensures !failed ==> Lands(r, a + b, s.size)
    ensures !failed && r.At? ==>
      a + b + n <= s.size && n <= buffer.Length && buffer[..n] == Joined(s.segments)[a + b..a + b + n]
  {
    n := 0;
    r, failed := s.Seek(a, SeekStart);
    if failed {
      return;
    }
    r, failed := s.Seek(b, SeekCurrent);
    if !failed && r.At? {
      var outcome;
      ghost var taken, late;
      n, outcome, taken, late := s.Read(buffer);
    }
  }
}
