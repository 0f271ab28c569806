/** A seekable stream over the blocks of a file (filemgr/file_stream.go). */
module FileStreams {
  import opened BlockLayout

  datatype Option<T> = None | Some(value: T)

  /** Where in which block the open backend reader stands. */
  datatype Reader = Reader(block: nat, pos: nat)

  datatype Outcome = More | EndOfFile | Failed | NotOpen

  datatype Whence = SeekStart | SeekCurrent | SeekEnd | Unknown

  datatype SeekResult = At(position: int) | InvalidOffset | PastEnd | Closed

  /** What the backend answers to a read: how many bytes, and whether with the end or with an error. */
  datatype Answer = Answer(n: nat, ended: bool, failed: bool)

  /** Any chunk is an answer, of at least a byte unless none is left, with the end reported together
      with the last bytes or after them, and so is a failure that comes with some bytes or none. */
  predicate Allows(block: Bytes, pos: nat, want: nat, a: Answer) {
    && a.n <= want && pos + a.n <= |block| && (a.ended ==> !a.failed && pos + a.n == |block|)
    && (!a.failed && want > 0 ==> if pos < |block| then a.n > 0 else a.ended)
  }

  /** The backend reads some of the block. */
  method BackendRead(block: Bytes, pos: nat, buffer: array<Byte>, from: nat, want: nat) returns (a: Answer)
    requires pos <= |block| && from + want <= buffer.Length
    modifies buffer
    ensures Allows(block, pos, want, a) && buffer[from..from + a.n] == block[pos..pos + a.n]
    ensures forall i :: 0 <= i < buffer.Length && !(from <= i < from + a.n) ==> buffer[i] == old(buffer[i])
  {
    var rest := |block| - pos;
    var failed: bool := *;
    var ended: bool := *;
    var n: nat := 0;
    if failed {
      n :| n <= want && n <= rest;
    } else if want > 0 && rest > 0 {
      n :| 0 < n <= want && n <= rest;
    }
    a := Answer(n, !failed && n == rest && (ended || rest == 0), failed);
    for i := 0 to n
      invariant n <= want && pos + n <= |block| && buffer[from..from + i] == block[pos..pos + i]
      invariant forall j :: 0 <= j < buffer.Length && !(from <= j < from + i) ==> buffer[j] == old(buffer[j])
    {
      buffer[from + i] := block[pos + i];
      assert buffer[from..from + i + 1] == buffer[from..from + i] + [block[pos + i]];
    }
  }

  // ---------------------------------------------------------------------------
  // Where a stream stands
  // ---------------------------------------------------------------------------

  /** The cursor of a stream and its backend reader, if one is open. */
  datatype Stand = Stand(cursor: nat, reader: Option<Reader>)

  /** The reader that a read uses: the open one, or one opened at the cursor. */
  function ReaderOf(s: Stand, blockSize: int): Reader
    requires blockSize > 0
  {
    if s.reader.Some? then s.reader.value else Reader(s.cursor / blockSize, s.cursor % blockSize)
  }

  /** What a read makes of it, given the backend's answer. */
  function Next(s: Stand, blockSize: int, a: Answer): Stand
    requires blockSize > 0
  {
    var r := ReaderOf(s, blockSize);
    if a.failed then Stand(s.cursor, Some(Reader(r.block, r.pos + a.n)))
    else Stand(s.cursor + a.n, if a.ended then None else Some(Reader(r.block, r.pos + a.n)))
  }

  predicate CanAnswer(parts: seq<Bytes>, blockSize: int, s: Stand, want: nat, a: Answer) {
    blockSize > 0 && ReaderOf(s, blockSize).block < |parts|
    && Allows(parts[ReaderOf(s, blockSize).block], ReaderOf(s, blockSize).pos, want, a)
  }

  /** Where in the content the backend reader stands, or where it would be opened. */
  ghost function PositionOf(s: Stand, blockSize: int): int {
    if s.reader.None? then s.cursor else Start(s.reader.value.block, blockSize) + s.reader.value.pos
  }

  /** The blocks hold the content, the cursor is within it, and the backend reader stands in one of
      the blocks, not behind the cursor. */
  ghost predicate StandSound(content: Bytes, blockSize: int, parts: seq<Bytes>, s: Stand) {
    && Laid(content, blockSize, parts) && s.cursor <= PositionOf(s, blockSize) <= |content|
    && (s.reader.Some? ==> s.reader.value.block < |parts| && s.reader.value.pos <= |parts[s.reader.value.block]|)
  }

  /** The reader of a read stands where the stream does. */
  lemma ReaderStands(content: Bytes, blockSize: int, parts: seq<Bytes>, s: Stand)
    requires StandSound(content, blockSize, parts, s) && (s.reader.None? ==> s.cursor < |content|)
    ensures var r := ReaderOf(s, blockSize);
      r.block < |parts| && r.pos <= |parts[r.block]| && Start(r.block, blockSize) + r.pos == PositionOf(s, blockSize)
  {
    if s.reader.None? { Locate(content, blockSize, parts, s.cursor); }
  }

  /** A read takes the bytes from where the reader stands, which it moves on; where the reader is
      dropped the stream goes on at its cursor. */
  lemma NextSound(content: Bytes, blockSize: int, parts: seq<Bytes>, s: Stand, want: nat, a: Answer)
    requires StandSound(content, blockSize, parts, s) && (s.reader.None? ==> s.cursor < |content|)
    requires CanAnswer(parts, blockSize, s, want, a)
    ensures var u := Next(s, blockSize, a);
      && StandSound(content, blockSize, parts, u) && PositionOf(s, blockSize) + a.n <= |content|
      && u.cursor == (if a.failed then s.cursor else s.cursor + a.n)
      && PositionOf(u, blockSize) == if a.ended then u.cursor else PositionOf(s, blockSize) + a.n
  {
    ReaderStands(content, blockSize, parts, s);
    var r := ReaderOf(s, blockSize);
    PartSlice(content, blockSize, parts, r.block, r.pos, a.n);
  }

  /** A stream is in step after a read exactly if its reader was dropped, or it was in step before
      and no failure came with bytes. */
  lemma InStepAfter(content: Bytes, blockSize: int, parts: seq<Bytes>, s: Stand, want: nat, a: Answer)
    requires StandSound(content, blockSize, parts, s) && (s.reader.None? ==> s.cursor < |content|)
    requires CanAnswer(parts, blockSize, s, want, a)
    ensures var u := Next(s, blockSize, a);
      PositionOf(u, blockSize) == u.cursor
      <==> a.ended || (PositionOf(s, blockSize) == s.cursor && !(a.failed && a.n > 0))
  {
    NextSound(content, blockSize, parts, s, want, a);
  }

  class FileStream {
    const parts: seq<Bytes>
    const blockSize: int
    const size: int
    ghost const content: Bytes
    var cursor: int
    var isOpen: bool
    var reader: Option<Reader>

    ghost function Now(): Stand
      requires cursor >= 0
      reads this
    {
      Stand(cursor, reader)
    }

    ghost function Position(): int
      requires cursor >= 0
      reads this
    {
      PositionOf(Now(), blockSize)
    }

    ghost predicate Stored()
      reads this
    {
      cursor >= 0 && size == |content| && StandSound(content, blockSize, parts, Now())
    }

    /** The backend reader, if one is open, stands at the cursor. */
    ghost predicate InStep()
      requires cursor >= 0
      reads this
    {
      Position() == cursor
    }

    ghost predicate Valid()
      reads this
    {
      Stored() && InStep()
    }

    /** The backend reader has come to the end of its block. */
    ghost predicate AtBlockEnd()
      reads this
    {
      reader.Some? && reader.value.block < |parts| && reader.value.pos == |parts[reader.value.block]|
    }

    constructor (parts: seq<Bytes>, blockSize: int, size: int, ghost content: Bytes)
      requires Laid(content, blockSize, parts) && size == |content|
      ensures Valid() && isOpen && cursor == 0 && reader.None?
      ensures this.content == content && this.size == size && this.parts == parts && this.blockSize == blockSize
    {
      this.parts, this.blockSize, this.size, this.content := parts, blockSize, size, content;
      cursor, isOpen, reader := 0, true, None;
    }

    /** openCurrentPart: a backend reader at the cursor, unless the file ends there. */
    method OpenCurrentPart() returns (outcome: Outcome)
      requires Stored() && isOpen && reader.None?
      modifies this`reader
      ensures Stored() && InStep() && !outcome.NotOpen?
      ensures outcome.EndOfFile? <==> cursor == size
      ensures reader.Some? <==> outcome.More?
      ensures reader.Some? ==> reader.value == ReaderOf(old(Now()), blockSize) && !AtBlockEnd()
    {
      if cursor == size {
        return EndOfFile;
      }
      Locate(content, blockSize, parts, cursor);
      var available: bool := *;
      if !available {
        return Failed;
      }
      reader := Some(Reader(cursor / blockSize, cursor % blockSize));
      outcome := More;
    }

    /** The backend reader goes on by what it gives. */
    method ReadCurrentPart(buffer: array<Byte>, from: nat, want: nat) returns (a: Answer)
      requires Stored() && reader.Some? && from + want <= buffer.Length
      modifies buffer
      ensures CanAnswer(parts, blockSize, Now(), want, a) && Position() + a.n <= size
      ensures buffer[from..from + a.n] == content[Position()..Position() + a.n]
      ensures forall i :: 0 <= i < buffer.Length && !(from <= i < from + a.n) ==> buffer[i] == old(buffer[i])
    {
      var r := reader.value;
      a := BackendRead(parts[r.block], r.pos, buffer, from, want);
      PartSlice(content, blockSize, parts, r.block, r.pos, a.n);
    }

    /** Read: the bytes from where the backend reader stands, as many as the backend gives at once. */
    method Read(buffer: array<Byte>, from: nat, want: nat)
      returns (n: nat, outcome: Outcome, ghost answer: Option<Answer>)
      requires Stored() && from + want <= buffer.Length
      modifies this, buffer
      ensures Stored() && isOpen == old(isOpen)
      ensures outcome.NotOpen? <==> !old(isOpen)
      ensures outcome.EndOfFile? <==> old(isOpen) && old(cursor) == size && old(reader).None?
      ensures answer.None? ==> n == 0 && !outcome.More? && Now() == old(Now())
      ensures answer.Some? ==>
        && CanAnswer(parts, blockSize, old(Now()), want, answer.value) && n == answer.value.n
        && Now() == Next(old(Now()), blockSize, answer.value)
        && outcome == if answer.value.failed then Failed else More
      ensures n <= want && old(Position()) + n <= size
      ensures buffer[from..from + n] == content[old(Position())..old(Position()) + n]
      ensures forall i :: 0 <= i < buffer.Length && !(from <= i < from + n) ==> buffer[i] == old(buffer[i])
    {
      answer := None;
      if !isOpen {
        return 0, NotOpen, None;
      }
      if reader.None? {
        outcome := OpenCurrentPart();
        if !outcome.More? {
          return 0, outcome, None;
        }
      }
      var a := ReadCurrentPart(buffer, from, want);
      MoveOn(a, want);
      n, outcome, answer := a.n, if a.failed then Failed else More, Some(a);
    }

    /** The cursor and the reader after a read. */
    method MoveOn(a: Answer, ghost want: nat)
      requires Stored() && reader.Some? && CanAnswer(parts, blockSize, Now(), want, a)
      modifies this`cursor, this`reader
      ensures Stored() && Now() == Next(old(Now()), blockSize, a)
    {
      NextSound(content, blockSize, parts, Now(), want, a);
      reader := Some(Reader(reader.value.block, reader.value.pos + a.n));
      if a.failed {
        return;
      }
      cursor := cursor + a.n;
      if a.ended {
        reader := None;
      }
    }

    /** Seek: the backend reader is dropped even if the offset is refused. */
    method Seek(offset: int, whence: Whence) returns (r: SeekResult)
      requires Stored()
      modifies this
      ensures Stored() && isOpen == old(isOpen)
      ensures r.Closed? <==> !old(isOpen)
      ensures r.Closed? ==> reader == old(reader) && cursor == old(cursor)
      ensures old(isOpen) ==> InStep() && reader.None?
      // the target is counted from the start, from the cursor or from the end
      ensures old(isOpen) && whence.SeekStart? ==> Lands(r, offset, size)
      ensures old(isOpen) && whence.SeekCurrent? ==> Lands(r, old(cursor) + offset, size)
      ensures old(isOpen) && whence.SeekEnd? ==> Lands(r, size + offset, size)
      ensures old(isOpen) && whence.Unknown? ==> Lands(r, old(cursor), size)
      ensures cursor == if r.At? then r.position else old(cursor)
    {
      if !isOpen {
        return Closed;
      }
      reader := None;
      r := SeekTo(cursor, size, offset, whence);
      if r.At? {
        cursor := r.position;
      }
    }

    method Close()
      requires Stored()
      modifies this
      ensures Valid() && !isOpen && cursor == old(cursor)
    {
      reader := None;
      isOpen := false;
    }
  }

  /** A seek to `to` is refused before the start and past the end, and leads there otherwise. */
  predicate Lands(r: SeekResult, to: int, size: int) {
    && (r.InvalidOffset? <==> to < 0) && (r.PastEnd? <==> to >= 0 && to > size)
    && (r.At? <==> 0 <= to <= size) && (r.At? ==> r.position == to)
  }

  /** Where a seek leads, which is a position of the file or its end. */
  function SeekTo(cursor: int, size: int, offset: int, whence: Whence): (r: SeekResult)
    ensures r.At? ==> 0 <= r.position <= size
  {
    var to := match whence
      case SeekStart => offset
      case SeekCurrent => cursor + offset
      case SeekEnd => size + offset
      case Unknown => cursor;
    if to < 0 then InvalidOffset else if to > size then PastEnd else At(to)
  }

  /** What a range request does: the stream is put at the start of the range, in one seek or in two that add up,
      and the next read delivers the content from there. */
  method ReadFrom(s: FileStream, a: int, b: int, buffer: array<Byte>, want: nat) returns (r: SeekResult, n: nat)
    requires s.Stored() && s.isOpen && 0 <= a <= s.size && want <= buffer.Length
    modifies s, buffer
    ensures s.Stored() && Lands(r, a + b, s.size)
    ensures n <= want && (r.At? ==> a + b + n <= s.size && buffer[..n] == s.content[a + b..a + b + n])
  {
    r := s.Seek(a, SeekStart);
    r := s.Seek(b, SeekCurrent);
    n := 0;
    if r.At? {
      var outcome;
      ghost var answer;
      n, outcome, answer := s.Read(buffer, 0, want);
      assert buffer[0..0 + n] == buffer[..n];
    }
  }

  /** The same from the end. */
  method ReadFromEnd(s: FileStream, k: int, buffer: array<Byte>, want: nat) returns (r: SeekResult, n: nat)
    requires s.Stored() && s.isOpen && want <= buffer.Length
    modifies s, buffer
    ensures s.Stored() && Lands(r, s.size - k, s.size)
    ensures n <= want && (r.At? ==> n <= k && buffer[..n] == s.content[s.size - k..s.size - k + n])
  {
    r := s.Seek(-k, SeekEnd);
    n := 0;
    if r.At? {
      var outcome;
      ghost var answer;
      n, outcome, answer := s.Read(buffer, 0, want);
      assert buffer[0..0 + n] == buffer[..n];
    }
  }

  lemma PartSlice(content: Bytes, blockSize: int, parts: seq<Bytes>, i: nat, pos: nat, n: nat)
    requires Laid(content, blockSize, parts) && i < |parts| && pos + n <= |parts[i]|
    ensures var at := Start(i, blockSize) + pos;
      0 <= at && at + n <= |content| && parts[i][pos..pos + n] == content[at..at + n]
  {
    assert IsPart(content, blockSize, i, parts[i]);
    SliceOfSlice(content, Start(i, blockSize), Stop(i, blockSize, |content|), pos, n);
  }

  lemma SliceOfSlice(s: Bytes, from: nat, to: nat, pos: nat, n: nat)
    requires from <= to <= |s| && pos + n <= to - from
    ensures s[from..to][pos..pos + n] == s[from + pos..from + pos + n]
  {
    var a, b := s[from..to][pos..pos + n], s[from + pos..from + pos + n];
    assert |a| == |b| && forall k :: 0 <= k < n ==> a[k] == b[k];
  }
}
