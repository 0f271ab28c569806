/** What the reader digests is what the files hold, whatever their parts. */
module ArchiveContents {
  import opened ArchiveNames
  import opened Archive
  import opened ArchiveProofs

  /** The bytes of all parts under a reference, in order. */
  ghost function ContentOf(parts: seq<Entry>, ref: string): Bytes {
    if parts == [] then []
    else
      var n := |parts| - 1;
      ContentOf(parts[..n], ref) + BytesFor(parts[n], ref)
  }

  ghost function BytesFor(e: Entry, ref: string): Bytes {
    if RefIn(e.name) == ref then e.bytes else []
  }

  ghost predicate HasRef(parts: seq<Entry>, ref: string) {
    exists i :: 0 <= i < |parts| && RefIn(parts[i].name) == ref
  }

  /** The contents of the physical files. */
  ghost function ContentsOf(files: seq<File>, parts: seq<Entry>): map<string, Bytes> {
    map ref | ref in PhysicalRefs(files) :: ContentOf(parts, ref)
  }

  ghost function PhysicalRefs(files: seq<File>): set<string> {
    set i | 0 <= i < |files| && files[i].layout == 1 :: files[i].ref
  }

  // ---------------------------------------------------------------------------
  // The reader meets the parts of a file one after the other
  // ---------------------------------------------------------------------------

  lemma {:induction false} LessTotal(a: string, b: string)
    ensures a == b || Less(a, b) || Less(b, a)
  {
    if a != [] && b != [] && a[0] == b[0] {
      LessTotal(a[1..], b[1..]);
      assert a == [a[0]] + a[1..] && b == [b[0]] + b[1..];
    }
  }

  /** Names of parts that ascend have references that do not descend. */
  lemma RefsFollowNames(a: string, b: string)
    requires IsPartName(a) && IsPartName(b) && Less(a, b)
    ensures RefIn(a) == RefIn(b) || Less(RefIn(a), RefIn(b))
  {
    LessTotal(RefIn(a), RefIn(b));
    if Less(RefIn(b), RefIn(a)) {
      LessFirst(RefIn(b), b[15..], RefIn(a), a[15..]);
      LessAfter("parts/", RefIn(b) + b[15..], RefIn(a) + a[15..]);
      assert a == "parts/" + (RefIn(a) + a[15..]) && b == "parts/" + (RefIn(b) + b[15..]);
      LessTransitive(a, b, a);
      LessIrreflexive(a);
    }
  }

  /** A reference that differs from the last one has not been met before. */
  lemma NewRef(parts: seq<Entry>, last: string, e: Entry)
    requires NamesRead(parts, last) && IsPartName(e.name) && Less(last, e.name) && parts != []
    requires RefIn(e.name) != RefIn(last)
    ensures !HasRef(parts, RefIn(e.name))
  {
    if HasRef(parts, RefIn(e.name)) {
      var i :| 0 <= i < |parts| && RefIn(parts[i].name) == RefIn(e.name);
      BeforeLast(parts, last, i);
      if i < |parts| - 1 { RefNotBefore(parts[i].name, last, e.name); }
    }
  }

  lemma BeforeLast(parts: seq<Entry>, last: string, i: nat)
    requires NamesRead(parts, last) && i < |parts|
    ensures IsPartName(parts[i].name) && IsPartName(last)
    ensures if i < |parts| - 1 then Less(parts[i].name, last) else parts[i].name == last
  {
    if i < |parts| - 1 { AscendingPair(NamesOf(parts), i, |parts| - 1); }
  }

  lemma RefNotBefore(a: string, b: string, c: string)
    requires IsPartName(a) && IsPartName(b) && IsPartName(c) && Less(a, b) && Less(b, c) && RefIn(b) != RefIn(c)
    ensures RefIn(a) != RefIn(c)
  {
    RefsFollowNames(a, b);
    RefsFollowNames(b, c);
    if RefIn(a) == RefIn(c) {
      LessTransitive(RefIn(b), RefIn(c), RefIn(b));
      LessIrreflexive(RefIn(b));
    }
  }

  lemma {:induction false} NoContent(parts: seq<Entry>, ref: string)
    requires !HasRef(parts, ref)
    ensures ContentOf(parts, ref) == []
  {
    if parts != [] { NoContent(parts[..|parts| - 1], ref); }
  }

  /** What was digested of a file is the bytes of its parts. */
  ghost predicate DigestedAt(contents: map<string, Bytes>, parts: seq<Entry>, ref: string) {
    (ref in contents <==> HasRef(parts, ref)) && (ref in contents ==> contents[ref] == ContentOf(parts, ref))
  }

  ghost predicate Digested(contents: map<string, Bytes>, parts: seq<Entry>) {
    forall ref :: DigestedAt(contents, parts, ref)
  }

  /** What was digested of the parts so far. */
  ghost predicate Gathered(s: ReadState) {
    && Digested(Finished(s.contents, s.current), s.parts)
    && (s.current.Some? ==> s.parts != [] && s.current.value.0 == RefIn(s.last))
    && (s.current.None? ==> s.parts == [] || s.manifest.Some?)
  }

  lemma HasRefNext(parts: seq<Entry>, e: Entry, ref: string)
    ensures HasRef(parts + [e], ref) <==> HasRef(parts, ref) || RefIn(e.name) == ref
  {
    var more := parts + [e];
    if HasRef(parts, ref) {
      var i :| 0 <= i < |parts| && RefIn(parts[i].name) == ref;
      assert RefIn(more[i].name) == ref;
    }
    if RefIn(e.name) == ref { assert RefIn(more[|parts|].name) == ref; }
  }

  lemma ContentNext(parts: seq<Entry>, e: Entry, ref: string)
    ensures ContentOf(parts + [e], ref) == ContentOf(parts, ref) + BytesFor(e, ref)
  {
    assert (parts + [e])[..|parts|] == parts;
  }

  lemma GatheredNext(s: ReadState, e: Entry, l: Limits, t: Tools)
    requires Gathered(s) && NamesRead(s.parts, s.last) && s.manifest.None? && ConsumePart(s, e, l, t).Some?
    ensures Gathered(ConsumePart(s, e, l, t).value)
  {
    var u, own := ConsumePart(s, e, l, t).value, RefIn(e.name);
    if s.current.Some? && s.current.value.0 != own { NewRef(s.parts, s.last, e); }
    forall ref ensures DigestedAt(Finished(u.contents, u.current), u.parts, ref) {
      GatheredAt(s, e, ref);
    }
  }

  /** One file after a part was gathered. */
  lemma GatheredAt(s: ReadState, e: Entry, ref: string)
    requires DigestedAt(Finished(s.contents, s.current), s.parts, ref)
    requires !HasRef(s.parts, RefIn(e.name)) || (s.current.Some? && s.current.value.0 == RefIn(e.name))
    ensures var u := Gather(s, RefIn(e.name), e.bytes); DigestedAt(Finished(u.contents, u.current), s.parts + [e], ref)
  {
    HasRefNext(s.parts, e, ref);
    ContentNext(s.parts, e, ref);
    if ref == RefIn(e.name) && !HasRef(s.parts, ref) { NoContent(s.parts, ref); }
  }

  lemma {:induction false} AfterGathers(entries: seq<Entry>, l: Limits, t: Tools)
    requires After(entries, l, t).Some?
    ensures Gathered(After(entries, l, t).value)
  {
    if entries != [] {
      var n := |entries| - 1;
      AfterGathers(entries[..n], l, t);
      AfterMeans(entries[..n], l, t);
      ConsumeGathers(After(entries[..n], l, t).value, entries[n], l, t);
    }
  }

  lemma ConsumeGathers(s: ReadState, e: Entry, l: Limits, t: Tools)
    requires Gathered(s) && NamesRead(s.parts, s.last) && Consume(s, e, l, t).Some?
    ensures Gathered(Consume(s, e, l, t).value)
  {
    if s.index != 0 && e.name != MANIFEST_ENTRY { GatheredNext(s.(expanded := s.expanded + |e.bytes|), e, l, t); }
  }

  // ---------------------------------------------------------------------------
  // So its check of the contents is one of the files' bytes
  // ---------------------------------------------------------------------------

  /** The parts are those of the physical files. */
  ghost predicate PartsOfFiles(files: seq<File>, parts: seq<Entry>) {
    && (forall ref :: HasRef(parts, ref) ==> ref in PhysicalRefs(files))
    && (forall i :: 0 <= i < |files| && files[i].layout == 1 ==> (files[i].size == 0 <==> !HasRef(parts, files[i].ref)))
  }

  lemma {:induction false} WithEmptyMeans(files: seq<File>, contents: map<string, Bytes>, ref: string)
    requires forall i :: 0 <= i < |files| && files[i].layout == 1 && files[i].size == 0 ==> files[i].ref !in contents
    ensures ref in WithEmpty(files, contents) <==> ref in contents || exists i ::
      0 <= i < |files| && files[i].layout == 1 && files[i].size == 0 && files[i].ref == ref
    ensures ref in WithEmpty(files, contents) ==>
      WithEmpty(files, contents)[ref] == if ref in contents then contents[ref] else []
  {
    if files != [] {
      var n := |files| - 1;
      WithEmptyMeans(files[..n], contents, ref);
      assert forall i :: 0 <= i < n ==> files[..n][i] == files[i];
    }
  }

  /** What the reader checks the manifest against are the contents of the physical files. */
  lemma CheckedContents(files: seq<File>, parts: seq<Entry>, contents: map<string, Bytes>)
    requires PartsOfFiles(files, parts)
    requires Digested(contents, parts)
    ensures WithEmpty(files, contents) == ContentsOf(files, parts)
    ensures forall i :: 0 <= i < |files| ==> ContentFound(files, i, contents)
  {
    var checked, of := WithEmpty(files, contents), ContentsOf(files, parts);
    forall i | 0 <= i < |files| && files[i].layout == 1 ensures files[i].size == 0 <==> files[i].ref !in contents {
      assert DigestedAt(contents, parts, files[i].ref);
    }
    forall i | 0 <= i < |files| ensures ContentFound(files, i, contents) {
      assert forall j :: 0 <= j < i ==> files[..i][j] == files[j];
      WithEmptyMeans(files[..i], contents, files[i].ref);
    }
    forall ref ensures ref in checked <==> ref in of {
      WithEmptyMeans(files, contents, ref);
      assert DigestedAt(contents, parts, ref);
    }
    forall ref | ref in of ensures checked[ref] == of[ref] {
      WithEmptyMeans(files, contents, ref);
      assert DigestedAt(contents, parts, ref);
      if !HasRef(parts, ref) { NoContent(parts, ref); }
    }
  }
}
