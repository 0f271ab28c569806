/** The disk cache as the source keeps it: fields updated under the mutex.  Each method is proved to
    take the step of the same name, and returns the files it hands to removal.  What the methods
    require holds in every sound state, and the steps keep the state sound. */
module DiskCacheStore {
  import opened DiskCache

  ghost function Files(es: seq<DiskEntry>): seq<string> {
    if es == [] then [] else [es[0].path] + Files(es[1..])
  }

  lemma {:induction false} FilesConcat(a: seq<DiskEntry>, b: seq<DiskEntry>)
    ensures Files(a + b) == Files(a) + Files(b)
  {
    if a == [] {
      assert a + b == b;
    } else {
      assert (a + b)[1..] == a[1..] + b;
      FilesConcat(a[1..], b);
    }
  }

  class Cache {
    const limits: Limits
    var entries: map<Key, DiskEntry>
    var lru: seq<DiskEntry>
    var usedCost: int
    var closing: bool
    var readers: int
    var refs: map<DiskEntry, int>
    var retired: set<DiskEntry>
    ghost var open: multiset<DiskEntry>
    ghost var leaving: nat
    ghost var handed: multiset<DiskEntry>
    ghost var drained: bool

    ghost function Now(): State
      reads this
    {
      State(entries, lru, usedCost, closing, readers, refs, retired, open, leaving, handed, drained)
    }

    constructor (limits: Limits)
      ensures Now() == Empty && this.limits == limits
    {
      this.limits := limits;
      entries, lru, usedCost, closing, readers := map[], [], 0, false, 0;
      refs, retired := map[], {};
      open, leaving, handed, drained := multiset{}, 0, multiset{}, false;
    }

    /** retireLocked. */
    method RetireLocked(e: DiskEntry) returns (cleanup: seq<string>, ghost gone: seq<DiskEntry>)
      requires Tracked(Now(), e)
      modifies this
      ensures Now() == Retire(old(Now()), e)
      ensures cleanup == Files(gone) && handed == old(handed) + multiset(gone)
    {
      if e.key in entries && entries[e.key] == e {
        entries, lru, usedCost := entries - {e.key}, Without(lru, e), usedCost - e.cost;
      }
      retired := retired + {e};
      cleanup, gone := [], [];
      if refs[e] == 0 {
        cleanup, gone := HandOver(e);
      }
    }

    /** The eviction loop of admit. */
    method EvictFor(cost: int) returns (cleanup: seq<string>, ghost gone: seq<DiskEntry>)
      requires Evictable(Now(), cost, limits)
      modifies this
      ensures Now() == Evict(old(Now()), cost, limits)
      ensures cleanup == Files(gone) && handed == old(handed) + multiset(gone)
    {
      cleanup, gone := [], [];
      while cost > limits.maxCost - usedCost && lru != []
        invariant Evictable(Now(), cost, limits) && Evict(Now(), cost, limits) == Evict(old(Now()), cost, limits)
        invariant cleanup == Files(gone) && handed == old(handed) + multiset(gone)
        decreases |lru|
      {
        var oldest := lru[|lru| - 1];
        WithoutShorter(lru, oldest);
        var files, more := RetireLocked(oldest);
        FilesConcat(gone, more);
        cleanup, gone := cleanup + files, gone + more;
      }
    }

    /** The replaced entry and as many of the oldest as needed leave the index. */
    method MakeRoomFor(e: DiskEntry) returns (cleanup: seq<string>, ghost gone: seq<DiskEntry>)
      requires AdmitReady(Now(), e, limits)
      modifies this
      ensures Now() == MakeRoom(old(Now()), e, limits)
      ensures cleanup == Files(gone) && handed == old(handed) + multiset(gone)
    {
      cleanup, gone := [], [];
      if e.key in entries {
        cleanup, gone := RetireLocked(entries[e.key]);
      }
      var files, more := EvictFor(e.cost);
      FilesConcat(gone, more);
      cleanup, gone := cleanup + files, gone + more;
    }

    /** admit. */
    method AdmitEntry(e: DiskEntry) returns (admitted: bool, cleanup: seq<string>, ghost gone: seq<DiskEntry>)
      requires AdmitReady(Now(), e, limits)
      modifies this
      ensures Now() == Admit(old(Now()), e, limits)
      ensures admitted <==>
        && !old(closing) && e.size >= 0 && limits.minSize < e.size <= limits.keyLimit && e.size <= limits.maxCost
        && 0 < e.cost <= limits.maxCost
      ensures admitted ==> e.key in entries && entries[e.key] == e && lru[0] == e
      ensures cleanup == Files(gone) && handed == old(handed) + multiset(gone)
    {
      if closing || !Fits(e, limits) {
        return false, [], [];
      }
      cleanup, gone := MakeRoomFor(e);
      lru, entries, usedCost, refs := [e] + lru, entries[e.key := e], usedCost + e.cost, refs[e := 0];
      admitted := true;
    }

    /** The section of open under the mutex: the entry referenced, or a miss. */
    method OpenEntry(key: Key, expectedSize: int)
      returns (found: Option<DiskEntry>, cleanup: seq<string>, ghost gone: seq<DiskEntry>)
      requires key in entries ==> Tracked(Now(), entries[key])
      modifies this
      ensures Now() == Open(old(Now()), key, expectedSize)
      ensures cleanup == Files(gone) && handed == old(handed) + multiset(gone)
      ensures found == if key in old(entries) && !old(closing) && old(entries)[key].size == expectedSize
                       then Some(old(entries)[key]) else None
    {
      cleanup, gone, found := [], [], None;
      if key !in entries || closing {
        return;
      }
      var e := entries[key];
      if e.size != expectedSize {
        cleanup, gone := RetireLocked(e);
        return;
      }
      refs := refs[e := refs[e] + 1];
      readers := readers + 1;
      open := open + multiset{e};
      lru := [e] + Without(lru, e);
      found := Some(e);
    }

    /** invalidate. */
    method InvalidateEntry(e: DiskEntry) returns (cleanup: seq<string>, ghost gone: seq<DiskEntry>)
      requires e in refs && refs[e] == open[e]
      modifies this
      ensures Now() == Invalidate(old(Now()), e)
      ensures cleanup == Files(gone) && handed == old(handed) + multiset(gone)
    {
      cleanup, gone := [], [];
      if e.key in entries && entries[e.key] == e {
        cleanup, gone := RetireLocked(e);
      } else if e !in retired {
        retired := retired + {e};
        if refs[e] == 0 {
          cleanup, gone := HandOver(e);
        }
      }
    }

    /** release; an open reader has a reference, so the count is not below zero afterwards. */
    method ReleaseEntry(e: DiskEntry) returns (cleanup: seq<string>, ghost gone: seq<DiskEntry>)
      requires open[e] > 0 && e in refs && refs[e] == open[e]
      modifies this
      ensures Now() == Leave(Release(old(Now()), e))
      ensures cleanup == Files(gone) && handed == old(handed) + multiset(gone)
    {
      cleanup, gone := ReleaseLocked(e);
      readers, leaving := readers - 1, leaving - 1;
    }

    /** The section of release under the mutex. */
    method ReleaseLocked(e: DiskEntry) returns (cleanup: seq<string>, ghost gone: seq<DiskEntry>)
      requires open[e] > 0 && e in refs && refs[e] == open[e]
      modifies this
      ensures Now() == Release(old(Now()), e)
      ensures cleanup == Files(gone) && handed == old(handed) + multiset(gone)
    {
      ReleaseIs(Now(), e);
      var left := Unreference(e);
      if e in retired && left == 0 {
        cleanup, gone := HandOver(e);
      } else {
        cleanup, gone := [], [];
        assert handed + multiset(gone) == handed;
      }
    }

    /** The counts of release. */
    method Unreference(e: DiskEntry) returns (left: int)
      requires e in refs && refs[e] > 0
      modifies this`refs, this`leaving, this`open
      ensures left == old(refs[e]) - 1
      ensures Now() == old(Now()).(refs := old(refs)[e := left], leaving := old(leaving) + 1,
                                   open := old(open) - multiset{e})
    {
      left := refs[e] - 1;
      if left < 0 {
        left := 0;
      }
      refs, leaving, open := refs[e := left], leaving + 1, open - multiset{e};
    }

    /** A file that nobody reads any more goes to removal. */
    method HandOver(e: DiskEntry) returns (cleanup: seq<string>, ghost gone: seq<DiskEntry>)
      modifies this`handed
      ensures cleanup == Files(gone) && gone == [e]
      ensures handed == old(handed) + multiset{e} == old(handed) + multiset(gone)
      ensures Now() == old(Now()).(handed := handed)
    {
      cleanup, gone := [e.path], [e];
      handed := handed + multiset{e};
    }

    /** close up to its wait for the readers. */
    method Close()
      modifies this
      ensures Now() == BeginClose(old(Now()))
    {
      closing := true;
    }

    /** close after its wait. */
    method Drain()
      requires closing && readers == 0
      modifies this
      ensures Now() == EndClose(old(Now()))
    {
      entries, lru, usedCost, drained := map[], [], 0, true;
    }
  }

  /** The entry is in the index and its references are counted. */
  ghost predicate Tracked(s: State, e: DiskEntry) {
    e.key in s.entries && s.entries[e.key] == e && e in s.refs && s.refs[e] == s.open[e]
  }

  /** Every entry that an eviction comes to is tracked. */
  ghost predicate Evictable(s: State, cost: int, l: Limits)
    decreases |s.lru|
  {
    cost <= l.maxCost - s.used || s.lru == [] || (
      var oldest := s.lru[|s.lru| - 1];
      WithoutShorter(s.lru, oldest);
      Tracked(s, oldest) && Evictable(Retire(s, oldest), cost, l))
  }

  ghost predicate AdmitReady(s: State, e: DiskEntry, l: Limits) {
    if e.key in s.entries then Tracked(s, s.entries[e.key]) && Evictable(Retire(s, s.entries[e.key]), e.cost, l)
    else Evictable(s, e.cost, l)
  }

  lemma ReleaseIs(s: State, e: DiskEntry)
    requires e in s.refs && s.refs[e] == s.open[e] > 0
    ensures var left := s.refs[e] - 1;
      Release(s, e) == s.(refs := s.refs[e := left], leaving := s.leaving + 1, open := s.open - multiset{e},
                          handed := if e in s.retired && left == 0 then s.handed + multiset{e} else s.handed)
  {
    assert (s.open - multiset{e})[e] == s.open[e] - 1;
    assert s.handed + multiset{} == s.handed;
  }

  lemma SoundTracks(s: State, l: Limits, e: DiskEntry)
    requires Sound(s, l) && e in Members(s.lru)
    ensures Tracked(s, e)
  {
    ByKeyFinds(s.lru, e);
  }

  lemma {:induction false} SoundEvictable(s: State, cost: int, l: Limits)
    requires Sound(s, l)
    ensures Evictable(s, cost, l)
    decreases |s.lru|
  {
    if !(cost <= l.maxCost - s.used || s.lru == []) {
      var oldest := s.lru[|s.lru| - 1];
      ByKeyFinds(s.lru, oldest);
      WithoutShorter(s.lru, oldest);
      SoundTracks(s, l, oldest);
      RetireSound(s, l, oldest);
      SoundEvictable(Retire(s, oldest), cost, l);
    }
  }

  /** In a sound state every method may be called. */
  lemma SoundIsReady(s: State, l: Limits)
    requires Sound(s, l)
    ensures forall key :: key in s.entries ==> Tracked(s, s.entries[key])
    ensures forall e :: e in s.refs ==> s.refs[e] == s.open[e]
    ensures forall e :: s.open[e] > 0 ==> e in s.refs
    ensures forall e :: AdmitReady(s, e, l)
  {
    forall key | key in s.entries ensures Tracked(s, s.entries[key]) {
      ByKeyKeyed(s.lru, key);
      SoundTracks(s, l, s.entries[key]);
    }
    forall e: DiskEntry ensures AdmitReady(s, e, l) {
      if e.key in s.entries {
        ByKeyKeyed(s.lru, e.key);
        RetireSound(s, l, s.entries[e.key]);
        SoundEvictable(Retire(s, s.entries[e.key]), e.cost, l);
      } else {
        SoundEvictable(s, e.cost, l);
      }
    }
  }
}
