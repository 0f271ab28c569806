/** Every load can return: from any reachable state, whatever the other callers are doing, a load whose size is
    that of the file can be brought to return it, with the help of the caller it waits for at most
    (filemgr/file_io_cache.go).  What is cached is found without the loader. */
module FileCacheProgress {
  import opened FileCacheLoad
  import opened FileCacheLoadProofs

  // ---------------------------------------------------------------------------
  // What a look finds
  // ---------------------------------------------------------------------------

  /** The first level answers exactly if it holds the file in the size asked for, and forgets it otherwise. */
  lemma MemoryHitExactly(memory: map<Key, Bytes>, index: map<Key, DiskEntry>, key: Key, size: int,
                         content: Key -> Bytes)
    requires CachesSound(memory, index, content)
    ensures var a := LookInMemory(memory, index, key, size);
      && a.index == index && (a.look == Hit(content(key), false) || a.look == Miss)
      && (a.look.Hit? <==> key in memory && |content(key)| == size)
      && a.memory == if a.look.Hit? then memory else memory - {key}
  {
  }

  /** The second level answers exactly if it holds an entry of that size whose file is there and unchanged in its
      bytes, and the caller did not give up; an entry that is no use is dropped. */
  lemma DiskHitExactly(memory: map<Key, Bytes>, index: map<Key, DiskEntry>, key: Key, size: int, closing: bool,
                       canceled: Cancellation, content: Key -> Bytes)
    requires CachesSound(memory, index, content)
    ensures var a := LookOnDisk(memory, index, key, size, closing, canceled);
      && a.memory == memory
      && (a.look.Hit? <==> canceled.Never? && !closing && key in index && index[key].size == size == |content(key)|
                           && index[key].file.Some? && index[key].file.value.bytes == content(key))
      && (a.look.Hit? ==> a.look == Hit(content(key), true) && a.index.Keys == index.Keys)
      && (a.look.Error? <==> canceled.Before?
                             || (canceled.During? && key in index && !closing && index[key].size == size))
      && (a.look.Miss? ==> a.index == if closing then index else index - {key})
      && (a.look.Error? ==> a.index == index)
  {
  }

  /** What was filled and kept is found, in the level it was filled for. */
  lemma KeptIsFound(s: State, c: CallerId, stamp: nat, content: Key -> Bytes)
    requires Sound(s, content) && Enabled(s, Fill(c, Loaded(true, stamp)))
    requires s.callers[c].size == |content(s.callers[c].key)|
    ensures var u, caller := Apply(s, Fill(c, Loaded(true, stamp)), content), s.callers[c];
      var bytes := content(caller.key);
      if caller.inMemory then LookInMemory(u.memory, u.index, caller.key, caller.size).look == Hit(bytes, false)
      else LookOnDisk(u.memory, u.index, caller.key, caller.size, false, Never).look == Hit(bytes, true)
  {
  }

  // ---------------------------------------------------------------------------
  // Going on
  // ---------------------------------------------------------------------------

  ghost predicate GoesOnTo(steps: seq<Step>, more: seq<State>, taken: seq<Step>, content: Key -> Bytes) {
    IsRun(more, taken, content) && steps <= taken
  }

  lemma Onward(states: seq<State>, steps: seq<Step>, content: Key -> Bytes, step: Step)
    returns (more: seq<State>, taken: seq<Step>)
    requires IsRun(states, steps, content) && Enabled(states[|steps|], step)
    ensures GoesOnTo(steps, more, taken, content)
    ensures more[|taken|] == Apply(states[|steps|], step, content) && Sound(more[|taken|], content)
  {
    more, taken := states + [Apply(states[|steps|], step, content)], steps + [step];
    forall i | 0 <= i < |taken| ensures StepAt(more, taken, content, i) {
      if i < |steps| { assert StepAt(states, steps, content, i); }
    }
    RunSound(more, taken, content, |taken|);
  }

  ghost predicate HasReturned(s: State, c: CallerId, content: Key -> Bytes) {
    c in s.callers && s.callers[c].phase.Returned? && s.callers[c].phase.bytes == content(s.callers[c].key)
  }

  /** The size that was asked for is that of the file. */
  ghost predicate Sized(s: State, c: CallerId, content: Key -> Bytes) {
    c in s.callers && s.callers[c].size == |content(s.callers[c].key)|
  }

  lemma NotClosed(s: State, c: CallerId, content: Key -> Bytes)
    requires Sound(s, content) && c in s.callers && Active(s.callers[c].phase)
    ensures !s.closed
  {
    assert c in ActiveCallers(s.callers);
  }

  /** The caller keeps what it asks for. */
  predicate SameLoad(s: State, u: State, c: CallerId) {
    c in s.callers && c in u.callers && u.callers[c].key == s.callers[c].key && u.callers[c].size == s.callers[c].size
  }

  /** Nobody else moves. */
  ghost predicate OthersStay(s: State, u: State, c: CallerId) {
    forall d :: d in s.callers && d != c ==> d in u.callers && u.callers[d] == s.callers[d]
  }

  /** What a look makes of the caller. */
  ghost predicate Looked(s: State, u: State, c: CallerId) {
    && SameLoad(s, u, c) && OthersStay(s, u, c)
    && (u.callers[c].phase.Returned? || u.callers[c].phase == if s.callers[c].phase.Leading? then Filling else Missed)
    && (s.callers[c].phase.Looking? ==> u.fills == s.fills)
  }

  /** A look that is not canceled returns, or misses. */
  lemma LookReturns(s: State, c: CallerId, content: Key -> Bytes)
    requires Sound(s, content) && Enabled(s, Look(c, Never))
    ensures Looked(s, Apply(s, Look(c, Never), content), c)
  {
    NeverFails(s, s.callers[c]);
    var a := Lookup(s, s.callers[c], Never);
    var s' := s.(memory := a.memory, index := a.index);
    if a.look.Hit? { HitMoves(s', c, a.look.bytes, a.look.tracked); } else { MissMoves(s', c); }
  }

  lemma NeverFails(s: State, c: Caller)
    ensures !Lookup(s, c, Never).look.Error?
  {
  }

  lemma HitMoves(s: State, c: CallerId, bytes: Bytes, tracked: bool)
    requires c in s.callers
    ensures Looked(s, EndLead(s, c, Returned(bytes, tracked)), c) || s.callers[c].phase.Looking?
    ensures Looked(s, End(s, c, Returned(bytes, tracked)), c)
  {
  }

  lemma MissMoves(s: State, c: CallerId)
    requires c in s.callers
    ensures s.callers[c].phase.Leading? ==> Looked(s, To(s, c, Filling), c)
    ensures s.callers[c].phase.Looking? ==> Looked(s, To(s, c, Missed), c)
  {
  }

  // ---------------------------------------------------------------------------
  // The leader
  // ---------------------------------------------------------------------------

  lemma ReturnedIs(s: State, c: CallerId, content: Key -> Bytes)
    requires Sound(s, content) && c in s.callers && s.callers[c].phase.Returned?
    ensures HasReturned(s, c, content)
  {
    assert CallerSound(s, c, content);
  }

  /** A leader that fills can return, in one statement. */
  lemma FillingReturns(states: seq<State>, steps: seq<Step>, content: Key -> Bytes, c: CallerId)
    returns (more: seq<State>, taken: seq<Step>)
    requires IsRun(states, steps, content) && Sized(states[|steps|], c, content)
    requires states[|steps|].callers[c].phase.Filling?
    ensures GoesOnTo(steps, more, taken, content) && HasReturned(more[|taken|], c, content)
  {
    more, taken := Onward(states, steps, content, Fill(c, Loaded(false, 0)));
  }

  lemma LeadingReturns(states: seq<State>, steps: seq<Step>, content: Key -> Bytes, c: CallerId)
    returns (more: seq<State>, taken: seq<Step>)
    requires IsRun(states, steps, content) && Sized(states[|steps|], c, content)
    requires states[|steps|].callers[c].phase.Leading?
    ensures GoesOnTo(steps, more, taken, content) && HasReturned(more[|taken|], c, content)
  {
    RunSound(states, steps, content, |steps|);
    LookReturns(states[|steps|], c, content);
    more, taken := Onward(states, steps, content, Look(c, Never));
    if more[|taken|].callers[c].phase.Filling? {
      more, taken := FillingReturns(more, taken, content, c);
    } else {
      ReturnedIs(more[|taken|], c, content);
    }
  }

  lemma OpeningReturns(states: seq<State>, steps: seq<Step>, content: Key -> Bytes, c: CallerId)
    returns (more: seq<State>, taken: seq<Step>)
    requires IsRun(states, steps, content) && c in states[|steps|].callers && states[|steps|].callers[c].phase.Opening?
    ensures GoesOnTo(steps, more, taken, content) && HasReturned(more[|taken|], c, content)
  {
    RunSound(states, steps, content, |steps|);
    more, taken := Onward(states, steps, content, OpenAdmitted(c, Never, true));
    OpenedReturns(states[|steps|], c, content);
    ReturnedIs(more[|taken|], c, content);
  }

  lemma OpenedReturns(s: State, c: CallerId, content: Key -> Bytes)
    requires Sound(s, content) && Enabled(s, OpenAdmitted(c, Never, true))
    ensures var u := Apply(s, OpenAdmitted(c, Never, true), content); SameLoad(s, u, c) && u.callers[c].phase.Returned?
  {
    DiskHitExactly(s.memory, s.index, s.callers[c].key, s.callers[c].size, s.diskClosing, Never, content);
  }

  // ---------------------------------------------------------------------------
  // Ending a fill
  // ---------------------------------------------------------------------------

  /** The fill that `d` led for the key is over, and the others are as they were. */
  ghost predicate FillOver(s: State, u: State, d: CallerId, key: Key) {
    OthersStay(s, u, d) && d in u.finished && key !in u.fills
  }

  lemma FillEnded(s: State, d: CallerId, content: Key -> Bytes, step: Step)
    requires Sound(s, content) && d in s.callers && Enabled(s, step)
    requires (step == Fill(d, LoaderFails)) || (step == OpenAdmitted(d, Never, false))
    ensures FillOver(s, Apply(s, step, content), d, s.callers[d].key)
  {
    assert CallerSound(s, d, content);
  }

  lemma LookEnds(s: State, d: CallerId, content: Key -> Bytes)
    requires Sound(s, content) && d in s.callers && s.callers[d].phase.Leading?
    ensures var u := Apply(s, Look(d, Never), content);
      SameLoad(s, u, d) && OthersStay(s, u, d)
      && (u.callers[d].phase.Filling? || FillOver(s, u, d, s.callers[d].key))
  {
    assert CallerSound(s, d, content);
    LookReturns(s, d, content);
  }

  /** A leader can end its fill in at most two statements. */
  lemma LeaderEnds(states: seq<State>, steps: seq<Step>, content: Key -> Bytes, d: CallerId)
    returns (more: seq<State>, taken: seq<Step>)
    requires IsRun(states, steps, content) && d in states[|steps|].callers && Leads(states[|steps|].callers[d].phase)
    ensures GoesOnTo(steps, more, taken, content)
    ensures FillOver(states[|steps|], more[|taken|], d, states[|steps|].callers[d].key)
    ensures Sound(more[|taken|], content)
  {
    var s := states[|steps|];
    RunSound(states, steps, content, |steps|);
    if s.callers[d].phase.Opening? {
      FillEnded(s, d, content, OpenAdmitted(d, Never, false));
      more, taken := Onward(states, steps, content, OpenAdmitted(d, Never, false));
    } else if s.callers[d].phase.Filling? {
      FillEnded(s, d, content, Fill(d, LoaderFails));
      more, taken := Onward(states, steps, content, Fill(d, LoaderFails));
    } else {
      LookEnds(s, d, content);
      more, taken := Onward(states, steps, content, Look(d, Never));
      if more[|taken|].callers[d].phase.Filling? {
        FillEnded(more[|taken|], d, content, Fill(d, LoaderFails));
        more, taken := Onward(more, taken, content, Fill(d, LoaderFails));
      }
    }
  }

  // ---------------------------------------------------------------------------
  // Everybody else
  // ---------------------------------------------------------------------------

  /** A caller that missed while nobody fills its key leads, and returns. */
  lemma MissedAlone(states: seq<State>, steps: seq<Step>, content: Key -> Bytes, c: CallerId)
    returns (more: seq<State>, taken: seq<Step>)
    requires IsRun(states, steps, content) && Sized(states[|steps|], c, content)
    requires states[|steps|].callers[c].phase.Missed? && states[|steps|].callers[c].key !in states[|steps|].fills
    ensures GoesOnTo(steps, more, taken, content) && HasReturned(more[|taken|], c, content)
  {
    RunSound(states, steps, content, |steps|);
    NotClosed(states[|steps|], c, content);
    more, taken := Onward(states, steps, content, Join(c));
    more, taken := LeadingReturns(more, taken, content, c);
  }

  lemma LookingAlone(states: seq<State>, steps: seq<Step>, content: Key -> Bytes, c: CallerId)
    returns (more: seq<State>, taken: seq<Step>)
    requires IsRun(states, steps, content) && Sized(states[|steps|], c, content)
    requires states[|steps|].callers[c].phase.Looking? && states[|steps|].callers[c].key !in states[|steps|].fills
    ensures GoesOnTo(steps, more, taken, content) && HasReturned(more[|taken|], c, content)
  {
    RunSound(states, steps, content, |steps|);
    LookReturns(states[|steps|], c, content);
    more, taken := Onward(states, steps, content, Look(c, Never));
    if more[|taken|].callers[c].phase.Missed? {
      more, taken := MissedAlone(more, taken, content, c);
    } else {
      ReturnedIs(more[|taken|], c, content);
    }
  }

  /** A caller that waits for a fill that goes on: the leader ends it, and the caller wakes. */
  lemma WaitingReturns(states: seq<State>, steps: seq<Step>, content: Key -> Bytes, c: CallerId)
    returns (more: seq<State>, taken: seq<Step>)
    requires IsRun(states, steps, content) && Sized(states[|steps|], c, content)
    requires var s := states[|steps|];
      && s.callers[c].phase.Waiting? && s.callers[c].key in s.fills
      && s.fills[s.callers[c].key] == s.callers[c].phase.leader
    ensures GoesOnTo(steps, more, taken, content) && HasReturned(more[|taken|], c, content)
  {
    var s := states[|steps|];
    RunSound(states, steps, content, |steps|);
    more, taken := LeaderEnds(states, steps, content, s.callers[c].phase.leader);
    more, taken := Onward(more, taken, content, Wake(c));
    more, taken := LookingAlone(more, taken, content, c);
  }

  lemma MissedReturns(states: seq<State>, steps: seq<Step>, content: Key -> Bytes, c: CallerId)
    returns (more: seq<State>, taken: seq<Step>)
    requires IsRun(states, steps, content) && Sized(states[|steps|], c, content)
    requires states[|steps|].callers[c].phase.Missed?
    ensures GoesOnTo(steps, more, taken, content) && HasReturned(more[|taken|], c, content)
  {
    if states[|steps|].callers[c].key in states[|steps|].fills {
      RunSound(states, steps, content, |steps|);
      NotClosed(states[|steps|], c, content);
      more, taken := Onward(states, steps, content, Join(c));
      more, taken := WaitingReturns(more, taken, content, c);
    } else {
      more, taken := MissedAlone(states, steps, content, c);
    }
  }

  lemma LookingReturns(states: seq<State>, steps: seq<Step>, content: Key -> Bytes, c: CallerId)
    returns (more: seq<State>, taken: seq<Step>)
    requires IsRun(states, steps, content) && Sized(states[|steps|], c, content)
    requires states[|steps|].callers[c].phase.Looking?
    ensures GoesOnTo(steps, more, taken, content) && HasReturned(more[|taken|], c, content)
  {
    RunSound(states, steps, content, |steps|);
    LookReturns(states[|steps|], c, content);
    more, taken := Onward(states, steps, content, Look(c, Never));
    if more[|taken|].callers[c].phase.Missed? {
      more, taken := MissedReturns(more, taken, content, c);
    } else {
      ReturnedIs(more[|taken|], c, content);
    }
  }

  /** From every reachable state every load in progress whose size is that of the file can be brought to return
      it. */
  lemma CanReturn(states: seq<State>, steps: seq<Step>, content: Key -> Bytes, c: CallerId)
    returns (more: seq<State>, taken: seq<Step>)
    requires IsRun(states, steps, content) && Sized(states[|steps|], c, content)
    requires Active(states[|steps|].callers[c].phase)
    ensures GoesOnTo(steps, more, taken, content) && HasReturned(more[|taken|], c, content)
  {
    var s := states[|steps|];
    RunSound(states, steps, content, |steps|);
    match s.callers[c].phase
    case Direct => more, taken := Onward(states, steps, content, LoadDirectly(c, false));
    case Looking => more, taken := LookingReturns(states, steps, content, c);
    case Missed => more, taken := MissedReturns(states, steps, content, c);
    case Waiting(leader) =>
      assert CallerSound(s, c, content);
      if leader in s.finished {
        more, taken := Onward(states, steps, content, Wake(c));
        more, taken := LookingReturns(more, taken, content, c);
      } else {
        more, taken := WaitingReturns(states, steps, content, c);
      }
    case Leading => more, taken := LeadingReturns(states, steps, content, c);
    case Filling => more, taken := FillingReturns(states, steps, content, c);
    case Opening => more, taken := OpeningReturns(states, steps, content, c);
  }
}
