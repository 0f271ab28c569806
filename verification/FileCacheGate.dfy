/** The fields that the load cache updates under its mutex (filemgr/file_io_cache.go), which follow
    the steps of all callers. */
module FileCacheGate {
  import opened FileCacheLoad
  import opened FileCacheLoadProofs

  class FillGate {
    var fills: map<Key, CallerId>
    var loads: int
    var closing: bool
    var closed: bool
    /** The whole cache, with its callers. */
    ghost var state: State
    ghost const content: Key -> Bytes

    ghost predicate Valid()
      reads this
    {
      && Sound(state, content)
      && fills == state.fills && loads == state.loads && closing == state.closing && closed == state.closed
    }

    constructor (ghost content: Key -> Bytes)
      ensures Valid() && state == Initial && this.content == content
    {
      fills, loads, closing, closed, state := map[], 0, false, false, Initial;
      this.content := content;
      new;
      InitialSound(content);
    }

    /** beginLoad: the load is counted unless the cache is closing; what is counted is the number of
        loads in progress. */
    method BeginLoad(ghost begin: Step) returns (ok: bool)
      requires Valid() && begin.Begin? && Enabled(state, begin)
      modifies this
      ensures Valid() && state == Apply(old(state), begin, content)
      ensures ok <==> Active(state.callers[begin.c].phase)
      ensures loads == |ActiveCallers(state.callers)|
    {
      StepSound(state, begin, content);
      state := Apply(state, begin, content);
      if closing || closed {
        return false;
      }
      loads := loads + 1;
      ok := true;
    }

    /** beginFill: a load in progress is never refused, and it leads exactly if no other load does. */
    method BeginFill(key: Key, c: CallerId) returns (role: Role)
      requires Valid() && Enabled(state, Join(c)) && state.callers[c].key == key
      modifies this
      ensures Valid() && state == Apply(old(state), Join(c), content)
      ensures role.Lead? <==> state.callers[c].phase == Leading
      ensures role.Lead? <==>
        forall d :: d in old(state).callers && old(state).callers[d].key == key ==> !Leads(old(state).callers[d].phase)
      ensures !role.Lead? ==> role.Follow? && state.callers[c].phase == Waiting(role.leader)
    {
      StillOpen(state, content, c);
      FilledIsLed(state, content, key);
      StepSound(state, Join(c), content);
      JoinMeans(state, c);
      state := Apply(state, Join(c), content);
      if closed {
        return Refused;
      }
      if key in fills {
        return Follow(fills[key]);
      }
      fills := fills[key := c];
      role := Lead;
    }

    /** finishFill and the end of the leader's load: whoever waits for it can go on. */
    method EndLead(key: Key, c: CallerId, ghost step: Step)
      requires Valid() && Enabled(state, step) && EndsLead(state, step, content, c) && state.callers[c].key == key
      modifies this
      ensures Valid() && state == Apply(old(state), step, content)
      ensures key !in fills && fills == old(fills) - {key} && loads == |ActiveCallers(state.callers)|
      ensures forall d :: d in state.callers && state.callers[d].phase == Waiting(c) ==> Enabled(state, Wake(d))
    {
      StepSound(state, step, content);
      EndLeadFields(state, step, content, c);
      state := Apply(state, step, content);
      if key in fills && fills[key] == c {
        fills := fills - {key};
      }
      loads := loads - 1;
    }

    /** Close up to its wait for the loads. */
    method BeginClosing()
      requires Valid()
      modifies this
      ensures Valid() && state == if old(closed) then old(state) else Apply(old(state), BeginClose, content)
    {
      if closed {
        return;
      }
      StepSound(state, BeginClose, content);
      state := Apply(state, BeginClose, content);
      closing := true;
    }

    /** Close after its waits: no load is in progress and nobody fills. */
    method EndClosing()
      requires Valid() && Enabled(state, FinishClose)
      modifies this
      ensures Valid() && state == Apply(old(state), FinishClose, content)
      ensures fills == map[] && ActiveCallers(state.callers) == {} && OpenReaders(state.callers) == {}
    {
      StepSound(state, FinishClose, content);
      state := Apply(state, FinishClose, content);
      NobodyLeft(state, content);
      closed := true;
    }
  }

  /** A cache with a load in progress is not closed. */
  lemma StillOpen(s: State, content: Key -> Bytes, c: CallerId)
    requires Sound(s, content) && c in s.callers && Active(s.callers[c].phase)
    ensures !s.closed
  {
    assert c in ActiveCallers(s.callers);
  }

  lemma JoinMeans(s: State, c: CallerId)
    requires Enabled(s, Join(c)) && !s.closed
    ensures var u, key := JoinStep(s, c), s.callers[c].key;
      && u.loads == s.loads && u.closing == s.closing && u.closed == s.closed && c in u.callers
      && u.fills == (if key in s.fills then s.fills else s.fills[key := c])
      && u.callers[c].phase == if key in s.fills then Waiting(s.fills[key]) else Leading
  {
  }

  /** A key is filled exactly if somebody leads its fill. */
  lemma FilledIsLed(s: State, content: Key -> Bytes, key: Key)
    requires Sound(s, content)
    ensures key !in s.fills <==> forall d :: d in s.callers && s.callers[d].key == key ==> !Leads(s.callers[d].phase)
  {
    forall d | d in s.callers ensures CallerSound(s, d, content) {
    }
  }

  lemma NobodyLeft(s: State, content: Key -> Bytes)
    requires Sound(s, content) && s.loads == 0
    ensures s.fills == map[] && ActiveCallers(s.callers) == {}
  {
    assert forall k :: k in s.fills ==> s.fills[k] in ActiveCallers(s.callers);
  }

  /** The step ends the load of a leader. */
  ghost predicate EndsLead(s: State, step: Step, content: Key -> Bytes, c: CallerId)
    requires Enabled(s, step)
  {
    && (step.Look? || step.Fill? || step.OpenAdmitted?) && step.c == c && Leads(s.callers[c].phase)
    && c in Apply(s, step, content).callers && !Active(Apply(s, step, content).callers[c].phase)
  }

  /** What the end of a leader's load does to the fields. */
  ghost predicate Ended(s: State, u: State, c: CallerId)
    requires c in s.callers
  {
    && s.callers[c].key in s.fills && s.fills[s.callers[c].key] == c && u.fills == s.fills - {s.callers[c].key}
    && u.loads == s.loads - 1 && u.closing == s.closing && u.closed == s.closed && c in u.finished
  }

  lemma EndLeadEnds(s: State, x: State, c: CallerId, phase: Phase)
    requires c in s.callers && Ends(s.fills, s.callers[c].key, c) && x == s.(memory := x.memory, index := x.index)
    ensures Ended(s, EndLead(x, c, phase), c)
  {
  }

  lemma LookEnds(s: State, c: CallerId, canceled: Cancellation)
    requires Enabled(s, Look(c, canceled)) && Ends(s.fills, s.callers[c].key, c) && s.callers[c].phase.Leading?
    requires !Active(LookStep(s, c, canceled).callers[c].phase)
    ensures Ended(s, LookStep(s, c, canceled), c)
  {
    var a := Lookup(s, s.callers[c], canceled);
    var x := s.(memory := a.memory, index := a.index);
    EndLeadEnds(s, x, c, if a.look.Hit? then Returned(a.look.bytes, a.look.tracked) else Failed);
  }

  lemma FillEnds(s: State, c: CallerId, outcome: FillOutcome, content: Key -> Bytes)
    requires Enabled(s, Fill(c, outcome)) && Ends(s.fills, s.callers[c].key, c)
    requires !Active(FillStep(s, c, outcome, content).callers[c].phase)
    ensures Ended(s, FillStep(s, c, outcome, content), c)
  {
    var caller := s.callers[c];
    var bytes := content(caller.key);
    var kept := s.(memory := s.memory[caller.key := bytes]);
    EndLeadEnds(s, s, c, Failed);
    EndLeadEnds(s, s, c, Returned(bytes, false));
    EndLeadEnds(s, kept, c, Returned(bytes, false));
  }

  lemma OpenEnds(s: State, c: CallerId, canceled: Cancellation, reloaded: bool, content: Key -> Bytes)
    requires Enabled(s, OpenAdmitted(c, canceled, reloaded)) && Ends(s.fills, s.callers[c].key, c)
    ensures Ended(s, OpenStep(s, c, canceled, reloaded, content), c)
  {
    var caller := s.callers[c];
    var a := LookOnDisk(s.memory, s.index, caller.key, caller.size, s.diskClosing, canceled);
    var x := s.(memory := a.memory, index := a.index);
    EndLeadEnds(s, x, c, if a.look.Hit? then Returned(a.look.bytes, a.look.tracked) else Failed);
    EndLeadEnds(s, x, c, Returned(content(caller.key), false));
  }

  lemma EndLeadFields(s: State, step: Step, content: Key -> Bytes, c: CallerId)
    requires Sound(s, content) && Enabled(s, step) && EndsLead(s, step, content, c)
    ensures Ended(s, Apply(s, step, content), c)
  {
    assert CallerSound(s, c, content);
    match step
    case Look(_, canceled) => LookEnds(s, c, canceled);
    case Fill(_, outcome) => FillEnds(s, c, outcome, content);
    case OpenAdmitted(_, canceled, reloaded) => OpenEnds(s, c, canceled, reloaded, content);
  }
}
