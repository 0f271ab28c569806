/** Executing claimed deletes against the backend (filemgr/block_delete_worker.go): one call for
    the whole batch, one call per block when the batch is refused for good, and a database row
    finished for every work. */
module BlockExecute {
  import opened BlockTables
  import opened BlockWorker

  // Times are in nanoseconds where the code compares time.Time values.
  const Millisecond: int := 1_000_000
  const Second: int := 1_000 * Millisecond

  /** A claimed row as the worker remembers it. */
  datatype Work = Work(key: PartKey, uploadedAt: int, attempts: nat)

  /** What DeleteBlocks may answer. */
  datatype Response =
    | Accepted
    | Refused(status: int, retryAfter: int)
    | NetworkError
    | TimedOut
    | OtherError

  datatype Classified = Classified(retry: bool, delay: int)

  function Backoff(attempts: int): (d: int)
    ensures Second <= d <= 16 * Second
  {
    if attempts <= 1 then Second
    else
      var shift := if attempts - 1 < 4 then attempts - 1 else 4;
      var seconds := if shift == 1 then 2 else if shift == 2 then 4 else if shift == 3 then 8 else 16;
      if seconds * Second < 30 * Second then seconds * Second else 30 * Second
  }

  /** The delay doubles with each attempt until it stays at sixteen seconds. */
  lemma BackoffDoubles(attempts: int)
    ensures attempts < 1 ==> Backoff(attempts + 1) == Backoff(attempts) == Second
    ensures 1 <= attempts < 5 ==> Backoff(attempts + 1) == 2 * Backoff(attempts)
    ensures attempts >= 5 ==> Backoff(attempts + 1) == Backoff(attempts)
  {
  }

  /** Another attempt may do better. */
  predicate Temporary(response: Response) {
    response.NetworkError? || response.TimedOut?
    || (response.Refused? && (response.status == 429 || response.status >= 500))
  }

  function Classify(response: Response, attempts: int): (c: Classified)
    requires !response.Accepted?
    ensures c.retry <==> Temporary(response)
    ensures c.retry ==> c.delay > 0
    ensures response.Refused? && response.status == 429 ==>
      c.delay == if response.retryAfter > 0 then response.retryAfter else Second
    ensures c.retry && !(response.Refused? && response.status == 429) ==> c.delay == Backoff(attempts)
  {
    match response
    case Refused(status, retryAfter) =>
      if status == 429 then Classified(true, if retryAfter <= 0 then Second else retryAfter)
      else if status >= 500 then Classified(true, Backoff(attempts))
      else Classified(false, 0)
    case NetworkError => Classified(true, Backoff(attempts))
    case TimedOut => Classified(true, Backoff(attempts))
    case OtherError => Classified(false, 0)
  }

  /** The delete references a call names, by their rows. */
  function Keys(works: seq<Work>): (ks: seq<PartKey>)
    ensures |ks| == |works| && forall i :: 0 <= i < |works| ==> ks[i] == works[i].key
  {
    seq(|works|, i requires 0 <= i < |works| => works[i].key)
  }

  datatype Verdict = Verdict(state: DeleteState, nextAttemptAt: int)

  /** What becomes of a work whose attempt is to be repeated at `next`. */
  function RetryVerdict(work: Work, next: int): Verdict {
    if next >= (work.uploadedAt + DeleteDeadline) * Millisecond then Verdict(Expired, 0)
    else Verdict(Pending, next / Millisecond)
  }

  /** What becomes of `work` in batch `works`, from the answers of the backend alone. */
  ghost function VerdictOf(respond: seq<PartKey> -> Response, works: seq<Work>, work: Work, now: int): Verdict
    requires work in works
    decreases if |works| > 1 then 1 else 0
  {
    var response := respond(Keys(works));
    if response.Accepted? then Verdict(Deleted, 0)
    else
      var c := Classify(response, works[0].attempts);
      if c.retry then RetryVerdict(work, now + c.delay)
      else if |works| > 1 then VerdictOf(respond, [work], work, now)
      else Verdict(Failed, 0)
  }

  /** The answer that decides about `work`, and how many attempts it counts for: that of the batch, or
      that of the call for the block alone if the batch was refused for good. */
  ghost function Deciding(respond: seq<PartKey> -> Response, works: seq<Work>, work: Work): (Response, nat)
    requires works != []
  {
    var batch := respond(Keys(works));
    if |works| > 1 && !batch.Accepted? && !Temporary(batch) then (respond([work.key]), work.attempts)
    else (batch, works[0].attempts)
  }

  /** When to try again after a temporary refusal: as long after `now` as a rate limit asks for, or a second if
      it asks for nothing, and after any other as the number of attempts says. */
  ghost function RetryAt(response: Response, attempts: nat, now: int): int {
    if response.Refused? && response.status == 429
    then now + if response.retryAfter > 0 then response.retryAfter else Second
    else now + Backoff(attempts)
  }

  ghost predicate DeletingCallAccepted(respond: seq<PartKey> -> Response, works: seq<Work>, work: Work)
    requires works != []
  {
    Deciding(respond, works, work).0.Accepted?
  }

  /** A block is deleted exactly if the deciding call was accepted; to be tried again, at the millisecond the
      delay ends, exactly if that refused it for now and the delay ends before the deadline; expired
      exactly if it does not; and failed exactly if the call refused it for good. */
  lemma VerdictMeans(respond: seq<PartKey> -> Response, works: seq<Work>, work: Work, now: int)
    requires work in works
    ensures var v := VerdictOf(respond, works, work, now);
      var (answer, attempts) := Deciding(respond, works, work);
      var next := RetryAt(answer, attempts, now);
      && (v.state.Deleted? <==> answer.Accepted?)
      && (v.state.Pending? <==> Temporary(answer) && next < (work.uploadedAt + DeleteDeadline) * Millisecond)
      && (v.state.Expired? <==> Temporary(answer) && next >= (work.uploadedAt + DeleteDeadline) * Millisecond)
      && (v.state.Failed? <==> !answer.Accepted? && !Temporary(answer))
      && (if v.state.Pending? then v.nextAttemptAt * Millisecond <= next < (v.nextAttemptAt + 1) * Millisecond
          else v.nextAttemptAt == 0)
  {
    assert Keys([work]) == [work.key];
    var batch := respond(Keys(works));
    if |works| == 1 {
      assert works == [work];
    }
  }

  /** The row a work ends in: rows that are no longer being deleted are left alone. */
  ghost function Finished(row: DeleteRow, v: Verdict): DeleteRow {
    if row.state.Deleting? then row.(state := v.state, nextAttemptAt := v.nextAttemptAt, leaseUntil := 0) else row
  }

  predicate DistinctWorks(works: seq<Work>) {
    forall i, j :: 0 <= i < j < |works| ==> works[i].key != works[j].key
  }

  class Worker {
    var t: Tables

    constructor (tables: Tables)
      ensures t == tables
    {
      t := tables;
    }

    /** finishBlockDeleteWork. */
    method Finish(works: seq<Work>, state: DeleteState, nextAttemptAt: int)
      requires DistinctWorks(works)
      modifies this
      ensures SameButStates(old(t), t) && t.states.Keys == old(t).states.Keys
      ensures forall i :: 0 <= i < |works| && works[i].key in t.states ==>
        t.states[works[i].key] == Finished(old(t).states[works[i].key], Verdict(state, nextAttemptAt))
      ensures forall k :: k in t.states && k !in Keys(works) ==> t.states[k] == old(t).states[k]
    {
      for i := 0 to |works|
        invariant SameButStates(old(t), t) && t.states.Keys == old(t).states.Keys
        invariant forall j :: 0 <= j < i && works[j].key in t.states ==>
          t.states[works[j].key] == Finished(old(t).states[works[j].key], Verdict(state, nextAttemptAt))
        invariant forall k :: k in t.states && k !in Keys(works)[..i] ==> t.states[k] == old(t).states[k]
      {
        assert works[i].key !in Keys(works)[..i];
        assert Keys(works)[..i + 1] == Keys(works)[..i] + [works[i].key];
        t := FinishRow(t, works[i].key, state, nextAttemptAt);
      }
      assert Keys(works)[..|works|] == Keys(works);
    }

    /** executeBlockDeleteWork, when the database accepts every update.  Every row still being
        deleted ends in its verdict, and no other row changes. */
    method Execute(respond: seq<PartKey> -> Response, works: seq<Work>, now: int)
      requires works != [] && DistinctWorks(works)
      modifies this
      ensures SameButStates(old(t), t) && t.states.Keys == old(t).states.Keys
      ensures forall i :: 0 <= i < |works| && works[i].key in t.states ==>
        t.states[works[i].key] == Finished(old(t).states[works[i].key], VerdictOf(respond, works, works[i], now))
      ensures forall k :: k in t.states && k !in Keys(works) ==> t.states[k] == old(t).states[k]
      decreases if |works| > 1 then 1 else 0, 1
    {
      var response := respond(Keys(works));
      if response.Accepted? {
        Finish(works, Deleted, 0);
        return;
      }
      var c := Classify(response, works[0].attempts);
      if !c.retry && |works| > 1 {
        ExecuteEach(respond, works, now);
        return;
      }
      if c.retry {
        RetryEach(works, now + c.delay);
        return;
      }
      Finish(works, Failed, 0);
    }

    /** The works of a batch that was refused for good, one call for each. */
    method ExecuteEach(respond: seq<PartKey> -> Response, works: seq<Work>, now: int)
      requires |works| > 1 && DistinctWorks(works)
      modifies this
      ensures SameButStates(old(t), t) && t.states.Keys == old(t).states.Keys
      ensures forall i :: 0 <= i < |works| && works[i].key in t.states ==>
        t.states[works[i].key] == Finished(old(t).states[works[i].key], VerdictOf(respond, [works[i]], works[i], now))
      ensures forall k :: k in t.states && k !in Keys(works) ==> t.states[k] == old(t).states[k]
      decreases if |works| > 1 then 1 else 0, 0
    {
      for i := 0 to |works|
        invariant SameButStates(old(t), t) && t.states.Keys == old(t).states.Keys
        invariant forall j :: 0 <= j < i && works[j].key in t.states ==>
          t.states[works[j].key] == Finished(old(t).states[works[j].key], VerdictOf(respond, [works[j]], works[j], now))
        invariant forall k :: k in t.states && k !in Keys(works)[..i] ==> t.states[k] == old(t).states[k]
      {
        assert works[i].key !in Keys(works)[..i];
        assert Keys(works)[..i + 1] == Keys(works)[..i] + [works[i].key];
        assert Keys([works[i]]) == [works[i].key];
        Execute(respond, [works[i]], now);
      }
      assert Keys(works)[..|works|] == Keys(works);
    }

    /** The works of a batch to be tried again, each against its own deadline. */
    method RetryEach(works: seq<Work>, next: int)
      requires DistinctWorks(works)
      modifies this
      ensures SameButStates(old(t), t) && t.states.Keys == old(t).states.Keys
      ensures forall i :: 0 <= i < |works| && works[i].key in t.states ==>
        t.states[works[i].key] == Finished(old(t).states[works[i].key], RetryVerdict(works[i], next))
      ensures forall k :: k in t.states && k !in Keys(works) ==> t.states[k] == old(t).states[k]
    {
      for i := 0 to |works|
        invariant SameButStates(old(t), t) && t.states.Keys == old(t).states.Keys
        invariant forall j :: 0 <= j < i && works[j].key in t.states ==>
          t.states[works[j].key] == Finished(old(t).states[works[j].key], RetryVerdict(works[j], next))
        invariant forall k :: k in t.states && k !in Keys(works)[..i] ==> t.states[k] == old(t).states[k]
      {
        assert works[i].key !in Keys(works)[..i];
        assert Keys(works)[..i + 1] == Keys(works)[..i] + [works[i].key];
        assert Keys([works[i]]) == [works[i].key];
        var v := RetryVerdict(works[i], next);
        Finish([works[i]], v.state, v.nextAttemptAt);
      }
      assert Keys(works)[..|works|] == Keys(works);
    }
  }
}
