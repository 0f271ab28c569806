/** The turns in which a composite stream reads one of its sources (readSegment in
    filemgr/composite_stream.go), for every sequence of backend answers.  The composite counts every
    byte it was given; the source does not count those that came with an error. */
module StreamTurns {
  import opened BlockLayout
  import opened FileStreams

  /** Where the composite believes to be in the source, and where the source stands. */
  datatype Place = Place(at: nat, stand: Stand)

  /** The offset is a block boundary, where a source may give nothing. */
  predicate OnBoundary(at: int, blockSize: int) {
    blockSize > 0 && at > 0 && at % blockSize == 0
  }

  /** The turn gives nothing on a boundary, so the source is put where the composite believes it is. */
  predicate Resets(p: Place, blockSize: int, a: Answer) {
    !a.failed && a.n == 0 && OnBoundary(p.at, blockSize)
  }

  /** A turn of readSegment within a source. */
  function Turn(p: Place, blockSize: int, a: Answer): Place
    requires blockSize > 0
  {
    if Resets(p, blockSize, a) then Place(p.at, Stand(p.at, None)) else Place(p.at + a.n, Next(p.stand, blockSize, a))
  }

  /** Where the next bytes come from. */
  ghost function From(p: Place, blockSize: int): int {
    PositionOf(p.stand, blockSize)
  }

  /** The source is not ahead of the composite, nor its cursor ahead of its reader. */
  ghost predicate PlaceSound(content: Bytes, blockSize: int, parts: seq<Bytes>, p: Place) {
    StandSound(content, blockSize, parts, p.stand) && From(p, blockSize) <= p.at <= |content|
  }

  /** The next bytes are not those that the composite takes them for. */
  ghost predicate Astray(p: Place, blockSize: int) {
    From(p, blockSize) != p.at
  }

  /** The source does not know how far its reader is. */
  ghost predicate Ahead(p: Place, blockSize: int) {
    From(p, blockSize) != p.stand.cursor
  }

  /** A reader that is ahead is dropped together with the last bytes of its block. */
  ghost predicate LosesCount(p: Place, blockSize: int, a: Answer) {
    Ahead(p, blockSize) && a.ended && a.n > 0
  }

  ghost predicate CanTurn(content: Bytes, blockSize: int, parts: seq<Bytes>, p: Place, want: nat, a: Answer) {
    && PlaceSound(content, blockSize, parts, p) && 0 < want <= |content| - p.at
    && CanAnswer(parts, blockSize, p.stand, want, a)
  }

  /** A block that was read to its end before the end of the source ends at a multiple of the block
      size. */
  lemma BlockEndAligned(content: Bytes, blockSize: int, parts: seq<Bytes>, r: Reader)
    requires Laid(content, blockSize, parts) && r.block < |parts| && r.pos == |parts[r.block]|
    requires Start(r.block, blockSize) + r.pos < |content|
    ensures OnBoundary(Start(r.block, blockSize) + r.pos, blockSize)
  {
    FullBlock(content, blockSize, parts, r.block);
    StartMonotone(0, r.block, blockSize);
  }

  /** Nothing is given only by a reader at the end of its block, and if the source is not astray only
      on a boundary. */
  lemma NothingGiven(content: Bytes, blockSize: int, parts: seq<Bytes>, p: Place, want: nat, a: Answer)
    requires CanTurn(content, blockSize, parts, p, want, a) && !a.failed && a.n == 0
    ensures a.ended && p.stand.reader.Some? && p.stand.reader.value.pos == |parts[p.stand.reader.value.block]|
    ensures !Astray(p, blockSize) ==> Resets(p, blockSize, a)
  {
    ReaderStands(content, blockSize, parts, p.stand);
    if p.stand.reader.None? { Locate(content, blockSize, parts, p.stand.cursor); }
    if !Astray(p, blockSize) {
      BlockEndAligned(content, blockSize, parts, ReaderOf(p.stand, blockSize));
    }
  }

  /** A turn of a stream in step leaves it in step exactly unless a failure came with bytes. */
  lemma TurnInStep(content: Bytes, blockSize: int, parts: seq<Bytes>, p: Place, want: nat, a: Answer)
    requires CanTurn(content, blockSize, parts, p, want, a) && !Astray(p, blockSize) && !Ahead(p, blockSize)
    ensures var q := Turn(p, blockSize, a);
      !Astray(q, blockSize) && (Ahead(q, blockSize) <==> a.failed && a.n > 0)
  {
    TurnStrays(content, blockSize, parts, p, want, a);
    InStepAfter(content, blockSize, parts, p.stand, want, a);
  }

  lemma AnswerSound(content: Bytes, blockSize: int, parts: seq<Bytes>, p: Place, want: nat, a: Answer)
    requires CanTurn(content, blockSize, parts, p, want, a)
    ensures PlaceSound(content, blockSize, parts, Place(p.at + a.n, Next(p.stand, blockSize, a)))
    ensures From(p, blockSize) + a.n <= |content|
  {
    NextSound(content, blockSize, parts, p.stand, want, a);
  }

  /** Whatever the backend answers, the source is not ahead of the composite afterwards either. */
  lemma TurnSound(content: Bytes, blockSize: int, parts: seq<Bytes>, p: Place, want: nat, a: Answer)
    requires CanTurn(content, blockSize, parts, p, want, a)
    ensures PlaceSound(content, blockSize, parts, Turn(p, blockSize, a)) && From(p, blockSize) + a.n <= |content|
  {
    NextSound(content, blockSize, parts, p.stand, want, a);
  }

  /** Which turns lead a stream astray, and which lead it back. */
  lemma TurnStrays(content: Bytes, blockSize: int, parts: seq<Bytes>, p: Place, want: nat, a: Answer)
    requires CanTurn(content, blockSize, parts, p, want, a)
    ensures Astray(Turn(p, blockSize, a), blockSize)
       <==> !Resets(p, blockSize, a) && (Astray(p, blockSize) || LosesCount(p, blockSize, a))
  {
    NextSound(content, blockSize, parts, p.stand, want, a);
    if !a.failed && a.n == 0 { NothingGiven(content, blockSize, parts, p, want, a); }
  }

  // ---------------------------------------------------------------------------
  // Whole runs of turns
  // ---------------------------------------------------------------------------

  ghost predicate IsRun(content: Bytes, blockSize: int, parts: seq<Bytes>, places: seq<Place>, wants: seq<nat>,
                        answers: seq<Answer>)
  {
    && |places| == |answers| + 1 && |wants| == |answers| && blockSize > 0
    && forall i {:trigger TurnAt(content, blockSize, parts, places, wants, answers, i)} ::
         0 <= i < |answers| ==> TurnAt(content, blockSize, parts, places, wants, answers, i)
  }

  ghost predicate TurnAt(content: Bytes, blockSize: int, parts: seq<Bytes>, places: seq<Place>, wants: seq<nat>,
                         answers: seq<Answer>, i: int)
    requires 0 <= i < |answers| && |places| == |answers| + 1 && |wants| == |answers| && blockSize > 0
  {
    && CanTurn(content, blockSize, parts, places[i], wants[i], answers[i])
    && places[i + 1] == Turn(places[i], blockSize, answers[i])
  }

  /** The count was lost in turn `i` and not found again before turn `k`. */
  ghost predicate LostSince(blockSize: int, places: seq<Place>, answers: seq<Answer>, i: int, k: int)
    requires 0 <= i < k <= |answers| <= |places|
  {
    && LosesCount(places[i], blockSize, answers[i])
    && forall j :: i < j < k ==> !Resets(places[j], blockSize, answers[j])
  }

  ghost predicate Lost(blockSize: int, places: seq<Place>, answers: seq<Answer>, k: int)
    requires 0 <= k <= |answers| <= |places|
  {
    exists i :: 0 <= i < k && LostSince(blockSize, places, answers, i, k)
  }

  lemma LostNext(blockSize: int, places: seq<Place>, answers: seq<Answer>, k: nat)
    requires k < |answers| <= |places|
    ensures Lost(blockSize, places, answers, k + 1)
       <==> !Resets(places[k], blockSize, answers[k])
            && (Lost(blockSize, places, answers, k) || LosesCount(places[k], blockSize, answers[k]))
  {
    if Lost(blockSize, places, answers, k) && !Resets(places[k], blockSize, answers[k]) {
      var i :| 0 <= i < k && LostSince(blockSize, places, answers, i, k);
      assert LostSince(blockSize, places, answers, i, k + 1);
    }
    if LosesCount(places[k], blockSize, answers[k]) {
      assert LostSince(blockSize, places, answers, k, k + 1);
    }
    if Lost(blockSize, places, answers, k + 1) {
      var i :| 0 <= i < k + 1 && LostSince(blockSize, places, answers, i, k + 1);
      if i < k { assert LostSince(blockSize, places, answers, i, k); }
    }
  }

  /** A stream that starts in step delivers in turn `k` other bytes than those at its offset exactly
      if a reader that was ahead has been dropped with the last bytes of its block, and no turn since
      gave nothing on a block boundary. */
  lemma {:induction false} AstrayExactly(content: Bytes, blockSize: int, parts: seq<Bytes>, places: seq<Place>,
                                         wants: seq<nat>, answers: seq<Answer>, k: nat)
    requires IsRun(content, blockSize, parts, places, wants, answers) && k <= |answers|
    requires !Astray(places[0], blockSize)
    ensures Astray(places[k], blockSize) <==> Lost(blockSize, places, answers, k)
  {
    if k > 0 {
      AstrayExactly(content, blockSize, parts, places, wants, answers, k - 1);
      assert TurnAt(content, blockSize, parts, places, wants, answers, k - 1);
      TurnStrays(content, blockSize, parts, places[k - 1], wants[k - 1], answers[k - 1]);
      LostNext(blockSize, places, answers, k - 1);
    }
  }

  /** Turn `i` failed and brought bytes, and until turn `k` the reader was not dropped. */
  ghost predicate AheadSince(answers: seq<Answer>, i: int, k: int)
    requires 0 <= i < k <= |answers|
  {
    answers[i].failed && answers[i].n > 0 && forall j :: i <= j < k ==> !answers[j].ended
  }

  ghost predicate RanAhead(answers: seq<Answer>, k: int)
    requires 0 <= k <= |answers|
  {
    exists i :: 0 <= i < k && AheadSince(answers, i, k)
  }

  lemma RanAheadNext(answers: seq<Answer>, k: nat)
    requires k < |answers|
    ensures RanAhead(answers, k + 1)
       <==> !answers[k].ended && (RanAhead(answers, k) || (answers[k].failed && answers[k].n > 0))
  {
    if RanAhead(answers, k) && !answers[k].ended {
      var i :| 0 <= i < k && AheadSince(answers, i, k);
      assert AheadSince(answers, i, k + 1);
    }
    if !answers[k].ended && answers[k].failed && answers[k].n > 0 { assert AheadSince(answers, k, k + 1); }
    if RanAhead(answers, k + 1) {
      var i :| 0 <= i < k + 1 && AheadSince(answers, i, k + 1);
      if i < k { assert AheadSince(answers, i, k); }
    }
  }

  /** Which turns put a reader ahead, and which drop it. */
  lemma TurnAhead(content: Bytes, blockSize: int, parts: seq<Bytes>, p: Place, want: nat, a: Answer)
    requires CanTurn(content, blockSize, parts, p, want, a)
    ensures Ahead(Turn(p, blockSize, a), blockSize)
       <==> !a.ended && (Ahead(p, blockSize) || (a.failed && a.n > 0))
  {
    InStepAfter(content, blockSize, parts, p.stand, want, a);
    if !a.failed && a.n == 0 { NothingGiven(content, blockSize, parts, p, want, a); }
  }

  /** A reader is ahead exactly if a failure came with bytes and the reader was not dropped since. */
  lemma {:induction false} AheadExactly(content: Bytes, blockSize: int, parts: seq<Bytes>, places: seq<Place>,
                                        wants: seq<nat>, answers: seq<Answer>, k: nat)
    requires IsRun(content, blockSize, parts, places, wants, answers) && k <= |answers|
    requires !Ahead(places[0], blockSize)
    ensures Ahead(places[k], blockSize) <==> RanAhead(answers, k)
  {
    if k > 0 {
      AheadExactly(content, blockSize, parts, places, wants, answers, k - 1);
      assert TurnAt(content, blockSize, parts, places, wants, answers, k - 1);
      TurnAhead(content, blockSize, parts, places[k - 1], wants[k - 1], answers[k - 1]);
      RanAheadNext(answers, k - 1);
    }
  }

  /** So a stream whose failures bring no bytes is never astray. */
  lemma NeverAstray(content: Bytes, blockSize: int, parts: seq<Bytes>, places: seq<Place>, wants: seq<nat>,
                    answers: seq<Answer>, k: nat)
    requires IsRun(content, blockSize, parts, places, wants, answers) && k <= |answers|
    requires !Astray(places[0], blockSize) && !Ahead(places[0], blockSize)
    requires forall i :: 0 <= i < k ==> !(answers[i].failed && answers[i].n > 0)
    ensures !Astray(places[k], blockSize)
  {
    AstrayExactly(content, blockSize, parts, places, wants, answers, k);
    if Lost(blockSize, places, answers, k) {
      var i :| 0 <= i < k && LostSince(blockSize, places, answers, i, k);
      AheadExactly(content, blockSize, parts, places, wants, answers, i);
    }
  }

  // ---------------------------------------------------------------------------
  // The turns since a source was opened
  // ---------------------------------------------------------------------------

  datatype Trace = Trace(places: seq<Place>, wants: seq<nat>, answers: seq<Answer>)

  /** A run from a source that was opened where the composite believes to be. */
  ghost predicate IsTrace(content: Bytes, blockSize: int, parts: seq<Bytes>, h: Trace) {
    && IsRun(content, blockSize, parts, h.places, h.wants, h.answers)
    && h.places[0] == Place(h.places[0].at, Stand(h.places[0].at, None))
  }

  function Opened(at: nat): Trace {
    Trace([Place(at, Stand(at, None))], [], [])
  }

  function Extended(h: Trace, blockSize: int, want: nat, a: Answer): Trace
    requires blockSize > 0 && h.places != []
  {
    Trace(h.places + [Turn(h.places[|h.places| - 1], blockSize, a)], h.wants + [want], h.answers + [a])
  }

  lemma TraceExtends(content: Bytes, blockSize: int, parts: seq<Bytes>, h: Trace, want: nat, a: Answer)
    requires IsTrace(content, blockSize, parts, h)
    requires CanTurn(content, blockSize, parts, h.places[|h.answers|], want, a)
    ensures IsTrace(content, blockSize, parts, Extended(h, blockSize, want, a))
  {
    var g, n := Extended(h, blockSize, want, a), |h.answers|;
    forall i | 0 <= i < |g.answers| ensures TurnAt(content, blockSize, parts, g.places, g.wants, g.answers, i) {
      if i < n { assert TurnAt(content, blockSize, parts, h.places, h.wants, h.answers, i); }
    }
  }

  /** At the end of a trace the next bytes are other than those at the offset exactly if the count was lost. */
  lemma TraceStrays(content: Bytes, blockSize: int, parts: seq<Bytes>, h: Trace)
    requires IsTrace(content, blockSize, parts, h)
    ensures Astray(h.places[|h.answers|], blockSize) <==> Lost(blockSize, h.places, h.answers, |h.answers|)
    ensures Ahead(h.places[|h.answers|], blockSize) <==> RanAhead(h.answers, |h.answers|)
  {
    AstrayExactly(content, blockSize, parts, h.places, h.wants, h.answers, |h.answers|);
    AheadExactly(content, blockSize, parts, h.places, h.wants, h.answers, |h.answers|);
  }

  /** Turn `k` delivers other bytes than those at the offset. */
  ghost predicate DeliversOther(content: Bytes, blockSize: int, places: seq<Place>, answers: seq<Answer>, k: nat) {
    && k < |answers| < |places| && 0 <= From(places[k], blockSize)
    && From(places[k], blockSize) + answers[k].n <= |content| && places[k].at + answers[k].n <= |content|
    && content[From(places[k], blockSize)..From(places[k], blockSize) + answers[k].n]
         != content[places[k].at..places[k].at + answers[k].n]
  }

  /** Two blocks of two bytes.  The backend gives a byte and an error, then a byte and the end of the
      block; the third turn gives the second of these bytes again. */
  const TwoBlocks: Bytes := [10, 11, 12, 13]
  const BlocksOfTwo: seq<Bytes> := [[10, 11], [12, 13]]
  const ThreeAnswers := [Answer(1, false, true), Answer(1, true, false), Answer(1, true, false)]
  const FourPlaces := [Place(0, Stand(0, None)), Place(1, Stand(0, Some(Reader(0, 1)))), Place(2, Stand(1, None)),
                       Place(3, Stand(2, None))]

  lemma TwoBlocksLaid()
    ensures Laid(TwoBlocks, 2, BlocksOfTwo)
  {
    assert Start(2, 2) == Start(1, 2) + 2 == Start(0, 2) + 4;
    assert IsPart(TwoBlocks, 2, 0, BlocksOfTwo[0]) && IsPart(TwoBlocks, 2, 1, BlocksOfTwo[1]);
  }

  lemma ThreeTurns(i: nat)
    requires i < 3
    ensures CanTurn(TwoBlocks, 2, BlocksOfTwo, FourPlaces[i], 1, ThreeAnswers[i])
    ensures FourPlaces[i + 1] == Turn(FourPlaces[i], 2, ThreeAnswers[i])
  {
    TwoBlocksLaid();
  }

  lemma CanGoAstray()
    ensures exists content: Bytes, parts: seq<Bytes>, places: seq<Place>, wants: seq<nat>, answers: seq<Answer> ::
      && IsRun(content, 2, parts, places, wants, answers) && places[0] == Place(0, Stand(0, None))
      && DeliversOther(content, 2, places, answers, 2)
  {
    var wants := [1, 1, 1];
    forall i | 0 <= i < 3 ensures TurnAt(TwoBlocks, 2, BlocksOfTwo, FourPlaces, wants, ThreeAnswers, i) {
      ThreeTurns(i);
    }
    assert IsRun(TwoBlocks, 2, BlocksOfTwo, FourPlaces, wants, ThreeAnswers);
    assert TwoBlocks[1..2][0] == 11 && TwoBlocks[2..3][0] == 12;
    assert DeliversOther(TwoBlocks, 2, FourPlaces, ThreeAnswers, 2);
  }
}
