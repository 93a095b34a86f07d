/** Why holders must be timely: what happens to one that outlasts the time to live. */
module IdempotencyOverrun {
  import opened Wrappers
  import opened IdempotencyRecords
  import opened IdempotencyProtocol
  import opened IdempotencySafety

  /** As time passes, an executing holder keeps its record exactly as long as it is timely. */
  lemma OwnRecordSurvivesIffTimely(ttl: nat, w: World, elapsed: nat, rid: Rid)
    requires Inv(ttl, w) && rid in w.requests
    requires w.requests[rid].phase.Executing? || w.requests[rid].phase.Responding?
    ensures w.requests[rid].acquiredAt.Some?
    ensures w.requests[rid].key in Pass(w, elapsed).entries <==>
      Pass(w, elapsed).now < w.requests[rid].acquiredAt.value + ttl
  {
    assert HolderOk(ttl, w, rid);
  }

  /** With nobody on the way out, time passes in a timely manner exactly if everyone who holds a key
      still finds his record under it. */
  lemma TimelyIffRecordsSurvive(ttl: nat, w: World, elapsed: nat)
    requires Inv(ttl, w) && forall rid | rid in w.requests :: !w.requests[rid].phase.Releasing?
    ensures Timely(ttl, Pass(w, elapsed)) <==>
      forall rid | rid in w.requests && Holding(w.requests[rid].phase) ::
        w.requests[rid].key in Pass(w, elapsed).entries
  {
    forall rid | rid in w.requests && Holding(w.requests[rid].phase)
      ensures w.requests[rid].acquiredAt.Some?
      ensures w.requests[rid].key in Pass(w, elapsed).entries <==>
        Pass(w, elapsed).now < w.requests[rid].acquiredAt.value + ttl
    {
      OwnRecordSurvivesIffTimely(ttl, w, elapsed, rid);
    }
    PassKeepsRequests(w, elapsed);
    hide Pass, Inv;
  }

  // A run with a time to live of one, in which request 0 outlasts it.
  const FIRST := Request("k", "a", Arrived, None, None, None)
  const SECOND := Request("k", "b", Arrived, None, None, None)
  const LATE_RESPONSE := Response(201, [], DEFAULT_CONTENT_TYPE)
  const FIRST_HOLDS := FIRST.(phase := Executing, acquiredAt := Some(0))
  const FIRST_RESPONDS := FIRST_HOLDS.(phase := Responding, produced := Some(LATE_RESPONSE))
  const SECOND_HOLDS := SECOND.(phase := Executing, acquiredAt := Some(1))
  const FIRST_ENTRY := Entry(InProgressRecord("a"), 1, 0)
  const SECOND_ENTRY := Entry(InProgressRecord("b"), 2, 1)
  const LATE_ENTRY := Entry(CompletedRecord("a", LATE_RESPONSE), 2, 0)

  const EVENTS: seq<Event> := [
    Arrive(0, "k", "a"), Get(0), SetNx(0), Tick(1),
    Arrive(1, "k", "b"), Get(1), SetNx(1),
    HandlerReturns(0, 201, None, None, []), Complete(0)]

  const WORLDS: seq<World> := [
    EMPTY_WORLD,
    World(0, map[], map[0 := FIRST], map[]),
    World(0, map[], map[0 := FIRST.(phase := Missed)], map[]),
    World(0, map["k" := FIRST_ENTRY], map[0 := FIRST_HOLDS], map["k" := Tally(1, 0, 0)]),
    World(1, map[], map[0 := FIRST_HOLDS], map["k" := Tally(1, 0, 1)]),
    World(1, map[], map[0 := FIRST_HOLDS, 1 := SECOND], map["k" := Tally(1, 0, 1)]),
    World(1, map[], map[0 := FIRST_HOLDS, 1 := SECOND.(phase := Missed)], map["k" := Tally(1, 0, 1)]),
    World(1, map["k" := SECOND_ENTRY], map[0 := FIRST_HOLDS, 1 := SECOND_HOLDS], map["k" := Tally(2, 0, 1)]),
    World(1, map["k" := SECOND_ENTRY], map[0 := FIRST_RESPONDS, 1 := SECOND_HOLDS], map["k" := Tally(2, 0, 1)]),
    World(1, map["k" := LATE_ENTRY], map[0 := FIRST_RESPONDS.(phase := Finished(Served)), 1 := SECOND_HOLDS],
          map["k" := Tally(2, 0, 1)])]

  ghost predicate StepOk(i: nat)
    requires i < 9
  {
    Enabled(WORLDS[i], EVENTS[i]) && WORLDS[i + 1] == Apply(1, WORLDS[i], EVENTS[i])
  }

  lemma FirstHolderAcquires()
    ensures StepOk(0) && StepOk(1) && StepOk(2)
  {
  }

  lemma FirstHolderExpires()
    ensures StepOk(3)
  {
  }

  lemma SecondHolderAcquires()
    ensures StepOk(4) && StepOk(5) && StepOk(6)
  {
    assert WORLDS[4].requests[0 := FIRST_HOLDS] == WORLDS[4].requests;
  }

  lemma FirstHolderCompletesLate()
    ensures StepOk(7) && StepOk(8)
  {
    assert Concatenated([]) == [];
  }

  const RUN := Run(1, WORLDS, EVENTS)

  lemma RunIsValid()
    ensures ValidRun(RUN)
  {
    hide Apply, Enabled;
    FirstHolderAcquires();
    FirstHolderExpires();
    SecondHolderAcquires();
    FirstHolderCompletesLate();
    forall i | 0 <= i < 9 ensures StepOk(i) {}
    hide WORLDS, EVENTS;
    StepsMakeARun();
  }

  lemma StepsMakeARun()
    requires forall i | 0 <= i < 9 :: StepOk(i)
    ensures ValidRun(RUN)
  {
    hide Apply, Enabled;
    forall i | 0 <= i < |RUN.events|
      ensures Enabled(RUN.worlds[i], RUN.events[i]) &&
        RUN.worlds[i + 1] == Apply(RUN.ttl, RUN.worlds[i], RUN.events[i])
    {
      assert StepOk(i);
    }
  }

  /** Without the time assumption, a run has two requests holding one key, and the late
      completing SET of the first overwrites the in-progress record of the second. */
  lemma LateCompleteOverwrites()
    ensures ValidRun(RUN) && !TimelyRun(RUN) && RUN.events[8] == Complete(0)
    ensures var w := RUN.worlds[8];
      && At(w, 0, Responding) && At(w, 1, Executing) && w.requests[0].key == w.requests[1].key
      && w.requests[0].key in w.entries && w.entries[w.requests[0].key].owner == 1
    ensures var w := RUN.worlds[9];
      && At(w, 1, Executing) && w.requests[1].key in w.entries && w.entries[w.requests[1].key].owner == 0
  {
    RunIsValid();
    hide ValidRun, Apply, Enabled;
    assert WORLDS[4].requests[0] == FIRST_HOLDS;
    assert !Timely(1, WORLDS[4]);
    assert RUN.worlds[4] == WORLDS[4];
  }
}
