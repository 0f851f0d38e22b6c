/** Concrete runs, with perfect clocks, in which the Cloud Storage store is not the atomic reference. */
module GcsWeakness {
  import opened Wrappers
  import opened Lease
  import opened GcsMachine
  import opened GcsHistory

  const Exact: Skew := Skew(0, 0)

  /** A lease of one millisecond on "x", written at instant 0. */
  const Lapsing := Object(1, "x", "a", Some(1), 0)

  lemma Then(ws: seq<World>, acts: seq<Action>, a: Action) returns (ws': seq<World>, acts': seq<Action>)
    requires IsRun(ws, acts, Exact) && Enabled(ws[|ws| - 1], a, Exact)
    ensures IsRun(ws', acts', Exact)
    ensures ws' == ws + [Apply(ws[|ws| - 1], a, Exact)] && acts' == acts + [a]
  {
    ws', acts' := ws + [Apply(ws[|ws| - 1], a, Exact)], acts + [a];
  }

  lemma Begun(w: World) returns (ws: seq<World>, acts: seq<Action>)
    requires Init(w)
    ensures IsRun(ws, acts, Exact) && ws == [w] && acts == []
  {
    ws, acts := [w], [];
  }

  ghost predicate NeverLive(ws: seq<World>) {
    forall x :: 0 <= x < |ws| ==> !LiveAt(ws[x])
  }

  /** A claim has collided with a lapsed entry, and its former holder is about to delete it. */
  lemma ClaimMetALapsedEntry() returns (ws: seq<World>, acts: seq<Action>)
    ensures IsRun(ws, acts, Exact) && |ws| == 4 && NeverLive(ws)
    ensures ws[3] == World(MILLISECOND, Some(Lapsing), 1, map[0 := InFlight("b", PutIfAbsent("y", 0), ReadAttrs),
                                                              1 := InFlight("a", Delete(None), Remove)])
  {
    ws, acts := Begun(World(MILLISECOND, Some(Lapsing), 1, map[]));
    ws, acts := Then(ws, acts, Begin(0, "b", PutIfAbsent("y", 0)));
    ws, acts := Then(ws, acts, Begin(1, "a", Delete(None)));
    ws, acts := Then(ws, acts, Advance(0, MILLISECOND, 0));
  }

  /** A claim can be refused although nothing is live at any instant of the run: the lapsed entry it
      first collided with is deleted before it reads the attributes. */
  lemma DeleteRaceRefusesAClaim()
    ensures exists ws: seq<World>, acts: seq<Action> ::
              IsRun(ws, acts, Exact) && Answers(ws, 4, 0, No) && ws[4].calls[0].op.PutIfAbsent? && NeverLive(ws)
  {
    var ws, acts := ClaimMetALapsedEntry();
    ws, acts := Then(ws, acts, Advance(1, MILLISECOND, 0));
    ws, acts := Then(ws, acts, Advance(0, MILLISECOND, 0));
    assert Answers(ws, 4, 0, No);
  }

  /** A swap can land after the lease it was judged by has lapsed. */
  lemma SwapLandsAfterTheLease()
    ensures exists ws: seq<World>, acts: seq<Action> ::
              IsRun(ws, acts, Exact) && Answers(ws, 5, 0, Yes) && ws[5].calls[0].op.CompareAndSwap?
              && !LiveAt(ws[5])
  {
    var ws, acts := Begun(World(0, Some(Lapsing), 1, map[]));
    ws, acts := Then(ws, acts, Begin(0, "b", CompareAndSwap("x", "y", 0)));
    ws, acts := Then(ws, acts, Advance(0, 0, 0));
    ws, acts := Then(ws, acts, Advance(0, 0, 0));
    ws, acts := Then(ws, acts, Advance(0, 0, 0));
    ws, acts := Then(ws, acts, Tick(MILLISECOND));
    ws, acts := Then(ws, acts, Advance(0, MILLISECOND, 0));
    assert Answers(ws, 5, 0, Yes);
  }

  const Held := Object(1, "x", "a", None, 0)

  ghost predicate AlwaysLive(ws: seq<World>) {
    forall x :: 0 <= x < |ws| ==> LiveAt(ws[x])
  }

  /** A reader and a swapping holder have both read the attributes of the first generation. */
  lemma ReaderAndHolder() returns (ws: seq<World>, acts: seq<Action>)
    ensures IsRun(ws, acts, Exact) && |ws| == 5 && AlwaysLive(ws)
    ensures var read := ReadBody(MetaOf(Held));
            ws[4] == World(0, Some(Held), 1, map[0 := InFlight("b", Get, read),
                                                 1 := InFlight("a", CompareAndSwap("x", "y", 0), read)])
  {
    ws, acts := Begun(World(0, Some(Held), 1, map[]));
    ws, acts := Then(ws, acts, Begin(0, "b", Get));
    ws, acts := Then(ws, acts, Begin(1, "a", CompareAndSwap("x", "y", 0)));
    ws, acts := Then(ws, acts, Advance(0, 0, 0));
    ws, acts := Then(ws, acts, Advance(1, 0, 0));
  }

  /** A Get can answer "not found" although a live entry is there at every instant of the run: the
      holder swaps the value between the two reads. */
  lemma GetMissesALiveKey()
    ensures exists ws: seq<World>, acts: seq<Action> ::
              IsRun(ws, acts, Exact) && Answers(ws, 7, 0, NotFound) && ws[7].calls[0].op.Get? && AlwaysLive(ws)
  {
    var ws, acts := ReaderAndHolder();
    ws, acts := Then(ws, acts, Advance(1, 0, 0));
    ws, acts := Then(ws, acts, Advance(1, 0, 0));
    ws, acts := Then(ws, acts, Advance(1, 0, 0));
    ws, acts := Then(ws, acts, Advance(0, 0, 0));
    assert Answers(ws, 7, 0, NotFound);
  }

  /** A permanent key does not survive the lifecycle rule that -kv-create installs. */
  lemma LifecycleRuleReapsAPermanentKey()
    ensures exists ws: seq<World>, acts: seq<Action> ::
              IsRun(ws, acts, Exact) && |ws| == 3 && acts == [Tick(DAY), Reap]
              && LiveAt(ws[1]) && CellOf(ws[0].obj).Some? && CellOf(ws[0].obj).value.expires.None? && ws[2].obj.None?
  {
    var ws, acts := Begun(World(0, Some(Object(1, "x", "a", None, 0)), 1, map[]));
    ws, acts := Then(ws, acts, Tick(DAY));
    ws, acts := Then(ws, acts, Reap);
  }
}
