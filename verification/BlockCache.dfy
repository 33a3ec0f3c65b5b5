/**
 Block and Unblock as they run concurrently: each call is a database step followed by a Redis step, and
 the steps of different calls interleave. A step that is not enabled leaves the state as it is.
 */
module BlockCache {
  import opened Common
  import opened Friends

  type Pair = (User, User)

  datatype Op = DoBlock | DoUnblock

  /** A call in flight; `wrote` says that its database step has succeeded and its Redis write is due. */
  datatype Flight = Flight(op: Op, pair: Pair, wrote: bool)

  datatype Step =
    | Begin(id: nat, op: Op, pair: Pair)
    | Database(id: nat)
    | Redis(id: nat, delivered: bool)

  datatype State = State(rows: set<Pair>, cache: set<Pair>, calls: map<nat, Flight>) {
    function Next(step: Step): State {
      match step
      case Begin(id, op, pair) =>
        if id in calls then this else this.(calls := calls[id := Flight(op, pair, false)])
      case Database(id) =>
        if id !in calls || calls[id].wrote then this
        else
          var c := calls[id];
          // A duplicate insert, or a delete that finds no row, ends the call without a Redis write.
          if c.op.DoBlock? == (c.pair in rows) then this.(calls := calls - {id})
          else this.(rows := if c.op.DoBlock? then rows + {c.pair} else rows - {c.pair},
                     calls := calls[id := c.(wrote := true)])
      case Redis(id, delivered) =>
        if id !in calls || !calls[id].wrote then this
        else
          var c, done := calls[id], this.(calls := calls - {id});
          if !delivered then done
          else done.(cache := if c.op.DoBlock? then cache + {c.pair} else cache - {c.pair})
    }

    function Run(steps: seq<Step>): State
      decreases |steps|
    {
      if steps == [] then this
      else Run(steps[..|steps| - 1]).Next(steps[|steps| - 1])
    }

    predicate IsBlocked(pair: Pair, redisUp: bool) {
      if redisUp then pair in cache else pair in rows
    }

    predicate On(id: nat, pair: Pair) {
      id in calls && calls[id].pair == pair
    }

    ghost predicate Quiet(pair: Pair) {
      forall id :: !On(id, pair)
    }

    /** At most one call in flight on each pair. */
    ghost predicate Exclusive() {
      forall i, j | i in calls && j in calls && i != j :: calls[i].pair != calls[j].pair
    }
  }

  /** The cache lags the table by exactly the calls whose Redis write is due. */
  ghost predicate Inv(s: State) {
    && s.Exclusive()
    && (forall pair :: s.Quiet(pair) ==> (pair in s.cache <==> pair in s.rows))
    && (forall id <- s.calls :: var c := s.calls[id];
          if c.wrote then (c.pair in s.rows <==> c.op.DoBlock?) && (c.pair in s.cache <==> c.op.DoUnblock?)
          else c.pair in s.cache <==> c.pair in s.rows)
  }

  ghost predicate AllDelivered(steps: seq<Step>) {
    forall step <- steps :: step.Redis? ==> step.delivered
  }

  lemma StepKeepsInv(s: State, step: Step)
    requires Inv(s) && s.Next(step).Exclusive()
    requires step.Redis? ==> step.delivered
    ensures Inv(s.Next(step))
  {
    var t := s.Next(step);
    forall pair | t.Quiet(pair)
      ensures pair in t.cache <==> pair in t.rows
    {
      if !s.Quiet(pair) {
        var id :| s.On(id, pair);
        assert step.Begin? || step.id != id ==> t.On(id, pair);
        assert step.Database? && !s.calls[id].wrote && !(s.calls[id].op.DoBlock? == (pair in s.rows)) ==>
          t.On(id, pair);
      } else {
        assert !s.On(step.id, pair);
      }
    }
    forall id <- t.calls
      ensures var c := t.calls[id];
              if c.wrote then (c.pair in t.rows <==> c.op.DoBlock?) && (c.pair in t.cache <==> c.op.DoUnblock?)
              else c.pair in t.cache <==> c.pair in t.rows
    {
      var c := t.calls[id];
      if id !in s.calls {
        assert s.Quiet(c.pair) by {
          forall j
            ensures !s.On(j, c.pair)
          {
            assert j in s.calls ==> j in t.calls && t.calls[j] == s.calls[j];
          }
        }
      } else if !step.Begin? && step.id in s.calls && step.id != id {
        assert s.calls[step.id].pair != c.pair;
      }
    }
  }

  lemma {:induction false} RunKeepsInv(s: State, steps: seq<Step>)
    requires Inv(s) && AllDelivered(steps)
    requires forall n | 0 <= n <= |steps| :: s.Run(steps[..n]).Exclusive()
    ensures Inv(s.Run(steps))
    decreases |steps|
  {
    if steps != [] {
      var before, last := steps[..|steps| - 1], steps[|steps| - 1];
      assert AllDelivered(before) by {
        assert forall x :: x in before ==> x in steps;
      }
      assert forall n | 0 <= n <= |before| :: before[..n] == steps[..n];
      RunKeepsInv(s, before);
      assert last in steps && steps[..|steps|] == steps;
      StepKeepsInv(s.Run(before), last);
    }
  }

  /**
   From a coherent start, whatever the interleaving: if no two calls are in flight on one pair at a time
   and no Redis write is lost, IsBlocked answers as the table does for every pair with no call in
   flight, whichever Redis reads fail.
   */
  lemma QuietPairsAgree(start: set<Pair>, steps: seq<Step>, pair: Pair, redisUp: bool)
    requires AllDelivered(steps)
    requires forall n | 0 <= n <= |steps| :: State(start, start, map[]).Run(steps[..n]).Exclusive()
    ensures var s := State(start, start, map[]).Run(steps);
            s.Quiet(pair) ==> (s.IsBlocked(pair, redisUp) <==> pair in s.rows)
  {
    RunKeepsInv(State(start, start, map[]), steps);
  }

  /** A call that reached its Redis write leaves its pair coherent exactly when the write is delivered. */
  lemma DeliveredIffCoherent(s: State, id: nat, delivered: bool)
    requires Inv(s) && id in s.calls && s.calls[id].wrote
    ensures var t, pair := s.Next(Redis(id, delivered)), s.calls[id].pair;
            && t.Quiet(pair)
            && ((pair in t.cache <==> pair in t.rows) <==> delivered)
  {
    var t, pair := s.Next(Redis(id, delivered)), s.calls[id].pair;
    forall j
      ensures !t.On(j, pair)
    {
      assert j in t.calls ==> j in s.calls && j != id;
    }
  }

  // ------------------------------------------------------------ every schedule whatever

  /** A step that changes what the table, or the cache, says about a pair: the call it belongs to and what it does. */
  datatype Effect = Effect(id: nat, op: Op)

  /** What a database step does to the table, if it is one on this pair and succeeds. */
  function Write(s: State, step: Step, pair: Pair): Option<Effect> {
    if step.Database? && s.On(step.id, pair) && !s.calls[step.id].wrote
       && s.calls[step.id].op.DoBlock? != (pair in s.rows)
    then Some(Effect(step.id, s.calls[step.id].op)) else None
  }

  /** What a Redis step does to the cache, if it is one on this pair and is delivered. */
  function Delivery(s: State, step: Step, pair: Pair): Option<Effect> {
    if step.Redis? && step.delivered && s.On(step.id, pair) && s.calls[step.id].wrote
    then Some(Effect(step.id, s.calls[step.id].op)) else None
  }

  function LastWrite(s: State, steps: seq<Step>, pair: Pair): Option<Effect>
    decreases |steps|
  {
    if steps == [] then None
    else
      var before := steps[..|steps| - 1];
      var write := Write(s.Run(before), steps[|steps| - 1], pair);
      if write.Some? then write else LastWrite(s, before, pair)
  }

  function LastDelivery(s: State, steps: seq<Step>, pair: Pair): Option<Effect>
    decreases |steps|
  {
    if steps == [] then None
    else
      var before := steps[..|steps| - 1];
      var delivery := Delivery(s.Run(before), steps[|steps| - 1], pair);
      if delivery.Some? then delivery else LastDelivery(s, before, pair)
  }

  /** Whether a pair is there after an effect, if there was one, and whether it was there before. */
  predicate Holds(effect: Option<Effect>, was: bool) {
    if effect.Some? then effect.value.op.DoBlock? else was
  }

  /** For every schedule, the table is what the last successful database step made of it. */
  lemma {:induction false} TableIsLastWrite(s: State, steps: seq<Step>, pair: Pair)
    ensures pair in s.Run(steps).rows <==> Holds(LastWrite(s, steps, pair), pair in s.rows)
    decreases |steps|
  {
    if steps != [] {
      TableIsLastWrite(s, steps[..|steps| - 1], pair);
    }
  }

  /** For every schedule, the cache is what the last Redis write to arrive made of it. */
  lemma {:induction false} CacheIsLastDelivery(s: State, steps: seq<Step>, pair: Pair)
    ensures pair in s.Run(steps).cache <==> Holds(LastDelivery(s, steps, pair), pair in s.cache)
    decreases |steps|
  {
    if steps != [] {
      CacheIsLastDelivery(s, steps[..|steps| - 1], pair);
    }
  }

  /** The op of the last effect; before any, the one that would have made the start what it is. */
  function LastOp(effect: Option<Effect>, start: set<Pair>, pair: Pair): Op {
    if effect.Some? then effect.value.op else if pair in start then DoBlock else DoUnblock
  }

  /**
   From a coherent start and for every schedule, calls overlapping and Redis writes lost or not: cache and table
   agree on a pair exactly when the last successful database step and the last Redis write to arrive did the
   same.
   */
  lemma AgreeIff(start: set<Pair>, steps: seq<Step>, pair: Pair)
    ensures var s0 := State(start, start, map[]);
            var s := s0.Run(steps);
            (pair in s.cache <==> pair in s.rows) <==>
            LastOp(LastWrite(s0, steps, pair), start, pair) == LastOp(LastDelivery(s0, steps, pair), start, pair)
  {
    TableIsLastWrite(State(start, start, map[]), steps, pair);
    CacheIsLastDelivery(State(start, start, map[]), steps, pair);
  }

  /** How the last effects on a pair relate to the calls still in flight, while no Redis write is lost. */
  ghost predicate Linked(s: State, write: Option<Effect>, delivery: Option<Effect>, pair: Pair) {
    && (delivery.Some? ==> write.Some?)
    && (forall id | s.On(id, pair) && s.calls[id].wrote :: write.Some?)
    && (write.Some? && s.On(write.value.id, pair) && s.calls[write.value.id].wrote ==>
          s.calls[write.value.id].op == write.value.op)
    && (write.Some? && !(s.On(write.value.id, pair) && s.calls[write.value.id].wrote) ==>
          delivery.Some? && (delivery.value.id == write.value.id ==> delivery.value == write.value))
  }

  lemma StepLinks(s: State, step: Step, write: Option<Effect>, delivery: Option<Effect>, pair: Pair)
    requires Linked(s, write, delivery, pair) && (step.Redis? ==> step.delivered)
    ensures var write' := if Write(s, step, pair).Some? then Write(s, step, pair) else write;
            var delivery' := if Delivery(s, step, pair).Some? then Delivery(s, step, pair) else delivery;
            Linked(s.Next(step), write', delivery', pair)
  {
    var t := s.Next(step);
    assert forall id | id != step.id :: s.On(id, pair) <==> t.On(id, pair);
    assert forall id | id != step.id && s.On(id, pair) :: t.calls[id] == s.calls[id];
  }

  lemma {:induction false} RunLinks(start: set<Pair>, steps: seq<Step>, pair: Pair)
    requires AllDelivered(steps)
    ensures var s0 := State(start, start, map[]);
            Linked(s0.Run(steps), LastWrite(s0, steps, pair), LastDelivery(s0, steps, pair), pair)
    decreases |steps|
  {
    if steps != [] {
      var s0, before, last := State(start, start, map[]), steps[..|steps| - 1], steps[|steps| - 1];
      assert AllDelivered(before) by {
        assert forall x :: x in before ==> x in steps;
      }
      assert last in steps;
      RunLinks(start, before, pair);
      StepLinks(s0.Run(before), last, LastWrite(s0, before, pair), LastDelivery(s0, before, pair), pair);
    }
  }

  /**
   When no Redis write is lost, a pair with no call in flight is coherent exactly when nothing was written or
   the last write to the table and the last to the cache are both blocks or both unblocks.
   */
  lemma QuietAgreeIff(start: set<Pair>, steps: seq<Step>, pair: Pair)
    requires AllDelivered(steps) && State(start, start, map[]).Run(steps).Quiet(pair)
    ensures var s0 := State(start, start, map[]);
            var s, write, delivery := s0.Run(steps), LastWrite(s0, steps, pair), LastDelivery(s0, steps, pair);
            && (write.Some? <==> delivery.Some?)
            && ((pair in s.cache <==> pair in s.rows) <==> (write.Some? ==> write.value.op == delivery.value.op))
  {
    AgreeIff(start, steps, pair);
    RunLinks(start, steps, pair);
  }

  /** However calls overlap: if the call that wrote the table last is the last to write the cache, the two agree. */
  lemma InOrderAgrees(start: set<Pair>, steps: seq<Step>, pair: Pair)
    requires AllDelivered(steps) && State(start, start, map[]).Run(steps).Quiet(pair)
    requires var s0 := State(start, start, map[]);
             var write, delivery := LastWrite(s0, steps, pair), LastDelivery(s0, steps, pair);
             write.Some? && delivery.Some? ==> write.value.id == delivery.value.id
    ensures var s := State(start, start, map[]).Run(steps);
            pair in s.cache <==> pair in s.rows
  {
    QuietAgreeIff(start, steps, pair);
    RunLinks(start, steps, pair);
  }

  const PAIR: Pair := (1, 2)

  /** A Block and an Unblock of one pair whose Redis writes arrive in the other order than their table writes. */
  const OVERLAP: seq<Step> := [Begin(0, DoBlock, PAIR), Database(0), Begin(1, DoUnblock, PAIR), Database(1),
                               Redis(1, true), Redis(0, true)]

  /** The last table write is the Unblock and the last cache write the Block, so the cache blocks a pair wrongly. */
  lemma OverlapDiverges()
    ensures var s := State({}, {}, map[]);
            && LastWrite(s, OVERLAP, PAIR) == Some(Effect(1, DoUnblock))
            && LastDelivery(s, OVERLAP, PAIR) == Some(Effect(0, DoBlock))
            && s.Run(OVERLAP).Quiet(PAIR)
            && PAIR in s.Run(OVERLAP).cache && PAIR !in s.Run(OVERLAP).rows
  {
    var s := State({}, {}, map[]);
    OverlapStates();
    TableIsLastWrite(s, OVERLAP, PAIR);
    CacheIsLastDelivery(s, OVERLAP, PAIR);
    assert OVERLAP[..5][..4] == OVERLAP[..4] && OVERLAP[..4][..3] == OVERLAP[..3];
    assert LastWrite(s, OVERLAP[..4], PAIR) == Write(s.Run(OVERLAP[..3]), Database(1), PAIR);
    assert LastWrite(s, OVERLAP[..5], PAIR) == LastWrite(s, OVERLAP[..4], PAIR);
    hide State.Run;
  }

  lemma OverlapStates()
    ensures var s := State({}, {}, map[]);
            var f, g := Flight(DoBlock, PAIR, true), Flight(DoUnblock, PAIR, false);
            && s.Run(OVERLAP[..3]) == State({PAIR}, {}, map[0 := f, 1 := g])
            && s.Run(OVERLAP[..4]) == State({}, {}, map[0 := f, 1 := g.(wrote := true)])
            && s.Run(OVERLAP[..5]) == State({}, {}, map[0 := f])
            && s.Run(OVERLAP).calls == map[]
  {
    var s := State({}, {}, map[]);
    var f, g := Flight(DoBlock, PAIR, true), Flight(DoUnblock, PAIR, true);
    RunSnoc(s, OVERLAP, 0); RunSnoc(s, OVERLAP, 1); RunSnoc(s, OVERLAP, 2);
    RunSnoc(s, OVERLAP, 3); RunSnoc(s, OVERLAP, 4); RunSnoc(s, OVERLAP, 5);
    assert s.Run(OVERLAP[..0]) == s && OVERLAP[..6] == OVERLAP;
    FirstOverlaps(f, g);
    LastOverlaps(f, g);
    hide State.Run, State.Next;
  }

  lemma FirstOverlaps(f: Flight, g: Flight)
    requires f == Flight(DoBlock, PAIR, true) && g == Flight(DoUnblock, PAIR, true)
    ensures var s := State({}, {}, map[]).Next(OVERLAP[0]).Next(OVERLAP[1]).Next(OVERLAP[2]);
            s == State({PAIR}, {}, map[0 := f, 1 := g.(wrote := false)])
  {
    assert State({}, {}, map[]).Next(OVERLAP[0]).Next(OVERLAP[1]) == State({PAIR}, {}, map[0 := f]);
  }

  lemma LastOverlaps(f: Flight, g: Flight)
    requires f == Flight(DoBlock, PAIR, true) && g == Flight(DoUnblock, PAIR, true)
    ensures var both := State({}, {}, map[0 := f, 1 := g]);
            && State({PAIR}, {}, map[0 := f, 1 := g.(wrote := false)]).Next(OVERLAP[3]) == both
            && both.Next(OVERLAP[4]) == State({}, {}, map[0 := f])
            && both.Next(OVERLAP[4]).Next(OVERLAP[5]).calls == map[]
  {
  }

  lemma RunSnoc(s: State, steps: seq<Step>, n: nat)
    requires n < |steps|
    ensures s.Run(steps[..n + 1]) == s.Run(steps[..n]).Next(steps[n])
  {
    assert steps[..n + 1][..n] == steps[..n];
  }

  /** A Block whose steps are not interleaved does to table and cache what the service call does in one go. */
  lemma AloneIsAtomic(s: Store, a: User, b: User, op: Op)
    requires a != b && {a, b} <= s.users
    ensures var alone := State(s.blocks, s.cache, map[]).Run([Begin(0, op, (a, b)), Database(0), Redis(0, true)]);
            var t := if op.DoBlock? then s.Block(a, b).0 else s.Unblock(a, b).0;
            alone == State(t.blocks, t.cache, map[])
  {
    var steps := [Begin(0, op, (a, b)), Database(0), Redis(0, true)];
    var s0 := State(s.blocks, s.cache, map[]);
    assert s0.Run(steps[..0]) == s0;
    RunSnoc(s0, steps, 0);
    RunSnoc(s0, steps, 1);
    RunSnoc(s0, steps, 2);
    assert steps[..3] == steps;
    assert s0.Next(steps[0]).calls == map[0 := Flight(op, (a, b), false)];
  }
}
