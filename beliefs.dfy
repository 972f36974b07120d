/** The ore-estimate belief update: what last turn's own digs revealed, and
    how one cell's estimate is rewritten from it. */
module Beliefs {
  import opened Wrappers
  import opened FixedWidth
  import opened Geometry
  import opened Protocol
  import opened Grid
  import opened Registry

  /** A living friendly robot whose most recent command was a `Dig`. */
  predicate DugLastTurn(e: Entity)
  {
    e.kind == EntityType.MyRobot && !e.dead && |e.actions| > 0
    && e.actions[|e.actions| - 1].kind == ActionType.Dig
  }

  /** The cell that robot's last `Dig` named. */
  function LastDigTarget(e: Entity): Position
    requires DugLastTurn(e) && DigsHaveTargets(e)
  {
    e.actions[|e.actions| - 1].p.value
  }

  /** The dig came back with ore. */
  predicate DigSucceeded(e: Entity)
  {
    DugLastTurn(e) && e.item == ItemType.Ore
  }

  /** The dig came back empty-handed (or with anything but ore). */
  predicate DigFruitless(e: Entity)
  {
    DugLastTurn(e) && e.item != ItemType.Ore
  }

  /** The targets of successful digs, in registry order. */
  function SuccessfulDigs(es: seq<Entity>): seq<Position>
    requires AllDigsHaveTargets(es)
  {
    if es == [] then []
    else
      var e := es[|es| - 1];
      SuccessfulDigs(es[..|es| - 1]) + (if DigSucceeded(e) then [LastDigTarget(e)] else [])
  }

  /** The targets of fruitless digs, in registry order. */
  function FruitlessDigs(es: seq<Entity>): seq<Position>
    requires AllDigsHaveTargets(es)
  {
    if es == [] then []
    else
      var e := es[|es| - 1];
      FruitlessDigs(es[..|es| - 1]) + (if DigFruitless(e) then [LastDigTarget(e)] else [])
  }

  /** A cell is a successful dig site exactly when some living friendly robot
      last dug it and now carries ore. */
  lemma {:induction false} SuccessfulDigsAre(es: seq<Entity>, p: Position)
    requires AllDigsHaveTargets(es)
    ensures p in SuccessfulDigs(es) <==>
      exists k :: 0 <= k < |es| && DigSucceeded(es[k]) && LastDigTarget(es[k]) == p
  {
    if es != [] {
      var init := es[..|es| - 1];
      assert forall k :: 0 <= k < |init| ==> init[k] == es[k];
      SuccessfulDigsAre(init, p);
    }
  }

  /** A cell is a fruitless dig site exactly when some living friendly robot
      last dug it and now carries no ore. */
  lemma {:induction false} FruitlessDigsAre(es: seq<Entity>, p: Position)
    requires AllDigsHaveTargets(es)
    ensures p in FruitlessDigs(es) <==>
      exists k :: 0 <= k < |es| && DigFruitless(es[k]) && LastDigTarget(es[k]) == p
  {
    if es != [] {
      var init := es[..|es| - 1];
      assert forall k :: 0 <= k < |init| ==> init[k] == es[k];
      FruitlessDigsAre(init, p);
    }
  }

  /** The new estimate of one cell, in priority order: a revealed count,
      else 0 after a fruitless dig, else 1/2 after a successful dig, else the
      old estimate. */
  function RevisedEstimate(current: real, cell: Cell, p: Position,
                           successful: seq<Position>, fruitless: seq<Position>): (r: real)
    ensures current >= 0.0 ==> r >= 0.0
    ensures cell.ore.Some? ==> r == cell.ore.value as real && r < 256.0
    ensures cell.ore.None? && p in fruitless ==> r == 0.0
    ensures cell.ore.None? && p in successful && p !in fruitless ==> r == 0.5
    ensures cell.ore.None? && p !in fruitless && p !in successful ==> r == current
  {
    if cell.ore.Some? then cell.ore.value as real
    else if p in fruitless then 0.0
    else if p in successful then 0.5
    else current
  }

  /** The two scans of `Game::updateEstimates` for a cell with no revealed
      count: every successful dig at the cell writes 1/2, then every
      fruitless dig at it writes 0, so a fruitless dig wins. */
  method EstimateFromDigs(current: real, p: Position,
                          successful: seq<Position>, fruitless: seq<Position>) returns (e: real)
    ensures e == RevisedEstimate(current, EmptyCell, p, successful, fruitless)
  {
    e := current;
    for k := 0 to |successful|
      invariant e == if p in successful[..k] then 0.5 else current
    {
      if successful[k] == p {
        e := 0.5;
      }
    }
    assert successful[..|successful|] == successful;
    for k := 0 to |fruitless|
      invariant e == if p in fruitless[..k] then 0.0 else if p in successful then 0.5 else current
    {
      if fruitless[k] == p {
        e := 0.0;
      }
    }
    assert fruitless[..|fruitless|] == fruitless;
  }

  /** Revising an estimate a second time against the same evidence changes
      nothing. */
  lemma RevisedEstimateIdempotent(current: real, cell: Cell, p: Position,
                                  successful: seq<Position>, fruitless: seq<Position>)
    ensures var once := RevisedEstimate(current, cell, p, successful, fruitless);
      RevisedEstimate(once, cell, p, successful, fruitless) == once
  {
  }
}
