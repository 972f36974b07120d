/** The bot's per-turn state and decisions: `Game` owns the map, the entity
    registry, the ore estimates and the item cooldowns, refreshes them from
    each turn's input and gives every friendly robot one command. */
module Bot {
  import opened Wrappers
  import opened FixedWidth
  import opened Geometry
  import opened Protocol
  import opened Grid
  import opened Registry
  import opened Beliefs

  /** The command every robot's turn starts from. */
  const Waiting := Action(ActionType.Wait, Option.None, Option.None)

  /** `considerGettingRadar`: a robot on the home column asks for a radar
      when the radar cooldown is over; otherwise the action is left alone. */
  function ConsiderGettingRadar(robot: Entity, radarCooldown: U32, action: Action): (r: Action)
    ensures r.p == action.p
    ensures robot.p.x == 0 && radarCooldown == 0 ==>
      r.kind == ActionType.Request && r.item == Some(ItemType.Radar)
    ensures r.kind == ActionType.Request && action.kind != ActionType.Request ==>
      robot.p.x == 0 && radarCooldown == 0
    ensures !(robot.p.x == 0 && radarCooldown == 0) ==> r == action
  {
    if robot.p.x == 0 && radarCooldown == 0 then
      action.(kind := ActionType.Request, item := Some(ItemType.Radar))
    else action
  }

  /** Where a radar carrier digs: the target of its previous `Dig` if its last
      command was one, otherwise the random cell drawn for it. */
  function RadarTarget(e: Entity, fallback: Position): Position
  {
    if |e.actions| > 0 && e.actions[|e.actions| - 1].kind == ActionType.Dig
       && e.actions[|e.actions| - 1].p.Some?
    then e.actions[|e.actions| - 1].p.value
    else fallback
  }

  /** A live friendly robot carrying a radar digs again where its last
      command dug, and at the random cell when its last command was not a dig. */
  lemma RadarCarrierRedigs(e: Entity, fallback: Position)
    requires e.kind == EntityType.MyRobot && !e.dead && DigsHaveTargets(e)
    ensures DugLastTurn(e) ==> RadarTarget(e, fallback) == LastDigTarget(e)
    ensures !DugLastTurn(e) ==> RadarTarget(e, fallback) == fallback
  {
  }

  /** The command lines written for a registry, one per friendly robot in
      registry order: each robot's newest command. */
  function Emitted(es: seq<Entity>): seq<string>
  {
    if es == [] then []
    else
      var e := es[|es| - 1];
      Emitted(es[..|es| - 1])
      + (if e.kind == EntityType.MyRobot && |e.actions| > 0
         then [ActionToString(e.actions[|e.actions| - 1])] else [])
  }

  /** `a` is strictly earlier than `b` in row-major order. */
  predicate RowMajorBefore(a: Position, b: Position)
  {
    a.y < b.y || (a.y == b.y && a.x < b.x)
  }

  class Game {
    var grid: Map
    /** The number of rows. */
    var m: U32
    /** The number of columns. */
    var n: U32
    var entities: seq<Entity>
    /** `estimates[i, j]` is the expected ore left in row i, column j. */
    var estimates: array2<real>
    var radarCooldown: U32
    var trapCooldown: U32

    ghost predicate Valid()
      reads this, grid, estimates
    {
      grid.Valid() && grid.cells.Length0 == m && grid.cells.Length1 == n && m > 0 &&
      estimates.Length0 == m && estimates.Length1 == n &&
      (forall i, j :: 0 <= i < m && 0 <= j < n ==> estimates[i, j] >= 0.0) &&
      UniqueIds(entities) && AllDigsHaveTargets(entities)
    }

    /** The `Game` constructor. The prior estimate is any non-negative grid;
        the home column is then zeroed. */
    constructor (width: U32, height: U32, prior: seq<seq<real>>)
      requires width > 0 && height > 0
      requires |prior| == height
      requires forall i :: 0 <= i < height ==> |prior[i]| == width
      requires forall i, j :: 0 <= i < height && 0 <= j < width ==> prior[i][j] >= 0.0
      ensures Valid() && fresh(grid) && fresh(grid.cells) && fresh(estimates)
      ensures m == height && n == width
      ensures entities == [] && radarCooldown == 0 && trapCooldown == 0
      ensures forall i, j :: 0 <= i < height && 0 <= j < width ==> grid.cells[i, j] == EmptyCell
      ensures forall i, j :: 0 <= i < height && 0 <= j < width ==>
        estimates[i, j] == if j == 0 then 0.0 else prior[i][j]
    {
      var est := new real[height, width];
      for i := 0 to height
        invariant forall r, c :: 0 <= r < i && 0 <= c < width ==> est[r, c] == prior[r][c]
      {
        for j := 0 to width
          invariant forall r, c :: 0 <= r < i && 0 <= c < width ==> est[r, c] == prior[r][c]
          invariant forall c :: 0 <= c < j ==> est[i, c] == prior[i][c]
        {
          est[i, j] := prior[i][j];
        }
      }
      for i := 0 to height
        invariant forall r, c :: 0 <= r < height && 0 <= c < width ==>
          est[r, c] == if c == 0 && r < i then 0.0 else prior[r][c]
      {
        est[i, 0] := 0.0;
      }
      var g := new Map(width, height);
      grid := g;
      m, n := g.Height(), g.Width();
      entities := [];
      estimates := est;
      radarCooldown, trapCooldown := 0, 0;
    }

    /** `Game::updateMap`. */
    method UpdateMap(rows: seq<seq<CellToken>>)
      requires Valid()
      requires |rows| == m && forall i :: 0 <= i < |rows| ==> |rows[i]| == n
      modifies grid.cells
      ensures Valid()
      ensures forall i, j :: 0 <= i < m && 0 <= j < n ==> grid.cells[i, j] == DecodeCell(rows[i][j])
    {
      grid.ReadUpdate(rows);
    }

    /** `Game::updateEntities`: stores the cooldowns, then decodes each tuple
        and upserts it by id. A tuple that does not decode aborts the turn
        with the earlier tuples already applied. */
    method UpdateEntities(newRadarCooldown: U32, newTrapCooldown: U32, records: seq<EntityRecord>)
      returns (ok: bool)
      requires Valid()
      modifies this
      ensures Valid()
      ensures grid == old(grid) && estimates == old(estimates) && m == old(m) && n == old(n)
      ensures radarCooldown == newRadarCooldown && trapCooldown == newTrapCooldown
      ensures ok ==> (DecodeAll(records).Ok? &&
        entities == UpsertAll(old(entities), DecodeAll(records).value))
      ensures !ok ==> exists k :: (0 <= k < |records| &&
                                   DecodeAll(records[..k]).Ok? && ReadEntity(records[k]).Err? &&
                                   entities == UpsertAll(old(entities), DecodeAll(records[..k]).value))
    {
      radarCooldown := newRadarCooldown;
      trapCooldown := newTrapCooldown;
      var es := entities;
      ok := true;
      ghost var failedAt := |records|;
      for i := 0 to |records|
        modifies {}
        invariant DecodeAll(records[..i]).Ok?
        invariant es == UpsertAll(old(entities), DecodeAll(records[..i]).value)
        invariant UniqueIds(es) && AllDigsHaveTargets(es)
      {
        assert records[..i + 1][..i] == records[..i];
        var decoded := ReadEntity(records[i]);
        if decoded.Err? {
          ok := false;
          failedAt := i;
          break;
        }
        var entity := decoded.value;
        var updatedAnExistingEntity := false;
        var k := 0;
        while k < |es|
          invariant 0 <= k <= |es|
          invariant forall j :: 0 <= j < k ==> es[j].id != entity.id
        {
          if entity.id == es[k].id {
            updatedAnExistingEntity := true;
            break;
          }
          k := k + 1;
        }
        ghost var before := es;
        assert k == FirstIndexOf(es, entity.id);
        if updatedAnExistingEntity {
          es := es[k := Refresh(es[k], entity)];
        } else {
          es := es + [entity];
        }
        assert es == Upsert(before, entity);
        UpsertKeepsUniqueIds(before, entity);
        UpsertKeepsDigTargets(before, entity);
      }
      assert ok ==> records[..|records|] == records;
      entities := es;
    }

    /** The first scan of `Game::updateEstimates`: the targets of last turn's
        successful and fruitless digs. */
    method CollectDigOutcomes() returns (successful: seq<Position>, fruitless: seq<Position>)
      requires AllDigsHaveTargets(entities)
      ensures successful == SuccessfulDigs(entities)
      ensures fruitless == FruitlessDigs(entities)
    {
      successful, fruitless := [], [];
      for k := 0 to |entities|
        invariant successful == SuccessfulDigs(entities[..k])
        invariant fruitless == FruitlessDigs(entities[..k])
      {
        assert entities[..k + 1][..k] == entities[..k];
        var entity := entities[k];
        if entity.kind == EntityType.MyRobot && !entity.dead && |entity.actions| > 0
           && entity.actions[|entity.actions| - 1].kind == ActionType.Dig {
          var actionPosition := entity.actions[|entity.actions| - 1].p.value;
          if entity.item == ItemType.Ore {
            successful := successful + [actionPosition];
          } else {
            fruitless := fruitless + [actionPosition];
          }
        }
      }
      assert entities[..|entities|] == entities;
    }

    /** `Game::updateEstimates`: every cell's estimate is rewritten by the
        priority rule of `RevisedEstimate`. */
    method UpdateEstimates()
      requires Valid()
      modifies estimates
      ensures Valid()
      ensures forall i, j :: 0 <= i < m && 0 <= j < n ==>
        estimates[i, j] == RevisedEstimate(old(estimates[i, j]), grid.cells[i, j], Position(j, i),
                                           SuccessfulDigs(entities), FruitlessDigs(entities))
    {
      var successful, fruitless := CollectDigOutcomes();
      for i := 0 to m
        invariant forall r, c :: 0 <= r < i && 0 <= c < n ==>
          estimates[r, c] == RevisedEstimate(old(estimates[r, c]), grid.cells[r, c], Position(c, r),
                                             successful, fruitless)
        invariant forall r, c :: i <= r < m && 0 <= c < n ==> estimates[r, c] == old(estimates[r, c])
      {
        for j := 0 to n
          invariant forall r, c :: 0 <= r < i && 0 <= c < n ==>
            estimates[r, c] == RevisedEstimate(old(estimates[r, c]), grid.cells[r, c], Position(c, r),
                                               successful, fruitless)
          invariant forall c :: 0 <= c < j ==>
            estimates[i, c] == RevisedEstimate(old(estimates[i, c]), grid.cells[i, c], Position(c, i),
                                               successful, fruitless)
          invariant forall r, c :: i <= r < m && 0 <= c < n && (r > i || c >= j) ==>
            estimates[r, c] == old(estimates[r, c])
        {
          if grid.HasOreCount(i, j) {
            estimates[i, j] := grid.GetOreCount(i, j) as real;
          } else {
            estimates[i, j] := EstimateFromDigs(estimates[i, j], Position(j, i), successful, fruitless);
          }
        }
      }
    }

    /** The cell at row r, column c is on the grid and has a positive estimate. */
    ghost predicate Positive(r: int, c: int)
      reads this`m, this`n, this`estimates, this`radarCooldown, estimates
    {
      0 <= r < m && 0 <= c < n && r < estimates.Length0 && c < estimates.Length1
      && estimates[r, c] > 0.0
    }

    ghost predicate NoPositiveCell()
      reads this`m, this`n, this`estimates, this`radarCooldown, estimates
    {
      forall q: Position :: !Positive(q.y, q.x)
    }

    /** `q` is a positive cell nearest to `from`, and the first such cell in
        row-major order. */
    ghost predicate IsBestDigCell(from: Position, q: Position)
      reads this`m, this`n, this`estimates, this`radarCooldown, estimates
    {
      Positive(q.y, q.x) &&
      forall q': Position :: Positive(q'.y, q'.x) ==>
        DistanceTo(from, q) <= DistanceTo(from, q') &&
        (RowMajorBefore(q', q) ==> DistanceTo(from, q) < DistanceTo(from, q'))
    }

    /** The invariant of the scan in `ConsiderDigging` after the cells before
        row i, column j: `best` is the best positive cell among them. */
    ghost predicate BestSoFar(from: Position, best: Option<Position>, i: int, j: int)
      reads this`m, this`n, this`estimates, this`radarCooldown, estimates
    {
      (best.None? ==> forall q: Position :: Positive(q.y, q.x) ==> !(q.y < i || (q.y == i && q.x < j))) &&
      (best.Some? ==>
        var b := best.value;
        Positive(b.y, b.x) && (b.y < i || (b.y == i && b.x < j)) &&
        forall q: Position :: Positive(q.y, q.x) && (q.y < i || (q.y == i && q.x < j)) ==>
          DistanceTo(from, b) <= DistanceTo(from, q) &&
          (RowMajorBefore(q, b) ==> DistanceTo(from, b) < DistanceTo(from, q)))
    }

    /** Scanning row i, column j keeps `BestSoFar`: a positive cell replaces
        the best one only when strictly nearer, or when there is none yet. */
    lemma ScanCell(from: Position, best: Option<Position>, i: U32, j: U32, next: Option<Position>)
      requires Valid() && i < m && j < n
      requires BestSoFar(from, best, i, j)
      requires estimates[i, j] <= 0.0 ==> next == best
      requires estimates[i, j] > 0.0 ==>
        next == if best.None? || DistanceTo(from, Position(j, i)) < DistanceTo(from, best.value)
                then Some(Position(j, i)) else best
      ensures BestSoFar(from, next, i, j + 1)
    {
      var q := Position(j, i);
      forall q': Position | Positive(q'.y, q'.x) && (q'.y < i || (q'.y == i && q'.x < j + 1))
        ensures q'.y < i || (q'.y == i && q'.x < j) || q' == q
      {
      }
    }

    /** A finished row hands the scan on to the next one. */
    lemma ScanRow(from: Position, best: Option<Position>, i: U32)
      requires Valid() && i < m
      requires BestSoFar(from, best, i, n)
      ensures BestSoFar(from, best, i + 1, 0)
    {
    }

    /** `considerDigging`: scans the grid for the positive cell nearest to the
        robot, keeping the first one found among equally near cells, and digs
        there; with no positive cell the action is left alone. */
    method ConsiderDigging(robot: Entity, action: Action) returns (result: Action)
      requires Valid()
      ensures NoPositiveCell() ==> result == action
      ensures !NoPositiveCell() ==>
        result.kind == ActionType.Dig && result.p.Some? && result.item == action.item &&
        IsBestDigCell(robot.p, result.p.value)
    {
      var best: Option<Position> := Option.None;
      for i := 0 to m
        invariant BestSoFar(robot.p, best, i, 0)
      {
        for j := 0 to n
          invariant BestSoFar(robot.p, best, i, j)
        {
          ghost var previous := best;
          if estimates[i, j] > 0.0 {
            var q := Position(j, i);
            if best.None? {
              best := Some(q);
            }
            var currentDistance := DistanceTo(robot.p, best.value);
            var alternativeDistance := DistanceTo(robot.p, q);
            if alternativeDistance < currentDistance {
              best := Some(q);
            }
          }
          ScanCell(robot.p, previous, i, j, best);
        }
        ScanRow(robot.p, best, i);
      }
      if best.Some? {
        result := action.(kind := ActionType.Dig, p := best);
      } else {
        result := action;
      }
    }

    /** The command the planner gives friendly robot `e` this turn, against
        the current estimates and radar cooldown; `fallback` is the random cell
        drawn for a radar carrier with no previous dig. */
    ghost predicate Planned(e: Entity, a: Action, fallback: Position)
      reads this`m, this`n, this`estimates, this`radarCooldown, estimates
    {
      if e.dead then a == Waiting
      else if e.item == ItemType.Ore then
        a == Action(ActionType.Move, Some(Position(0, e.p.y)), Option.None)
      else if e.item == ItemType.Radar then
        a == Action(ActionType.Dig, Some(RadarTarget(e, fallback)), Option.None)
      else if e.p.x == 0 && radarCooldown == 0 then
        a == Action(ActionType.Request, Option.None, Some(ItemType.Radar))
      else if NoPositiveCell() then a == Waiting
      else a.kind == ActionType.Dig && a.p.Some? && a.item.None? && IsBestDigCell(e.p, a.p.value)
    }

    /** How one registry entry changes in a turn: a friendly robot gains
        exactly its planned command, everything else is untouched. */
    ghost predicate TookTurn(before: Entity, after: Entity, fallback: Position)
      reads this`m, this`n, this`estimates, this`radarCooldown, estimates
    {
      if before.kind == EntityType.MyRobot then
        |after.actions| == |before.actions| + 1 &&
        after == before.(actions := before.actions + [after.actions[|before.actions|]]) &&
        Planned(before, after.actions[|before.actions|], fallback)
      else after == before
    }

    /** The body of the loop in `Game::moveEntities` for one friendly robot:
        the command it is given this turn. */
    method PlanFor(entity: Entity, fallback: Position) returns (action: Action)
      requires Valid()
      ensures Planned(entity, action, fallback)
    {
      action := Waiting;
      if entity.dead {
      } else if entity.item == ItemType.Ore {
        action := action.(kind := ActionType.Move, p := Some(Position(0, entity.p.y)));
      } else if entity.item == ItemType.Radar {
        action := action.(kind := ActionType.Dig);
        var whereToDig: Option<Position> := Option.None;
        if |entity.actions| > 0 {
          if entity.actions[|entity.actions| - 1].kind == ActionType.Dig {
            whereToDig := entity.actions[|entity.actions| - 1].p;
          }
        }
        if whereToDig.Some? {
          action := action.(p := whereToDig);
        } else {
          action := action.(p := Some(fallback));
        }
      } else {
        action := ConsiderGettingRadar(entity, radarCooldown, action);
        if action.kind == ActionType.Wait {
          action := ConsiderDigging(entity, action);
        }
      }
    }

    /** A planned command never leaves a `Dig` without a target. */
    lemma PlannedDigHasTarget(e: Entity, a: Action, fallback: Position)
      requires Planned(e, a, fallback)
      ensures a.kind == ActionType.Dig ==> a.p.Some?
    {
    }

    /** The loop of `Game::moveEntities` over the registry `before`: every
        friendly robot, dead ones included, gets one command appended to its
        history, and the command is written out. `fallbacks[k]` is the random
        cell drawn for entity k should it carry a radar with no previous dig. */
    method PlanTurn(before: seq<Entity>, fallbacks: seq<Position>)
      returns (after: seq<Entity>, output: seq<string>)
      requires Valid()
      requires |fallbacks| == |before|
      ensures |after| == |before|
      ensures forall k :: 0 <= k < |after| ==> TookTurn(before[k], after[k], fallbacks[k])
      ensures output == Emitted(after)
    {
      after := before;
      output := [];
      for k := 0 to |after|
        invariant |after| == |before|
        invariant forall j :: 0 <= j < k ==> TookTurn(before[j], after[j], fallbacks[j])
        invariant forall j :: k <= j < |after| ==> after[j] == before[j]
        invariant output == Emitted(after[..k])
      {
        var entity := after[k];
        var action := Waiting;
        if entity.kind == EntityType.MyRobot {
          action := PlanFor(entity, fallbacks[k]);
          output := output + [ActionToString(action)];
        }
        TurnStep(before, after, fallbacks, k, action);
        after := Gave(after, k, action);
      }
      assert after[..|after|] == after;
    }

    /** Entry k of a registry after it is given `action`, if it is a
        friendly robot. */
    static function Gave(es: seq<Entity>, k: nat, action: Action): (r: seq<Entity>)
      requires k < |es|
      ensures |r| == |es|
    {
      if es[k].kind == EntityType.MyRobot
      then es[k := es[k].(actions := es[k].actions + [action])]
      else es
    }

    /** One step of the loop in `PlanTurn`: giving entry k its planned
        command extends the turns taken, and the output, by that entry. */
    lemma TurnStep(before: seq<Entity>, previous: seq<Entity>, fallbacks: seq<Position>,
                   k: nat, action: Action)
      requires k < |before| == |previous| == |fallbacks|
      requires forall j :: 0 <= j < k ==> TookTurn(before[j], previous[j], fallbacks[j])
      requires forall j :: k <= j < |previous| ==> previous[j] == before[j]
      requires before[k].kind == EntityType.MyRobot ==> Planned(before[k], action, fallbacks[k])
      ensures forall j :: 0 <= j < k + 1 ==> TookTurn(before[j], Gave(previous, k, action)[j], fallbacks[j])
      ensures forall j :: k + 1 <= j < |previous| ==> Gave(previous, k, action)[j] == before[j]
      ensures Emitted(Gave(previous, k, action)[..k + 1])
        == Emitted(previous[..k])
           + (if before[k].kind == EntityType.MyRobot then [ActionToString(action)] else [])
    {
      var after := Gave(previous, k, action);
      TurnsKept(before, previous, after, fallbacks, k);
      assert after[..k + 1] == previous[..k] + [after[k]];
    }

    /** Replacing entry k of a registry leaves the turns already taken by
        the entries before it as they were. */
    lemma TurnsKept(before: seq<Entity>, previous: seq<Entity>, after: seq<Entity>,
                    fallbacks: seq<Position>, k: nat)
      requires k < |before| == |previous| == |after| == |fallbacks|
      requires forall j :: 0 <= j < k ==> TookTurn(before[j], previous[j], fallbacks[j])
      requires forall j :: 0 <= j < |after| && j != k ==> after[j] == previous[j]
      ensures forall j :: 0 <= j < k ==> TookTurn(before[j], after[j], fallbacks[j])
    {
    }

    /** A turn keeps every id and leaves every recorded `Dig` with a target. */
    lemma TurnKeepsRegistryValid(before: seq<Entity>, after: seq<Entity>, fallbacks: seq<Position>)
      requires |after| == |before| == |fallbacks|
      requires UniqueIds(before) && AllDigsHaveTargets(before)
      requires forall k :: 0 <= k < |after| ==> TookTurn(before[k], after[k], fallbacks[k])
      ensures UniqueIds(after) && AllDigsHaveTargets(after)
    {
      forall k | 0 <= k < |after|
        ensures after[k].id == before[k].id && DigsHaveTargets(after[k])
      {
        assert TookTurn(before[k], after[k], fallbacks[k]);
        if before[k].kind == EntityType.MyRobot {
          var a := after[k].actions[|before[k].actions|];
          PlannedDigHasTarget(before[k], a, fallbacks[k]);
        }
      }
    }

    /** `Game::moveEntities`: revises the estimates, then plans the turn. */
    method MoveEntities(fallbacks: seq<Position>) returns (output: seq<string>)
      requires Valid()
      requires |fallbacks| == |entities|
      requires forall k :: 0 <= k < |fallbacks| ==> fallbacks[k].x < n && fallbacks[k].y < m
      modifies this, estimates
      ensures Valid()
      ensures grid == old(grid) && estimates == old(estimates) && m == old(m) && n == old(n)
      ensures radarCooldown == old(radarCooldown) && trapCooldown == old(trapCooldown)
      ensures forall i, j :: 0 <= i < m && 0 <= j < n ==>
        estimates[i, j] == RevisedEstimate(old(estimates[i, j]), grid.cells[i, j], Position(j, i),
                                           SuccessfulDigs(old(entities)), FruitlessDigs(old(entities)))
      ensures |entities| == |old(entities)|
      ensures forall k :: 0 <= k < |entities| ==> TookTurn(old(entities)[k], entities[k], fallbacks[k])
      ensures output == Emitted(entities)
    {
      UpdateEstimates();
      var after;
      after, output := PlanTurn(entities, fallbacks);
      TurnKeepsRegistryValid(entities, after, fallbacks);
      entities := after;
    }
  }
}
