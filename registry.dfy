/** The entity registry: every unit the driver has reported, keyed by id, with
    the history of commands the bot gave each of its own robots. */
module Registry {
  import opened Wrappers
  import opened FixedWidth
  import opened Geometry
  import opened Protocol

  datatype Entity = Entity(id: U32, kind: EntityType, dead: bool, p: Position, item: ItemType, actions: seq<Action>)

  /** One entity tuple of the turn's input, its numbers already read: id,
      kind code, x, y and item code. */
  datatype EntityRecord = EntityRecord(id: U32, typeCode: U32, x: S32, y: S32, itemCode: S32)

  /** `readEntity`. A coordinate of -1 marks the entity dead and leaves that
      coordinate at its default 0; any other coordinate is cast to unsigned.
      The kind is decoded before the item, so a bad kind code is the error
      reported when both codes are bad. */
  function ReadEntity(rec: EntityRecord): (r: Result<Entity>)
    ensures r.Ok? <==> ReadEntityType(rec.typeCode).Ok? && ReadItemType(rec.itemCode).Ok?
    ensures ReadEntityType(rec.typeCode).Err? ==> r == Err("Not a valid unit type.")
    ensures ReadEntityType(rec.typeCode).Ok? && ReadItemType(rec.itemCode).Err? ==> r == Err("Not a valid item type.")
    ensures r.Ok? ==> r.value.id == rec.id && r.value.actions == []
    ensures r.Ok? ==> EntityTypeCode(r.value.kind) == rec.typeCode && ItemTypeCode(r.value.item) == rec.itemCode
    ensures r.Ok? ==> (r.value.dead <==> rec.x == -1 || rec.y == -1)
    ensures r.Ok? ==> (rec.x == -1 ==> r.value.p.x == 0) && (rec.x != -1 ==> r.value.p.x == S32ToU32(rec.x))
    ensures r.Ok? ==> (rec.y == -1 ==> r.value.p.y == 0) && (rec.y != -1 ==> r.value.p.y == S32ToU32(rec.y))
  {
    match ReadEntityType(rec.typeCode)
    case Err(msg) => Err(msg)
    case Ok(kind) =>
      var dead := rec.x == -1 || rec.y == -1;
      var x := if rec.x == -1 then 0 else S32ToU32(rec.x);
      var y := if rec.y == -1 then 0 else S32ToU32(rec.y);
      match ReadItemType(rec.itemCode)
      case Err(msg) => Err(msg)
      case Ok(item) => Ok(Entity(rec.id, kind, dead, Position(x, y), item, []))
  }

  /** Decodes the turn's tuples in order, stopping at the first bad one. */
  function DecodeAll(records: seq<EntityRecord>): Result<seq<Entity>>
  {
    if records == [] then Ok([])
    else
      match DecodeAll(records[..|records| - 1])
      case Err(msg) => Err(msg)
      case Ok(es) =>
        match ReadEntity(records[|records| - 1])
        case Err(msg) => Err(msg)
        case Ok(e) => Ok(es + [e])
  }

  /** Decoding all tuples succeeds exactly when each one decodes, and then
      yields each tuple's entity at its own index. */
  lemma {:induction false} DecodeAllSucceeds(records: seq<EntityRecord>)
    ensures DecodeAll(records).Ok? <==> forall k :: 0 <= k < |records| ==> ReadEntity(records[k]).Ok?
    ensures DecodeAll(records).Ok? ==>
      |DecodeAll(records).value| == |records| &&
      forall k :: 0 <= k < |records| ==> DecodeAll(records).value[k] == ReadEntity(records[k]).value
  {
    if records != [] {
      var init := records[..|records| - 1];
      DecodeAllSucceeds(init);
      assert forall k :: 0 <= k < |init| ==> init[k] == records[k];
    }
  }

  // ---------------------------------------------------------------------
  // Upsert by id

  /** Overwrites what the driver reports about an entity, keeping its id and
      its command history. */
  function Refresh(existing: Entity, seen: Entity): Entity
  {
    existing.(kind := seen.kind, dead := seen.dead, p := seen.p, item := seen.item)
  }

  /** The index of the first entry with the given id, or the registry's
      length when there is none. */
  function FirstIndexOf(reg: seq<Entity>, id: U32): (k: nat)
    ensures k <= |reg|
    ensures k < |reg| ==> reg[k].id == id
    ensures forall j :: 0 <= j < k ==> reg[j].id != id
  {
    if reg == [] then 0
    else if reg[0].id == id then 0
    else 1 + FirstIndexOf(reg[1..], id)
  }

  /** One step of `Game::updateEntities`: the first entry with the same id is
      refreshed in place; an unknown id is appended. */
  function Upsert(reg: seq<Entity>, e: Entity): seq<Entity>
  {
    var k := FirstIndexOf(reg, e.id);
    if k < |reg| then reg[k := Refresh(reg[k], e)] else reg + [e]
  }

  /** The registry after upserting each of `es` in order. */
  function UpsertAll(reg: seq<Entity>, es: seq<Entity>): seq<Entity>
  {
    if es == [] then reg else Upsert(UpsertAll(reg, es[..|es| - 1]), es[|es| - 1])
  }

  predicate HasId(reg: seq<Entity>, id: U32)
  {
    exists k :: 0 <= k < |reg| && reg[k].id == id
  }

  /** Some entity of a turn has the given id. */
  predicate Observed(es: seq<Entity>, id: U32)
  {
    exists j :: 0 <= j < |es| && es[j].id == id
  }

  predicate UniqueIds(reg: seq<Entity>)
  {
    forall a, b :: 0 <= a < b < |reg| ==> reg[a].id != reg[b].id
  }

  /** Every `Dig` the entity was given names a target cell. */
  predicate DigsHaveTargets(e: Entity)
  {
    forall j :: 0 <= j < |e.actions| ==> e.actions[j].kind == ActionType.Dig ==> e.actions[j].p.Some?
  }

  predicate AllDigsHaveTargets(reg: seq<Entity>)
  {
    forall k :: 0 <= k < |reg| ==> DigsHaveTargets(reg[k])
  }

  /** After an upsert the registry holds the entity's id with exactly the
      fields just observed; every earlier entry keeps its index, its id and
      its history; and the registry grows by at most one entry. */
  lemma UpsertRecords(reg: seq<Entity>, e: Entity)
    ensures var r := Upsert(reg, e);
      |reg| <= |r| <= |reg| + 1 &&
      (HasId(reg, e.id) <==> |r| == |reg|) &&
      (!HasId(reg, e.id) ==> r == reg + [e]) &&
      (forall k :: 0 <= k < |reg| ==> r[k].id == reg[k].id && r[k].actions == reg[k].actions) &&
      (forall k :: 0 <= k < |reg| && reg[k].id != e.id ==> r[k] == reg[k]) &&
      (exists k :: 0 <= k < |r| && r[k] == Refresh(r[k], e) && r[k].id == e.id)
  {
    var k := FirstIndexOf(reg, e.id);
    if k == |reg| {
      assert Upsert(reg, e)[|reg|] == e;
    } else {
      assert Upsert(reg, e)[k] == Refresh(reg[k], e);
    }
  }

  /** Upserting keeps ids unique. */
  lemma UpsertKeepsUniqueIds(reg: seq<Entity>, e: Entity)
    requires UniqueIds(reg)
    ensures UniqueIds(Upsert(reg, e))
  {
  }

  /** Upserting an entity with no history keeps every recorded `Dig` targeted. */
  lemma UpsertKeepsDigTargets(reg: seq<Entity>, e: Entity)
    requires AllDigsHaveTargets(reg) && e.actions == []
    ensures AllDigsHaveTargets(Upsert(reg, e))
  {
    var k := FirstIndexOf(reg, e.id);
    if k < |reg| {
      assert Upsert(reg, e)[k].actions == reg[k].actions;
    }
  }

  /** A turn's upserts keep ids unique. */
  lemma {:induction false} UpsertAllKeepsUniqueIds(reg: seq<Entity>, es: seq<Entity>)
    requires UniqueIds(reg)
    ensures UniqueIds(UpsertAll(reg, es))
  {
    if es != [] {
      UpsertAllKeepsUniqueIds(reg, es[..|es| - 1]);
      UpsertKeepsUniqueIds(UpsertAll(reg, es[..|es| - 1]), es[|es| - 1]);
    }
  }

  /** A turn's upserts of freshly decoded entities keep every recorded `Dig`
      targeted. */
  lemma {:induction false} UpsertAllKeepsDigTargets(reg: seq<Entity>, es: seq<Entity>)
    requires AllDigsHaveTargets(reg)
    requires forall j :: 0 <= j < |es| ==> es[j].actions == []
    ensures AllDigsHaveTargets(UpsertAll(reg, es))
  {
    if es != [] {
      UpsertAllKeepsDigTargets(reg, es[..|es| - 1]);
      UpsertKeepsDigTargets(UpsertAll(reg, es[..|es| - 1]), es[|es| - 1]);
    }
  }

  /** A turn's upserts never move, rename or forget an entry: each earlier
      entity keeps its index, its id and its command history, and at most
      one entry is appended per observed entity. */
  lemma {:induction false} UpsertAllKeepsEntries(reg: seq<Entity>, es: seq<Entity>)
    ensures var r := UpsertAll(reg, es);
      |reg| <= |r| <= |reg| + |es| &&
      (forall k :: 0 <= k < |reg| ==> r[k].id == reg[k].id && r[k].actions == reg[k].actions) &&
      (forall k :: 0 <= k < |reg| && !Observed(es, reg[k].id) ==> r[k] == reg[k])
  {
    if es != [] {
      UpsertAllKeepsEntries(reg, es[..|es| - 1]);
      UpsertRecords(UpsertAll(reg, es[..|es| - 1]), es[|es| - 1]);
    }
  }

  /** After a turn's upserts, every observed id is in the registry. */
  lemma {:induction false} UpsertAllKnowsObservedIds(reg: seq<Entity>, es: seq<Entity>)
    ensures forall j :: 0 <= j < |es| ==> HasId(UpsertAll(reg, es), es[j].id)
  {
    if es != [] {
      var init := es[..|es| - 1];
      UpsertAllKnowsObservedIds(reg, init);
      var before := UpsertAll(reg, init);
      UpsertRecords(before, es[|es| - 1]);
      forall j | 0 <= j < |es|
        ensures HasId(UpsertAll(reg, es), es[j].id)
      {
        if j < |es| - 1 {
          assert es[j] == init[j];
          var k :| 0 <= k < |before| && before[k].id == es[j].id;
          assert UpsertAll(reg, es)[k].id == es[j].id;
        }
      }
    }
  }
}
