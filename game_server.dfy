/**
 * The game server's in-memory world (server/src/server.ts): the registry of
 * connected players and of dynamic objects (obstacles and NPCs spawned by the
 * clients), and the socket handlers that change it. Each handler returns the
 * messages it emits, in order; the clock (`Date.now()`) and the random spawn
 * position are parameters.
 */
module GameServer {
  import opened Wrappers
  import opened Geometry
  import opened Collision

  /** Width and height of a newly connected player (the client's collider). */
  const PlayerWidth: real := 40.0
  const PlayerHeight: real := 80.0

  /** The `playerUpdate` payload: a field left undefined is `None`. */
  datatype PlayerUpdateData = PlayerUpdateData(x: Option<real>, y: Option<real>, width: Option<real>, height: Option<real>)

  /** An element of an `enemyUpdate` array: null/undefined, or an object whose fields may be missing. */
  datatype RawEnemy = Missing | RawEnemy(id: Option<string>, x: Option<real>, y: Option<real>, width: Option<real>, height: Option<real>)

  /** The `enemyUpdate` payload is either an array or something else. */
  datatype EnemyPayload = NotAnArray | EnemyArray(enemies: seq<RawEnemy>)

  function Pick(given: Option<real>, kept: real): real
  {
    if given.Some? then given.value else kept
  }

  /** The record a `playerUpdate` leaves for a known player. */
  function MergeUpdate(socketId: string, prev: GameObject, data: PlayerUpdateData, now: int): (r: GameObject)
    ensures r.id == socketId && r.lastUpdate == now
    ensures (data.x.Some? ==> r.x == data.x.value) && (data.x.None? ==> r.x == prev.x)
    ensures (data.y.Some? ==> r.y == data.y.value) && (data.y.None? ==> r.y == prev.y)
    ensures (data.width.Some? ==> r.width == data.width.value) && (data.width.None? ==> r.width == prev.width)
    ensures (data.height.Some? ==> r.height == data.height.value) && (data.height.None? ==> r.height == prev.height)
  {
    GameObject(socketId, Pick(data.x, prev.x), Pick(data.y, prev.y),
               Pick(data.width, prev.width), Pick(data.height, prev.height), now)
  }

  /** The guard of `enemyUpdate`: a string id and four numeric fields. */
  predicate ValidEnemy(e: RawEnemy)
  {
    e.RawEnemy? && e.id.Some? && e.x.Some? && e.y.Some? && e.width.Some? && e.height.Some?
  }

  /**
   * The one key an assignment to a plain object does not store: writing
   * `obj["__proto__"]` runs the inherited setter, which replaces the object's
   * prototype and adds no own property.
   */
  const ProtoKey: string := "__proto__"

  /** `objects[e.id] = { ...e, lastUpdate: stamp }` for an entry that passed the guard. */
  function Upsert(objects: map<string, GameObject>, e: RawEnemy, stamp: int): map<string, GameObject>
  {
    if ValidEnemy(e) && e.id.value != ProtoKey then
      objects[e.id.value := GameObject(e.id.value, e.x.value, e.y.value, e.width.value, e.height.value, stamp)]
    else objects
  }

  /**
   * The registry after the `forEach` over a payload: each entry in turn, a
   * later one winning. `clock(i)` is the `Date.now()` read while handling entry i.
   */
  function UpsertEnemies(objects: map<string, GameObject>, es: seq<RawEnemy>, clock: nat -> int): (r: map<string, GameObject>)
    ensures objects.Keys <= r.Keys
  {
    if es == [] then objects
    else Upsert(UpsertEnemies(objects, es[..|es| - 1], clock), es[|es| - 1], clock(|es| - 1))
  }

  /** Some valid entry of `es` carries identifier `k`. */
  predicate Names(es: seq<RawEnemy>, k: string)
  {
    exists i :: 0 <= i < |es| && ValidEnemy(es[i]) && es[i].id.value == k
  }

  /** Dropping a last entry that does not name `k` keeps whether `k` is named. */
  lemma NamesWithoutLast(es: seq<RawEnemy>, k: string)
    requires es != [] && !(ValidEnemy(es[|es| - 1]) && es[|es| - 1].id.value == k)
    ensures Names(es, k) <==> Names(es[..|es| - 1], k)
  {
    var init := es[..|es| - 1];
    if Names(es, k) {
      var i :| 0 <= i < |es| && ValidEnemy(es[i]) && es[i].id.value == k;
      assert init[i] == es[i];
    }
    if Names(init, k) {
      var i :| 0 <= i < |init| && ValidEnemy(init[i]) && init[i].id.value == k;
      assert es[i] == init[i];
    }
  }

  /** An identifier no valid entry names, and "__proto__", keeps its registry entry (or its absence). */
  lemma {:induction false} UpsertEnemiesUntouched(objects: map<string, GameObject>, es: seq<RawEnemy>, clock: nat -> int, k: string)
    requires !Names(es, k) || k == ProtoKey
    ensures k in UpsertEnemies(objects, es, clock) <==> k in objects
    ensures k in objects ==> UpsertEnemies(objects, es, clock)[k] == objects[k]
  {
    if es != [] {
      var e := es[|es| - 1];
      if k != ProtoKey {
        assert !(ValidEnemy(e) && e.id.value == k);
        NamesWithoutLast(es, k);
      }
      UpsertEnemiesUntouched(objects, es[..|es| - 1], clock, k);
    }
  }

  /** An identifier other than "__proto__" that valid entries name holds the last such entry, with its own stamp. */
  lemma {:induction false} UpsertEnemiesLastWins(objects: map<string, GameObject>, es: seq<RawEnemy>, clock: nat -> int, k: string)
    requires Names(es, k) && k != ProtoKey
    ensures exists i :: 0 <= i < |es| && ValidEnemy(es[i]) && es[i].id.value == k
              && (forall j :: i < j < |es| ==> !(ValidEnemy(es[j]) && es[j].id.value == k))
              && k in UpsertEnemies(objects, es, clock)
              && UpsertEnemies(objects, es, clock)[k]
                 == GameObject(k, es[i].x.value, es[i].y.value, es[i].width.value, es[i].height.value, clock(i))
  {
    var init, e := es[..|es| - 1], es[|es| - 1];
    if ValidEnemy(e) && e.id.value == k {
      assert ValidEnemy(es[|es| - 1]) && es[|es| - 1].id.value == k;
    } else {
      NamesWithoutLast(es, k);
      UpsertEnemiesLastWins(objects, init, clock, k);
      var i :| 0 <= i < |init| && ValidEnemy(init[i]) && init[i].id.value == k
               && (forall j :: i < j < |init| ==> !(ValidEnemy(init[j]) && init[j].id.value == k))
               && k in UpsertEnemies(objects, init, clock)
               && UpsertEnemies(objects, init, clock)[k]
                  == GameObject(k, init[i].x.value, init[i].y.value, init[i].width.value, init[i].height.value, clock(i));
      assert es[i] == init[i];
      forall j | i < j < |es| ensures !(ValidEnemy(es[j]) && es[j].id.value == k) {
        if j < |init| { assert es[j] == init[j]; }
      }
    }
  }

  /**
   * What `enemyUpdate` does to one identifier: if a valid entry names it, the
   * registry holds the LAST such entry, stamped with the clock reading taken
   * for that entry; otherwise, and always for "__proto__", the entry is
   * untouched (malformed entries are skipped).
   */
  lemma UpsertEnemiesAt(objects: map<string, GameObject>, es: seq<RawEnemy>, clock: nat -> int, k: string)
    ensures !Names(es, k) || k == ProtoKey ==>
              (k in UpsertEnemies(objects, es, clock) <==> k in objects)
              && (k in objects ==> UpsertEnemies(objects, es, clock)[k] == objects[k])
    ensures Names(es, k) && k != ProtoKey ==>
              exists i :: 0 <= i < |es| && ValidEnemy(es[i]) && es[i].id.value == k
                && (forall j :: i < j < |es| ==> !(ValidEnemy(es[j]) && es[j].id.value == k))
                && k in UpsertEnemies(objects, es, clock)
                && UpsertEnemies(objects, es, clock)[k]
                   == GameObject(k, es[i].x.value, es[i].y.value, es[i].width.value, es[i].height.value, clock(i))
  {
    if !Names(es, k) || k == ProtoKey {
      UpsertEnemiesUntouched(objects, es, clock, k);
    } else {
      UpsertEnemiesLastWins(objects, es, clock, k);
    }
  }

  /**
   * A payload whose first entry is named "__proto__" and whose second is "a":
   * only "a" is registered, stamped with the reading taken for the second entry.
   */
  lemma ProtoEntryIsNotStored(clock: nat -> int)
    ensures var r := UpsertEnemies(map[], [RawEnemy(Some(ProtoKey), Some(1.0), Some(2.0), Some(3.0), Some(4.0)),
                                           RawEnemy(Some("a"), Some(5.0), Some(6.0), Some(7.0), Some(8.0))], clock);
            r == map["a" := GameObject("a", 5.0, 6.0, 7.0, 8.0, clock(1))]
  {
    var es := [RawEnemy(Some(ProtoKey), Some(1.0), Some(2.0), Some(3.0), Some(4.0)),
               RawEnemy(Some("a"), Some(5.0), Some(6.0), Some(7.0), Some(8.0))];
    assert es[..1][..0] == [];
    assert es[..|es| - 1] == es[..1];
    assert UpsertEnemies(map[], es[..1], clock) == map[];
    assert es[1].id.value != ProtoKey;
  }

  /** The world: players and dynamic objects, each keyed by identifier. */
  class Server {
    var players: map<string, GameObject>
    var dynamicObjects: map<string, GameObject>

    constructor ()
      ensures players == map[] && dynamicObjects == map[]
    {
      players := map[];
      dynamicObjects := map[];
    }

    /**
     * `connection`: registers a 40x80 player at the random spawn point, sends
     * the new socket the whole world and tells every other socket it joined.
     */
    method OnConnection(socketId: string, spawnX: int, spawnY: int, now: int) returns (out: seq<Message>)
      requires 0 <= spawnX < 200 && 0 <= spawnY < 200
      modifies this
      ensures players == old(players)[socketId := GameObject(socketId, spawnX as real, spawnY as real, PlayerWidth, PlayerHeight, now)]
      ensures dynamicObjects == old(dynamicObjects)
      ensures out == [Message(ToSocket(socketId), GameInit(socketId, players, dynamicObjects)),
                      Message(ToOthers(socketId), PlayerJoined(players[socketId]))]
    {
      players := players[socketId := GameObject(socketId, spawnX as real, spawnY as real, PlayerWidth, PlayerHeight, now)];
      out := [Message(ToSocket(socketId), GameInit(socketId, players, dynamicObjects))];
      out := out + [Message(ToOthers(socketId), PlayerJoined(players[socketId]))];
    }

    /**
     * `playerUpdate`: for a known socket, merges the provided fields and
     * broadcasts the new record to the others; for an unknown one changes
     * nothing and emits nothing.
     */
    method OnPlayerUpdate(socketId: string, data: PlayerUpdateData, now: int) returns (out: seq<Message>)
      modifies this
      ensures dynamicObjects == old(dynamicObjects)
      ensures socketId in old(players) ==>
                && players == old(players)[socketId := MergeUpdate(socketId, old(players)[socketId], data, now)]
                && out == [Message(ToOthers(socketId), PlayerMoved(socketId, players[socketId]))]
      ensures socketId !in old(players) ==> players == old(players) && out == []
    {
      if socketId in players {
        var previous := players[socketId];
        players := players[socketId := MergeUpdate(socketId, previous, data, now)];
        out := [Message(ToOthers(socketId), PlayerMoved(socketId, players[socketId]))];
      } else {
        out := [];
      }
    }

    /**
     * `enemyUpdate`: ignores a payload that is not an array; otherwise upserts
     * each valid entry in turn, stamped with the clock read for it, skips
     * malformed ones, and sends everyone the whole registry.
     */
    method OnEnemyUpdate(payload: EnemyPayload, clock: nat -> int) returns (out: seq<Message>)
      modifies this
      ensures players == old(players)
      ensures payload.NotAnArray? ==> dynamicObjects == old(dynamicObjects) && out == []
      ensures payload.EnemyArray? ==>
                && dynamicObjects == UpsertEnemies(old(dynamicObjects), payload.enemies, clock)
                && out == [Message(ToAll, EnemiesMoved(dynamicObjects))]
    {
      if payload.NotAnArray? {
        return [];
      }
      var es := payload.enemies;
      for i := 0 to |es|
        invariant players == old(players)
        invariant dynamicObjects == UpsertEnemies(old(dynamicObjects), es[..i], clock)
      {
        assert es[..i + 1][..i] == es[..i];
        var e := es[i];
        // The guard admits "__proto__", but assigning under it stores nothing.
        if ValidEnemy(e) && e.id.value != ProtoKey {
          var now := clock(i);
          dynamicObjects := dynamicObjects[e.id.value := GameObject(e.id.value, e.x.value, e.y.value, e.width.value, e.height.value, now)];
        }
      }
      assert es[..|es|] == es;
      out := [Message(ToAll, EnemiesMoved(dynamicObjects))];
    }

    /**
     * `collisionReport`: replies according to the verdict on the claim's own
     * rectangles; only a confirmed obstacle hit removes its object (the only
     * registry change), and players are never touched.
     */
    method OnCollisionReport(socketId: string, claim: Claim) returns (out: seq<Message>)
      modifies this
      ensures players == old(players)
      ensures dynamicObjects == AfterReport(old(dynamicObjects), claim)
      ensures out == ReportReplies(socketId, claim)
    {
      var verdict := Arbitrate(claim);
      match verdict {
        case Malformed =>
          out := [Message(ToSocket(socketId), InvalidReport(InvalidReportMessage))];
        case Decided(Slowdown) =>
          out := [Message(ToSocket(socketId), CollisionResult(Slowdown, claim.objectId.value, Some(ObstacleDamage)))];
          dynamicObjects := dynamicObjects - {claim.objectId.value};
          out := out + [Message(ToAll, ObjectDestroyed(claim.objectId.value))];
        case Decided(outcome) =>
          out := [Message(ToSocket(socketId), CollisionResult(outcome, claim.objectId.value, None))];
        case Unanswered =>
          out := [];
        case Thrown =>
          out := [];
      }
    }

    /** `disconnect`: removes exactly that player and tells everyone. */
    method OnDisconnect(socketId: string) returns (out: seq<Message>)
      modifies this
      ensures socketId !in players
      ensures players.Keys == old(players).Keys - {socketId}
      ensures forall k :: k in players ==> players[k] == old(players)[k]
      ensures dynamicObjects == old(dynamicObjects)
      ensures out == [Message(ToAll, PlayerDisconnected(socketId))]
    {
      players := players - {socketId};
      out := [Message(ToAll, PlayerDisconnected(socketId))];
    }

    /**
     * validateCollision: the older check against the server's own records;
     * false when either identifier is unknown.
     */
    predicate ValidateCollision(playerId: string, objectId: string)
      reads this
      ensures ValidateCollision(playerId, objectId) <==>
                playerId in players && objectId in dynamicObjects
                && Overlaps(Bounds(players[playerId]), Bounds(dynamicObjects[objectId]))
    {
      playerId in players && objectId in dynamicObjects
      && CheckAABBCollision(Some(AsPayload(players[playerId])), Some(AsPayload(dynamicObjects[objectId])))
    }
  }
}
