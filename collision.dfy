/**
 * The game server's collision arbitration (server/src/server.ts): the shape of
 * a collision claim as it arrives over the socket, the AABB check on the
 * claim's own rectangles, and the verdict and replies a claim yields.
 *
 * A claim arrives as untyped JSON. A coordinate or size field holds what the
 * sender put there: nothing, `null`, a boolean or a number. JavaScript's `+`,
 * `<` and `>` read `null` as 0 and a boolean as 0 or 1, while an absent field
 * reads as NaN, which makes a sum NaN and every comparison with it false.
 */
module Collision {
  import opened Wrappers
  import opened Geometry

  /** Damage fixed by the server for a confirmed obstacle hit. */
  const ObstacleDamage: int := 25

  const InvalidReportMessage: string := "Dados de colisão inválidos."

  /** A JSON value in a numeric slot of a payload. */
  datatype JsValue = Undefined | Null | Bool(b: bool) | Num(n: real)

  /** The number `+`, `<` and `>` read from a value; `None` stands for NaN. */
  function ToNumber(v: JsValue): Option<real>
  {
    match v
    case Undefined => None
    case Null => Some(0.0)
    case Bool(b) => Some(if b then 1.0 else 0.0)
    case Num(n) => Some(n)
  }

  /**
   * A rectangle payload of a claim, field by field. A payload that is a
   * primitive rather than an object has every field undefined.
   */
  datatype RawRect = RawRect(x: JsValue, y: JsValue, width: JsValue, height: JsValue)

  /**
   * The `collisionReport` payload: `NoPayload` when the event carries nothing or
   * `null`; otherwise every field may be missing (`obj` is the payload's `object`,
   * and a `player` or `object` that is absent or `null` is `None`).
   */
  datatype Claim =
    | NoPayload
    | Claim(
        playerId: Option<string>,
        objectId: Option<string>,
        kind: Option<string>,
        player: Option<RawRect>,
        obj: Option<RawRect>)

  /** `a + b` on non-string operands: the sum of their numbers, NaN if either is NaN. */
  function Add(a: JsValue, b: JsValue): Option<real>
  {
    var x, y := ToNumber(a), ToNumber(b);
    if x.Some? && y.Some? then Some(x.value + y.value) else None
  }

  /** `<` on numbers: any comparison with undefined or NaN is false. */
  predicate Lt(a: Option<real>, b: Option<real>)
  {
    a.Some? && b.Some? && a.value < b.value
  }

  predicate Gt(a: Option<real>, b: Option<real>)
  {
    a.Some? && b.Some? && a.value > b.value
  }

  /** JavaScript truthiness of an optional string: present and non-empty. */
  predicate Truthy(s: Option<string>)
  {
    s.Some? && s.value != ""
  }

  /** Every field reads as a number: none is absent. */
  predicate Numeric(r: RawRect)
  {
    !r.x.Undefined? && !r.y.Undefined? && !r.width.Undefined? && !r.height.Undefined?
  }

  /** The rectangle the comparisons see, with `null` and booleans coerced. */
  function RectOf(r: RawRect): Rect
    requires Numeric(r)
  {
    Rect(ToNumber(r.x).value, ToNumber(r.y).value, ToNumber(r.width).value, ToNumber(r.height).value)
  }

  /** checkAABBCollision: false for an absent operand, otherwise the strict test. */
  predicate CheckAABBCollision(obj1: Option<RawRect>, obj2: Option<RawRect>)
  {
    if obj1.None? || obj2.None? then false
    else
      var a, b := obj1.value, obj2.value;
      && Lt(ToNumber(a.x), Add(b.x, b.width))
      && Gt(Add(a.x, a.width), ToNumber(b.x))
      && Lt(ToNumber(a.y), Add(b.y, b.height))
      && Gt(Add(a.y, a.height), ToNumber(b.y))
  }

  /**
   * On operands without absent fields the check is exactly the geometric
   * overlap of the coerced rectangles.
   */
  lemma CheckAABBCollisionOnNumbers(obj1: RawRect, obj2: RawRect)
    requires Numeric(obj1) && Numeric(obj2)
    ensures CheckAABBCollision(Some(obj1), Some(obj2)) <==> Overlaps(RectOf(obj1), RectOf(obj2))
  {
  }

  /** The check fails closed: an absent operand or an absent field gives false. */
  lemma CheckAABBCollisionFailsClosed(obj1: Option<RawRect>, obj2: Option<RawRect>)
    requires obj1.None? || obj2.None? || !Numeric(obj1.value) || !Numeric(obj2.value)
    ensures !CheckAABBCollision(obj1, obj2)
  {
  }

  /** The check is symmetric in its operands, absent and malformed ones included. */
  lemma CheckAABBCollisionSymmetric(obj1: Option<RawRect>, obj2: Option<RawRect>)
    ensures CheckAABBCollision(obj1, obj2) <==> CheckAABBCollision(obj2, obj1)
  {
  }

  /** The outcome carried by a `collisionResult` reply. */
  datatype Outcome = Slowdown | GameOver | Invalid

  /**
   * What the server makes of a claim: refused as malformed, decided with an
   * outcome, or left unanswered (an overlapping claim whose type is neither
   * "obstacle" nor "npc" matches no branch and gets no reply). A missing
   * payload throws a TypeError at the destructuring, before the gate.
   */
  datatype Verdict = Malformed | Decided(outcome: Outcome) | Unanswered | Thrown

  /** The fail-fast gate: the fields the server insists on. */
  predicate WellFormed(c: Claim)
  {
    && c.Claim?
    && Truthy(c.playerId) && Truthy(c.objectId) && Truthy(c.kind)
    && c.player.Some? && c.obj.Some?
    && c.player.value.x.Num? && c.obj.value.x.Num?
  }

  function Arbitrate(c: Claim): (v: Verdict)
    ensures v == Thrown <==> c.NoPayload?
    ensures v == Malformed <==> c.Claim? && !WellFormed(c)
    ensures v == Decided(Slowdown) <==>
              WellFormed(c) && CheckAABBCollision(c.player, c.obj) && c.kind.value == "obstacle"
    ensures v == Decided(GameOver) <==>
              WellFormed(c) && CheckAABBCollision(c.player, c.obj) && c.kind.value == "npc"
    ensures v == Decided(Invalid) <==> WellFormed(c) && !CheckAABBCollision(c.player, c.obj)
  {
    if c.NoPayload? then Thrown
    else if !WellFormed(c) then Malformed
    else if CheckAABBCollision(c.player, c.obj) then
      if c.kind.value == "obstacle" then Decided(Slowdown)
      else if c.kind.value == "npc" then Decided(GameOver)
      else Unanswered
    else Decided(Invalid)
  }

  /** Where a server emit goes: the reporting socket, everyone but it, or everyone. */
  datatype Target = ToSocket(socketId: string) | ToOthers(except: string) | ToAll

  /** The record the server keeps for a player or a dynamic object. */
  datatype GameObject = GameObject(id: string, x: real, y: real, width: real, height: real, lastUpdate: int)

  function Bounds(o: GameObject): Rect
  {
    Rect(o.x, o.y, o.width, o.height)
  }

  function AsPayload(o: GameObject): RawRect
  {
    RawRect(Num(o.x), Num(o.y), Num(o.width), Num(o.height))
  }

  /** The server-to-client events of the game protocol. */
  datatype Event =
    | GameInit(playerId: string, players: map<string, GameObject>, dynamicObjects: map<string, GameObject>)
    | PlayerJoined(player: GameObject)
    | PlayerMoved(movedId: string, playerData: GameObject)
    | EnemiesMoved(objects: map<string, GameObject>)
    | InvalidReport(message: string)
    | CollisionResult(outcome: Outcome, objectId: string, damage: Option<int>)
    | ObjectDestroyed(destroyedId: string)
    | PlayerDisconnected(leftId: string)

  datatype Message = Message(target: Target, event: Event)

  /** The replies to a claim from `socketId`, in emission order. */
  function ReportReplies(socketId: string, c: Claim): (out: seq<Message>)
    ensures Arbitrate(c) == Malformed ==>
              out == [Message(ToSocket(socketId), InvalidReport(InvalidReportMessage))]
    ensures Arbitrate(c) == Decided(Slowdown) ==>
              out == [Message(ToSocket(socketId), CollisionResult(Slowdown, c.objectId.value, Some(ObstacleDamage))),
                      Message(ToAll, ObjectDestroyed(c.objectId.value))]
    ensures Arbitrate(c) == Decided(GameOver) ==>
              out == [Message(ToSocket(socketId), CollisionResult(GameOver, c.objectId.value, None))]
    ensures Arbitrate(c) == Decided(Invalid) ==>
              out == [Message(ToSocket(socketId), CollisionResult(Invalid, c.objectId.value, None))]
    ensures Arbitrate(c) == Unanswered || Arbitrate(c) == Thrown ==> out == []
  {
    match Arbitrate(c)
    case Malformed => [Message(ToSocket(socketId), InvalidReport(InvalidReportMessage))]
    case Decided(Slowdown) =>
      [Message(ToSocket(socketId), CollisionResult(Slowdown, c.objectId.value, Some(ObstacleDamage))),
       Message(ToAll, ObjectDestroyed(c.objectId.value))]
    case Decided(outcome) => [Message(ToSocket(socketId), CollisionResult(outcome, c.objectId.value, None))]
    case Unanswered => []
    case Thrown => []
  }

  /** The dynamic-object registry after a claim: only a slowdown removes its object. */
  function AfterReport(objects: map<string, GameObject>, c: Claim): (r: map<string, GameObject>)
    ensures Arbitrate(c) == Decided(Slowdown) ==>
              r.Keys == objects.Keys - {c.objectId.value}
    ensures forall k :: k in r ==> k in objects && r[k] == objects[k]
    ensures Arbitrate(c) != Decided(Slowdown) ==> r == objects
  {
    if Arbitrate(c) == Decided(Slowdown) then objects - {c.objectId.value} else objects
  }

  /**
   * A confirmed obstacle claim produces exactly one `collisionResult`, a slowdown
   * with the server's damage, to the reporter, followed by exactly one
   * `objectDestroyed` broadcast to everyone; no other verdict broadcasts.
   */
  lemma SlowdownRepliesThenBroadcasts(socketId: string, c: Claim)
    ensures var out := ReportReplies(socketId, c);
            (exists i :: 0 <= i < |out| && out[i].target == ToAll) <==> Arbitrate(c) == Decided(Slowdown)
    ensures var out := ReportReplies(socketId, c);
            Arbitrate(c) == Decided(Slowdown) ==>
              && |out| == 2
              && out[0].target == ToSocket(socketId) && out[0].event.CollisionResult?
              && out[0].event.outcome == Slowdown && out[0].event.damage == Some(25)
              && out[1].event == ObjectDestroyed(c.objectId.value)
  {
    if Arbitrate(c) == Decided(Slowdown) {
      assert ReportReplies(socketId, c)[1].target == ToAll;
    }
  }

  /**
   * The server judges overlap on the rectangles inside the claim, whatever it
   * holds itself: two claims that differ only in their identities and type but
   * carry the same rectangles reach the same overlap decision.
   */
  lemma VerdictDependsOnClaimedGeometry(c1: Claim, c2: Claim)
    requires WellFormed(c1) && WellFormed(c2)
    requires c1.player == c2.player && c1.obj == c2.obj
    requires c1.kind == c2.kind
    ensures Arbitrate(c1) == Arbitrate(c2)
  {
  }

  /**
   * The two worked claims: a 40x80 player at (100,100) against a 50x50 obstacle
   * at (110,120) slows down with damage 25; a 10x10 player at the origin and a
   * 10x10 NPC at (100,100) do not overlap, so that claim is invalid.
   */
  lemma WorkedClaims()
    ensures Arbitrate(Claim(Some("p"), Some("o"), Some("obstacle"),
                            Some(RawRect(Num(100.0), Num(100.0), Num(40.0), Num(80.0))),
                            Some(RawRect(Num(110.0), Num(120.0), Num(50.0), Num(50.0)))))
            == Decided(Slowdown)
    ensures Arbitrate(Claim(Some("p"), Some("n"), Some("npc"),
                            Some(RawRect(Num(0.0), Num(0.0), Num(10.0), Num(10.0))),
                            Some(RawRect(Num(100.0), Num(100.0), Num(10.0), Num(10.0)))))
            == Decided(Invalid)
  {
  }

  /**
   * Only `x` is type-checked by the gate: a `null` y counts as 0, so a 10x10
   * player at (0, null) against a 10x10 obstacle at the origin is a slowdown,
   * while the same claim with y left out is invalid; a `null` x is malformed.
   */
  lemma NullFieldsReadAsZero()
    ensures Arbitrate(Claim(Some("p"), Some("o"), Some("obstacle"),
                            Some(RawRect(Num(0.0), Null, Num(10.0), Num(10.0))),
                            Some(RawRect(Num(0.0), Num(0.0), Num(10.0), Num(10.0)))))
            == Decided(Slowdown)
    ensures Arbitrate(Claim(Some("p"), Some("o"), Some("obstacle"),
                            Some(RawRect(Num(0.0), Undefined, Num(10.0), Num(10.0))),
                            Some(RawRect(Num(0.0), Num(0.0), Num(10.0), Num(10.0)))))
            == Decided(Invalid)
    ensures Arbitrate(Claim(Some("p"), Some("o"), Some("obstacle"),
                            Some(RawRect(Null, Num(0.0), Num(10.0), Num(10.0))),
                            Some(RawRect(Num(0.0), Num(0.0), Num(10.0), Num(10.0)))))
            == Malformed
  {
  }
}
