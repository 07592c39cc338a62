/**
 * How the pieces meet: what the server makes of the messages the client scene
 * actually sends, and how a token issued at login fares at the HTTP gate.
 */
module Interplay {
  import opened Wrappers
  import opened Collision
  import opened GameServer
  import MainScene
  import AuthMiddleware
  import UserService

  /**
   * The server's view of the client's `collisionReport`: the client sends its
   * id, the sprite's name and the type, but no `player` or `object` rectangle.
   */
  function ClaimOf(m: MainScene.ClientMessage): Claim
    requires m.CollisionReport?
  {
    Claim(Some(m.playerId), Some(m.objectId), Some(m.kind), None, None)
  }

  /** The server's view of the client's `playerUpdate` { x, y, speed }. */
  function UpdateOf(m: MainScene.ClientMessage): PlayerUpdateData
    requires m.PlayerUpdate?
  {
    PlayerUpdateData(Some(m.x), Some(m.y), None, None)
  }

  /**
   * Every collision report the client scene sends, for an obstacle or an NPC,
   * lacks the rectangles the server checks, so the server answers it with
   * `invalidReport` alone and removes nothing: a client hit never yields a
   * slowdown or a game over from the server.
   */
  lemma ClientReportsAreMalformed(m: MainScene.ClientMessage, socketId: string, objects: map<string, GameObject>)
    requires m.CollisionReport?
    ensures Arbitrate(ClaimOf(m)) == Malformed
    ensures ReportReplies(socketId, ClaimOf(m)) == [Message(ToSocket(socketId), InvalidReport(InvalidReportMessage))]
    ensures AfterReport(objects, ClaimOf(m)) == objects
  {
  }

  /**
   * A position update from the client moves the player but never resizes it:
   * the payload carries no width or height, so the 40x80 of the connection
   * stays, and the `speed` field is dropped.
   */
  lemma ClientUpdateKeepsPlayerSize(socketId: string, prev: GameObject, x: real, y: real, speed: real, now: int)
    ensures var r := MergeUpdate(socketId, prev, UpdateOf(MainScene.PlayerUpdate(x, y, speed)), now);
            r == GameObject(socketId, x, y, prev.width, prev.height, now)
  {
  }

  /**
   * A token issued by findOrCreateUser, sent as "Bearer <token>", passes the
   * gate with the user's id, provided the verifier accepts what the generator
   * issued and the token holds no space (a JWT has none).
   */
  lemma IssuedTokenPassesGate(t: UserService.UserTable, name: string, issue: nat -> string,
                              verify: string -> Option<AuthMiddleware.Decoded>)
    requires UserService.ValidTable(t) && UserService.DistinctIds(t)
    requires UserService.FindOrCreate(t, name, issue).result.Success?
    requires var id := UserService.FindOrCreate(t, name, issue).result.value.id;
             ' ' !in issue(id) && verify(issue(id)) == Some(AuthMiddleware.Decoded(Some(AuthMiddleware.NumberId(id))))
    ensures var resp := UserService.FindOrCreate(t, name, issue).result.value;
            AuthMiddleware.Authenticate(Some(AuthMiddleware.BearerPrefix + resp.token), verify)
              == AuthMiddleware.Proceed(AuthMiddleware.NumberId(resp.id))
  {
    UserService.FindOrCreateCases(t, name, issue);
    var resp := UserService.FindOrCreate(t, name, issue).result.value;
    var header := AuthMiddleware.BearerPrefix + resp.token;
    assert header[|AuthMiddleware.BearerPrefix|..] == resp.token;
    assert AuthMiddleware.StartsWith(header, AuthMiddleware.BearerPrefix);
    AuthMiddleware.BearerToken(resp.token);
  }
}
