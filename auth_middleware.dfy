/**
 * The HTTP authentication gate (server/src/middlewares/authMiddleware.ts): it
 * reads the Authorization header, insists on the "Bearer " prefix, takes the
 * second space-separated segment as the token and asks the token verifier for
 * the user id. The verifier (a JWT check) is a parameter of the model. The
 * gate either answers 401 with a message or passes the request on with the
 * user id set; the two are the constructors of `AuthOutcome`, so every call
 * does exactly one of them.
 */
module AuthMiddleware {
  import opened Wrappers

  const BearerPrefix: string := "Bearer "
  const UnauthorizedStatus: int := 401
  const MissingTokenMessage: string := "Token de autenticação não fornecido ou mal formatado."
  const InvalidTokenMessage: string := "Token inválido ou expirado."

  /** The `userId` claim of a decoded token: a number or a string. */
  datatype UserIdValue = NumberId(n: int) | StringId(s: string)

  /** A decoded token payload; its `userId` may be missing. */
  datatype Decoded = Decoded(userId: Option<UserIdValue>)

  /** JavaScript truthiness of the `userId` claim. */
  predicate TruthyId(v: Option<UserIdValue>)
  {
    match v
    case None => false
    case Some(NumberId(n)) => n != 0
    case Some(StringId(s)) => s != ""
  }

  datatype AuthOutcome =
    | Rejected(status: int, message: string)
    | Proceed(userId: UserIdValue)

  predicate StartsWith(s: string, prefix: string)
  {
    |prefix| <= |s| && s[..|prefix|] == prefix
  }

  /** `String.prototype.split` with a one-character separator. */
  function Split(s: string, sep: char): (parts: seq<string>)
    ensures |parts| >= 1
    ensures forall i :: 0 <= i < |parts| ==> sep !in parts[i]
    decreases |s|
  {
    if s == [] then [""]
    else
      var rest := Split(s[1..], sep);
      if s[0] == sep then [""] + rest
      else [[s[0]] + rest[0]] + rest[1..]
  }

  /** `Array.prototype.join` with a one-character separator. */
  function Join(parts: seq<string>, sep: char): string
    requires |parts| >= 1
    decreases |parts|
  {
    if |parts| == 1 then parts[0] else parts[0] + [sep] + Join(parts[1..], sep)
  }

  /** Splitting loses nothing: joining the parts gives the string back. */
  lemma {:induction false} JoinSplit(s: string, sep: char)
    ensures Join(Split(s, sep), sep) == s
    decreases |s|
  {
    if s != [] {
      var rest := Split(s[1..], sep);
      JoinSplit(s[1..], sep);
      if s[0] == sep {
        assert ([""] + rest)[1..] == rest;
      } else {
        var parts := [[s[0]] + rest[0]] + rest[1..];
        if |rest| > 1 {
          assert parts[1..] == rest[1..];
        }
      }
    }
  }

  /** A word without the separator, followed by the separator, is split off whole. */
  lemma {:induction false} SplitAfterWord(w: string, sep: char, t: string)
    requires sep !in w
    ensures Split(w + [sep] + t, sep) == [w] + Split(t, sep)
    ensures Split(w, sep) == [w]
    decreases |w|
  {
    if w == [] {
      assert [] + [sep] + t == [sep] + t;
      assert ([sep] + t)[1..] == t;
    } else {
      SplitAfterWord(w[1..], sep, t);
      assert (w + [sep] + t)[1..] == w[1..] + [sep] + t;
      assert [w[0]] + w[1..] == w;
    }
  }

  /** Joining separator-free parts and splitting again gives the parts back. */
  lemma {:induction false} SplitJoin(parts: seq<string>, sep: char)
    requires |parts| >= 1
    requires forall i :: 0 <= i < |parts| ==> sep !in parts[i]
    ensures Split(Join(parts, sep), sep) == parts
    decreases |parts|
  {
    if |parts| == 1 {
      SplitAfterWord(parts[0], sep, "");
    } else {
      SplitJoin(parts[1..], sep);
      SplitAfterWord(parts[0], sep, Join(parts[1..], sep));
      assert [parts[0]] + parts[1..] == parts;
    }
  }

  /** The longest prefix of `s` without `c`. */
  function TakeUntil(s: string, c: char): (r: string)
    ensures |r| <= |s| && r == s[..|r|] && c !in r
    ensures |r| < |s| ==> s[|r|] == c
  {
    if s == [] || s[0] == c then [] else [s[0]] + TakeUntil(s[1..], c)
  }

  /** The first part of a split is the text up to the first separator. */
  lemma {:induction false} SplitHead(s: string, sep: char)
    ensures Split(s, sep)[0] == TakeUntil(s, sep)
    decreases |s|
  {
    if s != [] && s[0] != sep {
      SplitHead(s[1..], sep);
    }
  }

  lemma BearerPrefixIsWordAndSpace()
    ensures BearerPrefix == "Bearer" + [' '] && ' ' !in "Bearer"
  {
  }

  /**
   * After the "Bearer " prefix, the second segment of `split(' ')` is the text
   * up to the next space: everything after the prefix when it holds no space.
   */
  lemma BearerToken(rest: string)
    ensures |Split(BearerPrefix + rest, ' ')| >= 2
    ensures Split(BearerPrefix + rest, ' ')[1] == TakeUntil(rest, ' ')
    ensures ' ' !in rest ==> Split(BearerPrefix + rest, ' ')[1] == rest
  {
    BearerPrefixIsWordAndSpace();
    SplitAfterWord("Bearer", ' ', rest);
    SplitHead(rest, ' ');
    if ' ' !in rest {
      var r := TakeUntil(rest, ' ');
      assert |r| == |rest|;
      assert r == rest[..|rest|] == rest;
    }
  }

  /** authMiddleware, with the token verifier as a parameter. */
  function Authenticate(header: Option<string>, verify: string -> Option<Decoded>): (r: AuthOutcome)
    ensures r.Rejected? ==> r.status == UnauthorizedStatus
    ensures header.None? || !StartsWith(header.value, BearerPrefix) ==>
              r == Rejected(UnauthorizedStatus, MissingTokenMessage)
    ensures header.Some? && StartsWith(header.value, BearerPrefix) ==>
              var token := TakeUntil(header.value[|BearerPrefix|..], ' ');
              var decoded := verify(token);
              && (decoded.None? || !TruthyId(decoded.value.userId) ==> r == Rejected(UnauthorizedStatus, InvalidTokenMessage))
              && (decoded.Some? && TruthyId(decoded.value.userId) ==> r == Proceed(decoded.value.userId.value))
  {
    if header.None? || !StartsWith(header.value, BearerPrefix) then
      Rejected(UnauthorizedStatus, MissingTokenMessage)
    else
      var rest := header.value[|BearerPrefix|..];
      assert header.value == BearerPrefix + rest;
      BearerToken(rest);
      var token := Split(header.value, ' ')[1];
      var decoded := verify(token);
      if decoded.None? || !TruthyId(decoded.value.userId) then
        Rejected(UnauthorizedStatus, InvalidTokenMessage)
      else
        Proceed(decoded.value.userId.value)
  }

  /** The prefix test is case-sensitive and needs the space: "bearer x" and "Bearerx" are refused. */
  lemma PrefixIsExact(verify: string -> Option<Decoded>)
    ensures Authenticate(Some("bearer x"), verify) == Rejected(UnauthorizedStatus, MissingTokenMessage)
    ensures Authenticate(Some("Bearerx"), verify) == Rejected(UnauthorizedStatus, MissingTokenMessage)
  {
    assert !StartsWith("bearer x", BearerPrefix) by { assert "bearer x"[0] != BearerPrefix[0]; }
    assert !StartsWith("Bearerx", BearerPrefix) by { assert "Bearerx"[6] != BearerPrefix[6]; }
  }
}
