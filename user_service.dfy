/**
 * Find-or-create of a player account (src/services/userService.ts). The user
 * table is a map from name to user, `nextId` stands for the database's id
 * sequence, and `issue` stands for the token generator (generateToken with
 * the payload { userId }) as it behaves at the moment of the call: the JWT it
 * signs carries its issue time and expiry, so two calls may get two tokens.
 */
module UserService {
  import opened Wrappers

  const BlankNameMessage: string := "O nome do usuário não pode ser vazio."

  datatype User = User(id: nat, name: string)

  datatype UserResponse = UserResponse(id: nat, name: string, token: string)

  /** The characters `String.prototype.trim` removes: white space and line terminators. */
  predicate IsJsWhitespace(c: char)
  {
    || c == ' ' || c == '\t' || c == '\n' || c == '\r'
    || c == '\U{000B}' || c == '\U{000C}' || c == '\U{00A0}' || c == '\U{FEFF}'
    || c == '\U{1680}' || ('\U{2000}' <= c <= '\U{200A}')
    || c == '\U{2028}' || c == '\U{2029}' || c == '\U{202F}' || c == '\U{205F}' || c == '\U{3000}'
  }

  function TrimStart(s: string): string
  {
    if s != [] && IsJsWhitespace(s[0]) then TrimStart(s[1..]) else s
  }

  function TrimEnd(s: string): string
  {
    if s != [] && IsJsWhitespace(s[|s| - 1]) then TrimEnd(s[..|s| - 1]) else s
  }

  function Trim(s: string): string
  {
    TrimEnd(TrimStart(s))
  }

  /** The guard `!name || name.trim() === ''`. */
  predicate IsBlank(name: string)
  {
    name == "" || Trim(name) == ""
  }

  predicate AllWhitespace(s: string)
  {
    forall i :: 0 <= i < |s| ==> IsJsWhitespace(s[i])
  }

  lemma {:induction false} TrimStartEmpty(s: string)
    ensures TrimStart(s) == "" <==> AllWhitespace(s)
    ensures TrimStart(s) != "" ==> !IsJsWhitespace(TrimStart(s)[0])
  {
    if s != [] && IsJsWhitespace(s[0]) {
      TrimStartEmpty(s[1..]);
      assert AllWhitespace(s) <==> AllWhitespace(s[1..]) by {
        if AllWhitespace(s[1..]) {
          forall i | 0 <= i < |s| ensures IsJsWhitespace(s[i]) {
            if i > 0 { assert s[i] == s[1..][i - 1]; }
          }
        }
      }
    }
  }

  lemma {:induction false} TrimEndKeepsFirst(s: string)
    requires s != [] && !IsJsWhitespace(s[0])
    ensures TrimEnd(s) != ""
  {
    if IsJsWhitespace(s[|s| - 1]) {
      TrimEndKeepsFirst(s[..|s| - 1]);
    }
  }

  /** `TrimStart` drops exactly a leading run of white space. */
  lemma {:induction false} TrimStartShape(s: string)
    ensures |TrimStart(s)| <= |s|
    ensures TrimStart(s) == s[|s| - |TrimStart(s)|..]
    ensures AllWhitespace(s[..|s| - |TrimStart(s)|])
    ensures TrimStart(s) != "" ==> !IsJsWhitespace(TrimStart(s)[0])
  {
    if s != [] && IsJsWhitespace(s[0]) {
      TrimStartShape(s[1..]);
      var k := |s| - |TrimStart(s)|;
      assert s[1..][k - 1..] == s[k..];
      assert s[1..][..k - 1] == s[..k][1..];
    }
  }

  /** `TrimEnd` drops exactly a trailing run of white space. */
  lemma {:induction false} TrimEndShape(s: string)
    ensures |TrimEnd(s)| <= |s|
    ensures TrimEnd(s) == s[..|TrimEnd(s)|]
    ensures AllWhitespace(s[|TrimEnd(s)|..])
    ensures TrimEnd(s) != "" ==> !IsJsWhitespace(TrimEnd(s)[|TrimEnd(s)| - 1])
  {
    if s != [] && IsJsWhitespace(s[|s| - 1]) {
      TrimEndShape(s[..|s| - 1]);
      var k := |TrimEnd(s)|;
      assert s[..|s| - 1][..k] == s[..k];
      assert forall i :: 0 <= i < |s| - 1 - k ==> s[..|s| - 1][k..][i] == s[k..][i];
      assert s[k..][|s| - 1 - k] == s[|s| - 1];
    }
  }

  /**
   * `name.trim()` is the name with a leading and a trailing run of white space
   * removed, and what remains neither starts nor ends with white space.
   */
  lemma TrimShape(s: string)
    ensures exists i, j :: 0 <= i <= j <= |s| && Trim(s) == s[i..j]
                           && AllWhitespace(s[..i]) && AllWhitespace(s[j..])
    ensures Trim(s) != "" ==> !IsJsWhitespace(Trim(s)[0]) && !IsJsWhitespace(Trim(s)[|Trim(s)| - 1])
  {
    var t := TrimStart(s);
    TrimStartShape(s);
    TrimEndShape(t);
    var i := |s| - |t|;
    var j := i + |TrimEnd(t)|;
    assert t[..|TrimEnd(t)|] == s[i..j];
    assert forall m :: 0 <= m < |s| - j ==> s[j..][m] == t[|TrimEnd(t)|..][m];
    if Trim(s) != "" {
      assert Trim(s)[0] == t[0];
    }
  }

  /** A name is blank exactly when every one of its characters is white space. */
  lemma BlankIffAllWhitespace(name: string)
    ensures IsBlank(name) <==> AllWhitespace(name)
  {
    TrimStartEmpty(name);
    var t := TrimStart(name);
    if t != "" {
      TrimEndKeepsFirst(t);
    }
  }

  /** Names are keys as given: no trimming before the lookup. */
  datatype UserTable = UserTable(byName: map<string, User>, nextId: nat)

  const EmptyTable: UserTable := UserTable(map[], 1)

  /** Each user is stored under its own name and has an id the sequence has already issued. */
  predicate ValidTable(t: UserTable)
  {
    && t.nextId >= 1
    && forall n :: n in t.byName ==> t.byName[n].name == n && 1 <= t.byName[n].id < t.nextId
  }

  /** Ids are unique. */
  predicate DistinctIds(t: UserTable)
  {
    forall m, n :: m in t.byName && n in t.byName && m != n ==> t.byName[m].id != t.byName[n].id
  }

  datatype Reply = Reply(table: UserTable, result: Result<UserResponse, string>)

  /** findOrCreateUser on a table: the new table and what the call returns or throws. */
  function FindOrCreate(t: UserTable, name: string, issue: nat -> string): (r: Reply)
    ensures r.result.Failure? ==> r.table == t
    ensures r.table.byName.Keys == t.byName.Keys + (if r.result.Success? then {name} else {})
    ensures r.table.nextId == t.nextId + (if r.table.byName.Keys == t.byName.Keys then 0 else 1)
  {
    if IsBlank(name) then Reply(t, Failure(BlankNameMessage))
    else if name in t.byName then
      var u := t.byName[name];
      Reply(t, Success(UserResponse(u.id, u.name, issue(u.id))))
    else
      var u := User(t.nextId, name);
      Reply(UserTable(t.byName[name := u], t.nextId + 1), Success(UserResponse(u.id, u.name, issue(u.id))))
  }

  /**
   * The three cases of findOrCreateUser: a blank name throws and leaves the
   * table alone; a known name returns that user and adds nothing; a new name
   * adds exactly one user, under that name and with a fresh id. Every success
   * carries the token issued for the returned id, and the table invariants hold.
   */
  lemma FindOrCreateCases(t: UserTable, name: string, issue: nat -> string)
    requires ValidTable(t) && DistinctIds(t)
    ensures var r := FindOrCreate(t, name, issue);
            && ValidTable(r.table) && DistinctIds(r.table)
            && (AllWhitespace(name) <==> r.result.Failure?)
            && (r.result.Failure? ==> r.table == t && r.result.error == BlankNameMessage)
            && (r.result.Success? ==> r.result.value.name == name && name in r.table.byName
                                      && r.result.value.id == r.table.byName[name].id >= 1
                                      && r.result.value.token == issue(r.result.value.id))
            && (r.result.Success? && name in t.byName ==> r.table == t && r.result.value.id == t.byName[name].id)
            && (r.result.Success? && name !in t.byName ==>
                  && r.table.byName.Keys == t.byName.Keys + {name}
                  && (forall n :: n in t.byName ==> r.table.byName[n] == t.byName[n])
                  && (forall n :: n in t.byName ==> t.byName[n].id != r.result.value.id))
  {
    BlankIffAllWhitespace(name);
  }

  /**
   * Calling twice with the same name, possibly at another time (`issue2`),
   * changes nothing the second time: the same error, or the same user id and
   * name with a token freshly issued for that id. The table grows by at most
   * one entry over both calls.
   */
  lemma FindOrCreateIdempotent(t: UserTable, name: string, issue1: nat -> string, issue2: nat -> string)
    requires ValidTable(t)
    ensures var r1 := FindOrCreate(t, name, issue1);
            var r2 := FindOrCreate(r1.table, name, issue2);
            && r2.table == r1.table
            && r2.result.Success? == r1.result.Success?
            && (r1.result.Failure? ==> r2.result == r1.result)
            && (r1.result.Success? ==>
                  && r2.result.value.id == r1.result.value.id
                  && r2.result.value.name == r1.result.value.name
                  && r2.result.value.token == issue2(r1.result.value.id))
            && |r2.table.byName| <= |t.byName| + 1
  {
  }

  /** "bob " and "bob" are different keys: a trailing space creates a second user. */
  lemma UntrimmedNamesAreDistinct(issue: nat -> string)
    ensures var t := UserTable(map["bob" := User(1, "bob")], 2);
            var r := FindOrCreate(t, "bob ", issue);
            r.result == Success(UserResponse(2, "bob ", issue(2))) && |r.table.byName| == 2
  {
  }

  /** The user table behind the repository, changed in place by `save`. */
  class UserRepository {
    var byName: map<string, User>
    var nextId: nat

    function Table(): UserTable
      reads this
    {
      UserTable(byName, nextId)
    }

    ghost predicate Valid()
      reads this
    {
      ValidTable(Table()) && DistinctIds(Table())
    }

    constructor ()
      ensures Valid() && Table() == EmptyTable
    {
      byName := map[];
      nextId := 1;
    }

    /** findOrCreateUser: the blank-name guard, then lookup by name or insert. */
    method FindOrCreateUser(name: string, issue: nat -> string) returns (r: Result<UserResponse, string>)
      requires Valid()
      modifies this
      ensures Valid()
      ensures Reply(Table(), r) == FindOrCreate(old(Table()), name, issue)
    {
      FindOrCreateCases(Table(), name, issue);
      if name == "" || Trim(name) == "" {
        return Failure(BlankNameMessage);
      }
      if name in byName {
        var user := byName[name];
        return Success(UserResponse(user.id, user.name, issue(user.id)));
      }
      var user := User(nextId, name);
      byName := byName[name := user];
      nextId := nextId + 1;
      r := Success(UserResponse(user.id, user.name, issue(user.id)));
    }
  }
}
