/**
 * The refresh-token table (RefreshTokenRepository): at most one row per user, rows are
 * entity objects that the upsert updates in place, and a bulk delete by user.
 * Values of the table are described by the value type TokenRow; the repository's
 * contracts relate the table before and after to the functions Upsert and RemoveUser,
 * whose properties are proved as lemmas.
 */
module RefreshTokens {
  import opened ErrorCodes

  /** The value of one stored row: surrogate key, owning user and the token string. */
  datatype TokenRow = TokenRow(id: int, userId: int, refreshToken: string)

  /** The user of row i. */
  function UserAt(v: seq<TokenRow>, i: int): int
    requires 0 <= i < |v|
  {
    v[i].userId
  }

  /** No two rows belong to the same user (the unique userId column). */
  ghost predicate UniqueUsers(v: seq<TokenRow>)
  {
    forall i, j :: 0 <= i < j < |v| ==> UserAt(v, i) != UserAt(v, j)
  }

  /** Every stored key is below `nextId`, so the next key is fresh. */
  ghost predicate KeysBelow(v: seq<TokenRow>, nextId: int)
  {
    forall r :: r in v ==> r.id < nextId
  }

  /** The position of the first row of user `u`, or |v| when there is none. */
  function IndexOfUser(v: seq<TokenRow>, u: int): (k: nat)
    ensures k <= |v|
  {
    if |v| == 0 then 0
    else if v[0].userId == u then 0
    else 1 + IndexOfUser(v[1..], u)
  }

  /** The index found holds a row of `u` and no earlier row does; |v| means no row does. */
  lemma {:induction false} IndexOfUserSpec(v: seq<TokenRow>, u: int)
    ensures IndexOfUser(v, u) < |v| ==> v[IndexOfUser(v, u)].userId == u
    ensures forall j :: 0 <= j < IndexOfUser(v, u) ==> v[j].userId != u
    ensures IndexOfUser(v, u) == |v| <==> forall r :: r in v ==> r.userId != u
  {
    if |v| > 0 && v[0].userId != u {
      IndexOfUserSpec(v[1..], u);
      assert v == [v[0]] + v[1..];
    }
  }

  /** Two tables whose rows belong to the same users in the same order find a user at the same place. */
  lemma {:induction false} IndexOfUserSameOwners(v: seq<TokenRow>, w: seq<TokenRow>, u: int)
    requires |v| == |w|
    requires forall i :: 0 <= i < |v| ==> v[i].userId == w[i].userId
    ensures IndexOfUser(v, u) == IndexOfUser(w, u)
  {
    if |v| > 0 && v[0].userId != u {
      IndexOfUserSameOwners(v[1..], w[1..], u);
    }
  }

  /** Appending a row of another user does not move the first row of `u`. */
  lemma {:induction false} IndexOfUserAppend(v: seq<TokenRow>, x: TokenRow, u: int)
    ensures IndexOfUser(v + [x], u) == if IndexOfUser(v, u) < |v| || x.userId == u then IndexOfUser(v, u) else |v| + 1
  {
    if |v| == 0 {
      assert [x][1..] == [];
    } else {
      assert (v + [x])[1..] == v[1..] + [x];
      if v[0].userId != u {
        IndexOfUserAppend(v[1..], x, u);
      }
    }
  }

  /** findByUserId on values. */
  function FindRow(v: seq<TokenRow>, u: int): Option<TokenRow>
  {
    var k := IndexOfUser(v, u);
    if k < |v| then Some(v[k]) else None
  }

  /** The lookup finds a row exactly when the user has one, and what it finds is that user's. */
  lemma FindRowSpec(v: seq<TokenRow>, u: int)
    ensures FindRow(v, u).None? <==> forall r :: r in v ==> r.userId != u
    ensures FindRow(v, u).Some? ==> FindRow(v, u).value in v && FindRow(v, u).value.userId == u
  {
    IndexOfUserSpec(v, u);
  }

  /** saveOrUpdateByUserId on values: overwrite the token of the user's row, or append a new row. */
  function Upsert(v: seq<TokenRow>, u: int, token: string, nextId: int): seq<TokenRow>
  {
    var k := IndexOfUser(v, u);
    if k < |v| then v[k := v[k].(refreshToken := token)]
    else v + [TokenRow(nextId, u, token)]
  }

  /** After the upsert the user's row carries the new token; it keeps its key, or takes `nextId` when new. */
  lemma UpsertFinds(v: seq<TokenRow>, u: int, token: string, nextId: int)
    ensures FindRow(Upsert(v, u, token, nextId), u)
      == Some(TokenRow(if FindRow(v, u).Some? then FindRow(v, u).value.id else nextId, u, token))
  {
    var k := IndexOfUser(v, u);
    IndexOfUserSpec(v, u);
    if k < |v| {
      IndexOfUserSameOwners(Upsert(v, u, token, nextId), v, u);
    } else {
      IndexOfUserAppend(v, TokenRow(nextId, u, token), u);
    }
  }

  /** A user who already has a row is updated in place: same row count, same keys and owners, only that row changes. */
  lemma UpsertExisting(v: seq<TokenRow>, u: int, token: string, nextId: int)
    requires exists r :: r in v && r.userId == u
    ensures |Upsert(v, u, token, nextId)| == |v|
    ensures forall i :: 0 <= i < |v| ==>
      Upsert(v, u, token, nextId)[i].id == v[i].id && Upsert(v, u, token, nextId)[i].userId == v[i].userId
    ensures forall i :: 0 <= i < |v| && v[i].userId != u ==> Upsert(v, u, token, nextId)[i] == v[i]
  {
    IndexOfUserSpec(v, u);
  }

  /** A user without a row gets exactly one new row, appended, keyed `nextId`. */
  lemma UpsertNew(v: seq<TokenRow>, u: int, token: string, nextId: int)
    requires forall r :: r in v ==> r.userId != u
    ensures Upsert(v, u, token, nextId) == v + [TokenRow(nextId, u, token)]
  {
    IndexOfUserSpec(v, u);
  }

  /** Every other user finds the same row before and after the upsert. */
  lemma UpsertKeepsOthers(v: seq<TokenRow>, u: int, token: string, nextId: int, other: int)
    requires other != u
    ensures FindRow(Upsert(v, u, token, nextId), other) == FindRow(v, other)
  {
    var k := IndexOfUser(v, u);
    var w := Upsert(v, u, token, nextId);
    if k < |v| {
      IndexOfUserSameOwners(w, v, other);
      IndexOfUserSpec(v, u);
      IndexOfUserSpec(v, other);
    } else {
      IndexOfUserAppend(v, TokenRow(nextId, u, token), other);
    }
  }

  /** The upsert keeps at most one row per user. */
  lemma UpsertKeepsUnique(v: seq<TokenRow>, u: int, token: string, nextId: int)
    requires UniqueUsers(v)
    ensures UniqueUsers(Upsert(v, u, token, nextId))
  {
    var k := IndexOfUser(v, u);
    var w := Upsert(v, u, token, nextId);
    IndexOfUserSpec(v, u);
    forall i, j | 0 <= i < j < |w|
      ensures UserAt(w, i) != UserAt(w, j)
    {
      if j < |v| {
        assert UserAt(w, i) == UserAt(v, i) && UserAt(w, j) == UserAt(v, j);
      } else {
        assert v[i] in v;
      }
    }
  }

  /** The upsert hands out `nextId` only when it appends, so keys stay below the next one. */
  lemma UpsertKeysBelow(v: seq<TokenRow>, u: int, token: string, nextId: int)
    requires KeysBelow(v, nextId)
    ensures KeysBelow(Upsert(v, u, token, nextId), nextId + 1)
    ensures FindRow(v, u).Some? ==> KeysBelow(Upsert(v, u, token, nextId), nextId)
  {
    var k := IndexOfUser(v, u);
    var w := Upsert(v, u, token, nextId);
    forall r | r in w
      ensures r.id < nextId + 1
    {
      var i :| 0 <= i < |w| && w[i] == r;
      if i < |v| {
        assert v[i] in v;
      }
    }
  }

  /** deleteAllByUserId on values: drop every row of `u`, keep the rest in order. */
  function RemoveUser(v: seq<TokenRow>, u: int): seq<TokenRow>
  {
    if |v| == 0 then []
    else if v[0].userId == u then RemoveUser(v[1..], u)
    else [v[0]] + RemoveUser(v[1..], u)
  }

  /** The delete keeps exactly the rows of other users. */
  lemma {:induction false} RemoveUserMembers(v: seq<TokenRow>, u: int)
    ensures forall r :: r in RemoveUser(v, u) <==> r in v && r.userId != u
  {
    if |v| > 0 {
      RemoveUserMembers(v[1..], u);
      assert v == [v[0]] + v[1..];
    }
  }

  /** After the delete the user has no row; every other user finds what it found before. */
  lemma {:induction false} RemoveUserFinds(v: seq<TokenRow>, u: int, other: int)
    ensures FindRow(RemoveUser(v, u), u).None?
    ensures other != u ==> FindRow(RemoveUser(v, u), other) == FindRow(v, other)
  {
    RemoveUserMembers(v, u);
    FindRowSpec(RemoveUser(v, u), u);
    if |v| > 0 && other != u {
      RemoveUserFinds(v[1..], u, other);
      if v[0].userId != u && v[0].userId != other {
        var w := RemoveUser(v[1..], u);
        assert ([v[0]] + w)[1..] == w;
      }
    }
  }

  /** The delete keeps at most one row per user. */
  lemma {:induction false} RemoveUserKeepsUnique(v: seq<TokenRow>, u: int)
    requires UniqueUsers(v)
    ensures UniqueUsers(RemoveUser(v, u))
  {
    if |v| > 0 {
      var tail := v[1..];
      assert UniqueUsers(tail) by {
        forall i, j | 0 <= i < j < |tail|
          ensures UserAt(tail, i) != UserAt(tail, j)
        {
          assert UserAt(tail, i) == UserAt(v, i + 1) && UserAt(tail, j) == UserAt(v, j + 1);
        }
      }
      RemoveUserKeepsUnique(tail, u);
      if v[0].userId != u {
        var w := RemoveUser(tail, u);
        RemoveUserMembers(tail, u);
        var s := [v[0]] + w;
        forall i, j | 0 <= i < j < |s|
          ensures UserAt(s, i) != UserAt(s, j)
        {
          if i == 0 {
            assert s[j] in tail;
            var m :| 0 <= m < |tail| && tail[m] == s[j];
            assert UserAt(v, 0) != UserAt(v, m + 1);
          } else {
            assert UserAt(s, i) == UserAt(w, i - 1) && UserAt(s, j) == UserAt(w, j - 1);
          }
        }
      }
    }
  }

  /** A stored refresh token: an entity object whose token the upsert overwrites in place. */
  class RefreshToken {
    var id: int
    var userId: int
    var refreshToken: string

    /** The builder: the key stays unassigned (0) until the store persists the entity. */
    constructor (userId: int, refreshToken: string)
      ensures id == 0 && this.userId == userId && this.refreshToken == refreshToken
    {
      id := 0;
      this.userId := userId;
      this.refreshToken := refreshToken;
    }

    function Row(): TokenRow
      reads this
    {
      TokenRow(id, userId, refreshToken)
    }

    /** updateRefreshToken. */
    method UpdateRefreshToken(refreshToken: string)
      modifies this
      ensures this.refreshToken == refreshToken && id == old(id) && userId == old(userId)
    {
      this.refreshToken := refreshToken;
    }
  }

  /** The values of a sequence of entities, in order. */
  function Rows(ts: seq<RefreshToken>): (v: seq<TokenRow>)
    reads ts
    ensures |v| == |ts|
  {
    if |ts| == 0 then [] else [ts[0].Row()] + Rows(ts[1..])
  }

  lemma {:induction false} RowsAt(ts: seq<RefreshToken>)
    ensures forall i :: 0 <= i < |ts| ==> Rows(ts)[i] == ts[i].Row()
  {
    if |ts| > 0 {
      RowsAt(ts[1..]);
    }
  }

  /** The entities of `ts` not owned by `u`, in order. */
  function KeepOthers(ts: seq<RefreshToken>, u: int): seq<RefreshToken>
    reads ts
  {
    if |ts| == 0 then []
    else if ts[0].userId == u then KeepOthers(ts[1..], u)
    else [ts[0]] + KeepOthers(ts[1..], u)
  }

  lemma {:induction false} KeepOthersRows(ts: seq<RefreshToken>, u: int)
    ensures Rows(KeepOthers(ts, u)) == RemoveUser(Rows(ts), u)
  {
    if |ts| > 0 {
      KeepOthersRows(ts[1..], u);
      assert Rows(ts)[1..] == Rows(ts[1..]);
      if ts[0].userId != u {
        var rest := KeepOthers(ts[1..], u);
        assert ([ts[0]] + rest)[1..] == rest;
      }
    }
  }

  /** Rows of distinct users are distinct entities, so updating one entity leaves the others' rows alone. */
  lemma DistinctEntities(ts: seq<RefreshToken>, k: int)
    requires 0 <= k < |ts| && UniqueUsers(Rows(ts))
    ensures forall i :: 0 <= i < |ts| && i != k ==> ts[i] != ts[k]
  {
    RowsAt(ts);
    var v := Rows(ts);
    forall i | 0 <= i < |ts| && i != k
      ensures ts[i] != ts[k]
    {
      if i < k {
        assert UserAt(v, i) != UserAt(v, k);
      } else {
        assert UserAt(v, k) != UserAt(v, i);
      }
    }
  }

  class RefreshTokenRepository {
    var rows: seq<RefreshToken>
    var nextId: int

    /** The table's value. */
    function View(): seq<TokenRow>
      reads this, rows
    {
      Rows(rows)
    }

    ghost predicate Valid()
      reads this, rows
    {
      UniqueUsers(View()) && KeysBelow(View(), nextId)
    }

    constructor ()
      ensures Valid() && rows == [] && nextId == 1
    {
      rows, nextId := [], 1;
    }

    /** findByUserId: the stored entity of user `u`, if any. */
    function FindByUserId(u: int): (r: Option<RefreshToken>)
      reads this, rows
      ensures r.None? <==> FindRow(View(), u).None?
      ensures r.Some? ==> r.value in rows && r.value.Row() == FindRow(View(), u).value
    {
      RowsAt(rows);
      var k := IndexOfUser(View(), u);
      if k < |rows| then Some(rows[k]) else None
    }

    /** save of a new entity: the store assigns the next key and appends the row. */
    method Persist(t: RefreshToken)
      requires Valid() && t !in rows
      requires forall r :: r in View() ==> r.userId != t.userId
      modifies this, t
      ensures Valid()
      ensures t.id == old(nextId) && t.userId == old(t.userId) && t.refreshToken == old(t.refreshToken)
      ensures rows == old(rows) + [t] && nextId == old(nextId) + 1
      ensures View() == old(View()) + [t.Row()]
    {
      var before := View();
      t.id := nextId;
      assert View() == before;
      RowsAt(rows);
      RowsAt(rows + [t]);
      rows := rows + [t];
      nextId := nextId + 1;
      assert View() == before + [t.Row()];
      UpsertNew(before, t.userId, t.refreshToken, t.id);
      UpsertKeepsUnique(before, t.userId, t.refreshToken, t.id);
      UpsertKeysBelow(before, t.userId, t.refreshToken, t.id);
    }

    /** updateRefreshToken on the managed entity of user `u`, stored at row `k`: the row changes in place. */
    method Overwrite(t: RefreshToken, k: int, u: int, token: string)
      requires Valid() && k == IndexOfUser(View(), u) && k < |rows| && t == rows[k]
      modifies t
      ensures Valid()
      ensures View() == Upsert(old(View()), u, token, nextId)
      ensures FindRow(View(), u) == Some(t.Row())
    {
      var before := View();
      RowsAt(rows);
      DistinctEntities(rows, k);
      t.UpdateRefreshToken(token);
      RowsAt(rows);
      assert View() == Upsert(before, u, token, nextId);
      UpsertKeepsUnique(before, u, token, nextId);
      UpsertKeysBelow(before, u, token, nextId);
      UpsertFinds(before, u, token, nextId);
      IndexOfUserSpec(before, u);
      assert t.Row() == before[k].(refreshToken := token);
    }

    /** saveOrUpdateByUserId: overwrite the user's stored token in place, or insert a new row. */
    method SaveOrUpdateByUserId(u: int, token: string) returns (saved: RefreshToken)
      requires Valid()
      modifies this, rows
      ensures Valid()
      ensures View() == Upsert(old(View()), u, token, old(nextId))
      ensures saved in rows && FindRow(View(), u) == Some(saved.Row())
      ensures old(FindRow(View(), u)).Some? ==> rows == old(rows) && nextId == old(nextId)
      ensures old(FindRow(View(), u)).None? ==> fresh(saved) && rows == old(rows) + [saved] && nextId == old(nextId) + 1
    {
      var before := View();
      var existing := FindByUserId(u);
      FindRowSpec(before, u);
      if existing.Some? {
        saved := existing.value;
        Overwrite(saved, IndexOfUser(before, u), u, token);
      } else {
        saved := new RefreshToken(u, token);
        Persist(saved);
        UpsertNew(before, u, token, old(nextId));
        UpsertFinds(before, u, token, old(nextId));
        assert saved.Row() == TokenRow(old(nextId), u, token);
      }
    }

    /** deleteAllByUserId: remove every row of `u` and no other. */
    method DeleteAllByUserId(u: int)
      requires Valid()
      modifies this
      ensures Valid()
      ensures View() == RemoveUser(old(View()), u) && nextId == old(nextId)
    {
      var before := View();
      KeepOthersRows(rows, u);
      rows := KeepOthers(rows, u);
      assert View() == RemoveUser(before, u);
      RemoveUserKeepsUnique(before, u);
      RemoveUserMembers(before, u);
    }
  }

}
