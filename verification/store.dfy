/**
  The refresh-token table as the handlers use it: a map from token text to its row. A row is
  active until it is revoked. The SQL behind each query is not part of this model; its contract
  here is the one the callers rely on:
  - revoking touches only active rows. Revoking by token is a one-row query and reports "no rows"
    when the token is not an active row; revoking by owner and revoking all are many-row
    queries, like the list query, and answer an empty set rather than "no rows";
  - the list query returns the owner's active rows, and an empty set when there are none;
  - a row is active until it is revoked: its expiry does not enter any query;
  - the token text is the table's key, so creating a duplicate fails;
  - any query may fail with a storage error, chosen by the `failing` input.
*/
module TokenStore {
  import opened Wrappers

  /** A row: `user_public_id`, `expires_at`, `revoked_at` (seconds on the model's clock). */
  datatype Record = Record(owner: string, expiresAt: int, revokedAt: Option<int>)

  type Store = map<string, Record>

  /** Why a query failed: `sql.ErrNoRows`, or any other error. */
  datatype Fault = NoRows | Failure

  /** The queries that touch the table; a member of `failing` returns a storage error. */
  datatype Op = CreateOp | RevokeByTokenOp | RevokeByOwnerOp | RevokeAllOp | ListOp

  datatype Outcome<T> = Outcome(result: Result<T, Fault>, store: Store)

  predicate Active(r: Record) {
    r.revokedAt.None?
  }

  function Revoked(r: Record, now: int): (v: Record)
    ensures !Active(v) && v.owner == r.owner && v.expiresAt == r.expiresAt
  {
    r.(revokedAt := Some(now))
  }

  /** The tokens of `owner` that are still active. */
  function ActiveOf(s: Store, owner: string): set<string> {
    set t | t in s && s[t].owner == owner && Active(s[t])
  }

  /** Every active token. */
  function ActiveTokens(s: Store): set<string> {
    set t | t in s && Active(s[t])
  }

  /** The one element of a singleton set. */
  function Only(xs: set<string>): (x: string)
    requires |xs| == 1
    ensures xs == {x}
  {
    SingletonUnique(xs);
    var x :| x in xs;
    x
  }

  lemma SingletonUnique(xs: set<string>)
    requires |xs| == 1
    ensures exists x :: x in xs
    ensures forall x, y :: x in xs && y in xs ==> x == y
  {
    var x :| x in xs;
    assert xs - {x} == {} by {
      assert |xs - {x}| == |xs| - 1 == 0;
    }
  }

  /** RevokeRefreshTokenByToken: revoke the row keyed `token`, returning it. */
  function RevokeByToken(s: Store, token: string, now: int, failing: set<Op>): (o: Outcome<Record>)
    ensures o.result.Ok? <==> RevokeByTokenOp !in failing && token in s && Active(s[token])
    ensures o.result == Err(Failure) <==> RevokeByTokenOp in failing
    ensures o.result.Err? ==> o.store == s
    ensures o.result.Ok? ==>
      o.result.value == Revoked(s[token], now) && o.store == s[token := o.result.value]
  {
    if RevokeByTokenOp in failing then Outcome(Err(Failure), s)
    else if token in s && Active(s[token]) then
      var v := Revoked(s[token], now);
      Outcome(Ok(v), s[token := v])
    else Outcome(Err(NoRows), s)
  }

  /** CreateRefreshToken: insert an active row under a new key. */
  function Create(s: Store, token: string, owner: string, expiresAt: int, failing: set<Op>): (o: Outcome<Record>)
    ensures o.result.Ok? <==> CreateOp !in failing && token !in s
    ensures o.result.Err? ==> o.result.error == Failure && o.store == s
    ensures o.result.Ok? ==>
      o.result.value == Record(owner, expiresAt, None) && o.store == s[token := o.result.value]
  {
    if CreateOp in failing || token in s then Outcome(Err(Failure), s)
    else
      var v := Record(owner, expiresAt, None);
      Outcome(Ok(v), s[token := v])
  }

  /** RevokeRefreshTokenByUserPublicID: revoke every active row of `owner`, returning their keys. */
  function RevokeByOwner(s: Store, owner: string, now: int, failing: set<Op>): (o: Outcome<set<string>>)
    ensures o.result.Ok? <==> RevokeByOwnerOp !in failing
    ensures o.result.Err? ==> o.result.error == Failure && o.store == s
    ensures o.result.Ok? ==> o.result.value == ActiveOf(s, owner)
    ensures o.result.Ok? ==> o.store.Keys == s.Keys && ActiveOf(o.store, owner) == {}
    ensures o.result.Ok? ==> forall t :: t in s ==>
      o.store[t] == if t in ActiveOf(s, owner) then Revoked(s[t], now) else s[t]
  {
    var hit := ActiveOf(s, owner);
    if RevokeByOwnerOp in failing then Outcome(Err(Failure), s)
    else
      var s' := map t | t in s :: if t in hit then Revoked(s[t], now) else s[t];
      assert ActiveOf(s', owner) == {} by {
        forall t | t in s' ensures !(s'[t].owner == owner && Active(s'[t])) {
          if t !in hit { assert !(s[t].owner == owner && Active(s[t])); }
        }
      }
      Outcome(Ok(hit), s')
  }

  /** RevokeRefreshTokens: revoke every active row, returning their keys. */
  function RevokeAll(s: Store, now: int, failing: set<Op>): (o: Outcome<set<string>>)
    ensures o.result.Ok? <==> RevokeAllOp !in failing
    ensures o.result.Err? ==> o.result.error == Failure && o.store == s
    ensures o.result.Ok? ==> o.result.value == ActiveTokens(s)
    ensures o.result.Ok? ==> o.store.Keys == s.Keys && ActiveTokens(o.store) == {}
    ensures o.result.Ok? ==> forall t :: t in s ==>
      o.store[t] == if Active(s[t]) then Revoked(s[t], now) else s[t]
  {
    if RevokeAllOp in failing then Outcome(Err(Failure), s)
    else
      var s' := map t | t in s :: if Active(s[t]) then Revoked(s[t], now) else s[t];
      Outcome(Ok(ActiveTokens(s)), s')
  }

  /** GetRefreshTokensByUserPublicID: the owner's active rows; empty, never "no rows". */
  function ListActive(s: Store, owner: string, failing: set<Op>): (r: Result<set<string>, Fault>)
    ensures r.Err? <==> ListOp in failing
    ensures r.Err? ==> r.error == Failure
    ensures r.Ok? ==> r.value == ActiveOf(s, owner)
  {
    if ListOp in failing then Err(Failure) else Ok(ActiveOf(s, owner))
  }

  /** GetRefreshTokens: every row, revoked or not. */
  function ListAll(s: Store, failing: set<Op>): (r: Result<set<string>, Fault>)
    ensures r.Err? <==> ListOp in failing
    ensures r.Ok? ==> r.value == s.Keys
  {
    if ListOp in failing then Err(Failure) else Ok(s.Keys)
  }

  /** Revoking all ends every owner's sessions. */
  lemma RevokeAllEndsEverySession(s: Store, now: int, failing: set<Op>, owner: string)
    requires RevokeAll(s, now, failing).result.Ok?
    ensures ActiveOf(s, owner) <= RevokeAll(s, now, failing).result.value
    ensures ActiveOf(RevokeAll(s, now, failing).store, owner) == {}
  {
    var o := RevokeAll(s, now, failing);
    assert ActiveOf(o.store, owner) <= ActiveTokens(o.store);
  }

  /** Revoking an owner's tokens a second time finds nothing and changes nothing. */
  lemma RevokeByOwnerTwice(s: Store, owner: string, now: int, later: int, failing: set<Op>)
    requires RevokeByOwner(s, owner, now, failing).result.Ok?
    ensures var s' := RevokeByOwner(s, owner, now, failing).store;
      RevokeByOwner(s', owner, later, failing) == Outcome(Ok({}), s')
  {
    var s' := RevokeByOwner(s, owner, now, failing).store;
    var o := RevokeByOwner(s', owner, later, failing);
    assert o.store == s' by {
      forall t | t in s' ensures o.store[t] == s'[t] {
        assert t !in ActiveOf(s', owner);
      }
    }
  }

  /** After an owner's tokens are revoked, listing them finds none. */
  lemma ListAfterRevokeByOwner(s: Store, owner: string, now: int, failing: set<Op>)
    requires RevokeByOwner(s, owner, now, failing).result.Ok? && ListOp !in failing
    ensures ListActive(RevokeByOwner(s, owner, now, failing).store, owner, failing) == Ok({})
  {
  }

  /** A created token is listed among its owner's active tokens. */
  lemma ListAfterCreate(s: Store, token: string, owner: string, expiresAt: int, failing: set<Op>)
    requires Create(s, token, owner, expiresAt, failing).result.Ok? && ListOp !in failing
    ensures var l := ListActive(Create(s, token, owner, expiresAt, failing).store, owner, failing);
      l.Ok? && token in l.value
  {
  }

  /** Revocation never deletes: the full listing is the same before and after. */
  lemma RevocationKeepsRows(s: Store, token: string, owner: string, now: int, failing: set<Op>)
    ensures ListAll(RevokeByToken(s, token, now, failing).store, failing) == ListAll(s, failing)
    ensures ListAll(RevokeByOwner(s, owner, now, failing).store, failing) == ListAll(s, failing)
    ensures ListAll(RevokeAll(s, now, failing).store, failing) == ListAll(s, failing)
  {
    var o := RevokeByToken(s, token, now, failing);
    if o.result.Ok? {
      assert o.store.Keys == s.Keys;
    }
  }

  /** A revoked token cannot be revoked again: the second attempt reports no rows. */
  lemma RevokeTwice(s: Store, token: string, now: int, later: int, failing: set<Op>)
    requires RevokeByToken(s, token, now, failing).result.Ok?
    ensures RevokeByToken(RevokeByToken(s, token, now, failing).store, token, later, failing).result == Err(NoRows)
  {
  }

  /** Revoking one token removes exactly that token from its owner's active set, and no other. */
  lemma RevokeByTokenActive(s: Store, token: string, now: int, failing: set<Op>, owner: string)
    requires RevokeByToken(s, token, now, failing).result.Ok?
    ensures ActiveOf(RevokeByToken(s, token, now, failing).store, owner) == ActiveOf(s, owner) - {token}
  {
    var s' := RevokeByToken(s, token, now, failing).store;
    forall t ensures t in ActiveOf(s', owner) <==> t in ActiveOf(s, owner) - {token} {
      if t == token {
        assert !Active(s'[t]);
      } else if t in s {
        assert s'[t] == s[t];
      }
    }
  }

  /** Creating a token adds exactly it to its owner's active set, and leaves other owners alone. */
  lemma CreateActive(s: Store, token: string, owner: string, expiresAt: int, failing: set<Op>, who: string)
    requires Create(s, token, owner, expiresAt, failing).result.Ok?
    ensures ActiveOf(Create(s, token, owner, expiresAt, failing).store, who) ==
      if who == owner then ActiveOf(s, who) + {token} else ActiveOf(s, who)
  {
    var s' := Create(s, token, owner, expiresAt, failing).store;
    forall t ensures t in ActiveOf(s', who) <==> t in (if who == owner then ActiveOf(s, who) + {token} else ActiveOf(s, who)) {
      if t != token && t in s {
        assert s'[t] == s[t];
      }
    }
  }
}
