/**
  Refresh-token generation and rotation (auth/refreshtoken.go). The 32 random bytes are an
  input: None stands for a failing `rand.Read`.
*/
module RefreshToken {
  import opened Wrappers
  import Hex
  import Http
  import opened TokenStore

  const KeyLength: int := 32

  /** The random key: exactly 32 bytes. */
  type Key = k: seq<Hex.byte> | |k| == KeyLength witness seq(KeyLength, _ => 0 as Hex.byte)

  /** MakeRefreshToken: the key as 64 lower-case hexadecimal characters (section 8 of RFC 4648). */
  function MakeRefreshToken(random: Option<Key>): (r: Option<string>)
    ensures r.Some? <==> random.Some?
    ensures r.Some? ==> |r.value| == 2 * KeyLength
    ensures r.Some? ==> forall i :: 0 <= i < |r.value| ==> Hex.IsLowerHex(r.value[i])
    ensures r.Some? ==> Hex.Decode(r.value) == Some(random.value)
  {
    match random
    case None => None
    case Some(k) =>
      Hex.DecodeEncode(k);
      Some(Hex.Encode(k))
  }

  /** Distinct keys give distinct tokens. */
  lemma MakeRefreshTokenInjective(a: Key, b: Key)
    requires MakeRefreshToken(Some(a)) == MakeRefreshToken(Some(b))
    ensures a == b
  {
    assert Hex.Decode(MakeRefreshToken(Some(a)).value) == Some(a);
  }

  datatype RotateError =
    | RevokeNotFound   // the cookie's token is not an active row
    | RevokeFailed     // storage error while revoking
    | EntropyFailed    // the random source failed
    | CreateFailed     // storage error while inserting the new row

  /** The new row and its key. */
  datatype Issued = Issued(token: string, record: Record)

  datatype Rotation = Rotation(result: Result<Issued, RotateError>, store: Store, log: Http.Log)

  /**
    RotateRefreshToken: revoke the row keyed by the cookie's value, then insert a fresh token for
    the same owner. The new row's expiry is not passed by the caller (the table's default), so it
    is an input here. Every failure writes its status; nothing is undone.
  */
  function Rotate(s: Store, cookieValue: string, random: Option<Key>, defaultExpiry: int, now: int,
                  failing: set<Op>): (rot: Rotation)
    ensures rot.result == Err(RevokeFailed) <==> RevokeByTokenOp in failing
    ensures rot.result == Err(RevokeNotFound) <==>
      RevokeByTokenOp !in failing && !(cookieValue in s && Active(s[cookieValue]))
    ensures rot.result.Err? && rot.result.error in {RevokeNotFound, RevokeFailed} ==> rot.store == s
    ensures rot.result.Err? && rot.result.error in {EntropyFailed, CreateFailed} ==>
      cookieValue in s && rot.store == s[cookieValue := Revoked(s[cookieValue], now)]
    ensures rot.result.Ok? ==>
      var prior := cookieValue;
      var issued := rot.result.value;
      prior in s && Active(s[prior])
      && issued.token != prior && issued.token !in s
      && issued.record == Record(s[prior].owner, defaultExpiry, None)
      && rot.store == s[prior := Revoked(s[prior], now)][issued.token := issued.record]
    ensures rot.log == match rot.result
      case Ok(_) => []
      case Err(RevokeNotFound) => [Http.Write(Http.StatusNotFound)]
      case Err(_) => [Http.Write(Http.StatusInternalServerError)]
  {
    var revoke := RevokeByToken(s, cookieValue, now, failing);
    match revoke.result
    case Err(NoRows) => Rotation(Err(RevokeNotFound), revoke.store, [Http.Write(Http.StatusNotFound)])
    case Err(Failure) => Rotation(Err(RevokeFailed), revoke.store, [Http.Write(Http.StatusInternalServerError)])
    case Ok(revoked) =>
      match MakeRefreshToken(random)
      case None => Rotation(Err(EntropyFailed), revoke.store, [Http.Write(Http.StatusInternalServerError)])
      case Some(token) =>
        var create := Create(revoke.store, token, revoked.owner, defaultExpiry, failing);
        match create.result
        case Err(_) => Rotation(Err(CreateFailed), create.store, [Http.Write(Http.StatusInternalServerError)])
        case Ok(row) => Rotation(Ok(Issued(token, row)), create.store, [])
  }

  /** Rotation changes only the revoked row and the one new row. */
  lemma RotateFrame(s: Store, cookieValue: string, random: Option<Key>, defaultExpiry: int, now: int,
                    failing: set<Op>)
    ensures var rot := Rotate(s, cookieValue, random, defaultExpiry, now, failing);
      (rot.result.Ok? ==> rot.store.Keys == s.Keys + {rot.result.value.token})
      && (rot.result.Err? ==> rot.store.Keys == s.Keys)
      && forall t :: t in s && t != cookieValue ==> rot.store[t] == s[t]
  {
  }

  /** An owner holding exactly one active token holds exactly the new one after a rotation. */
  lemma RotateKeepsOneActive(s: Store, cookieValue: string, random: Option<Key>, defaultExpiry: int,
                             now: int, failing: set<Op>, owner: string)
    requires ActiveOf(s, owner) == {cookieValue}
    requires Rotate(s, cookieValue, random, defaultExpiry, now, failing).result.Ok?
    ensures var rot := Rotate(s, cookieValue, random, defaultExpiry, now, failing);
      ActiveOf(rot.store, owner) == {rot.result.value.token}
  {
    var rot := Rotate(s, cookieValue, random, defaultExpiry, now, failing);
    var revoke := RevokeByToken(s, cookieValue, now, failing);
    RevokeByTokenActive(s, cookieValue, now, failing, owner);
    var token := rot.result.value.token;
    assert s[cookieValue].owner == owner;
    assert Create(revoke.store, token, owner, defaultExpiry, failing).store == rot.store;
    CreateActive(revoke.store, token, owner, defaultExpiry, failing, owner);
  }

  /** Other owners' active tokens are untouched by a rotation. */
  lemma RotateLeavesOthers(s: Store, cookieValue: string, random: Option<Key>, defaultExpiry: int,
                           now: int, failing: set<Op>, other: string)
    requires cookieValue in s && s[cookieValue].owner != other
    ensures ActiveOf(Rotate(s, cookieValue, random, defaultExpiry, now, failing).store, other) == ActiveOf(s, other)
  {
    var rot := Rotate(s, cookieValue, random, defaultExpiry, now, failing);
    var revoke := RevokeByToken(s, cookieValue, now, failing);
    if revoke.result.Ok? {
      RevokeByTokenActive(s, cookieValue, now, failing, other);
      assert ActiveOf(revoke.store, other) == ActiveOf(s, other);
      if rot.result.Ok? {
        var token := rot.result.value.token;
        CreateActive(revoke.store, token, s[cookieValue].owner, defaultExpiry, failing, other);
      }
    }
  }
}
