/**
 * types/user_token_payload.go: the claims of a session token as a record
 * whose `FromJWT` method decodes a token into the record itself.
 */
module UserTokenPayloads {
  import opened Wrappers
  import opened Strings
  import Jwt

  class UserTokenPayload {
    var userTokenId: string
    var expiresAt: int
    var createdAt: int

    constructor (userTokenId: string, expiresAt: int, createdAt: int)
      ensures this.userTokenId == userTokenId && this.expiresAt == expiresAt && this.createdAt == createdAt
    {
      this.userTokenId := userTokenId;
      this.expiresAt := expiresAt;
      this.createdAt := createdAt;
    }

    /** The record as token claims. */
    function Claims(): Jwt.Claims
      reads this
    {
      Jwt.Claims(Jwt.UserTokenId(userTokenId), expiresAt, createdAt)
    }

    /** `ToJWT()`: the same three segments, fixed header and hex signature as the admin codec. */
    function ToJWT(lib: Jwt.Lib): (token: string)
      reads this
      ensures token == Jwt.Create(lib, Claims())
    {
      var header := lib.encode64(Jwt.HeaderJson());
      var payload := lib.encode64(lib.marshal(Claims()));
      header + "." + payload + "." + Jwt.Signature(lib, header, payload)
    }

    /**
     * `FromJWT(token)` at time `now`. The claims are unmarshalled into the
     * record before any test, so the record keeps what was decoded even when
     * an error follows.
     */
    method FromJWT(lib: Jwt.Lib, token: string, now: int) returns (err: Option<AppError>)
      requires Jwt.Lawful(lib)
      modifies this
      ensures (Claims(), err) == Jwt.CheckInto(lib, token, now, old(Claims()))
    {
      var out := Jwt.CheckInto(lib, token, now, Claims());
      Jwt.CheckIntoKeepsKind(lib, token, now, Claims());
      var decoded := out.0;
      userTokenId := decoded.subject.userTokenId;
      expiresAt := decoded.expiresAt;
      createdAt := decoded.createdAt;
      err := out.1;
    }
  }

  /**
   * Whatever the outcome after the payload segment was decoded, the record
   * holds the decoded claims: an error does not restore it.
   */
  lemma ReceiverOverwritten(lib: Jwt.Lib, token: string, now: int, before: Jwt.Claims)
    requires |Split(token, '.')| >= 2
    requires lib.decode64(Split(token, '.')[1]).Some?
    ensures Jwt.CheckInto(lib, token, now, before).0 == lib.unmarshalInto(lib.decode64(Split(token, '.')[1]).value, before).into
  {
  }

  /** A token that ToJWT made is accepted by FromJWT in its window, leaving the record equal to the claims. */
  lemma PayloadRoundTrip(lib: Jwt.Lib, claims: Jwt.Claims, now: int, before: Jwt.Claims)
    requires Jwt.Lawful(lib)
    requires claims.subject.UserTokenId? && before.subject.UserTokenId?
    requires claims.createdAt <= now < claims.expiresAt
    ensures Jwt.CheckInto(lib, Jwt.Create(lib, claims), now, before) == (claims, None)
  {
    Jwt.RoundTripInto(lib, claims, now, before);
  }
}
