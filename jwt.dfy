/**
 * The token codec of utils/jwt.go, shared with types/user_token_payload.go:
 * three '.'-separated segments in the manner of JWS Compact Serialization
 * (section 7.1 of RFC 7515), an HS256 header (section 3.2 of RFC 7518), the
 * header and claims in unpadded base64url (section 5 of RFC 4648), and,
 * unlike the standard, the signature as lowercase hex text.
 */
module Jwt {
  import opened Wrappers
  import opened Strings
  import Hex

  type byte = Hex.byte

  /**
   * Whose a token is: an admin (`AdminTokenPayload.AdminId`), a session
   * (`UserTokenPayload.UserTokenId`) or a login token
   * (`LoginTokenPayload.LoginTokenId`).
   */
  datatype Subject = AdminId(adminId: int) | UserTokenId(userTokenId: string) | LoginTokenId(loginTokenId: string)

  /** The claims of a token: whose it is, and its validity window in Unix seconds. */
  datatype Claims = Claims(subject: Subject, expiresAt: int, createdAt: int)

  /** What `json.Unmarshal` into a nil pointer leaves: an error, a nil pointer (`null`), or a record. */
  datatype Parsed<T> = Malformed | Null | Object(value: T)

  /** What `json.Unmarshal` into an existing record leaves: the record, and whether it reported success. */
  datatype Decoded<T> = Decoded(into: T, ok: bool)

  /**
   * The library code the codec calls, left uninterpreted: base64url without
   * padding, JSON for the claims record, and HMAC-SHA256 keyed by the
   * `JWT_KEY` environment variable over the bytes of a text.
   */
  datatype Lib = Lib(
    encode64: seq<byte> -> string,
    decode64: string -> Option<seq<byte>>,
    marshal: Claims -> seq<byte>,
    unmarshal: seq<byte> -> Parsed<Claims>,
    unmarshalInto: (seq<byte>, Claims) -> Decoded<Claims>,
    mac: string -> seq<byte>)

  /** Two subjects of the same record type. */
  predicate SameKind(a: Subject, b: Subject)
  {
    a.AdminId? == b.AdminId? && a.UserTokenId? == b.UserTokenId?
  }

  /**
   * The only facts about the libraries the proofs use: base64url decodes
   * what it encodes and never writes '.'; a marshalled record unmarshals to
   * itself, overwriting every field of an existing record of its type; and
   * unmarshalling into a record leaves a record of the same type.
   */
  ghost predicate Lawful(lib: Lib)
  {
    && (forall b :: lib.decode64(lib.encode64(b)) == Some(b))
    && (forall b :: '.' !in lib.encode64(b))
    && (forall c :: lib.unmarshal(lib.marshal(c)) == Object(c))
    && (forall c: Claims, before: Claims :: SameKind(c.subject, before.subject) ==> lib.unmarshalInto(lib.marshal(c), before) == Decoded(c, true))
    && (forall b, before: Claims :: SameKind(lib.unmarshalInto(b, before).into.subject, before.subject))
  }

  /**
   * `json.Marshal` of the header map, which Go writes with its keys in sorted
   * order: the ASCII bytes of `{"alg":"HS256","typ":"JWT"}`.
   */
  function HeaderJson(): seq<byte>
  {
    [0x7B, 0x22, 0x61, 0x6C, 0x67, 0x22, 0x3A, 0x22, 0x48, 0x53, 0x32, 0x35, 0x36, 0x22,
     0x2C, 0x22, 0x74, 0x79, 0x70, 0x22, 0x3A, 0x22, 0x4A, 0x57, 0x54, 0x22, 0x7D]
  }

  /** The hex signature over the first two segments. */
  function Signature(lib: Lib, header: string, payload: string): (sig: string)
    ensures |sig| == 2 * |lib.mac(header + "." + payload)|
  {
    Hex.Encode(lib.mac(header + "." + payload))
  }

  /**
   * `JWT.Create(payload)` and `UserTokenPayload.ToJWT()`. Their error
   * returns cannot happen: marshalling a fixed map or a record of strings and
   * integers and writing into a hash do not fail.
   */
  function Create(lib: Lib, claims: Claims): (token: string)
  {
    var header := lib.encode64(HeaderJson());
    var payload := lib.encode64(lib.marshal(claims));
    header + "." + payload + "." + Signature(lib, header, payload)
  }

  const PayloadUndecodable := AppError(500, "Failed to decode token payload.")
  const PayloadDataUndecodable := AppError(500, "Failed to decode token payload data.")
  const InvalidDate := AppError(401, "Invalid token date.")
  const Expired := AppError(401, "Expired token.")
  const InvalidToken := AppError(401, "Invalid token.")

  /**
   * `JWT.Check(token)` at time `now`. Segment 1 is read without a count check
   * (a token without a '.' panics), the claims are unmarshalled into a nil
   * pointer (`null` leaves it nil and the next line panics), both times are
   * tested before segment 2 is read (a token with two segments panics only
   * then), and segments after the third are never read.
   */
  function Check(lib: Lib, token: string, now: int): (r: Result<Claims>)
    ensures r.Ok? ==> |Split(token, '.')| >= 3
    ensures r.Ok? ==> r.value.createdAt <= now < r.value.expiresAt
    ensures r.Ok? ==> Split(token, '.')[2] == Signature(lib, Split(token, '.')[0], Split(token, '.')[1])
  {
    CheckParts(lib, Split(token, '.'), now)
  }

  /** Check on the '.'-separated segments of the token. */
  function CheckParts(lib: Lib, parts: seq<string>, now: int): (r: Result<Claims>)
    ensures r.Ok? ==> |parts| >= 3
    ensures r.Ok? ==> r.value.createdAt <= now < r.value.expiresAt
    ensures r.Ok? ==> parts[2] == Signature(lib, parts[0], parts[1])
  {
    if |parts| < 2 then Err(RuntimePanic)
    else match lib.decode64(parts[1])
      case None => Err(PayloadUndecodable)
      case Some(bytes) =>
        match lib.unmarshal(bytes)
        case Malformed => Err(PayloadDataUndecodable)
        case Null => Err(RuntimePanic)
        case Object(c) =>
          if c.createdAt > now then Err(InvalidDate)
          else if c.expiresAt <= now then Err(Expired)
          else if |parts| < 3 then Err(RuntimePanic)
          else if Signature(lib, parts[0], parts[1]) != parts[2] then Err(InvalidToken)
          else Ok(c)
  }

  /**
   * `UserTokenPayload.FromJWT(token)` at time `now` on a receiver holding
   * `before`: the same tests as Check, but the claims are unmarshalled into
   * the receiver itself, so the receiver's new value is returned beside the
   * error, whatever the error.
   */
  function CheckInto(lib: Lib, token: string, now: int, before: Claims): (out: (Claims, Option<AppError>))
    ensures out.1.None? ==> |Split(token, '.')| >= 3
    ensures out.1.None? ==> out.0.createdAt <= now < out.0.expiresAt
    ensures out.1.None? ==> Split(token, '.')[2] == Signature(lib, Split(token, '.')[0], Split(token, '.')[1])
  {
    CheckPartsInto(lib, Split(token, '.'), now, before)
  }

  /** CheckInto on the '.'-separated segments of the token. */
  function CheckPartsInto(lib: Lib, parts: seq<string>, now: int, before: Claims): (out: (Claims, Option<AppError>))
    ensures out.1.None? ==> |parts| >= 3
    ensures out.1.None? ==> out.0.createdAt <= now < out.0.expiresAt
    ensures out.1.None? ==> parts[2] == Signature(lib, parts[0], parts[1])
  {
    if |parts| < 2 then (before, Some(RuntimePanic))
    else match lib.decode64(parts[1])
      case None => (before, Some(PayloadUndecodable))
      case Some(bytes) =>
        var d := lib.unmarshalInto(bytes, before);
        if !d.ok then (d.into, Some(PayloadDataUndecodable))
        else if d.into.createdAt > now then (d.into, Some(InvalidDate))
        else if d.into.expiresAt <= now then (d.into, Some(Expired))
        else if |parts| < 3 then (d.into, Some(RuntimePanic))
        else if Signature(lib, parts[0], parts[1]) != parts[2] then (d.into, Some(InvalidToken))
        else (d.into, None)
  }

  /** The three segments of a created token, none of which holds a '.'. */
  lemma CreateSegments(lib: Lib, claims: Claims)
    requires Lawful(lib)
    ensures var header := lib.encode64(HeaderJson());
      var payload := lib.encode64(lib.marshal(claims));
      Split(Create(lib, claims), '.') == [header, payload, Signature(lib, header, payload)]
  {
    var header := lib.encode64(HeaderJson());
    var payload := lib.encode64(lib.marshal(claims));
    SignatureHasNoDot(lib, header, payload);
    SplitThree(header, payload, Signature(lib, header, payload));
  }

  lemma SignatureHasNoDot(lib: Lib, header: string, payload: string)
    ensures '.' !in Signature(lib, header, payload)
  {
    var sig := Signature(lib, header, payload);
    Hex.EncodeDigits(lib.mac(header + "." + payload));
    forall k | 0 <= k < |sig|
      ensures sig[k] != '.'
    {
      assert Hex.IsLowerHexDigit(sig[k]);
    }
  }

  /** Three '.'-free segments joined by '.' split back into themselves. */
  lemma SplitThree(a: string, b: string, c: string)
    requires '.' !in a && '.' !in b && '.' !in c
    ensures Split(a + "." + b + "." + c, '.') == [a, b, c]
  {
    var parts := [a, b, c];
    assert Join(parts, ".") == a + "." + b + "." + c by {
      assert parts[1..] == [b, c];
      assert [b, c][1..] == [c];
      assert Join([b, c], ".") == b + "." + c;
    }
    JoinThenSplit(parts, '.');
  }

  /** The header segment always decodes to `{"alg":"HS256","typ":"JWT"}`. */
  lemma HeaderIsFixed(lib: Lib, claims: Claims)
    requires Lawful(lib)
    ensures lib.decode64(Split(Create(lib, claims), '.')[0]) == Some(HeaderJson())
  {
    CreateSegments(lib, claims);
  }

  /** A token made by Create passes Check, with its claims, while its window is open. */
  lemma RoundTrip(lib: Lib, claims: Claims, now: int)
    requires Lawful(lib)
    requires claims.createdAt <= now < claims.expiresAt
    ensures Check(lib, Create(lib, claims), now) == Ok(claims)
  {
    CreateSegments(lib, claims);
    var header := lib.encode64(HeaderJson());
    var payload := lib.encode64(lib.marshal(claims));
    PartsRoundTrip(lib, claims, now, header, payload);
  }

  /** The segments of a created token pass CheckParts, given what the libraries decode. */
  lemma PartsRoundTrip(lib: Lib, claims: Claims, now: int, header: string, payload: string)
    requires lib.decode64(payload) == Some(lib.marshal(claims))
    requires lib.unmarshal(lib.marshal(claims)) == Object(claims)
    requires claims.createdAt <= now < claims.expiresAt
    ensures CheckParts(lib, [header, payload, Signature(lib, header, payload)], now) == Ok(claims)
  {
    var parts := [header, payload, Signature(lib, header, payload)];
    assert parts[0] == header && parts[1] == payload;
  }

  /** The same holds of the receiver-overwriting variant, whatever the receiver held. */
  lemma RoundTripInto(lib: Lib, claims: Claims, now: int, before: Claims)
    requires Lawful(lib)
    requires SameKind(claims.subject, before.subject)
    requires claims.createdAt <= now < claims.expiresAt
    ensures CheckInto(lib, Create(lib, claims), now, before) == (claims, None)
  {
    CreateSegments(lib, claims);
    var header := lib.encode64(HeaderJson());
    var payload := lib.encode64(lib.marshal(claims));
    PartsRoundTripInto(lib, claims, now, before, header, payload);
  }

  lemma PartsRoundTripInto(lib: Lib, claims: Claims, now: int, before: Claims, header: string, payload: string)
    requires lib.decode64(payload) == Some(lib.marshal(claims))
    requires lib.unmarshalInto(lib.marshal(claims), before) == Decoded(claims, true)
    requires claims.createdAt <= now < claims.expiresAt
    ensures CheckPartsInto(lib, [header, payload, Signature(lib, header, payload)], now, before) == (claims, None)
  {
    var parts := [header, payload, Signature(lib, header, payload)];
    assert parts[0] == header && parts[1] == payload;
  }

  /**
   * Outside its window a token fails on its dates, whatever its signature
   * segment says, or whether it has one.
   */
  lemma DatesBeforeSignature(lib: Lib, token: string, now: int, claims: Claims)
    requires |Split(token, '.')| >= 2
    requires lib.decode64(Split(token, '.')[1]).Some?
    requires lib.unmarshal(lib.decode64(Split(token, '.')[1]).value) == Object(claims)
    ensures claims.createdAt > now ==> Check(lib, token, now) == Err(InvalidDate)
    ensures claims.createdAt <= now && claims.expiresAt <= now ==> Check(lib, token, now) == Err(Expired)
  {
  }

  /** A third segment other than the signature of the first two is rejected. */
  lemma WrongSignatureRejected(lib: Lib, token: string, now: int, claims: Claims)
    requires |Split(token, '.')| >= 3
    requires lib.decode64(Split(token, '.')[1]).Some?
    requires lib.unmarshal(lib.decode64(Split(token, '.')[1]).value) == Object(claims)
    requires claims.createdAt <= now < claims.expiresAt
    requires Split(token, '.')[2] != Signature(lib, Split(token, '.')[0], Split(token, '.')[1])
    ensures Check(lib, token, now) == Err(InvalidToken)
  {
  }

  /** The receiver-overwriting variant leaves a record of the receiver's type. */
  lemma CheckIntoKeepsKind(lib: Lib, token: string, now: int, before: Claims)
    requires Lawful(lib)
    ensures SameKind(CheckInto(lib, token, now, before).0.subject, before.subject)
  {
    var parts := Split(token, '.');
    if |parts| >= 2 && lib.decode64(parts[1]).Some? {
      var d := lib.unmarshalInto(lib.decode64(parts[1]).value, before);
      assert SameKind(d.into.subject, before.subject);
    }
  }

  /** Only the first three segments are read: whatever follows them is ignored. */
  lemma ExtraSegmentsIgnored(lib: Lib, token: string, extra: string, now: int)
    requires |Split(token, '.')| >= 3
    ensures Check(lib, token + "." + extra, now) == Check(lib, token, now)
  {
    SplitAppend(token, extra);
    FirstThreeDecide(lib, Split(token + "." + extra, '.'), Split(token, '.'), now);
  }

  /** CheckParts reads the first three segments only. */
  lemma FirstThreeDecide(lib: Lib, longer: seq<string>, parts: seq<string>, now: int)
    requires |parts| >= 3 && |longer| >= 3
    requires longer[0] == parts[0] && longer[1] == parts[1] && longer[2] == parts[2]
    ensures CheckParts(lib, longer, now) == CheckParts(lib, parts, now)
  {
  }

  /** Appending "." + extra to a text appends the pieces of extra to its pieces. */
  lemma {:induction false} SplitAppend(s: string, extra: string)
    ensures Split(s + "." + extra, '.') == Split(s, '.') + Split(extra, '.')
    decreases |s|
  {
    if s == [] {
      assert s + "." + extra == ['.'] + extra;
      assert (['.'] + extra)[1..] == extra;
    } else {
      assert (s + "." + extra)[1..] == s[1..] + "." + extra;
      SplitAppend(s[1..], extra);
    }
  }

  /** A token without a '.' makes Check panic on its segment index. */
  lemma NoSecondSegment(lib: Lib, token: string, now: int)
    requires '.' !in token
    ensures Check(lib, token, now) == Err(RuntimePanic)
  {
    SplitWithoutSeparator(token, '.');
  }
}
