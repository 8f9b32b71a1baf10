/**
 * models/login_token.go: the `login_tokens` table of pending sign-ins and
 * its device-code search. The rows' insertion, lookup and approval are not
 * part of this model; only the shape of a row and the device-code
 * uniqueness test are.
 */
module LoginTokens {
  import opened Wrappers
  import opened Dates
  import IdGeneration

  /**
   * A row of `login_tokens` (types/login_token.go). Its id is kept as the
   * text that the session table stores in `from_login_token`.
   */
  datatype LoginToken = LoginToken(
    id: string,
    email: string,
    deviceCode: string,
    ipAddress: string,
    device: string,
    authorized: bool,
    denied: bool,
    expiresAt: Stamp,
    createdAt: Stamp)

  type Table = map<string, LoginToken>

  const DeviceCodeExhausted := AppError(500, "Failed to generate device code.")

  /** `checkDeviceCodeAvailability`: no row has that device code. */
  predicate DeviceCodeAvailable(rows: Table, deviceCode: string)
  {
    forall id :: id in rows ==> rows[id].deviceCode != deviceCode
  }

  /** The device codes in use. */
  function DeviceCodes(rows: Table): (codes: set<string>)
    ensures forall code :: code in codes <==> !DeviceCodeAvailable(rows, code)
  {
    set id | id in rows :: rows[id].deviceCode
  }

  /** The table, of which only the device-code search is modelled. */
  class LoginTokens {
    var rows: Table

    constructor ()
      ensures rows == map[]
    {
      rows := map[];
    }

    /**
     * `generateDeviceCode`: at most 21 draws, keeping the first code no row
     * uses; a failed draw aborts with its error.
     */
    method GenerateDeviceCode(draw: nat -> Result<string>, from: nat) returns (r: Result<string>, used: nat)
      ensures (r, used) == Search(rows, draw, from)
    {
      r, used := IdGeneration.Generate(draw, from, DeviceCodes(rows), DeviceCodeExhausted);
    }
  }

  /** The search that `generateDeviceCode` makes. */
  function Search(rows: Table, draw: nat -> Result<string>, from: nat): (out: (Result<string>, nat))
    ensures out.0.Ok? ==> DeviceCodeAvailable(rows, out.0.value)
    ensures out.1 <= IdGeneration.MaxDraws
  {
    IdGeneration.Attempt(draw, from, DeviceCodes(rows), IdGeneration.MaxDraws, DeviceCodeExhausted)
  }

  /** When all 21 draws give codes in use, the search fails with "Failed to generate device code.". */
  lemma AllUsedExhausts(rows: Table, draw: nat -> Result<string>, from: nat)
    requires forall k :: from <= k < from + IdGeneration.MaxDraws ==> draw(k).Ok? && !DeviceCodeAvailable(rows, draw(k).value)
    ensures Search(rows, draw, from) == (Err(DeviceCodeExhausted), IdGeneration.MaxDraws)
  {
    IdGeneration.TakenPrefix(draw, from, DeviceCodes(rows), IdGeneration.MaxDraws, IdGeneration.MaxDraws, DeviceCodeExhausted);
  }

  /** After `n` draws of codes in use, a failed draw aborts at once with its own error, after `n + 1` draws. */
  lemma FailedDrawAborts(rows: Table, draw: nat -> Result<string>, from: nat, n: nat)
    requires n < IdGeneration.MaxDraws
    requires forall k :: from <= k < from + n ==> draw(k).Ok? && !DeviceCodeAvailable(rows, draw(k).value)
    requires draw(from + n).Err?
    ensures Search(rows, draw, from) == (draw(from + n), n + 1)
  {
    IdGeneration.Outcome(draw, from, DeviceCodes(rows), n, DeviceCodeExhausted);
  }
}
