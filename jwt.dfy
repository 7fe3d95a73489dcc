/**
 * A stand-in for internal/lib/jwt: NewToken puts the user's id and email and the
 * expiry instant (in Unix seconds) into the claims and signs them with the secret.
 * The HS256 signature itself is replaced by a deterministic tag of the signing
 * input and the key.
 */
module Jwt {
  import opened Wrappers
  import opened Errors
  import opened Uuid
  import opened Models
  import Strconv

  const Second: int := 1_000_000_000

  /** base64url of {"alg":"HS256","typ":"JWT"} */
  const Header: string := "eyJhbGciOiJIUzI1NiIsInR5cCI6IkpXVCJ9"

  datatype Claims = Claims(uuid: Uuid, email: string, exp: int)

  /** claims of jwt.NewToken; time.Now().Add(duration).Unix() with `now` in nanoseconds */
  function ClaimsFor(user: User, duration: int, now: int): (c: Claims)
    ensures c.uuid == user.id && c.email == user.email
    ensures c.exp * Second <= now + duration < (c.exp + 1) * Second
  {
    Claims(user.id, user.email, (now + duration) / Second)
  }

  function EncodeClaims(c: Claims): string {
    ToString(c.uuid) + "." + Strconv.FormatInt(c.exp) + "." + c.email
  }

  function Signature(signingInput: string, key: string): string {
    "hs256(" + key + "," + signingInput + ")"
  }

  /** jwt.NewToken(user, duration, secretKey), with a signing failure supplied by the caller. */
  function NewToken(user: User, duration: int, secretKey: string, now: int, fault: Option<string>): (r: Result<string, Error>)
    ensures r.Success? <==> fault.None?
    ensures r.Success? ==> |r.value| > |Header| && r.value[..|Header|] == Header
    ensures r.Failure? ==> r.error == Text(fault.value)
  {
    if fault.Some? then Failure(Text(fault.value))
    else
      var input := Header + "." + EncodeClaims(ClaimsFor(user, duration, now));
      Success(input + "." + Signature(input, secretKey))
  }
}
