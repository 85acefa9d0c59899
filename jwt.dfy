/** Signed tokens as the claim records they carry; signatures are not modelled. */
module Jwt {
  import opened Wrappers

  /** The payload of a token: subject, token id, username and, on refresh tokens, a type. */
  datatype Claims = Claims(sub: string, jti: string, username: string, typ: Option<string>)

  /** `jwt.sign(claims, { expiresIn })`: the claims and the lifetime the signer is asked for. */
  datatype SignedToken = SignedToken(claims: Claims, expiresIn: string)

  const RefreshType := "refresh"
}
