/** The signed-token codec that app/utils/security.py obtains from `jose.jwt`
    (RFC 7519 tokens signed with HS256, section 3.2 of RFC 7518), abstracted:
    a token is the claim set it carries together with the key and algorithm it
    was signed with, and checking the signature is comparing keys. Decoding
    applies the claim checks the library performs on the claims this core
    issues: `exp` must be a number not in the past, `sub` must be a string. */
module Jwt {
  import opened Wrappers

  /** A claim value: a string, or a number (a NumericDate in whole seconds). */
  datatype ClaimValue = Str(s: string) | Num(n: int)

  type Claims = map<string, ClaimValue>

  /** A token as it reaches `decode`: one this codec signed, or any other text. */
  datatype Token = Signed(claims: Claims, key: string, algorithm: string) | Malformed(text: string)

  datatype JwtError = NotAToken | DisallowedAlgorithm | BadSignature | ExpiredSignature | InvalidClaim

  function Encode(claims: Claims, key: string, algorithm: string): Token {
    Signed(claims, key, algorithm)
  }

  /** The claim checks a decoded payload must pass at instant `now`. */
  predicate ClaimsValid(claims: Claims, now: int) {
    && ("exp" in claims ==> claims["exp"].Num? && now <= claims["exp"].n)
    && ("sub" in claims ==> claims["sub"].Str?)
  }

  /** `jwt.decode(token, key, algorithms=algorithms)` at instant `now`. */
  function Decode(token: Token, key: string, algorithms: seq<string>, now: int): (r: Result<Claims, JwtError>)
    ensures r.Success? <==> token.Signed? && token.algorithm in algorithms && token.key == key && ClaimsValid(token.claims, now)
    ensures r.Success? ==> r.value == token.claims
  {
    match token
    case Malformed(_) => Failure(NotAToken)
    case Signed(claims, signedWith, algorithm) =>
      if algorithm !in algorithms then Failure(DisallowedAlgorithm)
      else if signedWith != key then Failure(BadSignature)
      else if "exp" in claims && !claims["exp"].Num? then Failure(InvalidClaim)
      else if "exp" in claims && claims["exp"].n < now then Failure(ExpiredSignature)
      else if "sub" in claims && !claims["sub"].Str? then Failure(InvalidClaim)
      else Success(claims)
  }

  /** Decoding with the signing key and algorithm returns the encoded claims
      while they are valid, and fails once `exp` has passed or under any other key. */
  lemma DecodeEncode(claims: Claims, key: string, otherKey: string, algorithm: string, now: int)
    requires otherKey != key
    ensures ClaimsValid(claims, now) ==> Decode(Encode(claims, key, algorithm), key, [algorithm], now) == Success(claims)
    ensures Decode(Encode(claims, key, algorithm), otherKey, [algorithm], now).Failure?
    ensures "exp" in claims && claims["exp"].Num? && claims["exp"].n < now ==>
              Decode(Encode(claims, key, algorithm), key, [algorithm], now) == Failure(ExpiredSignature)
  {
  }
}
