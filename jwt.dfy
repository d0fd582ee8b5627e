/**
 * The JSON Web Token collaborator. Signing and signature checking belong to a
 * foreign library, so a codec is a pair of total functions; the one property the
 * application relies on is that decoding a token it signed gives back the claims.
 */
module Jwt {
  import opened Wrappers

  /** `expiresIn: "2h"`, in seconds. */
  const Lifetime: int := 2 * 60 * 60

  /** The claim set: the user id, the issue time and the `exp` claim of section 4.1.4 of RFC 7519, in seconds. */
  datatype Claims = Claims(userId: nat, iat: int, exp: Option<int>)

  datatype TokenCodec = TokenCodec(sign: Claims -> string, decode: string -> Option<Claims>)

  /** Decoding (with the server secret) a token signed by the same codec gives back its claims. */
  ghost predicate Sound(codec: TokenCodec) {
    forall c :: codec.decode(codec.sign(c)) == Some(c)
  }

  /** `jwt.sign({ userId }, secret, { expiresIn: "2h" })` at time `nowSec`. */
  function Issue(codec: TokenCodec, userId: nat, nowSec: int): string {
    codec.sign(Claims(userId, nowSec, Some(nowSec + Lifetime)))
  }

  /**
   * `jwt.verify(token, secret)`: the signature must check and, when an `exp` claim is
   * present, the current time must be before it (section 4.1.4 of RFC 7519).
   */
  function Verify(codec: TokenCodec, token: string, nowSec: int): (r: Option<Claims>)
    ensures r.Some? <==> (codec.decode(token).Some? &&
                         (codec.decode(token).value.exp.Some? ==> nowSec < codec.decode(token).value.exp.value))
    ensures r.Some? ==> r == codec.decode(token)
  {
    match codec.decode(token)
    case None => None
    case Some(c) => if c.exp.Some? && nowSec >= c.exp.value then None else Some(c)
  }

  /** A token issued at `issued` verifies to its own claims exactly until two hours have passed. */
  lemma IssuedTokenLifetime(codec: TokenCodec, userId: nat, issued: int, nowSec: int)
    requires Sound(codec)
    ensures Verify(codec, Issue(codec, userId, issued), nowSec) ==
            if nowSec < issued + Lifetime then Some(Claims(userId, issued, Some(issued + Lifetime))) else None
  {
    var c := Claims(userId, issued, Some(issued + Lifetime));
    assert codec.decode(codec.sign(c)) == Some(c);
  }
}
