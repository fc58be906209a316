/** The time claims of a signed token, against the expiry of its canonical record. */
module Claims {
  import opened Models

  const SECOND := 1_000_000

  /** `int(t.timestamp())`: whole seconds, cut toward zero. */
  function WholeSeconds(t: Time): int {
    if t >= 0 then t / SECOND else -((-t) / SECOND)
  }

  /** The claims of sections 4.1.1 to 4.1.7 of RFC 7519 that a signer fills in. */
  datatype ClaimSet = ClaimSet(jti: string, sub: string, iss: string, iat: int, nbf: int, exp: Option<int>)

  /** What both signers put into a token before encoding it. */
  function BuildClaims(tokenId: string, ownerSub: string, issuer: string, issuedAt: Time,
                       expiresAt: Option<Time>): ClaimSet
  {
    ClaimSet(tokenId, ownerSub, issuer, WholeSeconds(issuedAt), WholeSeconds(issuedAt),
             if expiresAt.Some? then Some(WholeSeconds(expiresAt.value)) else None)
  }

  /** `seconds` are the whole seconds of `t`, cut toward zero. */
  predicate CutToSeconds(seconds: int, t: Time) {
    if t >= 0 then seconds * SECOND <= t < (seconds + 1) * SECOND
    else (seconds - 1) * SECOND < t <= seconds * SECOND
  }

  /** The claims name the token, its owner and the issuer, and are dated by the record's times. */
  predicate ClaimsFor(claims: ClaimSet, tokenId: string, ownerSub: string, issuer: string, issuedAt: Time,
                      expiresAt: Option<Time>)
  {
    && claims.jti == tokenId && claims.sub == ownerSub && claims.iss == issuer
    && claims.iat == claims.nbf && CutToSeconds(claims.iat, issuedAt)
    && claims.exp.Some? == expiresAt.Some?
    && (expiresAt.Some? ==> CutToSeconds(claims.exp.value, expiresAt.value))
  }

  /** What is signed is the one claim set that does. */
  lemma ClaimsForIff(claims: ClaimSet, tokenId: string, ownerSub: string, issuer: string, issuedAt: Time,
                     expiresAt: Option<Time>)
    ensures ClaimsFor(claims, tokenId, ownerSub, issuer, issuedAt, expiresAt)
       <==> claims == BuildClaims(tokenId, ownerSub, issuer, issuedAt, expiresAt)
  {
    CutToSecondsIff(claims.iat, issuedAt);
    if claims.exp.Some? && expiresAt.Some? {
      CutToSecondsIff(claims.exp.value, expiresAt.value);
    }
  }

  lemma CutToSecondsIff(seconds: int, t: Time)
    ensures CutToSeconds(seconds, t) <==> seconds == WholeSeconds(t)
  {
  }

  /**
   * The signing service around the claims: `sign` is None when key material is missing, and neither the
   * encoding nor the digest is looked into.
   */
  datatype Signing = Signing(
    sign: ClaimSet -> Option<string>,
    sha256: string -> string,
    issuer: string,
    defaultLifetime: int)

  /** A consumer that checks a token locally accepts it as unexpired while `now` is before `exp`. */
  predicate LocallyUnexpired(claims: ClaimSet, now: Time) {
    claims.exp.Some? ==> now < claims.exp.value * SECOND
  }

  /**
   * A token lives exactly its lifetime, `exp - iat`, unless it is issued at a fractional second before the
   * epoch and expires after it: only there does cutting toward zero lose a second.
   */
  lemma WindowExactIff(claims: ClaimSet, tokenId: string, ownerSub: string, issuer: string, issuedAt: Time,
                       lifetime: int)
    requires lifetime > 0
    requires ClaimsFor(claims, tokenId, ownerSub, issuer, issuedAt, Some(issuedAt + lifetime * SECOND))
    ensures claims.exp.value - claims.iat == lifetime
       <==> !(issuedAt < 0 < issuedAt + lifetime * SECOND && issuedAt % SECOND != 0)
  {
    var expiresAt := issuedAt + lifetime * SECOND;
    ClaimsForIff(claims, tokenId, ownerSub, issuer, issuedAt, Some(expiresAt));
    assert expiresAt % SECOND == issuedAt % SECOND;
    assert expiresAt / SECOND == issuedAt / SECOND + lifetime;
    SecondsOfNegative(issuedAt);
    SecondsOfNegative(expiresAt);
  }

  lemma SecondsOfNegative(t: Time)
    ensures WholeSeconds(t) == t / SECOND + if t < 0 && t % SECOND != 0 then 1 else 0
  {
  }

  /**
   * No locally unexpired token outlives its record, for every reading of the clock, if and only if the
   * expiry is not a fractional second before the epoch.
   */
  lemma LocalImpliesRecordIff(claims: ClaimSet, tokenId: string, ownerSub: string, issuer: string, issuedAt: Time,
                              expiresAt: Time)
    requires ClaimsFor(claims, tokenId, ownerSub, issuer, issuedAt, Some(expiresAt))
    ensures (forall now :: LocallyUnexpired(claims, now) ==> now < expiresAt)
       <==> expiresAt >= 0 || expiresAt % SECOND == 0
  {
    ClaimsForIff(claims, tokenId, ownerSub, issuer, issuedAt, Some(expiresAt));
    SecondsOfNegative(expiresAt);
    assert !LocallyUnexpired(claims, claims.exp.value * SECOND);
    if !(expiresAt >= 0 || expiresAt % SECOND == 0) {
      assert LocallyUnexpired(claims, expiresAt);
    }
  }

  /** Nobody has to wait for a new token if and only if it is not issued at a fractional second before the epoch. */
  lemma NotBeforeHasPassedIff(claims: ClaimSet, tokenId: string, ownerSub: string, issuer: string, issuedAt: Time,
                              expiresAt: Option<Time>)
    requires ClaimsFor(claims, tokenId, ownerSub, issuer, issuedAt, expiresAt)
    ensures claims.nbf * SECOND <= issuedAt <==> issuedAt >= 0 || issuedAt % SECOND == 0
  {
    ClaimsForIff(claims, tokenId, ownerSub, issuer, issuedAt, expiresAt);
    SecondsOfNegative(issuedAt);
  }

  /** One microsecond before the epoch, for one second: the claims make it no second at all. */
  lemma WindowExample()
    ensures
      var claims := BuildClaims("t", "ann", "gofr-sec", -1, Some(999_999));
      claims.iat == 0 && claims.exp == Some(0)
  {
  }

  /** An expiry half a second before the epoch: the text is taken for valid a microsecond before it. */
  lemma OutlivingExample()
    ensures LocallyUnexpired(BuildClaims("t", "ann", "gofr-sec", -2_000_000, Some(-500_000)), -1)
    ensures !(-1 < -500_000)
  {
  }

  /** Issued one microsecond before the epoch: not valid before the epoch. */
  lemma NotYetExample()
    ensures BuildClaims("t", "ann", "gofr-sec", -1, None).nbf * SECOND == 0
  {
  }
}
