/** When a CI session renews its provider identity: Unix seconds as 64-bit unsigned integers,
    token times as in sections 4.1.4 and 4.1.6 of RFC 7519. */
module RefreshSchedule {
  import opened Bytes

  const U64_MAX: nat := 0xFFFF_FFFF_FFFF_FFFF

  function SaturatingAdd(a: nat, b: nat): (r: nat) {
    if a + b <= U64_MAX then a + b else U64_MAX
  }

  function SaturatingSub(a: nat, b: nat): (r: nat) {
    if b <= a then a - b else 0
  }

  function Clamp(n: nat, low: nat, high: nat): (r: nat)
    requires low <= high
    ensures low <= r <= high
  {
    if n < low then low else if n > high then high else n
  }

  function Max(a: nat, b: nat): (r: nat) {
    if a >= b then a else b
  }

  function RefreshAt(validUntil: nat, now: nat): (r: Option<nat>) {
    if now >= validUntil then None
    else
      var remaining := SaturatingSub(validUntil, now);
      Some(Max(SaturatingSub(validUntil, Clamp(remaining / 5, 1, 30)), now))
  }

  function RefreshAfterSuccessAt(validUntil: nat, now: nat): (r: Option<nat>) {
    match RefreshAt(validUntil, now)
    case Some(scheduled) => if scheduled > now then Some(scheduled) else None
    case None => None
  }

  function RetryRefreshAt(validUntil: nat, now: nat): (r: Option<nat>) {
    var retry := SaturatingAdd(now, 1);
    if retry < validUntil then Some(retry) else None
  }

  /** A first refresh is scheduled exactly while the identity lives, ahead of its end by a fifth
      of what is left, but no less than one second and no more than thirty: the maximum with now
      never bites. */
  lemma RefreshAtIff(validUntil: nat, now: nat)
    ensures RefreshAt(validUntil, now).Some? <==> now < validUntil
    ensures RefreshAt(validUntil, now).Some? ==>
              && now <= RefreshAt(validUntil, now).value < validUntil
              && validUntil - RefreshAt(validUntil, now).value == Clamp((validUntil - now) / 5, 1, 30)
  {
  }

  /** After a success the next one is strictly later, and there is none exactly when one
      second or nothing is left. */
  lemma RefreshAfterSuccessIff(validUntil: nat, now: nat)
    ensures RefreshAfterSuccessAt(validUntil, now).None? <==> validUntil <= now + 1
    ensures RefreshAfterSuccessAt(validUntil, now).Some? ==>
              now < RefreshAfterSuccessAt(validUntil, now).value < validUntil
  {
  }

  /** After a failure the next one is exactly a second later, while the identity still lives then. */
  lemma RetryRefreshIff(validUntil: nat, now: nat)
    requires validUntil <= U64_MAX
    ensures RetryRefreshAt(validUntil, now) == if now + 1 < validUntil then Some(now + 1) else None
  {
  }

  // --------------------------------------------------------------------------- the clock

  const SECOND: nat := 1_000_000_000

  /** What `unix_now` reads at a time given in nanoseconds. */
  function Unix(time: nat): (r: nat) {
    time / SECOND
  }

  /** `unix_to_instant`: the clock is read at `read`, and the whole seconds still to go are added
      to the instant `base`. */
  function InstantFor(unix: nat, read: nat, base: nat): (r: nat) {
    base + SaturatingSub(unix, Unix(read)) * SECOND
  }

  lemma UnixGrows(a: nat, b: nat)
    requires a <= b
    ensures Unix(a) <= Unix(b)
  {
  }

  /** A timer so armed never fires before its second, and may be late by up to a second and the
      time between the two readings; armed in or after its second, it is due at once. */
  lemma InstantBounds(unix: nat, read: nat, base: nat)
    requires read <= base
    ensures Unix(InstantFor(unix, read, base)) >= unix
    ensures Unix(read) < unix ==> InstantFor(unix, read, base) < (unix + 1) * SECOND + (base - read)
    ensures Unix(read) >= unix ==> InstantFor(unix, read, base) == base
  {
  }

  // -------------------------------------------------------------------------- validity

  /** What a provider returns; `Claims` when the JWT and its time claims can be read. */
  datatype Token = Unreadable | Claims(exp: nat, iat: nat)

  /** `effective_valid_until`. */
  function EffectiveValidUntil(token: Token, maxAge: nat): (r: Option<nat>) {
    match token
    case Unreadable => None
    case Claims(exp, iat) =>
      if exp <= iat then None
      else if iat + maxAge > U64_MAX then None
      else Some(if exp <= iat + maxAge then exp else iat + maxAge)
  }

  /** The bound is the smaller of the two limits, and exists exactly when the token spans a
      positive time and the age limit does not overflow. */
  lemma ValidUntilIff(exp: nat, iat: nat, maxAge: nat, bound: nat)
    ensures EffectiveValidUntil(Claims(exp, iat), maxAge) == Some(bound)
            <==> iat < exp && iat + maxAge <= U64_MAX && bound <= exp && bound <= iat + maxAge
                 && (bound == exp || bound == iat + maxAge)
  {
  }
}
