/** The bearer tokens the server issues. A token's signature is opaque here:
    what the model keeps is the claim set that gets signed — the bound user
    id, the issue time and the optional expiry — and the expiry test applied
    when a token is presented. */
module Tokens {

  import opened Common

  /** `expiresIn: '24h'`, in seconds. */
  const OneDay: nat := 86400

  /** The signed claims: `{ userId }` plus the `iat`/`exp` stamps, in seconds. */
  datatype Claims = Claims(userId: Id, issuedAt: int, expiresAt: Option<int>)

  /** Whole seconds of a millisecond clock, rounded down. */
  function Seconds(now: Time): int {
    now / 1000
  }

  /** Signs `{ userId }` at `now`, with an expiry `expiresIn` seconds later
      when one is given and none at all otherwise. */
  function Sign(userId: Id, now: Time, expiresIn: Option<nat>): (c: Claims)
    ensures c.userId == userId && c.issuedAt == Seconds(now)
    ensures expiresIn.None? <==> c.expiresAt.None?
    ensures expiresIn.Some? ==> c.expiresAt == Some(Seconds(now) + expiresIn.value)
  {
    Claims(userId, Seconds(now),
      match expiresIn case Some(d) => Some(Seconds(now) + d) case None => None)
  }

  /** A token has expired once the clock, in whole seconds, reaches `exp`. */
  predicate ExpiredAt(c: Claims, now: Time) {
    c.expiresAt.Some? && Seconds(now) >= c.expiresAt.value
  }

  /** A token signed with no expiry is never rejected as expired. */
  lemma NoExpiryNeverExpires(userId: Id, issued: Time, now: Time)
    ensures !ExpiredAt(Sign(userId, issued, None), now)
  {
  }

  /** A token signed for a day is accepted exactly until one day's worth of
      whole seconds has passed since it was issued. */
  lemma OneDayWindow(userId: Id, issued: Time, now: Time)
    ensures ExpiredAt(Sign(userId, issued, Some(OneDay)), now)
        <==> Seconds(now) - Seconds(issued) >= OneDay
  {
  }
}
