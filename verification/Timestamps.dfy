/** Unix timestamps as canonical decimal strings: their order, their range, and the expiry of an intent. */
module Timestamps {
  import opened Text
  import opened Decimal

  const MAX_SECONDS: nat := 253_402_300_799

  /** The same limit as the string the parser compares with. */
  const MAX_UNIX_SECONDS: Text := Digits(MAX_SECONDS)

  /** ^(0|[1-9][0-9]{0,11})$, and not textually above the limit when equally long. */
  predicate IsUnixTimestamp(t: Text) {
    Canonical(t) && |t| <= 12 && !(|t| == |MAX_UNIX_SECONDS| && Less(MAX_UNIX_SECONDS, t))
  }

  type UnixTimestamp = t: Text | IsUnixTimestamp(t) witness [ZERO]

  function ParseUnixTimestamp(t: Text): Option<UnixTimestamp> {
    if IsUnixTimestamp(t) then Some(t) else None
  }

  function CompareUnixTimestamps(left: UnixTimestamp, right: UnixTimestamp): int {
    if |left| != |right| then (if |left| < |right| then -1 else 1)
    else if left == right then 0
    else if Less(left, right) then -1 else 1
  }

  function Seconds(t: UnixTimestamp): nat {
    Number(t)
  }

  /** Length first, then text: the comparison of the source is the order of the numbers. */
  lemma CompareIsNumeric(left: UnixTimestamp, right: UnixTimestamp)
    ensures CompareUnixTimestamps(left, right) < 0 <==> Seconds(left) < Seconds(right)
    ensures CompareUnixTimestamps(left, right) == 0 <==> Seconds(left) == Seconds(right)
    ensures CompareUnixTimestamps(left, right) == 0 <==> left == right
  {
    LengthThenTextOrder(left, right);
    LengthThenTextOrder(right, left);
  }

  lemma MaxLength()
    ensures |MAX_UNIX_SECONDS| == 12 && Canonical(MAX_UNIX_SECONDS) && Number(MAX_UNIX_SECONDS) == MAX_SECONDS
  {
    assert |Digits(253)| == 3;
    assert |Digits(253_402)| == 6;
    assert |Digits(253_402_300)| == 9;
    DigitsCanonical(MAX_SECONDS);
  }

  /** The accepted strings are the decimal forms of 0 up to the limit, nothing else. */
  lemma TimestampRange(t: Text)
    ensures IsUnixTimestamp(t) <==> Canonical(t) && Number(t) <= MAX_SECONDS
  {
    MaxLength();
    if Canonical(t) {
      LengthThenTextOrder(t, MAX_UNIX_SECONDS);
      LengthThenTextOrder(MAX_UNIX_SECONDS, t);
    }
  }

  function ParseExpiry(t: Text, issuedAt: UnixTimestamp): Option<UnixTimestamp> {
    if IsUnixTimestamp(t) && CompareUnixTimestamps(t, issuedAt) > 0 then Some(t) else None
  }

  /** The earlier of now + ttl and the clearance expiry, provided it lies after now. */
  function ComputeExpiry(blockTimestamp: UnixTimestamp, clearanceExpiresAt: UnixTimestamp, ttl: nat): Option<UnixTimestamp> {
    var now := Number(blockTimestamp);
    var clearanceExpiry := Number(clearanceExpiresAt);
    var expiresAt := if now + ttl < clearanceExpiry then now + ttl else clearanceExpiry;
    if expiresAt <= now then None else ParseUnixTimestamp(Digits(expiresAt))
  }

  /**
   * An expiry is computed exactly when the clearance is still alive; it is never refused by the parsers,
   * and it is the minimum of the two limits.
   */
  lemma ExpiryExact(now: UnixTimestamp, clearanceExpiresAt: UnixTimestamp, ttl: nat)
    requires ttl >= 1
    ensures ComputeExpiry(now, clearanceExpiresAt, ttl).Some? <==> Seconds(now) < Seconds(clearanceExpiresAt)
    ensures var e := ComputeExpiry(now, clearanceExpiresAt, ttl);
            e.Some? ==>
              && Seconds(now) < Seconds(e.value) <= Seconds(now) + ttl
              && Seconds(e.value) <= Seconds(clearanceExpiresAt)
              && (Seconds(e.value) == Seconds(now) + ttl || e.value == clearanceExpiresAt)
              && ParseExpiry(e.value, now) == e
  {
    var limit := Number(clearanceExpiresAt);
    var n := if Number(now) + ttl < limit then Number(now) + ttl else limit;
    TimestampRange(clearanceExpiresAt);
    DigitsCanonical(n);
    TimestampRange(Digits(n));
    if n > Number(now) {
      var e: UnixTimestamp := Digits(n);
      CompareIsNumeric(e, now);
      if n == limit {
        CanonicalInjective(e, clearanceExpiresAt);
      }
    }
  }
}
