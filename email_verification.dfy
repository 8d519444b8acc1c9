/**
  The email-verification code table and the service that writes and consumes it.
  The table maps an email to its one record (the schema's unique index on
  `email`); the clock is the integer `now`, in milliseconds.
*/
module EmailVerification {
  import opened Strings

  /** Ten minutes, in milliseconds: how long a stored code stays valid. */
  const CODE_LIFETIME_MS: int := 10 * 60 * 1000

  /** Smallest and largest code `generateVerificationCode` can produce. */
  const MIN_CODE: nat := 100000
  const CODE_RANGE: nat := 900000

  /** One EmailVerification document; every field is required or defaulted. */
  datatype Record = Record(email: string, code: string, expiresAt: int, createdAt: int)

  type Table = map<string, Record>

  /** Each record sits under its own email: at most one record per email. */
  predicate WellKeyed(t: Table) {
    forall e :: e in t ==> t[e].email == e
  }

  /** What `verifyCode` accepts: a record exists, the code matches and it expires strictly after `now`. */
  predicate Accepts(t: Table, email: string, code: string, now: int) {
    email in t && t[email].code == code && t[email].expiresAt > now
  }

  /** The table after `storeVerificationCode`: an upsert of the email's record. */
  function Stored(t: Table, email: string, code: string, now: int): (t': Table)
    ensures email in t' && t'[email] == Record(email, code, now + 600000, now)
    ensures forall e :: e != email ==> (e in t' <==> e in t)
    ensures forall e :: e in t && e != email ==> t'[e] == t[e]
    ensures WellKeyed(t) ==> WellKeyed(t')
  {
    t[email := Record(email, code, now + CODE_LIFETIME_MS, now)]
  }

  /** The table after `verifyCode`: the record is deleted exactly when the code is accepted. */
  function Consumed(t: Table, email: string, code: string, now: int): (t': Table)
    ensures Accepts(t, email, code, now) ==> email !in t' && forall e :: e != email ==> (e in t' <==> e in t)
    ensures !Accepts(t, email, code, now) ==> t' == t
    ensures forall e :: e in t' ==> e in t && t'[e] == t[e]
    ensures WellKeyed(t) ==> WellKeyed(t')
  {
    if Accepts(t, email, code, now) then t - {email} else t
  }

  /** A freshly stored code verifies exactly while `now` is before the new expiry. */
  lemma StoreThenVerify(t: Table, email: string, code: string, storedAt: int, now: int, given: string)
    ensures Accepts(Stored(t, email, code, storedAt), email, given, now)
            <==> given == code && now < storedAt + CODE_LIFETIME_MS
  {
  }

  /** A code verifies at most once: after a successful verify no code verifies for that email. */
  lemma SingleUse(t: Table, email: string, code: string, now: int, again: string, later: int)
    requires Accepts(t, email, code, now)
    ensures !Accepts(Consumed(t, email, code, now), email, again, later)
  {
  }

  /** Storing for one email never changes whether another email's code verifies. */
  lemma StoreIsolated(t: Table, email: string, code: string, now: int, other: string, given: string, at: int)
    requires other != email
    ensures Accepts(Stored(t, email, code, now), other, given, at) == Accepts(t, other, given, at)
  {
  }

  /** The TTL index may drop any record whose `expiresAt` has been reached. */
  function Swept(t: Table, now: int): (t': Table)
    ensures forall e :: e in t' <==> e in t && t[e].expiresAt > now
    ensures forall e :: e in t' ==> t'[e] == t[e]
  {
    map e | e in t && t[e].expiresAt > now :: t[e]
  }

  /** The TTL sweep agrees with `verifyCode`: sweeping never changes what verifies at that time. */
  lemma SweepAgreesWithVerify(t: Table, now: int, email: string, code: string)
    ensures Accepts(Swept(t, now), email, code, now) == Accepts(t, email, code, now)
  {
  }

  /**
    `generateVerificationCode`: the decimal form of 100000 + r, where r stands for
    `Math.floor(Math.random() * 900000)`, an integer in [0, 900000).
  */
  function CodeFromChoice(r: nat): (code: string)
    requires r < CODE_RANGE
    ensures |code| == 6 && IsDigits(code)
    ensures DigitsValue(code) == MIN_CODE + r
  {
    assert Pow10(5) == 100000 && Pow10(6) == 1000000;
    NatToStringLength(MIN_CODE + r, 6);
    DigitsValueOfNatToString(MIN_CODE + r);
    NatToString(MIN_CODE + r)
  }

  /** A generated code always passes the six-character rule of the verification request validator. */
  lemma GeneratedCodeFitsValidator(r: nat)
    requires r < CODE_RANGE
    ensures |CodeFromChoice(r)| == 6 && CodeFromChoice(r)[0] != '0'
  {
  }

  /** The EmailVerification collection, updated in place by the service. */
  class VerificationStore {
    var records: Table

    ghost predicate Valid()
      reads this
    {
      WellKeyed(records)
    }

    constructor ()
      ensures Valid() && records == map[]
    {
      records := map[];
    }

    /** `storeVerificationCode(email, code)` at time `now`: upsert with a ten-minute expiry. */
    method StoreVerificationCode(email: string, code: string, now: int)
      requires Valid()
      modifies this
      ensures Valid()
      ensures records == Stored(old(records), email, code, now)
      ensures records[email].expiresAt == now + CODE_LIFETIME_MS
    {
      records := records[email := Record(email, code, now + CODE_LIFETIME_MS, now)];
    }

    /** `verifyCode(email, code)` at time `now`; deletes the record on success. */
    method VerifyCode(email: string, code: string, now: int) returns (ok: bool)
      requires Valid()
      modifies this
      ensures Valid()
      ensures ok <==> Accepts(old(records), email, code, now)
      ensures email !in old(records) ==> !ok
      ensures records == Consumed(old(records), email, code, now)
    {
      if email !in records {
        return false;
      }
      var record := records[email];
      if record.code == code && record.expiresAt > now {
        records := records - {email};
        return true;
      }
      return false;
    }
  }
}
