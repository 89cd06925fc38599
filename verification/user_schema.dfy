/** Citizen accounts as the authentication and report controllers use them.
    The account carries its verification state explicitly: an account is
    created unverified with a pending OTP challenge and becomes verified
    once, which clears the challenge. */
module Users {
  import opened Common
  import opened Store

  /** One entry of the report ledger: which report, and when it was
      submitted (milliseconds since the epoch). The ledger is both the
      citizen's submission history and the input of the daily limit. */
  datatype LedgerEntry = LedgerEntry(reportId: Id, submittedAt: int)

  /** `isVerified` together with `otp` / `otpExpires`: an unverified account
      holds the hash of its pending code and the instant it expires; a
      verified one holds neither. */
  datatype Verification = Pending(otpHash: string, otpExpires: int) | Verified

  datatype Account = Account(
    email: string,
    name: string,
    passwordHash: string,
    verification: Verification,
    reports: seq<LedgerEntry>)

  type Accounts = Table<Account>

  /** The `lowercase` setter on `email`, which Mongoose also applies to
      query values. */
  function NormalizeEmail(email: string): (e: string)
    ensures IsLower(e) && |e| == |email|
    ensures Lower(e) == e
  {
    LowerIsLowerAndIdempotent(email);
    Lower(email)
  }

  /** The schema's required fields, checked on the values being saved
      (before the password is hashed). */
  predicate ValidSignup(email: string, password: string) {
    NormalizeEmail(email) != "" && password != ""
  }

  /** The `unique` index on `email`: no two stored accounts share one. */
  ghost predicate UniqueEmails(users: Accounts) {
    forall i: Id, j: Id :: users.Has(i) && users.Has(j) && i != j ==>
      users.slots[i].value.email != users.slots[j].value.email
  }

  /** Every stored email is in normal form. */
  ghost predicate NormalizedEmails(users: Accounts) {
    forall i: Id :: users.Has(i) ==> IsLower(users.slots[i].value.email)
  }

  /** `User.findOne({ email })`. */
  function FindByEmail(users: Accounts, email: string): (r: Option<Id>)
    ensures r.Some? ==> users.Has(r.value) && users.slots[r.value].value.email == NormalizeEmail(email)
    ensures r.None? ==> forall id: Id :: users.Has(id) ==> users.slots[id].value.email != NormalizeEmail(email)
  {
    var key := NormalizeEmail(email);
    FindFirst(users, (a: Account) => a.email == key)
  }

  /** With unique emails the account found is the only one with that email. */
  lemma FindByEmailUnique(users: Accounts, email: string, id: Id)
    requires UniqueEmails(users)
    requires users.Has(id) && users.slots[id].value.email == NormalizeEmail(email)
    ensures FindByEmail(users, email) == Some(id)
  {
  }

  /** A ledger entry as pushed for a new report: its `submittedAt` defaults
      to the current instant. */
  function NewEntry(reportId: Id, now: int): (e: LedgerEntry)
    ensures e.reportId == reportId && e.submittedAt == now
  {
    LedgerEntry(reportId, now)
  }
}
