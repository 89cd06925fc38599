/** Citizen sign-up, e-mail verification by one-time code, and password
    login. An account moves from absent to unverified-with-pending-code to
    verified; sign-up may be repeated while the account is unverified, and
    each repetition replaces the pending code. */
module AuthController {
  import opened Common
  import opened Store
  import opened Tokens
  import opened Users

  const OTP_LENGTH: nat := 6

  /** `Date.now() + 10 * 60 * 1000`: a code lives ten minutes. */
  const OTP_LIFETIME_MS: int := 10 * 60 * 1000

  const ALREADY_REGISTERED: string := "User with this email already exists and is verified."
  const SIGNUP_OK: string := "Registration successful! Please check your email for the OTP."
  const SIGNUP_FAILED: string := "Server error during signup."
  const USER_NOT_FOUND: string := "User not found."
  const ALREADY_VERIFIED: string := "User is already verified."
  const OTP_EXPIRED: string := "OTP has expired. Please sign up again."
  const INVALID_OTP: string := "Invalid OTP."
  const VERIFIED_OK: string := "Email verified successfully! You are now logged in."
  const NOT_VERIFIED: string := "Your email is not verified. Please complete the OTP verification process."
  const INVALID_CREDENTIALS: string := "Invalid credentials."
  const LOGGED_IN: string := "Logged in successfully."

  // ---------------------------------------------------------------------
  // Code generation

  function Pow10(k: nat): (p: nat)
    ensures p >= 1
  {
    if k == 0 then 1 else 10 * Pow10(k - 1)
  }

  function DigitChar(d: nat): (c: char)
    requires d < 10
    ensures IsDigit(c) && c as int - '0' as int == d
  {
    ('0' as int + d) as char
  }

  /** The last `k` decimal digits of `n`, most significant first. */
  function Digits(n: nat, k: nat): (s: string)
    ensures |s| == k && AllDigits(s)
    decreases k
  {
    if k == 0 then [] else Digits(n / 10, k - 1) + [DigitChar(n % 10)]
  }

  /** The number a digit string denotes. */
  function DecimalValue(s: string): nat
    requires AllDigits(s)
    decreases |s|
  {
    if |s| == 0 then 0
    else 10 * DecimalValue(s[..|s| - 1]) + (s[|s| - 1] as int - '0' as int)
  }

  /** `otpGenerator.generate(6, { digits only })`; the random source is the
      parameter `seed`. The code is six characters, all digits. */
  function GenerateOtp(seed: nat): (otp: string)
    ensures |otp| == OTP_LENGTH && AllDigits(otp)
  {
    Digits(seed, OTP_LENGTH)
  }

  /** The code spells out `seed` modulo 10^6, so every six-digit code is
      reachable and distinct residues give distinct codes. */
  lemma {:induction false} DigitsValue(n: nat, k: nat)
    ensures DecimalValue(Digits(n, k)) == n % Pow10(k)
    decreases k
  {
    if k > 0 {
      var s := Digits(n, k);
      assert s[..|s| - 1] == Digits(n / 10, k - 1);
      DigitsValue(n / 10, k - 1);
      ModSplit(n, Pow10(k - 1));
    }
  }

  /** n mod 10p, split into the last digit and the rest. */
  lemma ModSplit(n: nat, p: nat)
    requires p >= 1
    ensures n % (10 * p) == 10 * ((n / 10) % p) + n % 10
  {
    var q, r := n / 10, n % 10;
    var a, b := q / p, q % p;
    assert n == 10 * q + r;
    assert q == p * a + b;
    assert n == (10 * p) * a + (10 * b + r);
    assert 0 <= 10 * b + r < 10 * p;
    ModUnique(n, 10 * p, a, 10 * b + r);
  }

  lemma ModUnique(n: int, m: int, a: int, x: int)
    requires m > 0 && 0 <= x < m && n == m * a + x
    ensures n % m == x
  {
    var a', x' := n / m, n % m;
    var d := a' - a;
    assert m * a' == m * a + m * d;
    assert m * d == x - x';
    MulBounds(m, d);
    assert d == 0;
  }

  lemma MulBounds(m: int, d: int)
    requires m > 0
    ensures d >= 1 ==> m * d >= m
    ensures d <= -1 ==> m * d <= -m
  {
    if d >= 1 {
      assert m * d == m * (d - 1) + m;
    } else if d <= -1 {
      assert m * d == m * (d + 1) - m;
    }
  }

  lemma OtpEncodesSeed(seed: nat)
    ensures DecimalValue(GenerateOtp(seed)) == seed % 1000000
  {
    DigitsValue(seed, OTP_LENGTH);
  }

  // ---------------------------------------------------------------------
  // Sign-up

  /** The store after the request, and the reply (the account id on success). */
  datatype SignupOutcome = SignupOutcome(users: Accounts, reply: Reply<Id>)

  /** The pending challenge sign-up installs: the hashed code, expiring ten
      minutes from now. */
  function Challenge(crypto: Crypto, seed: nat, now: int): (v: Verification)
    ensures v.Pending? && v.otpExpires == now + 600000
  {
    Pending(crypto.hash(GenerateOtp(seed)), now + OTP_LIFETIME_MS)
  }

  /** `users'` differs from `users` only in account `id`, which holds the
      given name, the hashed password and the given challenge, keeps (or,
      when new, starts with) its ledger, and has the normalised email. */
  ghost predicate Overwrote(users: Accounts, users': Accounts, id: Id, email: string, name: string,
                            passwordHash: string, v: Verification)
  {
    && users'.Has(id)
    && users'.slots[id].value.email == NormalizeEmail(email)
    && users'.slots[id].value.name == name
    && users'.slots[id].value.passwordHash == passwordHash
    && users'.slots[id].value.verification == v
    && users'.slots[id].value.reports == (if users.Has(id) then users.slots[id].value.reports else [])
    && (forall other: Id :: other != id ==> users'.Get(other) == users.Get(other))
  }

  /** `signup`. A verified email is refused with 400 and nothing is written.
      Otherwise the unverified account with that email is reused (no second
      account), or a new one is created under a fresh id; either way name,
      password hash, code hash and expiry are (re)written. The record is
      saved before the code is mailed, so a mail failure answers 500 with
      the record already written. A record the schema rejects is not saved. */
  function Signup(users: Accounts, crypto: Crypto, name: string, email: string, password: string,
                  seed: nat, now: int, mailOk: bool): (r: SignupOutcome)
    ensures FindByEmail(users, email).Some? && users.slots[FindByEmail(users, email).value].value.verification.Verified? ==>
      r.users == users && r.reply == Err(400, ALREADY_REGISTERED)
    ensures FindByEmail(users, email).Some? && users.slots[FindByEmail(users, email).value].value.verification.Pending?
            && ValidSignup(email, password) ==>
      && r.users.NextId() == users.NextId()
      && Overwrote(users, r.users, FindByEmail(users, email).value, email, name, crypto.hash(password), Challenge(crypto, seed, now))
    ensures FindByEmail(users, email).None? && ValidSignup(email, password) ==>
      && r.users.NextId() == users.NextId() + 1
      && Overwrote(users, r.users, users.NextId(), email, name, crypto.hash(password), Challenge(crypto, seed, now))
    ensures !ValidSignup(email, password) ==> r.users == users && r.reply.Err?
    ensures r.reply.Ok? <==>
      && mailOk && ValidSignup(email, password)
      && !(FindByEmail(users, email).Some? && users.slots[FindByEmail(users, email).value].value.verification.Verified?)
    ensures r.reply.Ok? ==> r.reply.status == 201 && r.users.Has(r.reply.body)
    ensures r.reply.Err? ==> r.reply.status in {400, 500}
  {
    var existing := FindByEmail(users, email);
    if existing.Some? && users.slots[existing.value].value.verification.Verified? then
      SignupOutcome(users, Err(BAD_REQUEST, ALREADY_REGISTERED))
    else if !ValidSignup(email, password) then
      SignupOutcome(users, Err(SERVER_ERROR, SIGNUP_FAILED))
    else
      var challenge := Challenge(crypto, seed, now);
      var id := if existing.Some? then existing.value else users.NextId();
      var saved :=
        if existing.Some? then
          var a := users.slots[id].value;
          users.Put(id, a.(name := name, passwordHash := crypto.hash(password), verification := challenge))
        else
          users.Insert(Account(NormalizeEmail(email), name, crypto.hash(password), challenge, []));
      if mailOk then SignupOutcome(saved, Ok(CREATED, SIGNUP_OK, id))
      else SignupOutcome(saved, Err(SERVER_ERROR, SIGNUP_FAILED))
  }

  /** Sign-up keeps emails unique and in normal form. */
  lemma SignupPreservesUniqueEmails(users: Accounts, crypto: Crypto, name: string, email: string, password: string,
                                    seed: nat, now: int, mailOk: bool)
    requires UniqueEmails(users) && NormalizedEmails(users)
    ensures UniqueEmails(Signup(users, crypto, name, email, password, seed, now, mailOk).users)
    ensures NormalizedEmails(Signup(users, crypto, name, email, password, seed, now, mailOk).users)
  {
    var r := Signup(users, crypto, name, email, password, seed, now, mailOk);
    var existing := FindByEmail(users, email);
    if r.users != users {
      var id := if existing.Some? then existing.value else users.NextId();
      assert Overwrote(users, r.users, id, email, name, crypto.hash(password), Challenge(crypto, seed, now));
      forall i: Id, j: Id | r.users.Has(i) && r.users.Has(j) && i != j
        ensures r.users.slots[i].value.email != r.users.slots[j].value.email
      {
        if i != id && j != id {
          assert r.users.Get(i) == users.Get(i) && r.users.Get(j) == users.Get(j);
        } else if i == id {
          assert r.users.Get(j) == users.Get(j);
        } else {
          assert r.users.Get(i) == users.Get(i);
        }
      }
      forall i: Id | r.users.Has(i)
        ensures IsLower(r.users.slots[i].value.email)
      {
        if i != id {
          assert r.users.Get(i) == users.Get(i);
        }
      }
    }
  }

  // ---------------------------------------------------------------------
  // Verification

  datatype VerifyOutcome = VerifyOutcome(users: Accounts, reply: Reply<Session>)

  /** `verifyOtp`. The checks run in this order: unknown email (404), already
      verified (400), expired (400, only when the expiry lies strictly in the
      past), wrong code (400). Success marks the account verified, which
      drops the code and its expiry, and logs the citizen in. Failures write
      nothing. */
  function VerifyOtp(users: Accounts, crypto: Crypto, email: string, otp: string, now: int): (r: VerifyOutcome)
    ensures FindByEmail(users, email).None? ==> r == VerifyOutcome(users, Err(404, USER_NOT_FOUND))
    ensures FindByEmail(users, email).Some? ==>
      var id := FindByEmail(users, email).value;
      var a := users.slots[id].value;
      && (a.verification.Verified? ==> r == VerifyOutcome(users, Err(400, ALREADY_VERIFIED)))
      && (a.verification.Pending? && a.verification.otpExpires < now ==>
            r == VerifyOutcome(users, Err(400, OTP_EXPIRED)))
      && (a.verification.Pending? && now <= a.verification.otpExpires && !crypto.matches(otp, a.verification.otpHash) ==>
            r == VerifyOutcome(users, Err(400, INVALID_OTP)))
      && (a.verification.Pending? && now <= a.verification.otpExpires && crypto.matches(otp, a.verification.otpHash) ==>
            && r.reply == Ok(200, VERIFIED_OK, CitizenSession(id))
            && r.users.Get(id) == Some(a.(verification := Verified))
            && (forall other: Id :: other != id ==> r.users.Get(other) == users.Get(other)))
    ensures r.reply.Err? ==> r.users == users
    ensures r.users.NextId() == users.NextId()
  {
    match FindByEmail(users, email)
    case None => VerifyOutcome(users, Err(NOT_FOUND, USER_NOT_FOUND))
    case Some(id) =>
      var a := users.slots[id].value;
      match a.verification
      case Verified => VerifyOutcome(users, Err(BAD_REQUEST, ALREADY_VERIFIED))
      case Pending(otpHash, otpExpires) =>
        if otpExpires < now then VerifyOutcome(users, Err(BAD_REQUEST, OTP_EXPIRED))
        else if !crypto.matches(otp, otpHash) then VerifyOutcome(users, Err(BAD_REQUEST, INVALID_OTP))
        else VerifyOutcome(users.Put(id, a.(verification := Verified)), Ok(OK, VERIFIED_OK, CitizenSession(id)))
  }

  /** Verification succeeds at most once: once it has, any further attempt,
      with any code at any time, is answered "already verified". */
  lemma VerifyOnlyOnce(users: Accounts, crypto: Crypto, email: string, otp: string, now: int, otp': string, now': int)
    requires VerifyOtp(users, crypto, email, otp, now).reply.Ok?
    ensures VerifyOtp(VerifyOtp(users, crypto, email, otp, now).users, crypto, email, otp', now').reply
      == Err(400, ALREADY_VERIFIED)
  {
    var id := FindByEmail(users, email).value;
    var a := users.slots[id].value;
    var key := NormalizeEmail(email);
    FindFirstAfterPut(users, (x: Account) => x.email == key, id, a.(verification := Verified));
  }

  // ---------------------------------------------------------------------
  // Login

  /** `login`: unknown email 404; an unverified account 400 before any
      password comparison; wrong password 400 "Invalid credentials."; else a
      five-day citizen token. Login writes nothing. */
  function Login(users: Accounts, crypto: Crypto, email: string, password: string): (r: Reply<Session>)
    ensures FindByEmail(users, email).None? ==> r == Err(404, USER_NOT_FOUND)
    ensures FindByEmail(users, email).Some? ==>
      var id := FindByEmail(users, email).value;
      var a := users.slots[id].value;
      && (a.verification.Pending? ==> r == Err(400, NOT_VERIFIED))
      && (a.verification.Verified? && !crypto.matches(password, a.passwordHash) ==> r == Err(400, INVALID_CREDENTIALS))
      && (a.verification.Verified? && crypto.matches(password, a.passwordHash) ==>
            r == Ok(200, LOGGED_IN, CitizenSession(id)))
  {
    match FindByEmail(users, email)
    case None => Err(NOT_FOUND, USER_NOT_FOUND)
    case Some(id) =>
      var a := users.slots[id].value;
      if a.verification.Pending? then Err(BAD_REQUEST, NOT_VERIFIED)
      else if !crypto.matches(password, a.passwordHash) then Err(BAD_REQUEST, INVALID_CREDENTIALS)
      else Ok(OK, LOGGED_IN, CitizenSession(id))
  }

  /** For an unverified account the answer does not depend on the password,
      and it differs from the wrong-password answer. */
  lemma UnverifiedLoginIgnoresPassword(users: Accounts, crypto: Crypto, email: string, p1: string, p2: string)
    requires FindByEmail(users, email).Some?
    requires users.slots[FindByEmail(users, email).value].value.verification.Pending?
    ensures Login(users, crypto, email, p1) == Login(users, crypto, email, p2)
    ensures Login(users, crypto, email, p1) != Err(400, INVALID_CREDENTIALS)
  {
  }

  /** The whole life cycle: after a successful sign-up, the mailed code
      verifies the account at any instant up to and including its expiry,
      and the password then logs in. Assumes only that `matches` accepts
      what `hash` produced. */
  lemma {:induction false} SignupVerifyLogin(users: Accounts, crypto: Crypto, name: string, email: string, password: string,
                                             seed: nat, now: int, now': int)
    requires UniqueEmails(users) && NormalizedEmails(users)
    requires forall s :: crypto.matches(s, crypto.hash(s))
    requires Signup(users, crypto, name, email, password, seed, now, true).reply.Ok?
    requires now' <= now + OTP_LIFETIME_MS
    ensures
      var signed := Signup(users, crypto, name, email, password, seed, now, true);
      var verified := VerifyOtp(signed.users, crypto, email, GenerateOtp(seed), now');
      && verified.reply.Ok?
      && Login(verified.users, crypto, email, password).Ok?
  {
    var signed := Signup(users, crypto, name, email, password, seed, now, true);
    SignupPreservesUniqueEmails(users, crypto, name, email, password, seed, now, true);
    var id := signed.reply.body;
    var existing := FindByEmail(users, email);
    assert Overwrote(users, signed.users, id, email, name, crypto.hash(password), Challenge(crypto, seed, now));
    FindByEmailUnique(signed.users, email, id);
    assert crypto.matches(GenerateOtp(seed), crypto.hash(GenerateOtp(seed)));
    var verified := VerifyOtp(signed.users, crypto, email, GenerateOtp(seed), now');
    var a := signed.users.slots[id].value;
    var key := NormalizeEmail(email);
    FindFirstAfterPut(signed.users, (x: Account) => x.email == key, id, a.(verification := Verified));
    assert crypto.matches(password, crypto.hash(password));
  }
}
