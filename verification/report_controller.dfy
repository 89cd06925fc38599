/** Report submission by a logged-in citizen, with the daily limit: at most
    three submissions since local midnight, counted on the citizen's ledger. */
module ReportController {
  import opened Common
  import opened Store
  import opened Tokens
  import opened Users
  import opened Reports
  import opened Middleware

  const DAILY_LIMIT: nat := 3

  const USER_NOT_FOUND: string := "User not found."
  const LIMIT_REACHED: string := "You have reached your daily report limit of 3."
  const SUBMITTED: string := "Report submitted successfully!"
  const SUBMIT_FAILED: string := "Server error during report submission."

  /** The two collections a submission touches. */
  datatype Db = Db(users: Accounts, reports: Reports)

  datatype SubmitOutcome = SubmitOutcome(db: Db, reply: Reply<Row<Report>>)

  // ---------------------------------------------------------------------
  // The daily count

  /** How many ledger entries were submitted at or after `dayStart`. */
  function DailyCount(ledger: seq<LedgerEntry>, dayStart: int): (n: nat)
    ensures n <= |ledger|
    decreases |ledger|
  {
    if |ledger| == 0 then 0
    else DailyCount(ledger[..|ledger| - 1], dayStart) + (if ledger[|ledger| - 1].submittedAt >= dayStart then 1 else 0)
  }

  /** The positions of the ledger whose entry falls on or after `dayStart`. */
  ghost function TodaysPositions(ledger: seq<LedgerEntry>, dayStart: int): set<int> {
    set i | 0 <= i < |ledger| && ledger[i].submittedAt >= dayStart
  }

  /** The count is exactly the number of entries stamped at or after
      midnight: earlier entries never count. */
  lemma {:induction false} DailyCountCountsToday(ledger: seq<LedgerEntry>, dayStart: int)
    ensures DailyCount(ledger, dayStart) == |TodaysPositions(ledger, dayStart)|
    decreases |ledger|
  {
    if |ledger| > 0 {
      var n := |ledger| - 1;
      var init := ledger[..n];
      DailyCountCountsToday(init, dayStart);
      var before := TodaysPositions(init, dayStart);
      var after := TodaysPositions(ledger, dayStart);
      if ledger[n].submittedAt >= dayStart {
        assert after == before + {n};
        assert n !in before;
      } else {
        assert after == before;
      }
    }
  }

  /** Appending an entry adds one to the count exactly when it is stamped at
      or after midnight. */
  lemma DailyCountAppend(ledger: seq<LedgerEntry>, e: LedgerEntry, dayStart: int)
    ensures DailyCount(ledger + [e], dayStart) ==
      DailyCount(ledger, dayStart) + (if e.submittedAt >= dayStart then 1 else 0)
  {
    assert (ledger + [e])[..|ledger|] == ledger;
  }

  /** A ledger stamped entirely before midnight counts nothing: yesterday's
      submissions do not limit today's. */
  lemma {:induction false} EarlierDaysDoNotCount(ledger: seq<LedgerEntry>, dayStart: int)
    requires forall i :: 0 <= i < |ledger| ==> ledger[i].submittedAt < dayStart
    ensures DailyCount(ledger, dayStart) == 0
    decreases |ledger|
  {
    if |ledger| > 0 {
      EarlierDaysDoNotCount(ledger[..|ledger| - 1], dayStart);
    }
  }

  // ---------------------------------------------------------------------
  // Submission

  /** `submitReport`. `user` is what the citizen middleware attached: it is
      absent for a token that is not a citizen token, which fails when the
      controller reads its id. Then: unknown user 404; three or more ledger
      entries since `dayStart` 429; a report the schema rejects 500. Only on
      success is anything written: the report is stored `pending` and
      un-upvoted under a fresh id, owned by the caller, and the caller's
      ledger grows by one entry carrying that id and the current time. */
  function SubmitReport(db: Db, user: Option<UserClaim>, input: ReportInput, now: int, dayStart: int): (r: SubmitOutcome)
    ensures user.None? ==> r == SubmitOutcome(db, Err(500, SUBMIT_FAILED))
    ensures user.Some? && !db.users.Has(user.value.id) ==> r == SubmitOutcome(db, Err(404, USER_NOT_FOUND))
    ensures user.Some? && db.users.Has(user.value.id)
            && DailyCount(db.users.slots[user.value.id].value.reports, dayStart) >= 3 ==>
      r == SubmitOutcome(db, Err(429, LIMIT_REACHED))
    ensures r.reply.Err? ==> r.db == db
    ensures r.reply.Ok? <==>
      && user.Some? && db.users.Has(user.value.id)
      && DailyCount(db.users.slots[user.value.id].value.reports, dayStart) < 3
      && ValidInput(input)
    ensures r.reply.Ok? ==>
      var uid := user.value.id;
      var rid := db.reports.NextId();
      var account := db.users.slots[uid].value;
      && r.reply.status == 201
      && r.reply.body.id == rid
      && r.db.reports.Get(rid) == Some(r.reply.body.value)
      && r.reply.body.value.submittedBy == uid
      && r.reply.body.value.status == Status.Pending
      && r.reply.body.value.upvotes == []
      && r.reply.body.value.title == Trim(input.title)
      && r.reply.body.value.content == input.content
      && r.reply.body.value.photoUrl == input.photoUrl
      && r.reply.body.value.location == input.location
      && r.reply.body.value.createdAt == now
      && ValidReport(r.reply.body.value)
      && (forall id: Id :: id != rid ==> r.db.reports.Get(id) == db.reports.Get(id))
      && r.db.users.Get(uid) == Some(account.(reports := account.reports + [LedgerEntry(rid, now)]))
      && (forall id: Id :: id != uid ==> r.db.users.Get(id) == db.users.Get(id))
  {
    match user
    case None => SubmitOutcome(db, Err(SERVER_ERROR, SUBMIT_FAILED))
    case Some(claim) =>
      var uid := claim.id;
      if !db.users.Has(uid) then SubmitOutcome(db, Err(NOT_FOUND, USER_NOT_FOUND))
      else
        var account := db.users.slots[uid].value;
        if DailyCount(account.reports, dayStart) >= DAILY_LIMIT then
          SubmitOutcome(db, Err(TOO_MANY_REQUESTS, LIMIT_REACHED))
        else if !ValidInput(input) then
          SubmitOutcome(db, Err(SERVER_ERROR, SUBMIT_FAILED))
        else
          var report := NewReport(uid, input, now);
          var rid := db.reports.NextId();
          var reports := db.reports.Insert(report);
          var users := db.users.Put(uid, account.(reports := account.reports + [NewEntry(rid, now)]));
          SubmitOutcome(Db(users, reports), Ok(CREATED, SUBMITTED, Row(rid, report)))
  }

  /** The route: the citizen middleware, then the controller. */
  function SubmitRequest(db: Db, header: Option<string>, verify: Verifier, input: ReportInput,
                         now: int, dayStart: int): (r: SubmitOutcome)
    ensures AuthenticateCitizen(header, verify).Deny? ==> r.db == db && r.reply.status == 401
    ensures AuthenticateCitizen(header, verify).Next? ==>
      r == SubmitReport(db, AuthenticateCitizen(header, verify).claim, input, now, dayStart)
  {
    match AuthenticateCitizen(header, verify)
    case Deny(status, message) => SubmitOutcome(db, Err(status, message))
    case Next(user) => SubmitReport(db, user, input, now, dayStart)
  }

  /** A validly signed employee token does not satisfy the citizen route:
      no report is created and no ledger changes. */
  lemma EmployeeTokenCannotSubmit(db: Db, header: Option<string>, verify: Verifier, input: ReportInput,
                                  now: int, dayStart: int, claim: EmployeeClaim)
    requires BearerToken(header).Some?
    requires verify(BearerToken(header).value) == Some(Payload(None, Some(claim)))
    ensures SubmitRequest(db, header, verify, input, now, dayStart).db == db
    ensures SubmitRequest(db, header, verify, input, now, dayStart).reply.Err?
  {
  }

  /** The ledger of `uid` after one step. */
  function LedgerOf(db: Db, uid: Id): seq<LedgerEntry>
    requires db.users.Has(uid)
  {
    db.users.slots[uid].value.reports
  }

  /** Each success during the day raises the caller's daily count by one. */
  lemma SuccessCountsOnce(db: Db, uid: Id, input: ReportInput, now: int, dayStart: int)
    requires dayStart <= now
    requires SubmitReport(db, Some(UserClaim(uid)), input, now, dayStart).reply.Ok?
    ensures SubmitReport(db, Some(UserClaim(uid)), input, now, dayStart).db.users.Has(uid)
    ensures DailyCount(LedgerOf(SubmitReport(db, Some(UserClaim(uid)), input, now, dayStart).db, uid), dayStart)
      == DailyCount(LedgerOf(db, uid), dayStart) + 1
  {
    var r := SubmitReport(db, Some(UserClaim(uid)), input, now, dayStart);
    DailyCountAppend(LedgerOf(db, uid), LedgerEntry(db.reports.NextId(), now), dayStart);
  }

  /** After three successful submissions on the same day (each at or after
      that day's midnight), a fourth is refused with 429 and writes nothing. */
  lemma FourthSubmissionRejected(db0: Db, uid: Id, i1: ReportInput, i2: ReportInput, i3: ReportInput, i4: ReportInput,
                                 t1: int, t2: int, t3: int, t4: int, dayStart: int)
    requires dayStart <= t1 && dayStart <= t2 && dayStart <= t3
    requires SubmitReport(db0, Some(UserClaim(uid)), i1, t1, dayStart).reply.Ok?
    requires SubmitReport(SubmitReport(db0, Some(UserClaim(uid)), i1, t1, dayStart).db,
                          Some(UserClaim(uid)), i2, t2, dayStart).reply.Ok?
    requires SubmitReport(SubmitReport(SubmitReport(db0, Some(UserClaim(uid)), i1, t1, dayStart).db,
                                       Some(UserClaim(uid)), i2, t2, dayStart).db,
                          Some(UserClaim(uid)), i3, t3, dayStart).reply.Ok?
    ensures
      var db3 := SubmitReport(SubmitReport(SubmitReport(db0, Some(UserClaim(uid)), i1, t1, dayStart).db,
                                           Some(UserClaim(uid)), i2, t2, dayStart).db,
                              Some(UserClaim(uid)), i3, t3, dayStart).db;
      SubmitReport(db3, Some(UserClaim(uid)), i4, t4, dayStart) == SubmitOutcome(db3, Err(429, LIMIT_REACHED))
  {
    var db1 := SubmitReport(db0, Some(UserClaim(uid)), i1, t1, dayStart).db;
    var db2 := SubmitReport(db1, Some(UserClaim(uid)), i2, t2, dayStart).db;
    var db3 := SubmitReport(db2, Some(UserClaim(uid)), i3, t3, dayStart).db;
    SuccessCountsOnce(db0, uid, i1, t1, dayStart);
    SuccessCountsOnce(db1, uid, i2, t2, dayStart);
    SuccessCountsOnce(db2, uid, i3, t3, dayStart);
  }

  /** The midnight boundary: a ledger filled entirely before `dayStart` (for
      instance at 23:59:59 the day before) does not stop a valid submission
      at or after it. */
  lemma NewDayAdmitsSubmission(db: Db, uid: Id, input: ReportInput, now: int, dayStart: int)
    requires db.users.Has(uid) && ValidInput(input)
    requires forall i :: 0 <= i < |LedgerOf(db, uid)| ==> LedgerOf(db, uid)[i].submittedAt < dayStart
    ensures SubmitReport(db, Some(UserClaim(uid)), input, now, dayStart).reply.Ok?
  {
    EarlierDaysDoNotCount(LedgerOf(db, uid), dayStart);
  }
}
