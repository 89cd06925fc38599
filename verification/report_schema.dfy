/** Reports: required fields, the bounded and trimmed title, the closed
    status set with default `pending`, and the upvote list. */
module Reports {
  import opened Common
  import opened Store

  /** `status: { enum: ['pending', 'approved', 'rejected'], default: 'pending' }`. */
  datatype Status = Pending | Approved | Rejected

  function StatusName(s: Status): string {
    match s
    case Pending => "pending"
    case Approved => "approved"
    case Rejected => "rejected"
  }

  /** Enum validation of a status string. */
  function ParseStatus(s: string): (r: Option<Status>)
    ensures r.Some? <==> s == "pending" || s == "approved" || s == "rejected"
    ensures r.Some? ==> StatusName(r.value) == s
  {
    if s == "pending" then Some(Pending)
    else if s == "approved" then Some(Approved)
    else if s == "rejected" then Some(Rejected)
    else None
  }

  lemma StatusNameRoundTrip(s: Status)
    ensures ParseStatus(StatusName(s)) == Some(s)
  {
  }

  /** The three-level location: district, block, locality. */
  datatype Place = Place(district: string, block: string, locality: string)

  datatype Report = Report(
    submittedBy: Id,
    title: string,
    content: string,
    photoUrl: string,
    location: Place,
    status: Status,
    upvotes: seq<Id>,
    createdAt: int)

  type Reports = Table<Report>

  const TITLE_MAX_LENGTH: nat := 100

  /** The fields a citizen submits. */
  datatype ReportInput = ReportInput(title: string, content: string, photoUrl: string, location: Place)

  /** The schema's validators on a new report: after trimming, the title is
      non-empty and at most 100 UTF-16 code units long; content, photo URL and all three
      location parts are present. */
  predicate ValidInput(input: ReportInput) {
    && Trim(input.title) != ""
    && Utf16Length(Trim(input.title)) <= TITLE_MAX_LENGTH
    && input.content != ""
    && input.photoUrl != ""
    && input.location.district != ""
    && input.location.block != ""
    && input.location.locality != ""
  }

  /** What every stored report satisfies. */
  ghost predicate ValidReport(r: Report) {
    && r.title != "" && Utf16Length(r.title) <= TITLE_MAX_LENGTH && IsTrimmed(r.title)
    && r.content != "" && r.photoUrl != ""
    && r.location.district != "" && r.location.block != "" && r.location.locality != ""
    && (forall i, j :: 0 <= i < j < |r.upvotes| ==> r.upvotes[i] != r.upvotes[j])
  }

  /** `new Report({...})`: the trimmed title, status `pending` by default, no
      upvotes yet, created now. */
  function NewReport(owner: Id, input: ReportInput, now: int): (r: Report)
    requires ValidInput(input)
    ensures ValidReport(r)
    ensures r.submittedBy == owner && r.status == Pending && r.upvotes == []
    ensures r.title == Trim(input.title)
    ensures r.location == input.location && r.content == input.content && r.photoUrl == input.photoUrl
    ensures r.createdAt == now
  {
    TrimSpec(input.title);
    Report(owner, Trim(input.title), input.content, input.photoUrl, input.location, Pending, [], now)
  }

  /** The title limit counts UTF-16 code units, as `maxlength` does: sixty
      emoji (each a surrogate pair) make a 120-unit title, which is refused
      although it has only sixty characters. */
  lemma AstralTitleTooLong()
    ensures !ValidInput(ReportInput(seq(60, _ => '\U{1F600}'), "c", "p", Place("Ranchi", "Namkum", "Main Road")))
  {
    var t: string := seq(60, _ => '\U{1F600}');
    assert TrimStart(t) == t;
    assert TrimEnd(t) == t;
    AllAstralDoubles(t);
  }
}
