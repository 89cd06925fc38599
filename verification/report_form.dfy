/** The report form page: field updates, the district/block dependency,
    photo selection, and the checks made before a report is sent. */
module ReportForm {
  import opened Common
  import opened Reports
  import opened Middleware

  datatype File = File(name: string, mimeType: string)

  datatype Form = Form(
    title: string,
    description: string,
    district: string,
    block: string,
    locality: string,
    category: string,
    photo: Option<File>)

  const EMPTY_FORM: Form := Form("", "", "", "", "", "", None)

  /** The fields wired to `handleInputChange` (the district has its own
      handler). */
  datatype Field = Title | Description | Block | Locality | Category

  function FieldValue(form: Form, field: Field): string {
    match field
    case Title => form.title
    case Description => form.description
    case Block => form.block
    case Locality => form.locality
    case Category => form.category
  }

  /** `handleInputChange`: the named field takes the new value; every other
      field, the district and the photo included, is kept. */
  function InputChange(form: Form, field: Field, value: string): (r: Form)
    ensures FieldValue(r, field) == value
    ensures forall f :: f != field ==> FieldValue(r, f) == FieldValue(form, f)
    ensures r.district == form.district && r.photo == form.photo
  {
    match field
    case Title => form.(title := value)
    case Description => form.(description := value)
    case Block => form.(block := value)
    case Locality => form.(locality := value)
    case Category => form.(category := value)
  }

  /** A later change of the same field overrides an earlier one. */
  lemma LastInputWins(form: Form, field: Field, a: string, b: string)
    ensures InputChange(InputChange(form, field, a), field, b) == InputChange(form, field, b)
  {
  }

  /** Changes to different fields can be made in either order. */
  lemma InputsCommute(form: Form, f: Field, g: Field, a: string, b: string)
    requires f != g
    ensures InputChange(InputChange(form, f, a), g, b) == InputChange(InputChange(form, g, b), f, a)
  {
  }

  /** `handleDistrictChange`: the district takes the new value and the
      block is always cleared, even when the district is the same. */
  function DistrictChange(form: Form, district: string): (r: Form)
    ensures r.district == district && r.block == ""
    ensures r.(district := form.district, block := form.block) == form
  {
    form.(district := district, block := "")
  }

  const IMAGE_PREFIX: string := "image/"

  /** `handleFileSelect`: a file whose MIME type starts with `image/` is
      kept as the photo; no file or any other file leaves the form as it
      was. */
  function FileSelect(form: Form, file: Option<File>): (r: Form)
    ensures file.Some? && StartsWith(file.value.mimeType, "image/") ==> r == form.(photo := file)
    ensures !(file.Some? && StartsWith(file.value.mimeType, "image/")) ==> r == form
    ensures r.photo.Some? ==> r.photo == form.photo || StartsWith(r.photo.value.mimeType, "image/")
  {
    if file.Some? && StartsWith(file.value.mimeType, IMAGE_PREFIX) then form.(photo := file) else form
  }

  /** Once an image is chosen, every later photo stays an image. */
  ghost predicate PhotoIsImage(form: Form) {
    form.photo.Some? ==> StartsWith(form.photo.value.mimeType, "image/")
  }

  lemma FileSelectKeepsImage(form: Form, file: Option<File>)
    requires PhotoIsImage(form)
    ensures PhotoIsImage(FileSelect(form, file))
  {
  }

  /** The validation in `submitReport`: every text field non-empty and a
      photo chosen. */
  predicate Complete(form: Form) {
    && form.title != "" && form.description != "" && form.district != ""
    && form.block != "" && form.locality != "" && form.category != ""
    && form.photo.Some?
  }

  /** What a submission attempt does. */
  datatype Submission =
    | Incomplete
    | SignInRequired
    | Send(header: string, location: Place, title: string, description: string, category: string, photo: File)

  /** `submitReport`: validation first, then the location triple is built
      from the form, then a stored token is required before any request is
      made; the request authenticates with `Bearer <token>`. */
  function SubmitPlan(form: Form, token: Option<string>): (s: Submission)
    ensures s.Incomplete? <==> !Complete(form)
    ensures s.SignInRequired? <==> Complete(form) && (token.None? || token.value == "")
    ensures s.Send? ==>
      && s.location == Place(form.district, form.block, form.locality)
      && s.header == "Bearer " + token.value
      && token.value != ""
      && s.title == form.title && s.description == form.description && s.category == form.category
      && form.photo == Some(s.photo)
  {
    if !Complete(form) then Incomplete
    else
      var location := Place(form.district, form.block, form.locality);
      if token.None? || token.value == "" then SignInRequired
      else Send(BEARER_PREFIX + token.value, location, form.title, form.description, form.category, form.photo.value)
  }

  /** The header the form sends is parsed back to the stored token by the
      citizen middleware (tokens carry no spaces). */
  lemma SentHeaderCarriesToken(form: Form, token: string)
    requires Complete(form) && token != "" && ' ' !in token
    ensures SubmitPlan(form, Some(token)).Send?
    ensures BearerToken(Some(SubmitPlan(form, Some(token)).header)) == Some(token)
  {
    BearerRoundTrip(token);
  }

  /** Changing the district empties the block, so the form cannot be sent
      until a block is picked again. */
  lemma DistrictChangeBlocksSubmit(form: Form, district: string, token: Option<string>)
    ensures SubmitPlan(DistrictChange(form, district), token) == Incomplete
  {
  }

  /** The empty form is never sent. */
  lemma EmptyFormIncomplete(token: Option<string>)
    ensures SubmitPlan(EMPTY_FORM, token) == Incomplete
  {
  }

  // ---------------------------------------------------------------------
  // Districts and blocks

  datatype DistrictBlocks = DistrictBlocks(district: string, blocks: seq<string>)

  /** The district table of the page, including the placeholder entry
      under the empty key. */
  const DISTRICT_TABLE: seq<DistrictBlocks> := [
    DistrictBlocks("", ["Select a district first"]),
    DistrictBlocks("Bokaro", ["Bokaro", "Chas", "Chandankiyari", "Bermo"]),
    DistrictBlocks("Chatra", ["Chatra", "Pratappur", "Gidhour", "Simaria"]),
    DistrictBlocks("Deoghar", ["Deoghar", "Sarwan", "Sonaraithari", "Madhupur"]),
    DistrictBlocks("Dhanbad", ["Dhanbad", "Jharia", "Tundi", "Topchanchi"]),
    DistrictBlocks("Dumka", ["Dumka", "Masalia", "Jama", "Jarmundi"]),
    DistrictBlocks("East Singhbhum", ["Jamshedpur", "Potka", "Ghatshila", "Musabani"]),
    DistrictBlocks("Garhwa", ["Garhwa", "Kandi", "Ramna", "Bhandaria"]),
    DistrictBlocks("Giridih", ["Giridih", "Bagodar", "Suriya", "Gawan"]),
    DistrictBlocks("Godda", ["Godda", "Mahagama", "Poreyahat", "Sunderpahari"]),
    DistrictBlocks("Gumla", ["Gumla", "Palkot", "Raidih", "Sisai"]),
    DistrictBlocks("Hazaribagh", ["Hazaribagh", "Barhi", "Ichak", "Padma"]),
    DistrictBlocks("Jamtara", ["Jamtara", "Nala", "Kundhit", "Fategarh"]),
    DistrictBlocks("Khunti", ["Khunti", "Karra", "Murhu", "Torpa"]),
    DistrictBlocks("Koderma", ["Koderma", "Satgawan", "Jainagar", "Markacho"]),
    DistrictBlocks("Latehar", ["Latehar", "Mahuadanr", "Balumath", "Mankiya"]),
    DistrictBlocks("Lohardaga", ["Lohardaga", "Kisko", "Senha", "Bhandra"]),
    DistrictBlocks("Pakur", ["Pakur", "Mahespur", "Hiranpur", "Amrapara"]),
    DistrictBlocks("Palamu", ["Daltonganj", "Lesliganj", "Satbarwa", "Panki"]),
    DistrictBlocks("Ramgarh", ["Ramgarh", "Mandu", "Gola", "Patratu"]),
    DistrictBlocks("Ranchi", ["Ranchi", "Namkum", "Mandar", "Ormanjhi"]),
    DistrictBlocks("Sahebganj", ["Sahebganj", "Barhait", "Pathna", "Taljhari"]),
    DistrictBlocks("Seraikela Kharsawan", ["Seraikela", "Kharsawan", "Gamharia", "Ichagarh"]),
    DistrictBlocks("Simdega", ["Simdega", "Bansjor", "Jaldega", "Kolebira"]),
    DistrictBlocks("West Singhbhum", ["Chaibasa", "Manjhari", "Tonto", "Jagannathpur"])
  ]

  /** The block list stored under `district`, from entry `i` on. */
  function LookupFrom(table: seq<DistrictBlocks>, district: string, i: nat): (r: Option<seq<string>>)
    requires i <= |table|
    ensures r.Some? ==> exists k :: i <= k < |table| && table[k] == DistrictBlocks(district, r.value)
    ensures r.None? ==> forall k :: i <= k < |table| ==> table[k].district != district
    decreases |table| - i
  {
    if i == |table| then None
    else if table[i].district == district then Some(table[i].blocks)
    else LookupFrom(table, district, i + 1)
  }

  /** The districts offered in the district dropdown: every key but the
      empty one. */
  function DistrictOptions(): (r: seq<string>)
    ensures forall k :: 0 <= k < |r| ==> r[k] != ""
    ensures forall d :: d in r <==> d != "" && exists k :: 0 <= k < |DISTRICT_TABLE| && DISTRICT_TABLE[k].district == d
  {
    var keys := seq(|DISTRICT_TABLE|, k requires 0 <= k < |DISTRICT_TABLE| => DISTRICT_TABLE[k].district);
    forall d | exists k :: 0 <= k < |DISTRICT_TABLE| && DISTRICT_TABLE[k].district == d ensures d in keys {
      var k :| 0 <= k < |DISTRICT_TABLE| && DISTRICT_TABLE[k].district == d;
      assert keys[k] == d;
    }
    FilterNonEmpty(keys)
  }

  function FilterNonEmpty(s: seq<string>): (r: seq<string>)
    ensures forall k :: 0 <= k < |r| ==> r[k] != ""
    ensures forall x :: x in r <==> x in s && x != ""
    decreases |s|
  {
    if |s| == 0 then []
    else
      assert s == [s[0]] + s[1..];
      if s[0] != "" then [s[0]] + FilterNonEmpty(s[1..]) else FilterNonEmpty(s[1..])
  }

  /** The options of the block dropdown: none while no district is chosen;
      otherwise the block list of the chosen district. A district that is
      not in the table has no list, and rendering it fails. */
  function BlockOptions(district: string): (r: Option<seq<string>>)
    ensures district == "" ==> r == Some([])
    ensures district != "" && r.Some? ==>
      exists k :: 0 <= k < |DISTRICT_TABLE| && DISTRICT_TABLE[k] == DistrictBlocks(district, r.value)
    ensures district != "" && r.None? ==>
      forall k :: 0 <= k < |DISTRICT_TABLE| ==> DISTRICT_TABLE[k].district != district
  {
    if district == "" then Some([]) else LookupFrom(DISTRICT_TABLE, district, 0)
  }

  /** Each district of the table appears once. */
  lemma DistrictKeysDistinct()
    ensures forall i, j :: 0 <= i < j < |DISTRICT_TABLE| ==> DISTRICT_TABLE[i].district != DISTRICT_TABLE[j].district
  {
  }

  /** Every entry after the placeholder lists four named blocks. */
  lemma TableShape()
    ensures DISTRICT_TABLE[0].district == ""
    ensures forall k :: 1 <= k < |DISTRICT_TABLE| ==>
      |DISTRICT_TABLE[k].blocks| == 4 && forall j :: 0 <= j < 4 ==> DISTRICT_TABLE[k].blocks[j] != ""
  {
  }

  /** With distinct keys, the lookup finds the entry of its key. */
  lemma {:induction false} LookupFinds(table: seq<DistrictBlocks>, k: nat, i: nat)
    requires forall a, b :: 0 <= a < b < |table| ==> table[a].district != table[b].district
    requires i <= k < |table|
    ensures LookupFrom(table, table[k].district, i) == Some(table[k].blocks)
    decreases k - i
  {
    if i < k {
      assert table[i].district != table[k].district;
      LookupFinds(table, k, i + 1);
    }
  }

  /** Every district the dropdown offers has exactly its own entry's
      blocks: four non-empty names. */
  lemma OfferedDistrictsHaveBlocks(d: string)
    requires d in DistrictOptions()
    ensures BlockOptions(d).Some?
    ensures |BlockOptions(d).value| == 4
    ensures forall b :: b in BlockOptions(d).value ==> b != ""
  {
    DistrictKeysDistinct();
    TableShape();
    var k :| 0 <= k < |DISTRICT_TABLE| && DISTRICT_TABLE[k].district == d;
    LookupFinds(DISTRICT_TABLE, k, 0);
  }
}
