/** The OTP entry page: six one-character cells, typed into one at a time
    or filled by a paste, joined into the code sent for verification. */
module OtpPage {
  import opened Common

  const CELL_COUNT: nat := 6
  const EMPTY_CELLS: seq<string> := ["", "", "", "", "", ""]

  /** What the inputs can hold: six cells, each empty or one digit (the
      inputs have `maxLength="1"`). */
  ghost predicate ValidCells(cells: seq<string>) {
    |cells| == CELL_COUNT && forall i :: 0 <= i < |cells| ==> |cells[i]| <= 1 && AllDigits(cells[i])
  }

  /** `handleOtpChange`: a value that is not all digits (the test
      `/^\d*$/`) is ignored; otherwise it is written to its cell and no
      other cell changes. */
  function OtpChange(cells: seq<string>, index: nat, value: string): (r: seq<string>)
    requires index < |cells|
    ensures !AllDigits(value) ==> r == cells
    ensures AllDigits(value) ==>
      |r| == |cells| && r[index] == value && forall j :: 0 <= j < |cells| && j != index ==> r[j] == cells[j]
    ensures ValidCells(cells) && |value| <= 1 ==> ValidCells(r)
  {
    if !AllDigits(value) then cells else cells[index := value]
  }

  /** `replace(/\D/g, '')`: the digits of `text`, in order. */
  function DigitsOnly(text: string): (r: string)
    ensures AllDigits(r) && |r| <= |text|
    ensures forall c :: IsDigit(c) ==> multiset(r)[c] == multiset(text)[c]
    ensures forall c :: !IsDigit(c) ==> multiset(r)[c] == 0
    decreases |text|
  {
    if |text| == 0 then []
    else
      assert text == [text[0]] + text[1..];
      if IsDigit(text[0]) then [text[0]] + DigitsOnly(text[1..]) else DigitsOnly(text[1..])
  }

  lemma {:induction false} DigitsOnlyOfDigits(text: string)
    requires AllDigits(text)
    ensures DigitsOnly(text) == text
    decreases |text|
  {
    if |text| > 0 {
      DigitsOnlyOfDigits(text[1..]);
    }
  }

  /** The cells after a paste, together with the cell that gets focus. */
  datatype Pasted = Pasted(cells: seq<string>, focus: nat)

  /** The first empty cell at or after `i`, if any. */
  function FirstEmptyFrom(cells: seq<string>, i: nat): (r: Option<nat>)
    requires i <= |cells|
    ensures r.Some? ==> i <= r.value < |cells| && cells[r.value] == ""
    ensures r.Some? ==> forall j :: i <= j < r.value ==> cells[j] != ""
    ensures r.None? ==> forall j :: i <= j < |cells| ==> cells[j] != ""
    decreases |cells| - i
  {
    if i == |cells| then None
    else if cells[i] == "" then Some(i)
    else FirstEmptyFrom(cells, i + 1)
  }

  /** The cells with the first `|digits|` overwritten, one digit each. */
  function Overwrite(cells: seq<string>, digits: string): (r: seq<string>)
    requires |digits| <= |cells|
    ensures |r| == |cells|
    ensures forall i :: 0 <= i < |digits| ==> r[i] == [digits[i]]
    ensures forall i :: |digits| <= i < |cells| ==> r[i] == cells[i]
  {
    seq(|cells|, i requires 0 <= i < |cells| => if i < |digits| then [digits[i]] else cells[i])
  }

  /** `handlePaste`: the digits of the clipboard text, at most six of them,
      fill the cells from the first one on; the remaining cells keep their
      contents. Focus goes to the first empty cell, or to the last cell when
      none is empty. */
  function Paste(cells: seq<string>, text: string): (r: Pasted)
    requires |cells| == CELL_COUNT
    ensures var d := DigitsOnly(text);
      var k := if |d| < CELL_COUNT then |d| else CELL_COUNT;
      && |r.cells| == CELL_COUNT
      && (forall i :: 0 <= i < k ==> r.cells[i] == [d[i]])
      && (forall i :: k <= i < CELL_COUNT ==> r.cells[i] == cells[i])
    ensures r.focus < CELL_COUNT
    ensures forall j :: 0 <= j < r.focus ==> r.cells[j] != ""
    ensures r.cells[r.focus] == "" || r.focus == CELL_COUNT - 1
  {
    var d := DigitsOnly(text);
    var pasted := if |d| < CELL_COUNT then d else d[..CELL_COUNT];
    var next := Overwrite(cells, pasted);
    var focus := match FirstEmptyFrom(next, 0) case Some(i) => i case None => CELL_COUNT - 1;
    Pasted(next, focus)
  }

  /** A paste keeps the cells valid: each still holds at most one digit. */
  lemma PasteKeepsValid(cells: seq<string>, text: string)
    requires ValidCells(cells)
    ensures ValidCells(Paste(cells, text).cells)
  {
    var d := DigitsOnly(text);
    var next := Paste(cells, text).cells;
    forall i | 0 <= i < CELL_COUNT ensures |next[i]| <= 1 && AllDigits(next[i]) {
      if i < |d| {
        assert next[i] == [d[i]];
      }
    }
  }

  /** The typed code: the cells joined together. */
  function Code(cells: seq<string>): string
    decreases |cells|
  {
    if |cells| == 0 then "" else cells[0] + Code(cells[1..])
  }

  /** Cells of at most one character join to the cell count exactly when
      none is empty. */
  lemma {:induction false} CodeLength(cells: seq<string>)
    requires forall i :: 0 <= i < |cells| ==> |cells[i]| <= 1
    ensures |Code(cells)| <= |cells|
    ensures |Code(cells)| == |cells| <==> forall i :: 0 <= i < |cells| ==> cells[i] != ""
    decreases |cells|
  {
    if |cells| > 0 {
      CodeLength(cells[1..]);
      assert forall i :: 1 <= i < |cells| ==> cells[i] == cells[1..][i - 1];
    }
  }

  lemma {:induction false} CodeDigits(cells: seq<string>)
    requires forall i :: 0 <= i < |cells| ==> AllDigits(cells[i])
    ensures AllDigits(Code(cells))
    decreases |cells|
  {
    if |cells| > 0 {
      CodeDigits(cells[1..]);
      var rest := Code(cells[1..]);
      assert forall j :: 0 <= j < |cells[0] + rest| ==>
        (cells[0] + rest)[j] == (if j < |cells[0]| then cells[0][j] else rest[j - |cells[0]|]);
    }
  }

  /** `verifyOTP`: the request carries the joined code, and is only made
      when that code has exactly six characters. */
  function VerifyRequest(cells: seq<string>): (code: Option<string>)
    ensures code.Some? <==> |Code(cells)| == CELL_COUNT
    ensures code.Some? ==> code.value == Code(cells)
  {
    var c := Code(cells);
    if |c| == CELL_COUNT then Some(c) else None
  }

  /** On valid cells the request is made exactly when no cell is empty (the
      condition under which the verify button is enabled), and it carries
      six digits. */
  lemma VerifyIffComplete(cells: seq<string>)
    requires ValidCells(cells)
    ensures VerifyRequest(cells).Some? <==> forall i :: 0 <= i < |cells| ==> cells[i] != ""
    ensures VerifyRequest(cells).Some? ==> AllDigits(VerifyRequest(cells).value)
  {
    CodeLength(cells);
    CodeDigits(cells);
  }

  lemma {:induction false} CodeOfSingles(digits: string, cells: seq<string>)
    requires |cells| == |digits|
    requires forall i :: 0 <= i < |cells| ==> cells[i] == [digits[i]]
    ensures Code(cells) == digits
    decreases |cells|
  {
    if |cells| > 0 {
      CodeOfSingles(digits[1..], cells[1..]);
      assert digits == [digits[0]] + digits[1..];
    }
  }

  /** Pasting a text with at least six digits, whatever else it holds,
      makes the verify request carry its first six digits. */
  lemma PasteThenVerify(cells: seq<string>, text: string)
    requires |cells| == CELL_COUNT
    requires |DigitsOnly(text)| >= CELL_COUNT
    ensures VerifyRequest(Paste(cells, text).cells) == Some(DigitsOnly(text)[..CELL_COUNT])
  {
    var d := DigitsOnly(text)[..CELL_COUNT];
    CodeOfSingles(d, Paste(cells, text).cells);
  }

  /** A pasted six-digit code comes back unchanged. */
  lemma PasteRoundTrip(cells: seq<string>, code: string)
    requires |cells| == CELL_COUNT && |code| == CELL_COUNT && AllDigits(code)
    ensures VerifyRequest(Paste(cells, code).cells) == Some(code)
  {
    DigitsOnlyOfDigits(code);
    PasteThenVerify(cells, code);
    assert code[..CELL_COUNT] == code;
  }

  /** The sign-up data the page was given, as far as it is present. */
  datatype SignupData = SignupData(name: Option<string>, password: Option<string>)

  /** The body of the repeated sign-up call that resends a code. */
  datatype ResendBody = ResendBody(name: string, email: string, password: string)

  /** `resendOTP`: a new sign-up call is made only when both the name and
      the password are present and non-empty; it repeats them with the
      page's email. */
  function ResendRequest(userData: Option<SignupData>, email: string): (r: Option<ResendBody>)
    ensures r.Some? <==>
      && userData.Some?
      && userData.value.name.Some? && userData.value.name.value != ""
      && userData.value.password.Some? && userData.value.password.value != ""
    ensures r.Some? ==>
      r.value == ResendBody(userData.value.name.value, email, userData.value.password.value)
  {
    match userData
    case None => None
    case Some(data) =>
      if data.name.None? || data.name.value == "" || data.password.None? || data.password.value == "" then None
      else Some(ResendBody(data.name.value, email, data.password.value))
  }
}

/** Properties of the OTP page that go beyond one handler: the order the
    digit filter keeps, and the resend together with the sign-up endpoint
    it calls. */
module OtpPageLaws {
  import opened Common
  import opened Store
  import opened Tokens
  import opened Users
  import opened AuthController
  import opened OtpPage

  /** One character: a digit is kept, anything else dropped. */
  lemma DigitsOnlyOne(c: char)
    ensures DigitsOnly([c]) == if IsDigit(c) then [c] else []
  {
    assert [c][1..] == [];
  }

  /** The filter works piecewise, so the digits keep their order: the
      digits of a text are the digits of its first part followed by the
      digits of the rest. */
  lemma {:induction false} DigitsOnlyAppend(a: string, b: string)
    ensures DigitsOnly(a + b) == DigitsOnly(a) + DigitsOnly(b)
    decreases |a|
  {
    if |a| == 0 {
      assert a + b == b;
    } else {
      assert (a + b)[0] == a[0];
      assert (a + b)[1..] == a[1..] + b;
      DigitsOnlyAppend(a[1..], b);
    }
  }

  /** A resend for an account still waiting for its code reuses that
      account: no account is added, the same record gets the page's name
      and password again with a fresh challenge, and the request succeeds
      exactly when the mail goes out. */
  lemma ResendRenewsChallenge(userData: Option<SignupData>, email: string, users: Accounts, crypto: Crypto,
                              seed: nat, now: int, mailOk: bool, id: Id)
    requires ResendRequest(userData, email).Some?
    requires email != ""
    requires FindByEmail(users, email) == Some(id)
    requires users.slots[id].value.verification.Pending?
    ensures
      var b := ResendRequest(userData, email).value;
      var r := Signup(users, crypto, b.name, b.email, b.password, seed, now, mailOk);
      && r.users.NextId() == users.NextId()
      && Overwrote(users, r.users, id, email, b.name, crypto.hash(b.password), Challenge(crypto, seed, now))
      && (r.reply.Ok? <==> mailOk)
      && (r.reply.Ok? ==> r.reply.body == id)
  {
    assert |Users.NormalizeEmail(email)| == |email|;
  }
}
