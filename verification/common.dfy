/** Shared vocabulary of the CivicDesk model: optional values, HTTP replies,
    and the handful of JavaScript string operations the backend and the
    frontend rely on (`toLowerCase`, `trim`, `startsWith`, `split`). */
module Common {

  datatype Option<+T> = None | Some(value: T)

  /** HTTP status codes the controllers and middleware answer with. */
  const OK: int := 200
  const CREATED: int := 201
  const BAD_REQUEST: int := 400
  const UNAUTHORIZED: int := 401
  const FORBIDDEN: int := 403
  const NOT_FOUND: int := 404
  const TOO_MANY_REQUESTS: int := 429
  const SERVER_ERROR: int := 500

  /** The JSON reply of one request: a success status with a payload, or an
      error status with the human-readable message the source sends. */
  datatype Reply<+T> =
    | Ok(status: int, message: string, body: T)
    | Err(status: int, message: string)
  {
    function Status(): int {
      match this
      case Ok(s, _, _) => s
      case Err(s, _) => s
    }
  }

  // ---------------------------------------------------------------------
  // Characters

  predicate IsDigit(c: char) { '0' <= c <= '9' }

  predicate IsUpper(c: char) { 'A' <= c <= 'Z' }

  /** JavaScript's `\s` restricted to ASCII: space, tab, LF, VT, FF, CR. */
  predicate IsSpace(c: char) {
    c == ' ' || c == '\t' || c == '\n' || c == '\r' || c == '\U{B}' || c == '\U{C}'
  }

  function ToLowerChar(c: char): (r: char)
    ensures !IsUpper(r)
    ensures IsUpper(c) ==> r as int == c as int + 32
    ensures !IsUpper(c) ==> r == c
  {
    if IsUpper(c) then (c as int + 32) as char else c
  }

  predicate AllDigits(s: string) {
    forall i :: 0 <= i < |s| ==> IsDigit(s[i])
  }

  // ---------------------------------------------------------------------
  // JavaScript string length

  /** A character outside the Basic Multilingual Plane: UTF-16 stores it
      as a surrogate pair. */
  predicate IsAstral(c: char) { c as int >= 0x1_0000 }

  /** The number of UTF-16 code units of `s`: what a JavaScript string's
      `length` (and so Mongoose's `maxlength`) counts. */
  function Utf16Length(s: string): (n: nat)
    ensures |s| <= n <= 2 * |s|
    decreases |s|
  {
    if |s| == 0 then 0
    else Utf16Length(s[..|s| - 1]) + (if IsAstral(s[|s| - 1]) then 2 else 1)
  }

  /** The astral characters of `s`, by position. */
  ghost function AstralPositions(s: string): set<int> {
    set i | 0 <= i < |s| && IsAstral(s[i])
  }

  /** Each character counts one code unit, and each astral one a second. */
  lemma {:induction false} Utf16LengthCounts(s: string)
    ensures Utf16Length(s) == |s| + |AstralPositions(s)|
    decreases |s|
  {
    if |s| > 0 {
      var n := |s| - 1;
      var init := s[..n];
      Utf16LengthCounts(init);
      var before := AstralPositions(init);
      if IsAstral(s[n]) {
        assert AstralPositions(s) == before + {n};
        assert n !in before;
      } else {
        assert AstralPositions(s) == before;
      }
    }
  }

  /** A text made only of astral characters is twice as long in UTF-16. */
  lemma {:induction false} AllAstralDoubles(s: string)
    requires forall i :: 0 <= i < |s| ==> IsAstral(s[i])
    ensures Utf16Length(s) == 2 * |s|
    decreases |s|
  {
    if |s| > 0 {
      AllAstralDoubles(s[..|s| - 1]);
    }
  }

  // ---------------------------------------------------------------------
  // String normalisation (Mongoose `lowercase` and `trim` setters)

  /** `String.prototype.toLowerCase` on ASCII letters. */
  function Lower(s: string): (r: string)
    ensures |r| == |s|
    ensures forall i :: 0 <= i < |s| ==> r[i] == ToLowerChar(s[i])
  {
    seq(|s|, i requires 0 <= i < |s| => ToLowerChar(s[i]))
  }

  predicate IsLower(s: string) {
    forall i :: 0 <= i < |s| ==> !IsUpper(s[i])
  }

  lemma LowerIsLowerAndIdempotent(s: string)
    ensures IsLower(Lower(s))
    ensures Lower(Lower(s)) == Lower(s)
  {
  }

  function TrimStart(s: string): (r: string)
    ensures |r| <= |s| && r == s[|s| - |r|..]
    ensures |r| > 0 ==> !IsSpace(r[0])
    ensures forall i :: 0 <= i < |s| - |r| ==> IsSpace(s[i])
    decreases |s|
  {
    if |s| > 0 && IsSpace(s[0]) then TrimStart(s[1..]) else s
  }

  function TrimEnd(s: string): (r: string)
    ensures |r| <= |s| && r == s[..|r|]
    ensures |r| > 0 ==> !IsSpace(r[|r| - 1])
    ensures forall i :: |r| <= i < |s| ==> IsSpace(s[i])
    decreases |s|
  {
    if |s| > 0 && IsSpace(s[|s| - 1]) then TrimEnd(s[..|s| - 1]) else s
  }

  /** `String.prototype.trim`: strips leading and trailing white space. */
  function Trim(s: string): (r: string)
  {
    TrimEnd(TrimStart(s))
  }

  predicate IsTrimmed(s: string) {
    |s| > 0 ==> !IsSpace(s[0]) && !IsSpace(s[|s| - 1])
  }

  /** The trimmed string is a contiguous piece of the input with no white
      space at either end, and everything cut away was white space. */
  lemma TrimSpec(s: string)
    ensures IsTrimmed(Trim(s))
    ensures AllSpace(s) <==> Trim(s) == []
  {
    var t := TrimStart(s);
    var r := TrimEnd(t);
    if |r| > 0 {
      assert t[0] == r[0];
    }
    if AllSpace(s) {
      assert |t| == 0;
    }
    if r == [] {
      assert |t| == 0;
    }
  }

  lemma TrimIdempotent(s: string)
    ensures Trim(Trim(s)) == Trim(s)
  {
    var r := Trim(s);
    TrimSpec(s);
    if |r| > 0 {
      assert TrimStart(r) == r;
      assert TrimEnd(r) == r;
    }
  }

  predicate AllSpace(s: string) {
    forall i :: 0 <= i < |s| ==> IsSpace(s[i])
  }

  // ---------------------------------------------------------------------
  // Prefixes and splitting

  /** `String.prototype.startsWith`. */
  predicate StartsWith(s: string, prefix: string) {
    |prefix| <= |s| && s[..|prefix|] == prefix
  }

  /** The segments of `parts` glued back together with `sep` between them. */
  function Join(parts: seq<string>, sep: char): string
    decreases |parts|
  {
    if |parts| == 0 then []
    else if |parts| == 1 then parts[0]
    else parts[0] + [sep] + Join(parts[1..], sep)
  }

  /** `String.prototype.split` with a one-character separator: the maximal
      separator-free segments of `s`, in order, one more than there are
      separators. */
  function Split(s: string, sep: char): (parts: seq<string>)
    ensures |parts| >= 1
    ensures forall i :: 0 <= i < |parts| ==> sep !in parts[i]
    ensures Join(parts, sep) == s
    decreases |s|
  {
    if |s| == 0 then [""]
    else
      var rest := Split(s[1..], sep);
      if s[0] == sep then [""] + rest
      else [[s[0]] + rest[0]] + rest[1..]
  }

  /** The longest prefix of `s` that contains no `sep`. */
  function TakeUntil(s: string, sep: char): (r: string)
    ensures sep !in r
    ensures StartsWith(s, r)
    ensures |r| < |s| ==> s[|r|] == sep
    decreases |s|
  {
    if |s| == 0 || s[0] == sep then [] else [s[0]] + TakeUntil(s[1..], sep)
  }

  /** The first segment produced by `Split` is everything up to the first
      separator, and the remaining segments are those of the rest. */
  lemma {:induction false} SplitHead(s: string, sep: char)
    ensures Split(s, sep)[0] == TakeUntil(s, sep)
    ensures |TakeUntil(s, sep)| < |s| ==>
      Split(s, sep)[1..] == Split(s[|TakeUntil(s, sep)| + 1..], sep)
    ensures |TakeUntil(s, sep)| == |s| ==> |Split(s, sep)| == 1
    decreases |s|
  {
    if |s| == 0 || s[0] == sep {
    } else {
      SplitHead(s[1..], sep);
      if |TakeUntil(s, sep)| < |s| {
        assert s[1..][|TakeUntil(s[1..], sep)| + 1..] == s[|TakeUntil(s, sep)| + 1..];
      }
    }
  }

  /** Splitting undoes joining when no segment contains the separator. */
  lemma {:induction false} SplitJoin(parts: seq<string>, sep: char)
    requires |parts| >= 1
    requires forall i :: 0 <= i < |parts| ==> sep !in parts[i]
    ensures Split(Join(parts, sep), sep) == parts
    decreases |parts|
  {
    if |parts| == 1 {
      PrefixWithoutSep(parts[0], [], sep);
      assert parts[0] + [] == parts[0];
      SplitHead(parts[0], sep);
    } else {
      var tail := Join(parts[1..], sep);
      var s := parts[0] + ([sep] + tail);
      assert Join(parts, sep) == s;
      PrefixWithoutSep(parts[0], [sep] + tail, sep);
      SplitHead(s, sep);
      assert s[|parts[0]| + 1..] == tail;
      SplitJoin(parts[1..], sep);
      var sp := Split(s, sep);
      assert sp == [sp[0]] + sp[1..];
    }
  }

  /** `TakeUntil` stops exactly at the end of a separator-free prefix that
      is followed by a separator (or by nothing). */
  lemma {:induction false} PrefixWithoutSep(a: string, b: string, sep: char)
    requires sep !in a
    requires b == [] || b[0] == sep
    ensures TakeUntil(a + b, sep) == a
    decreases |a|
  {
    if |a| == 0 {
      assert a + b == b;
    } else {
      assert (a + b)[1..] == a[1..] + b;
      PrefixWithoutSep(a[1..], b, sep);
    }
  }
}
