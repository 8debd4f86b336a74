/**
 * The checks the script makes on user input before it issues any request:
 * the e-mail shape test (`isValidEmail`, used by `initiate2FA`), the code
 * length test of `verify2FACode`, and the file type and size tests of
 * `handleFileSelect`.
 */
module Validation {
  import opened Wrappers
  import opened Text

  // ---------------------------------------------------------------------
  // E-mail: the regular expression /^[^\s@]+@[^\s@]+\.[^\s@]+$/
  // ---------------------------------------------------------------------

  /** A character of the class `[^\s@]`. */
  predicate IsPlain(c: char) {
    !IsWhitespace(c) && c != '@'
  }

  /** A whole string matched by `[^\s@]+`. */
  predicate PlainRun(x: string) {
    |x| > 0 && forall k :: 0 <= k < |x| ==> IsPlain(x[k])
  }

  /** The pattern matches `e` with its `@` at index `a` and the `\.` at index `d`. */
  predicate MatchesAt(e: string, a: int, d: int) {
    0 < a && a + 1 < d && d + 1 < |e|
    && e[a] == '@' && e[d] == '.'
    && PlainRun(e[..a]) && PlainRun(e[a + 1..d]) && PlainRun(e[d + 1..])
  }

  /** `isValidEmail`: the anchored pattern matches for some choice of the
      `@` and of the `.`. */
  predicate IsValidEmail(e: string) {
    exists a, d | 0 <= a < |e| && 0 <= d < |e| :: MatchesAt(e, a, d)
  }

  /** A `.` inside `dom` that is neither its first nor its last character. */
  predicate HasInnerDot(dom: string) {
    exists k | 0 < k < |dom| - 1 :: dom[k] == '.'
  }

  /** The shape the pattern accepts, stated without the pattern: exactly one
      `@`, no white space, a non-empty part before the `@`, and a `.` inside
      the part after it. */
  predicate EmailShape(e: string) {
    NoWhitespace(e) && CountOf(e, '@') == 1
    && var a := IndexOf(e, '@');
    a > 0 && HasInnerDot(e[a + 1..])
  }

  lemma {:induction false} PlainRunOf(e: string, i: int, j: int)
    requires 0 <= i < j <= |e|
    requires forall k :: i <= k < j ==> IsPlain(e[k])
    ensures PlainRun(e[i..j])
  {
  }

  /** Every character of a match other than its `@` is white-space free
      and not an `@`. */
  lemma {:induction false} MatchIsPlainOutsideAt(e: string, a: int, d: int, k: int)
    requires MatchesAt(e, a, d) && 0 <= k < |e| && k != a
    ensures !IsWhitespace(e[k]) && e[k] != '@'
  {
  }

  /** The `@` at `a` is the only one in `e` exactly when none precedes or
      follows it. */
  lemma {:induction false} SingleAt(e: string, a: nat)
    requires a < |e| && e[a] == '@'
    ensures CountOf(e, '@') == 1 + CountOf(e[..a], '@') + CountOf(e[a + 1..], '@')
  {
    assert e == e[..a] + ([e[a]] + e[a + 1..]);
    CountOfAppend(e[..a], [e[a]] + e[a + 1..], '@');
    CountOfAppend([e[a]], e[a + 1..], '@');
  }

  /** Every string the pattern matches has the shape. */
  lemma {:induction false} MatchHasShape(e: string, a: int, d: int)
    requires MatchesAt(e, a, d)
    ensures EmailShape(e)
  {
    forall k | 0 <= k < |e| ensures !IsWhitespace(e[k]) {
      if k != a { MatchIsPlainOutsideAt(e, a, d, k); }
    }
    var rest := e[a + 1..];
    forall k | 0 <= k < |rest| ensures rest[k] != '@' {
      MatchIsPlainOutsideAt(e, a, d, a + 1 + k);
    }
    assert '@' !in e[..a];
    SingleAt(e, a);
    IndexOfIsFirst(e, '@', a);
    assert rest[d - a - 1] == '.';
  }

  /** Every string of the shape is matched, at its `@` and an inner dot. */
  lemma {:induction false} ShapeMatches(e: string)
    requires EmailShape(e)
    ensures IsValidEmail(e)
  {
    var a := IndexOf(e, '@');
    var dom := e[a + 1..];
    var k :| 0 < k < |dom| - 1 && dom[k] == '.';
    var d := a + 1 + k;
    SingleAt(e, a);
    assert '@' !in dom;
    forall j | 0 <= j < |e| && j != a ensures IsPlain(e[j]) {
      if j > a { assert e[j] == dom[j - a - 1]; }
      else { assert e[j] == e[..a][j]; }
    }
    PlainRunOf(e, 0, a);
    PlainRunOf(e, a + 1, d);
    PlainRunOf(e, d + 1, |e|);
    assert MatchesAt(e, a, d);
  }

  /** The pattern matches exactly the strings of that shape. */
  lemma {:induction false} IsValidEmailIffShape(e: string)
    ensures IsValidEmail(e) <==> EmailShape(e)
  {
    if IsValidEmail(e) {
      var a, d :| 0 <= a < |e| && 0 <= d < |e| && MatchesAt(e, a, d);
      MatchHasShape(e, a, d);
    }
    if EmailShape(e) {
      ShapeMatches(e);
    }
  }

  /** The address used in the end-to-end login scenario is accepted. */
  lemma CorporateAddressAccepted()
    ensures IsValidEmail("a@corp.com")
  {
    assert MatchesAt("a@corp.com", 1, 6);
  }

  /** A dot right after the `@` does not count: `a@.b` is refused. */
  lemma DotRightAfterAtRefused()
    ensures !IsValidEmail("a@.b")
  {
  }

  /** The last dot may sit anywhere after the `@`: `a@b..c` is accepted,
      the second dot being matched by the final `[^\s@]+`. */
  lemma DoubleDotAccepted()
    ensures IsValidEmail("a@b..c")
  {
    assert MatchesAt("a@b..c", 1, 3);
  }

  /** `initiate2FA`'s local check on the e-mail field: the trimmed value
      must be non-empty and pass `isValidEmail`. The emptiness test is
      subsumed by the pattern. */
  function EmailAccepted(raw: string): (ok: bool)
    ensures ok <==> IsValidEmail(Trim(raw))
  {
    var email := Trim(raw);
    !(email == [] || !IsValidEmail(email))
  }

  // ---------------------------------------------------------------------
  // Verification code
  // ---------------------------------------------------------------------

  /** `verify2FACode`'s local check on the code field: the trimmed value
      must be non-empty and exactly six characters long; its characters
      are not inspected. */
  function CodeAccepted(raw: string): (ok: bool)
    ensures ok <==> |Trim(raw)| == 6
  {
    var code := Trim(raw);
    !(code == [] || |code| != 6)
  }

  /** Letters pass the local check although the prompt asks for digits. */
  lemma LettersPassCodeCheck()
    ensures CodeAccepted(" abcdef ")
  {
    var s := " abcdef ";
    assert SkipWhitespace(s, 1) == 1;
    assert SkipWhitespace(s, 0) == 1;
    assert SkipWhitespaceBack(s, 1, 7) == 7;
    assert SkipWhitespaceBack(s, 1, 8) == 7;
  }

  // ---------------------------------------------------------------------
  // Document files
  // ---------------------------------------------------------------------

  /** The upload ceiling: 10 * 1024 * 1024 bytes. */
  const MaxFileSize: nat := 10 * 1024 * 1024

  /** The extensions `handleFileSelect` accepts. */
  const ValidTypes: seq<string> := [".pdf", ".docx", ".txt"]

  /** `'.' + name.split('.').pop().toLowerCase()`. */
  function FileExtension(name: string): string {
    ['.'] + ToLowerCase(LastPiece(name, '.'))
  }

  datatype FileVerdict = WrongType | TooLarge | Accepted

  /** The two local checks, type first. */
  function CheckFile(name: string, size: nat): FileVerdict {
    if FileExtension(name) !in ValidTypes then WrongType
    else if size > MaxFileSize then TooLarge
    else Accepted
  }

  datatype File = File(name: string, size: nat)

  datatype FileAction =
    | NoAction               // no file was selected
    | ShowError(message: string)
    | Upload(file: File)     // `uploadDocument(file)` is called

  const WrongTypeMessage := "Please select a PDF, DOCX, or TXT file."
  const TooLargeMessage := "File size must be less than 10MB."

  /** `handleFileSelect`: what happens to the first selected file. */
  function HandleFileSelect(file: Option<File>): (act: FileAction)
    ensures act.NoAction? <==> file.None?
    ensures act.Upload? <==> file.Some? && CheckFile(file.value.name, file.value.size) == Accepted
    ensures act.Upload? ==> act.file == file.value
    ensures act.ShowError? ==>
      act.message == (if CheckFile(file.value.name, file.value.size) == WrongType then WrongTypeMessage else TooLargeMessage)
  {
    match file
    case None => NoAction
    case Some(f) =>
      match CheckFile(f.name, f.size)
      case WrongType => ShowError(WrongTypeMessage)
      case TooLarge => ShowError(TooLargeMessage)
      case Accepted => Upload(f)
  }

  /** The allow-list, stated on the lower-cased last piece of the name. */
  predicate AllowedPiece(p: string) {
    p == "pdf" || p == "docx" || p == "txt"
  }

  lemma {:induction false} ExtensionAllowedIff(name: string)
    ensures FileExtension(name) in ValidTypes <==> AllowedPiece(ToLowerCase(LastPiece(name, '.')))
  {
    var p := ToLowerCase(LastPiece(name, '.'));
    var ext := FileExtension(name);
    assert ext[1..] == p;
    assert ".pdf"[1..] == "pdf" && ".docx"[1..] == "docx" && ".txt"[1..] == "txt";
    if p == "pdf" {
      assert ext == ".pdf";
    } else if p == "docx" {
      assert ext == ".docx";
    } else if p == "txt" {
      assert ext == ".txt";
    }
  }

  /** A file is accepted exactly when its lower-cased last piece is `pdf`,
      `docx` or `txt` and it is at most 10 MiB; the type is judged first,
      whatever the size. */
  lemma {:induction false} CheckFileSpec(name: string, size: nat)
    ensures CheckFile(name, size) == Accepted
      <==> AllowedPiece(ToLowerCase(LastPiece(name, '.'))) && size <= 10485760
    ensures CheckFile(name, size) == WrongType
      <==> !AllowedPiece(ToLowerCase(LastPiece(name, '.')))
    ensures CheckFile(name, size) == TooLarge
      <==> AllowedPiece(ToLowerCase(LastPiece(name, '.'))) && size > 10485760
  {
    ExtensionAllowedIff(name);
  }

  /** With no dot in the name, the whole name is the extension: a file
      called `pdf` passes the type check. */
  lemma {:induction false} DotlessNameIsItsOwnExtension(name: string, size: nat)
    requires '.' !in name
    ensures FileExtension(name) == ['.'] + ToLowerCase(name)
    ensures name == "pdf" && size <= MaxFileSize ==> CheckFile(name, size) == Accepted
  {
    LastPieceIsTail(name, '.');
    if name == "pdf" {
      assert ToLowerCase(name) == "pdf";
      assert FileExtension(name) == ".pdf";
    }
  }

  /** The extension is what follows the last dot, lower-cased. */
  lemma {:induction false} ExtensionAfterLastDot(stem: string, piece: string)
    requires '.' !in piece
    ensures FileExtension(stem + ['.'] + piece) == ['.'] + ToLowerCase(piece)
  {
    var name := stem + ['.'] + piece;
    assert name[|stem|] == '.';
    assert name[|stem| + 1..] == piece;
    LastPieceAfter(name, '.', |stem|);
  }

  /** The extension is compared without regard to case: any name ending
      in `.PDF` (`report.PDF`, `a.b.PDF`) has extension `.pdf`, while one
      ending in `.exe` has `.exe`. */
  lemma {:induction false} ExtensionExamples(stem: string)
    ensures FileExtension(stem + ".PDF") == ".pdf"
    ensures FileExtension(stem + ".exe") == ".exe"
  {
    var pdf, exe := "PDF", "exe";
    assert stem + ".PDF" == stem + ['.'] + pdf;
    ExtensionAfterLastDot(stem, pdf);
    var low := ToLowerCase(pdf);
    assert low[0] == 'p' && low[1] == 'd' && low[2] == 'f';
    assert stem + ".exe" == stem + ['.'] + exe;
    ExtensionAfterLastDot(stem, exe);
    low := ToLowerCase(exe);
    assert low[0] == 'e' && low[1] == 'x' && low[2] == 'e';
  }

  /** The size bound is inclusive: 10485760 bytes pass, 10485761 do not. */
  lemma SizeBoundary(name: string)
    requires FileExtension(name) in ValidTypes
    ensures CheckFile(name, 10485760) == Accepted
    ensures CheckFile(name, 10485761) == TooLarge
  {
  }

  /** `<stem>.PDF` of 10 MiB exactly is accepted and one byte more is too
      large; `<stem>.exe` is refused for its type whatever its size. */
  lemma {:induction false} ReportExamples(stem: string, size: nat)
    ensures CheckFile(stem + ".PDF", 10485760) == Accepted
    ensures CheckFile(stem + ".PDF", 10485761) == TooLarge
    ensures CheckFile(stem + ".exe", size) == WrongType
  {
    ExtensionExamples(stem);
    SizeBoundary(stem + ".PDF");
  }
}
