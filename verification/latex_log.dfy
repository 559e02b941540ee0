/**
 * The deterministic pieces of the watcher's LaTeX handling: the table that
 * turns a LaTeX package name into Debian collections, the scanners that
 * pull error messages and missing packages out of a `pdflatex` log, the
 * scanner that collects the packages a source asks for, and the decision
 * whether a compilation produced a usable PDF. File facts (whether the PDF
 * exists, its bytes) are inputs.
 */
module LatexLog {
  import opened Text

  // ---------------------------------------------------------------------
  // map_package_to_debian
  // ---------------------------------------------------------------------

  /** The Debian collections suggested for a package the table does not list. */
  const DefaultCollections: seq<string> := ["texlive-latex-extra", "texlive-latex-recommended"]

  /** The table of known packages, in the groups the source lists them in. */
  const DebianMappings: map<string, seq<string>> :=
    CoreMappings + ExtendedMappings + FontMappings + ScienceMappings + LanguageMappings

  const CoreMappings: map<string, seq<string>> := map[
    "xcolor" := ["texlive-latex-recommended"],
    "amsmath" := ["texlive-latex-base"],
    "amssymb" := ["texlive-latex-recommended"],
    "amsthm" := ["texlive-latex-recommended"],
    "geometry" := ["texlive-latex-recommended"],
    "graphicx" := ["texlive-latex-recommended"],
    "hyperref" := ["texlive-latex-recommended"]
  ]

  const ExtendedMappings: map<string, seq<string>> := map[
    "tcolorbox" := ["texlive-latex-extra"],
    "framed" := ["texlive-latex-extra"],
    "etoolbox" := ["texlive-latex-extra"],
    "fancyhdr" := ["texlive-latex-extra"],
    "tikz" := ["texlive-pictures"],
    "pgf" := ["texlive-pictures"],
    "pstricks" := ["texlive-pstricks"],
    "biblatex" := ["texlive-bibtex-extra"],
    "beamer" := ["texlive-latex-recommended"]
  ]

  const FontMappings: map<string, seq<string>> := map[
    "fontspec" := ["texlive-fonts-extra"],
    "lmodern" := ["texlive-fonts-recommended"]
  ]

  const ScienceMappings: map<string, seq<string>> := map[
    "mathtools" := ["texlive-science"],
    "siunitx" := ["texlive-science"],
    "physics" := ["texlive-science"],
    "chemfig" := ["texlive-science"]
  ]

  const LanguageMappings: map<string, seq<string>> := map[
    "babel" := ["texlive-lang-all"],
    "inputenc" := ["texlive-latex-base"],
    "fontenc" := ["texlive-latex-base"]
  ]

  /** The table entry for a listed package, the two default collections for any other. */
  function MapPackageToDebian(name: string): seq<string>
  {
    if name in DebianMappings then DebianMappings[name] else DefaultCollections
  }

  /** Every entry of a table is one `texlive-` collection. */
  predicate SingleCollections(m: map<string, seq<string>>)
  {
    forall name :: name in m ==> |m[name]| == 1 && StartsWith(m[name][0], "texlive-")
  }

  lemma CoreEntries()
    ensures SingleCollections(CoreMappings)
  {
  }

  lemma ExtendedEntries()
    ensures SingleCollections(ExtendedMappings)
  {
  }

  lemma FontEntries()
    ensures SingleCollections(FontMappings)
  {
  }

  lemma ScienceEntries()
    ensures SingleCollections(ScienceMappings)
  {
  }

  lemma LanguageEntries()
    ensures SingleCollections(LanguageMappings)
  {
  }

  /** The two default collections. */
  lemma DefaultEntries()
    ensures |DefaultCollections| == 2
    ensures forall i :: 0 <= i < 2 ==> StartsWith(DefaultCollections[i], "texlive-")
  {
  }

  /** Joining tables of single collections gives a table of single collections. */
  lemma UnionEntries(a: map<string, seq<string>>, b: map<string, seq<string>>)
    requires SingleCollections(a) && SingleCollections(b)
    ensures SingleCollections(a + b)
  {
  }

  /** Every table entry is one `texlive-` collection. */
  lemma MappingEntries()
    ensures SingleCollections(DebianMappings)
  {
    CoreEntries();
    ExtendedEntries();
    FontEntries();
    ScienceEntries();
    LanguageEntries();
    UnionEntries(CoreMappings, ExtendedMappings);
    UnionEntries(CoreMappings + ExtendedMappings, FontMappings);
    UnionEntries(CoreMappings + ExtendedMappings + FontMappings, ScienceMappings);
    UnionEntries(CoreMappings + ExtendedMappings + FontMappings + ScienceMappings, LanguageMappings);
  }

  /**
   * The suggestion for any package is never empty and consists of `texlive-`
   * collections: one for a listed package, two for any other.
   */
  lemma MappingSuggests(name: string)
    ensures var r := MapPackageToDebian(name);
            r != [] && (forall i :: 0 <= i < |r| ==> StartsWith(r[i], "texlive-")) &&
            (|r| == 1 <==> name in DebianMappings)
  {
    MappingEntries();
    DefaultEntries();
  }

  // ---------------------------------------------------------------------
  // validate_pdf_creation
  // ---------------------------------------------------------------------

  /** What the file system says about the PDF: missing, present with its bytes, or present but unreadable. */
  datatype PdfFile = Missing | Present(bytes: seq<bv8>) | Unreadable(reason: string)

  /** `(pdf_exists, pdf_valid, error_message)`. */
  datatype PdfCheck = PdfCheck(pdfExists: bool, pdfValid: bool, message: Option<string>)

  /** `b'%PDF-'`. */
  const PdfMagic: seq<bv8> := [0x25, 0x50, 0x44, 0x46, 0x2D]

  /** A PDF of this many bytes or fewer counts as empty or corrupt. */
  const MinPdfSize: nat := 1000

  /** The log lines that mark a fatal compilation error. */
  const FatalPatterns: seq<string> := ["Fatal error occurred", "Emergency stop", "==> Fatal error occurred", "no output PDF file produced"]

  predicate HasAnyOf(line: string, patterns: seq<string>)
  {
    exists j :: 0 <= j < |patterns| && Contains(line, patterns[j])
  }

  /**
   * The first log line, from index `i` on, holding one of `patterns`,
   * stripped; `validate_pdf_creation` asks it for the fatal patterns.
   */
  function FirstLineWith(lines: seq<string>, i: nat, patterns: seq<string>): (r: Option<string>)
    requires i <= |lines|
    decreases |lines| - i
  {
    if i == |lines| then None
    else if HasAnyOf(lines[i], patterns) then Some(Strip(lines[i]))
    else FirstLineWith(lines, i + 1, patterns)
  }

  /** A line is found exactly when some line from `i` on holds a pattern, and it is such a line. */
  lemma {:induction false} FirstLineWithFound(lines: seq<string>, i: nat, patterns: seq<string>)
    requires i <= |lines|
    decreases |lines| - i
    ensures var r := FirstLineWith(lines, i, patterns);
            (r.Some? ==> exists k :: i <= k < |lines| && HasAnyOf(lines[k], patterns) && r.value == Strip(lines[k])) &&
            (r.None? ==> forall k :: i <= k < |lines| ==> !HasAnyOf(lines[k], patterns))
  {
    if i < |lines| && !HasAnyOf(lines[i], patterns) {
      FirstLineWithFound(lines, i + 1, patterns);
    }
  }

  /** `f.read(5)`: at most the first five bytes. */
  function Header(bytes: seq<bv8>): seq<bv8>
  {
    if |bytes| < 5 then bytes else bytes[..5]
  }

  /**
   * `validate_pdf_creation` on the file, the log and the return code: a
   * readable existing file decides by size and header; a missing one reports
   * the first fatal log line or the return code.
   */
  function ValidatePdfCreation(file: PdfFile, log: string, returnCode: int): (r: PdfCheck)
  {
    var fatal := FirstLineWith(Split(log, '\n'), 0, FatalPatterns);
    match file
    case Present(bytes) =>
      var hasHeader := Header(bytes) == PdfMagic;
      if |bytes| > MinPdfSize && hasHeader then PdfCheck(true, true, None)
      else if |bytes| <= MinPdfSize then
        PdfCheck(true, false, Some("PDF file exists but is too small (" + NatToString(|bytes|) + " bytes)"))
      else PdfCheck(true, false, Some("File exists but is not a valid PDF (missing PDF header)"))
    case Unreadable(reason) => PdfCheck(true, false, Some("Error validating PDF: " + reason))
    case Missing =>
      if fatal.Some? then PdfCheck(false, false, fatal)
      else PdfCheck(false, false, Some("LaTeX compilation failed (return code " + IntToString(returnCode) + ")"))
  }

  /**
   * The PDF is valid, with no message, exactly when it exists, is larger than
   * 1000 bytes and starts with `%PDF-`; every other outcome carries a
   * message, and `exists` tells exactly whether the file is there.
   */
  lemma PdfValidIff(file: PdfFile, log: string, returnCode: int)
    ensures var r := ValidatePdfCreation(file, log, returnCode);
            (r.pdfValid <==> file.Present? && |file.bytes| > MinPdfSize && file.bytes[..5] == PdfMagic) &&
            (r.pdfValid ==> r == PdfCheck(true, true, None))
  {
  }

  lemma PdfFlagsAndMessage(file: PdfFile, log: string, returnCode: int)
    ensures var r := ValidatePdfCreation(file, log, returnCode);
            (!r.pdfValid ==> r.message.Some?) && (r.pdfExists <==> !file.Missing?)
  {
  }

  /** The return code only ever shows in the message: it never changes the two flags. */
  lemma ReturnCodeKeepsFlags(file: PdfFile, log: string, rc1: int, rc2: int)
    ensures ValidatePdfCreation(file, log, rc1).pdfExists == ValidatePdfCreation(file, log, rc2).pdfExists
    ensures ValidatePdfCreation(file, log, rc1).pdfValid == ValidatePdfCreation(file, log, rc2).pdfValid
  {
  }

  /** A missing PDF without a fatal log line is explained by the return code. */
  lemma MissingPdfReturnCode(log: string, returnCode: int)
    requires forall k :: 0 <= k < |Split(log, '\n')| ==> !HasAnyOf(Split(log, '\n')[k], FatalPatterns)
    ensures ValidatePdfCreation(Missing, log, returnCode).message ==
              Some("LaTeX compilation failed (return code " + IntToString(returnCode) + ")")
  {
    var lines := Split(log, '\n');
    NoFatalLine(lines, 0, FatalPatterns);
  }

  lemma {:induction false} NoFatalLine(lines: seq<string>, i: nat, patterns: seq<string>)
    requires i <= |lines| && forall k :: i <= k < |lines| ==> !HasAnyOf(lines[k], patterns)
    ensures FirstLineWith(lines, i, patterns) == None
    decreases |lines| - i
  {
    if i < |lines| {
      NoFatalLine(lines, i + 1, patterns);
      LineSkipped(lines, i, patterns);
    }
  }

  lemma LineSkipped(lines: seq<string>, i: nat, patterns: seq<string>)
    requires i < |lines| && !HasAnyOf(lines[i], patterns)
    ensures FirstLineWith(lines, i, patterns) == FirstLineWith(lines, i + 1, patterns)
  {
  }

  /** A missing PDF is explained by the first log line holding a fatal pattern, stripped. */
  lemma MissingPdfFatalLine(log: string, returnCode: int, k: nat)
    requires var lines := Split(log, '\n');
             k < |lines| && HasAnyOf(lines[k], FatalPatterns) && forall j :: 0 <= j < k ==> !HasAnyOf(lines[j], FatalPatterns)
    ensures ValidatePdfCreation(Missing, log, returnCode).message == Some(Strip(Split(log, '\n')[k]))
  {
    FatalLineAt(Split(log, '\n'), 0, k, FatalPatterns);
  }

  lemma {:induction false} FatalLineAt(lines: seq<string>, i: nat, k: nat, patterns: seq<string>)
    requires i <= k < |lines| && HasAnyOf(lines[k], patterns)
    requires forall j :: i <= j < k ==> !HasAnyOf(lines[j], patterns)
    ensures FirstLineWith(lines, i, patterns) == Some(Strip(lines[k]))
    decreases k - i
  {
    if i < k {
      FatalLineAt(lines, i + 1, k, patterns);
      LineSkipped(lines, i, patterns);
    }
  }

  // ---------------------------------------------------------------------
  // extract_latex_errors
  // ---------------------------------------------------------------------

  /** A line that opens an error: it starts with `!`, or holds `! ` and does not start with a blank. */
  predicate IsErrorStart(line: string)
  {
    StartsWith(line, "!") || (Contains(line, "! ") && !StartsWith(line, " "))
  }

  /** A line kept in an open error: not blank, not an `l.` line-number reference. */
  predicate ContinuesError(line: string)
  {
    Strip(line) != [] && !StartsWith(line, "l.")
  }

  /** A line that closes an open error: no `erro` or `warn` in any case, and blank. */
  predicate ClosesError(line: string)
  {
    !Contains(AsciiLower(line), "erro") && !Contains(AsciiLower(line), "warn") && Strip(line) == []
  }

  /** `(in_error, current_error)`. */
  datatype ScanState = ScanState(inError: bool, current: string)

  /** The error text collected so far, stripped, when there is one. */
  function Flush(st: ScanState): seq<string>
  {
    if st.inError && st.current != [] then [Strip(st.current)] else []
  }

  /** One turn of the main loop: the errors it appends and the state after it. */
  function ScanStep(line: string, st: ScanState): (seq<string>, ScanState)
  {
    if IsErrorStart(line) then (Flush(st), ScanState(true, line))
    else if st.inError then
      var extended := if ContinuesError(line) then st.current + "\n" + line else st.current;
      if ClosesError(line) then (Flush(ScanState(true, extended)), ScanState(false, []))
      else ([], ScanState(true, extended))
    else ([], st)
  }

  /** The errors the main scan appends from line `i` on, in the state it has reached there. */
  function ScanErrors(lines: seq<string>, i: nat, st: ScanState): seq<string>
    requires i <= |lines|
    decreases |lines| - i
  {
    if i == |lines| then Flush(st)
    else
      var (out, next) := ScanStep(lines[i], st);
      out + ScanErrors(lines, i + 1, next)
  }

  /** The patterns of the first fallback scan. */
  const ContextPatterns: seq<string> := ["Emergency stop", "Fatal error", "No pages of output", "Undefined control sequence", "Missing "]

  /** The words of the second fallback scan. */
  const IssueWords: seq<string> := ["warning", "undefined", "missing", "error"]

  /** `lines.index(x)`: the first index holding `x`. */
  function IndexOf(lines: seq<string>, x: string): (k: nat)
    requires x in lines
    ensures k < |lines| && lines[k] == x && forall j :: 0 <= j < k ==> lines[j] != x
  {
    if lines[0] == x then 0
    else
      assert x in lines[1..] by {
        var j :| 0 <= j < |lines| && lines[j] == x;
        assert lines[1..][j - 1] == x;
      }
      1 + IndexOf(lines[1..], x)
  }

  /** Up to three lines before line `k`, the line and up to three after, joined by newlines. */
  function Context(lines: seq<string>, k: nat): string
    requires k < |lines|
  {
    var a := if k < 3 then 0 else k - 3;
    var b := if k + 4 > |lines| then |lines| else k + 4;
    Join("\n", lines[a..b])
  }

  /**
   * The first fallback from line `i` on: for each line holding a pattern,
   * the context of the first line equal to it.
   */
  function ContextErrors(lines: seq<string>, i: nat): seq<string>
    requires i <= |lines|
    decreases |lines| - i
  {
    if i == |lines| then []
    else if HasAnyOf(lines[i], ContextPatterns) then [Context(lines, IndexOf(lines, lines[i]))] + ContextErrors(lines, i + 1)
    else ContextErrors(lines, i + 1)
  }

  /** The second fallback from line `i` on: every line holding an issue word, stripped. */
  function IssueLines(lines: seq<string>, i: nat): seq<string>
    requires i <= |lines|
    decreases |lines| - i
  {
    if i == |lines| then []
    else if HasAnyOf(lines[i], IssueWords) then [Strip(lines[i])] + IssueLines(lines, i + 1)
    else IssueLines(lines, i + 1)
  }

  /** `extract_latex_errors`: the main scan, else the first fallback, else the second. */
  function LatexErrors(log: string): seq<string>
  {
    var lines := Split(log, '\n');
    var errors := ScanErrors(lines, 0, ScanState(false, []));
    if errors != [] then errors
    else
      var contexts := ContextErrors(lines, 0);
      if contexts != [] then contexts else IssueLines(lines, 0)
  }

  /** The function as the source writes it: the main scan, then the fallbacks while nothing was found. */
  method ExtractLatexErrors(log: string) returns (errors: seq<string>)
    ensures errors == LatexErrors(log)
  {
    var lines := Split(log, '\n');
    errors := ScanLines(lines);
    if errors == [] {
      errors := ContextScan(lines);
    }
    if errors == [] {
      errors := IssueScan(lines);
    }
  }

  /** The main loop over the lines with its two flags, and the flush after it. */
  method ScanLines(lines: seq<string>) returns (errors: seq<string>)
    ensures errors == ScanErrors(lines, 0, ScanState(false, []))
  {
    errors := [];
    var inError := false;
    var current: string := [];
    for i := 0 to |lines|
      invariant errors + ScanErrors(lines, i, ScanState(inError, current)) == ScanErrors(lines, 0, ScanState(false, []))
    {
      var out, inError', current' := ScanTurn(lines[i], inError, current);
      ScanAdvances(lines, i, ScanState(inError, current), out, ScanState(inError', current'), errors);
      errors, inError, current := errors + out, inError', current';
    }
    if inError && current != [] {
      errors := errors + [Strip(current)];
    }
  }

  /** One more line scanned: what the step appends moves from the remaining scan to the errors. */
  lemma ScanAdvances(lines: seq<string>, i: nat, st: ScanState, out: seq<string>, next: ScanState, errors: seq<string>)
    requires i < |lines| && (out, next) == ScanStep(lines[i], st)
    ensures errors + ScanErrors(lines, i, st) == (errors + out) + ScanErrors(lines, i + 1, next)
  {
    assert ScanErrors(lines, i, st) == out + ScanErrors(lines, i + 1, next);
    AppendAssoc(errors, out, ScanErrors(lines, i + 1, next));
  }

  /** The body of the main loop for one line: what it appends and the new flags. */
  method ScanTurn(line: string, inError: bool, current: string) returns (out: seq<string>, inError': bool, current': string)
    ensures (out, ScanState(inError', current')) == ScanStep(line, ScanState(inError, current))
  {
    out, inError', current' := [], inError, current;
    if IsErrorStart(line) {
      if inError && current != [] {
        out := [Strip(current)];
      }
      inError' := true;
      current' := line;
    } else if inError {
      if ContinuesError(line) {
        current' := current + "\n" + line;
      }
      if ClosesError(line) {
        inError' := false;
        if current' != [] {
          out := [Strip(current')];
        }
        current' := [];
      }
    }
  }

  /** The first fallback loop. */
  method ContextScan(lines: seq<string>) returns (errors: seq<string>)
    ensures errors == ContextErrors(lines, 0)
  {
    errors := [];
    for i := 0 to |lines|
      invariant errors + ContextErrors(lines, i) == ContextErrors(lines, 0)
    {
      var out := ContextTurn(lines, i);
      errors := errors + out;
    }
  }

  /** The inner loop over the patterns for line `i`, which stops at the first pattern the line holds. */
  method ContextTurn(lines: seq<string>, i: nat) returns (out: seq<string>)
    requires i < |lines|
    ensures out == if HasAnyOf(lines[i], ContextPatterns) then [Context(lines, IndexOf(lines, lines[i]))] else []
  {
    out := [];
    var line := lines[i];
    var j := 0;
    while j < |ContextPatterns|
      invariant 0 <= j <= |ContextPatterns|
      invariant forall m :: 0 <= m < j ==> !Contains(line, ContextPatterns[m])
    {
      if Contains(line, ContextPatterns[j]) {
        var k := IndexOf(lines, line);
        out := [Context(lines, k)];
        break;
      }
      j := j + 1;
    }
  }

  /** The second fallback loop. */
  method IssueScan(lines: seq<string>) returns (errors: seq<string>)
    ensures errors == IssueLines(lines, 0)
  {
    errors := [];
    for i := 0 to |lines|
      invariant errors + IssueLines(lines, i) == IssueLines(lines, 0)
    {
      if HasAnyOf(lines[i], IssueWords) {
        errors := errors + [Strip(lines[i])];
      }
    }
  }

  /** Text that is all blank holds no word that starts with a non-blank. */
  lemma NoWordInBlank(t: string, q: string)
    requires AllSpace(t) && q != [] && !IsSpace(q[0])
    ensures !Contains(t, q)
  {
    FindFromSpec(t, q, 0);
  }

  /** A line strips to nothing exactly when it is all blank. */
  lemma BlankIffAllSpace(s: string)
    ensures Strip(s) == [] <==> AllSpace(s)
  {
    if AllSpace(s) {
      assert SkipSpace(s, 0) == |s|;
    }
  }

  /**
   * The `erro`/`warn` tests of the closing condition never matter: an open
   * error is closed exactly by a blank line.
   */
  lemma ClosesIffBlank(line: string)
    ensures ClosesError(line) <==> Strip(line) == []
  {
    BlankIffAllSpace(line);
    if AllSpace(line) {
      var lower := AsciiLower(line);
      assert AllSpace(lower) by {
        forall i | 0 <= i < |lower|
          ensures IsSpace(lower[i])
        {
          assert IsSpace(line[i]);
        }
      }
      NoWordInBlank(lower, "erro");
      NoWordInBlank(lower, "warn");
    }
  }

  /** The number of lines, from `i` on, that open an error. */
  function CountStarts(lines: seq<string>, i: nat): nat
    requires i <= |lines|
    decreases |lines| - i
  {
    if i == |lines| then 0 else (if IsErrorStart(lines[i]) then 1 else 0) + CountStarts(lines, i + 1)
  }

  /** An open error always holds text, so it is never dropped: one turn keeps the count of opened and reported errors. */
  lemma StepCount(line: string, st: ScanState)
    requires st.inError ==> st.current != []
    ensures var (out, next) := ScanStep(line, st);
            (next.inError ==> next.current != []) &&
            |out| + (if next.inError then 1 else 0) == (if IsErrorStart(line) then 1 else 0) + (if st.inError then 1 else 0)
  {
    if IsErrorStart(line) && !StartsWith(line, "!") {
      assert FindFrom(line, "! ", 0) >= 0;
    }
  }

  lemma {:induction false} ScanCount(lines: seq<string>, i: nat, st: ScanState)
    requires i <= |lines| && (st.inError ==> st.current != [])
    ensures |ScanErrors(lines, i, st)| == CountStarts(lines, i) + (if st.inError then 1 else 0)
    decreases |lines| - i
  {
    if i < |lines| {
      var (out, next) := ScanStep(lines[i], st);
      StepCount(lines[i], st);
      ScanCount(lines, i + 1, next);
    }
  }

  /**
   * The main scan reports exactly one error per line that opens one, and the
   * fallback scans decide the result only when no line opens an error.
   */
  lemma LatexErrorsChoice(log: string)
    ensures var lines := Split(log, '\n');
            var main := ScanErrors(lines, 0, ScanState(false, []));
            var n := CountStarts(lines, 0);
            |main| == n &&
            (n > 0 ==> LatexErrors(log) == main) &&
            (n == 0 ==> LatexErrors(log) == if ContextErrors(lines, 0) != [] then ContextErrors(lines, 0) else IssueLines(lines, 0))
  {
    ScanCount(Split(log, '\n'), 0, ScanState(false, []));
  }

  /** A part of a join occurs in it. */
  lemma {:induction false} JoinHasPart(sep: string, parts: seq<string>, m: nat) returns (a: nat)
    requires m < |parts|
    ensures OccursAt(Join(sep, parts), parts[m], a)
    decreases |parts|
  {
    if |parts| == 1 {
      a := 0;
    } else if m == 0 {
      a := 0;
      assert Join(sep, parts) == parts[0] + (sep + Join(sep, parts[1..]));
    } else {
      var b := JoinHasPart(sep, parts[1..], m - 1);
      a := |parts[0] + sep| + b;
      var j := Join(sep, parts[1..]);
      assert Join(sep, parts) == (parts[0] + sep) + j;
      assert Join(sep, parts)[a..a + |parts[m]|] == j[b..b + |parts[m]|];
    }
  }

  /** The context of line `k` holds line `k`. */
  lemma ContextHoldsLine(lines: seq<string>, k: nat, q: string)
    requires k < |lines| && Contains(lines[k], q)
    ensures Contains(Context(lines, k), q)
  {
    var a := if k < 3 then 0 else k - 3;
    var b := if k + 4 > |lines| then |lines| else k + 4;
    var window := lines[a..b];
    assert window[k - a] == lines[k];
    var c := JoinHasPart("\n", window, k - a);
    var j := Join("\n", window);
    assert j[c..c + |lines[k]|] == lines[k];
    ContainsFromSlice(j, c, c + |lines[k]|, q);
  }

  /** Every message of the first fallback holds one of its patterns. */
  lemma {:induction false} ContextErrorsHoldPattern(lines: seq<string>, i: nat)
    requires i <= |lines|
    ensures var r := ContextErrors(lines, i);
            forall e :: e in r ==> HasAnyOf(e, ContextPatterns)
    decreases |lines| - i
  {
    if i < |lines| {
      ContextErrorsHoldPattern(lines, i + 1);
      if HasAnyOf(lines[i], ContextPatterns) {
        var k := IndexOf(lines, lines[i]);
        var m :| 0 <= m < |ContextPatterns| && Contains(lines[i], ContextPatterns[m]);
        ContextHoldsLine(lines, k, ContextPatterns[m]);
      }
    }
  }

  // ---------------------------------------------------------------------
  // extract_missing_packages
  // ---------------------------------------------------------------------

  /** Python's `s[:-4]`. */
  function DropLast4(s: string): string
  {
    if |s| < 4 then [] else s[..|s| - 4]
  }

  /** Python's `s.rstrip(chars)`. */
  function RStripChars(s: string, chars: string): (r: string)
    ensures |r| <= |s| && r == s[..|r|]
  {
    if s != [] && s[|s| - 1] in chars then RStripChars(s[..|s| - 1], chars) else s
  }

  /** Branch 1: the standard message for a missing file. */
  predicate InBranch1(line: string)
  {
    Contains(line, "! LaTeX Error: File") && Contains(line, "not found")
  }

  /** Branch 2: the message with a backtick before the file name. */
  predicate InBranch2(line: string)
  {
    Contains(line, "! LaTeX Error: File `") && Contains(line, ".sty' not found")
  }

  /** Branch 3: a package error whose file name is on the next line. */
  predicate InBranch3(line: string)
  {
    Contains(line, "! Package ") && Contains(line, "Error: File") && Contains(line, "not found")
  }

  /** Branch 4: any line naming a `.sty` that was not found. */
  predicate InBranch4(line: string)
  {
    Contains(line, ".sty") && Contains(line, "not found")
  }

  /** Branch 1's name: the piece after the first `'`, when it ends in `.sty`. */
  function QuotedName(line: string): seq<string>
  {
    var parts := Split(line, '\'');
    if |parts| >= 2 && EndsWith(parts[1], ".sty") then [DropLast4(parts[1])] else []
  }

  /** Branch 2's name: between the first backtick and the next `'`, when it ends in `.sty`; no backtick raises and adds nothing. */
  function BacktickName(line: string): seq<string>
  {
    var parts := Split(line, '`');
    if |parts| < 2 then []
    else
      var file := Split(parts[1], '\'')[0];
      if EndsWith(file, ".sty") then [DropLast4(file)] else []
  }

  /** Branch 3's names: every word ending in `.sty`, without it. */
  function StyWords(words: seq<string>): seq<string>
  {
    if words == [] then []
    else (if EndsWith(words[0], ".sty") then [DropLast4(words[0])] else []) + StyWords(words[1..])
  }

  /** Branch 3 looks at the next line, or at nothing after the last one. */
  function NextLineNames(lines: seq<string>, i: nat): seq<string>
    requires i < |lines|
  {
    var next := if i + 1 < |lines| then lines[i + 1] else "";
    if Contains(next, ".sty") then StyWords(SplitWords(next)) else []
  }

  /** A word branch 4 takes a name from. */
  predicate IsStyWord(w: string)
  {
    EndsWith(w, ".sty") || EndsWith(w, ".sty.")
  }

  /** The name branch 4 takes from a word: trailing dots and commas off, then the last four characters. */
  function LooseName(w: string): string
  {
    DropLast4(Strip(RStripChars(w, ".,")))
  }

  /** Branch 4's names: new, non-empty names of `.sty` words, each checked against the list as it grows. */
  function LooseNames(words: seq<string>, acc: seq<string>): seq<string>
  {
    if words == [] then []
    else
      var add := LooseAdd(words[0], acc);
      add + LooseNames(words[1..], acc + add)
  }

  /** What one word adds in branch 4, given the list so far. */
  function LooseAdd(w: string, acc: seq<string>): seq<string>
  {
    var n := LooseName(w);
    if IsStyWord(w) && n != [] && n !in acc then [n] else []
  }

  lemma LooseNamesFrom(words: seq<string>, j: nat, seen: seq<string>)
    requires j < |words|
    ensures LooseNames(words[j..], seen)
         == LooseAdd(words[j], seen) + LooseNames(words[j + 1..], seen + LooseAdd(words[j], seen))
  {
    assert words[j..][1..] == words[j + 1..];
  }

  /** One more word checked: what it adds moves from the remaining words to the names found. */
  lemma LooseAdvances(words: seq<string>, j: nat, seen: seq<string>, added: seq<string>, add: seq<string>)
    requires j < |words| && add == LooseAdd(words[j], seen)
    ensures added + LooseNames(words[j..], seen) == (added + add) + LooseNames(words[j + 1..], seen + add)
  {
    LooseNamesFrom(words, j, seen);
    AppendAssoc(added, add, LooseNames(words[j + 1..], seen + add));
  }

  /** What line `i` adds to the list `acc`: the first branch whose test it passes decides. */
  function LineNames(lines: seq<string>, i: nat, acc: seq<string>): seq<string>
    requires i < |lines|
  {
    var line := lines[i];
    if InBranch1(line) then QuotedName(line)
    else if InBranch2(line) then BacktickName(line)
    else if InBranch3(line) then NextLineNames(lines, i)
    else if InBranch4(line) then LooseNames(SplitWords(line), acc)
    else []
  }

  /** The list after the lines from `i` on have added their names to `acc`. */
  function MissingFrom(lines: seq<string>, i: nat, acc: seq<string>): seq<string>
    requires i <= |lines|
    decreases |lines| - i
  {
    if i == |lines| then acc else MissingFrom(lines, i + 1, acc + LineNames(lines, i, acc))
  }

  /** The list the loop of `extract_missing_packages` builds, before duplicates go. */
  function MissingList(log: string): seq<string>
  {
    MissingFrom(Split(log, '\n'), 0, [])
  }

  predicate NoDuplicates(xs: seq<string>)
  {
    forall i, j :: 0 <= i < j < |xs| ==> xs[i] != xs[j]
  }

  /** `list(set(xs))`: each element once, in an order the model leaves open. */
  method DistinctList(xs: seq<string>) returns (r: seq<string>)
    ensures NoDuplicates(r)
    ensures forall x :: x in r <==> x in xs
  {
    var left := set x | x in xs;
    r := [];
    while left != {}
      invariant NoDuplicates(r)
      invariant forall x :: x in r ==> x in xs && x !in left
      invariant forall x :: x in xs ==> x in r || x in left
      invariant forall x :: x in left ==> x in xs
      decreases |left|
    {
      var x :| x in left;
      r := r + [x];
      left := left - {x};
    }
  }

  /** `extract_missing_packages`: the loop over the lines, then the duplicates removed. */
  method ExtractMissingPackages(log: string) returns (packages: seq<string>)
    ensures NoDuplicates(packages)
    ensures forall n :: n in packages <==> n in MissingList(log)
    ensures forall n :: n in packages ==> Contains(log, n + ".sty")
  {
    MissingNamesInLog(log);
    var lines := Split(log, '\n');
    var missing: seq<string> := [];
    for i := 0 to |lines|
      invariant MissingFrom(lines, i, missing) == MissingFrom(lines, 0, [])
    {
      var added := MissingTurn(lines, i, missing);
      missing := missing + added;
    }
    packages := DistinctList(missing);
  }

  /** The body of the loop for line `i`. */
  method MissingTurn(lines: seq<string>, i: nat, acc: seq<string>) returns (added: seq<string>)
    requires i < |lines|
    ensures added == LineNames(lines, i, acc)
  {
    var line := lines[i];
    added := [];
    if InBranch1(line) {
      added := QuotedName(line);
    } else if InBranch2(line) {
      added := BacktickName(line);
    } else if InBranch3(line) {
      var next := if i + 1 < |lines| then lines[i + 1] else "";
      if Contains(next, ".sty") {
        added := StyWordLoop(SplitWords(next));
      }
    } else if InBranch4(line) {
      added := LooseWordLoop(SplitWords(line), acc);
    }
  }

  /** Branch 3's loop over the words of the next line. */
  method StyWordLoop(words: seq<string>) returns (names: seq<string>)
    ensures names == StyWords(words)
  {
    names := [];
    for j := 0 to |words|
      invariant names + StyWords(words[j..]) == StyWords(words)
    {
      assert words[j..][1..] == words[j + 1..];
      if EndsWith(words[j], ".sty") {
        names := names + [DropLast4(words[j])];
      }
    }
  }

  /** Branch 4's loop over the words of the line, checking each name against the list so far. */
  method LooseWordLoop(words: seq<string>, acc: seq<string>) returns (added: seq<string>)
    ensures added == LooseNames(words, acc)
  {
    added := [];
    var seen := acc;
    assert acc + [] == acc && words[0..] == words;
    for j := 0 to |words|
      invariant seen == acc + added
      invariant added + LooseNames(words[j..], seen) == LooseNames(words, acc)
    {
      var add := LooseTurn(words[j], seen);
      LooseAdvances(words, j, seen, added, add);
      AppendAssoc(acc, added, add);
      added := added + add;
      seen := seen + add;
    }
  }

  /** The body of branch 4's loop for one word. */
  method LooseTurn(w: string, seen: seq<string>) returns (add: seq<string>)
    ensures add == LooseAdd(w, seen)
  {
    add := [];
    if IsStyWord(w) {
      var n := LooseName(w);
      if n != [] && n !in seen {
        add := [n];
      }
    }
  }

  // The branches' relation to each other and to the message pdflatex prints

  /** The message pdflatex prints when a style file is missing, with its two quote characters apart. */
  function StandardMessage(name: string): string
  {
    "! LaTeX Error: File " + ['`'] + name + ".sty" + ['\''] + " not found."
  }

  /** Every line that passes branch 2's test already passed branch 1's, so branch 2 never runs. */
  lemma Branch2Dead(line: string)
    ensures InBranch2(line) ==> InBranch1(line)
  {
    if InBranch2(line) {
      ContainsPart(line, "! LaTeX Error: File `", 0, 19);
      assert "! LaTeX Error: File `"[0..19] == "! LaTeX Error: File";
      ContainsPart(line, ".sty' not found", 6, 15);
      assert ".sty' not found"[6..15] == "not found";
    }
  }

  /** A line made of a head, a middle and a tail contains the head and the tail. */
  lemma ContainsEnds(line: string, head: string, mid: string, tail: string)
    requires line == head + mid + tail
    ensures Contains(line, head) && Contains(line, tail)
  {
    assert OccursAt(line, head, 0);
    assert OccursAt(line, tail, |head| + |mid|);
    ContainsIff(line, head);
    ContainsIff(line, tail);
  }

  /** The standard message passes the tests of branches 1 and 2. */
  lemma StandardMessageBranches(name: string)
    ensures InBranch1(StandardMessage(name)) && InBranch2(StandardMessage(name))
  {
    var line := StandardMessage(name);
    var head := "! LaTeX Error: File `";
    var tail := ".sty' not found";
    assert head == "! LaTeX Error: File " + ['`'];
    assert tail + "." == ".sty" + ['\''] + " not found.";
    ContainsEnds(line, head, name, tail + ".");
    ContainsPart(line, tail + ".", 0, 15);
    assert (tail + ".")[0..15] == tail;
    Branch2Dead(line);
  }

  /** Branch 1 on a line with one `'` whose second piece is no file name adds nothing. */
  lemma QuotedNone(line: string, a: string, b: string)
    requires line == a + ['\''] + b && '\'' !in a && '\'' !in b && !EndsWith(b, ".sty")
    ensures QuotedName(line) == []
  {
    SplitAfterPiece(a, b, '\'');
    NoSepSplit(b, '\'');
  }

  /** Branch 2 on a line with one backtick and then one `'` takes the file name between them. */
  lemma BacktickGives(line: string, a: string, file: string, b: string)
    requires line == a + ['`'] + (file + ['\''] + b)
    requires '`' !in a && '`' !in file && '`' !in b && '\'' !in file && EndsWith(file, ".sty")
    ensures BacktickName(line) == [DropLast4(file)]
  {
    SplitAfterPiece(a, file + ['\''] + b, '`');
    NoSepSplit(file + ['\''] + b, '`');
    SplitAfterPiece(file, b, '\'');
  }

  /** A log of one line is that line's names. */
  lemma OneLineLog(line: string)
    requires '\n' !in line
    ensures MissingList(line) == LineNames([line], 0, [])
    ensures FixedMissingList(line) == FixedLineNames([line], 0, [])
  {
    NoSepSplit(line, '\n');
    var x := LineNames([line], 0, []);
    var y := FixedLineNames([line], 0, []);
    assert MissingFrom([line], 0, []) == MissingFrom([line], 1, [] + x) == [] + x == x;
    assert FixedMissingFrom([line], 0, []) == FixedMissingFrom([line], 1, [] + y) == [] + y == y;
  }

  /** As written, the message pdflatex prints for a missing package yields no package name. */
  lemma StandardMessageMissed(name: string)
    requires '\'' !in name && '\n' !in name
    ensures MissingList(StandardMessage(name)) == []
  {
    var line := StandardMessage(name);
    StandardMessageBranches(name);
    QuotedName0(name, line);
    OneLineLog(line);
  }

  lemma QuotedName0(name: string, line: string)
    requires '\'' !in name && line == StandardMessage(name)
    ensures QuotedName(line) == []
  {
    var a := "! LaTeX Error: File " + ['`'] + name + ".sty";
    QuotedNone(line, a, " not found.");
  }

  /** What line `i` adds when the backtick test comes before the looser branch 1. */
  function FixedLineNames(lines: seq<string>, i: nat, acc: seq<string>): seq<string>
    requires i < |lines|
  {
    var line := lines[i];
    if InBranch2(line) then BacktickName(line)
    else if InBranch1(line) then QuotedName(line)
    else if InBranch3(line) then NextLineNames(lines, i)
    else if InBranch4(line) then LooseNames(SplitWords(line), acc)
    else []
  }

  function FixedMissingFrom(lines: seq<string>, i: nat, acc: seq<string>): seq<string>
    requires i <= |lines|
    decreases |lines| - i
  {
    if i == |lines| then acc else FixedMissingFrom(lines, i + 1, acc + FixedLineNames(lines, i, acc))
  }

  /** The list with the branches in the intended order. */
  function FixedMissingList(log: string): seq<string>
  {
    FixedMissingFrom(Split(log, '\n'), 0, [])
  }

  lemma BacktickName0(name: string, line: string)
    requires '\'' !in name && '`' !in name && line == StandardMessage(name)
    ensures BacktickName(line) == [name]
  {
    var file := name + ".sty";
    assert DropLast4(file) == name;
    BacktickGives(line, "! LaTeX Error: File ", file, " not found.");
  }

  /** With the backtick test first, the standard message yields its package name. */
  lemma FixedStandardMessage(name: string)
    requires '\'' !in name && '`' !in name && '\n' !in name
    ensures FixedMissingList(StandardMessage(name)) == [name]
  {
    var line := StandardMessage(name);
    StandardMessageBranches(name);
    BacktickName0(name, line);
    OneLineLog(line);
  }

  // Every name the scan reports is written in the log, followed by `.sty`

  /** A name cut from a word ending in `.sty` gives the word back. */
  lemma DropStyBack(w: string)
    requires EndsWith(w, ".sty")
    ensures DropLast4(w) + ".sty" == w
  {
    assert w == w[..|w| - 4] + w[|w| - 4..];
  }

  lemma QuotedOccurs(line: string, n: string)
    requires n in QuotedName(line)
    ensures Contains(line, n + ".sty")
  {
    var parts := Split(line, '\'');
    DropStyBack(parts[1]);
    var a := SplitPieceAt(line, '\'', 1);
    ContainsIff(line, n + ".sty");
  }

  lemma BacktickOccurs(line: string, n: string)
    requires n in BacktickName(line)
    ensures Contains(line, n + ".sty")
  {
    var parts := Split(line, '`');
    var file := Split(parts[1], '\'')[0];
    DropStyBack(file);
    var a := SplitPieceAt(line, '`', 1);
    var b := SplitPieceAt(parts[1], '\'', 0);
    OccursTrans(line, parts[1], file, a, b);
    ContainsIff(line, n + ".sty");
  }

  /** A name branch 3 reports comes from a word ending in `.sty`. */
  lemma {:induction false} StyWordsFrom(words: seq<string>, n: string) returns (m: nat)
    requires n in StyWords(words)
    ensures m < |words| && words[m] == n + ".sty"
  {
    if EndsWith(words[0], ".sty") && n == DropLast4(words[0]) {
      DropStyBack(words[0]);
      m := 0;
    } else {
      var k := StyWordsFrom(words[1..], n);
      m := k + 1;
    }
  }

  lemma NextLineOccurs(lines: seq<string>, i: nat, n: string) returns (j: nat)
    requires i < |lines| && n in NextLineNames(lines, i)
    ensures j < |lines| && Contains(lines[j], n + ".sty")
  {
    j := i + 1;
    var m := StyWordsFrom(SplitWords(lines[j]), n);
    var a := WordAt(lines[j], m);
    ContainsIff(lines[j], n + ".sty");
  }

  /** A name branch 4 reports comes from one of the words. */
  lemma {:induction false} LooseNameSource(words: seq<string>, acc: seq<string>, n: string) returns (m: nat)
    requires n in LooseNames(words, acc)
    ensures m < |words| && IsStyWord(words[m]) && n == LooseName(words[m])
  {
    if n in LooseAdd(words[0], acc) {
      m := 0;
    } else {
      var k := LooseNameSource(words[1..], acc + LooseAdd(words[0], acc), n);
      m := k + 1;
    }
  }

  /** The name branch 4 cuts from a word without spaces, followed by `.sty`, starts the word. */
  lemma LooseNameOccurs(w: string)
    requires IsStyWord(w) && NoSpace(w)
    ensures OccursAt(w, LooseName(w) + ".sty", 0)
  {
    if EndsWith(w, ".sty") {
      assert RStripChars(w, ".,") == w;
      StripNoSpace(w);
      DropStyBack(w);
      assert w[0..|w|] == w;
    } else {
      var v := w[..|w| - 1];
      assert EndsWith(v, ".sty") && v[|v| - 1] == 'y';
      assert RStripChars(w, ".,") == RStripChars(v, ".,") == v;
      assert NoSpace(v);
      StripNoSpace(v);
      DropStyBack(v);
      assert w[0..|v|] == v;
    }
  }

  lemma LooseOccurs(line: string, acc: seq<string>, n: string)
    requires n in LooseNames(SplitWords(line), acc)
    ensures Contains(line, n + ".sty")
  {
    var m := LooseNameSource(SplitWords(line), acc, n);
    var w := SplitWords(line)[m];
    var a := WordAt(line, m);
    LooseNameOccurs(w);
    OccursTrans(line, w, n + ".sty", a, 0);
    ContainsIff(line, n + ".sty");
  }

  /** Some line contains `q`. */
  predicate InSomeLine(lines: seq<string>, q: string)
  {
    exists j :: 0 <= j < |lines| && Contains(lines[j], q)
  }

  /** Every name line `i` adds is written, followed by `.sty`, in that line or the next. */
  lemma LineNamesOccur(lines: seq<string>, i: nat, acc: seq<string>, n: string)
    requires i < |lines| && n in LineNames(lines, i, acc)
    ensures InSomeLine(lines, n + ".sty")
  {
    var line := lines[i];
    if InBranch1(line) {
      QuotedOccurs(line, n);
    } else if InBranch2(line) {
      BacktickOccurs(line, n);
    } else if InBranch3(line) {
      var j := NextLineOccurs(lines, i, n);
    } else {
      LooseOccurs(line, acc, n);
    }
  }

  lemma {:induction false} MissingFromOccur(lines: seq<string>, i: nat, acc: seq<string>)
    requires i <= |lines|
    requires forall n :: n in acc ==> InSomeLine(lines, n + ".sty")
    ensures forall n :: n in MissingFrom(lines, i, acc) ==> InSomeLine(lines, n + ".sty")
    decreases |lines| - i
  {
    if i < |lines| {
      forall n | n in LineNames(lines, i, acc)
        ensures InSomeLine(lines, n + ".sty")
      {
        LineNamesOccur(lines, i, acc, n);
      }
      MissingFromOccur(lines, i + 1, acc + LineNames(lines, i, acc));
    }
  }

  /** Every package name reported as missing is written in the log, followed by `.sty`. */
  lemma MissingNamesInLog(log: string)
    ensures forall n :: n in MissingList(log) ==> Contains(log, n + ".sty")
  {
    var lines := Split(log, '\n');
    MissingFromOccur(lines, 0, []);
    forall n | n in MissingList(log)
      ensures Contains(log, n + ".sty")
    {
      LineTextInLog(log, n + ".sty");
    }
  }

  /** Text held by some line of the log is held by the log. */
  lemma LineTextInLog(log: string, q: string)
    requires InSomeLine(Split(log, '\n'), q)
    ensures Contains(log, q)
  {
    var lines := Split(log, '\n');
    var j :| 0 <= j < |lines| && Contains(lines[j], q);
    var a := SplitPieceAt(log, '\n', j);
    FindFromSpec(lines[j], q, 0);
    OccursTrans(log, lines[j], q, a, FindFrom(lines[j], q, 0));
    ContainsIff(log, q);
  }

  // ---------------------------------------------------------------------
  // extract_packages_from_source
  // ---------------------------------------------------------------------

  const UsePackage := "\\usepackage"
  const RequirePackage := "\\RequirePackage"
  const DocumentClass := "\\documentclass"

  /** A match of `cmd(?:\[.*?\])?\{([^}]+)\}`: its group and where it ends. */
  datatype Match = Match(group: string, end: nat)

  /** Where `\{([^}]+)\}` matches at `x`: the index of the closing brace, after at least one other character. */
  function BraceClose(s: string, x: nat): (r: Option<nat>)
    ensures r.Some? ==> x + 1 < r.value < |s| && s[x] == '{' && s[r.value] == '}'
    ensures r.Some? ==> forall k :: x < k < r.value ==> s[k] != '}'
  {
    if x < |s| && s[x] == '{' then
      var e := FindCharFrom(s, '}', x + 1);
      if e > x + 1 then Some(e) else None
    else None
  }

  /** The lazy `\[.*?\]` that started before `r`: the first `]` on the same line after which a brace group matches, as the index of that group. */
  function LazyOptions(s: string, r: nat): (x: Option<nat>)
    requires r <= |s|
    ensures x.Some? ==> r < x.value <= |s| && s[x.value - 1] == ']' && BraceClose(s, x.value).Some?
    ensures x.Some? ==> forall k :: r <= k < x.value ==> s[k] != '\n'
    decreases |s| - r
  {
    if r == |s| || s[r] == '\n' then None
    else if s[r] == ']' && BraceClose(s, r + 1).Some? then Some(r + 1)
    else LazyOptions(s, r + 1)
  }

  /** Where the brace group of the expression tried at `p` must start: after the command, and after the options if a `[` follows it. */
  function BraceStart(s: string, cmd: string, p: nat): Option<nat>
  {
    if !OccursAt(s, cmd, p) then None
    else
      var q := p + |cmd|;
      if q < |s| && s[q] == '[' then LazyOptions(s, q + 1) else Some(q)
  }

  /** The brace group at `x`: its contents and the index after its closing brace. */
  function BraceMatch(s: string, x: nat): (m: Option<Match>)
    ensures m.Some? ==> m.value.end == x + |m.value.group| + 2 <= |s|
    ensures m.Some? ==> m.value.group != [] && '}' !in m.value.group
    ensures m.Some? ==> s[x..m.value.end] == ['{'] + m.value.group + ['}']
  {
    match BraceClose(s, x)
    case None => None
    case Some(e) =>
      assert s[x..e + 1] == ['{'] + s[x + 1..e] + ['}'];
      Some(Match(s[x + 1..e], e + 1))
  }

  /** The regular expression tried at `p`: the command, optional options, then the brace group. */
  function MatchAt(s: string, cmd: string, p: nat): (m: Option<Match>)
    requires cmd != []
    ensures m.Some? ==> p < m.value.end <= |s| && m.value.group != [] && '}' !in m.value.group
  {
    var x := BraceStart(s, cmd, p);
    if x.None? then None else BraceMatch(s, x.value)
  }

  /** `re.findall` from `p`: the groups of the non-overlapping matches, left to right. */
  function FindAll(s: string, cmd: string, p: nat): seq<string>
    requires cmd != [] && p <= |s|
    decreases |s| - p
  {
    if p == |s| then []
    else match MatchAt(s, cmd, p)
      case Some(m) => [m.group] + FindAll(s, cmd, m.end)
      case None => FindAll(s, cmd, p + 1)
  }

  /** `[pkg.strip() for pkg in group.split(',')]`. */
  function GroupItems(group: string): (r: seq<string>)
    ensures |r| == |Split(group, ',')|
    ensures forall i :: 0 <= i < |r| ==> r[i] == Strip(Split(group, ',')[i])
  {
    var parts := Split(group, ',');
    seq(|parts|, i requires 0 <= i < |parts| => Strip(parts[i]))
  }

  /** The list the loop over the groups extends. */
  function Items(groups: seq<string>): seq<string>
  {
    if groups == [] then [] else Items(groups[..|groups| - 1]) + GroupItems(groups[|groups| - 1])
  }

  /** Appends `dep` when `trigger` is listed and `dep` is not. */
  function AddIfMissing(pkgs: seq<string>, trigger: string, dep: string): seq<string>
  {
    if trigger in pkgs && dep !in pkgs then pkgs + [dep] else pkgs
  }

  /** The four dependency rules, in their order. */
  function WithDependencies(pkgs: seq<string>): seq<string>
  {
    var a := AddIfMissing(pkgs, "tikz", "pgf");
    var b := AddIfMissing(a, "hyperref", "url");
    var c := AddIfMissing(b, "color", "xcolor");
    AddIfMissing(c, "tcolorbox", "xcolor")
  }

  /** The first document class is `beamer`, after stripping. */
  predicate IsBeamer(classes: seq<string>)
  {
    classes != [] && Strip(classes[0]) == "beamer"
  }

  /** A beamer document class needs `xcolor`. */
  function WithClass(pkgs: seq<string>, classes: seq<string>): seq<string>
  {
    if IsBeamer(classes) && "xcolor" !in pkgs then pkgs + ["xcolor"] else pkgs
  }

  /** The items named by `\usepackage` and then `\RequirePackage`. */
  function SourceItems(content: string): seq<string>
  {
    Items(FindAll(content, UsePackage, 0) + FindAll(content, RequirePackage, 0))
  }

  /** The list `extract_packages_from_source` builds before duplicates go. */
  function SourcePackages(content: string): seq<string>
  {
    WithClass(WithDependencies(SourceItems(content)), FindAll(content, DocumentClass, 0))
  }

  /** `extract_packages_from_source`. */
  method ExtractPackagesFromSource(content: string) returns (packages: seq<string>)
    ensures NoDuplicates(packages)
    ensures forall x :: x in packages <==> x in SourcePackages(content)
  {
    var groups := FindAll(content, UsePackage, 0) + FindAll(content, RequirePackage, 0);
    var pkgs := CollectItems(groups);
    pkgs := AddDependencies(pkgs, FindAll(content, DocumentClass, 0));
    packages := DistinctList(pkgs);
  }

  /** The loop extending the list with the stripped pieces of each group. */
  method CollectItems(groups: seq<string>) returns (pkgs: seq<string>)
    ensures pkgs == Items(groups)
  {
    pkgs := [];
    for i := 0 to |groups|
      invariant pkgs == Items(groups[..i])
    {
      assert groups[..i + 1][..i] == groups[..i];
      pkgs := pkgs + GroupItems(groups[i]);
    }
    assert groups[..|groups|] == groups;
  }

  /** The dependency rules and the document-class rule, in their order. */
  method AddDependencies(items: seq<string>, classes: seq<string>) returns (pkgs: seq<string>)
    ensures pkgs == WithClass(WithDependencies(items), classes)
  {
    pkgs := items;
    if "tikz" in pkgs && "pgf" !in pkgs {
      pkgs := pkgs + ["pgf"];
    }
    if "hyperref" in pkgs && "url" !in pkgs {
      pkgs := pkgs + ["url"];
    }
    if "color" in pkgs && "xcolor" !in pkgs {
      pkgs := pkgs + ["xcolor"];
    }
    if "tcolorbox" in pkgs && "xcolor" !in pkgs {
      pkgs := pkgs + ["xcolor"];
    }
    if classes != [] {
      var docClass := Strip(classes[0]);
      if docClass == "beamer" && "xcolor" !in pkgs {
        pkgs := pkgs + ["xcolor"];
      }
    }
  }

  // What the dependency rules add, and what `findall` returns

  /** A name is in the final list exactly when it was named in the source or a rule added it. */
  lemma DependencyRules(items: seq<string>, classes: seq<string>, x: string)
    ensures x in WithClass(WithDependencies(items), classes)
        <==> x in items
             || (x == "pgf" && "tikz" in items)
             || (x == "url" && "hyperref" in items)
             || (x == "xcolor" && ("color" in items || "tcolorbox" in items || IsBeamer(classes)))
  {
    var a := AddIfMissing(items, "tikz", "pgf");
    var b := AddIfMissing(a, "hyperref", "url");
    var c := AddIfMissing(b, "color", "xcolor");
    var d := AddIfMissing(c, "tcolorbox", "xcolor");
    assert "tikz" != "url" && "tikz" != "xcolor" && "tikz" != "pgf";
    assert "hyperref" != "pgf" && "color" != "pgf" && "color" != "url" && "tcolorbox" != "pgf" && "tcolorbox" != "url";
    assert x in a <==> x in items || (x == "pgf" && "tikz" in items);
    assert x in b <==> x in a || (x == "url" && "hyperref" in a);
    assert x in c <==> x in b || (x == "xcolor" && "color" in b);
    assert x in d <==> x in c || (x == "xcolor" && "tcolorbox" in c);
  }

  /** The extracted list is closed under the dependency rules. */
  lemma DependenciesClosed(content: string)
    ensures var r := SourcePackages(content);
            ("tikz" in r ==> "pgf" in r) && ("hyperref" in r ==> "url" in r)
            && ("color" in r ==> "xcolor" in r) && ("tcolorbox" in r ==> "xcolor" in r)
            && (IsBeamer(FindAll(content, DocumentClass, 0)) ==> "xcolor" in r)
  {
    var items := SourceItems(content);
    var classes := FindAll(content, DocumentClass, 0);
    DependencyRules(items, classes, "tikz");
    DependencyRules(items, classes, "pgf");
    DependencyRules(items, classes, "hyperref");
    DependencyRules(items, classes, "url");
    DependencyRules(items, classes, "color");
    DependencyRules(items, classes, "tcolorbox");
    DependencyRules(items, classes, "xcolor");
  }

  /** The group of a match stands between braces in the text. */
  lemma MatchBraces(s: string, cmd: string, p: nat)
    requires cmd != [] && MatchAt(s, cmd, p).Some?
    ensures Contains(s, ['{'] + MatchAt(s, cmd, p).value.group + ['}'])
  {
    var x := BraceStart(s, cmd, p).value;
    var g := MatchAt(s, cmd, p).value.group;
    assert OccursAt(s, ['{'] + g + ['}'], x);
    ContainsIff(s, ['{'] + g + ['}']);
  }

  /** Every group `findall` returns is non-empty, has no `}` and stands between braces in the text. */
  lemma {:induction false} FindAllGroups(s: string, cmd: string, p: nat)
    requires cmd != [] && p <= |s|
    ensures forall g :: g in FindAll(s, cmd, p) ==> g != [] && '}' !in g && Contains(s, ['{'] + g + ['}'])
    decreases |s| - p
  {
    if p < |s| {
      match MatchAt(s, cmd, p)
      case Some(m) =>
        MatchBraces(s, cmd, p);
        FindAllGroups(s, cmd, m.end);
      case None =>
        FindAllGroups(s, cmd, p + 1);
    }
  }

  /** The bracketed options a command may carry. */
  function OptionsText(opts: Option<string>): string
  {
    if opts.Some? then "[" + opts.value + "]" else ""
  }

  /** The lazy options group passes over characters that are neither a newline nor `]`. */
  lemma {:induction false} LazySkips(s: string, r: nat, t: nat)
    requires r <= t <= |s|
    requires forall k :: r <= k < t ==> s[k] != '\n' && s[k] != ']'
    ensures LazyOptions(s, r) == LazyOptions(s, t)
    decreases t - r
  {
    if r < t {
      LazySkips(s, r + 1, t);
    }
  }

  /** The brace group `{g}` at `x` is matched whole. */
  lemma BraceMatchAt(s: string, x: nat, g: string)
    requires g != [] && '}' !in g && x + |g| + 2 <= |s|
    requires s[x..x + |g| + 2] == ['{'] + g + ['}']
    ensures BraceMatch(s, x) == Some(Match(g, x + |g| + 2)) && BraceClose(s, x).Some?
  {
    assert s[x] == '{' && s[x + 1 + |g|] == '}';
    assert forall k :: x + 1 <= k < x + 1 + |g| ==> s[k] == g[k - x - 1];
    assert BraceClose(s, x) == Some(x + 1 + |g|);
    assert s[x + 1..x + 1 + |g|] == g;
  }

  /** Options `[o]` at `q` are passed over lazily when a brace group follows them. */
  lemma OptionsSkipped(s: string, q: nat, o: string)
    requires q + |o| + 2 <= |s| && s[q + |o| + 1] == ']'
    requires forall k :: 0 <= k < |o| ==> s[q + 1 + k] == o[k]
    requires '\n' !in o && ']' !in o && BraceClose(s, q + |o| + 2).Some?
    ensures LazyOptions(s, q + 1) == Some(q + |o| + 2)
  {
    forall k | q + 1 <= k < q + 1 + |o|
      ensures s[k] != '\n' && s[k] != ']'
    {
      assert s[q + 1 + (k - q - 1)] == o[k - q - 1];
    }
    LazySkips(s, q + 1, q + 1 + |o|);
  }

  /** A command with optional options and one brace group yields that group. */
  lemma CommandRoundTrip(cmd: string, opts: Option<string>, g: string)
    requires cmd != [] && g != [] && '}' !in g
    requires opts.Some? ==> '\n' !in opts.value && ']' !in opts.value
    ensures FindAll(cmd + OptionsText(opts) + "{" + g + "}", cmd, 0) == [g]
  {
    var s := cmd + OptionsText(opts) + "{" + g + "}";
    Layout(s, cmd, OptionsText(opts), g);
    MatchOfLayout(s, cmd, OptionsText(opts), opts, g);
  }

  /** The same, from where the parts sit in the text. */
  lemma MatchOfLayout(s: string, cmd: string, o: string, opts: Option<string>, g: string)
    requires cmd != [] && g != [] && '}' !in g && o == OptionsText(opts)
    requires opts.Some? ==> '\n' !in opts.value && ']' !in opts.value
    requires OccursAt(s, cmd, 0)
    requires |cmd| + |o| + |g| + 2 == |s| && s[|cmd| + |o|..|s|] == ['{'] + g + ['}'] && s[|cmd| + |o|] == '{'
    requires forall k :: 0 <= k < |o| ==> s[|cmd| + k] == o[k]
    ensures FindAll(s, cmd, 0) == [g]
  {
    var x := |cmd| + |o|;
    BraceMatchAt(s, x, g);
    if opts.Some? {
      OptionsStart(s, cmd, o, opts.value, x);
    } else {
      StartPlain(s, cmd, x);
    }
    FindAllSingle(s, cmd, x, g);
  }

  /** Options after the command: the brace group starts where they end. */
  lemma OptionsStart(s: string, cmd: string, o: string, ov: string, x: nat)
    requires o == "[" + ov + "]" && '\n' !in ov && ']' !in ov
    requires OccursAt(s, cmd, 0) && x == |cmd| + |o| <= |s| && BraceClose(s, x).Some?
    requires forall k :: 0 <= k < |o| ==> s[|cmd| + k] == o[k]
    ensures BraceStart(s, cmd, 0) == Some(x)
  {
    OptionsChars(s, |cmd|, o, ov);
    OptionsSkipped(s, |cmd|, ov);
    StartWithOptions(s, cmd, x);
  }

  /** The characters of options `[ov]` written at `q`. */
  lemma OptionsChars(s: string, q: nat, o: string, ov: string)
    requires o == "[" + ov + "]" && q + |o| <= |s|
    requires forall k :: 0 <= k < |o| ==> s[q + k] == o[k]
    ensures |o| == |ov| + 2 && s[q] == '[' && s[q + |ov| + 1] == ']'
    ensures forall k :: 0 <= k < |ov| ==> s[q + 1 + k] == ov[k]
  {
    OptionsLayout(o, ov);
    assert s[q + 0] == o[0];
    assert s[q + (|ov| + 1)] == o[|ov| + 1];
    forall k | 0 <= k < |ov|
      ensures s[q + 1 + k] == ov[k]
    {
      assert s[q + (1 + k)] == o[1 + k];
    }
  }

  lemma StartPlain(s: string, cmd: string, x: nat)
    requires OccursAt(s, cmd, 0) && x == |cmd| < |s| && s[x] == '{'
    ensures BraceStart(s, cmd, 0) == Some(x)
  {
  }

  lemma StartWithOptions(s: string, cmd: string, x: nat)
    requires OccursAt(s, cmd, 0) && |cmd| < |s| && s[|cmd|] == '[' && LazyOptions(s, |cmd| + 1) == Some(x)
    ensures BraceStart(s, cmd, 0) == Some(x)
  {
  }

  /** A text that is one whole match from its start: `findall` returns its group alone. */
  lemma FindAllSingle(s: string, cmd: string, x: nat, g: string)
    requires cmd != [] && BraceStart(s, cmd, 0) == Some(x) && BraceMatch(s, x) == Some(Match(g, |s|))
    ensures FindAll(s, cmd, 0) == [g]
  {
    assert MatchAt(s, cmd, 0) == Some(Match(g, |s|));
  }

  /** Where the parts of `cmd + o + "{" + g + "}"` sit. */
  lemma Layout(s: string, cmd: string, o: string, g: string)
    requires s == cmd + o + "{" + g + "}"
    ensures OccursAt(s, cmd, 0)
    ensures forall k :: 0 <= k < |o| ==> s[|cmd| + k] == o[k]
    ensures |cmd| + |o| + |g| + 2 == |s| && s[|cmd| + |o|..|s|] == ['{'] + g + ['}'] && s[|cmd| + |o|] == '{'
  {
    assert s[..|cmd|] == cmd;
  }

  /** The characters of `[o]`. */
  lemma OptionsLayout(t: string, o: string)
    requires t == "[" + o + "]"
    ensures |t| == |o| + 2 && t[0] == '[' && t[|o| + 1] == ']'
    ensures forall k :: 0 <= k < |o| ==> t[1 + k] == o[k]
  {
  }
}
