/**
 * The local client's `process_local_latex` between reading the file and
 * writing it back: pick the first `user` block whose status is `start`,
 * rewrite its status to `completed_<timestamp>`, and splice the rebuilt
 * block and the model's reasoning and answer blocks into the document.
 *
 * Unlike the server, the client counts the replacements of the first
 * pattern (`re.subn`) and falls back to two line-oriented substitutions
 * (flag MULTILINE) when there were none. A match of those two never runs
 * past a newline except through the trailing `\s*` of the second, so both
 * are written line by line over `split('\n')`, with that `\s*` swallowing
 * the blank lines that follow. The emitted blocks come from f-strings that
 * are not raw, so they hold two backslashes before `begin`/`end` and a
 * backslash followed by `n` where a newline was meant.
 */
module LocalProcess {
  import opened Text
  import opened Environments
  import PromptParams
  import ServerProcess

  /**
   * `re.subn(r'(status\\s*=\\s*start)', 'status=' + new, s[p..], IGNORECASE)`:
   * every match, left to right, is replaced; the count comes back with the
   * text. No replacement leaves the text as it was.
   */
  function SubnStatus(s: string, newStatus: string, p: nat): (r: (string, nat))
    requires p <= |s|
    decreases |s| - p
    ensures r.1 == 0 ==> r.0 == s[p..]
  {
    if p == |s| then ([], 0)
    else
      var e := ServerProcess.StatusPartEnd(s, p);
      if e != -1 then
        var rest := SubnStatus(s, newStatus, e);
        ("status=" + newStatus + rest.0, rest.1 + 1)
      else
        var rest := SubnStatus(s, newStatus, p + 1);
        assert s[p..] == [s[p]] + s[p + 1..];
        ([s[p]] + rest.0, rest.1)
  }

  /** The first index of `%parameters:` in `line` ignoring case, or -1. */
  function MarkerIndex(line: string): (r: int)
    ensures r == -1 || (0 <= r && r + |PromptParams.Marker| <= |line|)
  {
    FindIgnoringCase(line, PromptParams.Marker, 0)
  }

  /** The marker occurs at the index found, ignoring case, and at no earlier index. */
  lemma MarkerIndexSpec(line: string)
    ensures var r := MarkerIndex(line);
            (r == -1 || OccursAtIgnoringCase(line, PromptParams.Marker, r)) &&
            forall k: nat :: r == -1 || k < r ==> !OccursAtIgnoringCase(line, PromptParams.Marker, k)
  {
    FindIgnoringCaseSpec(line, PromptParams.Marker, 0);
  }

  /**
   * `(%parameters:.*?)$(?<!,)` replaced by `\1, status=<new>` on one line:
   * the lazy `.*?` can only stop at the end of the line, and the look-behind
   * refuses a line whose last character is a comma.
   */
  function AppendLine(line: string, newStatus: string): string
  {
    if MarkerIndex(line) >= 0 && line[|line| - 1] != ',' then line + AppendedText(newStatus) else line
  }

  /** `, status=<new>`: what the first fallback puts at the end of a line. */
  function AppendedText(newStatus: string): string
  {
    [','] + CommaText(newStatus)
  }

  /** ` status=<new>`: what the second fallback puts after a line's last comma. */
  function CommaText(newStatus: string): string
  {
    " " + PromptParams.Pair("status", newStatus)
  }

  function AppendLines(lines: seq<string>, newStatus: string): (r: seq<string>)
    ensures |r| == |lines|
  {
    if lines == [] then [] else [AppendLine(lines[0], newStatus)] + AppendLines(lines[1..], newStatus)
  }

  /**
   * `(%parameters:.*?,)\s*$` matches a line whose last non-blank character is
   * a comma after the marker's first occurrence.
   */
  predicate EndsInComma(line: string)
  {
    var p := MarkerIndex(line);
    var k := SkipSpaceBack(line, |line|);
    p >= 0 && k > p + |PromptParams.Marker| && line[k - 1] == ','
  }

  /** The line up to its last comma, then ` status=<new>` (`\1 status=<new>`). */
  function CommaLine(line: string, newStatus: string): string
    requires EndsInComma(line)
  {
    line[..SkipSpaceBack(line, |line|)] + CommaText(newStatus)
  }

  /** The lines after a run of blank ones: what `\s*$` leaves behind. */
  function DropBlank(lines: seq<string>): (r: seq<string>)
    ensures |r| <= |lines| && r == lines[|lines| - |r|..]
    ensures r != [] ==> !AllSpace(r[0])
  {
    if lines != [] && AllSpace(lines[0]) then DropBlank(lines[1..]) else lines
  }

  /**
   * The second fallback substitution over the lines of the text: a line
   * ending in a comma gets ` status=<new>` after it, and the blank lines after
   * it go with the matched white space.
   */
  function CommaLines(lines: seq<string>, newStatus: string): seq<string>
    decreases |lines|
  {
    if lines == [] then []
    else if EndsInComma(lines[0]) then [CommaLine(lines[0], newStatus)] + CommaLines(DropBlank(lines[1..]), newStatus)
    else [lines[0]] + CommaLines(lines[1..], newStatus)
  }

  /** Both fallback substitutions, each over the whole text cut at its newlines. */
  function Fallback(s: string, newStatus: string): string
  {
    var t := Join("\n", AppendLines(Split(s, '\n'), newStatus));
    Join("\n", CommaLines(Split(t, '\n'), newStatus))
  }

  /**
   * The new inner text of the selected block: with a `%parameters:` in it,
   * the counted substitution and, when it replaced nothing, the fallback;
   * without one, the stripped text and a fresh parameter line.
   */
  function LocalRewriteInner(inner: string, newStatus: string): string
  {
    if Contains(inner, PromptParams.Marker) then
      var (u, n) := SubnStatus(inner, newStatus, 0);
      if n == 0 then Fallback(u, newStatus) else u
    else Strip(inner) + "\n" + PromptParams.ParamLine("status", newStatus) + "\n"
  }

  /** The rebuilt `user` block, with two backslashes before `begin` and `end`. */
  function LocalUserBlock(inner: string): string
  {
    "\\\\begin{user}" + inner + "\\\\end{user}"
  }

  /** The reasoning block: a backslash and `n` stand where newlines were meant. */
  function ReasoningBlock(reply: ServerProcess.Reply): string
  {
    "\\\\begin{reasoning}\\n" + reply.reasoning + "\\n\\\\end{reasoning}"
  }

  /** The answer block, titled, written the same way. */
  function AnswerBlock(reply: ServerProcess.Reply): string
  {
    "\\\\begin{answer}[" + reply.title + "]\\n" + reply.answer + "\\n\\\\end{answer}"
  }

  /** The blocks put after the user block, separated by real newlines. */
  function LocalNewBlocks(reply: ServerProcess.Reply): string
  {
    "\n" + ReasoningBlock(reply) + "\n\n" + AnswerBlock(reply) + "\n"
  }

  /**
   * How the processing step ends: nothing asks for processing (returns
   * True), the model call failed or the indices were bad (returns False), or
   * the document to write back.
   */
  datatype LocalOutcome = NothingToDo | LlmFailed | BadIndices | Write(content: string)

  /**
   * The selection, rewrite and splice for a document, the model's reply
   * (None when the call raised) and the timestamp.
   */
  function ProcessLocal(content: string, reply: Option<ServerProcess.Reply>, stamp: string): LocalOutcome
  {
    var envs := Scan(content, "user", 2);
    match FirstWhere(envs, ServerProcess.IsStart, 0)
    case None => NothingToDo
    case Some(i) =>
      if reply.None? then LlmFailed
      else
        var env := envs[i];
        var inner := LocalRewriteInner(env.inner, ServerProcess.StatusValue(stamp));
        if env.end > |content| || env.start >= env.end then BadIndices
        else Write(ServerProcess.Splice(content, env.start, env.end, LocalUserBlock(inner) + LocalNewBlocks(reply.value)))
  }

  /**
   * Nothing is done (and True returned) exactly when no `user` block asks for
   * processing; a failed model call is the only other early stop, since the
   * index guard never fires.
   */
  lemma LocalOutcomes(content: string, reply: Option<ServerProcess.Reply>, stamp: string)
    ensures ProcessLocal(content, reply, stamp).NothingToDo? <==>
              forall i :: 0 <= i < |Scan(content, "user", 2)| ==> !ServerProcess.IsStart(Scan(content, "user", 2)[i])
    ensures ProcessLocal(content, reply, stamp).LlmFailed? <==>
              reply.None? && exists i :: 0 <= i < |Scan(content, "user", 2)| && ServerProcess.IsStart(Scan(content, "user", 2)[i])
    ensures !ProcessLocal(content, reply, stamp).BadIndices?
  {
    var envs := Scan(content, "user", 2);
    FirstWhereIsFirst(envs, ServerProcess.IsStart, 0);
    ScanWellFormed(content, "user", 2);
    var r := FirstWhere(envs, ServerProcess.IsStart, 0);
    if r.Some? {
      assert WellFormed(content, "user", envs[r.value]);
    }
  }

  /**
   * With the `i`-th block the first to ask for processing and a reply in
   * hand, the document written back is the text before the block, the
   * rebuilt block, the new blocks and the text after the block.
   */
  lemma LocalIsSplice(content: string, reply: ServerProcess.Reply, stamp: string, i: nat)
    requires i < |Scan(content, "user", 2)| && ServerProcess.IsStart(Scan(content, "user", 2)[i])
    requires forall j :: 0 <= j < i ==> !ServerProcess.IsStart(Scan(content, "user", 2)[j])
    ensures var env := Scan(content, "user", 2)[i];
            var block := LocalUserBlock(LocalRewriteInner(env.inner, ServerProcess.StatusValue(stamp))) + LocalNewBlocks(reply);
            env.start < env.end <= |content| &&
            ProcessLocal(content, Some(reply), stamp) == Write(ServerProcess.Splice(content, env.start, env.end, block))
  {
    var envs := Scan(content, "user", 2);
    FirstWhereSkips(envs, ServerProcess.IsStart, 0, i);
    assert FirstWhere(envs, ServerProcess.IsStart, i) == Some(i);
    ScanWellFormed(content, "user", 2);
    assert WellFormed(content, "user", envs[i]);
  }

  /** Text without a backslash gives the counted substitution nothing to replace. */
  lemma {:induction false} SubnNeedsBackslash(s: string, newStatus: string, p: nat)
    requires p <= |s| && '\\' !in s
    ensures SubnStatus(s, newStatus, p).1 == 0
    decreases |s| - p
  {
    if p < |s| {
      assert ServerProcess.StatusPartEnd(s, p) == -1;
      SubnNeedsBackslash(s, newStatus, p + 1);
    }
  }

  /** The emitted blocks against the server's tags: one extra backslash in front of each tag. */
  lemma LocalUserBlockTags(inner: string)
    ensures LocalUserBlock(inner) == "\\" + BeginTag("user") + inner + "\\" + EndTag("user")
  {
  }

  /**
   * The blocks' template adds no line break of its own (a backslash and `n`
   * stand where newlines were meant), so the new blocks hold the four
   * newlines that separate them plus exactly those of the reply's
   * reasoning, title and answer (the server's template adds eight).
   */
  lemma BlockNewlines(reply: ServerProcess.Reply)
    ensures multiset(ReasoningBlock(reply))['\n'] == multiset(reply.reasoning)['\n']
    ensures multiset(AnswerBlock(reply))['\n'] == multiset(reply.title)['\n'] + multiset(reply.answer)['\n']
    ensures multiset(LocalNewBlocks(reply))['\n']
            == 4 + multiset(reply.reasoning)['\n'] + multiset(reply.title)['\n'] + multiset(reply.answer)['\n']
  {
    ReasoningBlockNewlines(reply.reasoning, ReasoningBlock(reply));
    AnswerBlockNewlines(reply.title, reply.answer, AnswerBlock(reply));
    var rb, ab := ReasoningBlock(reply), AnswerBlock(reply);
    assert LocalNewBlocks(reply) == "\n" + rb + "\n\n" + ab + "\n";
  }

  lemma ReasoningBlockNewlines(reasoning: string, rb: string)
    requires rb == "\\\\begin{reasoning}\\n" + reasoning + "\\n\\\\end{reasoning}"
    ensures multiset(rb)['\n'] == multiset(reasoning)['\n']
  {
    var r0: string, r1: string := "\\\\begin{reasoning}\\n", "\\n\\\\end{reasoning}";
    assert forall i :: 0 <= i < |r0| ==> r0[i] != '\n';
    assert forall i :: 0 <= i < |r1| ==> r1[i] != '\n';
    WrappedCount(r0, reasoning, r1, '\n');
  }

  /** Wrapping `x` in two pieces free of `c` adds no `c`. */
  lemma WrappedCount(p: string, x: string, q: string, c: char)
    requires c !in p && c !in q
    ensures multiset(p + x + q)[c] == multiset(x)[c]
  {
    assert multiset(p)[c] == 0 && multiset(q)[c] == 0;
  }

  lemma AnswerBlockNewlines(title: string, answer: string, ab: string)
    requires ab == "\\\\begin{answer}[" + title + "]\\n" + answer + "\\n\\\\end{answer}"
    ensures multiset(ab)['\n'] == multiset(title)['\n'] + multiset(answer)['\n']
  {
    var a0: string, a1: string, a2: string := "\\\\begin{answer}[", "]\\n", "\\n\\\\end{answer}";
    assert forall i :: 0 <= i < |a0| ==> a0[i] != '\n';
    assert forall i :: 0 <= i < |a1| ==> a1[i] != '\n';
    assert forall i :: 0 <= i < |a2| ==> a2[i] != '\n';
    assert '\n' !in a0 && '\n' !in a1 && '\n' !in a2;
  }

  /** A blank line holds no marker, so the first fallback leaves it alone. */
  lemma BlankHasNoMarker(line: string)
    requires AllSpace(line)
    ensures MarkerIndex(line) == -1
  {
    var p := MarkerIndex(line);
    MarkerIndexSpec(line);
    assert p >= 0 ==> CharEqIgnoringCase(line[p], PromptParams.Marker[0]);
  }

  /** The first marker of a line starts and ends among its non-blank characters. */
  lemma MarkerSpan(line: string)
    requires MarkerIndex(line) >= 0
    ensures var p := MarkerIndex(line);
            SkipSpace(line, 0) <= p && p + |PromptParams.Marker| <= SkipSpaceBack(line, |line|)
  {
    var p := MarkerIndex(line);
    MarkerIndexSpec(line);
    assert CharEqIgnoringCase(line[p], PromptParams.Marker[0]);
    assert CharEqIgnoringCase(line[p + 11], PromptParams.Marker[11]);
  }

  /** In a parameter line the first marker, in any case, is the one the line starts with. */
  lemma MarkerAtLineStart(line: string)
    requires PromptParams.IsParamLine(line)
    ensures MarkerIndex(line) == SkipSpace(line, 0)
  {
    PromptParams.ParamLineParts(line);
    var a := SkipSpace(line, 0);
    MarkerOccurs(line, a);
    MarkerIndexSpec(line);
    MarkerStartsWithText(line, MarkerIndex(line));
  }

  /** A marker found ignoring case starts with a non-blank. */
  lemma MarkerStartsWithText(line: string, r: nat)
    requires OccursAtIgnoringCase(line, PromptParams.Marker, r)
    ensures !IsSpace(line[r])
  {
    assert CharEqIgnoringCase(line[r], PromptParams.Marker[0]);
  }

  lemma MarkerOccurs(line: string, a: nat)
    requires a + |PromptParams.Marker| <= |line| && line[a..a + |PromptParams.Marker|] == PromptParams.Marker
    ensures OccursAtIgnoringCase(line, PromptParams.Marker, a)
  {
    var m := PromptParams.Marker;
    forall j | 0 <= j < |m|
      ensures CharEqIgnoringCase(line[a + j], m[j])
    {
      assert line[a..a + |m|][j] == line[a + j];
    }
  }

  /**
   * Text ending in a non-blank, put after a line with a marker, neither makes
   * nor unmakes a parameter line.
   */
  lemma MarkedLineKept(line: string, y: string)
    requires MarkerIndex(line) >= 0 && y != [] && !IsSpace(y[|y| - 1])
    ensures PromptParams.IsParamLine(line + y) <==> PromptParams.IsParamLine(line)
  {
    var m := PromptParams.Marker;
    MarkerSpan(line);
    var a, b := SkipSpace(line, 0), SkipSpaceBack(line, |line|);
    StripSlice(line);
    StripAppended(line, y);
    StartsWithAt(line, a, b, m);
    StartsWithAt(line + y, a, |line + y|, m);
    PrefixOfAppend(line, y, a, a + |m|);
  }

  /** The pair ` status=<new>` sits on one line, holds no comma and ends in a non-blank. */
  lemma CommaTextShape(newStatus: string)
    requires PromptParams.IsToken(newStatus)
    ensures var c := CommaText(newStatus);
            ',' !in c && SingleLine(c) && !IsSpace(c[|c| - 1])
  {
    StatusKey();
    SpacedPair("status", newStatus);
  }

  /** The pair ` status=<new>` is read back as (status, new). */
  lemma CommaTextItem(newStatus: string)
    requires PromptParams.IsToken(newStatus)
    ensures PromptParams.ParseItem(CommaText(newStatus)) == Some(("status", newStatus))
  {
    StatusKey();
    PromptParams.PairItem(" ", "status", newStatus);
  }

  /** `status` is a key a pair can carry. */
  lemma StatusKey()
    ensures PromptParams.IsToken("status") && '=' !in "status"
  {
  }

  /** A blank and `key=value`: no comma, one line, and the value's last character at the end. */
  lemma SpacedPair(key: string, value: string)
    requires PromptParams.IsToken(key) && PromptParams.IsToken(value)
    ensures var c := " " + PromptParams.Pair(key, value);
            ',' !in c && SingleLine(c) && !IsSpace(c[|c| - 1])
  {
    var c := " " + PromptParams.Pair(key, value);
    assert c[|c| - 1] == value[|value| - 1];
    forall i | 0 <= i < |c|
      ensures c[i] != ',' && !IsLineBreak(c[i])
    {
      if 1 <= i < 1 + |key| {
        assert c[i] == key[i - 1];
      } else if i > 1 + |key| {
        assert c[i] == value[i - 2 - |key|];
      }
    }
  }

  /** With blanks in front, ` status=<new>` is still read back as (status, new). */
  lemma BlankCommaText(w: string, newStatus: string)
    requires AllSpace(w) && PromptParams.IsToken(newStatus)
    ensures PromptParams.ParseItem(w + CommaText(newStatus)) == Some(("status", newStatus))
  {
    StatusKey();
    BlankPair(w, "status", newStatus);
  }

  /** Blanks, a blank and `key=value` read back as (key, value). */
  lemma BlankPair(w: string, key: string, value: string)
    requires AllSpace(w) && PromptParams.IsToken(key) && '=' !in key && PromptParams.IsToken(value)
    ensures PromptParams.ParseItem(w + (" " + PromptParams.Pair(key, value))) == Some((key, value))
  {
    PromptParams.PairItem(w + " ", key, value);
    Regroup(w, " ", PromptParams.Pair(key, value));
  }

  /** `, status=<new>` starts with a comma, ends in a non-blank and sits on one line. */
  lemma AppendedTextFacts(newStatus: string)
    requires PromptParams.IsToken(newStatus)
    ensures var y := AppendedText(newStatus);
            y[0] == ',' && !IsSpace(y[|y| - 1]) && SingleLine(y) && y[|y| - 1] != ','
  {
    CommaTextShape(newStatus);
    CommaFirst(CommaText(newStatus));
  }

  /** A comma in front of a non-empty one-line text. */
  lemma CommaFirst(c: string)
    requires c != [] && SingleLine(c)
    ensures var y := [','] + c;
            y[0] == ',' && y[|y| - 1] == c[|c| - 1] && SingleLine(y)
  {
    var y := [','] + c;
    assert forall i :: 0 <= i < |c| ==> y[i + 1] == c[i];
  }

  /** A parameter text, blanks and `, status=<new>`: the items of the text with the status set. */
  lemma ItemsWithStatus(q: string, w: string, newStatus: string, t: string)
    requires AllSpace(w) && PromptParams.IsToken(newStatus)
    requires t == q + w + [','] + CommaText(newStatus)
    ensures PromptParams.ParseItems(Split(t, ',')) == PromptParams.ParseItems(Split(q, ','))["status" := newStatus]
  {
    CommaTextShape(newStatus);
    CommaTextItem(newStatus);
    PromptParams.ItemsAfterComma(q, w, CommaText(newStatus), Split(t, ','));
    PromptParams.CollectSnoc(PromptParams.ParsedItems(Split(q, ',')), Some(("status", newStatus)));
  }

  /** A parameter line with `, status=<new>` appended: still a parameter line, with the status set. */
  lemma AppendedItems(line: string, newStatus: string)
    requires PromptParams.IsParamLine(line) && PromptParams.IsToken(newStatus)
    ensures PromptParams.IsParamLine(line + AppendedText(newStatus))
    ensures PromptParams.LineItems(line + AppendedText(newStatus)) == PromptParams.LineItems(line)["status" := newStatus]
  {
    var y := AppendedText(newStatus);
    AppendedTextFacts(newStatus);
    var w := PromptParams.ParamTextOfAppended(line, y);
    var q := PromptParams.ParamText(Strip(line));
    Regroup(q + w, [','], CommaText(newStatus));
    ItemsWithStatus(q, w, newStatus, PromptParams.ParamText(Strip(line + y)));
  }

  /** A parameter text ending in a comma, blanks and ` status=<new>`: the items of the text with the status set. */
  lemma TrailingCommaItems(q: string, w: string, newStatus: string, t: string)
    requires q != [] && q[|q| - 1] == ',' && AllSpace(w) && PromptParams.IsToken(newStatus)
    requires t == q + w + CommaText(newStatus)
    ensures PromptParams.ParseItems(Split(t, ',')) == PromptParams.ParseItems(Split(q, ','))["status" := newStatus]
  {
    var q0 := q[..|q| - 1];
    SnocLast(q);
    assert q == q0 + [','];
    StatusAfterComma(q0, w, newStatus, t);
    EmptyAfterComma(q0, q);
  }

  lemma StatusAfterComma(q0: string, w: string, newStatus: string, t: string)
    requires AllSpace(w) && PromptParams.IsToken(newStatus)
    requires t == q0 + [','] + w + CommaText(newStatus)
    ensures PromptParams.ParseItems(Split(t, ',')) == PromptParams.ParseItems(Split(q0, ','))["status" := newStatus]
  {
    var u := w + CommaText(newStatus);
    CommaTextShape(newStatus);
    BlankCommaText(w, newStatus);
    Regroup(q0 + [','], w, CommaText(newStatus));
    PromptParams.ItemsAfterTrailingComma(q0, u, t);
    PromptParams.CollectSnoc(PromptParams.ParsedItems(Split(q0, ',')), Some(("status", newStatus)));
  }

  lemma EmptyAfterComma(q0: string, q: string)
    requires q == q0 + [',']
    ensures PromptParams.ParseItems(Split(q, ',')) == PromptParams.ParseItems(Split(q0, ','))
  {
    assert q == q0 + [','] + [];
    PromptParams.ItemsAfterTrailingComma(q0, [], q);
    PromptParams.CollectSnoc(PromptParams.ParsedItems(Split(q0, ',')), None);
  }

  /** The text of a parameter line lies between its marker and its trailing blanks. */
  lemma ParamTextBetween(line: string, a: nat, k: nat)
    requires PromptParams.IsParamLine(line) && a == SkipSpace(line, 0) && k == SkipSpaceBack(line, |line|)
    ensures a + |PromptParams.Marker| <= k <= |line| && PromptParams.ParamText(Strip(line)) == Strip(line[a + |PromptParams.Marker|..k])
  {
    PromptParams.ParamLineParts(line);
  }

  /** The same, from the second fallback's own test. */
  lemma CommaLineEndsInComma(line: string) returns (q: string)
    requires PromptParams.IsParamLine(line) && EndsInComma(line)
    ensures q == PromptParams.ParamText(Strip(line)) && q != [] && q[|q| - 1] == ','
  {
    var c, k := CommaBounds(line);
    StrippedEndsWith(line, c, k, ',');
    q := Strip(line[c..k]);
  }

  /** Where the text of such a line starts and where its trailing comma is. */
  lemma CommaBounds(line: string) returns (c: nat, k: nat)
    requires PromptParams.IsParamLine(line) && EndsInComma(line)
    ensures c < k <= |line| && line[k - 1] == ','
    ensures PromptParams.ParamText(Strip(line)) == Strip(line[c..k])
  {
    var a := SkipSpace(line, 0);
    k := SkipSpaceBack(line, |line|);
    MarkerAtLineStart(line);
    CommaAfterMarker(line, a, k);
    ParamTextBetween(line, a, k);
    c := a + |PromptParams.Marker|;
  }

  /** In a line that ends in a comma after its first marker, that comma comes after the whole marker. */
  lemma CommaAfterMarker(line: string, p: nat, k: nat)
    requires p == MarkerIndex(line) && k == SkipSpaceBack(line, |line|) && EndsInComma(line)
    ensures p + |PromptParams.Marker| < k <= |line| && line[k - 1] == ','
  {
  }

  /** A slice ending in a non-blank `ch` keeps it as its last character when stripped. */
  lemma StrippedEndsWith(line: string, c: nat, k: nat, ch: char)
    requires c < k <= |line| && line[k - 1] == ch && !IsSpace(ch)
    ensures Strip(line[c..k]) != [] && Strip(line[c..k])[|Strip(line[c..k])| - 1] == ch
  {
    var r := line[c..k];
    assert r[|r| - 1] == line[k - 1];
    StripKeepsLast(r);
  }

  /**
   * The second fallback on a parameter line: still a parameter line, whose
   * text is the old one, some blanks and ` status=<new>`.
   */
  lemma CommaLineText(line: string, newStatus: string) returns (w: string)
    requires PromptParams.IsParamLine(line) && EndsInComma(line) && PromptParams.IsToken(newStatus)
    ensures AllSpace(w) && PromptParams.IsParamLine(CommaLine(line, newStatus))
    ensures PromptParams.ParamText(Strip(CommaLine(line, newStatus))) == PromptParams.ParamText(Strip(line)) + w + CommaText(newStatus)
  {
    var trimmed := line[..SkipSpaceBack(line, |line|)];
    StripOfRStrip(line);
    var q := CommaLineEndsInComma(line);
    CommaTextShape(newStatus);
    w := PromptParams.ParamTextOfAppended(trimmed, CommaText(newStatus));
  }

  /** The second fallback on a parameter line sets its status and keeps its other items. */
  lemma CommaItems(line: string, newStatus: string)
    requires PromptParams.IsParamLine(line) && EndsInComma(line) && PromptParams.IsToken(newStatus)
    ensures PromptParams.IsParamLine(CommaLine(line, newStatus))
    ensures PromptParams.LineItems(CommaLine(line, newStatus)) == PromptParams.LineItems(line)["status" := newStatus]
  {
    var q, w, t := CommaParts(line, newStatus);
    TrailingCommaItems(q, w, newStatus, t);
    StatusSetInLine(line, CommaLine(line, newStatus), newStatus, q, t);
  }

  /** The texts of the line before and after the second fallback, and the blanks between the old text and the status. */
  lemma CommaParts(line: string, newStatus: string) returns (q: string, w: string, t: string)
    requires PromptParams.IsParamLine(line) && EndsInComma(line) && PromptParams.IsToken(newStatus)
    ensures PromptParams.IsParamLine(CommaLine(line, newStatus))
    ensures q == PromptParams.ParamText(Strip(line)) && t == PromptParams.ParamText(Strip(CommaLine(line, newStatus)))
    ensures q != [] && q[|q| - 1] == ',' && AllSpace(w) && t == q + w + CommaText(newStatus)
  {
    w := CommaLineText(line, newStatus);
    q := CommaLineEndsInComma(line);
    t := PromptParams.ParamText(Strip(CommaLine(line, newStatus)));
  }

  /** Two lines whose texts' items differ by the status differ so in their items. */
  lemma StatusSetInLine(line: string, line': string, newStatus: string, q: string, t: string)
    requires q == PromptParams.ParamText(Strip(line)) && t == PromptParams.ParamText(Strip(line'))
    requires PromptParams.ParseItems(Split(t, ',')) == PromptParams.ParseItems(Split(q, ','))["status" := newStatus]
    ensures PromptParams.LineItems(line') == PromptParams.LineItems(line)["status" := newStatus]
  {
  }

  /** A blank line is no parameter line. */
  lemma BlankNotParamLine(line: string)
    requires AllSpace(line)
    ensures !PromptParams.IsParamLine(line)
  {
    assert SkipSpace(line, 0) == |line|;
  }

  /** Dropping blank lines in front changes neither the parameters nor whether there are any. */
  lemma {:induction false} DropBlankParams(lines: seq<string>)
    ensures PromptParams.LineParams(DropBlank(lines)) == PromptParams.LineParams(lines)
    ensures PromptParams.HasParamLine(DropBlank(lines)) <==> PromptParams.HasParamLine(lines)
    decreases |lines|
  {
    if lines != [] && AllSpace(lines[0]) {
      BlankNotParamLine(lines[0]);
      PromptParams.LineParamsCons(lines);
      DropBlankParams(lines[1..]);
    }
  }

  /** The first fallback leaves blank lines blank and other lines non-blank. */
  lemma AppendKeepsBlankness(line: string, newStatus: string)
    ensures AllSpace(AppendLine(line, newStatus)) <==> AllSpace(line)
  {
    if AllSpace(line) {
      BlankHasNoMarker(line);
    } else {
      var i :| 0 <= i < |line| && !IsSpace(line[i]);
      assert AppendLine(line, newStatus)[i] == line[i];
    }
  }

  /** Dropping blank lines before or after the first fallback comes to the same. */
  lemma {:induction false} DropBlankAppend(lines: seq<string>, newStatus: string)
    ensures DropBlank(AppendLines(lines, newStatus)) == AppendLines(DropBlank(lines), newStatus)
    decreases |lines|
  {
    if lines != [] {
      AppendKeepsBlankness(lines[0], newStatus);
      if AllSpace(lines[0]) {
        BlankHasNoMarker(lines[0]);
        DropBlankAppend(lines[1..], newStatus);
      }
    }
  }

  /** A line ending in `, status=<new>` gives the second fallback nothing to do. */
  lemma AppendedNotComma(line: string, newStatus: string)
    requires PromptParams.IsToken(newStatus)
    ensures !EndsInComma(line + AppendedText(newStatus))
  {
    var y := AppendedText(newStatus);
    AppendedTextFacts(newStatus);
    LastOfAppend(line, y);
  }

  /** The last character of `l + y` is that of `y`. */
  lemma LastOfAppend(l: string, y: string)
    requires y != [] && !IsSpace(y[|y| - 1])
    ensures var s := l + y;
            SkipSpaceBack(s, |s|) == |s| && s[|s| - 1] == y[|y| - 1]
  {
  }

  /** A line with a marker whose very last character is a comma ends in a comma after the marker. */
  lemma LastCommaEndsInComma(line: string)
    requires MarkerIndex(line) >= 0 && line[|line| - 1] == ','
    ensures EndsInComma(line) && SkipSpaceBack(line, |line|) == |line|
  {
    var p := MarkerIndex(line);
    MarkerIndexSpec(line);
    assert CharEqIgnoringCase(line[p + 11], PromptParams.Marker[11]);
  }

  /** Parameter lines have a marker index. */
  lemma ParamLineMarked(line: string)
    ensures PromptParams.IsParamLine(line) ==> MarkerIndex(line) >= 0
  {
    if PromptParams.IsParamLine(line) {
      MarkerAtLineStart(line);
    }
  }

  /**
   * What both fallbacks make of the first of some lines: one line `head`,
   * a parameter line exactly when the first line was, carrying its items
   * with the status set, followed by what they make of the lines `rest`,
   * which carry the same parameters as the lines after the first.
   */
  predicate IsStep(lines: seq<string>, newStatus: string, head: string, rest: seq<string>)
    requires lines != []
  {
    CommaLines(AppendLines(lines, newStatus), newStatus) == [head] + CommaLines(AppendLines(rest, newStatus), newStatus) &&
    |rest| < |lines| &&
    (PromptParams.IsParamLine(head) <==> PromptParams.IsParamLine(lines[0])) &&
    (PromptParams.IsParamLine(lines[0]) ==> PromptParams.LineItems(head) == PromptParams.LineItems(lines[0])["status" := newStatus]) &&
    PromptParams.LineParams(rest) == PromptParams.LineParams(lines[1..]) &&
    (PromptParams.HasParamLine(rest) <==> PromptParams.HasParamLine(lines[1..]))
  }

  /** A first line without a marker passes both fallbacks unchanged. */
  lemma StepUnmarked(lines: seq<string>, newStatus: string)
    requires lines != [] && MarkerIndex(lines[0]) < 0
    ensures IsStep(lines, newStatus, lines[0], lines[1..])
  {
    ParamLineMarked(lines[0]);
  }

  /** A first line with a marker and no final comma gets `, status=<new>` from the first fallback. */
  lemma StepAppended(lines: seq<string>, newStatus: string)
    requires lines != [] && PromptParams.IsToken(newStatus)
    requires MarkerIndex(lines[0]) >= 0 && lines[0][|lines[0]| - 1] != ','
    ensures IsStep(lines, newStatus, lines[0] + AppendedText(newStatus), lines[1..])
  {
    var line := lines[0];
    AppendedNotComma(line, newStatus);
    AppendedTextFacts(newStatus);
    MarkedLineKept(line, AppendedText(newStatus));
    if PromptParams.IsParamLine(line) {
      AppendedItems(line, newStatus);
    }
  }

  /** A first line with a marker and a final comma gets ` status=<new>` from the second, which takes the blank lines after it. */
  lemma StepComma(lines: seq<string>, newStatus: string)
    requires lines != [] && PromptParams.IsToken(newStatus)
    requires MarkerIndex(lines[0]) >= 0 && lines[0][|lines[0]| - 1] == ','
    ensures EndsInComma(lines[0])
    ensures IsStep(lines, newStatus, CommaLine(lines[0], newStatus), DropBlank(lines[1..]))
  {
    var line := lines[0];
    LastCommaEndsInComma(line);
    DropBlankAppend(lines[1..], newStatus);
    DropBlankParams(lines[1..]);
    CommaTextShape(newStatus);
    assert line[..|line|] == line;
    MarkedLineKept(line, CommaText(newStatus));
    if PromptParams.IsParamLine(line) {
      CommaItems(line, newStatus);
    }
  }

  /** Every non-empty list of lines takes one of the three steps. */
  lemma FallbackStep(lines: seq<string>, newStatus: string) returns (head: string, rest: seq<string>)
    requires lines != [] && PromptParams.IsToken(newStatus)
    ensures IsStep(lines, newStatus, head, rest)
  {
    var line := lines[0];
    if MarkerIndex(line) < 0 {
      StepUnmarked(lines, newStatus);
      head, rest := line, lines[1..];
    } else if line[|line| - 1] != ',' {
      StepAppended(lines, newStatus);
      head, rest := line + AppendedText(newStatus), lines[1..];
    } else {
      StepComma(lines, newStatus);
      head, rest := CommaLine(line, newStatus), DropBlank(lines[1..]);
    }
  }

  /**
   * Both fallbacks over a list of lines: the first parameter line keeps its
   * items and gains the new status, no parameter line appears or vanishes,
   * and lines without parameters stay without.
   */
  lemma {:induction false} FallbackLineParams(lines: seq<string>, newStatus: string)
    requires PromptParams.IsToken(newStatus)
    ensures var out := CommaLines(AppendLines(lines, newStatus), newStatus);
            PromptParams.LineParams(out) ==
              (if PromptParams.HasParamLine(lines) then PromptParams.LineParams(lines)["status" := newStatus] else map[]) &&
            (PromptParams.HasParamLine(out) <==> PromptParams.HasParamLine(lines))
    decreases |lines|
  {
    if lines == [] {
      PromptParams.NoParamLines([]);
    } else {
      var head, rest := FallbackStep(lines, newStatus);
      FallbackLineParams(rest, newStatus);
      var out := CommaLines(AppendLines(lines, newStatus), newStatus);
      assert out[0] == head && out[1..] == CommaLines(AppendLines(rest, newStatus), newStatus);
      PromptParams.LineParamsCons(out);
      PromptParams.LineParamsCons(lines);
    }
  }

  /** Two single lines, one after the other, make a single line. */
  lemma SingleConcat(a: string, b: string)
    requires SingleLine(a) && SingleLine(b)
    ensures SingleLine(a + b)
  {
    assert forall i :: |a| <= i < |a + b| ==> (a + b)[i] == b[i - |a|];
  }

  /** Neither fallback puts a line break into a line. */
  lemma FallbackLineSingle(line: string, newStatus: string)
    requires SingleLine(line) && PromptParams.IsToken(newStatus)
    ensures SingleLine(AppendLine(line, newStatus))
    ensures EndsInComma(line) ==> SingleLine(CommaLine(line, newStatus))
  {
    AppendedTextFacts(newStatus);
    CommaTextShape(newStatus);
    if MarkerIndex(line) >= 0 && line[|line| - 1] != ',' {
      SingleConcat(line, AppendedText(newStatus));
    }
    if EndsInComma(line) {
      var k := SkipSpaceBack(line, |line|);
      assert SingleLine(line[..k]);
      SingleConcat(line[..k], CommaText(newStatus));
    }
  }

  lemma {:induction false} AppendLinesSingle(lines: seq<string>, newStatus: string)
    requires forall i :: 0 <= i < |lines| ==> SingleLine(lines[i])
    requires PromptParams.IsToken(newStatus)
    ensures forall i :: 0 <= i < |lines| ==> SingleLine(AppendLines(lines, newStatus)[i])
    decreases |lines|
  {
    if lines != [] {
      FallbackLineSingle(lines[0], newStatus);
      AppendLinesSingle(lines[1..], newStatus);
      var r := AppendLines(lines, newStatus);
      assert forall i :: 1 <= i < |lines| ==> r[i] == AppendLines(lines[1..], newStatus)[i - 1];
    }
  }

  /** The second fallback keeps a non-empty list of single lines non-empty and single. */
  lemma {:induction false} CommaLinesSingle(lines: seq<string>, newStatus: string)
    requires forall i :: 0 <= i < |lines| ==> SingleLine(lines[i])
    requires PromptParams.IsToken(newStatus)
    ensures var r := CommaLines(lines, newStatus);
            (lines != [] ==> r != []) && forall i :: 0 <= i < |r| ==> SingleLine(r[i])
    decreases |lines|
  {
    if lines != [] {
      FallbackLineSingle(lines[0], newStatus);
      var head := if EndsInComma(lines[0]) then CommaLine(lines[0], newStatus) else lines[0];
      var rest := if EndsInComma(lines[0]) then DropBlank(lines[1..]) else lines[1..];
      SuffixSingle(lines, rest);
      CommaLinesSingle(rest, newStatus);
      ConsSingle(head, CommaLines(rest, newStatus));
    }
  }

  lemma SuffixSingle(lines: seq<string>, rest: seq<string>)
    requires forall i :: 0 <= i < |lines| ==> SingleLine(lines[i])
    requires |rest| < |lines| && rest == lines[|lines| - |rest|..]
    ensures forall i :: 0 <= i < |rest| ==> SingleLine(rest[i])
  {
    assert forall i :: 0 <= i < |rest| ==> rest[i] == lines[|lines| - |rest| + i];
  }

  lemma ConsSingle(head: string, rest: seq<string>)
    requires SingleLine(head) && forall i :: 0 <= i < |rest| ==> SingleLine(rest[i])
    ensures forall i :: 0 <= i < |[head] + rest| ==> SingleLine(([head] + rest)[i])
  {
  }

  /** Single lines contain no newline. */
  lemma NoNewlineInLines(lines: seq<string>)
    requires forall i :: 0 <= i < |lines| ==> SingleLine(lines[i])
    ensures forall i :: 0 <= i < |lines| ==> '\n' !in lines[i]
  {
    assert IsLineBreak('\n');
  }

  /** Joining single lines at newlines and cutting them again gives the lines back. */
  lemma RejoinLines(lines: seq<string>)
    requires lines != [] && forall i :: 0 <= i < |lines| ==> SingleLine(lines[i])
    ensures Split(Join("\n", lines), '\n') == lines
    ensures NewlinesOnly(Join("\n", lines))
  {
    NoNewlineInLines(lines);
    SplitJoin(lines, '\n');
    JoinNewlinesOnly(lines);
  }

  /**
   * For text whose only breaks are newlines, reading the parameters back
   * after both fallbacks: the parameter line that was read before is read
   * again, with the status set to the new value; text without a parameter
   * line gains none.
   */
  lemma FallbackParams(s: string, newStatus: string)
    requires NewlinesOnly(s) && PromptParams.IsToken(newStatus)
    ensures PromptParams.Params(Fallback(s, newStatus)) ==
              if PromptParams.HasParamLine(Split(s, '\n')) then PromptParams.Params(s)["status" := newStatus] else map[]
  {
    var lines := Split(s, '\n');
    SplitSingleLines(s);
    AppendLinesSingle(lines, newStatus);
    var a := AppendLines(lines, newStatus);
    RejoinLines(a);
    CommaLinesSingle(a, newStatus);
    var c := CommaLines(a, newStatus);
    RejoinLines(c);
    PromptParams.ParamsBySplit(s);
    PromptParams.ParamsBySplit(Join("\n", c));
    FallbackLineParams(lines, newStatus);
  }

  /**
   * A `%parameters:` block with no backslash and only newlines as breaks:
   * the counted substitution replaces nothing, the fallback runs, and
   * reading the parameters back gives those read before with the status set
   * to `completed_<timestamp>`, which no longer asks for processing; text
   * without a parameter line gains none.
   */
  lemma LocalReparse(inner: string, stamp: string)
    requires Contains(inner, PromptParams.Marker) && '\\' !in inner && NewlinesOnly(inner) && ServerProcess.IsStamp(stamp)
    ensures var newStatus := ServerProcess.StatusValue(stamp);
            var params := PromptParams.Params(LocalRewriteInner(inner, newStatus));
            params == (if PromptParams.HasParamLine(Split(inner, '\n')) then PromptParams.Params(inner)["status" := newStatus] else map[]) &&
            (PromptParams.HasParamLine(Split(inner, '\n')) ==> AsciiLower(Strip(ServerProcess.StatusOf(params))) != "start")
  {
    var newStatus := ServerProcess.StatusValue(stamp);
    SubnNeedsBackslash(inner, newStatus, 0);
    assert inner[0..] == inner;
    ServerProcess.StatusValueIsToken(stamp);
    FallbackParams(inner, newStatus);
    ServerProcess.StrippedValue(stamp);
  }

  /**
   * A block without `%parameters:` is rewritten as the server rewrites it: a
   * fresh parameter line whose only parameter is the new status, which no
   * longer asks for processing.
   */
  lemma LocalFreshParameterLine(inner: string, stamp: string)
    requires !Contains(inner, PromptParams.Marker) && ServerProcess.IsStamp(stamp)
    ensures var newStatus := ServerProcess.StatusValue(stamp);
            LocalRewriteInner(inner, newStatus) == ServerProcess.RewriteInner(inner, newStatus) &&
            PromptParams.Params(LocalRewriteInner(inner, newStatus)) == map["status" := newStatus]
    ensures AsciiLower(Strip(ServerProcess.StatusOf(PromptParams.Params(LocalRewriteInner(inner, ServerProcess.StatusValue(stamp)))))) != "start"
  {
    ServerProcess.FreshParameterLine(inner, stamp);
  }

  /**
   * Where the line-wise fallback and `splitlines` disagree: a form feed after
   * `%parameters: status=start` is no newline, so the first fallback puts
   * `, status=<new>` after it, but the parser breaks the line at the form
   * feed and still reads `status=start`, so the block asks for processing
   * again.
   */
  lemma FormFeedKeepsStart(newStatus: string)
    requires PromptParams.IsToken(newStatus)
    ensures var inner := PromptParams.ParamLine("status", "start") + "\U{000C}";
            Contains(inner, PromptParams.Marker) &&
            LocalRewriteInner(inner, newStatus) == inner + AppendedText(newStatus) &&
            PromptParams.Params(LocalRewriteInner(inner, newStatus)) == map["status" := "start"]
  {
    var line := PromptParams.ParamLine("status", "start");
    StartLine();
    FormFeedKeepsParams(line, newStatus);
    StartLineItems(line);
  }

  /** The items of `%parameters: status=start`. */
  lemma StartLineItems(line: string)
    requires line == PromptParams.ParamLine("status", "start")
    ensures PromptParams.LineItems(line) == map["status" := "start"]
  {
    StartLine();
    PromptParams.ParamsOfOneLine("status", "start");
    ParamsBeforeBreak(line, '\n', "");
    assert line + "\n" == line + ['\n'] + "";
  }

  /** A parameter line without backslash, followed by a form feed, reads back with its own parameters after the rewrite. */
  lemma FormFeedKeepsParams(line: string, newStatus: string)
    requires PromptParams.IsParamLine(line) && SingleLine(line) && '\\' !in line
    requires PromptParams.IsToken(newStatus)
    ensures var inner := line + "\U{000C}";
            Contains(inner, PromptParams.Marker) &&
            LocalRewriteInner(inner, newStatus) == inner + AppendedText(newStatus) &&
            PromptParams.Params(LocalRewriteInner(inner, newStatus)) == PromptParams.LineItems(line)
  {
    FormFeedFallback(line, newStatus);
    ParamsBeforeBreak(line, '\U{000C}', AppendedText(newStatus));
    assert line + "\U{000C}" + AppendedText(newStatus) == line + ['\U{000C}'] + AppendedText(newStatus);
  }

  /** `%parameters: status=start` as a line. */
  lemma StartLine()
    ensures var line := PromptParams.ParamLine("status", "start");
            PromptParams.IsParamLine(line) && SingleLine(line) && '\\' !in line &&
            PromptParams.IsToken("status") && '=' !in "status" && PromptParams.IsToken("start")
  {
    StartLineText();
    StartLineParts("status=start");
    StatusKey();
    StartToken();
  }

  lemma StartLineText()
    ensures PromptParams.ParamLine("status", "start") == PromptParams.Marker + " " + "status=start"
  {
  }

  lemma StartLineParts(item: string)
    requires item == "status=start"
    ensures var line := PromptParams.Marker + " " + item;
            PromptParams.IsParamLine(line) && SingleLine(line) && '\\' !in line
  {
    StartToken();
    assert PromptParams.IsToken(item);
    PromptParams.ParamLineOfItem(item);
    StartLineNoBackslash(item);
  }

  lemma StartLineNoBackslash(item: string)
    requires item == "status=start"
    ensures '\\' !in PromptParams.Marker + " " + item
  {
    NoBackslash(PromptParams.Marker);
    NoBackslash(item);
  }

  lemma NoBackslash(lit: string)
    requires forall i :: 0 <= i < |lit| ==> lit[i] != '\\'
    ensures '\\' !in lit
  {
  }

  lemma StartToken()
    ensures PromptParams.IsToken("start")
  {
  }

  /** A parameter line followed by any break but `\r` gives its own parameters, whatever comes after. */
  lemma ParamsBeforeBreak(line: string, c: char, rest: string)
    requires PromptParams.IsParamLine(line) && SingleLine(line) && IsLineBreak(c) && c != '\r'
    ensures PromptParams.Params(line + [c] + rest) == PromptParams.LineItems(line)
  {
    SplitLinesAtBreak(line, c, rest);
    PromptParams.LineParamsCons(SplitLines(line + [c] + rest));
  }

  /** The fallback on a parameter line without backslash followed by a form feed. */
  lemma FormFeedFallback(line: string, newStatus: string)
    requires PromptParams.IsParamLine(line) && SingleLine(line) && '\\' !in line
    requires PromptParams.IsToken(newStatus)
    ensures var inner := line + "\U{000C}";
            Contains(inner, PromptParams.Marker) && LocalRewriteInner(inner, newStatus) == inner + AppendedText(newStatus)
  {
    var inner := line + "\U{000C}";
    PromptParams.ParamLineHasMarker(line);
    assert inner[0..|line|] == line;
    ContainsFromSlice(inner, 0, |line|, PromptParams.Marker);
    ParamLineMarked(line);
    MarkerKeptByAppend(line, "\U{000C}");
    SubnNeedsBackslash(inner, newStatus, 0);
    assert inner[0..] == inner;
    assert IsLineBreak('\n');
    assert '\n' !in inner;
    FallbackOfOneLine(inner, newStatus);
  }

  /** The fallback on one marked line not ending in a comma appends `, status=<new>` and does nothing more. */
  lemma FallbackOfOneLine(x: string, newStatus: string)
    requires '\n' !in x && MarkerIndex(x) >= 0 && x[|x| - 1] != ','
    requires PromptParams.IsToken(newStatus)
    ensures Fallback(x, newStatus) == x + AppendedText(newStatus)
  {
    var y := x + AppendedText(newStatus);
    NoSepSplit(x, '\n');
    assert AppendLines([x], newStatus) == [y];
    AppendedTextFacts(newStatus);
    assert IsLineBreak('\n');
    assert '\n' !in y;
    NoSepSplit(y, '\n');
    AppendedNotComma(x, newStatus);
    assert CommaLines([y], newStatus) == [y];
  }

  /** Text after a line keeps the line's marker found. */
  lemma MarkerKeptByAppend(line: string, y: string)
    requires MarkerIndex(line) >= 0
    ensures MarkerIndex(line + y) >= 0
  {
    var p := MarkerIndex(line);
    MarkerIndexSpec(line);
    MarkerIndexSpec(line + y);
    assert OccursAtIgnoringCase(line + y, PromptParams.Marker, p);
  }
}
