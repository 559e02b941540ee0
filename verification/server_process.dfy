/**
 * The heart of the server's `process_latex_with_ai`: pick the first `user`
 * block whose status is `start`, rewrite its status to
 * `completed_<timestamp>`, and splice the rewritten block and the model's
 * reasoning and answer blocks back into the document.
 *
 * The two status-rewrite patterns are written as raw strings with a doubled
 * backslash, so each asks for a literal backslash after '%' and inside
 * `status\s*=\s*start`; they are modelled as they read, case folding limited
 * to ASCII. The language model's reply and the timestamp are inputs.
 */
module ServerProcess {
  import opened Text
  import opened Environments
  import PromptParams

  /** A character the regex `s` matches under IGNORECASE. */
  predicate IsEss(c: char)
  {
    c == 's' || c == 'S'
  }

  /** Index after the run of `s` (either case) starting at `i`: the regex `s*` under IGNORECASE. */
  function SkipEssIgnoringCase(s: string, i: nat): (r: nat)
    requires i <= |s|
    decreases |s| - i
    ensures i <= r <= |s| && (r < |s| ==> !IsEss(s[r]))
  {
    if i < |s| && IsEss(s[i]) then SkipEssIgnoringCase(s, i + 1) else i
  }

  /**
   * The head `%\\s*parameters:` of both rewrite patterns tried at `p`: a '%',
   * a backslash, a run of `s`, then `parameters:` in any case. The index
   * after it, or -1.
   */
  function MarkerPrefixEnd(s: string, p: nat): (r: int)
    ensures r == -1 || p + 2 <= r <= |s|
    ensures r != -1 ==> p + 1 < |s| && s[p] == '%' && s[p + 1] == '\\'
  {
    if p + 1 < |s| && s[p] == '%' && s[p + 1] == '\\' then
      var q := SkipEssIgnoringCase(s, p + 2);
      if OccursAtIgnoringCase(s, "parameters:", q) then q + 11 else -1
    else -1
  }

  /**
   * The group `status\\s*=\\s*start` tried at `q` (IGNORECASE): `status`, a
   * backslash, a run of `s`, '=', a backslash, then a run of at least one `s`
   * followed by `tart` (the `s*` gives back the `s` that `start` needs). The
   * index after it, or -1.
   */
  function StatusPartEnd(s: string, q: nat): (r: int)
    ensures r == -1 || q + 6 < r <= |s|
  {
    if OccursAtIgnoringCase(s, "status", q) && q + 6 < |s| && s[q + 6] == '\\' then
      var e := SkipEssIgnoringCase(s, q + 7);
      if e + 1 < |s| && s[e] == '=' && s[e + 1] == '\\' then
        var f := SkipEssIgnoringCase(s, e + 2);
        if f > e + 2 && OccursAtIgnoringCase(s, "tart", f) then f + 4 else -1
      else -1
    else -1
  }

  /** Where the lazy `.*?` (DOTALL) stops: the first status group at or after `from`, or -1. */
  function FirstStatusPart(s: string, from: nat): (r: int)
    decreases |s| - from
    ensures r == -1 || (from <= r && StatusPartEnd(s, r) != -1)
  {
    if from >= |s| then -1
    else if StatusPartEnd(s, from) != -1 then from
    else FirstStatusPart(s, from + 1)
  }

  /**
   * The first substitution, `(%\\s*parameters:.*?)(status\\s*=\\s*start)(.*)`
   * replaced by `\1status=<new>\3` (IGNORECASE, DOTALL), applied to `s[p..]`.
   * The trailing `(.*)` runs to the end of the text, so at most one
   * replacement is made.
   */
  function StatusSub(s: string, newStatus: string, p: nat): string
    requires p <= |s|
    decreases |s| - p
  {
    if p == |s| then []
    else
      var c := MarkerPrefixEnd(s, p);
      var q := if c < 0 then -1 else FirstStatusPart(s, c);
      if q >= 0 then s[p..q] + "status=" + newStatus + s[StatusPartEnd(s, q)..]
      else [s[p]] + StatusSub(s, newStatus, p + 1)
  }

  /** Where `.*?$` stops under MULTILINE without DOTALL: the next newline at or after `c`, or the end. */
  function LineEnd(s: string, c: nat): (r: nat)
    requires c <= |s|
    ensures c <= r <= |s| && (r < |s| ==> s[r] == '\n')
  {
    var n := FindCharFrom(s, '\n', c);
    if n < 0 then |s| else n
  }

  /**
   * The fallback substitution, `(%\\s*parameters:.*?)$` replaced by
   * `\1, status=<new>` (MULTILINE, IGNORECASE), applied to `s[p..]`: every
   * match runs to the end of its line and gets the status appended.
   */
  function AppendStatus(s: string, newStatus: string, p: nat): string
    requires p <= |s|
    decreases |s| - p
  {
    if p == |s| then []
    else
      var c := MarkerPrefixEnd(s, p);
      if c >= 0 then
        var e := LineEnd(s, c);
        s[p..e] + ", status=" + newStatus + AppendStatus(s, newStatus, e)
      else [s[p]] + AppendStatus(s, newStatus, p + 1)
  }

  /** The status written back: `completed_<timestamp>`. */
  function StatusValue(stamp: string): string
  {
    "completed_" + stamp
  }

  /**
   * The new inner text of the selected block. With a `%parameters:` in it:
   * the first substitution, then the fallback when `status=<new>` is still
   * absent. Without one: the stripped text and a fresh parameter line.
   */
  function RewriteInner(inner: string, newStatus: string): string
  {
    if Contains(inner, PromptParams.Marker) then
      var u := StatusSub(inner, newStatus, 0);
      if !Contains(u, "status=" + newStatus) then AppendStatus(u, newStatus, 0) else u
    else Strip(inner) + "\n" + PromptParams.ParamLine("status", newStatus) + "\n"
  }

  /** `params.get('status', '')`. */
  function StatusOf(params: map<string, string>): string
  {
    if "status" in params then params["status"] else ""
  }

  /** The block asks to be processed: its status, stripped and lower-cased, is `start`. */
  predicate IsStart(env: Env)
  {
    AsciiLower(Strip(StatusOf(env.params))) == "start"
  }

  /** The rebuilt `user` block. */
  function UserBlock(inner: string): string
  {
    BeginTag("user") + inner + EndTag("user")
  }

  /** What the language model returned for the prompt: reasoning, answer and the answer's title. */
  datatype Reply = Reply(reasoning: string, answer: string, title: string)

  /** The reasoning and answer blocks put after the user block. */
  function NewBlocks(reply: Reply): string
  {
    "\n\\begin{reasoning}\n" + reply.reasoning + "\n\\end{reasoning}\n\n\\begin{answer}[" + reply.title + "]\n"
    + reply.answer + "\n\\end{answer}\n"
  }

  /** `content[:start] + block + content[end:]`: the text around the replaced range is kept. */
  function Splice(content: string, start: nat, end: nat, block: string): (r: string)
    requires start <= end <= |content|
    ensures |r| == |content| - (end - start) + |block|
    ensures r[..start] == content[..start] && r[start..start + |block|] == block
    ensures r[start + |block|..] == content[end..]
  {
    content[..start] + block + content[end..]
  }

  /** The endpoint's answer: an HTTP error status, the content untouched, or the processed content. */
  datatype Outcome = Failed(code: nat) | Unchanged(content: string) | Processed(content: string)

  /**
   * `process_latex_with_ai` for a document, whether the model client is
   * configured, the model's reply and the timestamp. The guard against
   * indices outside the document is kept (a negative start cannot arise for
   * a `nat`).
   */
  function Process(content: string, clientReady: bool, reply: Reply, stamp: string): Outcome
  {
    if !clientReady then Failed(500)
    else
      var envs := Scan(content, "user", 1);
      match FirstWhere(envs, IsStart, 0)
      case None => Unchanged(content)
      case Some(i) =>
        var env := envs[i];
        var inner := RewriteInner(env.inner, StatusValue(stamp));
        if env.end > |content| || env.start >= env.end then Failed(500)
        else Processed(Splice(content, env.start, env.end, UserBlock(inner) + NewBlocks(reply)))
  }

  /**
   * The endpoint fails exactly when no model client is configured (the index
   * guard never fires), and leaves the content unchanged exactly when no
   * `user` block has status `start`.
   */
  lemma ProcessOutcomes(content: string, clientReady: bool, reply: Reply, stamp: string)
    ensures Process(content, clientReady, reply, stamp).Failed? <==> !clientReady
    ensures Process(content, clientReady, reply, stamp).Unchanged? <==>
              clientReady && forall i :: 0 <= i < |Scan(content, "user", 1)| ==> !IsStart(Scan(content, "user", 1)[i])
    ensures Process(content, clientReady, reply, stamp).Unchanged? ==> Process(content, clientReady, reply, stamp).content == content
  {
    var envs := Scan(content, "user", 1);
    FirstWhereIsFirst(envs, IsStart, 0);
    ScanWellFormed(content, "user", 1);
    var r := FirstWhere(envs, IsStart, 0);
    if r.Some? {
      assert WellFormed(content, "user", envs[r.value]);
    }
  }

  /**
   * With the `i`-th block the first to ask for processing, the result is the
   * document before that block, the rebuilt block, the new blocks, and the
   * document after the block, so text outside the block is untouched.
   */
  lemma ProcessedIsSplice(content: string, reply: Reply, stamp: string, i: nat)
    requires i < |Scan(content, "user", 1)| && IsStart(Scan(content, "user", 1)[i])
    requires forall j :: 0 <= j < i ==> !IsStart(Scan(content, "user", 1)[j])
    ensures var env := Scan(content, "user", 1)[i];
            var block := UserBlock(RewriteInner(env.inner, StatusValue(stamp))) + NewBlocks(reply);
            env.start < env.end <= |content| &&
            Process(content, true, reply, stamp) == Processed(Splice(content, env.start, env.end, block))
  {
    var envs := Scan(content, "user", 1);
    FirstWhereSkips(envs, IsStart, 0, i);
    assert FirstWhere(envs, IsStart, i) == Some(i);
    ScanWellFormed(content, "user", 1);
    assert WellFormed(content, "user", envs[i]);
  }

  /** Text in which no '%' is followed by a backslash is left alone by the first substitution. */
  lemma {:induction false} StatusSubOrdinary(s: string, newStatus: string, p: nat)
    requires p <= |s| && NoPercentBackslash(s)
    ensures StatusSub(s, newStatus, p) == s[p..]
    decreases |s| - p
  {
    if p < |s| {
      assert MarkerPrefixEnd(s, p) == -1;
      StatusSubOrdinary(s, newStatus, p + 1);
      assert s[p..] == [s[p]] + s[p + 1..];
    }
  }

  /** Text in which no '%' is followed by a backslash is left alone by the fallback substitution. */
  lemma {:induction false} AppendStatusOrdinary(s: string, newStatus: string, p: nat)
    requires p <= |s| && NoPercentBackslash(s)
    ensures AppendStatus(s, newStatus, p) == s[p..]
    decreases |s| - p
  {
    if p < |s| {
      assert MarkerPrefixEnd(s, p) == -1;
      AppendStatusOrdinary(s, newStatus, p + 1);
      assert s[p..] == [s[p]] + s[p + 1..];
    }
  }

  /**
   * A block with an ordinary `%parameters: ... status=start` line (no '%'
   * followed by a backslash) is rebuilt verbatim: its parameters, and so its
   * `start` status, stay as they were.
   */
  lemma OrdinaryBlockKept(inner: string, newStatus: string)
    requires Contains(inner, PromptParams.Marker) && NoPercentBackslash(inner)
    ensures RewriteInner(inner, newStatus) == inner
    ensures PromptParams.Params(RewriteInner(inner, newStatus)) == PromptParams.Params(inner)
  {
    StatusSubOrdinary(inner, newStatus, 0);
    AppendStatusOrdinary(inner, newStatus, 0);
  }

  /** The first substitution either changes nothing or leaves `status=<new>` in the text. */
  lemma {:induction false} StatusSubFires(s: string, newStatus: string, p: nat)
    requires p <= |s|
    ensures StatusSub(s, newStatus, p) == s[p..] || Contains(StatusSub(s, newStatus, p), "status=" + newStatus)
    decreases |s| - p
  {
    if p < |s| {
      var c := MarkerPrefixEnd(s, p);
      var q := if c < 0 then -1 else FirstStatusPart(s, c);
      var w := "status=" + newStatus;
      if q >= 0 {
        var r := s[p..q] + w + s[StatusPartEnd(s, q)..];
        assert r == StatusSub(s, newStatus, p);
        assert r[q - p..q - p + |w|] == w;
        assert OccursAt(r, w, q - p);
        ContainsIff(r, w);
      } else {
        StatusSubFires(s, newStatus, p + 1);
        assert s[p..] == [s[p]] + s[p + 1..];
        if StatusSub(s, newStatus, p + 1) != s[p + 1..] {
          ContainsAfterPrefix([s[p]], StatusSub(s, newStatus, p + 1), w);
        }
      }
    }
  }

  /** The fallback runs only when the first substitution changed nothing. */
  lemma FallbackOnlyWhenUnchanged(inner: string, newStatus: string)
    requires Contains(inner, PromptParams.Marker) && StatusSub(inner, newStatus, 0) != inner
    ensures RewriteInner(inner, newStatus) == StatusSub(inner, newStatus, 0)
  {
    StatusSubFires(inner, newStatus, 0);
  }

  /** A timestamp as `strftime("%Y%m%d_%H%M%S_%f")` writes it: digits and underscores. */
  predicate IsStamp(stamp: string)
  {
    forall i :: 0 <= i < |stamp| ==> '0' <= stamp[i] <= '9' || stamp[i] == '_'
  }

  /** `completed_<timestamp>` is a single parameter value. */
  lemma StatusValueIsToken(stamp: string)
    requires IsStamp(stamp)
    ensures PromptParams.IsToken(StatusValue(stamp))
  {
    var v := StatusValue(stamp);
    forall i | 0 <= i < |v|
      ensures !IsSpace(v[i]) && !IsLineBreak(v[i]) && v[i] != ','
    {
      if i >= 10 {
        assert v[i] == stamp[i - 10];
      }
    }
  }

  /** The last character of a non-empty stripped text is not white space. */
  lemma StripEndsInText(s: string)
    ensures Strip(s) == [] || !IsSpace(Strip(s)[|Strip(s)| - 1])
  {
  }

  /**
   * A block without `%parameters:` gets a fresh parameter line, and reading
   * the rewritten text back gives exactly the status `completed_<timestamp>`,
   * which no longer asks for processing.
   */
  lemma FreshParameterLine(inner: string, stamp: string)
    requires !Contains(inner, PromptParams.Marker) && IsStamp(stamp)
    ensures PromptParams.Params(RewriteInner(inner, StatusValue(stamp))) == map["status" := StatusValue(stamp)]
    ensures AsciiLower(Strip(StatusOf(PromptParams.Params(RewriteInner(inner, StatusValue(stamp)))))) != "start"
  {
    var newStatus := StatusValue(stamp);
    FreshLineText(inner, newStatus);
    StripKeepsAbsence(inner, PromptParams.Marker);
    StripEndsInText(inner);
    StatusValueIsToken(stamp);
    assert PromptParams.IsToken("status") && '=' !in "status";
    PromptParams.ParamsAfterFreshLine(Strip(inner), "status", newStatus);
    StrippedValue(stamp);
  }

  /** Without `%parameters:` the new inner text is the stripped text, a newline and one parameter line. */
  lemma FreshLineText(inner: string, newStatus: string)
    requires !Contains(inner, PromptParams.Marker)
    ensures RewriteInner(inner, newStatus) == Strip(inner) + "\n" + (PromptParams.ParamLine("status", newStatus) + "\n")
  {
  }

  /** Stripping cannot bring in a substring the text lacks. */
  lemma StripKeepsAbsence(s: string, q: string)
    requires !Contains(s, q)
    ensures !Contains(Strip(s), q)
  {
    if Contains(Strip(s), q) {
      ContainsFromSlice(s, SkipSpace(s, 0), SkipSpaceBack(s, |s|), q);
    }
  }

  /** `completed_<timestamp>`, stripped and lower-cased, is not `start`. */
  lemma StrippedValue(stamp: string)
    requires IsStamp(stamp)
    ensures AsciiLower(Strip(StatusValue(stamp))) != "start"
  {
    var v := StatusValue(stamp);
    StatusValueIsToken(stamp);
    PromptParams.StripToken(v);
    assert AsciiLower(v)[0] == 'c';
  }
}
