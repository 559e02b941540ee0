/**
 * `_find_environments`: the scan of a LaTeX document for
 * `\begin{name} ... \end{name}` blocks (shortest body, left to right, no
 * overlap), with the parameter line read and removed for `user` blocks.
 *
 * The server and the local client differ only in the removal pattern for
 * the parameter line: written in raw strings, it asks for `k` literal
 * backslashes after the '%' (k = 1 in the server, k = 2 in the client), so
 * an ordinary `%parameters:` line is never removed.
 */
module Environments {
  import opened Text
  import PromptParams

  /** One matched block, as the dictionary the source builds for it. */
  datatype Env = Env(
    kind: string,
    full: string,
    inner: string,
    clean: string,
    params: map<string, string>,
    start: nat,
    end: nat)

  function BeginTag(name: string): string
  {
    "\\begin{" + name + "}"
  }

  function EndTag(name: string): string
  {
    "\\end{" + name + "}"
  }

  function Backslashes(k: nat): (r: string)
    ensures |r| == k && forall i :: 0 <= i < k ==> r[i] == '\\'
  {
    seq(k, _ => '\\')
  }

  /** A position where `^` matches under MULTILINE. */
  predicate LineStart(s: string, p: nat)
  {
    p == 0 || (p <= |s| && s[p - 1] == '\n')
  }

  /** Index after a run of 's' characters starting at `i` (the regex `s*`). */
  function SkipEss(s: string, i: nat): (r: nat)
    requires i <= |s|
    decreases |s| - i
    ensures i <= r <= |s| && (r < |s| ==> s[r] != 's')
  {
    if i < |s| && s[i] == 's' then SkipEss(s, i + 1) else i
  }

  /**
   * End of the lazy `.*?(?:<k backslashes>n|$)` tail that starts at `j`: the
   * first `k` backslashes followed by 'n' on this line (consumed), else the
   * end of the line (not consumed).
   */
  function LazyTailEnd(s: string, j: nat, k: nat): (r: nat)
    requires j <= |s|
    decreases |s| - j
    ensures j <= r <= |s|
  {
    if j == |s| then j
    else if OccursAt(s, Backslashes(k) + "n", j) then j + k + 1
    else if s[j] == '\n' then j
    else LazyTailEnd(s, j + 1, k)
  }

  /**
   * The removal pattern `^%<k backslashes>s*parameters:.*?(?:<k backslashes>n|$)`
   * tried at `p`: the end of the match, or -1.
   */
  function ParamLineMatch(s: string, p: nat, k: nat): (r: int)
    requires p <= |s|
    ensures r == -1 || (p < r <= |s|)
    ensures r != -1 ==> s[p] == '%' && OccursAt(s, Backslashes(k), p + 1)
    ensures r != -1 && k >= 1 ==> p + 1 < |s| && s[p + 1] == '\\'
  {
    if !(LineStart(s, p) && p < |s| && s[p] == '%' && OccursAt(s, Backslashes(k), p + 1)) then -1
    else
      assert k >= 1 ==> s[p + 1..p + 1 + k][0] == Backslashes(k)[0];
      var q := SkipEss(s, p + 1 + k);
      if !OccursAt(s, "parameters:", q) then -1
      else LazyTailEnd(s, q + 11, k)
  }

  /** `re.sub(pattern, '', s[p:])` for the removal pattern, scanning left to right. */
  function RemoveParamLines(s: string, k: nat, p: nat): string
    requires p <= |s|
    decreases |s| - p
  {
    if p == |s| then []
    else
      var e := ParamLineMatch(s, p, k);
      if e > p then RemoveParamLines(s, k, e) else [s[p]] + RemoveParamLines(s, k, p + 1)
  }

  /** No '%' is immediately followed by a backslash. */
  predicate NoPercentBackslash(s: string)
  {
    forall i :: 0 <= i < |s| - 1 ==> !(s[i] == '%' && s[i + 1] == '\\')
  }

  /** Text in which no '%' is followed by a backslash loses nothing to the removal pattern. */
  lemma {:induction false} OrdinaryTextKept(s: string, k: nat, p: nat)
    requires k >= 1 && p <= |s| && NoPercentBackslash(s)
    ensures RemoveParamLines(s, k, p) == s[p..]
    decreases |s| - p
  {
    if p < |s| {
      OrdinaryTextKept(s, k, p + 1);
      assert s[p..] == [s[p]] + s[p + 1..];
    }
  }

  /** The `clean_text` of a block: for `user`, the stripped text without parameter lines. */
  function CleanText(name: string, inner: string, k: nat): string
  {
    if name == "user" then Strip(RemoveParamLines(inner, k, 0)) else inner
  }

  /** Where one match lies: the index of its begin tag and of its end tag. */
  datatype Span = Span(b: nat, e: nat)

  /** Both tags of the span fit, in order, inside the document. */
  predicate SpanIn(content: string, bt: string, et: string, sp: Span)
  {
    sp.b + |bt| <= sp.e && sp.e + |et| <= |content|
  }

  /**
   * `finditer` of the non-greedy pattern `<bt>(.*?)<et>` (DOTALL) from `pos`,
   * as spans: the leftmost begin tag, closed by the first end tag after it;
   * scanning resumes after that end tag. A begin tag with no end tag after it
   * ends the scan, since no later begin tag has one either.
   */
  function Spans(content: string, bt: string, et: string, pos: nat): seq<Span>
    requires pos <= |content| && et != []
    decreases |content| - pos
  {
    var b := FindFrom(content, bt, pos);
    if b < 0 then []
    else
      var e := FindFrom(content, et, b + |bt|);
      if e < 0 then []
      else [Span(b, e)] + Spans(content, bt, et, e + |et|)
  }

  /** One step of the scan: no match ends it; a match contributes its span and the scan resumes after it. */
  lemma SpansStep(content: string, bt: string, et: string, pos: nat, b: int, e: int)
    requires pos <= |content| && et != []
    requires b == FindFrom(content, bt, pos)
    requires b >= 0 ==> e == FindFrom(content, et, b + |bt|)
    ensures b < 0 || e < 0 ==> Spans(content, bt, et, pos) == []
    ensures b >= 0 && e >= 0 ==>
              SpanIn(content, bt, et, Span(b, e)) &&
              Spans(content, bt, et, pos) == [Span(b, e)] + Spans(content, bt, et, e + |et|)
  {
    if b >= 0 && e >= 0 {
      assert SpanIn(content, bt, et, Span(b, e));
      SpansFound(content, bt, et, pos, b, e);
    }
  }

  lemma SpansFound(content: string, bt: string, et: string, pos: nat, b: nat, e: nat)
    requires pos <= |content| && et != [] && e + |et| <= |content|
    requires b == FindFrom(content, bt, pos) && e == FindFrom(content, et, b + |bt|)
    ensures Spans(content, bt, et, pos) == [Span(b, e)] + Spans(content, bt, et, e + |et|)
  {
  }

  /** The match at `sp` is the begin tag there, closed by the first end tag after it. */
  predicate SpanMatches(content: string, bt: string, et: string, sp: Span)
  {
    OccursAt(content, bt, sp.b) && FindFrom(content, et, sp.b + |bt|) == sp.e
  }

  /**
   * Every span the scan yields from `pos` lies after `pos` inside the
   * document, is a begin tag closed by the first end tag after it, and spans
   * come left to right without overlap.
   */
  lemma {:induction false} SpansMatch(content: string, bt: string, et: string, pos: nat)
    requires pos <= |content| && et != []
    ensures GoodSpans(content, bt, et, pos, Spans(content, bt, et, pos))
    decreases |content| - pos, 1
  {
    var b, e := SpansNext(content, bt, et, pos);
    if b >= 0 && e >= 0 {
      SpansMatchAfter(content, bt, et, pos, b, e);
    } else {
      GoodSpansEmpty(content, bt, et, pos, Spans(content, bt, et, pos));
    }
  }

  /** The same when a first span is found at `b`, `e`. */
  lemma {:induction false} SpansMatchAfter(content: string, bt: string, et: string, pos: nat, b: nat, e: nat)
    requires pos <= b && pos < e + |et| <= |content| && et != []
    requires SpanIn(content, bt, et, Span(b, e)) && SpanMatches(content, bt, et, Span(b, e))
    requires Spans(content, bt, et, pos) == [Span(b, e)] + Spans(content, bt, et, e + |et|)
    ensures GoodSpans(content, bt, et, pos, Spans(content, bt, et, pos))
    decreases |content| - pos, 0
  {
    SpansMatch(content, bt, et, e + |et|);
    SpansCons(content, bt, et, pos, b, e, Spans(content, bt, et, e + |et|), Spans(content, bt, et, pos));
  }

  /** The first span from `pos`, if any, and what it says about the spans from `pos`. */
  lemma SpansNext(content: string, bt: string, et: string, pos: nat) returns (b: int, e: int)
    requires pos <= |content| && et != []
    ensures b < 0 || e < 0 ==> Spans(content, bt, et, pos) == []
    ensures b >= 0 && e >= 0 ==>
              pos <= b && pos < e + |et| <= |content|
              && SpanIn(content, bt, et, Span(b, e)) && SpanMatches(content, bt, et, Span(b, e))
              && Spans(content, bt, et, pos) == [Span(b, e)] + Spans(content, bt, et, e + |et|)
  {
    b := FindFrom(content, bt, pos);
    e := if b < 0 then -1 else FindFrom(content, et, b + |bt|);
    SpansStep(content, bt, et, pos, b, e);
    if b >= 0 && e >= 0 {
      FindFromSpec(content, bt, pos);
    }
  }

  lemma GoodSpansEmpty(content: string, bt: string, et: string, pos: nat, sps: seq<Span>)
    requires sps == []
    ensures GoodSpans(content, bt, et, pos, sps)
  {
  }

  /**
   * Spans that lie after `pos` inside the document, each a begin tag
   * closed by the first end tag after it, left to right without overlap.
   */
  ghost predicate GoodSpans(content: string, bt: string, et: string, pos: nat, sps: seq<Span>)
  {
    && (forall i :: 0 <= i < |sps| ==>
          pos <= sps[i].b && SpanIn(content, bt, et, sps[i]) && SpanMatches(content, bt, et, sps[i]))
    && (forall i, j :: 0 <= i < j < |sps| ==> sps[i].e + |et| <= sps[j].b)
  }

  /** A matching first span before spans that all start after it. */
  lemma SpansCons(content: string, bt: string, et: string, pos: nat, b: nat, e: nat, rest: seq<Span>, all: seq<Span>)
    requires all == [Span(b, e)] + rest
    requires pos <= b && SpanIn(content, bt, et, Span(b, e)) && SpanMatches(content, bt, et, Span(b, e))
    requires GoodSpans(content, bt, et, e + |et|, rest)
    ensures GoodSpans(content, bt, et, pos, all)
  {
    assert forall i :: 1 <= i < |all| ==> all[i] == rest[i - 1];
  }

  /** The dictionary built for the match at `sp`. */
  function MakeEnv(content: string, name: string, k: nat, sp: Span): (v: Env)
    requires SpanIn(content, BeginTag(name), EndTag(name), sp)
    ensures v.start == sp.b && v.end == sp.e + |EndTag(name)| && v.kind == name
    ensures v.full == content[v.start..v.end] && v.inner == content[sp.b + |BeginTag(name)|..sp.e]
  {
    var inner := content[sp.b + |BeginTag(name)|..sp.e];
    Env(name, content[sp.b..sp.e + |EndTag(name)|], inner, CleanText(name, inner, k),
        if name == "user" then PromptParams.Params(inner) else map[],
        sp.b, sp.e + |EndTag(name)|)
  }

  /** The spans of the `name` blocks of a document. */
  function TagSpans(content: string, name: string): seq<Span>
  {
    Spans(content, BeginTag(name), EndTag(name), 0)
  }

  /** `_find_environments`: one dictionary per match, in document order. */
  function Scan(content: string, name: string, k: nat): (r: seq<Env>)
    ensures |r| == |TagSpans(content, name)|
  {
    var sps := TagSpans(content, name);
    SpansMatch(content, BeginTag(name), EndTag(name), 0);
    seq(|sps|, i requires 0 <= i < |sps| => MakeEnv(content, name, k, sps[i]))
  }

  /** The dictionary the loop body builds for one match. */
  method BuildEnv(content: string, name: string, k: nat, sp: Span) returns (env: Env)
    requires SpanIn(content, BeginTag(name), EndTag(name), sp)
    ensures env == MakeEnv(content, name, k, sp)
  {
    var inner := content[sp.b + |BeginTag(name)|..sp.e];
    var params, clean := BlockFields(name, inner, k);
    env := Env(name, content[sp.b..sp.e + |EndTag(name)|], inner, clean, params, sp.b, sp.e + |EndTag(name)|);
  }

  /** The parameters and the clean text: parsed and cleaned for `user`, else none and the body as it is. */
  method BlockFields(name: string, inner: string, k: nat) returns (params: map<string, string>, clean: string)
    ensures params == if name == "user" then PromptParams.Params(inner) else map[]
    ensures clean == CleanText(name, inner, k)
  {
    params := map[];
    clean := inner;
    if name == "user" {
      params := PromptParams.ParseParameters(inner);
      clean := Strip(RemoveParamLines(inner, k, 0));
    }
  }

  /** `pattern.finditer(content)`: the regular-expression engine's left-to-right search for matches. */
  method FindSpans(content: string, bt: string, et: string) returns (spans: seq<Span>)
    requires et != []
    ensures spans == Spans(content, bt, et, 0)
  {
    spans := [];
    var pos := 0;
    ScanStart(content, bt, et);
    while true
      invariant pos <= |content| && ScannedTo(content, bt, et, spans, pos)
      decreases |content| - pos
    {
      var done;
      done, spans, pos := ScanStep(content, bt, et, spans, pos);
      if done {
        break;
      }
    }
  }

  /** One turn of the loop: the next match is recorded, or the scan is complete. */
  method ScanStep(content: string, bt: string, et: string, spans: seq<Span>, pos: nat)
    returns (done: bool, spans': seq<Span>, pos': nat)
    requires et != [] && pos <= |content| && ScannedTo(content, bt, et, spans, pos)
    ensures pos' <= |content| && ScannedTo(content, bt, et, spans', pos')
    ensures done ==> spans' == Spans(content, bt, et, 0)
    ensures !done ==> pos < pos'
  {
    var b, e := NextMatch(content, bt, et, pos);
    if b < 0 || e < 0 {
      AppendEmpty(spans);
      return true, spans, pos;
    }
    AppendAssoc(spans, [Span(b, e)], Spans(content, bt, et, e + |et|));
    return false, spans + [Span(b, e)], e + |et|;
  }

  /** The spans found before `pos` and the spans from `pos` make up all spans. */
  ghost predicate ScannedTo(content: string, bt: string, et: string, spans: seq<Span>, pos: nat)
    requires pos <= |content| && et != []
  {
    spans + Spans(content, bt, et, pos) == Spans(content, bt, et, 0)
  }

  lemma ScanStart(content: string, bt: string, et: string)
    requires et != []
    ensures ScannedTo(content, bt, et, [], 0)
  {
  }

  /** One search of `finditer`: the begin tag from `pos`, then the end tag after it. */
  method NextMatch(content: string, bt: string, et: string, pos: nat) returns (b: int, e: int)
    requires pos <= |content| && et != []
    ensures b < 0 || e < 0 ==> Spans(content, bt, et, pos) == []
    ensures b >= 0 && e >= 0 ==>
              pos < e + |et| <= |content| && Spans(content, bt, et, pos) == [Span(b, e)] + Spans(content, bt, et, e + |et|)
  {
    b := FindFrom(content, bt, pos);
    e := if b < 0 then -1 else FindFrom(content, et, b + |bt|);
    SpansStep(content, bt, et, pos, b, e);
    if b >= 0 && e >= 0 {
      FindFromSpec(content, bt, pos);
    }
  }

  /** `_find_environments`: the loop over the matches, building one dictionary per match. */
  method FindEnvironments(content: string, name: string, k: nat) returns (envs: seq<Env>)
    ensures envs == Scan(content, name, k)
  {
    var spans := FindSpans(content, BeginTag(name), EndTag(name));
    envs := [];
    for i := 0 to |spans|
      invariant |envs| == i
      invariant forall j :: 0 <= j < i ==> SpanIn(content, BeginTag(name), EndTag(name), spans[j]) && envs[j] == MakeEnv(content, name, k, spans[j])
    {
      TagSpanIn(content, name, spans, i);
      var env := BuildEnv(content, name, k, spans[i]);
      envs := envs + [env];
    }
    ScanOfEnvs(content, name, k, spans, envs);
  }

  /** Every span the scan finds lies in the document. */
  lemma TagSpanIn(content: string, name: string, spans: seq<Span>, i: nat)
    requires spans == TagSpans(content, name) && i < |spans|
    ensures SpanIn(content, BeginTag(name), EndTag(name), spans[i])
  {
    SpansMatch(content, BeginTag(name), EndTag(name), 0);
  }

  /** One dictionary per span, in order, is the scan's result. */
  lemma ScanOfEnvs(content: string, name: string, k: nat, spans: seq<Span>, envs: seq<Env>)
    requires spans == TagSpans(content, name) && |envs| == |spans|
    requires forall j :: 0 <= j < |spans| ==> SpanIn(content, BeginTag(name), EndTag(name), spans[j]) && envs[j] == MakeEnv(content, name, k, spans[j])
    ensures envs == Scan(content, name, k)
  {
  }

  /** One block is well formed for the scanned document. */
  predicate WellFormed(content: string, name: string, v: Env)
  {
    && v.kind == name
    && v.start < v.end <= |content|
    && v.full == content[v.start..v.end]
    && v.full == BeginTag(name) + v.inner + EndTag(name)
    && !Contains(v.inner, EndTag(name))
  }

  /** A slice cut at two inner points is the concatenation of the three pieces. */
  lemma SliceThree(s: string, a: nat, m: nat, n: nat, z: nat)
    requires a <= m <= n <= z <= |s|
    ensures s[a..z] == s[a..m] + s[m..n] + s[n..z]
  {
  }

  /** A matching span spells out begin tag, body and end tag, and its body holds no end tag. */
  lemma SpanSpellsBlock(content: string, bt: string, et: string, sp: Span)
    requires et != [] && SpanIn(content, bt, et, sp) && SpanMatches(content, bt, et, sp)
    ensures content[sp.b..sp.e + |et|] == bt + content[sp.b + |bt|..sp.e] + et
    ensures !Contains(content[sp.b + |bt|..sp.e], et)
  {
    var from := sp.b + |bt|;
    FindFromSpec(content, et, from);
    SliceThree(content, sp.b, from, sp.e, sp.e + |et|);
    BodyHasNoEndTag(content, et, from, sp.e);
  }

  /** The dictionary for a matching span spells out its block and has the shortest body. */
  lemma MakeEnvWellFormed(content: string, name: string, k: nat, sp: Span)
    requires SpanIn(content, BeginTag(name), EndTag(name), sp) && SpanMatches(content, BeginTag(name), EndTag(name), sp)
    ensures WellFormed(content, name, MakeEnv(content, name, k, sp))
  {
    SpanSpellsBlock(content, BeginTag(name), EndTag(name), sp);
  }

  /** The body of a match stops at the first end tag. */
  lemma BodyHasNoEndTag(content: string, et: string, from: nat, e: nat)
    requires et != [] && from <= e <= |content| && FindFrom(content, et, from) == e
    ensures !Contains(content[from..e], et)
  {
    var inner := content[from..e];
    FindFromSpec(inner, et, 0);
    FindFromSpec(content, et, from);
    if Contains(inner, et) {
      var j := FindFrom(inner, et, 0);
      assert OccursAt(content, inner, from);
      OccursTrans(content, inner, et, from, j);
    }
  }

  /**
   * Every dictionary `_find_environments` returns spells out its block, has
   * the shortest body, and the blocks come left to right without overlap.
   */
  lemma ScanWellFormed(content: string, name: string, k: nat)
    ensures forall i :: 0 <= i < |Scan(content, name, k)| ==> WellFormed(content, name, Scan(content, name, k)[i])
    ensures forall i, j :: 0 <= i < j < |Scan(content, name, k)| ==> Scan(content, name, k)[i].end <= Scan(content, name, k)[j].start
  {
    var sps := TagSpans(content, name);
    SpansMatch(content, BeginTag(name), EndTag(name), 0);
    forall i | 0 <= i < |sps|
      ensures WellFormed(content, name, Scan(content, name, k)[i])
    {
      MakeEnvWellFormed(content, name, k, sps[i]);
    }
  }

  /** For an ordinary `user` block (no '%' followed by a backslash) the clean text is the stripped body. */
  lemma OrdinaryCleanText(inner: string, k: nat)
    requires k >= 1 && NoPercentBackslash(inner)
    ensures CleanText("user", inner, k) == Strip(inner)
  {
    OrdinaryTextKept(inner, k, 0);
  }

  /** The server (k = 1) and the local client (k = 2) find the same blocks with the same parameters. */
  lemma ScanAgreesAcrossClients(content: string, name: string)
    ensures |Scan(content, name, 1)| == |Scan(content, name, 2)|
    ensures forall i :: 0 <= i < |Scan(content, name, 1)| ==>
              var (a, c) := (Scan(content, name, 1)[i], Scan(content, name, 2)[i]);
              a.start == c.start && a.end == c.end && a.full == c.full && a.inner == c.inner && a.params == c.params
  {
  }
}
