/**
 * The OpenRouter model catalogue and the `name_hint` lookup the agent uses to
 * turn a short model name from a prompt's parameters into a full model id.
 */
module LlmModels {
  import opened Text

  /** The catalogue, in list order (commented-out entries of the source are not part of it). */
  const Models: seq<string> := [
    "google/gemini-2.0-flash-thinking-exp:free",
    "google/gemini-2.0-flash-exp:free",
    "google/gemini-2.0-flash-001",
    "google/gemini-flash-1.5",
    "x-ai/grok-2-vision-1212",
    "minimax/minimax-01",
    "openai/gpt-4o-2024-11-20",
    "openai/chatgpt-4o-latest",
    "openai/gpt-4-turbo",
    "meta-llama/llama-3.2-90b-vision-instruct",
    "meta-llama/llama-3.2-11b-vision-instruct",
    "nousresearch/hermes-2-pro-llama-3-8b",
    "mistralai/pixtral-12b",
    "mistralai/pixtral-large-2411",
    "qwen/qvq-72b-preview",
    "qwen/qwen-2-vl-72b-instruct",
    "qwen/qwen-2-vl-7b-instruct",
    "anthropic/claude-3.5-sonnet:beta",
    "anthropic/claude-3.7-sonnet",
    "anthropic/claude-3.7-sonnet:thinking",
    "openai/o1",
    "openai/o3-mini",
    "openai/o3-mini-high",
    "cohere/command-r-08-2024",
    "meta-llama/llama-3.3-70b-instruct",
    "perplexity/llama-3.1-sonar-large-128k-online",
    "perplexity/sonar-reasoning",
    "mistralai/mistral-large-2411",
    "meta-llama/llama-3.1-70b-instruct",
    "deepseek/deepseek-r1",
    "mistralai/codestral-2501",
    "microsoft/phi-4"
  ]

  /** The short name the agent asks for when a prompt names no model. */
  const DefaultModel: string := "claude-3.7-sonnet:thinking"

  /** `name in m.lower()`: the query is a substring of the lower-cased entry. */
  predicate Matches(m: string, name: string)
  {
    Contains(AsciiLower(m), name)
  }


  /** Index of the first entry of `ms` at or after `from` that the query matches. */
  function FirstMatch(ms: seq<string>, name: string, from: nat): (r: Option<nat>)
    decreases |ms| - from
    ensures r.Some? ==> from <= r.value < |ms| && Matches(ms[r.value], name)
    ensures forall k :: from <= k < |ms| && (r.None? || k < r.value) ==> !Matches(ms[k], name)
  {
    if from >= |ms| then None
    else if Matches(ms[from], name) then Some(from)
    else FirstMatch(ms, name, from + 1)
  }

  /**
   * `name_hint(name)`: the first catalogue entry, in list order, whose
   * lower-cased text contains `name`; `None` stands for the IndexError the
   * empty list comprehension raises.
   */
  function NameHint(name: string): (r: Option<string>)
    ensures r.Some? ==> r.value in Models && Matches(r.value, name)
    ensures r.Some? ==> exists i :: 0 <= i < |Models| && Models[i] == r.value
                                    && forall k :: 0 <= k < i ==> !Matches(Models[k], name)
    ensures r.None? <==> forall m :: m in Models ==> !Matches(m, name)
  {
    match FirstMatch(Models, name, 0)
    case None => None
    case Some(i) => Some(Models[i])
  }

  /** The search stops at the first entry the query matches. */
  lemma FirstMatchAt(ms: seq<string>, name: string, j: nat)
    requires j < |ms| && Matches(ms[j], name)
    requires forall k :: 0 <= k < j ==> !Matches(ms[k], name)
    ensures FirstMatch(ms, name, 0) == Some(j)
  {
  }

  predicate NoUpperCase(s: string)
  {
    forall j :: 0 <= j < |s| ==> !('A' <= s[j] <= 'Z')
  }

  lemma LowerCaseFixed(s: string)
    requires NoUpperCase(s)
    ensures AsciiLower(s) == s
  {
  }

  /** Lower-casing never produces an upper-case letter. */
  lemma LowerHasNoUpperCase(s: string)
    ensures NoUpperCase(AsciiLower(s))
  {
  }

  /** A query containing an upper-case ASCII letter is not a substring of any lower-cased text. */
  lemma UpperCaseNoMatch(m: string, name: string)
    requires !NoUpperCase(name)
    ensures !Matches(m, name)
  {
    FindFromSpec(AsciiLower(m), name, 0);
    LowerHasNoUpperCase(m);
  }

  /** A query containing an upper-case ASCII letter matches no entry, so `name_hint` raises. */
  lemma UpperCaseQueryNeverMatches(name: string)
    requires !NoUpperCase(name)
    ensures NameHint(name) == None
  {
    forall m: string
      ensures !Matches(m, name)
    {
      UpperCaseNoMatch(m, name);
    }
  }

  /** If some character of the query does not occur in the entry, the query is not a substring of it. */
  lemma MissingCharNoMatch(s: string, q: string, c: char)
    requires c in q && c !in s
    ensures !Contains(s, q)
  {
    FindFromSpec(s, q, 0);
  }

  /** If the query mismatches the entry at some position for every alignment, it is not a substring. */
  lemma MismatchNoMatch(s: string, q: string, ts: seq<nat>)
    requires |s| >= |q| && |ts| == |s| - |q| + 1
    requires forall k :: 0 <= k < |ts| ==> ts[k] < |q| && s[k + ts[k]] != q[ts[k]]
    ensures !Contains(s, q)
  {
    forall k | 0 <= k < |ts|
      ensures !OccursAt(s, q, k)
    {
      assert s[k + ts[k]] != q[ts[k]];
    }
    ContainsIff(s, q);
  }

  /** A query longer than the entry is not a substring of it. */
  lemma LongerNoMatch(s: string, q: string)
    requires |s| < |q|
    ensures !Contains(s, q)
  {
  }


  lemma Entry0IsLowerCase()
    ensures AsciiLower(Models[0]) == Models[0]
  {
    LowerCaseFixed(Models[0]);
  }

  lemma Entry1IsLowerCase()
    ensures AsciiLower(Models[1]) == Models[1]
  {
    LowerCaseFixed(Models[1]);
  }

  lemma Entry2IsLowerCase()
    ensures AsciiLower(Models[2]) == Models[2]
  {
    LowerCaseFixed(Models[2]);
  }

  lemma Entry3IsLowerCase()
    ensures AsciiLower(Models[3]) == Models[3]
  {
    LowerCaseFixed(Models[3]);
  }

  lemma Entry4IsLowerCase()
    ensures AsciiLower(Models[4]) == Models[4]
  {
    LowerCaseFixed(Models[4]);
  }

  lemma Entry5IsLowerCase()
    ensures AsciiLower(Models[5]) == Models[5]
  {
    LowerCaseFixed(Models[5]);
  }

  lemma Entry6IsLowerCase()
    ensures AsciiLower(Models[6]) == Models[6]
  {
    LowerCaseFixed(Models[6]);
  }

  lemma Entry7IsLowerCase()
    ensures AsciiLower(Models[7]) == Models[7]
  {
    LowerCaseFixed(Models[7]);
  }

  lemma Entry8IsLowerCase()
    ensures AsciiLower(Models[8]) == Models[8]
  {
    LowerCaseFixed(Models[8]);
  }

  lemma Entry9IsLowerCase()
    ensures AsciiLower(Models[9]) == Models[9]
  {
    LowerCaseFixed(Models[9]);
  }

  lemma Entry10IsLowerCase()
    ensures AsciiLower(Models[10]) == Models[10]
  {
    LowerCaseFixed(Models[10]);
  }

  lemma Entry11IsLowerCase()
    ensures AsciiLower(Models[11]) == Models[11]
  {
    LowerCaseFixed(Models[11]);
  }

  lemma Entry12IsLowerCase()
    ensures AsciiLower(Models[12]) == Models[12]
  {
    LowerCaseFixed(Models[12]);
  }

  lemma Entry13IsLowerCase()
    ensures AsciiLower(Models[13]) == Models[13]
  {
    LowerCaseFixed(Models[13]);
  }

  lemma Entry14IsLowerCase()
    ensures AsciiLower(Models[14]) == Models[14]
  {
    LowerCaseFixed(Models[14]);
  }

  lemma Entry15IsLowerCase()
    ensures AsciiLower(Models[15]) == Models[15]
  {
    LowerCaseFixed(Models[15]);
  }

  lemma Entry16IsLowerCase()
    ensures AsciiLower(Models[16]) == Models[16]
  {
    LowerCaseFixed(Models[16]);
  }

  lemma Entry17IsLowerCase()
    ensures AsciiLower(Models[17]) == Models[17]
  {
    LowerCaseFixed(Models[17]);
  }

  lemma Entry18IsLowerCase()
    ensures AsciiLower(Models[18]) == Models[18]
  {
    LowerCaseFixed(Models[18]);
  }

  lemma Entry19IsLowerCase()
    ensures AsciiLower(Models[19]) == Models[19]
  {
    LowerCaseFixed(Models[19]);
  }

  lemma Entry20IsLowerCase()
    ensures AsciiLower(Models[20]) == Models[20]
  {
    LowerCaseFixed(Models[20]);
  }

  lemma Entry21IsLowerCase()
    ensures AsciiLower(Models[21]) == Models[21]
  {
    LowerCaseFixed(Models[21]);
  }

  lemma Entry22IsLowerCase()
    ensures AsciiLower(Models[22]) == Models[22]
  {
    LowerCaseFixed(Models[22]);
  }

  lemma Entry23IsLowerCase()
    ensures AsciiLower(Models[23]) == Models[23]
  {
    LowerCaseFixed(Models[23]);
  }

  lemma Entry24IsLowerCase()
    ensures AsciiLower(Models[24]) == Models[24]
  {
    LowerCaseFixed(Models[24]);
  }

  lemma Entry25IsLowerCase()
    ensures AsciiLower(Models[25]) == Models[25]
  {
    LowerCaseFixed(Models[25]);
  }

  lemma Entry26IsLowerCase()
    ensures AsciiLower(Models[26]) == Models[26]
  {
    LowerCaseFixed(Models[26]);
  }

  lemma Entry27IsLowerCase()
    ensures AsciiLower(Models[27]) == Models[27]
  {
    LowerCaseFixed(Models[27]);
  }

  lemma Entry28IsLowerCase()
    ensures AsciiLower(Models[28]) == Models[28]
  {
    LowerCaseFixed(Models[28]);
  }

  lemma Entry29IsLowerCase()
    ensures AsciiLower(Models[29]) == Models[29]
  {
    LowerCaseFixed(Models[29]);
  }

  lemma Entry30IsLowerCase()
    ensures AsciiLower(Models[30]) == Models[30]
  {
    LowerCaseFixed(Models[30]);
  }

  lemma Entry31IsLowerCase()
    ensures AsciiLower(Models[31]) == Models[31]
  {
    LowerCaseFixed(Models[31]);
  }

  /** Every catalogue entry is already lower-case. */
  lemma EntriesAreLowerCase()
    ensures forall i :: 0 <= i < |Models| ==> AsciiLower(Models[i]) == Models[i]
  {
    forall i | 0 <= i < |Models|
      ensures AsciiLower(Models[i]) == Models[i]
    {
      if i == 0 { Entry0IsLowerCase(); }
      else if i == 1 { Entry1IsLowerCase(); }
      else if i == 2 { Entry2IsLowerCase(); }
      else if i == 3 { Entry3IsLowerCase(); }
      else if i == 4 { Entry4IsLowerCase(); }
      else if i == 5 { Entry5IsLowerCase(); }
      else if i == 6 { Entry6IsLowerCase(); }
      else if i == 7 { Entry7IsLowerCase(); }
      else if i == 8 { Entry8IsLowerCase(); }
      else if i == 9 { Entry9IsLowerCase(); }
      else if i == 10 { Entry10IsLowerCase(); }
      else if i == 11 { Entry11IsLowerCase(); }
      else if i == 12 { Entry12IsLowerCase(); }
      else if i == 13 { Entry13IsLowerCase(); }
      else if i == 14 { Entry14IsLowerCase(); }
      else if i == 15 { Entry15IsLowerCase(); }
      else if i == 16 { Entry16IsLowerCase(); }
      else if i == 17 { Entry17IsLowerCase(); }
      else if i == 18 { Entry18IsLowerCase(); }
      else if i == 19 { Entry19IsLowerCase(); }
      else if i == 20 { Entry20IsLowerCase(); }
      else if i == 21 { Entry21IsLowerCase(); }
      else if i == 22 { Entry22IsLowerCase(); }
      else if i == 23 { Entry23IsLowerCase(); }
      else if i == 24 { Entry24IsLowerCase(); }
      else if i == 25 { Entry25IsLowerCase(); }
      else if i == 26 { Entry26IsLowerCase(); }
      else if i == 27 { Entry27IsLowerCase(); }
      else if i == 28 { Entry28IsLowerCase(); }
      else if i == 29 { Entry29IsLowerCase(); }
      else if i == 30 { Entry30IsLowerCase(); }
      else { Entry31IsLowerCase(); }
    }
  }

  /**
   * Looking up an entry by its own full name yields that entry or one
   * listed before it that also contains the name.
   */
  lemma HintOfEntryIsAtOrBefore(i: nat)
    requires i < |Models|
    ensures exists j :: 0 <= j <= i && NameHint(Models[i]) == Some(Models[j])
  {
    EntriesAreLowerCase();
    assert OccursAt(AsciiLower(Models[i]), Models[i], 0);
    assert Matches(Models[i], Models[i]);
    var r := FirstMatch(Models, Models[i], 0);
    assert r.Some? && r.value <= i;
  }

  /** Entry 0 (index `k`) misses every query that shares this feature with `claude-3.7-sonnet:thinking`. */
  lemma Entry0MissesDefault(k: nat, q: string)
    requires k == 0 && 'c' in q
    ensures !Matches(Models[k], q)
  {
    Entry0IsLowerCase();
    MissingCharNoMatch(Models[0], q, 'c');
  }

  /** Entry 1 (index `k`) misses every query that shares this feature with `claude-3.7-sonnet:thinking`. */
  lemma Entry1MissesDefault(k: nat, q: string)
    requires k == 1 && 'c' in q
    ensures !Matches(Models[k], q)
  {
    Entry1IsLowerCase();
    MissingCharNoMatch(Models[1], q, 'c');
  }

  /** Entry 2 (index `k`) misses every query that shares this feature with `claude-3.7-sonnet:thinking`. */
  lemma Entry2MissesDefault(k: nat, q: string)
    requires k == 2 && 'c' in q
    ensures !Matches(Models[k], q)
  {
    Entry2IsLowerCase();
    MissingCharNoMatch(Models[2], q, 'c');
  }

  /** Entry 3 (index `k`) misses every query that shares this feature with `claude-3.7-sonnet:thinking`. */
  lemma Entry3MissesDefault(k: nat, q: string)
    requires k == 3 && |q| > 23
    ensures !Matches(Models[k], q)
  {
    Entry3IsLowerCase();
    LongerNoMatch(Models[3], q);
  }

  /** Entry 4 (index `k`) misses every query that shares this feature with `claude-3.7-sonnet:thinking`. */
  lemma Entry4MissesDefault(k: nat, q: string)
    requires k == 4 && |q| > 23
    ensures !Matches(Models[k], q)
  {
    Entry4IsLowerCase();
    LongerNoMatch(Models[4], q);
  }

  /** Entry 5 (index `k`) misses every query that shares this feature with `claude-3.7-sonnet:thinking`. */
  lemma Entry5MissesDefault(k: nat, q: string)
    requires k == 5 && |q| > 18
    ensures !Matches(Models[k], q)
  {
    Entry5IsLowerCase();
    LongerNoMatch(Models[5], q);
  }

  /** Entry 6 (index `k`) misses every query that shares this feature with `claude-3.7-sonnet:thinking`. */
  lemma Entry6MissesDefault(k: nat, q: string)
    requires k == 6 && |q| > 24
    ensures !Matches(Models[k], q)
  {
    Entry6IsLowerCase();
    LongerNoMatch(Models[6], q);
  }

  /** Entry 7 (index `k`) misses every query that shares this feature with `claude-3.7-sonnet:thinking`. */
  lemma Entry7MissesDefault(k: nat, q: string)
    requires k == 7 && |q| > 24
    ensures !Matches(Models[k], q)
  {
    Entry7IsLowerCase();
    LongerNoMatch(Models[7], q);
  }

  /** Entry 8 (index `k`) misses every query that shares this feature with `claude-3.7-sonnet:thinking`. */
  lemma Entry8MissesDefault(k: nat, q: string)
    requires k == 8 && |q| > 18
    ensures !Matches(Models[k], q)
  {
    Entry8IsLowerCase();
    LongerNoMatch(Models[8], q);
  }

  /** Entry 9 (index `k`) misses every query that shares this feature with `claude-3.7-sonnet:thinking`. */
  lemma Entry9MissesDefault(k: nat, q: string)
    requires k == 9 && 'd' in q
    ensures !Matches(Models[k], q)
  {
    Entry9IsLowerCase();
    MissingCharNoMatch(Models[9], q, 'd');
  }

  /** Entry 10 (index `k`) misses every query that shares this feature with `claude-3.7-sonnet:thinking`. */
  lemma Entry10MissesDefault(k: nat, q: string)
    requires k == 10 && 'd' in q
    ensures !Matches(Models[k], q)
  {
    Entry10IsLowerCase();
    MissingCharNoMatch(Models[10], q, 'd');
  }

  /** Entry 11 (index `k`) misses every query that shares this feature with `claude-3.7-sonnet:thinking`. */
  lemma Entry11MissesDefault(k: nat, q: string)
    requires k == 11 && 'd' in q
    ensures !Matches(Models[k], q)
  {
    Entry11IsLowerCase();
    MissingCharNoMatch(Models[11], q, 'd');
  }

  /** Entry 12 (index `k`) misses every query that shares this feature with `claude-3.7-sonnet:thinking`. */
  lemma Entry12MissesDefault(k: nat, q: string)
    requires k == 12 && |q| > 21
    ensures !Matches(Models[k], q)
  {
    Entry12IsLowerCase();
    LongerNoMatch(Models[12], q);
  }

  /** Entry 13 (index `k`) misses every query that shares this feature with `claude-3.7-sonnet:thinking`. */
  lemma Entry13MissesDefault(k: nat, q: string)
    requires k == 13 && 'c' in q
    ensures !Matches(Models[k], q)
  {
    Entry13IsLowerCase();
    MissingCharNoMatch(Models[13], q, 'c');
  }

  /** Entry 14 (index `k`) misses every query that shares this feature with `claude-3.7-sonnet:thinking`. */
  lemma Entry14MissesDefault(k: nat, q: string)
    requires k == 14 && |q| > 20
    ensures !Matches(Models[k], q)
  {
    Entry14IsLowerCase();
    LongerNoMatch(Models[14], q);
  }

  /** Entry 15 (index `k`) misses every query that shares this feature with `claude-3.7-sonnet:thinking`. */
  lemma Entry15MissesDefault(k: nat, q: string)
    requires k == 15 && 'a' in q
    ensures !Matches(Models[k], q)
  {
    Entry15IsLowerCase();
    MissingCharNoMatch(Models[15], q, 'a');
  }

  /** Entry 16 (index `k`) misses every query that shares this feature with `claude-3.7-sonnet:thinking`. */
  lemma Entry16MissesDefault(k: nat, q: string)
    requires k == 16 && 'a' in q
    ensures !Matches(Models[k], q)
  {
    Entry16IsLowerCase();
    MissingCharNoMatch(Models[16], q, 'a');
  }

  /** Entry 17 (index `k`) misses every query that shares this feature with `claude-3.7-sonnet:thinking`. */
  lemma Entry17MissesDefault(k: nat, q: string)
    requires k == 17 && '7' in q
    ensures !Matches(Models[k], q)
  {
    Entry17IsLowerCase();
    MissingCharNoMatch(Models[17], q, '7');
  }

  /** Entry 18 (index `k`) misses every query that shares this feature with `claude-3.7-sonnet:thinking`. */
  lemma Entry18MissesDefault(k: nat, q: string)
    requires k == 18 && ':' in q
    ensures !Matches(Models[k], q)
  {
    Entry18IsLowerCase();
    MissingCharNoMatch(Models[18], q, ':');
  }

  lemma DefaultMatchesEntry19()
    ensures Matches(Models[19], DefaultModel)
    ensures Models[19] == "anthropic/" + DefaultModel
  {
    Entry19IsLowerCase();
    Entry19Spelled();
    ContainsSuffix("anthropic/", DefaultModel, Models[19]);
  }

  lemma Entry19Spelled()
    ensures Models[19] == "anthropic/" + DefaultModel
  {
  }

  /** The agent's default short name `claude-3.7-sonnet:thinking` resolves to catalogue entry 19, `anthropic/claude-3.7-sonnet:thinking`. */
  lemma DefaultModelHint()
    ensures NameHint(DefaultModel) == Some(Models[19])
    ensures Models[19] == "anthropic/" + DefaultModel
  {
    DefaultModelFirstMatch();
    DefaultMatchesEntry19();
  }

  lemma DefaultModelFirstMatch()
    ensures FirstMatch(Models, DefaultModel, 0) == Some(19)
  {
    EarlierEntriesMissDefault(DefaultModel);
    DefaultMatchesEntry19();
    FirstMatchAt(Models, DefaultModel, 19);
  }

  /** No entry before 19 matches the default short name. */
  lemma EarlierEntriesMissDefault(q: string)
    requires q == DefaultModel
    ensures forall k :: 0 <= k < 19 ==> !Matches(Models[k], q)
  {
    forall k | 0 <= k < 19
      ensures !Matches(Models[k], q)
    {
      if k == 0 { Entry0MissesDefault(k, q); }
      else if k == 1 { Entry1MissesDefault(k, q); }
      else if k == 2 { Entry2MissesDefault(k, q); }
      else if k == 3 { Entry3MissesDefault(k, q); }
      else if k == 4 { Entry4MissesDefault(k, q); }
      else if k == 5 { Entry5MissesDefault(k, q); }
      else if k == 6 { Entry6MissesDefault(k, q); }
      else if k == 7 { Entry7MissesDefault(k, q); }
      else if k == 8 { Entry8MissesDefault(k, q); }
      else if k == 9 { Entry9MissesDefault(k, q); }
      else if k == 10 { Entry10MissesDefault(k, q); }
      else if k == 11 { Entry11MissesDefault(k, q); }
      else if k == 12 { Entry12MissesDefault(k, q); }
      else if k == 13 { Entry13MissesDefault(k, q); }
      else if k == 14 { Entry14MissesDefault(k, q); }
      else if k == 15 { Entry15MissesDefault(k, q); }
      else if k == 16 { Entry16MissesDefault(k, q); }
      else if k == 17 { Entry17MissesDefault(k, q); }
      else { Entry18MissesDefault(k, q); }
    }
  }
}
