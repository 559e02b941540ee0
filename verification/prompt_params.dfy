/**
 * The `%parameters: key=value, key2=value2` comment line that carries a
 * prompt's settings (status, model, ...), and the parser that reads it.
 * The server and the local client carry the same parser, line for line.
 */
module PromptParams {
  import opened Text

  const Marker: string := "%parameters:"

  /** A line announces parameters when its stripped form starts with the marker (case-sensitive). */
  predicate IsParamLine(line: string)
  {
    StartsWith(Strip(line), Marker)
  }

  /**
   * One comma-separated item. An item with an '=' is split at its first '='
   * into a stripped key and a stripped value; items without '=' and items
   * with an empty key yield nothing.
   */
  function ParseItem(item: string): (r: Option<(string, string)>)
    ensures r.Some? ==> r.value.0 != []
  {
    var it := Strip(item);
    var e := FindChar(it, '=');
    if e < 0 then None
    else
      var key := Strip(it[..e]);
      if key == [] then None else Some((key, Strip(it[e + 1..])))
  }

  /** The items parsed one by one, in order. */
  function ParsedItems(items: seq<string>): (ps: seq<Option<(string, string)>>)
    ensures |ps| == |items|
    ensures forall i :: 0 <= i < |items| ==> ps[i] == ParseItem(items[i])
  {
    seq(|items|, i requires 0 <= i < |items| => ParseItem(items[i]))
  }

  /** Storing the parsed pairs left to right: a later key overwrites an earlier one. */
  function Collect(ps: seq<Option<(string, string)>>): map<string, string>
  {
    if ps == [] then map[]
    else
      var m := Collect(ps[..|ps| - 1]);
      match ps[|ps| - 1]
      case None => m
      case Some(kv) => m[kv.0 := kv.1]
  }

  /** The dictionary built from the comma-separated items of a parameter line. */
  function ParseItems(items: seq<string>): map<string, string>
  {
    Collect(ParsedItems(items))
  }

  /** `line.split(Marker, 1)[-1].strip()`: the text after the first marker, stripped (the whole line when it has none). */
  function ParamText(line: string): (r: string)
  {
    var k := FindFrom(line, Marker, 0);
    if k < 0 then Strip(line) else Strip(line[k + |Marker|..])
  }

  /** `_parse_parameters_from_text`: only the first parameter line counts; none gives the empty map. */
  function Params(text: string): map<string, string>
  {
    LineParams(SplitLines(text))
  }

  /** The parameters of text already cut into lines. */
  function LineParams(lines: seq<string>): map<string, string>
  {
    match FirstWhere(lines, IsParamLine, 0)
    case None => map[]
    case Some(i) => LineItems(lines[i])
  }

  /** The dictionary one parameter line yields. */
  function LineItems(line: string): map<string, string>
  {
    ParseItems(Split(ParamText(Strip(line)), ','))
  }

  /** Lines without the marker in front of others change no parameter. */
  lemma LineParamsAfter(pre: seq<string>, lines: seq<string>)
    requires forall i :: 0 <= i < |pre| ==> !IsParamLine(pre[i])
    ensures LineParams(pre + lines) == LineParams(lines)
  {
    var all := pre + lines;
    forall i | 0 <= i < |pre|
      ensures !IsParamLine(all[i])
    {
      assert all[i] == pre[i];
    }
    FirstWhereSkips(all, IsParamLine, 0, |pre|);
    FirstWhereAfter(pre, lines, IsParamLine, 0);
    var r := FirstWhere(lines, IsParamLine, 0);
    if r.Some? {
      assert all[r.value + |pre|] == lines[r.value];
    }
  }

  /** Some line is a parameter line. */
  predicate HasParamLine(lines: seq<string>)
  {
    exists i :: 0 <= i < |lines| && IsParamLine(lines[i])
  }

  /** The parameters of lines: those of the first line if it is a parameter line, else those of the rest. */
  lemma LineParamsCons(lines: seq<string>)
    requires lines != []
    ensures LineParams(lines) == if IsParamLine(lines[0]) then LineItems(lines[0]) else LineParams(lines[1..])
    ensures HasParamLine(lines) <==> IsParamLine(lines[0]) || HasParamLine(lines[1..])
  {
    if !IsParamLine(lines[0]) {
      assert [lines[0]] + lines[1..] == lines;
      LineParamsAfter([lines[0]], lines[1..]);
    }
    if HasParamLine(lines) && !IsParamLine(lines[0]) {
      var i :| 0 <= i < |lines| && IsParamLine(lines[i]);
      assert lines[1..][i - 1] == lines[i];
    }
    if HasParamLine(lines[1..]) {
      var i :| 0 <= i < |lines[1..]| && IsParamLine(lines[1..][i]);
      assert lines[i + 1] == lines[1..][i];
    }
  }

  /** Without a parameter line there are no parameters. */
  lemma NoParamLines(lines: seq<string>)
    requires !HasParamLine(lines)
    ensures LineParams(lines) == map[]
  {
    assert lines + [] == lines;
    LineParamsAfter(lines, []);
  }

  /**
   * For text whose only breaks are newlines, cutting it at the newlines
   * instead of with `splitlines` changes no parameter (the only difference,
   * a last empty piece, is no parameter line).
   */
  lemma {:induction false} ParamsBySplit(s: string)
    requires NewlinesOnly(s)
    ensures Params(s) == LineParams(Split(s, '\n'))
    decreases |s|
  {
    if s == [] {
      EmptySplit();
    } else if LineBreakIndex(s) == |s| {
      OneLineSplit(s);
    } else {
      var rest := NewlineStep(s);
      ParamsBySplit(rest);
      LineParamsCons(SplitLines(s));
      LineParamsCons(Split(s, '\n'));
    }
  }

  lemma EmptySplit()
    ensures Params("") == LineParams(Split("", '\n'))
  {
    NoSepSplit("", '\n');
    LineParamsCons([""]);
  }

  lemma OneLineSplit(s: string)
    requires s != [] && LineBreakIndex(s) == |s|
    ensures Params(s) == LineParams(Split(s, '\n'))
  {
    LineBreakIndexFirst(s);
    assert IsLineBreak('\n');
    NoSepSplit(s, '\n');
  }

  /** Up to the first break, a newline, `splitlines` and `split('\\n')` cut the same first line. */
  lemma NewlineStep(s: string) returns (rest: string)
    requires NewlinesOnly(s) && LineBreakIndex(s) < |s|
    ensures var k := LineBreakIndex(s);
            rest == s[k + 1..] && |rest| < |s| && NewlinesOnly(rest) &&
            SplitLines(s) == [s[..k]] + SplitLines(rest) && Split(s, '\n') == [s[..k]] + Split(rest, '\n')
  {
    var k := LineBreakIndex(s);
    rest := s[k + 1..];
    NewlineFirst(s, k);
    CutAt(s, k, '\n');
    LinesAtNewline(s, k);
    NewlinesOnlyAfter(s, k + 1);
  }

  /** The first break of text whose breaks are newlines is its first newline. */
  lemma NewlineFirst(s: string, k: nat)
    requires NewlinesOnly(s) && k == LineBreakIndex(s) < |s|
    ensures s[k] == '\n' && FindChar(s, '\n') == k
  {
    LineBreakIndexFirst(s);
    assert IsLineBreak('\n');
  }

  /** `splitlines` at a first break that is a newline. */
  lemma LinesAtNewline(s: string, k: nat)
    requires k == LineBreakIndex(s) < |s| && s[k] == '\n'
    ensures SplitLines(s) == [s[..k]] + SplitLines(s[k + 1..])
  {
  }

  lemma NewlinesOnlyAfter(s: string, k: nat)
    requires NewlinesOnly(s) && k <= |s|
    ensures NewlinesOnly(s[k..])
  {
    assert forall j :: 0 <= j < |s| - k ==> s[k..][j] == s[k + j];
  }

  /** The parser as the source writes it: a search loop over the lines, then a loop over the items. */
  method ParseParameters(text: string) returns (params: map<string, string>)
    ensures params == Params(text)
  {
    var lines := SplitLines(text);
    var i := 0;
    while i < |lines| && !StartsWith(Strip(lines[i]), Marker)
      invariant 0 <= i <= |lines|
      invariant FirstWhere(lines, IsParamLine, 0) == FirstWhere(lines, IsParamLine, i)
    {
      i := i + 1;
    }
    ParamLineFound(lines, i);
    params := map[];
    if i < |lines| {
      var paramLine := Strip(lines[i]);
      var items := Split(ParamText(paramLine), ',');
      params := ParseItemList(items);
    }
  }

  /** Where the search for the first parameter line stops, the parameters are read. */
  lemma ParamLineFound(lines: seq<string>, i: nat)
    requires i <= |lines| && FirstWhere(lines, IsParamLine, 0) == FirstWhere(lines, IsParamLine, i)
    requires i < |lines| ==> IsParamLine(lines[i])
    ensures LineParams(lines) == if i < |lines| then LineItems(lines[i]) else map[]
  {
  }

  /** The loop over the comma-separated items, filling the dictionary. */
  method ParseItemList(items: seq<string>) returns (params: map<string, string>)
    ensures params == ParseItems(items)
  {
    var ps := ParsedItems(items);
    params := map[];
    for j := 0 to |items|
      invariant params == Collect(ps[..j])
    {
      assert ps[..j + 1][..j] == ps[..j];
      var it := Strip(items[j]);
      var e := FindChar(it, '=');
      if e >= 0 {
        var key := Strip(it[..e]);
        var value := Strip(it[e + 1..]);
        if key != [] {
          params := params[key := value];
        }
      }
    }
    assert ps[..|items|] == ps;
  }

  /** Pair `i` carries the given key. */
  predicate HasKey(ps: seq<Option<(string, string)>>, i: int, key: string)
  {
    0 <= i < |ps| && ps[i].Some? && ps[i].value.0 == key
  }

  /** Every key in the dictionary comes from some pair. */
  lemma {:induction false} KeyHasSource(ps: seq<Option<(string, string)>>, key: string) returns (i: nat)
    requires key in Collect(ps)
    ensures HasKey(ps, i, key)
  {
    var init := ps[..|ps| - 1];
    if HasKey(ps, |ps| - 1, key) {
      i := |ps| - 1;
    } else {
      i := KeyHasSource(init, key);
    }
  }

  /** Every key some pair carries is in the dictionary. */
  lemma {:induction false} SourceHasKey(ps: seq<Option<(string, string)>>, key: string, i: nat)
    requires HasKey(ps, i, key)
    ensures key in Collect(ps)
  {
    var init := ps[..|ps| - 1];
    if i < |init| {
      assert HasKey(init, i, key);
      SourceHasKey(init, key, i);
    }
  }

  /** A key is in the dictionary exactly when some item yields it; an empty key never does. */
  lemma KeyPresentIff(items: seq<string>, key: string)
    ensures key in ParseItems(items) <==> exists i :: HasKey(ParsedItems(items), i, key)
    ensures key in ParseItems(items) ==> key != []
  {
    var ps := ParsedItems(items);
    if key in ParseItems(items) {
      var i := KeyHasSource(ps, key);
    }
    if exists i :: HasKey(ps, i, key) {
      var i :| HasKey(ps, i, key);
      SourceHasKey(ps, key, i);
    }
  }

  /** The value stored for a key is the one from the last pair carrying that key. */
  lemma {:induction false} LastPairWins(ps: seq<Option<(string, string)>>, i: nat)
    requires i < |ps| && ps[i].Some?
    requires forall j :: i < j < |ps| ==> !HasKey(ps, j, ps[i].value.0)
    ensures ps[i].value.0 in Collect(ps) && Collect(ps)[ps[i].value.0] == ps[i].value.1
  {
    var init := ps[..|ps| - 1];
    if i < |ps| - 1 {
      forall j | i < j < |init|
        ensures !HasKey(init, j, init[i].value.0)
      {
        assert !HasKey(ps, j, ps[i].value.0);
      }
      assert init[i] == ps[i];
      LastPairWins(init, i);
      assert !HasKey(ps, |ps| - 1, ps[i].value.0);
    }
  }

  /** Last key wins for the items of a parameter line. */
  lemma LastKeyWins(items: seq<string>, i: nat)
    requires i < |items| && ParseItem(items[i]).Some?
    requires forall j :: i < j < |items| ==> !HasKey(ParsedItems(items), j, ParseItem(items[i]).value.0)
    ensures var (key, value) := ParseItem(items[i]).value;
            key in ParseItems(items) && ParseItems(items)[key] == value
  {
    LastPairWins(ParsedItems(items), i);
  }

  /** The parameters depend only on the first parameter line. */
  lemma ParamsFromFirstLine(text: string, i: nat)
    requires i < |SplitLines(text)| && IsParamLine(SplitLines(text)[i])
    requires forall k :: 0 <= k < i ==> !IsParamLine(SplitLines(text)[k])
    ensures Params(text) == ParseItems(Split(ParamText(Strip(SplitLines(text)[i])), ','))
  {
    FirstWhereSkips(SplitLines(text), IsParamLine, 0, i);
  }

  /** Text without a parameter line has no parameters. */
  lemma NoParamLineNoParams(text: string)
    requires forall k :: 0 <= k < |SplitLines(text)| ==> !IsParamLine(SplitLines(text)[k])
    ensures Params(text) == map[]
  {
    FirstWhereIsFirst(SplitLines(text), IsParamLine, 0);
  }

  /** A parameter line contains the marker. */
  lemma ParamLineHasMarker(line: string)
    requires IsParamLine(line)
    ensures Contains(line, Marker)
  {
    var a := SkipSpace(line, 0);
    var b := SkipSpaceBack(line, |line|);
    assert Strip(line) == line[a..b];
    assert line[a..b][..|Marker|] == line[a..a + |Marker|];
    assert OccursAt(line, Marker, a);
    ContainsIff(line, Marker);
  }

  /**
   * Text in front of a newline changes no parameter as long as it holds no
   * marker and does not end in a carriage return.
   */
  lemma ParamsAfterPlain(a: string, t: string)
    requires !Contains(a, Marker)
    requires a == [] || a[|a| - 1] != '\r'
    ensures Params(a + "\n" + t) == Params(t)
  {
    var pre := SplitLinesAfter(a, t, Marker);
    forall i | 0 <= i < |pre|
      ensures !IsParamLine(pre[i])
    {
      if IsParamLine(pre[i]) {
        ParamLineHasMarker(pre[i]);
      }
    }
    LineParamsAfter(pre, SplitLines(t));
  }

  /** A word that `strip`, `splitlines` and `split(',')` leave whole. */
  predicate IsToken(s: string)
  {
    s != [] && forall i :: 0 <= i < |s| ==> !IsSpace(s[i]) && !IsLineBreak(s[i]) && s[i] != ','
  }

  /** The parameter line `%parameters: key=value` the writers of a fresh line produce. */
  function ParamLine(key: string, value: string): string
  {
    Marker + " " + key + "=" + value
  }

  /** The text `%parameters: key=value` plus a newline parses to exactly that pair. */
  lemma ParamsOfOneLine(key: string, value: string)
    requires IsToken(key) && '=' !in key && IsToken(value)
    ensures Params(ParamLine(key, value) + "\n") == map[key := value]
  {
    var item := key + "=" + value;
    var line := Marker + " " + item;
    assert line == ParamLine(key, value);
    ParamLineOfItem(item);
    ItemOfPair(key, value);
    ParamsOfParamLine(line, item, key, value);
  }

  /** Marker-free text without trailing blanks, then a newline and one fresh parameter line, parses to that one pair. */
  lemma ParamsAfterFreshLine(a: string, key: string, value: string)
    requires !Contains(a, Marker) && (a == [] || !IsSpace(a[|a| - 1]))
    requires IsToken(key) && '=' !in key && IsToken(value)
    ensures Params(a + "\n" + (ParamLine(key, value) + "\n")) == map[key := value]
  {
    ParamsAfterPlain(a, ParamLine(key, value) + "\n");
    ParamsOfOneLine(key, value);
  }

  /** A lone parameter line, followed by a newline, yields the pair of its one item. */
  lemma ParamsOfParamLine(line: string, item: string, key: string, value: string)
    requires forall i :: 0 <= i < |line| ==> !IsLineBreak(line[i])
    requires IsParamLine(line) && ParamText(Strip(line)) == item
    requires ',' !in item && ParseItem(item) == Some((key, value))
    ensures Params(line + "\n") == map[key := value]
  {
    OneLine(line);
    LineParamsOfOne(line);
    ParseOneItem(item, key, value);
  }

  /** The parameters of a single parameter line are those of its text. */
  lemma LineParamsOfOne(line: string)
    requires IsParamLine(line)
    ensures LineParams([line]) == ParseItems(Split(ParamText(Strip(line)), ','))
  {
    assert FirstWhere([line], IsParamLine, 0) == Some(0);
  }

  /** Text without commas that is one well-formed item yields exactly its pair. */
  lemma ParseOneItem(item: string, key: string, value: string)
    requires ',' !in item && ParseItem(item) == Some((key, value))
    ensures ParseItems(Split(item, ',')) == map[key := value]
  {
    NoSepSplit(item, ',');
    var ps := ParsedItems([item]);
    assert ps[0] == ParseItem(item);
    assert ps == [Some((key, value))];
    CollectOne(key, value);
  }

  lemma CollectOne(key: string, value: string)
    ensures Collect([Some((key, value))]) == map[key := value]
  {
    assert [Some((key, value))][..0] == [];
  }

  /** A line without breaks, followed by a newline, is one line. */
  lemma OneLine(line: string)
    requires forall i :: 0 <= i < |line| ==> !IsLineBreak(line[i])
    ensures SplitLines(line + "\n") == [line]
  {
    var text := line + "\n";
    assert text[|line|] == '\n' && IsLineBreak('\n');
    assert forall i :: 0 <= i < |line| ==> text[i] == line[i];
    LineBreakIndexFirst(text);
    assert LineBreakIndex(text) == |line|;
    LinesAtNewline(text, |line|);
    assert text[..|line|] == line && text[|line| + 1..] == [];
  }

  /** `%parameters: item` is a parameter line without breaks whose text is `item`. */
  lemma ParamLineOfItem(item: string)
    requires IsToken(item)
    ensures IsParamLine(Marker + " " + item)
    ensures ParamText(Strip(Marker + " " + item)) == item
    ensures forall i :: 0 <= i < |Marker + " " + item| ==> !IsLineBreak((Marker + " " + item)[i])
  {
    assert forall i :: 0 <= i < |Marker| ==> !IsLineBreak(Marker[i]);
    MarkedLine(Marker, item);
    ItemAfterMarker(Marker + " " + item, item);
  }

  /** A stripped line that starts with the marker has the stripped rest after the marker as its text. */
  lemma ItemAfterMarker(line: string, item: string)
    requires Strip(line) == line && FindFrom(line, Marker, 0) == 0 && |Marker| <= |line|
    requires Strip(line[|Marker|..]) == item
    ensures ParamText(Strip(line)) == item
  {
  }

  /** A word, a blank and a token form a line that `strip` keeps, that starts with the word, and whose text after the word is the token. */
  lemma MarkedLine(m: string, item: string)
    requires m != [] && !IsSpace(m[0]) && forall i :: 0 <= i < |m| ==> !IsLineBreak(m[i])
    requires IsToken(item)
    ensures Strip(m + " " + item) == m + " " + item
    ensures StartsWith(m + " " + item, m) && FindFrom(m + " " + item, m, 0) == 0
    ensures Strip((m + " " + item)[|m|..]) == item
    ensures forall i :: 0 <= i < |m + " " + item| ==> !IsLineBreak((m + " " + item)[i])
  {
    var rest := " " + item;
    var line := m + " " + item;
    assert line == m + rest;
    LeadingWord(m, rest);
    MarkedLineStrip(m, item);
    StripAfterSpace(item);
    MarkedLineNoBreak(m, item);
  }

  lemma MarkedLineStrip(m: string, item: string)
    requires m != [] && !IsSpace(m[0]) && IsToken(item)
    ensures Strip(m + " " + item) == m + " " + item
  {
    var line := m + " " + item;
    assert line[0] == m[0] && line[|line| - 1] == item[|item| - 1];
    StripToken(line);
  }

  lemma MarkedLineNoBreak(m: string, item: string)
    requires (forall i :: 0 <= i < |m| ==> !IsLineBreak(m[i])) && IsToken(item)
    ensures forall i :: 0 <= i < |m + " " + item| ==> !IsLineBreak((m + " " + item)[i])
  {
    var line := m + " " + item;
    forall i | 0 <= i < |line|
      ensures !IsLineBreak(line[i])
    {
      if i >= |m| + 1 {
        assert line[i] == item[i - |m| - 1];
      }
    }
  }

  /** A string that starts with `m` has `m` as its prefix and as its first occurrence of `m`. */
  lemma LeadingWord(m: string, rest: string)
    ensures StartsWith(m + rest, m)
    ensures FindFrom(m + rest, m, 0) == 0
    ensures (m + rest)[|m|..] == rest
  {
    assert (m + rest)[0..|m|] == m;
  }

  /** `key=value` is the item for the pair (key, value). */
  lemma ItemOfPair(key: string, value: string)
    requires IsToken(key) && '=' !in key && IsToken(value)
    ensures ParseItem(key + "=" + value) == Some((key, value))
  {
    var item := key + "=" + value;
    StripToken(item);
    assert item[|key|] == '=';
    assert FindChar(item, '=') == |key|;
    assert item[..|key|] == key && item[|key| + 1..] == value;
    StripToken(key);
    StripToken(value);
  }

  /** `strip` leaves a string alone that neither starts nor ends with white space. */
  lemma StripToken(s: string)
    requires s != [] && !IsSpace(s[0]) && !IsSpace(s[|s| - 1])
    ensures Strip(s) == s
  {
    assert SkipSpace(s, 0) == 0;
    assert SkipSpaceBack(s, |s|) == |s|;
  }

  /** One leading blank is stripped away from a token-like string. */
  lemma StripAfterSpace(s: string)
    requires s != [] && !IsSpace(s[0]) && !IsSpace(s[|s| - 1])
    ensures Strip(" " + s) == s
  {
    var t := " " + s;
    assert SkipSpace(t, 1) == 1;
    assert SkipSpace(t, 0) == 1;
    assert SkipSpaceBack(t, |t|) == |t|;
    assert t[1..|t|] == s;
  }

  /** `key=value`, an item as the writers of parameter lines produce it. */
  function Pair(key: string, value: string): string
  {
    key + "=" + value
  }

  /** A well-formed pair, after any blanks, is read back as that pair. */
  lemma PairItem(w: string, key: string, value: string)
    requires AllSpace(w) && IsToken(key) && '=' !in key && IsToken(value)
    ensures ParseItem(w + Pair(key, value)) == Some((key, value))
  {
    ItemOfPair(key, value);
    StripBlankPrefix(w, Pair(key, value));
  }

  /** Blanks after an item change nothing. */
  lemma ParseItemTrailing(x: string, w: string)
    requires AllSpace(w)
    ensures ParseItem(x + w) == ParseItem(x)
  {
    StripBlankSuffix(x, w);
  }

  /** One more parsed item: stored over the earlier ones, or ignored. */
  lemma CollectSnoc(ps: seq<Option<(string, string)>>, p: Option<(string, string)>)
    ensures Collect(ps + [p]) == if p.None? then Collect(ps) else Collect(ps)[p.value.0 := p.value.1]
  {
    assert (ps + [p])[..|ps|] == ps;
  }

  /**
   * Blanks, a comma and one more item `z` after the text `q` of a parameter
   * line: the items of `q`, then `z`.
   */
  lemma ItemsAfterComma(q: string, w: string, z: string, items: seq<string>)
    requires AllSpace(w) && ',' !in z
    requires items == Split(q + w + [','] + z, ',')
    ensures ParsedItems(items) == ParsedItems(Split(q, ',')) + [ParseItem(z)]
  {
    SplitAfterBlankComma(q, w, z);
    ParsedLastExtended(Split(q, ','), w, z);
  }

  /** The pieces of `q`, blanks and a comma: the blanks join the last piece of `q`. */
  lemma SplitAfterBlankComma(q: string, w: string, z: string)
    requires AllSpace(w) && ',' !in z
    ensures var r := Split(q, ',');
            r != [] && Split(q + w + [','] + z, ',') == r[..|r| - 1] + [r[|r| - 1] + w] + [z]
  {
    SplitBeforePiece(q + w, z, ',');
    SplitExtendLast(q, w, ',');
  }

  lemma ParsedLastExtended(r: seq<string>, w: string, z: string)
    requires r != [] && AllSpace(w)
    ensures ParsedItems(r[..|r| - 1] + [r[|r| - 1] + w] + [z]) == ParsedItems(r) + [ParseItem(z)]
  {
    var n := |r|;
    ParseItemTrailing(r[n - 1], w);
    var p := r[..n - 1];
    ParsedSnoc(p + [r[n - 1] + w], z);
    ParsedSameLast(p, r[n - 1] + w, r[n - 1]);
    SnocLast(r);
  }

  /** One more item parsed after the others. */
  lemma ParsedSnoc(p: seq<string>, z: string)
    ensures ParsedItems(p + [z]) == ParsedItems(p) + [ParseItem(z)]
  {
    ParsedItemsAppend(p, [z]);
    ParsedOne(z);
  }

  /** Two last items that parse alike give the same parsed items. */
  lemma ParsedSameLast(p: seq<string>, x: string, x2: string)
    requires ParseItem(x) == ParseItem(x2)
    ensures ParsedItems(p + [x]) == ParsedItems(p + [x2])
  {
    ParsedSnoc(p, x);
    ParsedSnoc(p, x2);
  }

  lemma ParsedOne(x: string)
    ensures ParsedItems([x]) == [ParseItem(x)]
  {
  }

  /** Parsing two runs of items one after the other. */
  lemma ParsedItemsAppend(xs: seq<string>, ys: seq<string>)
    ensures ParsedItems(xs + ys) == ParsedItems(xs) + ParsedItems(ys)
  {
    var lhs, rhs := ParsedItems(xs + ys), ParsedItems(xs) + ParsedItems(ys);
    forall i | 0 <= i < |lhs|
      ensures lhs[i] == rhs[i]
    {
      if i < |xs| {
        assert (xs + ys)[i] == xs[i];
      } else {
        assert (xs + ys)[i] == ys[i - |xs|];
      }
    }
  }

  /** Where the text of a parameter line sits inside the line. */
  lemma ParamLineParts(l: string)
    requires IsParamLine(l)
    ensures var a, b := SkipSpace(l, 0), SkipSpaceBack(l, |l|);
            a + |Marker| <= b && l[a..a + |Marker|] == Marker && ParamText(Strip(l)) == Strip(l[a + |Marker|..b])
  {
    StripStartsSlice(l, Marker);
    StrippedStartsAt(l, Marker, SkipSpace(l, 0), SkipSpaceBack(l, |l|));
    ParamTextOfMarked(Strip(l));
  }

  /** Text that starts with the marker: its parameter text is what follows the marker. */
  lemma ParamTextOfMarked(t: string)
    requires StartsWith(t, Marker)
    ensures ParamText(t) == Strip(t[|Marker|..])
  {
    assert FindFrom(t, Marker, 0) == 0;
  }

  /**
   * A parameter line with text `y` (ending in a non-blank) appended stays a
   * parameter line, and its text is that of the line up to its end with `y`
   * after it.
   */
  lemma AppendedParamLine(l: string, y: string)
    requires IsParamLine(l) && y != [] && !IsSpace(y[|y| - 1])
    ensures var a := SkipSpace(l, 0);
            a + |Marker| <= |l| && IsParamLine(l + y) && ParamText(Strip(l + y)) == Strip(l[a + |Marker|..] + y)
  {
    ParamLineParts(l);
    var a := SkipSpace(l, 0);
    StripAppended(l, y);
    MarkedAppend(l, y, a, Marker);
    MarkedText(l + y, (l + y)[a..], l[a + |Marker|..] + y);
  }

  /** A line whose stripped form is the marker and then `rest`: a parameter line with text `rest`, stripped. */
  lemma MarkedText(s: string, t: string, rest: string)
    requires Strip(s) == t && StartsWith(t, Marker) && t[|Marker|..] == rest
    ensures IsParamLine(s) && ParamText(Strip(s)) == Strip(rest)
  {
    ParamTextOfMarked(t);
  }

  /** A word at `a` in `l` is still at `a` once `y` is appended, followed by the rest of `l` and `y`. */
  lemma MarkedAppend(l: string, y: string, a: nat, m: string)
    requires a + |m| <= |l| && l[a..a + |m|] == m
    ensures StartsWith((l + y)[a..], m) && (l + y)[a..][|m|..] == l[a + |m|..] + y
  {
    var t := (l + y)[a..];
    assert forall j :: 0 <= j < |m| ==> t[j] == l[a + j] == m[j];
    assert t[..|m|] == m;
  }


  /**
   * Appending `y` to a parameter line appends it to the line's text, after
   * some blanks (the line's trailing blanks, or none when its text is empty
   * and `y` starts with a non-blank).
   */
  lemma ParamTextOfAppended(l: string, y: string) returns (w: string)
    requires IsParamLine(l) && y != [] && !IsSpace(y[|y| - 1])
    requires ParamText(Strip(l)) != [] || !IsSpace(y[0])
    ensures AllSpace(w) && IsParamLine(l + y) && ParamText(Strip(l + y)) == ParamText(Strip(l)) + w + y
  {
    ParamTextSlice(l);
    AppendedParamLine(l, y);
    w := StripTextAppend(l, y, SkipSpace(l, 0) + |Marker|);
  }

  /** The text of a parameter line is the stripped slice between its marker and its trailing blanks. */
  lemma ParamTextSlice(l: string)
    requires IsParamLine(l)
    ensures SkipSpace(l, 0) + |Marker| <= SkipSpaceBack(l, |l|)
    ensures ParamText(Strip(l)) == Strip(l[SkipSpace(l, 0) + |Marker|..SkipSpaceBack(l, |l|)])
  {
    ParamLineParts(l);
  }

  /** The slice of `l` from `c`, with `y` after it, strips to the stripped text up to the trailing blanks, some blanks and `y`. */
  lemma StripTextAppend(l: string, y: string, c: nat) returns (w: string)
    requires c <= SkipSpaceBack(l, |l|) && y != [] && !IsSpace(y[|y| - 1])
    requires Strip(l[c..SkipSpaceBack(l, |l|)]) != [] || !IsSpace(y[0])
    ensures AllSpace(w) && Strip(l[c..] + y) == Strip(l[c..SkipSpaceBack(l, |l|)]) + w + y
  {
    var b := SkipSpaceBack(l, |l|);
    var r0, tail := l[c..b], l[b..];
    SliceAt(l, c, b);
    BackTail(l);
    w := StripAppend(r0, tail, y);
  }

  /** A suffix cut in two at `b`. */
  lemma SliceAt(l: string, c: nat, b: nat)
    requires c <= b <= |l|
    ensures l[c..] == l[c..b] + l[b..]
    ensures c < b ==> l[c..b][b - c - 1] == l[b - 1]
  {
  }

  /** Items, a comma and a last item without commas: the parsed items, then that one. */
  lemma ItemsAfterTrailingComma(q0: string, u: string, t: string)
    requires ',' !in u && t == q0 + [','] + u
    ensures ParsedItems(Split(t, ',')) == ParsedItems(Split(q0, ',')) + [ParseItem(u)]
    ensures ParseItem([]) == None
  {
    SplitBeforePiece(q0, u, ',');
    ParsedSnoc(Split(q0, ','), u);
  }
}
