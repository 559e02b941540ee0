/**
 * The handful of Python `str` operations the modelled code relies on,
 * written out so that their edge cases are the interpreter's:
 * `isspace`, `strip`, `split(sep)`, `split()`, `splitlines`, `startswith`,
 * `endswith`, `in`, `find`, and `str(int)`.
 */
module Text {

  datatype Option<+T> = None | Some(value: T)

  /** Python's `str.isspace` for one character (the set `strip()` and `\s` use). */
  predicate IsSpace(c: char)
  {
    var n := c as int;
    n == 0x20 || 0x09 <= n <= 0x0D || 0x1C <= n <= 0x1F || n == 0x85 || n == 0xA0 || n == 0x1680
    || 0x2000 <= n <= 0x200A || n == 0x2028 || n == 0x2029 || n == 0x202F || n == 0x205F || n == 0x3000
  }

  /** The characters at which Python's `str.splitlines` breaks a line. */
  predicate IsLineBreak(c: char)
  {
    var n := c as int;
    0x0A <= n <= 0x0D || 0x1C <= n <= 0x1E || n == 0x85 || n == 0x2028 || n == 0x2029
  }

  predicate AllSpace(s: string)
  {
    forall i :: 0 <= i < |s| ==> IsSpace(s[i])
  }

  /** Index of the first non-space character at or after `i`, or `|s|`. */
  function SkipSpace(s: string, i: nat): (k: nat)
    requires i <= |s|
    decreases |s| - i
    ensures i <= k <= |s|
    ensures forall j :: i <= j < k ==> IsSpace(s[j])
    ensures k < |s| ==> !IsSpace(s[k])
  {
    if i < |s| && IsSpace(s[i]) then SkipSpace(s, i + 1) else i
  }

  /** Index just past the last non-space character before `j`, or 0. */
  function SkipSpaceBack(s: string, j: nat): (k: nat)
    requires j <= |s|
    ensures k <= j
    ensures forall i :: k <= i < j ==> IsSpace(s[i])
    ensures k > 0 ==> !IsSpace(s[k - 1])
  {
    if j > 0 && IsSpace(s[j - 1]) then SkipSpaceBack(s, j - 1) else j
  }

  function LStrip(s: string): string
  {
    s[SkipSpace(s, 0)..]
  }

  function RStrip(s: string): string
  {
    s[..SkipSpaceBack(s, |s|)]
  }

  /** Python's `str.strip()`. */
  function Strip(s: string): string
  {
    var a := SkipSpace(s, 0);
    var b := SkipSpaceBack(s, |s|);
    if a < b then s[a..b] else []
  }

  predicate StartsWith(s: string, p: string)
  {
    |p| <= |s| && s[..|p|] == p
  }

  predicate EndsWith(s: string, p: string)
  {
    |p| <= |s| && s[|s| - |p|..] == p
  }

  /** `q` occurs in `s` starting at index `k`. */
  predicate OccursAt(s: string, q: string, k: int)
  {
    0 <= k && k + |q| <= |s| && s[k..k + |q|] == q
  }

  /** Python's `s.find(q, from)`: the first index at or after `from` where `q` occurs, or -1 (see `FindFromSpec`). */
  function FindFrom(s: string, q: string, from: nat): (r: int)
    decreases |s| - from
    ensures r == -1 || (from <= r && r + |q| <= |s|)
  {
    if from + |q| > |s| then -1
    else if s[from..from + |q|] == q then from
    else FindFrom(s, q, from + 1)
  }

  /** `find` returns an occurrence, and the first one: none starts between `from` and its result. */
  lemma {:induction false} FindFromSpec(s: string, q: string, from: nat)
    ensures FindFrom(s, q, from) != -1 ==> OccursAt(s, q, FindFrom(s, q, from))
    ensures forall k :: from <= k && (FindFrom(s, q, from) == -1 || k < FindFrom(s, q, from)) ==> !OccursAt(s, q, k)
    decreases |s| - from
  {
    if from + |q| <= |s| && s[from..from + |q|] != q {
      FindFromSpec(s, q, from + 1);
    }
  }

  /** Python's `q in s`. */
  predicate Contains(s: string, q: string)
  {
    FindFrom(s, q, 0) >= 0
  }

  lemma ContainsIff(s: string, q: string)
    ensures Contains(s, q) <==> exists k :: OccursAt(s, q, k)
  {
    FindFromSpec(s, q, 0);
  }

  /** A text holds its own suffix. */
  lemma ContainsSuffix(p: string, q: string, s: string)
    requires s == p + q
    ensures Contains(s, q)
  {
    assert s[|p|..|p| + |q|] == q;
    assert OccursAt(s, q, |p|);
    ContainsIff(s, q);
  }

  /** A substring of a slice is a substring of the whole. */
  lemma ContainsFromSlice(s: string, i: nat, j: nat, q: string)
    requires i <= j <= |s| && Contains(s[i..j], q)
    ensures Contains(s, q)
  {
    var t := s[i..j];
    FindFromSpec(t, q, 0);
    var k := FindFrom(t, q, 0);
    assert OccursAt(s, t, i);
    OccursTrans(s, t, q, i, k);
    ContainsIff(s, q);
  }

  /** A substring stays a substring when text is put in front. */
  lemma ContainsAfterPrefix(x: string, t: string, q: string)
    requires Contains(t, q)
    ensures Contains(x + t, q)
  {
    var s := x + t;
    assert s[|x|..|s|] == t;
    ContainsFromSlice(s, |x|, |s|, q);
  }

  /** A part of a substring is a substring. */
  lemma ContainsPart(s: string, q: string, i: nat, j: nat)
    requires Contains(s, q) && i <= j <= |q|
    ensures Contains(s, q[i..j])
  {
    FindFromSpec(s, q, 0);
    var k := FindFrom(s, q, 0);
    assert s[k + i..k + j] == q[i..j];
    assert OccursAt(s, q[i..j], k + i);
    ContainsIff(s, q[i..j]);
  }

  /** An occurrence inside an occurrence is an occurrence. */
  lemma OccursTrans(s: string, t: string, u: string, a: int, b: int)
    requires OccursAt(s, t, a) && OccursAt(t, u, b)
    ensures OccursAt(s, u, a + b)
  {
    assert forall i :: 0 <= i < |u| ==> s[a + b + i] == t[b + i] == u[i];
  }

  /** A prefix of an occurrence occurs at the same place. */
  lemma OccursPrefix(s: string, t: string, a: int, n: nat)
    requires OccursAt(s, t, a) && n <= |t|
    ensures OccursAt(s, t[..n], a)
  {
    assert s[a..a + n] == t[..n];
  }

  /** Index of the first `c` at or after `i`, or -1. */
  function FindCharFrom(s: string, c: char, i: nat): (r: int)
    requires i <= |s|
    decreases |s| - i
    ensures r == -1 || (i <= r < |s| && s[r] == c)
    ensures forall k :: i <= k < |s| && (r == -1 || k < r) ==> s[k] != c
  {
    if i == |s| then -1 else if s[i] == c then i else FindCharFrom(s, c, i + 1)
  }

  /** Python's `s.find(c)` for one character. */
  function FindChar(s: string, c: char): (r: int)
    ensures -1 <= r < |s|
    ensures r >= 0 ==> s[r] == c
    ensures forall k :: 0 <= k < |s| && (r == -1 || k < r) ==> s[k] != c
  {
    FindCharFrom(s, c, 0)
  }

  /** Python's `s.split(sep)` for a one-character separator: always at least one piece. */
  function Split(s: string, sep: char): (r: seq<string>)
    ensures |r| >= 1
    ensures forall i :: 0 <= i < |r| ==> sep !in r[i]
    decreases |s|
  {
    var k := FindChar(s, sep);
    if k < 0 then [s] else [s[..k]] + Split(s[k + 1..], sep)
  }

  /** Python's `sep.join(parts)`. */
  function Join(sep: string, parts: seq<string>): string
  {
    if parts == [] then "" else if |parts| == 1 then parts[0] else parts[0] + sep + Join(sep, parts[1..])
  }

  lemma {:induction false} JoinSplit(s: string, sep: char)
    ensures Join([sep], Split(s, sep)) == s
    decreases |s|
  {
    var k := FindChar(s, sep);
    if k >= 0 {
      var rest := s[k + 1..];
      JoinSplit(rest, sep);
      JoinCons(s[..k], Split(rest, sep), sep);
      CutAt(s, k, sep);
    }
  }

  lemma JoinCons(x: string, r: seq<string>, sep: char)
    requires r != []
    ensures Join([sep], [x] + r) == x + [sep] + Join([sep], r)
  {
    assert ([x] + r)[1..] == r;
  }

  /** Text cut around its first separator. */
  lemma CutAt(s: string, k: nat, sep: char)
    requires k < |s| && k == FindChar(s, sep)
    ensures Split(s, sep) == [s[..k]] + Split(s[k + 1..], sep)
    ensures s == s[..k] + [sep] + s[k + 1..]
  {
  }

  /** A piece without the separator, then the separator: that piece comes first. */
  lemma SplitAfterPiece(a: string, b: string, sep: char)
    requires sep !in a
    ensures Split(a + [sep] + b, sep) == [a] + Split(b, sep)
  {
    var s := a + [sep] + b;
    assert s[|a|] == sep;
    assert FindChar(s, sep) == |a|;
    assert s[..|a|] == a && s[|a| + 1..] == b;
  }

  /** A separator and a piece without it at the end: that piece comes last. */
  lemma {:induction false} SplitBeforePiece(a: string, b: string, sep: char)
    requires sep !in b
    ensures Split(a + [sep] + b, sep) == Split(a, sep) + [b]
    decreases |a|
  {
    var s := a + [sep] + b;
    var k := FindChar(a, sep);
    if k < 0 {
      SplitAfterPiece(a, b, sep);
      NoSepSplit(b, sep);
    } else {
      assert s[k] == sep && FindChar(s, sep) == k;
      var a' := a[k + 1..];
      assert s[..k] == a[..k] && s[k + 1..] == a' + [sep] + b;
      SplitBeforePiece(a', b, sep);
    }
  }

  /** Text without the separator appended to a string lengthens its last piece. */
  lemma {:induction false} SplitExtendLast(a: string, w: string, sep: char)
    requires sep !in w
    ensures var r := Split(a, sep);
            Split(a + w, sep) == r[..|r| - 1] + [r[|r| - 1] + w]
    decreases |a|
  {
    var s := a + w;
    var k := FindChar(a, sep);
    if k < 0 {
      NoSepSplit(a, sep);
      NoSepSplit(s, sep);
    } else {
      assert s[k] == sep && FindChar(s, sep) == k;
      var a' := a[k + 1..];
      assert s[..k] == a[..k] && s[k + 1..] == a' + w;
      SplitExtendLast(a', w, sep);
    }
  }

  /** A string without the separator is a single piece. */
  lemma NoSepSplit(s: string, sep: char)
    requires sep !in s
    ensures Split(s, sep) == [s]
  {
    assert FindChar(s, sep) == -1;
  }

  /** Every piece of `split(sep)` occurs in the string. */
  lemma {:induction false} SplitPieceAt(s: string, sep: char, m: nat) returns (a: int)
    requires m < |Split(s, sep)|
    ensures OccursAt(s, Split(s, sep)[m], a)
    decreases |s|
  {
    var k := FindChar(s, sep);
    if k < 0 {
      a := 0;
      assert s[0..|s|] == s;
    } else if m == 0 {
      a := 0;
      assert s[0..k] == s[..k];
    } else {
      var rest := s[k + 1..];
      var b := SplitPieceAt(rest, sep, m - 1);
      assert OccursAt(s, rest, k + 1);
      OccursTrans(s, rest, Split(s, sep)[m], k + 1, b);
      a := k + 1 + b;
    }
  }

  /** Python's `s.split()` with no argument: the maximal runs of non-space characters. */
  function SplitWords(s: string): seq<string>
    decreases |s|
  {
    var t := LStrip(s);
    if t == [] then []
    else
      var n := WordLength(t);
      [t[..n]] + SplitWords(t[n..])
  }

  /** A string without spaces. */
  predicate NoSpace(w: string)
  {
    forall j :: 0 <= j < |w| ==> !IsSpace(w[j])
  }

  /** Every word of `split()` is a non-empty run of non-space characters that occurs in the string. */
  lemma WordAt(s: string, m: nat) returns (a: int)
    requires m < |SplitWords(s)|
    ensures OccursAt(s, SplitWords(s)[m], a)
    ensures SplitWords(s)[m] != [] && NoSpace(SplitWords(s)[m])
  {
    WordShape(s, m);
    AllWordsOccur(s);
    assert OccursIn(s, SplitWords(s)[m]);
    a :| OccursAt(s, SplitWords(s)[m], a);
  }

  /** Every element occurs somewhere in `s`. */
  ghost predicate WordsOccur(s: string, ws: seq<string>)
  {
    forall m :: 0 <= m < |ws| ==> OccursIn(s, ws[m])
  }

  /** `w` occurs at some position of `s`. */
  ghost predicate OccursIn(s: string, w: string)
  {
    exists a :: OccursAt(s, w, a)
  }

  lemma {:induction false} AllWordsOccur(s: string)
    ensures WordsOccur(s, SplitWords(s))
    decreases |s|
  {
    if SplitWords(s) != [] {
      var k, t, n := SplitWordsFirst(s);
      AllWordsOccur(t[n..]);
      WordsOccurCons(s, t, k, n, SplitWords(t[n..]), SplitWords(s));
    }
  }

  lemma WordsOccurCons(s: string, t: string, k: int, n: nat, rest: seq<string>, ws: seq<string>)
    requires OccursAt(s, t, k) && n <= |t| && ws == [t[..n]] + rest && WordsOccur(t[n..], rest)
    ensures WordsOccur(s, ws)
  {
    forall m | 0 <= m < |ws|
      ensures OccursIn(s, ws[m])
    {
      if m == 0 {
        OccursPrefix(s, t, k, n);
        assert OccursAt(s, ws[0], k);
      } else {
        var w := rest[m - 1];
        assert ws[m] == w;
        assert OccursIn(t[n..], w);
        var b :| OccursAt(t[n..], w, b);
        var a := WordAtLater(s, t, k, n, b, w);
        assert OccursAt(s, ws[m], a);
      }
    }
  }

  lemma WordShape(s: string, m: nat)
    requires m < |SplitWords(s)|
    ensures SplitWords(s)[m] != [] && NoSpace(SplitWords(s)[m])
  {
    AllWordsShaped(s);
  }

  /** Every element is a non-empty string without spaces. */
  ghost predicate WordsShaped(ws: seq<string>)
  {
    forall m :: 0 <= m < |ws| ==> ws[m] != [] && NoSpace(ws[m])
  }

  lemma {:induction false} AllWordsShaped(s: string)
    ensures WordsShaped(SplitWords(s))
    decreases |s|
  {
    if SplitWords(s) != [] {
      var k, t, n := SplitWordsFirst(s);
      AllWordsShaped(t[n..]);
      WordsShapedCons(t[..n], SplitWords(t[n..]), SplitWords(s));
    }
  }

  lemma WordsShapedCons(x: string, rest: seq<string>, ws: seq<string>)
    requires ws == [x] + rest && x != [] && NoSpace(x) && WordsShaped(rest)
    ensures WordsShaped(ws)
  {
    forall m | 0 <= m < |ws|
      ensures ws[m] != [] && NoSpace(ws[m])
    {
      if m > 0 {
        assert ws[m] == rest[m - 1];
      }
    }
  }

  /** Concatenation regrouped. */
  lemma AppendAssoc<T>(a: seq<T>, b: seq<T>, c: seq<T>)
    ensures a + (b + c) == (a + b) + c
  {
  }

  lemma AppendEmpty<T>(a: seq<T>)
    ensures a + [] == a && [] + a == a
  {
  }

  lemma ConsIndex<T>(xs: seq<T>, x: T, ys: seq<T>, m: nat)
    requires xs == [x] + ys && m < |xs|
    ensures m == 0 ==> xs[m] == x
    ensures m > 0 ==> xs[m] == ys[m - 1]
  {
  }

  /** The first word of a string with words, where it starts, and what is left after it. */
  lemma SplitWordsFirst(s: string) returns (k: int, t: string, n: nat)
    requires SplitWords(s) != []
    ensures OccursAt(s, t, k) && 0 < n <= |t| && |t[n..]| < |s| && NoSpace(t[..n])
    ensures SplitWords(s) == [t[..n]] + SplitWords(t[n..])
  {
    k := SkipSpace(s, 0);
    t := LStrip(s);
    n := WordLength(t);
    assert s[k..k + |t|] == t;
  }

  lemma WordAtLater(s: string, t: string, k: int, n: nat, b: int, w: string) returns (a: int)
    requires OccursAt(s, t, k) && n <= |t| && OccursAt(t[n..], w, b)
    ensures OccursAt(s, w, a)
  {
    assert OccursAt(t, t[n..], n);
    OccursTrans(t, t[n..], w, n, b);
    OccursTrans(s, t, w, k, n + b);
    a := k + n + b;
  }

  /** `strip()` leaves a string without spaces as it is. */
  lemma StripNoSpace(s: string)
    requires forall j :: 0 <= j < |s| ==> !IsSpace(s[j])
    ensures Strip(s) == s
  {
    if s != [] {
      assert SkipSpace(s, 0) == 0;
      assert SkipSpaceBack(s, |s|) == |s|;
      assert s[0..|s|] == s;
    }
  }

  /** Length of the run of non-space characters that starts `s`. */
  function WordLength(s: string): (n: nat)
    ensures n <= |s|
    ensures forall j :: 0 <= j < n ==> !IsSpace(s[j])
    ensures n < |s| ==> IsSpace(s[n])
    ensures s != [] && !IsSpace(s[0]) ==> n > 0
  {
    if s == [] || IsSpace(s[0]) then 0 else 1 + WordLength(s[1..])
  }

  /** Index of the first `splitlines` break character in `s`, or `|s|`. */
  function LineBreakIndex(s: string): (k: nat)
    ensures k <= |s|
    ensures k < |s| ==> IsLineBreak(s[k])
  {
    if s == [] || IsLineBreak(s[0]) then 0 else 1 + LineBreakIndex(s[1..])
  }

  /** No break comes before the one `LineBreakIndex` finds. */
  lemma {:induction false} LineBreakIndexFirst(s: string)
    ensures forall j :: 0 <= j < LineBreakIndex(s) ==> !IsLineBreak(s[j])
    decreases |s|
  {
    if s != [] && !IsLineBreak(s[0]) {
      LineBreakIndexFirst(s[1..]);
      assert forall j :: 1 <= j < LineBreakIndex(s) ==> s[j] == s[1..][j - 1];
    }
  }

  /** Python's `s.splitlines()`: `\r\n` counts as one break and a final break adds no empty line. */
  function SplitLines(s: string): (r: seq<string>)
    decreases |s|
  {
    if s == [] then []
    else
      var k := LineBreakIndex(s);
      if k == |s| then [s]
      else if s[k] == '\r' && k + 1 < |s| && s[k + 1] == '\n' then [s[..k]] + SplitLines(s[k + 2..])
      else [s[..k]] + SplitLines(s[k + 1..])
  }

  /**
   * The lines of `a + "\n" + t` are some lines cut from `a` followed by the
   * lines of `t`, provided `a` does not end in a carriage return (which would
   * pair with the newline); a string `a` avoids, its lines avoid too.
   */
  lemma {:induction false} SplitLinesAfter(a: string, t: string, q: string) returns (pre: seq<string>)
    requires a == [] || a[|a| - 1] != '\r'
    requires !Contains(a, q)
    ensures SplitLines(a + "\n" + t) == pre + SplitLines(t)
    ensures forall i :: 0 <= i < |pre| ==> !Contains(pre[i], q)
    decreases |a|
  {
    var k, next := FirstLineBefore(a, t);
    if k == |a| {
      pre := [a];
    } else {
      if Contains(a[..k], q) {
        ContainsFromSlice(a, 0, k, q);
      }
      var a' := a[next..];
      if Contains(a', q) {
        ContainsFromSlice(a, next, |a|, q);
      }
      var rest := SplitLinesAfter(a', t, q);
      pre := [a[..k]] + rest;
    }
  }

  /** The first line of `a + "\n" + t`: all of `a`, or a part of `a` ending at a break, with the lines after it still ending in `t`. */
  lemma FirstLineBefore(a: string, t: string) returns (k: nat, next: nat)
    requires a == [] || a[|a| - 1] != '\r'
    ensures k <= |a|
    ensures k == |a| ==> SplitLines(a + "\n" + t) == [a] + SplitLines(t)
    ensures k < |a| ==> k < next <= |a| && a[next..] == a[next..|a|]
                        && SplitLines(a + "\n" + t) == [a[..k]] + SplitLines(a[next..] + "\n" + t)
  {
    var s := a + "\n" + t;
    k := LineBreakIndex(s);
    LineBreakIndexFirst(s);
    assert s[|a|] == '\n' && IsLineBreak(s[|a|]);
    if k == |a| {
      next := k;
      WholeFirstLine(a, t);
    } else {
      next := BreakInsideFirst(a, t, k);
    }
  }

  lemma WholeFirstLine(a: string, t: string)
    requires LineBreakIndex(a + "\n" + t) == |a|
    ensures SplitLines(a + "\n" + t) == [a] + SplitLines(t)
  {
    var s := a + "\n" + t;
    assert s[..|a|] == a && s[|a| + 1..] == t;
  }

  lemma BreakInsideFirst(a: string, t: string, k: nat) returns (next: nat)
    requires a == [] || a[|a| - 1] != '\r'
    requires k == LineBreakIndex(a + "\n" + t) < |a|
    ensures k < next <= |a| && a[next..] == a[next..|a|]
    ensures SplitLines(a + "\n" + t) == [a[..k]] + SplitLines(a[next..] + "\n" + t)
  {
    var s := a + "\n" + t;
    assert s[..k] == a[..k];
    next := if s[k] == '\r' && k + 1 < |s| && s[k + 1] == '\n' then k + 2 else k + 1;
    assert s[k] == a[k] && next <= |a|;
    assert s == a[..next] + (a[next..] + "\n" + t);
  }

  /** Text in which `splitlines` finds no break: a single line. */
  predicate SingleLine(s: string)
  {
    forall i :: 0 <= i < |s| ==> !IsLineBreak(s[i])
  }

  /** Text whose only line breaks are newlines (no `\r`, form feed, ...). */
  predicate NewlinesOnly(s: string)
  {
    forall i :: 0 <= i < |s| && IsLineBreak(s[i]) ==> s[i] == '\n'
  }

  /** Cutting text whose only breaks are newlines at its newlines gives single lines. */
  lemma {:induction false} SplitSingleLines(s: string)
    requires NewlinesOnly(s)
    ensures forall i :: 0 <= i < |Split(s, '\n')| ==> SingleLine(Split(s, '\n')[i])
    decreases |s|
  {
    var k := FindChar(s, '\n');
    if k < 0 {
      assert Split(s, '\n') == [s];
    } else {
      var rest := s[k + 1..];
      assert NewlinesOnly(rest) by {
        assert forall j :: 0 <= j < |rest| ==> rest[j] == s[k + 1 + j];
      }
      SplitSingleLines(rest);
      assert SingleLine(s[..k]);
      SingleLinesCons(s[..k], Split(rest, '\n'), Split(s, '\n'));
    }
  }

  lemma SingleLinesCons(x: string, rest: seq<string>, r: seq<string>)
    requires r == [x] + rest && SingleLine(x)
    requires forall i :: 0 <= i < |rest| ==> SingleLine(rest[i])
    ensures forall i :: 0 <= i < |r| ==> SingleLine(r[i])
  {
    assert forall i :: 1 <= i < |r| ==> r[i] == rest[i - 1];
  }

  /** Pieces without the separator, joined by it, split back into the same pieces. */
  lemma {:induction false} SplitJoin(parts: seq<string>, sep: char)
    requires parts != [] && forall i :: 0 <= i < |parts| ==> sep !in parts[i]
    ensures Split(Join([sep], parts), sep) == parts
    decreases |parts|
  {
    if |parts| == 1 {
      NoSepSplit(parts[0], sep);
    } else {
      var rest := parts[1..];
      SplitJoin(rest, sep);
      SplitAfterPiece(parts[0], Join([sep], rest), sep);
      assert parts == [parts[0]] + rest;
    }
  }

  /** Single lines joined by newlines have newlines as their only breaks. */
  lemma {:induction false} JoinNewlinesOnly(lines: seq<string>)
    requires forall i :: 0 <= i < |lines| ==> SingleLine(lines[i])
    ensures NewlinesOnly(Join("\n", lines))
    decreases |lines|
  {
    if |lines| > 1 {
      var rest := lines[1..];
      JoinNewlinesOnly(rest);
      var a, b := lines[0], Join("\n", rest);
      var s := a + "\n" + b;
      assert forall i :: 0 <= i < |a| ==> s[i] == a[i];
      assert forall i :: |a| < i < |s| ==> s[i] == b[i - |a| - 1];
    }
  }

  /** Leading blanks only move the first non-blank. */
  lemma SkipBlankPrefix(w: string, t: string)
    requires AllSpace(w)
    ensures SkipSpace(w + t, 0) == |w| + SkipSpace(t, 0)
  {
    var s := w + t;
    var k := SkipSpace(t, 0);
    assert forall j :: 0 <= j < |t| ==> s[|w| + j] == t[j];
    if k < |t| {
      assert !IsSpace(s[|w| + k]);
    }
  }

  /** Text after a non-blank does not move the first non-blank. */
  lemma SkipBeforeText(t: string, u: string)
    requires SkipSpace(t, 0) < |t|
    ensures SkipSpace(t + u, 0) == SkipSpace(t, 0)
  {
    var s := t + u;
    var k := SkipSpace(t, 0);
    assert forall j :: 0 <= j < |t| ==> s[j] == t[j];
    assert !IsSpace(s[k]);
  }

  /** Trailing blanks do not move the end of the last non-blank. */
  lemma SkipBackBlankSuffix(t: string, w: string)
    requires AllSpace(w)
    ensures SkipSpaceBack(t + w, |t + w|) == SkipSpaceBack(t, |t|)
  {
    var s := t + w;
    var k := SkipSpaceBack(t, |t|);
    assert forall j :: 0 <= j < |t| ==> s[j] == t[j];
    assert forall j :: |t| <= j < |s| ==> IsSpace(s[j]);
    if k > 0 {
      assert !IsSpace(s[k - 1]);
    }
  }

  /** Text before a non-blank only shifts the end of the last non-blank. */
  lemma SkipBackAfterText(u: string, t: string)
    requires SkipSpaceBack(t, |t|) > 0
    ensures SkipSpaceBack(u + t, |u + t|) == |u| + SkipSpaceBack(t, |t|)
  {
    var s := u + t;
    var k := SkipSpaceBack(t, |t|);
    assert forall j :: 0 <= j < |t| ==> s[|u| + j] == t[j];
    assert !IsSpace(s[|u| + k - 1]);
  }

  /** `strip` ignores white space added at either end. */
  lemma StripPadded(w: string, x: string, w2: string)
    requires AllSpace(w) && AllSpace(w2)
    ensures Strip(w + x + w2) == Strip(x)
  {
    StripBlankSuffix(w + x, w2);
    StripBlankPrefix(w, x);
  }

  lemma StripBlankPrefix(w: string, t: string)
    requires AllSpace(w)
    ensures Strip(w + t) == Strip(t)
  {
    SkipBlankPrefix(w, t);
    var a := SkipSpace(t, 0);
    if a < |t| {
      StripAfterText(w, t, a, SkipSpaceBack(t, |t|));
    } else {
      StripAllBlank(w + t, a + |w|);
      StripAllBlank(t, a);
    }
  }

  /** Text with a non-blank at `a`: anything before it shifts the stripped slice without changing it. */
  lemma StripAfterText(u: string, t: string, a: nat, b: nat)
    requires a < |t| && !IsSpace(t[a]) && SkipSpace(u + t, 0) == |u| + a
    requires SkipSpace(t, 0) == a && b == SkipSpaceBack(t, |t|)
    ensures Strip(u + t) == Strip(t)
  {
    BackPastText(t, a);
    SkipBackAfterText(u, t);
    SliceShift(u, t, a, b);
    StripBetween(u + t, |u| + a, |u| + b);
    StripBetween(t, a, b);
  }

  /** Strip keeps what lies between the leading and the trailing blanks. */
  lemma StripBetween(s: string, a: nat, b: nat)
    requires a == SkipSpace(s, 0) && b == SkipSpaceBack(s, |s|) && a < b
    ensures Strip(s) == s[a..b]
  {
  }

  lemma BackPastText(t: string, a: nat)
    requires a < |t| && !IsSpace(t[a])
    ensures SkipSpaceBack(t, |t|) > a
  {
  }

  lemma SliceShift(u: string, t: string, a: nat, b: nat)
    requires a <= b <= |t|
    ensures (u + t)[|u| + a..|u| + b] == t[a..b]
  {
  }

  /** Text that is blank up to its end strips to nothing. */
  lemma StripAllBlank(s: string, a: nat)
    requires a == SkipSpace(s, 0) && a == |s|
    ensures Strip(s) == []
  {
  }

  lemma StripBlankSuffix(t: string, w: string)
    requires AllSpace(w)
    ensures Strip(t + w) == Strip(t)
  {
    var s := t + w;
    var a := SkipSpace(t, 0);
    SkipBackBlankSuffix(t, w);
    if a < |t| {
      SkipBeforeText(t, w);
      assert s[a..SkipSpaceBack(t, |t|)] == t[a..SkipSpaceBack(t, |t|)];
    } else {
      SkipBlankPrefix(t, w);
    }
  }

  /**
   * `strip` of text ending in a non-blank `y`, put after text `r0` that ends
   * in a non-blank and blanks `w`: the stripped `r0`, some blanks, then `y`
   * (when `r0` strips to nothing, `y` must start with a non-blank).
   */
  lemma StripAppend(r0: string, w: string, y: string) returns (w': string)
    requires r0 == [] || !IsSpace(r0[|r0| - 1])
    requires AllSpace(w) && y != [] && !IsSpace(y[|y| - 1])
    requires Strip(r0) != [] || !IsSpace(y[0])
    ensures AllSpace(w') && Strip(r0 + w + y) == Strip(r0) + w' + y
  {
    if SkipSpace(r0, 0) < |r0| {
      StripAppendKept(r0, w, y);
      w' := w;
    } else {
      assert r0 == [] && r0 + w + y == w + y;
      StripBlankPrefix(w, y);
      assert SkipSpace(y, 0) == 0;
      assert SkipSpaceBack(y, |y|) == |y|;
      w' := [];
    }
  }

  lemma StripAppendKept(r0: string, w: string, y: string)
    requires r0 != [] && !IsSpace(r0[|r0| - 1]) && SkipSpace(r0, 0) < |r0|
    requires y != [] && !IsSpace(y[|y| - 1])
    ensures Strip(r0 + w + y) == Strip(r0) + w + y
  {
    var s := r0 + w + y;
    assert s[|s| - 1] == y[|y| - 1];
    StripOfTextEnd(r0);
    StripOfTextEnd(s);
    SkipBeforeText(r0, w);
    SkipBeforeText(r0 + w, y);
    TailSlice(r0, w, y, SkipSpace(r0, 0));
  }

  /** Text ending in a non-blank strips to the part from its first non-blank. */
  lemma StripOfTextEnd(s: string)
    requires s != [] && !IsSpace(s[|s| - 1])
    ensures SkipSpace(s, 0) < |s| && Strip(s) == s[SkipSpace(s, 0)..]
  {
    assert SkipSpaceBack(s, |s|) == |s|;
  }

  /** A word that the stripped string starts with is in the slice it is taken from. */
  lemma StripStartsSlice(l: string, m: string)
    requires m != [] && StartsWith(Strip(l), m)
    ensures var a, b := SkipSpace(l, 0), SkipSpaceBack(l, |l|);
            a < b && StartsWith(l[a..b], m)
  {
    StripSlice(l);
  }

  /** Where a word that the stripped string starts with sits in the string. */
  lemma StrippedStartsAt(l: string, m: string, a: nat, b: nat)
    requires a == SkipSpace(l, 0) && b == SkipSpaceBack(l, |l|)
    requires a < b && StartsWith(l[a..b], m)
    ensures a + |m| <= b && l[a..a + |m|] == m && Strip(l)[|m|..] == l[a + |m|..b]
  {
    SliceStarts(l, a, b, m);
  }

  /** A word that a slice starts with, located in the sliced string. */
  lemma SliceStarts(l: string, a: nat, b: nat, m: string)
    requires a <= b <= |l| && StartsWith(l[a..b], m)
    ensures a + |m| <= b && l[a..a + |m|] == m && l[a..b][|m|..] == l[a + |m|..b]
  {
    SliceOfSlice(l, a, b, |m|);
  }

  /** A non-blank string stripped: the slice between its outer blanks. */
  lemma StripSlice(l: string)
    requires Strip(l) != []
    ensures var a, b := SkipSpace(l, 0), SkipSpaceBack(l, |l|);
            a < b && Strip(l) == l[a..b]
  {
  }

  /** Concatenation regrouped. */
  lemma Regroup<T>(a: seq<T>, b: seq<T>, c: seq<T>)
    ensures a + (b + c) == a + b + c
  {
  }

  /** A non-empty sequence is its front and its last element. */
  lemma SnocLast<T>(r: seq<T>)
    requires r != []
    ensures r[..|r| - 1] + [r[|r| - 1]] == r
  {
  }

  /** A slice of a slice, and the prefix of it. */
  lemma SliceOfSlice(s: string, a: nat, b: nat, c: nat)
    requires a + c <= b <= |s|
    ensures s[a..b][c..] == s[a + c..b] && s[a..b][..c] == s[a..a + c]
  {
  }

  /** Text ending in a non-blank appended to a non-blank string: the stripped result runs to the end. */
  lemma StripAppended(l: string, y: string)
    requires SkipSpace(l, 0) < |l| && y != [] && !IsSpace(y[|y| - 1])
    ensures Strip(l + y) == (l + y)[SkipSpace(l, 0)..]
  {
    var s := l + y;
    assert s[|s| - 1] == y[|y| - 1];
    SkipBeforeText(l, y);
    StripOfTextEnd(s);
  }

  /** What `rstrip` removes is blank. */
  lemma BackTail(l: string)
    ensures AllSpace(l[SkipSpaceBack(l, |l|)..])
  {
    var b := SkipSpaceBack(l, |l|);
    assert forall i :: 0 <= i < |l| - b ==> l[b..][i] == l[b + i];
  }

  /** `strip` after `rstrip` is `strip`. */
  lemma StripOfRStrip(l: string)
    ensures Strip(l[..SkipSpaceBack(l, |l|)]) == Strip(l)
  {
    var b := SkipSpaceBack(l, |l|);
    BackTail(l);
    assert l == l[..b] + l[b..];
    StripBlankSuffix(l[..b], l[b..]);
  }

  /** A string ending in a non-blank keeps that last character when stripped. */
  lemma StripKeepsLast(s: string)
    requires s != [] && !IsSpace(s[|s| - 1])
    ensures Strip(s) != [] && Strip(s)[|Strip(s)| - 1] == s[|s| - 1]
  {
    StripOfTextEnd(s);
  }

  /** Whether a slice starts with `m` is decided by its first `|m|` characters. */
  lemma StartsWithAt(s: string, a: nat, b: nat, m: string)
    requires a + |m| <= b <= |s|
    ensures StartsWith(s[a..b], m) <==> s[a..a + |m|] == m
  {
    SliceOfSlice(s, a, b, |m|);
  }

  /** Appending leaves the slices of the first part alone. */
  lemma PrefixOfAppend(l: string, y: string, a: nat, c: nat)
    requires a <= c <= |l|
    ensures (l + y)[a..c] == l[a..c]
  {
  }

  lemma TailSlice(r0: string, w: string, y: string, c: nat)
    requires c <= |r0|
    ensures (r0 + w + y)[c..] == r0[c..] + w + y
  {
  }

  /** Python's `str.lower()` restricted to ASCII letters. */
  function AsciiLower(s: string): (r: string)
    ensures |r| == |s|
  {
    seq(|s|, i requires 0 <= i < |s| => if 'A' <= s[i] <= 'Z' then (s[i] as int + 32) as char else s[i])
  }

  /** Two characters are equal when ASCII letter case is ignored. */
  predicate CharEqIgnoringCase(a: char, b: char)
  {
    a == b || ('A' <= a <= 'Z' && a as int + 32 == b as int) || ('A' <= b <= 'Z' && b as int + 32 == a as int)
  }

  /** `q` occurs at index `k` of `s`, ignoring ASCII case (the regex flag IGNORECASE). */
  predicate OccursAtIgnoringCase(s: string, q: string, k: nat)
  {
    k + |q| <= |s| && forall j :: 0 <= j < |q| ==> CharEqIgnoringCase(s[k + j], q[j])
  }

  /** The first index at or after `from` where `q` occurs ignoring case, or -1. */
  function FindIgnoringCase(s: string, q: string, from: nat): (r: int)
    decreases |s| - from
    ensures r == -1 || (from <= r && r + |q| <= |s|)
  {
    if from + |q| > |s| then -1
    else if OccursAtIgnoringCase(s, q, from) then from
    else FindIgnoringCase(s, q, from + 1)
  }

  /** `FindIgnoringCase` finds an occurrence, and the first one at or after `from`. */
  lemma {:induction false} FindIgnoringCaseSpec(s: string, q: string, from: nat)
    decreases |s| - from
    ensures var r := FindIgnoringCase(s, q, from);
            (r == -1 || OccursAtIgnoringCase(s, q, r)) &&
            forall k: nat :: from <= k && (r == -1 || k < r) ==> !OccursAtIgnoringCase(s, q, k)
  {
    if from + |q| <= |s| && !OccursAtIgnoringCase(s, q, from) {
      FindIgnoringCaseSpec(s, q, from + 1);
    }
  }

  function DigitChar(d: nat): char
    requires d < 10
  {
    "0123456789"[d]
  }

  /** Python's `str(n)` for a natural number. */
  function NatToString(n: nat): (r: string)
    ensures r != []
  {
    if n < 10 then [DigitChar(n)] else NatToString(n / 10) + [DigitChar(n % 10)]
  }

  /** Python's `str(i)` for an integer. */
  function IntToString(i: int): string
  {
    if i < 0 then "-" + NatToString(-i) else NatToString(i)
  }

  /** Index of the first element at or after `from` that satisfies `p`. */
  function FirstWhere<T>(xs: seq<T>, p: T -> bool, from: nat): (r: Option<nat>)
    decreases |xs| - from
    ensures r.Some? ==> from <= r.value < |xs|
  {
    if from >= |xs| then None
    else if p(xs[from]) then Some(from)
    else FirstWhere(xs, p, from + 1)
  }

  /** The element found satisfies `p`, and no element between `from` and it (or the end) does. */
  lemma {:induction false} FirstWhereIsFirst<T>(xs: seq<T>, p: T -> bool, from: nat)
    ensures FirstWhere(xs, p, from).Some? ==> p(xs[FirstWhere(xs, p, from).value])
    ensures forall k :: from <= k < |xs| && (FirstWhere(xs, p, from).None? || k < FirstWhere(xs, p, from).value) ==>
              !p(xs[k])
    decreases |xs| - from
  {
    if from < |xs| && !p(xs[from]) {
      FirstWhereIsFirst(xs, p, from + 1);
    }
  }

  /** Elements at positions `from` .. `stop` that fail `p` are skipped by the search. */
  lemma {:induction false} FirstWhereSkips<T>(xs: seq<T>, p: T -> bool, from: nat, stop: nat)
    requires from <= stop <= |xs|
    requires forall i :: from <= i < stop ==> !p(xs[i])
    ensures FirstWhere(xs, p, from) == FirstWhere(xs, p, stop)
    decreases stop
  {
    if from < stop {
      FirstWhereSkips(xs, p, from, stop - 1);
    }
  }

  function ShiftBy(r: Option<nat>, n: nat): Option<nat>
  {
    match r
    case None => None
    case Some(i) => Some(i + n)
  }

  /** Searching past a prefix finds what the search of the rest finds, shifted by the prefix's length. */
  lemma {:induction false} FirstWhereAfter<T>(pre: seq<T>, xs: seq<T>, p: T -> bool, j: nat)
    requires j <= |xs|
    ensures FirstWhere(pre + xs, p, j + |pre|) == ShiftBy(FirstWhere(xs, p, j), |pre|)
    decreases |xs| - j
  {
    var all := pre + xs;
    if j < |xs| {
      assert all[j + |pre|] == xs[j];
      FirstWhereAfter(pre, xs, p, j + 1);
    }
  }

  /** A line ended by a break other than `\r` is the first line `splitlines` cuts. */
  lemma SplitLinesAtBreak(l: string, c: char, rest: string)
    requires SingleLine(l) && IsLineBreak(c) && c != '\r'
    ensures SplitLines(l + [c] + rest) == [l] + SplitLines(rest)
  {
    var s := l + [c] + rest;
    var k := LineBreakIndex(s);
    LineBreakIndexFirst(s);
    assert s[|l|] == c;
    assert s[..k] == l && s[k + 1..] == rest;
  }
}
