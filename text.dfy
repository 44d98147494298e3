/**
  The string operations the probe applies to remote command output, with
  Python's meaning: `str.isspace`, `str.strip()`, `str.split()` with no
  argument, `str.splitlines()`, and joining with a separator.
*/
module Text {

  /** Python's `str.isspace()` for one character. */
  predicate IsSpace(c: char) {
    var n := c as int;
    (9 <= n <= 13) || (28 <= n <= 32) || n == 0x85 || n == 0xA0 || n == 0x1680
    || (0x2000 <= n <= 0x200A) || n == 0x2028 || n == 0x2029 || n == 0x202F
    || n == 0x205F || n == 0x3000
  }

  /** The line boundaries of Python's `str.splitlines()` (`\r\n` is handled by SplitLines). */
  predicate IsLineBreak(c: char) {
    var n := c as int;
    (10 <= n <= 13) || (28 <= n <= 30) || n == 0x85 || n == 0x2028 || n == 0x2029
  }

  predicate AllSpace(s: string) {
    forall k :: 0 <= k < |s| ==> IsSpace(s[k])
  }

  /** A token that `str.split()` can return: not empty, no whitespace in it. */
  predicate IsWord(w: string) {
    w != [] && forall k :: 0 <= k < |w| ==> !IsSpace(w[k])
  }

  /** A string that holds no line boundary. */
  predicate IsLine(l: string) {
    forall k :: 0 <= k < |l| ==> !IsLineBreak(l[k])
  }

  /** `s.lstrip()`: the longest suffix of `s` that does not start with whitespace. */
  function TrimLeft(s: string): (r: string)
    ensures |r| <= |s| && r == s[|s| - |r|..]
    ensures forall k :: 0 <= k < |s| - |r| ==> IsSpace(s[k])
    ensures r != [] ==> !IsSpace(r[0])
  {
    if s != [] && IsSpace(s[0]) then TrimLeft(s[1..]) else s
  }

  /** `s.rstrip()`: the longest prefix of `s` that does not end with whitespace. */
  function TrimRight(s: string): (r: string)
    ensures |r| <= |s| && r == s[..|r|]
    ensures forall k :: |r| <= k < |s| ==> IsSpace(s[k])
    ensures r != [] ==> !IsSpace(r[|r| - 1])
  {
    if s != [] && IsSpace(s[|s| - 1]) then TrimRight(s[..|s| - 1]) else s
  }

  /** `s.strip()`. */
  function Strip(s: string): (r: string)
    ensures |r| <= |s|
    ensures r == [] <==> AllSpace(s)
    ensures r != [] ==> !IsSpace(r[0]) && !IsSpace(r[|r| - 1])
  {
    var t := TrimLeft(s);
    var r := TrimRight(t);
    assert t != [] ==> r != [] && r[0] == t[0];
    r
  }

  /** Length of the run of non-whitespace characters that starts `s`. */
  function TokenLength(s: string): (n: nat)
    ensures n <= |s|
    ensures forall k :: 0 <= k < n ==> !IsSpace(s[k])
    ensures n < |s| ==> IsSpace(s[n])
  {
    if s == [] || IsSpace(s[0]) then 0 else 1 + TokenLength(s[1..])
  }

  /** `s.split()`: the maximal runs of non-whitespace characters, in order. */
  function Split(s: string): (r: seq<string>)
    ensures forall k :: 0 <= k < |r| ==> IsWord(r[k])
    decreases |s|
  {
    var t := TrimLeft(s);
    if t == [] then []
    else
      var n := TokenLength(t);
      assert s[|s| - |t|] == t[0];
      var w := t[..n];
      assert IsWord(w);
      var rest := Split(t[n..]);
      WordsCons(w, rest);
      [w] + rest
  }

  /** Length of the prefix of `s` before its first line boundary. */
  function LineLength(s: string): (n: nat)
    ensures n <= |s|
    ensures forall k :: 0 <= k < n ==> !IsLineBreak(s[k])
    ensures n < |s| ==> IsLineBreak(s[n])
  {
    if s == [] || IsLineBreak(s[0]) then 0 else 1 + LineLength(s[1..])
  }

  /** `s.splitlines()`: the lines of `s` without their boundaries; a final boundary ends the last line. */
  function SplitLines(s: string): (r: seq<string>)
    ensures forall k :: 0 <= k < |r| ==> IsLine(r[k])
    ensures r == [] <==> s == []
    decreases |s|
  {
    if s == [] then []
    else
      var n := LineLength(s);
      if n == |s| then [s]
      else
        var next := if s[n] == '\r' && n + 1 < |s| && s[n + 1] == '\n' then n + 2 else n + 1;
        [s[..n]] + SplitLines(s[next..])
  }

  /** `sep.join(parts)`. */
  function Join(parts: seq<string>, sep: string): (r: string)
  {
    if parts == [] then ""
    else if |parts| == 1 then parts[0]
    else parts[0] + sep + Join(parts[1..], sep)
  }

  /** Whitespace that stays within one line, such as the runs that align the columns of a table. */
  predicate IsBlank(g: string) {
    AllSpace(g) && IsLine(g)
  }

  /** Runs that can separate the words of a line: each one non-empty and blank. */
  predicate Gaps(gaps: seq<string>) {
    forall k :: 0 <= k < |gaps| ==> gaps[k] != [] && IsBlank(gaps[k])
  }

  /** Words on one line with the run `gaps[k]` between `ws[k]` and `ws[k + 1]`. */
  function Spaced(ws: seq<string>, gaps: seq<string>): (r: string)
    requires |ws| <= |gaps| + 1
  {
    if ws == [] then ""
    else if |ws| == 1 then ws[0]
    else ws[0] + (gaps[0] + Spaced(ws[1..], gaps[1..]))
  }

  // ---------------------------------------------------------------------
  // Trimming

  lemma WordsCons(w: string, ws: seq<string>)
    requires IsWord(w) && forall k :: 0 <= k < |ws| ==> IsWord(ws[k])
    ensures forall k :: 0 <= k < |[w] + ws| ==> IsWord(([w] + ws)[k])
  {
    forall k | 0 <= k < |[w] + ws| ensures IsWord(([w] + ws)[k]) {
      if k > 0 { assert ([w] + ws)[k] == ws[k - 1]; }
    }
  }

  lemma {:induction false} TrimLeftSpace(p: string, s: string)
    requires AllSpace(p)
    ensures TrimLeft(p + s) == TrimLeft(s)
  {
    if p != [] {
      assert (p + s)[1..] == p[1..] + s;
      TrimLeftSpace(p[1..], s);
    } else {
      assert p + s == s;
    }
  }

  lemma {:induction false} TrimLeftAppend(a: string, b: string)
    requires !AllSpace(a)
    ensures TrimLeft(a + b) == TrimLeft(a) + b
  {
    if IsSpace(a[0]) {
      assert (a + b)[1..] == a[1..] + b;
      assert !AllSpace(a[1..]) by {
        var k :| 0 <= k < |a| && !IsSpace(a[k]);
        assert a[1..][k - 1] == a[k];
      }
      TrimLeftAppend(a[1..], b);
    }
  }

  lemma {:induction false} TrimRightAppend(a: string, b: string)
    requires !AllSpace(b)
    ensures TrimRight(a + b) == a + TrimRight(b)
  {
    var ab := a + b;
    if IsSpace(b[|b| - 1]) {
      assert ab[..|ab| - 1] == a + b[..|b| - 1];
      assert !AllSpace(b[..|b| - 1]) by {
        var k :| 0 <= k < |b| && !IsSpace(b[k]);
        assert b[..|b| - 1][k] == b[k];
      }
      TrimRightAppend(a, b[..|b| - 1]);
    }
  }

  /** Trailing whitespace does not change `rstrip()`. */
  lemma {:induction false} TrimRightSpace(x: string, p: string)
    requires AllSpace(p)
    ensures TrimRight(x + p) == TrimRight(x)
    decreases |p|
  {
    if p == [] {
      assert x + p == x;
    } else {
      var xp := x + p;
      assert xp[|xp| - 1] == p[|p| - 1];
      assert xp[..|xp| - 1] == x + p[..|p| - 1];
      TrimRightSpace(x, p[..|p| - 1]);
    }
  }

  /** Trailing whitespace does not change `strip()`. */
  lemma StripAppendSpace(x: string, p: string)
    requires AllSpace(p)
    ensures Strip(x + p) == Strip(x)
  {
    if AllSpace(x) {
      assert AllSpace(x + p) by {
        forall k | 0 <= k < |x + p| ensures IsSpace((x + p)[k]) {
          if k < |x| { assert (x + p)[k] == x[k]; } else { assert (x + p)[k] == p[k - |x|]; }
        }
      }
    } else {
      TrimLeftAppend(x, p);
      TrimRightSpace(TrimLeft(x), p);
    }
  }

  // ---------------------------------------------------------------------
  // Splitting into words

  lemma {:induction false} TokenLengthWord(w: string, rest: string)
    requires IsWord(w)
    requires rest == [] || IsSpace(rest[0])
    ensures TokenLength(w + rest) == |w|
  {
    if |w| > 1 {
      assert (w + rest)[1..] == w[1..] + rest;
      TokenLengthWord(w[1..], rest);
    } else {
      assert (w + rest)[1..] == rest;
    }
  }

  lemma {:induction false} TokenLengthAppendSpace(t: string, p: string)
    requires AllSpace(p)
    ensures TokenLength(t + p) == TokenLength(t)
  {
    if t == [] {
      assert t + p == p;
    } else if !IsSpace(t[0]) {
      assert (t + p)[1..] == t[1..] + p;
      TokenLengthAppendSpace(t[1..], p);
    }
  }

  /** `s.split()` is empty exactly when `s` is all whitespace. */
  lemma SplitEmpty(s: string)
    ensures Split(s) == [] <==> AllSpace(s)
  {
    if !AllSpace(s) {
      assert TrimLeft(s) != [];
    }
  }

  /** One step of Split, written out. */
  lemma SplitStep(s: string)
    requires TrimLeft(s) != []
    ensures var t := TrimLeft(s); var n := TokenLength(t);
      Split(s) == [t[..n]] + Split(t[n..])
  {
  }

  lemma TokenAppendSpace(t: string, p: string)
    requires AllSpace(p)
    ensures var n := TokenLength(t);
      TokenLength(t + p) == n && (t + p)[..n] == t[..n] && (t + p)[n..] == t[n..] + p
  {
    TokenLengthAppendSpace(t, p);
  }

  /** Leading whitespace does not change the split. */
  lemma SplitSkipsSpace(p: string, s: string)
    requires AllSpace(p)
    ensures Split(p + s) == Split(s)
  {
    TrimLeftSpace(p, s);
  }

  /** Trailing whitespace does not change the split. */
  lemma {:induction false} SplitAppendSpace(x: string, p: string)
    requires AllSpace(p)
    ensures Split(x + p) == Split(x)
    decreases |x|
  {
    if AllSpace(x) {
      assert AllSpace(x + p);
    } else {
      var t := TrimLeft(x);
      assert t != [];
      var n := TokenLength(t);
      TrimLeftAppend(x, p);
      SplitStep(x);
      SplitStep(x + p);
      TokenAppendSpace(t, p);
      SplitAppendSpace(t[n..], p);
    }
  }

  /** `s` is the whitespace that `s.lstrip()` removed, followed by `s.lstrip()`. */
  lemma TrimLeftParts(s: string)
    ensures var t := TrimLeft(s);
      s == s[..|s| - |t|] + t && AllSpace(s[..|s| - |t|])
  {
  }

  /** `s` is `s.rstrip()` followed by the whitespace that it removed. */
  lemma TrimRightParts(s: string)
    ensures var r := TrimRight(s);
      s == r + s[|r|..] && AllSpace(s[|r|..])
  {
    var r := TrimRight(s);
    forall k | 0 <= k < |s[|r|..]| ensures IsSpace(s[|r|..][k]) {
      assert s[|r|..][k] == s[|r| + k];
    }
  }

  /** `s.strip().split()` is `s.split()`. */
  lemma SplitStrip(s: string)
    ensures Split(Strip(s)) == Split(s)
  {
    var t := TrimLeft(s);
    TrimLeftParts(s);
    SplitSkipsSpace(s[..|s| - |t|], t);
    var r := TrimRight(t);
    TrimRightParts(t);
    SplitAppendSpace(r, t[|r|..]);
  }

  /** A word followed by whitespace or by nothing is split off as the first word. */
  lemma SplitWordFirst(w: string, rest: string)
    requires IsWord(w)
    requires rest == [] || IsSpace(rest[0])
    ensures Split(w + rest) == [w] + Split(rest)
  {
    var s := w + rest;
    TokenLengthWord(w, rest);
    assert s[0] == w[0];
    assert TrimLeft(s) == s;
    assert s[..|w|] == w;
    assert s[|w|..] == rest;
    SplitStep(s);
  }

  /** A word, a whitespace separator and more text: the word is split off and the separator skipped. */
  lemma SplitWordSep(w: string, sep: string, rest: string)
    requires IsWord(w)
    requires sep != [] && AllSpace(sep)
    ensures Split(w + (sep + rest)) == [w] + Split(rest)
  {
    SplitWordFirst(w, sep + rest);
    SplitSkipsSpace(sep, rest);
  }

  lemma JoinCons(parts: seq<string>, sep: string)
    requires |parts| > 1
    ensures Join(parts, sep) == parts[0] + (sep + Join(parts[1..], sep))
  {
  }

  lemma HeadTail<T>(xs: seq<T>)
    requires xs != []
    ensures xs == [xs[0]] + xs[1..]
  {
  }

  lemma WordsTail(ws: seq<string>)
    requires ws != [] && forall k :: 0 <= k < |ws| ==> IsWord(ws[k])
    ensures IsWord(ws[0]) && forall k :: 0 <= k < |ws[1..]| ==> IsWord(ws[1..][k])
  {
    forall k | 0 <= k < |ws[1..]| ensures IsWord(ws[1..][k]) {
      assert ws[1..][k] == ws[k + 1];
    }
  }

  lemma SplitJoinCons(ws: seq<string>, sep: string)
    requires |ws| > 1
    ensures Split(Join(ws, sep)) == Split(ws[0] + (sep + Join(ws[1..], sep)))
  {
    JoinCons(ws, sep);
  }

  lemma SplitJoinStep(ws: seq<string>, sep: string)
    requires |ws| > 1 && IsWord(ws[0])
    requires sep != [] && AllSpace(sep)
    requires Split(Join(ws[1..], sep)) == ws[1..]
    ensures Split(Join(ws, sep)) == ws
  {
    SplitJoinCons(ws, sep);
    SplitWordSep(ws[0], sep, Join(ws[1..], sep));
    HeadTail(ws);
  }

  lemma SplitWord(w: string)
    requires IsWord(w)
    ensures Split(w) == [w]
  {
    SplitWordFirst(w, []);
    assert w + [] == w;
  }

  /** Five words separated by single spaces split back into the five words. */
  lemma SplitFive(a: string, b: string, c: string, d: string, e: string)
    requires IsWord(a) && IsWord(b) && IsWord(c) && IsWord(d) && IsWord(e)
    ensures Split(a + " " + b + " " + c + " " + d + " " + e) == [a, b, c, d, e]
  {
    JoinFive(a, b, c, d, e);
    SplitJoin([a, b, c, d, e], " ");
  }

  /** Six words separated by single spaces split back into the six words. */
  lemma SplitSix(a: string, b: string, c: string, d: string, e: string, f: string)
    requires IsWord(a) && IsWord(b) && IsWord(c) && IsWord(d) && IsWord(e) && IsWord(f)
    ensures Split(a + " " + b + " " + c + " " + d + " " + e + " " + f) == [a, b, c, d, e, f]
  {
    JoinSix(a, b, c, d, e, f);
    SplitJoin([a, b, c, d, e, f], " ");
  }

  lemma JoinFive(a: string, b: string, c: string, d: string, e: string)
    ensures Join([a, b, c, d, e], " ") == a + " " + b + " " + c + " " + d + " " + e
  {
    var ws := [a, b, c, d, e];
    assert ws[1..] == [b, c, d, e] && ws[1..][1..] == [c, d, e] && ws[1..][1..][1..] == [d, e];
    assert ws[1..][1..][1..][1..] == [e];
    JoinCons(ws, " ");
    JoinCons(ws[1..], " ");
    JoinCons(ws[1..][1..], " ");
    JoinCons(ws[1..][1..][1..], " ");
  }

  lemma JoinSix(a: string, b: string, c: string, d: string, e: string, f: string)
    ensures Join([a, b, c, d, e, f], " ") == a + " " + b + " " + c + " " + d + " " + e + " " + f
  {
    var ws := [a, b, c, d, e, f];
    assert ws[1..] == [b, c, d, e, f];
    JoinFive(b, c, d, e, f);
  }

  /** Splitting words joined by a whitespace separator gives the words back. */
  lemma {:induction false} SplitJoin(ws: seq<string>, sep: string)
    requires forall k :: 0 <= k < |ws| ==> IsWord(ws[k])
    requires sep != [] && AllSpace(sep)
    ensures Split(Join(ws, sep)) == ws
  {
    if |ws| == 1 {
      SplitWord(ws[0]);
    } else if |ws| > 1 {
      WordsTail(ws);
      SplitJoin(ws[1..], sep);
      SplitJoinStep(ws, sep);
    }
  }

  lemma GapsTail(gaps: seq<string>)
    requires gaps != [] && Gaps(gaps)
    ensures gaps[0] != [] && IsBlank(gaps[0]) && Gaps(gaps[1..])
  {
    forall k | 0 <= k < |gaps[1..]| ensures gaps[1..][k] != [] && IsBlank(gaps[1..][k]) {
      assert gaps[1..][k] == gaps[k + 1];
    }
  }

  /** Words separated by any runs of blanks split back into the words: the spacing of aligned columns is lost. */
  lemma {:induction false} SplitSpaced(ws: seq<string>, gaps: seq<string>)
    requires |ws| <= |gaps| + 1
    requires forall k :: 0 <= k < |ws| ==> IsWord(ws[k])
    requires Gaps(gaps)
    ensures Split(Spaced(ws, gaps)) == ws
  {
    if |ws| == 1 {
      SplitWord(ws[0]);
    } else if |ws| > 1 {
      WordsTail(ws);
      GapsTail(gaps);
      SplitSpaced(ws[1..], gaps[1..]);
      SplitWordSep(ws[0], gaps[0], Spaced(ws[1..], gaps[1..]));
      HeadTail(ws);
    }
  }

  /** Words separated by blanks make one line, which neither starts nor ends with whitespace. */
  lemma {:induction false} SpacedLine(ws: seq<string>, gaps: seq<string>)
    requires |ws| <= |gaps| + 1
    requires forall k :: 0 <= k < |ws| ==> IsWord(ws[k])
    requires Gaps(gaps)
    ensures IsLine(Spaced(ws, gaps))
    ensures ws != [] ==> var s := Spaced(ws, gaps);
      s != [] && !IsSpace(s[0]) && !IsSpace(s[|s| - 1])
  {
    if |ws| == 1 {
      WordIsLine(ws[0]);
    } else if |ws| > 1 {
      WordsTail(ws);
      GapsTail(gaps);
      SpacedLine(ws[1..], gaps[1..]);
      var rest := Spaced(ws[1..], gaps[1..]);
      WordIsLine(ws[0]);
      ConcatIsLine(gaps[0], rest);
      ConcatIsLine(ws[0], gaps[0] + rest);
      var s := Spaced(ws, gaps);
      assert s[0] == ws[0][0];
      assert s[|s| - 1] == rest[|rest| - 1];
    }
  }

  // ---------------------------------------------------------------------
  // Splitting into lines

  lemma {:induction false} LineLengthLine(l: string, rest: string)
    requires IsLine(l)
    requires rest == [] || IsLineBreak(rest[0])
    ensures LineLength(l + rest) == |l|
  {
    if l == [] {
      assert l + rest == rest;
    } else {
      assert (l + rest)[1..] == l[1..] + rest;
      LineLengthLine(l[1..], rest);
    }
  }

  /** A non-empty string with no line boundary is one line. */
  lemma SplitLinesOne(l: string)
    requires IsLine(l) && l != []
    ensures SplitLines(l) == [l]
  {
    LineLengthLine(l, []);
    assert l + [] == l;
  }

  /** A line followed by `\n` is split off as the first line. */
  lemma SplitLinesCons(l: string, rest: string)
    requires IsLine(l)
    ensures SplitLines(l + "\n" + rest) == [l] + SplitLines(rest)
  {
    var s := l + "\n" + rest;
    assert s == l + ("\n" + rest);
    LineLengthLine(l, "\n" + rest);
    assert s[|l|] == '\n';
    assert s[..|l|] == l;
    assert s[|l| + 1..] == rest;
  }

  /** Splitting lines joined by `\n` gives the lines back, provided the last one is not empty. */
  lemma {:induction false} SplitLinesJoin(ls: seq<string>)
    requires ls != [] && ls[|ls| - 1] != []
    requires forall k :: 0 <= k < |ls| ==> IsLine(ls[k])
    ensures SplitLines(Join(ls, "\n")) == ls
  {
    if |ls| == 1 {
      SplitLinesOne(ls[0]);
    } else {
      var tail := ls[1..];
      assert tail[|tail| - 1] == ls[|ls| - 1];
      forall k | 0 <= k < |tail| ensures IsLine(tail[k]) {
        assert tail[k] == ls[k + 1];
      }
      SplitLinesJoin(tail);
      JoinCons(ls, "\n");
      assert ls[0] + ("\n" + Join(tail, "\n")) == ls[0] + "\n" + Join(tail, "\n");
      SplitLinesCons(ls[0], Join(tail, "\n"));
      HeadTail(ls);
    }
  }

  lemma WordIsLine(w: string)
    requires IsWord(w)
    ensures IsLine(w)
  {
    forall k | 0 <= k < |w| ensures !IsLineBreak(w[k]) {
      assert !IsSpace(w[k]);
    }
  }

  lemma ConcatIsLine(a: string, b: string)
    requires IsLine(a) && IsLine(b)
    ensures IsLine(a + b)
  {
    forall k | 0 <= k < |a + b| ensures !IsLineBreak((a + b)[k]) {
      if k < |a| { assert (a + b)[k] == a[k]; } else { assert (a + b)[k] == b[k - |a|]; }
    }
  }

  /** Lines joined by a separator without line boundaries make one line. */
  lemma {:induction false} JoinIsLine(ls: seq<string>, sep: string)
    requires forall k :: 0 <= k < |ls| ==> IsLine(ls[k])
    requires IsLine(sep)
    ensures IsLine(Join(ls, sep))
  {
    if |ls| > 1 {
      JoinIsLine(ls[1..], sep);
      ConcatIsLine(ls[0], sep);
      ConcatIsLine(ls[0] + sep, Join(ls[1..], sep));
    }
  }

  lemma JoinStartsWithFirst(ls: seq<string>, sep: string)
    requires ls != []
    ensures ls[0] <= Join(ls, sep)
  {
    if |ls| > 1 {
      assert Join(ls, sep) == ls[0] + (sep + Join(ls[1..], sep));
    }
  }

  lemma NotAllSpacePrefix(a: string, s: string)
    requires a <= s && !AllSpace(a)
    ensures !AllSpace(s)
  {
    var k :| 0 <= k < |a| && !IsSpace(a[k]);
    assert s[k] == a[k];
  }

  /** Counting the lines of a right-stripped listing whose lines each hold a non-blank character. */
  lemma {:induction false} CountLinesTrimRight(ls: seq<string>)
    requires ls != []
    requires forall k :: 0 <= k < |ls| ==> IsLine(ls[k]) && !AllSpace(ls[k])
    ensures |SplitLines(TrimRight(Join(ls, "\n")))| == |ls|
  {
    if |ls| == 1 {
      var r := TrimRight(ls[0]);
      assert r != [] by {
        var j :| 0 <= j < |ls[0]| && !IsSpace(ls[0][j]);
        assert j < |r|;
      }
      assert IsLine(r) by {
        forall k | 0 <= k < |r| ensures !IsLineBreak(r[k]) { assert r[k] == ls[0][k]; }
      }
      SplitLinesOne(r);
    } else {
      var tail := Join(ls[1..], "\n");
      JoinStartsWithFirst(ls[1..], "\n");
      NotAllSpacePrefix(ls[1], tail);
      TrimRightAppend(ls[0] + "\n", tail);
      assert Join(ls, "\n") == (ls[0] + "\n") + tail;
      SplitLinesCons(ls[0], TrimRight(tail));
      CountLinesTrimRight(ls[1..]);
    }
  }

  lemma TrimLeftLine(l: string)
    requires IsLine(l) && !AllSpace(l)
    ensures IsLine(TrimLeft(l)) && !AllSpace(TrimLeft(l))
  {
    var t := TrimLeft(l);
    var j :| 0 <= j < |l| && !IsSpace(l[j]);
    assert j >= |l| - |t|;
    assert t[0] == l[|l| - |t|];
    forall k | 0 <= k < |t| ensures !IsLineBreak(t[k]) {
      assert t[k] == l[k + (|l| - |t|)];
    }
  }

  lemma ConsParts<T>(x: T, xs: seq<T>)
    ensures |[x] + xs| == |xs| + 1 && ([x] + xs)[0] == x && ([x] + xs)[1..] == xs
  {
  }

  lemma TrimLeftJoin(ls: seq<string>)
    requires ls != [] && !AllSpace(ls[0])
    ensures TrimLeft(Join(ls, "\n")) == Join([TrimLeft(ls[0])] + ls[1..], "\n")
  {
    var ls' := [TrimLeft(ls[0])] + ls[1..];
    ConsParts(TrimLeft(ls[0]), ls[1..]);
    if |ls| > 1 {
      var rest := Join(ls[1..], "\n");
      JoinCons(ls, "\n");
      JoinCons(ls', "\n");
      TrimLeftAppend(ls[0], "\n" + rest);
    }
  }

  /**
    Stripping a listing whose lines each hold a non-blank character keeps one
    line per listed line: only the outer whitespace is removed.
  */
  lemma CountLinesStrip(ls: seq<string>)
    requires ls != []
    requires forall k :: 0 <= k < |ls| ==> IsLine(ls[k]) && !AllSpace(ls[k])
    ensures |SplitLines(Strip(Join(ls, "\n")))| == |ls|
  {
    var ls' := [TrimLeft(ls[0])] + ls[1..];
    TrimLeftLine(ls[0]);
    TrimLeftJoin(ls);
    forall k | 0 <= k < |ls'| ensures IsLine(ls'[k]) && !AllSpace(ls'[k]) {
      if k > 0 { assert ls'[k] == ls[k]; }
    }
    CountLinesTrimRight(ls');
  }
}
