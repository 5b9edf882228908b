/**
  The string utilities of the userscript: `normalizeText`, `truncateText`,
  substring search (`String.prototype.includes`) and the lower-casing the
  relevance sort uses.
*/
module Text {
  import Seqs

  /** JavaScript whitespace: the WhiteSpace and LineTerminator characters of
      ECMA-262, which is what `/\s/` matches and what `String.prototype.trim`
      removes. */
  predicate IsSpace(c: char)
  {
    || c == '\t' || c == '\n' || c == '\U{B}' || c == '\U{C}' || c == '\r' || c == ' '
    || c == '\U{A0}' || c == '\U{1680}' || ('\U{2000}' <= c <= '\U{200A}')
    || c == '\U{2028}' || c == '\U{2029}' || c == '\U{202F}' || c == '\U{205F}'
    || c == '\U{3000}' || c == '\U{FEFF}'
  }

  predicate IsVisibleChar(c: char)
  {
    !IsSpace(c)
  }

  predicate NoSpace(s: string)
  {
    forall i :: 0 <= i < |s| ==> !IsSpace(s[i])
  }

  /** `sub` occurs in `s` starting at index `i`. */
  predicate ContainsAt(s: string, sub: string, i: int)
  {
    0 <= i && i + |sub| <= |s| && s[i..i + |sub|] == sub
  }

  /** `s.includes(sub)`; every string includes the empty string. */
  predicate Contains(s: string, sub: string)
  {
    exists i | 0 <= i <= |s| :: ContainsAt(s, sub, i)
  }

  lemma ContainsInfix(p: string, w: string, q: string)
    ensures Contains(p + w + q, w)
  {
    assert (p + w + q)[|p|..|p| + |w|] == w;
    assert ContainsAt(p + w + q, w, |p|);
  }

  // ----- normalizeText -----

  /** `s.replace(/\s+/g, ' ')` on the rest of a string, where `inRun` says that
      the character before `s` was whitespace (its run already gave a space). */
  function CollapseRuns(s: string, inRun: bool): string
  {
    if s == [] then []
    else if IsSpace(s[0]) then (if inRun then "" else " ") + CollapseRuns(s[1..], true)
    else [s[0]] + CollapseRuns(s[1..], false)
  }

  /** `trimStart`: drops the leading whitespace and nothing else. */
  function TrimStart(s: string): string
  {
    if s != [] && IsSpace(s[0]) then TrimStart(s[1..]) else s
  }

  lemma {:induction false} TrimStartShape(s: string)
    ensures |TrimStart(s)| <= |s| && TrimStart(s) == s[|s| - |TrimStart(s)|..]
    ensures forall i :: 0 <= i < |s| - |TrimStart(s)| ==> IsSpace(s[i])
    ensures TrimStart(s) == [] || !IsSpace(TrimStart(s)[0])
  {
    if s != [] && IsSpace(s[0]) {
      var t := s[1..];
      TrimStartShape(t);
      var r := TrimStart(t);
      assert TrimStart(s) == r;
      assert t[|t| - |r|..] == s[|s| - |r|..];
      forall i | 0 <= i < |s| - |r| ensures IsSpace(s[i]) {
        if i > 0 { assert s[i] == t[i - 1]; }
      }
    }
  }

  /** `trimEnd`: drops the trailing whitespace and nothing else. */
  function TrimEnd(s: string): string
  {
    if s != [] && IsSpace(s[|s| - 1]) then TrimEnd(s[..|s| - 1]) else s
  }

  lemma {:induction false} TrimEndShape(s: string)
    ensures |TrimEnd(s)| <= |s| && TrimEnd(s) == s[..|TrimEnd(s)|]
    ensures forall i :: |TrimEnd(s)| <= i < |s| ==> IsSpace(s[i])
    ensures TrimEnd(s) == [] || !IsSpace(TrimEnd(s)[|TrimEnd(s)| - 1])
  {
    if s != [] && IsSpace(s[|s| - 1]) {
      var t := s[..|s| - 1];
      TrimEndShape(t);
      var r := TrimEnd(t);
      assert TrimEnd(s) == r;
      assert t[..|r|] == s[..|r|];
      forall i | |r| <= i < |s| ensures IsSpace(s[i]) {
        if i < |t| { assert s[i] == t[i]; }
      }
    }
  }

  /** `normalizeText(str)` = `(str || '').replace(/\s+/g, ' ').trim()`; an absent
      string is modelled as the empty one. */
  function Normalize(s: string): string
  {
    TrimEnd(TrimStart(CollapseRuns(s, false)))
  }

  /** The only whitespace is a plain space that is neither doubled nor at an end. */
  ghost predicate Canonical(r: string)
  {
    forall i :: 0 <= i < |r| && IsSpace(r[i]) ==> r[i] == ' ' && 0 < i < |r| - 1 && !IsSpace(r[i + 1])
  }

  /** Every whitespace character is a plain space followed by a non-space. */
  ghost predicate SingleSpaced(r: string)
  {
    forall i :: 0 <= i < |r| && IsSpace(r[i]) ==> r[i] == ' ' && (i + 1 < |r| ==> !IsSpace(r[i + 1]))
  }

  lemma {:induction false} CollapseShape(s: string, inRun: bool)
    ensures SingleSpaced(CollapseRuns(s, inRun))
    ensures inRun ==> CollapseRuns(s, inRun) == [] || !IsSpace(CollapseRuns(s, inRun)[0])
  {
    if s != [] {
      CollapseShape(s[1..], IsSpace(s[0]));
    }
  }

  lemma SingleSpacedSuffix(c: string, k: nat)
    requires SingleSpaced(c) && k <= |c|
    ensures SingleSpaced(c[k..])
  {
    var t := c[k..];
    forall i | 0 <= i < |t| && IsSpace(t[i])
      ensures t[i] == ' ' && (i + 1 < |t| ==> !IsSpace(t[i + 1]))
    {
      assert t[i] == c[k + i];
      if i + 1 < |t| { assert t[i + 1] == c[k + i + 1]; }
    }
  }

  lemma SingleSpacedPrefix(c: string, k: nat)
    requires SingleSpaced(c) && k <= |c|
    ensures SingleSpaced(c[..k])
  {
    var t := c[..k];
    forall i | 0 <= i < |t| && IsSpace(t[i])
      ensures t[i] == ' ' && (i + 1 < |t| ==> !IsSpace(t[i + 1]))
    {
      assert t[i] == c[i];
      if i + 1 < |t| { assert t[i + 1] == c[i + 1]; }
    }
  }

  /** The result of `normalizeText` is in normal form. */
  lemma NormalizeCanonical(s: string)
    ensures Canonical(Normalize(s))
  {
    var c := CollapseRuns(s, false);
    CollapseShape(s, false);
    var t := TrimStart(c);
    TrimStartShape(c);
    SingleSpacedSuffix(c, |c| - |t|);
    var u := TrimEnd(t);
    TrimEndShape(t);
    SingleSpacedPrefix(t, |u|);
    assert u == [] || !IsSpace(u[0]) by {
      if u != [] { assert u[0] == t[0]; }
    }
    assert u == Normalize(s);
    TrimmedCanonical(u);
  }

  /** Single spacing with no whitespace at either end is canonical. */
  lemma TrimmedCanonical(u: string)
    requires SingleSpaced(u)
    requires u == [] || (!IsSpace(u[0]) && !IsSpace(u[|u| - 1]))
    ensures Canonical(u)
  {
    forall i | 0 <= i < |u| && IsSpace(u[i])
      ensures u[i] == ' ' && 0 < i < |u| - 1 && !IsSpace(u[i + 1])
    {
    }
  }

  lemma {:induction false} CollapseFixed(r: string, inRun: bool)
    requires SingleSpaced(r)
    requires inRun ==> r == [] || !IsSpace(r[0])
    ensures CollapseRuns(r, inRun) == r
  {
    if r != [] {
      CollapseFixed(r[1..], IsSpace(r[0]));
      assert r == [r[0]] + r[1..];
    }
  }

  /** Normalizing twice is normalizing once. */
  lemma NormalizeIdempotent(s: string)
    ensures Normalize(Normalize(s)) == Normalize(s)
  {
    var r := Normalize(s);
    NormalizeCanonical(s);
    CollapseFixed(r, false);
  }

  /** The non-whitespace characters of a string, in order. */
  function VisibleChars(s: string): string
  {
    Seqs.Filter(s, IsVisibleChar)
  }

  lemma {:induction false} CollapseKeepsVisible(s: string, inRun: bool)
    ensures VisibleChars(CollapseRuns(s, inRun)) == VisibleChars(s)
  {
    if s != [] {
      CollapseKeepsVisible(s[1..], IsSpace(s[0]));
      var head := if IsSpace(s[0]) then (if inRun then "" else " ") else [s[0]];
      Seqs.FilterAppend(head, CollapseRuns(s[1..], IsSpace(s[0])), IsVisibleChar);
    }
  }

  lemma {:induction false} TrimStartKeepsVisible(s: string)
    ensures VisibleChars(TrimStart(s)) == VisibleChars(s)
  {
    if s != [] && IsSpace(s[0]) {
      TrimStartKeepsVisible(s[1..]);
    }
  }

  lemma {:induction false} TrimEndKeepsVisible(s: string)
    ensures VisibleChars(TrimEnd(s)) == VisibleChars(s)
  {
    if s != [] && IsSpace(s[|s| - 1]) {
      var init := s[..|s| - 1];
      TrimEndKeepsVisible(init);
      assert s == init + [s[|s| - 1]];
      Seqs.FilterAppend(init, [s[|s| - 1]], IsVisibleChar);
    }
  }

  /** `normalizeText` changes only whitespace: no visible character is lost,
      added or reordered. */
  lemma NormalizeKeepsVisible(s: string)
    ensures VisibleChars(Normalize(s)) == VisibleChars(s)
  {
    CollapseKeepsVisible(s, false);
    TrimStartKeepsVisible(CollapseRuns(s, false));
    TrimEndKeepsVisible(TrimStart(CollapseRuns(s, false)));
  }

  lemma {:induction false} CollapseWordPrefix(w: string, b: string, inRun: bool)
    requires w != [] && NoSpace(w)
    ensures CollapseRuns(w + b, inRun) == w + CollapseRuns(b, false)
  {
    assert (w + b)[1..] == w[1..] + b;
    if |w| > 1 {
      CollapseWordPrefix(w[1..], b, false);
    }
  }

  lemma {:induction false} CollapseAroundWord(a: string, w: string, b: string, inRun: bool)
    requires w != [] && NoSpace(w)
    ensures CollapseRuns(a + w + b, inRun) == CollapseRuns(a, inRun) + w + CollapseRuns(b, false)
  {
    if a == [] {
      assert a + w + b == w + b;
      CollapseWordPrefix(w, b, inRun);
    } else {
      assert (a + w + b)[1..] == a[1..] + w + b;
      CollapseAroundWord(a[1..], w, b, IsSpace(a[0]));
    }
  }

  lemma {:induction false} TrimStartBeforeVisible(x: string, y: string)
    requires y != [] && !IsSpace(y[0])
    ensures TrimStart(x + y) == TrimStart(x) + y
  {
    if x != [] {
      assert (x + y)[1..] == x[1..] + y;
      TrimStartBeforeVisible(x[1..], y);
    }
  }

  lemma {:induction false} TrimEndAfterVisible(x: string, y: string)
    requires x != [] && !IsSpace(x[|x| - 1])
    ensures TrimEnd(x + y) == x + TrimEnd(y)
    decreases |y|
  {
    if y != [] {
      var init := y[..|y| - 1];
      assert (x + y)[..|x + y| - 1] == x + init;
      TrimEndAfterVisible(x, init);
    }
  }

  /** A whitespace-free word present in a text is still present after
      `normalizeText`. */
  lemma NormalizeKeepsWord(a: string, w: string, b: string)
    requires w != [] && NoSpace(w)
    ensures Contains(Normalize(a + w + b), w)
  {
    var c := CollapseRuns(a, false);
    var d := CollapseRuns(b, false);
    CollapseAroundWord(a, w, b, false);
    var x := CollapseRuns(a + w + b, false);
    assert x == c + (w + d);
    TrimStartBeforeVisible(c, w + d);
    var p := TrimStart(c);
    var y := TrimStart(x);
    assert y == (p + w) + d;
    TrimEndAfterVisible(p + w, d);
    var z := TrimEnd(y);
    assert z == p + w + TrimEnd(d);
    assert z == Normalize(a + w + b);
    ContainsInfix(p, w, TrimEnd(d));
  }

  // ----- truncateText -----

  /** `truncateText(str, max)`: the normalized text, cut to `max` characters with
      an ellipsis when longer. */
  function TruncateText(s: string, max: nat := 50): (r: string)
    ensures |r| <= max + 3
    ensures |Normalize(s)| <= max ==> r == Normalize(s)
    ensures |Normalize(s)| > max ==> |r| == max + 3 && Normalize(s)[..max] <= r
  {
    if s == "" then ""
    else
      var t := Normalize(s);
      if |t| <= max then t else t[..max] + "..."
  }

  // ----- toLowerCase -----

  function LowerChar(c: char): (d: char)
  {
    if 'A' <= c <= 'Z' then (c as int - 'A' as int + 'a' as int) as char else c
  }

  /** `toLowerCase` restricted to the ASCII letters.  For the lower-case ASCII
      keywords the relevance sort looks for this gives the same containment
      answer as full Unicode lower-casing. */
  function AsciiLower(s: string): (r: string)
    ensures |r| == |s|
    ensures forall i :: 0 <= i < |s| ==> r[i] == LowerChar(s[i])
  {
    seq(|s|, i requires 0 <= i < |s| => LowerChar(s[i]))
  }

  /** A string that includes `sub` includes every piece of it. */
  lemma ContainsPart(s: string, sub: string, a: nat, b: nat)
    requires Contains(s, sub) && a <= b <= |sub|
    ensures Contains(s, sub[a..b])
  {
    var i :| 0 <= i <= |s| && ContainsAt(s, sub, i);
    assert s[i + a..i + b] == sub[a..b] by {
      forall k | 0 <= k < b - a ensures s[i + a..i + b][k] == sub[a..b][k] {
        assert s[i..i + |sub|][a + k] == sub[a + k];
      }
    }
    assert ContainsAt(s, sub[a..b], i + a);
  }

  /** Lower-casing keeps every occurrence, lower-cased. */
  lemma ContainsLower(s: string, sub: string)
    requires Contains(s, sub)
    ensures Contains(AsciiLower(s), AsciiLower(sub))
  {
    var i :| 0 <= i <= |s| && ContainsAt(s, sub, i);
    var ls, lsub := AsciiLower(s), AsciiLower(sub);
    assert ls[i..i + |sub|] == lsub by {
      forall k | 0 <= k < |sub| ensures ls[i..i + |sub|][k] == lsub[k] {
        assert s[i..i + |sub|][k] == sub[k];
      }
    }
    assert ContainsAt(ls, lsub, i);
  }
}
