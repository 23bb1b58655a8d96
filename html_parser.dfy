/** `src/lib/html-parser.ts`: flattening rich text to plain text for the
    PDF. Each regular-expression pass is a total function on strings; the
    DOM step that decodes entities is the parameter `decode`. */
module HtmlParser {
  import opened Wrappers
  import opened JsString

  /** Case folding of a non-Unicode regular expression with the `i` flag,
      as far as the ASCII patterns below need it. */
  function FoldAscii(c: char): char {
    if 'A' <= c <= 'Z' then (c as int + 32) as char else c
  }

  // ---------------------------------------------------------------------------
  // Pass 1: /<br\s*\/?>/gi -> "\n"

  /** The length of the `<br\s*\/?>` match at the start of `s`, or 0. The
      white space, the slash and the `>` exclude one another, so the greedy
      match is the only one. */
  function BrMatchLen(s: string): (n: nat)
    ensures n == 0 || (4 <= n <= |s| && s[0] == '<' && s[n - 1] == '>')
  {
    if |s| >= 3 && s[0] == '<' && FoldAscii(s[1]) == 'b' && FoldAscii(s[2]) == 'r' then
      var k := |s| - |TrimStart(s[3..])|;
      var k2 := if k < |s| && s[k] == '/' then k + 1 else k;
      if k2 < |s| && s[k2] == '>' then k2 + 1 else 0
    else 0
  }

  function ReplaceBr(s: string): (r: string)
    ensures '<' !in s ==> r == s
    decreases |s|
  {
    if s == [] then []
    else if BrMatchLen(s) > 0 then "\n" + ReplaceBr(s[BrMatchLen(s)..])
    else [s[0]] + ReplaceBr(s[1..])
  }

  /** Text before the first `<` is copied unchanged by the br pass. */
  lemma {:induction false} ReplaceBrSkipsText(a: string, t: string)
    requires '<' !in a
    ensures ReplaceBr(a + t) == a + ReplaceBr(t)
    decreases |a|
  {
    if a == [] {
      assert a + t == t;
    } else {
      var u := a + t;
      assert u[0] == a[0] && u[1..] == a[1..] + t;
      assert u[0] != '<';
      assert BrMatchLen(u) == 0;
      assert ReplaceBr(u) == [u[0]] + ReplaceBr(u[1..]);
      var rt := ReplaceBr(t);
      assert ReplaceBr(u[1..]) == a[1..] + rt by { ReplaceBrSkipsText(a[1..], t); }
      ConcatAssoc([a[0]], a[1..], rt);
      assert [a[0]] + a[1..] == a;
    }
  }

  lemma BrMatchOfTag(b: char, r: char, ws: string, slash: string, rest: string)
    requires FoldAscii(b) == 'b' && FoldAscii(r) == 'r'
    requires forall c :: c in ws ==> IsWhitespace(c)
    requires slash == "" || slash == "/"
    ensures BrMatchLen("<" + [b] + [r] + ws + slash + ">" + rest) == 4 + |ws| + |slash|
  {
    var tail := slash + ">" + rest;
    var s := "<" + [b] + [r] + ws + tail;
    assert s == "<" + [b] + [r] + ws + slash + ">" + rest;
    assert s[3..] == ws + tail;
    assert tail[0] == (if slash == "" then '>' else '/');
    TrimStartGap(ws, tail);
    var k := |s| - |TrimStart(s[3..])|;
    assert k == 3 + |ws|;
    assert s[k..] == tail;
    if slash == "/" {
      assert s[k] == '/' && s[k + 1] == '>';
    } else {
      assert s[k] == '>';
    }
  }

  /** Every `<br>`, `<br/>`, `<BR />` … is replaced by one newline, and
      plain text around it is untouched. */
  lemma BrBecomesNewline(a: string, b: char, r: char, ws: string, slash: string, rest: string)
    requires '<' !in a
    requires FoldAscii(b) == 'b' && FoldAscii(r) == 'r'
    requires forall c :: c in ws ==> IsWhitespace(c)
    requires slash == "" || slash == "/"
    ensures ReplaceBr(a + ("<" + [b] + [r] + ws + slash + ">") + rest) == a + "\n" + ReplaceBr(rest)
  {
    var m := "<" + [b] + [r] + ws + slash + ">";
    var t := m + rest;
    assert |m| == 4 + |ws| + |slash|;
    assert t == "<" + [b] + [r] + ws + slash + ">" + rest;
    assert BrMatchLen(t) == |m| by { BrMatchOfTag(b, r, ws, slash, rest); }
    assert t[|m|..] == rest;
    var rr := ReplaceBr(rest);
    assert ReplaceBr(t) == "\n" + rr;
    assert ReplaceBr(a + t) == a + ReplaceBr(t) by { ReplaceBrSkipsText(a, t); }
    ConcatAssoc(a, m, rest);
    ConcatAssoc(a, "\n", rr);
  }

  // ---------------------------------------------------------------------------
  // Passes 2 and 3: /<\/p>/gi -> "\n\n" and /<p>/gi -> ""

  /** `s` starts with `pat` up to ASCII case. */
  predicate StartsWithCI(s: string, pat: string) {
    |s| >= |pat| && forall i :: 0 <= i < |pat| ==> FoldAscii(s[i]) == pat[i]
  }

  /** Global case-insensitive replacement of a literal pattern that opens
      with `<`, scanning left to right and resuming after each match. */
  function ReplaceCI(s: string, pat: string, rep: string): (r: string)
    requires |pat| > 0 && pat[0] == '<'
    ensures '<' !in s ==> r == s
    decreases |s|
  {
    if s == [] then []
    else if StartsWithCI(s, pat) then rep + ReplaceCI(s[|pat|..], pat, rep)
    else [s[0]] + ReplaceCI(s[1..], pat, rep)
  }

  lemma {:induction false} ReplaceCISkipsText(a: string, t: string, pat: string, rep: string)
    requires |pat| > 0 && pat[0] == '<'
    requires '<' !in a
    ensures ReplaceCI(a + t, pat, rep) == a + ReplaceCI(t, pat, rep)
    decreases |a|
  {
    if a == [] {
      assert a + t == t;
    } else {
      var u := a + t;
      assert u[0] == a[0] && u[1..] == a[1..] + t;
      assert !StartsWithCI(u, pat) by {
        assert FoldAscii(u[0]) != '<';
      }
      ReplaceCISkipsText(a[1..], t, pat, rep);
      var rt := ReplaceCI(t, pat, rep);
      assert ReplaceCI(u, pat, rep) == [a[0]] + (a[1..] + rt);
      ConcatAssoc([a[0]], a[1..], rt);
      assert [a[0]] + a[1..] == a;
    }
  }

  /** Each occurrence of the pattern, in any letter case, is replaced. */
  lemma PatternReplaced(a: string, m: string, rest: string, pat: string, rep: string)
    requires |pat| > 0 && pat[0] == '<'
    requires '<' !in a
    requires |m| == |pat| && StartsWithCI(m, pat)
    ensures ReplaceCI(a + m + rest, pat, rep) == a + rep + ReplaceCI(rest, pat, rep)
  {
    var t := m + rest;
    assert StartsWithCI(t, pat) by {
      forall i | 0 <= i < |pat| ensures FoldAscii(t[i]) == pat[i] {
        assert t[i] == m[i];
      }
    }
    assert t[|pat|..] == rest;
    ReplaceCISkipsText(a, t, pat, rep);
    assert a + m + rest == a + t;
    ConcatAssoc(a, rep, ReplaceCI(rest, pat, rep));
  }

  // ---------------------------------------------------------------------------
  // Pass 4: /<[^>]*>/g -> ""

  /** No `<` is followed, anywhere later, by a `>`: no substring `<…>` is left. */
  predicate NoTag(s: string) {
    forall i, j :: 0 <= i < j < |s| && s[i] == '<' ==> s[j] != '>'
  }

  /** Each `<` that has a `>` after it is deleted together with everything up
      to and including the first such `>`; a `<` with no later `>` stays. */
  function StripTags(s: string): (r: string)
    ensures NoTag(r)
    ensures '<' !in s ==> r == s
    ensures '>' !in s ==> r == s
    decreases |s|
  {
    if s == [] then []
    else if s[0] == '<' && '>' in s[1..] then
      var k := IndexOf(s[1..], '>');
      StripTags(s[k + 2..])
    else
      var rest := StripTags(s[1..]);
      NoTagCons(s[0], rest);
      [s[0]] + rest
  }

  /** Putting a character in front keeps NoTag unless it is a `<` and a
      `>` follows. */
  lemma NoTagCons(c: char, rest: string)
    requires NoTag(rest) && (c == '<' ==> '>' !in rest)
    ensures NoTag([c] + rest)
  {
    var r := [c] + rest;
    forall i, j | 0 <= i < j < |r| && r[i] == '<' ensures r[j] != '>' {
      assert r[j] == rest[j - 1];
      if i > 0 {
        assert r[i] == rest[i - 1];
      } else {
        assert r[j] in rest;
      }
    }
  }

  lemma {:induction false} StripTagsSkipsText(a: string, t: string)
    requires '<' !in a
    ensures StripTags(a + t) == a + StripTags(t)
    decreases |a|
  {
    if a == [] {
      assert a + t == t;
    } else {
      var u := a + t;
      assert u[0] == a[0] && u[1..] == a[1..] + t;
      StripTagsSkipsText(a[1..], t);
      var st := StripTags(t);
      assert StripTags(u) == [a[0]] + (a[1..] + st);
      ConcatAssoc([a[0]], a[1..], st);
      assert [a[0]] + a[1..] == a;
    }
  }

  /** A whole tag `<…>` disappears without a trace, and so does nothing
      else before it: the text between tags, such as the body of a
      `<script>` element, is kept. */
  lemma TagRemoved(a: string, inner: string, rest: string)
    requires '<' !in a && '>' !in inner
    ensures StripTags(a + ("<" + inner + ">") + rest) == a + StripTags(rest)
  {
    var tag := "<" + inner + ">";
    var t := tag + rest;
    TagHeadStripped(inner, rest);
    StripTagsSkipsText(a, t);
    ConcatAssoc(a, tag, rest);
  }

  lemma TagHeadStripped(inner: string, rest: string)
    requires '>' !in inner
    ensures StripTags("<" + inner + ">" + rest) == StripTags(rest)
  {
    var t := "<" + inner + ">" + rest;
    var u := inner + ['>'] + rest;
    assert t[1..] == u;
    IndexOfAfter(inner, '>', rest);
    assert u[|inner| + 1..] == rest;
  }

  // ---------------------------------------------------------------------------
  // Clean-up: /\n{3,}/g -> "\n\n", then trim

  /** Three newlines in a row start at `i`. */
  predicate TripleAt(s: string, i: int)
    requires 0 <= i <= |s| - 3
  {
    s[i] == '\n' && s[i + 1] == '\n' && s[i + 2] == '\n'
  }

  predicate NoTripleNewline(s: string) {
    forall i :: 0 <= i < |s| - 2 ==> !TripleAt(s, i)
  }

  /** The length of the run of newlines that opens `s`. */
  function NewlineRun(s: string): (n: nat)
    ensures n <= |s|
    ensures forall i :: 0 <= i < n ==> s[i] == '\n'
    ensures n == |s| || s[n] != '\n'
  {
    if s != [] && s[0] == '\n' then 1 + NewlineRun(s[1..]) else 0
  }

  /** Every maximal run of three or more newlines becomes exactly two;
      shorter runs and all other characters are copied. */
  function CollapseNewlines(s: string): (r: string)
    ensures NoTripleNewline(r)
    ensures s != [] ==> r != [] && r[0] == s[0]
    ensures NoTripleNewline(s) ==> r == s
    decreases |s|
  {
    if s == [] then []
    else
      var n := NewlineRun(s);
      if n == 0 then
        var rest := CollapseNewlines(s[1..]);
        assert NoTripleNewline(s) ==> NoTripleNewline(s[1..]) by {
          if NoTripleNewline(s) {
            NoTripleNewlineSlice(s, 1, |s|);
            assert s[1..|s|] == s[1..];
          }
        }
        NoTripleCons(s[0], rest);
        [s[0]] + rest
      else
        var rest := CollapseNewlines(s[n..]);
        var run := if n >= 3 then "\n\n" else s[..n];
        assert NoTripleNewline(s) ==> n < 3 && NoTripleNewline(s[n..]) && run + s[n..] == s by {
          if NoTripleNewline(s) {
            assert n < 3 by {
              if n >= 3 { assert TripleAt(s, 0); }
            }
            NoTripleNewlineSlice(s, n, |s|);
            assert s[n..|s|] == s[n..];
            assert run + s[n..] == s;
          }
        }
        RunThenRest(run, rest);
        run + rest
  }

  /** A character other than a newline in front keeps NoTripleNewline. */
  lemma NoTripleCons(c: char, rest: string)
    requires c != '\n' && NoTripleNewline(rest)
    ensures NoTripleNewline([c] + rest)
  {
    var r := [c] + rest;
    forall i | 0 <= i < |r| - 2 ensures !TripleAt(r, i) {
      if i > 0 {
        assert !TripleAt(rest, i - 1);
        assert r[i] == rest[i - 1] && r[i + 1] == rest[i] && r[i + 2] == rest[i + 1];
      }
    }
  }

  /** At most two newlines followed by text that does not open with one
      cannot hold three newlines in a row. */
  lemma RunThenRest(run: string, rest: string)
    requires 0 < |run| <= 2 && forall i :: 0 <= i < |run| ==> run[i] == '\n'
    requires rest == [] || rest[0] != '\n'
    requires NoTripleNewline(rest)
    ensures NoTripleNewline(run + rest)
  {
    var r := run + rest;
    forall i | 0 <= i < |r| - 2 ensures !TripleAt(r, i) {
      if i >= |run| {
        var k := i - |run|;
        assert !TripleAt(rest, k);
        assert r[i] == rest[k] && r[i + 1] == rest[k + 1] && r[i + 2] == rest[k + 2];
      } else if i + 1 == |run| {
        assert r[i + 1] == rest[0];
      } else {
        assert r[i + 2] == rest[0];
      }
    }
  }

  /** A slice of a string free of triple newlines is free of them too. */
  lemma NoTripleNewlineSlice(s: string, a: nat, b: nat)
    requires a <= b <= |s| && NoTripleNewline(s)
    ensures NoTripleNewline(s[a..b])
  {
    var t := s[a..b];
    forall i | 0 <= i < |t| - 2 ensures !TripleAt(t, i) {
      assert !TripleAt(s, a + i);
      assert t[i] == s[a + i] && t[i + 1] == s[a + i + 1] && t[i + 2] == s[a + i + 2];
    }
  }

  /** A run of newlines followed by text that does not open with one is
      exactly as long as the run. */
  lemma {:induction false} NewlineRunOfRun(run: string, b: string)
    requires forall i :: 0 <= i < |run| ==> run[i] == '\n'
    requires b == [] || b[0] != '\n'
    ensures NewlineRun(run + b) == |run|
    decreases |run|
  {
    if run == [] {
      assert run + b == b;
    } else {
      assert (run + b)[0] == '\n' && (run + b)[1..] == run[1..] + b;
      NewlineRunOfRun(run[1..], b);
    }
  }

  /** A run that ends inside `x` is not lengthened by what follows `x`. */
  lemma {:induction false} NewlineRunConcat(x: string, y: string)
    requires NewlineRun(x) < |x|
    ensures NewlineRun(x + y) == NewlineRun(x)
    decreases |x|
  {
    assert (x + y)[0] == x[0];
    if x[0] == '\n' {
      assert (x + y)[1..] == x[1..] + y;
      NewlineRunConcat(x[1..], y);
    }
  }

  /** Text that does not end in a newline can be cut off: no run of
      newlines spans the cut, so each side collapses on its own. */
  lemma {:induction false} CollapseConcat(a: string, t: string)
    requires a == [] || a[|a| - 1] != '\n'
    ensures CollapseNewlines(a + t) == CollapseNewlines(a) + CollapseNewlines(t)
    decreases |a|
  {
    if a == [] {
      assert a + t == t;
    } else {
      var u := a + t;
      var m := NewlineRun(a);
      assert m < |a|;
      NewlineRunConcat(a, t);
      var ct := CollapseNewlines(t);
      if m == 0 {
        assert u[0] == a[0] && u[1..] == a[1..] + t;
        CollapseConcat(a[1..], t);
        ConcatAssoc([a[0]], CollapseNewlines(a[1..]), ct);
      } else {
        assert u[..m] == a[..m] && u[m..] == a[m..] + t;
        CollapseConcat(a[m..], t);
        var run := if m >= 3 then "\n\n" else a[..m];
        ConcatAssoc(run, CollapseNewlines(a[m..]), ct);
      }
    }
  }

  /** The defining step of CollapseNewlines on text that opens with a run. */
  lemma CollapseStep(s: string)
    requires NewlineRun(s) > 0
    ensures CollapseNewlines(s) ==
      (if NewlineRun(s) >= 3 then "\n\n" else s[..NewlineRun(s)]) + CollapseNewlines(s[NewlineRun(s)..])
  {
  }

  /** A run of newlines at the front is shortened to two when it has three
      or more, and the text after it collapses on its own. */
  lemma CollapseLeadingRun(run: string, b: string)
    requires forall i :: 0 <= i < |run| ==> run[i] == '\n'
    requires b == [] || b[0] != '\n'
    ensures CollapseNewlines(run + b) == (if |run| >= 3 then "\n\n" else run) + CollapseNewlines(b)
  {
    var u := run + b;
    if run == [] {
      assert u == b;
    } else {
      NewlineRunOfRun(run, b);
      CollapseStep(u);
      assert u[..|run|] == run && u[|run|..] == b;
    }
  }

  /** A maximal run of newlines between two texts becomes two newlines when
      it has three or more, and is kept as it is otherwise; the texts on
      either side collapse on their own. */
  lemma CollapseRun(a: string, run: string, b: string)
    requires a == [] || a[|a| - 1] != '\n'
    requires forall i :: 0 <= i < |run| ==> run[i] == '\n'
    requires b == [] || b[0] != '\n'
    ensures CollapseNewlines(a + run + b) ==
      CollapseNewlines(a) + (if |run| >= 3 then "\n\n" else run) + CollapseNewlines(b)
  {
    var u := run + b;
    assert a + run + b == a + u;
    CollapseConcat(a, u);
    CollapseLeadingRun(run, b);
    ConcatAssoc(CollapseNewlines(a), if |run| >= 3 then "\n\n" else run, CollapseNewlines(b));
  }

  /** The characters of `s` that `keep` selects, in order. */
  function KeepChars(s: string, keep: char -> bool): string {
    if s == [] then [] else (if keep(s[0]) then [s[0]] else []) + KeepChars(s[1..], keep)
  }

  lemma {:induction false} KeepCharsConcat(a: string, b: string, keep: char -> bool)
    ensures KeepChars(a + b, keep) == KeepChars(a, keep) + KeepChars(b, keep)
    decreases |a|
  {
    if a == [] {
      assert a + b == b;
    } else {
      var u := a + b;
      assert u[0] == a[0] && u[1..] == a[1..] + b;
      KeepCharsConcat(a[1..], b, keep);
      var h := if keep(a[0]) then [a[0]] else [];
      assert KeepChars(u, keep) == h + KeepChars(u[1..], keep);
      assert KeepChars(a, keep) == h + KeepChars(a[1..], keep);
      ConcatAssoc(h, KeepChars(a[1..], keep), KeepChars(b, keep));
    }
  }

  lemma {:induction false} KeepCharsNone(s: string, keep: char -> bool)
    requires forall i :: 0 <= i < |s| ==> !keep(s[i])
    ensures KeepChars(s, keep) == []
    decreases |s|
  {
    if s != [] {
      KeepCharsNone(s[1..], keep);
    }
  }

  /** Collapsing only deletes newlines: every other character survives, in
      order. Stated for any selection that leaves out the newline, such as
      "every character but a newline". */
  lemma {:induction false} CollapseKeepsText(s: string, keep: char -> bool)
    requires !keep('\n')
    ensures KeepChars(CollapseNewlines(s), keep) == KeepChars(s, keep)
    decreases |s|
  {
    if s != [] {
      var n := NewlineRun(s);
      if n == 0 {
        var rest := CollapseNewlines(s[1..]);
        assert ([s[0]] + rest)[0] == s[0] && ([s[0]] + rest)[1..] == rest;
        CollapseKeepsText(s[1..], keep);
      } else {
        var run := if n >= 3 then "\n\n" else s[..n];
        KeepCharsConcat(run, CollapseNewlines(s[n..]), keep);
        KeepCharsNone(run, keep);
        assert s == s[..n] + s[n..];
        KeepCharsConcat(s[..n], s[n..], keep);
        KeepCharsNone(s[..n], keep);
        CollapseKeepsText(s[n..], keep);
      }
    }
  }

  predicate IsTrimmed(s: string) {
    s == [] || (!IsWhitespace(s[0]) && !IsWhitespace(s[|s| - 1]))
  }

  /** Trimming keeps a slice, so it keeps NoTripleNewline. */
  lemma TrimKeepsNoTriple(c: string)
    requires NoTripleNewline(c)
    ensures NoTripleNewline(Trim(c))
  {
    var t := TrimStart(c);
    TrimStartSuffix(c);
    assert t == c[|c| - |t|..|c|];
    NoTripleNewlineSlice(c, |c| - |t|, |c|);
    var e := TrimEnd(t);
    TrimEndPrefix(t);
    assert e == t[0..|e|];
    NoTripleNewlineSlice(t, 0, |e|);
    assert Trim(c) == e;
  }

  /** `text.replace(/\n{3,}/g, '\n\n').trim()`. */
  function Cleanup(s: string): (r: string)
    ensures NoTripleNewline(r) && IsTrimmed(r)
    ensures IsTrimmed(s) && NoTripleNewline(s) ==> r == s
  {
    var c := CollapseNewlines(s);
    TrimKeepsNoTriple(c);
    Trim(c)
  }

  predicate NotWhitespace(c: char) {
    !IsWhitespace(c)
  }

  lemma TrimStartKeepsText(s: string, keep: char -> bool)
    requires forall c :: IsWhitespace(c) ==> !keep(c)
    ensures KeepChars(TrimStart(s), keep) == KeepChars(s, keep)
  {
    var t := TrimStart(s);
    TrimStartSuffix(s);
    var k := |s| - |t|;
    var gap := s[..k];
    assert s == gap + t;
    forall i | 0 <= i < |gap| ensures !keep(gap[i]) {
      assert IsWhitespace(s[i]);
    }
    KeepCharsConcat(gap, t, keep);
    KeepCharsNone(gap, keep);
  }

  lemma TrimEndKeepsText(t: string, keep: char -> bool)
    requires forall c :: IsWhitespace(c) ==> !keep(c)
    ensures KeepChars(TrimEnd(t), keep) == KeepChars(t, keep)
  {
    var e := TrimEnd(t);
    TrimEndPrefix(t);
    var gap := t[|e|..];
    assert t == e + gap;
    forall i | 0 <= i < |gap| ensures !keep(gap[i]) {
      assert IsWhitespace(t[|e| + i]);
    }
    KeepCharsConcat(e, gap, keep);
    KeepCharsNone(gap, keep);
  }

  /** Trimming drops white space only. */
  lemma TrimKeepsText(s: string, keep: char -> bool)
    requires forall c :: IsWhitespace(c) ==> !keep(c)
    ensures KeepChars(Trim(s), keep) == KeepChars(s, keep)
  {
    TrimStartKeepsText(s, keep);
    TrimEndKeepsText(TrimStart(s), keep);
    assert Trim(s) == TrimEnd(TrimStart(s));
  }

  /** The clean-up drops white space only: every other character of the
      input is in the output, in the same order, and nothing else is. */
  lemma CleanupKeepsText(s: string)
    ensures KeepChars(Cleanup(s), NotWhitespace) == KeepChars(s, NotWhitespace)
  {
    CollapseKeepsText(s, NotWhitespace);
    TrimKeepsText(CollapseNewlines(s), NotWhitespace);
  }

  // ---------------------------------------------------------------------------
  // extractStructuredText

  /** The four regular-expression passes before entity decoding. */
  function FlattenMarkup(html: string): (r: string)
    ensures NoTag(r)
    ensures '<' !in html ==> r == html
  {
    StripTags(ReplaceCI(ReplaceCI(ReplaceBr(html), "</p>", "\n\n"), "<p>", ""))
  }

  /** The text `extractStructuredText` returns, as a function for callers
      that cannot run a method. */
  function StructuredText(decode: string -> string, html: string): (r: string)
    ensures html == [] ==> r == []
    ensures NoTripleNewline(r) && IsTrimmed(r)
  {
    if html == [] then [] else Cleanup(decode(FlattenMarkup(html)))
  }

  /** `extractStructuredText`, reassigning `text` pass after pass. */
  method ExtractStructuredText(decode: string -> string, html: string) returns (text: string)
    ensures text == StructuredText(decode, html)
    ensures html == [] ==> text == []
    ensures NoTripleNewline(text) && IsTrimmed(text)
  {
    if html == [] {
      return [];
    }
    text := ReplaceBr(html);
    text := ReplaceCI(text, "</p>", "\n\n");
    text := ReplaceCI(text, "<p>", "");
    text := StripTags(text);
    assert NoTag(text);
    text := decode(text);
    text := Cleanup(text);
  }

  /** Markup-free text is only cleaned up, given a decoder that leaves it alone. */
  lemma PlainTextOnlyCleaned(decode: string -> string, html: string)
    requires '<' !in html && decode(html) == html
    ensures StructuredText(decode, html) == Cleanup(html)
  {
  }

  /** Between two runs of plain text, a `<br>` of any spelling becomes a
      newline before any tag is stripped. */
  lemma BreakBecomesNewline(a: string, b: char, r: char, ws: string, slash: string, c: string)
    requires '<' !in a && '<' !in c
    requires FoldAscii(b) == 'b' && FoldAscii(r) == 'r'
    requires forall x :: x in ws ==> IsWhitespace(x)
    requires slash == "" || slash == "/"
    ensures FlattenMarkup(a + ("<" + [b] + [r] + ws + slash + ">") + c) == a + "\n" + c
  {
    BrBecomesNewline(a, b, r, ws, slash, c);
    assert '<' !in a + "\n" + c;
  }

  /** A `<` not followed by b or B is copied by the br pass. */
  lemma BrCopiesOtherTag(t: string)
    requires t == [] || FoldAscii(t[0]) != 'b'
    ensures ReplaceBr(['<'] + t) == ['<'] + ReplaceBr(t)
  {
    var u := ['<'] + t;
    assert u[1..] == t;
    assert BrMatchLen(u) == 0;
  }

  /** A block of markup-free text followed by more text. */
  lemma BrSkipsLiteral(lit: string, t: string)
    requires |lit| >= 2 && lit[0] == '<' && '<' !in lit[1..]
    requires FoldAscii(lit[1]) != 'b'
    ensures ReplaceBr(lit + t) == lit + ReplaceBr(t)
  {
    var rest := lit[1..];
    assert lit + t == ['<'] + (rest + t);
    assert (rest + t)[0] == lit[1];
    BrCopiesOtherTag(rest + t);
    ReplaceBrSkipsText(rest, t);
    ConcatAssoc(['<'], rest, ReplaceBr(t));
    assert ['<'] + rest == lit;
  }

  lemma BrSkipsOpenP(t: string)
    ensures ReplaceBr("<p>" + t) == "<p>" + ReplaceBr(t)
  {
    BrSkipsLiteral("<p>", t);
  }

  lemma BrSkipsCloseP(t: string)
    ensures ReplaceBr("</p>" + t) == "</p>" + ReplaceBr(t)
  {
    BrSkipsLiteral("</p>", t);
  }

  /** The br pass leaves paragraph tags alone. */
  lemma ParagraphNotBreak(a: string, b: string, c: string)
    requires '<' !in a && '<' !in b && '<' !in c
    ensures ReplaceBr(a + ("<p>" + (b + ("</p>" + c)))) == a + ("<p>" + (b + ("</p>" + c)))
  {
    BrSkipsCloseP(c);
    ReplaceBrSkipsText(b, "</p>" + c);
    BrSkipsOpenP(b + ("</p>" + c));
    ReplaceBrSkipsText(a, "<p>" + (b + ("</p>" + c)));
  }

  /** Where the pattern does not start, the pass copies one character. */
  lemma CICopiesHead(u: string, pat: string, rep: string)
    requires |pat| > 0 && pat[0] == '<'
    requires u != [] && !StartsWithCI(u, pat)
    ensures ReplaceCI(u, pat, rep) == [u[0]] + ReplaceCI(u[1..], pat, rep)
  {
  }

  /** A tag that differs from the pattern in its second character is copied. */
  lemma CISkipsLiteral(lit: string, t: string, pat: string, rep: string)
    requires |pat| >= 2 && pat[0] == '<'
    requires |lit| >= 2 && lit[0] == '<' && '<' !in lit[1..]
    requires FoldAscii(lit[1]) != pat[1]
    ensures ReplaceCI(lit + t, pat, rep) == lit + ReplaceCI(t, pat, rep)
  {
    var u := lit + t;
    var rest := lit[1..];
    assert u[1..] == rest + t;
    assert u[0] == '<' && u[1] == lit[1];
    assert !StartsWithCI(u, pat);
    CICopiesHead(u, pat, rep);
    ReplaceCISkipsText(rest, t, pat, rep);
    ConcatAssoc(['<'], rest, ReplaceCI(t, pat, rep));
    assert ['<'] + rest == lit;
  }

  lemma CloseSkipsOpenP(t: string)
    ensures ReplaceCI("<p>" + t, "</p>", "\n\n") == "<p>" + ReplaceCI(t, "</p>", "\n\n")
  {
    CISkipsLiteral("<p>", t, "</p>", "\n\n");
  }

  lemma ClosePMatches()
    ensures StartsWithCI("</p>", "</p>")
  {
  }

  lemma OpenPMatches()
    ensures StartsWithCI("<p>", "<p>")
  {
  }

  /** The closing-tag pass turns the `</p>` into a blank line. */
  lemma ParagraphClosed(a: string, b: string, c: string)
    requires '<' !in a && '<' !in b && '<' !in c
    ensures ReplaceCI(a + ("<p>" + (b + ("</p>" + c))), "</p>", "\n\n") == a + ("<p>" + (b + ("\n\n" + c)))
  {
    ClosePMatches();
    PatternReplaced(b, "</p>", c, "</p>", "\n\n");
    ConcatAssoc(b, "</p>", c);
    ConcatAssoc(b, "\n\n", c);
    CloseSkipsOpenP(b + ("</p>" + c));
    ReplaceCISkipsText(a, "<p>" + (b + ("</p>" + c)), "</p>", "\n\n");
  }

  lemma OpenRemoved(a: string, t: string)
    requires '<' !in a && '<' !in t
    ensures ReplaceCI(a + ("<p>" + t), "<p>", "") == a + t
  {
    OpenPMatches();
    PatternReplaced(a, "<p>", t, "<p>", "");
    ConcatAssoc(a, "<p>", t);
    assert ReplaceCI(t, "<p>", "") == t;
    assert "" + t == t;
    ConcatAssoc(a, "", t);
  }

  /** A paragraph `<p>b</p>` between plain texts becomes its text followed
      by a blank line. */
  lemma ParagraphBecomesBlankLine(a: string, b: string, c: string)
    requires '<' !in a && '<' !in b && '<' !in c
    ensures FlattenMarkup(a + ("<p>" + (b + ("</p>" + c)))) == a + (b + ("\n\n" + c))
  {
    ParagraphNotBreak(a, b, c);
    ParagraphClosed(a, b, c);
    var t := b + ("\n\n" + c);
    assert '<' !in t;
    OpenRemoved(a, t);
    assert '<' !in a + t;
  }

  /** The br pass copies a paragraph whose text holds no markup. */
  lemma ParagraphSkipsBr(b: string, c: string)
    requires '<' !in b
    ensures ReplaceBr("<p>" + (b + ("</p>" + c))) == "<p>" + (b + ("</p>" + ReplaceBr(c)))
  {
    BrSkipsCloseP(c);
    ReplaceBrSkipsText(b, "</p>" + c);
    BrSkipsOpenP(b + ("</p>" + c));
  }

  /** The closing-tag pass turns a paragraph's `</p>` into a blank line. */
  lemma ParagraphCloseToBlank(b: string, c: string)
    requires '<' !in b
    ensures ReplaceCI("<p>" + (b + ("</p>" + c)), "</p>", "\n\n") == "<p>" + (b + ("\n\n" + ReplaceCI(c, "</p>", "\n\n")))
  {
    var rc := ReplaceCI(c, "</p>", "\n\n");
    ClosePMatches();
    PatternReplaced(b, "</p>", c, "</p>", "\n\n");
    ConcatAssoc(b, "</p>", c);
    ConcatAssoc(b, "\n\n", rc);
    CloseSkipsOpenP(b + ("</p>" + c));
  }

  /** The opening-tag pass drops a paragraph's `<p>`. */
  lemma ParagraphOpenDropped(b: string, c: string)
    requires '<' !in b
    ensures ReplaceCI("<p>" + (b + c), "<p>", "") == b + ReplaceCI(c, "<p>", "")
  {
    OpenPMatches();
    PatternReplaced([], "<p>", b + c, "<p>", "");
    assert [] + "<p>" + (b + c) == "<p>" + (b + c);
    assert [] + "" + ReplaceCI(b + c, "<p>", "") == ReplaceCI(b + c, "<p>", "");
    ReplaceCISkipsText(b, c, "<p>", "");
  }

  /** The br pass on a break followed by a paragraph. */
  lemma BreakBeforeParagraph(b: string)
    requires '<' !in b
    ensures ReplaceBr("<br>" + ("<p>" + (b + "</p>"))) == "\n" + ("<p>" + (b + "</p>"))
  {
    var pb := "<p>" + (b + "</p>");
    var t := "<br>" + pb;
    assert t[0] == '<' && t[1] == 'b' && t[2] == 'r' && t[3] == '>';
    assert t[3..] == ">" + pb;
    assert TrimStart(t[3..]) == t[3..];
    assert BrMatchLen(t) == 4;
    assert t[4..] == pb;
    ParagraphSkipsBr(b, []);
    assert "</p>" + [] == "</p>";
  }

  /** The closing-tag pass on a newline followed by a paragraph. */
  lemma NewlineBeforeParagraphClosed(b: string)
    requires '<' !in b
    ensures ReplaceCI("\n" + ("<p>" + (b + "</p>")), "</p>", "\n\n") == "\n" + ("<p>" + (b + "\n\n"))
  {
    var pb := "<p>" + (b + "</p>");
    ReplaceCISkipsText("\n", pb, "</p>", "\n\n");
    ParagraphCloseToBlank(b, []);
    assert "</p>" + [] == "</p>";
    assert "\n\n" + [] == "\n\n";
  }

  /** The opening-tag pass on newlines followed by a flattened paragraph. */
  lemma NewlinesBeforeParagraphOpened(b: string)
    requires '<' !in b
    ensures ReplaceCI("\n\n" + ("\n" + ("<p>" + (b + "\n\n"))), "<p>", "") == "\n\n\n" + (b + "\n\n")
  {
    assert "\n\n" + ("\n" + ("<p>" + (b + "\n\n"))) == "\n\n\n" + ("<p>" + (b + "\n\n"));
    ReplaceCISkipsText("\n\n\n", "<p>" + (b + "\n\n"), "<p>", "");
    ParagraphOpenDropped(b, "\n\n");
  }

  /** Two paragraphs separated by a `<br>`: the blank line that closes the
      first paragraph and the break add up to three newlines before the
      clean-up. */
  lemma ParagraphsAroundBreak(a: string, b: string)
    requires '<' !in a && '<' !in b
    ensures FlattenMarkup("<p>" + (a + ("</p>" + ("<br>" + ("<p>" + (b + "</p>")))))) == a + ("\n\n\n" + (b + "\n\n"))
  {
    var pb := "<p>" + (b + "</p>");
    var html := "<p>" + (a + ("</p>" + ("<br>" + pb)));
    ParagraphSkipsBr(a, "<br>" + pb);
    BreakBeforeParagraph(b);
    var r1 := "<p>" + (a + ("</p>" + ("\n" + pb)));
    assert ReplaceBr(html) == r1;
    ParagraphCloseToBlank(a, "\n" + pb);
    NewlineBeforeParagraphClosed(b);
    var tail := "\n\n" + ("\n" + ("<p>" + (b + "\n\n")));
    var r2 := "<p>" + (a + tail);
    assert ReplaceCI(r1, "</p>", "\n\n") == r2;
    ParagraphOpenDropped(a, tail);
    NewlinesBeforeParagraphOpened(b);
    var r3 := a + ("\n\n\n" + (b + "\n\n"));
    assert ReplaceCI(r2, "<p>", "") == r3;
    assert '<' !in r3;
  }

  /** The clean-up of the flattened two paragraphs: the run of three
      newlines shrinks to a blank line and the trailing one is trimmed. */
  lemma TwoLinesCleanedUp()
    ensures Cleanup("a" + ("\n\n\n" + ("b" + "\n\n"))) == "a\n\nb"
  {
    var flat := "a" + ("\n\n\n" + ("b" + "\n\n"));
    CollapseRun("a", "\n\n\n", "b\n\n");
    assert "a" + "\n\n\n" + "b\n\n" == flat;
    assert CollapseNewlines("a") == "a";
    assert CollapseNewlines("b\n\n") == "b\n\n" by {
      assert !TripleAt("b\n\n", 0);
    }
    var c := "a\n\nb" + "\n\n";
    assert CollapseNewlines(flat) == c;
    assert TrimStart(c) == c;
    TrimEndGap("a\n\nb", "\n\n");
  }

  /** End to end, with a decoder that changes nothing: two paragraphs
      around a break come out as two lines separated by one blank line. */
  lemma ParagraphsAroundBreakText()
    ensures StructuredText(x => x, "<p>a</p><br><p>b</p>") == "a\n\nb"
  {
    var html := "<p>a</p><br><p>b</p>";
    assert html == "<p>" + ("a" + ("</p>" + ("<br>" + ("<p>" + ("b" + "</p>")))));
    ParagraphsAroundBreak("a", "b");
    TwoLinesCleanedUp();
  }

  /** `processAchievements`: a missing or non-array value (None) gives no
      lines; an array gives one flattened line per entry, in order. */
  function ProcessAchievements(decode: string -> string, achievements: Option<seq<string>>): (r: seq<string>)
    ensures achievements.None? ==> r == []
    ensures achievements.Some? ==>
      |r| == |achievements.value| && forall i :: 0 <= i < |r| ==> r[i] == StructuredText(decode, achievements.value[i])
    ensures forall i :: 0 <= i < |r| ==> NoTripleNewline(r[i]) && IsTrimmed(r[i])
  {
    match achievements
    case None => []
    case Some(xs) => seq(|xs|, i requires 0 <= i < |xs| => StructuredText(decode, xs[i]))
  }
}
