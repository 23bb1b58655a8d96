/** The pieces of JavaScript's string semantics that the CV builder relies on:
    the white-space class of `\s` and `trim`, `toLowerCase`, `split` and `join`
    with a one-character separator, `parseInt(_, 10)` and `filter(Boolean)`. */
module JsString {
  import opened Wrappers

  /** The characters JavaScript's `\s` matches and `String.prototype.trim`
      removes: the WhiteSpace and LineTerminator code points of ECMA-262. */
  predicate IsWhitespace(c: char) {
    var n := c as int;
    (9 <= n <= 13) || n == 32 || n == 0xA0 || n == 0x1680 || (0x2000 <= n <= 0x200A)
    || n == 0x2028 || n == 0x2029 || n == 0x202F || n == 0x205F || n == 0x3000 || n == 0xFEFF
  }

  /** Drops the leading white space: what remains does not start with it. */
  function TrimStart(s: string): (r: string)
    ensures |r| <= |s|
    ensures r == [] || !IsWhitespace(r[0])
  {
    if s != [] && IsWhitespace(s[0]) then TrimStart(s[1..]) else s
  }

  /** What TrimStart keeps is a suffix of its input, and what it drops is
      all white space. */
  lemma {:induction false} TrimStartSuffix(s: string)
    ensures TrimStart(s) == s[|s| - |TrimStart(s)|..]
    ensures forall i :: 0 <= i < |s| - |TrimStart(s)| ==> IsWhitespace(s[i])
    decreases |s|
  {
    if s != [] && IsWhitespace(s[0]) {
      TrimStartSuffix(s[1..]);
      assert s[1..][|s[1..]| - |TrimStart(s[1..])|..] == s[|s| - |TrimStart(s)|..];
      forall i | 0 <= i < |s| - |TrimStart(s)|
        ensures IsWhitespace(s[i])
      {
        if i > 0 {
          assert s[i] == s[1..][i - 1];
        }
      }
    }
  }

  /** Drops the trailing white space; the mirror image of TrimStart. */
  function TrimEnd(s: string): (r: string)
    ensures |r| <= |s|
    ensures r == [] || !IsWhitespace(r[|r| - 1])
  {
    if s != [] && IsWhitespace(s[|s| - 1]) then TrimEnd(s[..|s| - 1]) else s
  }

  /** What TrimEnd keeps is a prefix of its input, and what it drops is all
      white space. */
  lemma {:induction false} TrimEndPrefix(s: string)
    ensures TrimEnd(s) == s[..|TrimEnd(s)|]
    ensures forall i :: |TrimEnd(s)| <= i < |s| ==> IsWhitespace(s[i])
    decreases |s|
  {
    if s != [] && IsWhitespace(s[|s| - 1]) {
      var p := s[..|s| - 1];
      TrimEndPrefix(p);
      assert p[..|TrimEnd(p)|] == s[..|TrimEnd(s)|];
      forall i | |TrimEnd(s)| <= i < |s|
        ensures IsWhitespace(s[i])
      {
        if i < |s| - 1 {
          assert s[i] == p[i];
        }
      }
    }
  }

  /** `String.prototype.trim`: neither end is white space, and a string
      already in that form is unchanged. */
  function Trim(s: string): (r: string)
    ensures |r| <= |s|
    ensures r == [] || (!IsWhitespace(r[0]) && !IsWhitespace(r[|r| - 1]))
    ensures (s == [] || (!IsWhitespace(s[0]) && !IsWhitespace(s[|s| - 1]))) ==> r == s
  {
    var t := TrimStart(s);
    assert TrimEnd(t) != [] ==> !IsWhitespace(TrimEnd(t)[0]) by {
      if TrimEnd(t) != [] {
        TrimEndPrefix(t);
        assert TrimEnd(t)[0] == t[0];
      }
    }
    assert (s == [] || (!IsWhitespace(s[0]) && !IsWhitespace(s[|s| - 1]))) ==> TrimEnd(t) == s;
    TrimEnd(t)
  }

  /** Trim keeps one contiguous slice of its input, and gives "" exactly
      for a string of white space. */
  lemma TrimIsSlice(s: string)
    ensures var a := |s| - |TrimStart(s)|; a + |Trim(s)| <= |s| && Trim(s) == s[a..a + |Trim(s)|]
    ensures (forall i :: 0 <= i < |s| ==> IsWhitespace(s[i])) <==> Trim(s) == []
  {
    var t := TrimStart(s);
    TrimStartSuffix(s);
    TrimEndPrefix(t);
    var a := |s| - |t|;
    assert Trim(s) == t[..|Trim(s)|];
    assert t[..|Trim(s)|] == s[a..a + |Trim(s)|];
    if Trim(s) == [] {
      assert a == |s|;
    }
  }

  /** `toLowerCase` on one character, for ASCII and Latin-1; every other
      character is left as it is. */
  function LowerChar(c: char): (d: char)
    ensures IsWhitespace(d) == IsWhitespace(c)
    ensures ('a' <= d <= 'z') <==> ('a' <= c <= 'z' || 'A' <= c <= 'Z')
    ensures ('0' <= d <= '9') <==> ('0' <= c <= '9')
    ensures d == '-' <==> c == '-'
  {
    if 'A' <= c <= 'Z' then (c as int + 32) as char
    else if 0xC0 <= c as int <= 0xDE && c as int != 0xD7 then (c as int + 32) as char
    else c
  }

  /** `String.prototype.toLowerCase`, character by character. */
  function ToLower(s: string): (r: string)
    ensures |r| == |s| && forall i :: 0 <= i < |s| ==> r[i] == LowerChar(s[i])
  {
    if s == [] then [] else [LowerChar(s[0])] + ToLower(s[1..])
  }

  /** `s.replace(/\s+/g, '-')`: every maximal run of white space becomes one hyphen. */
  function HyphenateWhitespace(s: string): (r: string)
    ensures r == [] <==> s == []
    ensures s != [] && !IsWhitespace(s[0]) ==> r[0] == s[0]
    ensures s != [] && IsWhitespace(s[0]) ==> r[0] == '-'
    ensures |r| <= |s|
    decreases |s|
  {
    if s == [] then []
    else if IsWhitespace(s[0]) then
      var t := TrimStart(s[1..]);
      assert |t| < |s|;
      "-" + HyphenateWhitespace(t)
    else [s[0]] + HyphenateWhitespace(s[1..])
  }

  /** The result holds no white space, and each of its characters is a
      hyphen or comes from the input. */
  lemma {:induction false} HyphenateChars(s: string)
    ensures forall c :: c in HyphenateWhitespace(s) ==> !IsWhitespace(c) && (c == '-' || c in s)
    decreases |s|
  {
    if s != [] {
      if IsWhitespace(s[0]) {
        var t := TrimStart(s[1..]);
        TrimStartSuffix(s[1..]);
        assert forall c :: c in t ==> c in s[1..];
        HyphenateChars(t);
        assert HyphenateWhitespace(s) == "-" + HyphenateWhitespace(t);
      } else {
        HyphenateChars(s[1..]);
        assert HyphenateWhitespace(s) == [s[0]] + HyphenateWhitespace(s[1..]);
      }
    }
  }

  predicate NoDoubleHyphen(r: string) {
    forall i :: 0 <= i < |r| - 1 ==> !(r[i] == '-' && r[i + 1] == '-')
  }

  lemma NoDoubleHyphenCons(c: char, r: string)
    requires NoDoubleHyphen(r)
    requires r == [] || c != '-' || r[0] != '-'
    ensures NoDoubleHyphen([c] + r)
  {
    var s := [c] + r;
    forall i | 0 <= i < |s| - 1
      ensures !(s[i] == '-' && s[i + 1] == '-')
    {
      if i > 0 {
        assert s[i] == r[i - 1] && s[i + 1] == r[i];
      }
    }
  }

  /** A name without hyphens never yields two hyphens in a row: each run of
      white space, however long, gives exactly one. */
  lemma {:induction false} HyphenateNoDoubleHyphen(s: string)
    requires '-' !in s
    ensures NoDoubleHyphen(HyphenateWhitespace(s))
    decreases |s|
  {
    if s != [] {
      if IsWhitespace(s[0]) {
        var t := TrimStart(s[1..]);
        TrimStartSuffix(s[1..]);
        assert forall c :: c in t ==> c in s[1..];
        HyphenateNoDoubleHyphen(t);
        NoDoubleHyphenCons('-', HyphenateWhitespace(t));
      } else {
        HyphenateNoDoubleHyphen(s[1..]);
        NoDoubleHyphenCons(s[0], HyphenateWhitespace(s[1..]));
      }
    }
  }

  lemma {:induction false} TrimStartToLower(s: string)
    ensures TrimStart(ToLower(s)) == ToLower(TrimStart(s))
    decreases |s|
  {
    if s != [] {
      assert ToLower(s)[1..] == ToLower(s[1..]);
      if IsWhitespace(s[0]) {
        TrimStartToLower(s[1..]);
      }
    }
  }

  /** Lower-casing and collapsing white space commute, so it does not matter
      which of the two a file-name rule applies first. */
  lemma {:induction false} HyphenateToLowerCommute(s: string)
    ensures HyphenateWhitespace(ToLower(s)) == ToLower(HyphenateWhitespace(s))
    decreases |s|
  {
    if s != [] {
      assert ToLower(s)[1..] == ToLower(s[1..]);
      if IsWhitespace(s[0]) {
        var t := TrimStart(s);
        assert TrimStart(s) == TrimStart(s[1..]);
        assert TrimStart(ToLower(s)) == TrimStart(ToLower(s)[1..]);
        TrimStartToLower(s);
        HyphenateToLowerCommute(t);
        assert ToLower("-" + HyphenateWhitespace(t)) == "-" + ToLower(HyphenateWhitespace(t));
      } else {
        HyphenateToLowerCommute(s[1..]);
        assert ToLower([s[0]] + HyphenateWhitespace(s[1..]))
          == [LowerChar(s[0])] + ToLower(HyphenateWhitespace(s[1..]));
      }
    }
  }

  /** A word without white space is copied through unchanged. */
  lemma {:induction false} HyphenateWord(a: string, t: string)
    requires forall c :: c in a ==> !IsWhitespace(c)
    ensures HyphenateWhitespace(a + t) == a + HyphenateWhitespace(t)
    decreases |a|
  {
    if a == [] {
      assert a + t == t;
    } else {
      var u := a + t;
      assert u[0] == a[0] && u[1..] == a[1..] + t;
      assert !IsWhitespace(u[0]);
      HyphenateWordHead(u);
      HyphenateWord(a[1..], t);
      var ht := HyphenateWhitespace(t);
      assert HyphenateWhitespace(u) == [a[0]] + (a[1..] + ht);
      ConcatAssoc([a[0]], a[1..], ht);
      assert [a[0]] + a[1..] == a;
    }
  }

  lemma {:induction false} TrimStartGap(gap: string, b: string)
    requires forall c :: c in gap ==> IsWhitespace(c)
    requires b == [] || !IsWhitespace(b[0])
    ensures TrimStart(gap + b) == b
    decreases |gap|
  {
    if gap == [] {
      assert gap + b == b;
    } else {
      assert (gap + b)[0] == gap[0] && (gap + b)[1..] == gap[1..] + b;
      TrimStartGap(gap[1..], b);
    }
  }

  lemma {:induction false} TrimEndGap(a: string, gap: string)
    requires forall c :: c in gap ==> IsWhitespace(c)
    requires a == [] || !IsWhitespace(a[|a| - 1])
    ensures TrimEnd(a + gap) == a
    decreases |gap|
  {
    if gap == [] {
      assert a + gap == a;
    } else {
      var u := a + gap;
      assert u[|u| - 1] == gap[|gap| - 1];
      assert u[..|u| - 1] == a + gap[..|gap| - 1];
      TrimEndGap(a, gap[..|gap| - 1]);
    }
  }

  /** A run of white space of any length becomes one hyphen. */
  lemma HyphenateGap(gap: string, b: string)
    requires gap != [] && forall c :: c in gap ==> IsWhitespace(c)
    requires b == [] || !IsWhitespace(b[0])
    ensures HyphenateWhitespace(gap + b) == "-" + HyphenateWhitespace(b)
  {
    assert (gap + b)[0] == gap[0] && (gap + b)[1..] == gap[1..] + b;
    TrimStartGap(gap[1..], b);
  }

  lemma {:induction false} TrimStartConcat(u: string, y: string)
    requires TrimStart(u) != []
    ensures TrimStart(u + y) == TrimStart(u) + y
    decreases |u|
  {
    assert (u + y)[0] == u[0];
    if IsWhitespace(u[0]) {
      assert (u + y)[1..] == u[1..] + y;
      TrimStartConcat(u[1..], y);
    }
  }

  /** Concatenation is associative. */
  lemma ConcatAssoc<T>(a: seq<T>, b: seq<T>, c: seq<T>)
    ensures a + (b + c) == (a + b) + c
  {
  }

  /** The defining step of HyphenateWhitespace when the input opens with
      white space. */
  lemma HyphenateWhitespaceHead(x: string)
    requires x != [] && IsWhitespace(x[0])
    ensures HyphenateWhitespace(x) == "-" + HyphenateWhitespace(TrimStart(x[1..]))
  {
  }

  lemma HyphenateWordHead(x: string)
    requires x != [] && !IsWhitespace(x[0])
    ensures HyphenateWhitespace(x) == [x[0]] + HyphenateWhitespace(x[1..])
  {
  }

  /** Hyphenation works piecewise when the second piece does not start
      inside a run of white space. */
  lemma {:induction false} HyphenateConcat(x: string, y: string)
    requires y == [] || !IsWhitespace(y[0])
    ensures HyphenateWhitespace(x + y) == HyphenateWhitespace(x) + HyphenateWhitespace(y)
    decreases |x|
  {
    var u := x + y;
    var hy := HyphenateWhitespace(y);
    if x == [] {
      assert u == y;
      assert HyphenateWhitespace(x) == [];
      assert HyphenateWhitespace(u) == HyphenateWhitespace(x) + hy;
    } else {
      assert u[0] == x[0] && u[1..] == x[1..] + y;
      if IsWhitespace(x[0]) {
        var t := TrimStart(x[1..]);
        HyphenateWhitespaceHead(x);
        HyphenateWhitespaceHead(u);
        if t == [] {
          TrimStartSuffix(x[1..]);
          assert forall i :: 0 <= i < |x[1..]| ==> IsWhitespace(x[1..][i]);
          assert forall c :: c in x[1..] ==> IsWhitespace(c);
          TrimStartGap(x[1..], y);
          assert TrimStart(u[1..]) == y;
          assert HyphenateWhitespace(x) == "-";
          assert HyphenateWhitespace(u) == "-" + hy;
        } else {
          TrimStartConcat(x[1..], y);
          HyphenateConcat(t, y);
          var ht := HyphenateWhitespace(t);
          assert HyphenateWhitespace(u) == "-" + (ht + hy);
          ConcatAssoc("-", ht, hy);
        }
      } else {
        HyphenateWordHead(x);
        HyphenateWordHead(u);
        HyphenateConcat(x[1..], y);
        var hr := HyphenateWhitespace(x[1..]);
        assert HyphenateWhitespace(u) == [x[0]] + (hr + hy);
        ConcatAssoc([x[0]], hr, hy);
      }
    }
  }

  lemma ToLowerConcat(a: string, b: string)
    ensures ToLower(a + b) == ToLower(a) + ToLower(b)
  {
  }

  /** The first index of `c` in `s`. */
  function IndexOf(s: string, c: char): (i: nat)
    requires c in s
    ensures i < |s| && s[i] == c && c !in s[..i]
  {
    if s[0] == c then 0 else 1 + IndexOf(s[1..], c)
  }

  lemma IndexOfAfter(a: string, c: char, b: string)
    requires c !in a
    ensures c in a + [c] + b && IndexOf(a + [c] + b, c) == |a|
  {
    var s := a + [c] + b;
    assert s[|a|] == c;
    assert s[..|a|] == a;
  }

  /** `parts.join(sep)`. */
  function Join(parts: seq<string>, sep: string): string {
    if parts == [] then ""
    else if |parts| == 1 then parts[0]
    else parts[0] + sep + Join(parts[1..], sep)
  }

  /** `s.split(sep)` for a one-character separator: the pieces between the
      separators, never containing it, which join back to the input; the
      empty string gives one empty piece. */
  function Split(s: string, sep: char): (parts: seq<string>)
    ensures |parts| >= 1
    ensures forall i :: 0 <= i < |parts| ==> sep !in parts[i]
    decreases |s|
  {
    if sep !in s then [s]
    else
      var i := IndexOf(s, sep);
      [s[..i]] + Split(s[i + 1..], sep)
  }

  /** Joining the pieces with the separator gives the input back. */
  lemma {:induction false} JoinSplit(s: string, sep: char)
    ensures Join(Split(s, sep), [sep]) == s
    decreases |s|
  {
    if sep in s {
      var i := IndexOf(s, sep);
      var head, tail := s[..i], s[i + 1..];
      var rest := Split(tail, sep);
      assert Split(s, sep) == [head] + rest;
      JoinSplit(tail, sep);
      JoinCons(head, rest, [sep]);
      assert Join(Split(s, sep), [sep]) == head + [sep] + tail;
      assert s == s[..i] + [s[i]] + s[i + 1..];
    }
  }

  /** The defining step of Join. */
  lemma JoinCons(head: string, rest: seq<string>, sep: string)
    requires |rest| >= 1
    ensures Join([head] + rest, sep) == head + sep + Join(rest, sep)
  {
    assert ([head] + rest)[1..] == rest;
  }

  /** Splitting undoes joining when no piece contains the separator. */
  lemma {:induction false} SplitJoin(parts: seq<string>, sep: char)
    requires |parts| >= 1
    requires forall i :: 0 <= i < |parts| ==> sep !in parts[i]
    ensures Split(Join(parts, [sep]), sep) == parts
    decreases |parts|
  {
    if |parts| > 1 {
      var rest := Join(parts[1..], [sep]);
      var s := Join(parts, [sep]);
      assert s == parts[0] + [sep] + rest;
      IndexOfAfter(parts[0], sep, rest);
      assert s[..|parts[0]|] == parts[0];
      assert s[|parts[0]| + 1..] == rest;
      SplitJoin(parts[1..], sep);
    }
  }

  /** Characters of the split are the characters of the input, as expected
      of a partition at the separators: the number of pieces is one more than
      the number of separators. */
  function Count(s: string, c: char): nat {
    if s == [] then 0 else (if s[0] == c then 1 else 0) + Count(s[1..], c)
  }

  lemma {:induction false} CountConcat(a: string, b: string, c: char)
    ensures Count(a + b, c) == Count(a, c) + Count(b, c)
  {
    if a != [] {
      assert (a + b)[0] == a[0];
      assert (a + b)[1..] == a[1..] + b;
      CountConcat(a[1..], b, c);
    } else {
      assert a + b == b;
    }
  }

  lemma CountAbsent(s: string, c: char)
    requires c !in s
    ensures Count(s, c) == 0
  {
  }

  lemma {:induction false} SplitCount(s: string, sep: char)
    ensures |Split(s, sep)| == Count(s, sep) + 1
    decreases |s|
  {
    if sep !in s {
      CountAbsent(s, sep);
    } else {
      var i := IndexOf(s, sep);
      assert s == s[..i] + ([sep] + s[i + 1..]);
      CountConcat(s[..i], [sep] + s[i + 1..], sep);
      CountConcat([sep], s[i + 1..], sep);
      CountAbsent(s[..i], sep);
      SplitCount(s[i + 1..], sep);
    }
  }

  predicate IsDigit(c: char) { '0' <= c <= '9' }

  predicate AllDigits(s: string) { forall i :: 0 <= i < |s| ==> IsDigit(s[i]) }

  /** The longest prefix made of decimal digits. */
  function DigitPrefix(s: string): (r: string)
    ensures r <= s && AllDigits(r)
    ensures |r| < |s| ==> !IsDigit(s[|r|])
  {
    if s != [] && IsDigit(s[0]) then [s[0]] + DigitPrefix(s[1..]) else []
  }

  /** The value of a string of decimal digits. */
  function DigitsValue(d: string): nat
    requires AllDigits(d)
  {
    if d == [] then 0 else DigitsValue(d[..|d| - 1]) * 10 + (d[|d| - 1] as int - '0' as int)
  }

  /** `parseInt(s, 10)`: leading white space is skipped, one sign is allowed,
      and the longest run of digits that follows is read; no digit there gives
      NaN, here None. The value is exact (JavaScript loses precision only far
      outside the range of months, which is all the callers look at). */
  function ParseInt(s: string): (r: Option<int>)
    ensures r.None? <==> DigitPrefix(SignStripped(TrimStart(s))) == []
  {
    var t := TrimStart(s);
    var digits := DigitPrefix(SignStripped(t));
    if digits == [] then None
    else
      var v: int := DigitsValue(digits);
      if t[0] == '-' then Some(-v) else Some(v)
  }

  function SignStripped(t: string): string {
    if t != [] && (t[0] == '-' || t[0] == '+') then t[1..] else t
  }

  /** A non-empty string of digits parses to its value. */
  lemma ParseDigits(s: string)
    requires s != [] && AllDigits(s)
    ensures ParseInt(s) == Some(DigitsValue(s))
  {
    var t := TrimStart(s);
    assert t == s by { assert IsDigit(s[0]); }
    assert SignStripped(t) == s by { assert IsDigit(s[0]); }
    DigitPrefixAll(s);
    assert t[0] != '-' by { assert IsDigit(s[0]); }
  }

  lemma {:induction false} DigitPrefixAll(s: string)
    requires AllDigits(s)
    ensures DigitPrefix(s) == s
  {
    if s != [] {
      DigitPrefixAll(s[1..]);
    }
  }

  /** `xs.filter(Boolean)` on strings: the non-empty ones, in order. */
  function Compact(xs: seq<string>): (r: seq<string>)
    ensures |r| <= |xs|
    ensures forall i :: 0 <= i < |r| ==> r[i] != ""
    ensures forall x :: x in r <==> x in xs && x != ""
  {
    if xs == [] then [] else (if xs[0] == "" then [] else [xs[0]]) + Compact(xs[1..])
  }

  /** Compact keeps the relative order: it distributes over concatenation. */
  lemma {:induction false} CompactConcat(a: seq<string>, b: seq<string>)
    ensures Compact(a + b) == Compact(a) + Compact(b)
  {
    if a != [] {
      assert (a + b)[0] == a[0];
      assert (a + b)[1..] == a[1..] + b;
      CompactConcat(a[1..], b);
    } else {
      assert a + b == b;
    }
  }
}
