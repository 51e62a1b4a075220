/**
 * The string primitives the front end relies on: the whitespace class of
 * JavaScript regular expressions and `String.prototype.trim`, ASCII lower
 * casing, substring search (`includes`), `lastIndexOf`, the clamping
 * `slice`, and the `replace(/\s+/g, " ")` whitespace collapse.
 * Strings are sequences of characters.
 */
module Text {

  /** The characters matched by `\s` and stripped by `trim`: the ECMAScript
      WhiteSpace and LineTerminator productions. */
  predicate IsSpace(c: char)
  {
    || c == '\t' || c == '\n' || c == '\U{B}' || c == '\U{C}' || c == '\r'
    || c == ' ' || c == '\U{A0}' || c == '\U{1680}'
    || ('\U{2000}' <= c <= '\U{200A}')
    || c == '\U{2028}' || c == '\U{2029}' || c == '\U{202F}' || c == '\U{205F}'
    || c == '\U{3000}' || c == '\U{FEFF}'
  }

  /** `/\s/.test(s)` */
  predicate HasSpace(s: string)
  {
    exists i :: 0 <= i < |s| && IsSpace(s[i])
  }

  /** Lower-casing of one character; only ASCII letters are mapped. */
  function LowerChar(c: char): (r: char)
    ensures !IsSpace(c) ==> !IsSpace(r)
  {
    if 'A' <= c <= 'Z' then (c as int + 32) as char else c
  }

  /** `s.toLowerCase()` */
  function Lower(s: string): (r: string)
    ensures |r| == |s|
    ensures forall i :: 0 <= i < |s| ==> r[i] == LowerChar(s[i])
  {
    seq(|s|, i requires 0 <= i < |s| => LowerChar(s[i]))
  }

  /** Lower-casing twice is lower-casing once. */
  lemma {:induction false} LowerIdempotent(s: string)
    ensures Lower(Lower(s)) == Lower(s)
  {
    assert forall i :: 0 <= i < |s| ==> LowerChar(LowerChar(s[i])) == LowerChar(s[i]);
  }

  /** `s.startsWith(p)` */
  predicate StartsWith(s: string, p: string)
  {
    |p| <= |s| && s[..|p|] == p
  }

  /** `q` occurs in `s` at offset `i`. */
  predicate OccursAt(q: string, s: string, i: int)
  {
    0 <= i <= |s| - |q| && s[i..i + |q|] == q
  }

  /** The declarative meaning of `s.includes(q)`: `q` occurs at some offset. */
  ghost predicate OccursIn(q: string, s: string)
  {
    exists i :: OccursAt(q, s, i)
  }

  /** `s.includes(q)`, scanning left to right. */
  predicate Includes(s: string, q: string)
  {
    StartsWith(s, q) || (s != [] && Includes(s[1..], q))
  }

  lemma {:induction false} IncludesMeansOccurs(s: string, q: string)
    ensures Includes(s, q) <==> OccursIn(q, s)
  {
    if Includes(s, q) {
      var i := IncludesWitness(s, q);
    }
    if OccursIn(q, s) {
      var i :| OccursAt(q, s, i);
      OccursAtIncludes(s, q, i);
    }
  }

  /** Where `includes` found its match. */
  lemma {:induction false} IncludesWitness(s: string, q: string) returns (i: int)
    requires Includes(s, q)
    ensures OccursAt(q, s, i)
  {
    if StartsWith(s, q) {
      i := 0;
    } else {
      var j := IncludesWitness(s[1..], q);
      assert forall k :: 0 <= k < |q| ==> q[k] == s[1..][j + k] == s[j + 1 + k];
      i := j + 1;
    }
  }

  lemma {:induction false} OccursAtIncludes(s: string, q: string, i: int)
    requires OccursAt(q, s, i)
    ensures Includes(s, q)
    decreases i
  {
    if i > 0 {
      assert forall k :: 0 <= k < |q| ==> q[k] == s[i + k] == s[1..][i - 1 + k];
      OccursAtIncludes(s[1..], q, i - 1);
    }
  }

  /** `s.trimStart()`: the longest suffix of `s` not starting with whitespace. */
  function TrimStart(s: string): (r: string)
    ensures |r| <= |s| && r == s[|s| - |r|..]
    ensures r == [] || !IsSpace(r[0])
    ensures forall i :: 0 <= i < |s| - |r| ==> IsSpace(s[i])
  {
    if s != [] && IsSpace(s[0]) then TrimStart(s[1..]) else s
  }

  /** `s.trimEnd()`: the longest prefix of `s` not ending with whitespace. */
  function TrimEnd(s: string): (r: string)
    ensures |r| <= |s| && r == s[..|r|]
    ensures r == [] || !IsSpace(r[|r| - 1])
    ensures forall i :: |r| <= i < |s| ==> IsSpace(s[i])
  {
    if s != [] && IsSpace(s[|s| - 1]) then TrimEnd(s[..|s| - 1]) else s
  }

  /** `s.trim()` */
  function Trim(s: string): string
  {
    TrimEnd(TrimStart(s))
  }

  /** A string with no whitespace at either end. */
  predicate Trimmed(s: string)
  {
    s == [] || (!IsSpace(s[0]) && !IsSpace(s[|s| - 1]))
  }

  /** `r` is the slice of `s` starting at `a`, and everything of `s` outside
      it is whitespace. */
  ghost predicate CutFromBothEnds(s: string, a: nat, r: string)
  {
    && a + |r| <= |s|
    && r == s[a..a + |r|]
    && (forall i :: 0 <= i < a ==> IsSpace(s[i]))
    && (forall i :: a + |r| <= i < |s| ==> IsSpace(s[i]))
  }

  /** `trim` removes whitespace from both ends and nothing else: its result is
      a slice of the input and everything cut off is whitespace. */
  lemma {:induction false} TrimSpec(s: string)
    ensures CutFromBothEnds(s, |s| - |TrimStart(s)|, Trim(s))
  {
    var t := TrimStart(s);
    var r := TrimEnd(t);
    TrimmedSlice(s, t, r);
    assert Trim(s) == r;
  }

  /** A prefix `r` of a suffix `t` of `s`, with only whitespace cut off on
      both sides, is cut from both ends of `s`. */
  lemma {:induction false} TrimmedSlice(s: string, t: string, r: string)
    requires |t| <= |s| && t == s[|s| - |t|..]
    requires forall i :: 0 <= i < |s| - |t| ==> IsSpace(s[i])
    requires |r| <= |t| && r == t[..|r|]
    requires forall i :: |r| <= i < |t| ==> IsSpace(t[i])
    ensures CutFromBothEnds(s, |s| - |t|, r)
  {
    var a := |s| - |t|;
    forall i | a + |r| <= i < |s| ensures IsSpace(s[i]) {
      assert s[i] == t[i - a];
    }
  }

  lemma {:induction false} TrimIsTrimmed(s: string)
    ensures Trimmed(Trim(s))
  {
    TrimmedEnds(TrimStart(s), TrimEnd(TrimStart(s)));
  }

  /** A prefix of a string bare at its start, itself bare at its end, is
      bare at both ends. */
  lemma {:induction false} TrimmedEnds(t: string, r: string)
    requires t == [] || !IsSpace(t[0])
    requires |r| <= |t| && r == t[..|r|]
    requires r == [] || !IsSpace(r[|r| - 1])
    ensures Trimmed(r)
  {
    if r != [] {
      assert r[0] == t[0];
    }
  }

  /** Trimming a string without outer whitespace changes nothing, so `trim`
      is idempotent. */
  lemma {:induction false} TrimOfTrimmed(s: string)
    requires Trimmed(s)
    ensures Trim(s) == s
  {
  }

  lemma {:induction false} TrimIdempotent(s: string)
    ensures Trim(Trim(s)) == Trim(s)
  {
    TrimIsTrimmed(s);
    TrimOfTrimmed(Trim(s));
  }

  /** The trimmed string is empty exactly when the input is all whitespace. */
  lemma {:induction false} TrimEmptyIffBlank(s: string)
    ensures Trim(s) == [] <==> forall i :: 0 <= i < |s| ==> IsSpace(s[i])
  {
    var t := TrimStart(s);
    if t != [] {
      assert !IsSpace(t[0]);
      assert !IsSpace(s[|s| - |t|]);
    }
  }

  /** `s.replace(/\s+/g, " ")`: every maximal run of whitespace becomes a single space. */
  function CollapseWhitespace(s: string): (r: string)
    ensures |r| <= |s|
    ensures r == [] <==> s == []
    ensures r != [] ==> (IsSpace(r[0]) <==> IsSpace(s[0]))
  {
    if s == [] then []
    else if IsSpace(s[0]) then [' '] + CollapseWhitespace(TrimStart(s[1..]))
    else [s[0]] + CollapseWhitespace(s[1..])
  }

  /** A string in which every whitespace character is a plain space and no
      space is followed by further whitespace: what the collapse produces. */
  predicate Collapsed(s: string)
  {
    forall i :: 0 <= i < |s| && IsSpace(s[i]) ==> s[i] == ' ' && (i + 1 < |s| ==> !IsSpace(s[i + 1]))
  }

  /** The characters of `s` that are not whitespace, in order. */
  function NonSpace(s: string): string
  {
    if s == [] then [] else (if IsSpace(s[0]) then [] else [s[0]]) + NonSpace(s[1..])
  }

  lemma {:induction false} NonSpaceOfSpaces(s: string)
    requires forall i :: 0 <= i < |s| ==> IsSpace(s[i])
    ensures NonSpace(s) == []
  {
    if s != [] {
      NonSpaceOfSpaces(s[1..]);
    }
  }

  lemma {:induction false} NonSpaceTrimStart(s: string)
    ensures NonSpace(TrimStart(s)) == NonSpace(s)
  {
    if s != [] && IsSpace(s[0]) {
      NonSpaceTrimStart(s[1..]);
    }
  }

  /** Concatenation is associative. */
  lemma {:induction false} AppendAssoc(a: string, b: string, c: string)
    ensures a + b + c == a + (b + c)
  {
  }

  /** One step of `NonSpace` on a leading character. */
  lemma {:induction false} NonSpaceCons(c: char, r: string)
    ensures NonSpace([c] + r) == (if IsSpace(c) then [] else [c]) + NonSpace(r)
  {
    assert ([c] + r)[0] == c && ([c] + r)[1..] == r;
  }

  lemma {:induction false} NonSpaceAppend(a: string, b: string)
    ensures NonSpace(a + b) == NonSpace(a) + NonSpace(b)
  {
    if a == [] {
      assert a + b == b;
    } else {
      var c, rest := a[0], a[1..];
      var head := if IsSpace(c) then [] else [c];
      assert a == [c] + rest;
      AppendAssoc([c], rest, b);
      NonSpaceCons(c, rest + b);
      NonSpaceCons(c, rest);
      NonSpaceAppend(rest, b);
      AppendAssoc(head, NonSpace(rest), NonSpace(b));
    }
  }

  lemma {:induction false} NonSpaceTrimEnd(s: string)
    ensures NonSpace(TrimEnd(s)) == NonSpace(s)
  {
    if s != [] && IsSpace(s[|s| - 1]) {
      var init := s[..|s| - 1];
      NonSpaceTrimEnd(init);
      assert s == init + [s[|s| - 1]];
      NonSpaceAppend(init, [s[|s| - 1]]);
      assert NonSpace([s[|s| - 1]]) == [];
    }
  }

  /** Trimming drops only whitespace. */
  lemma {:induction false} TrimKeepsText(s: string)
    ensures NonSpace(Trim(s)) == NonSpace(s)
  {
    NonSpaceTrimStart(s);
    NonSpaceTrimEnd(TrimStart(s));
  }

  /** The collapse leaves a collapsed string. */
  lemma {:induction false} CollapseIsCollapsed(s: string)
    ensures Collapsed(CollapseWhitespace(s))
  {
    if s == [] {
    } else if IsSpace(s[0]) {
      var t := TrimStart(s[1..]);
      CollapseIsCollapsed(t);
      var r := CollapseWhitespace(s);
      var rt := CollapseWhitespace(t);
      assert r == [' '] + rt;
      forall i | 0 <= i < |r| && IsSpace(r[i])
        ensures r[i] == ' ' && (i + 1 < |r| ==> !IsSpace(r[i + 1]))
      {
        if i == 0 {
          if 1 < |r| {
            assert r[1] == rt[0];
          }
        } else {
          assert r[i] == rt[i - 1];
          if i + 1 < |r| { assert r[i + 1] == rt[i]; }
        }
      }
    } else {
      var rt := CollapseWhitespace(s[1..]);
      CollapseIsCollapsed(s[1..]);
      var r := CollapseWhitespace(s);
      assert r == [s[0]] + rt;
      forall i | 0 <= i < |r| && IsSpace(r[i])
        ensures r[i] == ' ' && (i + 1 < |r| ==> !IsSpace(r[i + 1]))
      {
        assert r[i] == rt[i - 1];
        if i + 1 < |r| { assert r[i + 1] == rt[i]; }
      }
    }
  }

  /** The collapse keeps every non-whitespace character, in order. */
  lemma {:induction false} CollapseKeepsText(s: string)
    ensures NonSpace(CollapseWhitespace(s)) == NonSpace(s)
  {
    if s == [] {
    } else if IsSpace(s[0]) {
      var t := TrimStart(s[1..]);
      CollapseKeepsText(t);
      NonSpaceTrimStart(s[1..]);
      assert CollapseWhitespace(s) == [' '] + CollapseWhitespace(t);
      assert NonSpace([' '] + CollapseWhitespace(t)) == NonSpace(CollapseWhitespace(t));
    } else {
      CollapseKeepsText(s[1..]);
      assert CollapseWhitespace(s) == [s[0]] + CollapseWhitespace(s[1..]);
      assert ([s[0]] + CollapseWhitespace(s[1..]))[1..] == CollapseWhitespace(s[1..]);
    }
  }

  /** The collapse ends in whitespace exactly when the input does. */
  lemma {:induction false} CollapseLast(s: string)
    requires s != []
    ensures var r := CollapseWhitespace(s);
            IsSpace(r[|r| - 1]) <==> IsSpace(s[|s| - 1])
  {
    var r := CollapseWhitespace(s);
    var rest := s[1..];
    var last := s[|s| - 1];
    assert rest != [] ==> rest[|rest| - 1] == last;
    if IsSpace(s[0]) {
      var t := TrimStart(rest);
      var rt := CollapseWhitespace(t);
      assert r == [' '] + rt;
      LastOfCons(' ', rt);
      if t != [] {
        CollapseLast(t);
        assert t[|t| - 1] == last;
        assert r[|r| - 1] == rt[|rt| - 1];
      } else {
        assert IsSpace(last);
        assert r[|r| - 1] == ' ';
      }
    } else if rest != [] {
      var rt := CollapseWhitespace(rest);
      assert r == [s[0]] + rt;
      LastOfCons(s[0], rt);
      CollapseLast(rest);
      assert r[|r| - 1] == rt[|rt| - 1];
    } else {
      assert r == [s[0]];
    }
  }

  /** The last character of `[c] + x`. */
  lemma {:induction false} LastOfCons(c: char, x: string)
    ensures ([c] + x)[|x|] == if x == [] then c else x[|x| - 1]
  {
  }

  /** Cutting a collapsed string short and ending it with a non-whitespace
      character leaves it collapsed. */
  lemma {:induction false} CollapsedTruncate(s: string, n: nat, c: char)
    requires Collapsed(s) && n <= |s| && !IsSpace(c)
    ensures Collapsed(s[..n] + [c])
  {
    var r := s[..n] + [c];
    forall i | 0 <= i < |r| && IsSpace(r[i])
      ensures r[i] == ' ' && (i + 1 < |r| ==> !IsSpace(r[i + 1]))
    {
      assert i < n && r[i] == s[i];
      if i + 1 < n { assert r[i + 1] == s[i + 1]; }
    }
  }

  /** A string that is already collapsed is left unchanged. */
  lemma {:induction false} CollapseOfCollapsed(s: string)
    requires Collapsed(s)
    ensures CollapseWhitespace(s) == s
  {
    if s != [] {
      assert Collapsed(s[1..]) by {
        forall i | 0 <= i < |s[1..]| && IsSpace(s[1..][i])
          ensures s[1..][i] == ' ' && (i + 1 < |s[1..]| ==> !IsSpace(s[1..][i + 1]))
        {
          assert s[1..][i] == s[i + 1];
        }
      }
      if IsSpace(s[0]) {
        assert s[0] == ' ';
        if |s| > 1 {
          assert !IsSpace(s[1..][0]);
        }
        assert TrimStart(s[1..]) == s[1..];
      }
      CollapseOfCollapsed(s[1..]);
    }
  }

  /** Trimming the start of a concatenation: when `a` is all whitespace the
      trim continues into `b`, otherwise `b` is kept whole. */
  lemma {:induction false} TrimStartAppend(a: string, b: string)
    ensures TrimStart(a + b) == if TrimStart(a) == [] then TrimStart(b) else TrimStart(a) + b
  {
    if a == [] {
      assert a + b == b;
    } else {
      assert (a + b)[0] == a[0] && (a + b)[1..] == a[1..] + b;
      if IsSpace(a[0]) {
        TrimStartAppend(a[1..], b);
      }
    }
  }

  /** One step of the collapse on a leading whitespace character. */
  lemma {:induction false} CollapseConsSpace(c: char, r: string)
    requires IsSpace(c)
    ensures CollapseWhitespace([c] + r) == [' '] + CollapseWhitespace(TrimStart(r))
  {
    assert ([c] + r)[0] == c && ([c] + r)[1..] == r;
  }

  /** One step of the collapse on a leading non-whitespace character. */
  lemma {:induction false} CollapseConsText(c: char, r: string)
    requires !IsSpace(c)
    ensures CollapseWhitespace([c] + r) == [c] + CollapseWhitespace(r)
  {
    assert ([c] + r)[0] == c && ([c] + r)[1..] == r;
  }

  /** Two strings with the same collapse keep it behind a common first character. */
  lemma {:induction false} CollapseSameCons(c: char, a: string, b: string)
    requires IsSpace(c) ==> CollapseWhitespace(TrimStart(a)) == CollapseWhitespace(TrimStart(b))
    requires !IsSpace(c) ==> CollapseWhitespace(a) == CollapseWhitespace(b)
    ensures CollapseWhitespace([c] + a) == CollapseWhitespace([c] + b)
  {
    if IsSpace(c) {
      CollapseConsSpace(c, a);
      CollapseConsSpace(c, b);
    } else {
      CollapseConsText(c, a);
      CollapseConsText(c, b);
    }
  }

  /** A leading whitespace character is trimmed away. */
  lemma {:induction false} TrimStartSpaceCons(c: char, r: string)
    requires IsSpace(c)
    ensures TrimStart([c] + r) == TrimStart(r)
  {
    assert ([c] + r)[0] == c && ([c] + r)[1..] == r;
  }

  /** Splitting off the first character of a string with a middle part. */
  lemma {:induction false} SplitFirst(x: string, m: string, y: string)
    requires x != []
    ensures x + m + y == [x[0]] + (x[1..] + m + y)
  {
    assert x == [x[0]] + x[1..];
    AppendAssoc([x[0]], x[1..], m);
    AppendAssoc([x[0]], x[1..] + m, y);
  }

  /** Nothing in front of a string with a middle part. */
  lemma {:induction false} EmptyPrefix(x: string, m: string, y: string)
    requires x == []
    ensures x + m + y == m + y
  {
  }

  /** `TrimStartAppend` for a string split around a middle part. */
  lemma {:induction false} TrimStartAround(x: string, m: string, y: string)
    ensures TrimStart(x + m + y) == if TrimStart(x) == [] then TrimStart(m + y) else TrimStart(x) + m + y
  {
    AppendAssoc(x, m, y);
    TrimStartAppend(x, m + y);
    AppendAssoc(TrimStart(x), m, y);
  }

  /** Every whitespace character counts as a space: replacing one by `' '`
      does not change the collapse. */
  lemma {:induction false} CollapseSpaceAsBlank(x: string, w: char, y: string)
    requires IsSpace(w)
    ensures CollapseWhitespace(x + [w] + y) == CollapseWhitespace(x + [' '] + y)
    decreases |x|, 1
  {
    if x == [] {
      EmptyPrefix(x, [w], y);
      EmptyPrefix(x, [' '], y);
      CollapseSameCons(w, y, y);
      CollapseSameCons(' ', y, y);
    } else {
      SplitFirst(x, [w], y);
      SplitFirst(x, [' '], y);
      CollapseSpaceAsBlankCons(x[0], x[1..], w, y);
    }
  }

  /** The step of `CollapseSpaceAsBlank` past the first character. */
  lemma {:induction false} CollapseSpaceAsBlankCons(c: char, xs: string, w: char, y: string)
    requires IsSpace(w)
    ensures CollapseWhitespace([c] + (xs + [w] + y)) == CollapseWhitespace([c] + (xs + [' '] + y))
    decreases |xs| + 1, 0
  {
    var a, b := xs + [w] + y, xs + [' '] + y;
    if IsSpace(c) {
      TrimStartAround(xs, [w], y);
      TrimStartAround(xs, [' '], y);
      if TrimStart(xs) == [] {
        TrimStartSpaceCons(w, y);
        TrimStartSpaceCons(' ', y);
      } else {
        CollapseSpaceAsBlank(TrimStart(xs), w, y);
      }
    } else {
      CollapseSpaceAsBlank(xs, w, y);
    }
    CollapseSameCons(c, a, b);
  }

  /** After a whitespace character only the trimmed rest matters to the
      collapse. */
  lemma {:induction false} CollapseAfterSpace(x: string, p: char, y1: string, y2: string)
    requires IsSpace(p) && TrimStart(y1) == TrimStart(y2)
    ensures CollapseWhitespace(x + [p] + y1) == CollapseWhitespace(x + [p] + y2)
    decreases |x|, 1
  {
    if x == [] {
      EmptyPrefix(x, [p], y1);
      EmptyPrefix(x, [p], y2);
      CollapseSameCons(p, y1, y2);
    } else {
      SplitFirst(x, [p], y1);
      SplitFirst(x, [p], y2);
      CollapseAfterSpaceCons(x[0], x[1..], p, y1, y2);
    }
  }

  /** The step of `CollapseAfterSpace` past the first character. */
  lemma {:induction false} CollapseAfterSpaceCons(c: char, xs: string, p: char, y1: string, y2: string)
    requires IsSpace(p) && TrimStart(y1) == TrimStart(y2)
    ensures CollapseWhitespace([c] + (xs + [p] + y1)) == CollapseWhitespace([c] + (xs + [p] + y2))
    decreases |xs| + 1, 0
  {
    var a, b := xs + [p] + y1, xs + [p] + y2;
    if IsSpace(c) {
      TrimStartAround(xs, [p], y1);
      TrimStartAround(xs, [p], y2);
      if TrimStart(xs) == [] {
        TrimStartSpaceCons(p, y1);
        TrimStartSpaceCons(p, y2);
      } else {
        CollapseAfterSpace(TrimStart(xs), p, y1, y2);
      }
    } else {
      CollapseAfterSpace(xs, p, y1, y2);
    }
    CollapseSameCons(c, a, b);
  }

  /** A whitespace run counts once: dropping the second of two adjacent
      whitespace characters does not change the collapse. */
  lemma {:induction false} CollapseDropSpace(x: string, p: char, q: char, y: string)
    requires IsSpace(p) && IsSpace(q)
    ensures CollapseWhitespace(x + [p, q] + y) == CollapseWhitespace(x + [p] + y)
  {
    TrimStartSpaceCons(q, y);
    CollapseAfterSpace(x, p, [q] + y, y);
    assert [p, q] == [p] + [q];
    AppendAssoc(x, [p], [q]);
    AppendAssoc(x + [p], [q], y);
  }

  /** The position of the last `c` in `s`, or -1: `s.lastIndexOf(c)`. */
  function LastIndexOf(s: string, c: char): (r: int)
    ensures -1 <= r < |s|
    ensures r >= 0 ==> s[r] == c
    ensures forall j :: r < j < |s| ==> s[j] != c
  {
    if s == [] then -1
    else if s[|s| - 1] == c then |s| - 1
    else LastIndexOf(s[..|s| - 1], c)
  }

  function Min(a: int, b: int): int
  {
    if a <= b then a else b
  }

  /** `s.slice(0, n)` for a non-negative `n`: clamped to the length. */
  function SliceTo(s: string, n: nat): (r: string)
    ensures |r| == Min(n, |s|) && r == s[..|r|]
  {
    s[..Min(n, |s|)]
  }

  /** `s.slice(n)` for a non-negative `n`: empty when `n` is past the end. */
  function SliceFrom(s: string, n: nat): (r: string)
    ensures |r| == |s| - Min(n, |s|) && r == s[|s| - |r|..]
  {
    s[Min(n, |s|)..]
  }
}
