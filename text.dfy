/** Python string operations the core relies on, over `seq<char>`: whitespace as
  * `str.isspace()` sees it, `strip`, `split()`, `join`, ASCII case mapping, substring
  * tests, `replace`, and the code-point order Python and SQLite use to compare strings. */
module Text {

  // ---------------------------------------------------------------------------
  // Whitespace, strip, split, join
  // ---------------------------------------------------------------------------

  /** The characters for which Python's `str.isspace()` holds. */
  predicate IsSpace(c: char)
  {
    c == ' ' || ('\t' <= c <= '\r') || ('\U{1c}' <= c <= '\U{1f}')
    || c == '\U{85}' || c == '\U{a0}' || c == '\U{1680}'
    || ('\U{2000}' <= c <= '\U{200a}') || c == '\U{2028}' || c == '\U{2029}'
    || c == '\U{202f}' || c == '\U{205f}' || c == '\U{3000}'
  }

  /** A string Python's `s.strip()` turns into the empty string. */
  predicate Blank(s: string)
  {
    forall i :: 0 <= i < |s| ==> IsSpace(s[i])
  }

  /** `s.lstrip()` */
  function StripLeft(s: string): (r: string)
    ensures |r| <= |s| && r == s[|s| - |r|..]
    ensures r == [] || !IsSpace(r[0])
    ensures Blank(s[..|s| - |r|])
    decreases |s|
  {
    if |s| > 0 && IsSpace(s[0]) then
      var r := StripLeft(s[1..]);
      assert s[1..][..|s[1..]| - |r|] == s[1..|s| - |r|];
      var p := s[..|s| - |r|];
      assert Blank(p) by {
        forall i | 0 <= i < |p|
          ensures IsSpace(p[i])
        {
          if 0 < i {
            assert p[i] == s[1..|s| - |r|][i - 1];
          }
        }
      }
      r
    else s
  }

  /** `s.rstrip()` */
  function StripRight(s: string): (r: string)
    ensures |r| <= |s| && r == s[..|r|]
    ensures r == [] || !IsSpace(r[|r| - 1])
    ensures Blank(s[|r|..])
    decreases |s|
  {
    if |s| > 0 && IsSpace(s[|s| - 1]) then
      var r := StripRight(s[..|s| - 1]);
      assert s[..|s| - 1][|r|..] == s[|r|..|s| - 1];
      assert Blank(s[|r|..]) by {
        forall i | 0 <= i < |s| - |r|
          ensures IsSpace(s[|r|..][i])
        {
          if |r| + i < |s| - 1 {
            assert s[|r|..][i] == s[|r|..|s| - 1][i];
          }
        }
      }
      r
    else s
  }

  /** `s.strip()` */
  function Strip(s: string): string
  {
    StripRight(StripLeft(s))
  }

  lemma StripLeftOfBlank(s: string)
    requires Blank(s)
    ensures StripLeft(s) == []
  {
  }

  lemma StripRightKeepsNonSpace(s: string, i: int)
    requires 0 <= i < |s| && !IsSpace(s[i])
    ensures i < |StripRight(s)|
  {
  }

  /** `s.strip()` is empty exactly when every character of `s` is whitespace. */
  lemma StripEmptyIffBlank(s: string)
    ensures Strip(s) == [] <==> Blank(s)
  {
    var l := StripLeft(s);
    if Blank(s) {
      StripLeftOfBlank(s);
    } else {
      var i :| 0 <= i < |s| && !IsSpace(s[i]);
      StripRightKeepsNonSpace(l, 0);
    }
  }

  /** A string that starts and ends with non-whitespace is its own `strip()`. */
  lemma StripUnchanged(s: string)
    requires s != [] ==> !IsSpace(s[0]) && !IsSpace(s[|s| - 1])
    ensures Strip(s) == s
  {
  }

  /** The longest prefix of `s` free of whitespace. */
  function TakeWord(s: string): (w: string)
    ensures |w| <= |s| && w == s[..|w|]
    ensures forall i :: 0 <= i < |w| ==> !IsSpace(w[i])
    ensures |w| < |s| ==> IsSpace(s[|w|])
    decreases |s|
  {
    if |s| > 0 && !IsSpace(s[0]) then [s[0]] + TakeWord(s[1..]) else []
  }

  /** A non-empty string free of whitespace: what `str.split()` produces. */
  predicate IsWord(w: string)
  {
    w != [] && forall i :: 0 <= i < |w| ==> !IsSpace(w[i])
  }

  /** `s.split()`: the maximal whitespace-free runs of `s`, in order. */
  function Words(s: string): (ws: seq<string>)
    ensures forall k :: 0 <= k < |ws| ==> IsWord(ws[k])
    decreases |s|
  {
    var t := StripLeft(s);
    if t == [] then []
    else
      var w := TakeWord(t);
      TakeWordIsWord(t);
      var rest := Words(t[|w|..]);
      WordsCons(w, rest);
      [w] + rest
  }

  lemma TakeWordIsWord(t: string)
    requires t != [] && !IsSpace(t[0])
    ensures IsWord(TakeWord(t))
  {
    assert TakeWord(t)[0] == t[0];
  }

  lemma WordsCons(w: string, rest: seq<string>)
    requires IsWord(w) && forall k :: 0 <= k < |rest| ==> IsWord(rest[k])
    ensures forall k :: 0 <= k < |[w] + rest| ==> IsWord(([w] + rest)[k])
  {
  }

  /** `sep.join(parts)` */
  function Join(sep: string, parts: seq<string>): string
  {
    if |parts| == 0 then ""
    else if |parts| == 1 then parts[0]
    else parts[0] + sep + Join(sep, parts[1..])
  }

  /** `" ".join(s.split())`: every whitespace run becomes one space, none at either end. */
  function Collapse(s: string): string
  {
    Join(" ", Words(s))
  }

  /** A string in which whitespace only ever appears as single spaces between words. */
  predicate SingleSpaced(s: string)
  {
    Collapse(s) == s
  }

  lemma TakeWordWhole(w: string, rest: string)
    requires forall i :: 0 <= i < |w| ==> !IsSpace(w[i])
    requires rest == [] || IsSpace(rest[0])
    ensures TakeWord(w + rest) == w
  {
    if w != [] {
      assert (w + rest)[1..] == w[1..] + rest;
      TakeWordWhole(w[1..], rest);
    }
  }

  lemma WordsOfSpaceThen(x: string)
    ensures Words(" " + x) == Words(x)
  {
    assert (" " + x)[1..] == x;
  }

  /** Splitting a space-joined list of words gives the words back. */
  lemma {:induction false} WordsOfJoin(ws: seq<string>)
    requires forall k :: 0 <= k < |ws| ==> IsWord(ws[k])
    ensures Words(Join(" ", ws)) == ws
    decreases |ws|
  {
    if |ws| == 0 {
    } else if |ws| == 1 {
      var w := ws[0];
      TakeWordWhole(w, []);
      assert w + [] == w;
      assert w[|w|..] == [];
    } else {
      var w := ws[0];
      var j := Join(" ", ws[1..]);
      var s := w + " " + j;
      assert Join(" ", ws) == s;
      assert StripLeft(s) == s;
      assert s == w + (" " + j);
      TakeWordWhole(w, " " + j);
      assert s[|w|..] == " " + j;
      WordsOfJoin(ws[1..]);
      WordsOfSpaceThen(j);
    }
  }

  lemma SliceElements<X>(s: seq<X>, i: int, j: int)
    requires 0 <= i <= j <= |s|
    ensures forall x :: x in s[i..j] ==> x in s
  {
    forall x | x in s[i..j] ensures x in s {
      var k :| 0 <= k < j - i && s[i..j][k] == x;
      assert s[i + k] == x;
    }
  }

  lemma StripLeftOmits(s: string, d: char)
    requires d !in s
    ensures d !in StripLeft(s)
  {
    var t := StripLeft(s);
    SliceElements(s, |s| - |t|, |s|);
    assert s[|s| - |t|..|s|] == t;
  }

  lemma TakeWordOmits(t: string, d: char)
    requires d !in t
    ensures d !in TakeWord(t) && d !in t[|TakeWord(t)|..]
  {
    var w := TakeWord(t);
    SliceElements(t, 0, |w|);
    assert t[0..|w|] == w;
    SliceElements(t, |w|, |t|);
    assert t[|w|..|t|] == t[|w|..];
  }

  lemma WordsUnfold(s: string)
    requires StripLeft(s) != []
    ensures Words(s) == [TakeWord(StripLeft(s))] + Words(StripLeft(s)[|TakeWord(StripLeft(s))|..])
  {
  }

  /** A character missing from `s` is missing from each of its words. */
  lemma {:induction false} WordsOmit(s: string, d: char)
    requires d !in s
    ensures forall k :: 0 <= k < |Words(s)| ==> d !in Words(s)[k]
    decreases |s|
  {
    var t := StripLeft(s);
    if t != [] {
      StripLeftOmits(s, d);
      TakeWordOmits(t, d);
      WordsUnfold(s);
      var w := TakeWord(t);
      var rest := t[|w|..];
      WordsOmit(rest, d);
      var ws := Words(s);
      forall k | 0 <= k < |ws| ensures d !in ws[k] {
        if k > 0 {
          assert ws[k] == Words(rest)[k - 1];
        }
      }
    }
  }

  /** Collapsing whitespace keeps the words, in order. */
  lemma CollapseKeepsWords(s: string)
    ensures Words(Collapse(s)) == Words(s)
  {
    WordsOfJoin(Words(s));
  }

  /** Collapsing whitespace twice changes nothing more. */
  lemma CollapseIsSingleSpaced(s: string)
    ensures SingleSpaced(Collapse(s))
  {
    CollapseKeepsWords(s);
  }

  /** A space-joined list of words starts and ends with a non-space character. */
  lemma {:induction false} JoinEnds(ws: seq<string>)
    requires forall k :: 0 <= k < |ws| ==> IsWord(ws[k])
    ensures var j := Join(" ", ws); j == [] <==> ws == []
    ensures var j := Join(" ", ws); j != [] ==> !IsSpace(j[0]) && !IsSpace(j[|j| - 1])
    decreases |ws|
  {
    if |ws| > 1 {
      JoinEnds(ws[1..]);
      var j := Join(" ", ws[1..]);
      assert Join(" ", ws) == ws[0] + " " + j;
      assert (ws[0] + " " + j)[0] == ws[0][0];
    }
  }

  /** A single-spaced string has no whitespace at either end. */
  lemma SingleSpacedIsStripped(s: string)
    requires SingleSpaced(s)
    ensures Strip(s) == s
  {
    JoinEnds(Words(s));
    StripUnchanged(s);
  }

  // ---------------------------------------------------------------------------
  // ASCII case mapping
  // ---------------------------------------------------------------------------

  function LowerChar(c: char): char
  {
    if 'A' <= c <= 'Z' then (c as int + 32) as char else c
  }

  function UpperChar(c: char): char
  {
    if 'a' <= c <= 'z' then (c as int - 32) as char else c
  }

  /** `s.lower()`, for the ASCII letters. */
  function Lower(s: string): (r: string)
    ensures |r| == |s|
    ensures forall i :: 0 <= i < |s| ==> r[i] == LowerChar(s[i])
  {
    seq(|s|, i requires 0 <= i < |s| => LowerChar(s[i]))
  }

  /** `w.capitalize()`, for the ASCII letters: first character upper-cased, rest lower-cased. */
  function Capitalize(w: string): (r: string)
    ensures |r| == |w|
    ensures r != [] ==> r[0] == UpperChar(w[0]) && r[1..] == Lower(w[1..])
  {
    if w == [] then [] else [UpperChar(w[0])] + Lower(w[1..])
  }

  lemma CapitalizeKeepsSpaces(w: string)
    ensures forall i :: 0 <= i < |w| ==> (IsSpace(Capitalize(w)[i]) <==> IsSpace(w[i]))
  {
    var r := Capitalize(w);
    forall i | 0 <= i < |w|
      ensures IsSpace(r[i]) <==> IsSpace(w[i])
    {
      if i > 0 {
        assert r[i] == r[1..][i - 1];
      }
    }
  }

  // ---------------------------------------------------------------------------
  // Prefix, suffix and substring tests (generic: used on strings and on bytes)
  // ---------------------------------------------------------------------------

  /** `s.startswith(p)` */
  predicate StartsWith<T(==)>(s: seq<T>, p: seq<T>)
  {
    |p| <= |s| && s[..|p|] == p
  }

  /** `s.endswith(p)` */
  predicate EndsWith<T(==)>(s: seq<T>, p: seq<T>)
  {
    |p| <= |s| && s[|s| - |p|..] == p
  }

  /** `sub in s` */
  predicate Contains<T(==)>(s: seq<T>, sub: seq<T>)
    decreases |s|
  {
    StartsWith(s, sub) || (|s| > 0 && Contains(s[1..], sub))
  }

  /** `sub` occurs in `s` starting at position `k`. */
  predicate OccursAt<T(==)>(s: seq<T>, sub: seq<T>, k: int)
  {
    0 <= k <= |s| - |sub| && s[k..k + |sub|] == sub
  }

  /** `sub in s` holds exactly when `sub` occurs at some position of `s`. */
  lemma {:induction false} ContainsAt<T>(s: seq<T>, sub: seq<T>)
    ensures Contains(s, sub) <==> exists k :: OccursAt(s, sub, k)
    decreases |s|
  {
    if StartsWith(s, sub) {
      assert OccursAt(s, sub, 0);
    }
    if |s| > 0 {
      ContainsAt(s[1..], sub);
      if Contains(s[1..], sub) {
        var k :| OccursAt(s[1..], sub, k);
        assert s[k + 1..k + 1 + |sub|] == sub;
        assert OccursAt(s, sub, k + 1);
      }
      if exists k :: OccursAt(s, sub, k) {
        var k :| OccursAt(s, sub, k);
        if k > 0 {
          assert s[1..][k - 1..k - 1 + |sub|] == sub;
          assert OccursAt(s[1..], sub, k - 1);
        }
      }
    } else {
      if exists k :: OccursAt(s, sub, k) {
        var k :| OccursAt(s, sub, k);
        assert k == 0;
      }
    }
  }

  /** An occurrence at a known position proves `sub in s`. */
  lemma ContainsWitness<T>(s: seq<T>, sub: seq<T>, k: int)
    requires OccursAt(s, sub, k)
    ensures Contains(s, sub)
  {
    ContainsAt(s, sub);
  }

  /** `sub` cannot occur in `s` when one of its elements is missing from `s`. */
  lemma {:induction false} MissingElement<T>(s: seq<T>, sub: seq<T>, c: T)
    requires c in sub && c !in s
    ensures !Contains(s, sub)
    decreases |s|
  {
    if |s| > 0 {
      MissingElement(s[1..], sub, c);
    }
  }

  /** A prefix of `s` occurs in `s`. */
  lemma PrefixContained<T>(s: seq<T>, sub: seq<T>)
    requires StartsWith(s, sub)
    ensures Contains(s, sub)
  {
  }

  /** An occurrence inside a part of a concatenation is an occurrence in the whole. */
  lemma ContainsInConcat<T>(a: seq<T>, b: seq<T>, c: seq<T>, sub: seq<T>)
    requires Contains(b, sub)
    ensures Contains(a + b + c, sub)
  {
    ContainsAt(b, sub);
    var k :| OccursAt(b, sub, k);
    assert (a + b + c)[|a| + k..|a| + k + |sub|] == sub;
    ContainsWitness(a + b + c, sub, |a| + k);
  }

  // ---------------------------------------------------------------------------
  // Replacement and cutting
  // ---------------------------------------------------------------------------

  /** `s.replace(c, rep)` for a one-character pattern: each `c` becomes `rep`. */
  function ReplaceChar(s: string, c: char, rep: string): (r: string)
    ensures c !in s ==> r == s
    decreases |s|
  {
    if s == [] then []
    else (if s[0] == c then rep else [s[0]]) + ReplaceChar(s[1..], c, rep)
  }

  lemma {:induction false} ReplaceCharConcat(a: string, b: string, c: char, rep: string)
    ensures ReplaceChar(a + b, c, rep) == ReplaceChar(a, c, rep) + ReplaceChar(b, c, rep)
    decreases |a|
  {
    if a == [] {
      assert a + b == b;
    } else {
      assert (a + b)[1..] == a[1..] + b;
      ReplaceCharConcat(a[1..], b, c, rep);
    }
  }

  lemma {:induction false} ReplaceCharNoSpace(s: string, c: char, rep: string)
    requires forall i :: 0 <= i < |s| ==> !IsSpace(s[i])
    requires forall i :: 0 <= i < |rep| ==> !IsSpace(rep[i])
    ensures forall i :: 0 <= i < |ReplaceChar(s, c, rep)| ==> !IsSpace(ReplaceChar(s, c, rep)[i])
    decreases |s|
  {
    if s != [] {
      ReplaceCharNoSpace(s[1..], c, rep);
    }
  }

  lemma {:induction false} ReplaceCharOmits(s: string, c: char, rep: string, d: char)
    requires d !in rep && (d == c || d !in s)
    ensures d !in ReplaceChar(s, c, rep)
    decreases |s|
  {
    if s != [] {
      ReplaceCharOmits(s[1..], c, rep, d);
    }
  }

  /** `s.replace(pat, rep)`: occurrences found left to right, without overlap. */
  function Replace(s: string, pat: string, rep: string): (r: string)
    requires pat != []
    ensures !Contains(s, pat) ==> r == s
    decreases |s|
  {
    if s == [] then []
    else if StartsWith(s, pat) then rep + Replace(s[|pat|..], pat, rep)
    else [s[0]] + Replace(s[1..], pat, rep)
  }

  /** `s.split(sep)[0]`: everything before the first occurrence of `sep`. */
  function BeforeFirst(s: string, sep: string): (r: string)
    requires sep != []
    ensures |r| <= |s| && r == s[..|r|]
    ensures !Contains(s, sep) ==> r == s
    ensures |r| < |s| ==> StartsWith(s[|r|..], sep)
    decreases |s|
  {
    if s == [] || StartsWith(s, sep) then [] else [s[0]] + BeforeFirst(s[1..], sep)
  }

  /** `s.rstrip(c)` */
  function RStripChar(s: string, c: char): (r: string)
    ensures |r| <= |s| && r == s[..|r|]
    ensures r == [] || r[|r| - 1] != c
    decreases |s|
  {
    if s != [] && s[|s| - 1] == c then RStripChar(s[..|s| - 1], c) else s
  }

  /** `s.split(c)[-1]`: everything after the last `c`. */
  function AfterLast(s: string, c: char): (r: string)
    ensures |r| <= |s| && r == s[|s| - |r|..]
    ensures c !in r
    ensures |r| < |s| ==> s[|s| - |r| - 1] == c
    decreases |s|
  {
    if s == [] || s[|s| - 1] == c then []
    else AfterLast(s[..|s| - 1], c) + [s[|s| - 1]]
  }

  /** The part of `s` before the first character that is in `stops` (all of `s` if none is). */
  function UntilAny(s: string, stops: string): (r: string)
    ensures |r| <= |s| && r == s[..|r|]
    ensures forall i :: 0 <= i < |r| ==> r[i] !in stops
    ensures |r| < |s| ==> s[|r|] in stops
    decreases |s|
  {
    if s == [] || s[0] in stops then [] else [s[0]] + UntilAny(s[1..], stops)
  }

  lemma UntilAnyConcat(a: string, b: string, stops: string)
    requires forall i :: 0 <= i < |a| ==> a[i] !in stops
    requires b == [] || b[0] in stops
    ensures UntilAny(a + b, stops) == a
  {
    if a != [] {
      var ab := a + b;
      assert ab[0] == a[0] && ab[0] !in stops;
      assert ab[1..] == a[1..] + b;
      UntilAnyConcat(a[1..], b, stops);
      assert UntilAny(ab, stops) == [a[0]] + UntilAny(ab[1..], stops);
      assert a == [a[0]] + a[1..];
    } else {
      assert a + b == b;
    }
  }

  // ---------------------------------------------------------------------------
  // Code-point order (Python `<` on str, SQLite's default text collation)
  // ---------------------------------------------------------------------------

  /** `a <= b` in lexicographic code-point order. */
  predicate LexLe(a: string, b: string)
    decreases |a|
  {
    a == [] || (b != [] && (a[0] < b[0] || (a[0] == b[0] && LexLe(a[1..], b[1..]))))
  }

  lemma {:induction false} LexLeTotal(a: string, b: string)
    ensures LexLe(a, b) || LexLe(b, a)
    decreases |a|
  {
    if a != [] && b != [] && a[0] == b[0] {
      LexLeTotal(a[1..], b[1..]);
    }
  }

  lemma {:induction false} LexLeTrans(a: string, b: string, c: string)
    requires LexLe(a, b) && LexLe(b, c)
    ensures LexLe(a, c)
    decreases |a|
  {
    if a != [] && a[0] == b[0] && b[0] == c[0] {
      LexLeTrans(a[1..], b[1..], c[1..]);
    }
  }

  lemma {:induction false} LexLeAntisym(a: string, b: string)
    requires LexLe(a, b) && LexLe(b, a)
    ensures a == b
    decreases |a|
  {
    if a != [] {
      LexLeAntisym(a[1..], b[1..]);
      assert a == [a[0]] + a[1..] && b == [b[0]] + b[1..];
    }
  }
}
