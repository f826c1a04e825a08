/** Text operations of JavaScript and Python, over ASCII. Case mapping,
    whitespace and ordering follow the ASCII subset of the Unicode rules the
    runtimes apply. */
module Strings {
  import opened Seqs

  // ----- whitespace and case -----

  /** Whitespace removed by JavaScript `String.prototype.trim` (ASCII part). */
  predicate IsJsSpace(c: char)
  {
    c == ' ' || c == '\t' || c == '\n' || c == '\r' || c as int == 0x0B || c as int == 0x0C
  }

  /** Whitespace for Python `str.strip()` and `str.split()` (ASCII part of
      `str.isspace`, which also counts the separators 0x1c to 0x1f). */
  predicate IsPySpace(c: char)
  {
    IsJsSpace(c) || (0x1C <= c as int <= 0x1F)
  }

  predicate IsUpper(c: char) { 'A' <= c <= 'Z' }

  predicate IsLower(c: char) { 'a' <= c <= 'z' }

  predicate IsLetter(c: char) { IsUpper(c) || IsLower(c) }

  function LowerChar(c: char): char
  {
    if IsUpper(c) then (c as int + 32) as char else c
  }

  function UpperChar(c: char): char
  {
    if IsLower(c) then (c as int - 32) as char else c
  }

  /** `toLowerCase()`. */
  function Lower(s: string): (r: string)
    ensures |r| == |s|
    ensures forall i :: 0 <= i < |s| ==> r[i] == LowerChar(s[i])
  {
    seq(|s|, i requires 0 <= i < |s| => LowerChar(s[i]))
  }

  // ----- searching -----

  /** `hay.includes(needle)` / Python `needle in hay`. */
  predicate Contains(hay: string, needle: string)
  {
    exists i :: 0 <= i <= |hay| && OccursAt(hay, needle, i)
  }

  predicate OccursAt(hay: string, needle: string, i: nat)
  {
    i + |needle| <= |hay| && hay[i..i + |needle|] == needle
  }

  lemma ContainsEmpty(hay: string)
    ensures Contains(hay, "")
  {
    assert OccursAt(hay, "", 0);
  }

  /** `s.startsWith(prefix)`. */
  predicate StartsWith(s: string, prefix: string)
  {
    |prefix| <= |s| && s[..|prefix|] == prefix
  }

  /** A URL that starts with `http://` or `https://`. */
  predicate HasProtocol(url: string)
  {
    StartsWith(url, "http://") || StartsWith(url, "https://")
  }

  /** The position of the first `c` in `s`. */
  function IndexOf(s: string, c: char): (i: nat)
    requires c in s
    ensures i < |s| && s[i] == c && c !in s[..i]
  {
    if s[0] == c then 0 else 1 + IndexOf(s[1..], c)
  }

  /** The position of the last `c` in `s`. */
  function LastIndexOf(s: string, c: char): (i: nat)
    requires c in s
    ensures i < |s| && s[i] == c && c !in s[i + 1..]
  {
    if s[|s| - 1] == c then |s| - 1
    else
      assert c in s[..|s| - 1] by {
        var k :| 0 <= k < |s| && s[k] == c;
        assert s[..|s| - 1][k] == c;
      }
      var i := LastIndexOf(s[..|s| - 1], c);
      assert s[i + 1..] == s[..|s| - 1][i + 1..] + [s[|s| - 1]];
      i
  }

  lemma IndexOfUnique(s: string, c: char, k: nat)
    requires k < |s| && s[k] == c && c !in s[..k]
    ensures IndexOf(s, c) == k
    decreases k
  {
    if k > 0 {
      assert s[..k][0] == s[0];
      assert s[1..][..k - 1] == s[1..k];
      IndexOfUnique(s[1..], c, k - 1);
    }
  }

  // ----- stripping -----

  /** `s` without its leading characters satisfying `ws` (`lstrip`). */
  function StripLeft(s: string, ws: char -> bool): (r: string)
    ensures |r| <= |s| && r == s[|s| - |r|..]
    ensures r == [] || !ws(r[0])
    ensures forall i :: 0 <= i < |s| - |r| ==> ws(s[i])
  {
    if s != [] && ws(s[0]) then StripLeft(s[1..], ws) else s
  }

  /** `s` without its trailing characters satisfying `ws` (`rstrip`). */
  function StripRight(s: string, ws: char -> bool): (r: string)
    ensures |r| <= |s| && r == s[..|r|]
    ensures r == [] || !ws(r[|r| - 1])
    ensures forall i :: |r| <= i < |s| ==> ws(s[i])
  {
    if s != [] && ws(s[|s| - 1]) then StripRight(s[..|s| - 1], ws) else s
  }

  /** Both ends stripped (`trim()` / `strip()`): the leading characters
      satisfying `ws` are dropped one by one, then the rest is stripped on the
      right. */
  function Strip(s: string, ws: char -> bool): (r: string)
    ensures r == [] || (!ws(r[0]) && !ws(r[|r| - 1]))
  {
    if s != [] && ws(s[0]) then Strip(s[1..], ws) else StripRight(s, ws)
  }

  /** JavaScript `trim()`. */
  function Trim(s: string): string
  {
    Strip(s, IsJsSpace)
  }

  /** Python `str.strip()`. */
  function PyStrip(s: string): string
  {
    Strip(s, IsPySpace)
  }

  /** A string whose ends are not whitespace is its own stripped form. */
  lemma StripFixed(s: string, ws: char -> bool)
    requires s == [] || (!ws(s[0]) && !ws(s[|s| - 1]))
    ensures Strip(s, ws) == s
  {
  }

  // ----- split and join on one character -----

  /** `s.split(sep)` for a one-character separator. */
  function Split(s: string, sep: char): (parts: seq<string>)
    ensures |parts| >= 1
    decreases |s|
  {
    if sep in s then
      var i := IndexOf(s, sep);
      [s[..i]] + Split(s[i + 1..], sep)
    else [s]
  }

  /** No part of a split holds the separator. */
  lemma {:induction false} SplitPartsFree(s: string, sep: char)
    ensures forall k :: 0 <= k < |Split(s, sep)| ==> sep !in Split(s, sep)[k]
    decreases |s|
  {
    if sep in s {
      var i := IndexOf(s, sep);
      SplitPartsFree(s[i + 1..], sep);
      assert Split(s, sep) == [s[..i]] + Split(s[i + 1..], sep);
    }
  }

  /** `parts.join(sep)`. */
  function Join(parts: seq<string>, sep: char): string
  {
    if |parts| == 0 then ""
    else if |parts| == 1 then parts[0]
    else parts[0] + [sep] + Join(parts[1..], sep)
  }

  /** Joining the parts of a split gives the original string back. */
  lemma {:induction false} JoinSplit(s: string, sep: char)
    ensures Join(Split(s, sep), sep) == s
    decreases |s|
  {
    if sep in s {
      var i := IndexOf(s, sep);
      var rest := Split(s[i + 1..], sep);
      JoinSplit(s[i + 1..], sep);
      assert Split(s, sep) == [s[..i]] + rest;
      assert Join(Split(s, sep), sep) == s[..i] + [sep] + Join(rest, sep);
      assert s == s[..i] + [sep] + s[i + 1..];
    }
  }

  /** For a string holding `sep`, the first part is what precedes the first
      `sep`, and the other parts rejoined are what follows it. */
  lemma SplitAtFirst(s: string, sep: char)
    requires sep in s
    ensures Split(s, sep)[0] == s[..IndexOf(s, sep)]
    ensures Join(Split(s, sep)[1..], sep) == s[IndexOf(s, sep) + 1..]
  {
    var i := IndexOf(s, sep);
    assert Split(s, sep)[1..] == Split(s[i + 1..], sep);
    JoinSplit(s[i + 1..], sep);
  }

  /** The last `sep`-separated segment: what follows the last `sep`, or the
      whole string when it holds none. */
  function LastSegment(s: string, sep: char): (r: string)
    ensures sep !in r
    decreases |s|
  {
    if sep in s then LastSegment(s[IndexOf(s, sep) + 1..], sep) else s
  }

  /** The last segment is the last part of the split (`s.split(sep)[-1]`). */
  lemma {:induction false} LastSegmentIsLastPart(s: string, sep: char)
    ensures var parts := Split(s, sep); LastSegment(s, sep) == parts[|parts| - 1]
    decreases |s|
  {
    if sep in s {
      var i := IndexOf(s, sep);
      var rest := Split(s[i + 1..], sep);
      LastSegmentIsLastPart(s[i + 1..], sep);
      var parts := Split(s, sep);
      assert parts == [s[..i]] + rest;
      assert parts[|parts| - 1] == rest[|rest| - 1];
    }
  }

  /** The last segment of `x + sep + h` is `h` when `h` holds no `sep`. */
  lemma {:induction false} LastSegmentAfter(x: string, sep: char, h: string)
    requires sep !in h
    ensures LastSegment(x + [sep] + h, sep) == h
    decreases |x|
  {
    var s := x + [sep] + h;
    assert s[|x|] == sep;
    var i := IndexOf(s, sep);
    if sep in x {
      var j := IndexOf(x, sep);
      assert s[..j] == x[..j];
      IndexOfUnique(s, sep, j);
      assert s[i + 1..] == x[i + 1..] + [sep] + h;
      LastSegmentAfter(x[i + 1..], sep, h);
    } else {
      assert s[..|x|] == x;
      IndexOfUnique(s, sep, |x|);
      assert s[i + 1..] == h;
    }
  }

  // ----- words (Python `str.split()` with no argument) -----

  /** The length of the leading run of characters not satisfying `ws`. */
  function WordLength(s: string, ws: char -> bool): (n: nat)
    ensures n <= |s|
    ensures forall i :: 0 <= i < n ==> !ws(s[i])
    ensures n < |s| ==> ws(s[n])
  {
    if s == [] || ws(s[0]) then 0 else 1 + WordLength(s[1..], ws)
  }

  /** The maximal runs of non-whitespace characters of `s`, in order. */
  function Words(s: string, ws: char -> bool): seq<string>
    decreases |s|
  {
    var t := StripLeft(s, ws);
    if t == [] then []
    else
      var n := WordLength(t, ws);
      [t[..n]] + Words(t[n..], ws)
  }

  lemma {:induction false} WordsAreWords(s: string, ws: char -> bool)
    ensures forall k :: 0 <= k < |Words(s, ws)| ==> IsWord(Words(s, ws)[k], ws)
    decreases |s|
  {
    var t := StripLeft(s, ws);
    if t != [] {
      var n := WordLength(t, ws);
      var rest := Words(t[n..], ws);
      var r := Words(s, ws);
      assert r == [t[..n]] + rest;
      WordsAreWords(t[n..], ws);
      forall k | 0 <= k < |r| ensures IsWord(r[k], ws) {
        if k == 0 {
          assert r[0] == t[..n];
        } else {
          assert r[k] == rest[k - 1];
        }
      }
    }
  }

  /** A non-empty string without whitespace. */
  predicate IsWord(w: string, ws: char -> bool)
  {
    w != [] && forall i :: 0 <= i < |w| ==> !ws(w[i])
  }

  lemma {:induction false} WordLengthOfWord(w: string, rest: string, ws: char -> bool)
    requires IsWord(w, ws)
    requires rest == [] || ws(rest[0])
    ensures WordLength(w + rest, ws) == |w|
    decreases |w|
  {
    var s := w + rest;
    if |w| > 1 {
      assert s[1..] == w[1..] + rest;
      WordLengthOfWord(w[1..], rest, ws);
    } else {
      assert s[1..] == rest;
    }
  }

  /** Splitting a space-joined list of words gives the words back. */
  lemma {:induction false} WordsJoin(ws_: seq<string>, ws: char -> bool)
    requires ws(' ')
    requires forall k :: 0 <= k < |ws_| ==> IsWord(ws_[k], ws)
    ensures Words(Join(ws_, ' '), ws) == ws_
    decreases |ws_|
  {
    var s := Join(ws_, ' ');
    if |ws_| == 0 {
    } else if |ws_| == 1 {
      WordLengthOfWord(ws_[0], [], ws);
      assert ws_[0] + [] == ws_[0];
      assert s[|ws_[0]|..] == [];
    } else {
      var w := ws_[0];
      var j := Join(ws_[1..], ' ');
      assert s == w + ([' '] + j);
      WordLengthOfWord(w, [' '] + j, ws);
      assert s[..|w|] == w;
      assert s[|w|..] == [' '] + j;
      WordsJoin(ws_[1..], ws);
      assert StripLeft(j, ws) == j by {
        assert IsWord(ws_[1], ws);
      }
      assert StripLeft([' '] + j, ws) == j by {
        assert ([' '] + j)[1..] == j;
      }
      assert Words([' '] + j, ws) == Words(j, ws);
    }
  }

  // ----- title case (Python `str.title`) -----

  /** One character of a title-cased string: a letter is lower-cased when a
      letter precedes it and upper-cased otherwise; anything else is kept. */
  function TitleChar(c: char, afterLetter: bool): char
  {
    if !IsLetter(c) then c else if afterLetter then LowerChar(c) else UpperChar(c)
  }

  function TitleFrom(s: string, afterLetter: bool): (r: string)
    ensures |r| == |s|
  {
    if s == [] then []
    else [TitleChar(s[0], afterLetter)] + TitleFrom(s[1..], IsLetter(s[0]))
  }

  /** `str.title()`: a letter is upper-cased when it starts a run of letters and
      lower-cased otherwise; every other character is kept. */
  function Title(s: string): string
  {
    TitleFrom(s, false)
  }

  /** Position by position: what `Title` does to each character. */
  lemma {:induction false} TitleAt(s: string, afterLetter: bool, k: nat)
    requires k < |s|
    ensures TitleFrom(s, afterLetter)[k] == TitleChar(s[k], if k == 0 then afterLetter else IsLetter(s[k - 1]))
    decreases |s|
  {
    if k > 0 {
      TitleAt(s[1..], IsLetter(s[0]), k - 1);
      assert s[1..][k - 1] == s[k];
      if k > 1 {
        assert s[1..][k - 2] == s[k - 1];
      }
    }
  }

  /** `s` with every `c` removed (`s.replace(c, '')`). */
  function RemoveChar(s: string, c: char): (r: string)
    ensures c !in r
  {
    Filter(s, x => x != c)
  }

  /** `s` with every `a` replaced by `b` (`s.replace(a, b)`). */
  function ReplaceChar(s: string, a: char, b: char): (r: string)
    ensures |r| == |s|
    ensures a != b ==> a !in r
  {
    Map(s, x => if x == a then b else x)
  }

  // ----- ordering (JavaScript default `sort`) -----

  /** Code-unit lexicographic order: a proper prefix comes first, otherwise the
      first differing character decides. */
  predicate LexLess(a: string, b: string)
  {
    b != [] && (a == [] || a[0] < b[0] || (a[0] == b[0] && LexLess(a[1..], b[1..])))
  }

  lemma {:induction false} LexIrreflexive(a: string)
    ensures !LexLess(a, a)
  {
    if a != [] {
      LexIrreflexive(a[1..]);
    }
  }

  lemma {:induction false} LexTransitive(a: string, b: string, c: string)
    requires LexLess(a, b) && LexLess(b, c)
    ensures LexLess(a, c)
  {
    if a != [] && a[0] == b[0] && b[0] == c[0] {
      LexTransitive(a[1..], b[1..], c[1..]);
    }
  }

  lemma {:induction false} LexTotal(a: string, b: string)
    ensures a == b || LexLess(a, b) || LexLess(b, a)
  {
    if a != [] && b != [] && a[0] == b[0] {
      LexTotal(a[1..], b[1..]);
      if a[1..] == b[1..] {
        assert a == [a[0]] + a[1..] && b == [b[0]] + b[1..];
      }
    }
  }

  lemma LexAsymmetric(a: string, b: string)
    requires LexLess(a, b)
    ensures !LexLess(b, a)
  {
    if LexLess(b, a) {
      LexTransitive(a, b, a);
      LexIrreflexive(a);
    }
  }

  /** Ascending, equal neighbours allowed. */
  predicate Sorted(s: seq<string>)
  {
    forall i, j :: 0 <= i < j < |s| ==> s[i] == s[j] || LexLess(s[i], s[j])
  }

  /** Ascending without repetition. */
  predicate StrictlyAscending(s: seq<string>)
  {
    forall i, j :: 0 <= i < j < |s| ==> LexLess(s[i], s[j])
  }

  function Insert(x: string, s: seq<string>): (r: seq<string>)
    requires Sorted(s)
    ensures Sorted(r)
    ensures multiset(r) == multiset(s) + multiset{x}
  {
    if s == [] then [x]
    else if s[0] == x || LexLess(s[0], x) then
      var rest := Insert(x, s[1..]);
      assert multiset(s) == multiset{s[0]} + multiset(s[1..]) by {
        assert s == [s[0]] + s[1..];
      }
      InsertAfterHead(x, s, rest);
      [s[0]] + rest
    else
      LexTotal(s[0], x);
      assert Sorted([x] + s) by {
        forall j | 0 < j < |[x] + s| ensures x == ([x] + s)[j] || LexLess(x, ([x] + s)[j]) {
          var y := s[j - 1];
          assert y == s[0] || LexLess(s[0], y);
          if y != s[0] { LexTransitive(x, s[0], y); }
        }
      }
      [x] + s
  }

  lemma InsertAfterHead(x: string, s: seq<string>, rest: seq<string>)
    requires s != [] && Sorted(s) && (s[0] == x || LexLess(s[0], x))
    requires Sorted(rest) && multiset(rest) == multiset(s[1..]) + multiset{x}
    ensures Sorted([s[0]] + rest)
  {
    var r := [s[0]] + rest;
    forall j | 0 < j < |r| ensures s[0] == r[j] || LexLess(s[0], r[j]) {
      assert r[j] in multiset(rest);
      assert r[j] == x || r[j] in multiset(s[1..]);
      if r[j] != x {
        var k :| 0 <= k < |s[1..]| && s[1..][k] == r[j];
        assert s[k + 1] == r[j];
      }
    }
  }

  /** Insertion sort: the JavaScript default `sort` on strings. */
  function Sort(s: seq<string>): (r: seq<string>)
    ensures Sorted(r)
    ensures multiset(r) == multiset(s)
  {
    if s == [] then []
    else
      assert s == [s[0]] + s[1..];
      Insert(s[0], Sort(s[1..]))
  }

  /** Sorting a list without repetitions yields a strictly ascending list of
      the same strings. */
  lemma SortDistinct(s: seq<string>)
    requires forall i, j :: 0 <= i < j < |s| ==> s[i] != s[j]
    ensures StrictlyAscending(Sort(s))
    ensures forall x :: x in Sort(s) <==> x in s
  {
    var r := Sort(s);
    assert forall x :: x in r <==> x in multiset(r);
    assert forall x :: x in s <==> x in multiset(s);
    forall i, j | 0 <= i < j < |r| ensures LexLess(r[i], r[j]) {
      if r[i] == r[j] {
        MultisetTwice(r, i, j);
        DistinctOnce(s, r[i]);
        assert false;
      }
    }
  }

  lemma MultisetTwice(r: seq<string>, i: nat, j: nat)
    requires i < j < |r| && r[i] == r[j]
    ensures multiset(r)[r[i]] >= 2
  {
    assert r == r[..i] + [r[i]] + r[i + 1..j] + [r[j]] + r[j + 1..];
  }

  lemma {:induction false} DistinctOnce(s: seq<string>, x: string)
    requires forall i, j :: 0 <= i < j < |s| ==> s[i] != s[j]
    ensures multiset(s)[x] <= 1
  {
    if s != [] {
      assert s == [s[0]] + s[1..];
      DistinctOnce(s[1..], x);
      if s[0] == x {
        assert x !in s[1..];
      }
    }
  }
}
