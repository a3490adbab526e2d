/** The handful of Python `str` operations the automation script relies on, restricted
    to ASCII: `isspace`, `lower`, `startswith`, `in`, `strip`, slicing, `split(sep)`,
    `split()`, `join` and `replace(pat, "")`. */
module Text {

  /** `str.isspace()` on one ASCII character: tab, line feed, vertical tab, form feed,
      carriage return, the four information separators (0x1C-0x1F) and space. */
  predicate IsSpace(c: char) {
    (9 <= c as int <= 13) || (28 <= c as int <= 32)
  }

  predicate AllSpace(s: string) {
    forall k | 0 <= k < |s| :: IsSpace(s[k])
  }

  predicate NoSpace(s: string) {
    forall k | 0 <= k < |s| :: !IsSpace(s[k])
  }

  /** `str.lower()` on one character; only 'A'..'Z' change. */
  function LowerChar(c: char): char {
    if 'A' <= c <= 'Z' then (c as int + 32) as char else c
  }

  function Lower(s: string): string {
    seq(|s|, i requires 0 <= i < |s| => LowerChar(s[i]))
  }

  lemma LowerIdempotent(s: string)
    ensures Lower(Lower(s)) == Lower(s)
  {
  }

  /** No character of `s` is an upper-case ASCII letter. */
  predicate NoUpper(s: string) {
    forall c | c in s :: !('A' <= c <= 'Z')
  }

  lemma LowerOfNoUpper(s: string)
    requires NoUpper(s)
    ensures Lower(s) == s
  {
    forall k | 0 <= k < |s|
      ensures Lower(s)[k] == s[k]
    {
      assert s[k] in s;
    }
  }

  lemma LowerAppend(a: string, b: string)
    ensures Lower(a + b) == Lower(a) + Lower(b)
  {
  }

  /** `s.startswith(p)`. */
  predicate StartsWith(s: string, p: string) {
    |p| <= |s| && s[..|p|] == p
  }

  /** `sub` occurs in `s` starting at position `i`. */
  predicate OccursAt(s: string, sub: string, i: int) {
    0 <= i <= |s| - |sub| && s[i..i + |sub|] == sub
  }

  /** `sub in s`: `sub` occurs as a contiguous slice of `s` (the empty string always does). */
  predicate Contains(s: string, sub: string) {
    exists i | 0 <= i <= |s| - |sub| :: OccursAt(s, sub, i)
  }

  /** An occurrence inside `s` is an occurrence inside any text that has `s` as a slice. */
  lemma ContainsTransitive(big: string, s: string, sub: string)
    requires Contains(big, s) && Contains(s, sub)
    ensures Contains(big, sub)
  {
    var i :| 0 <= i <= |big| - |s| && OccursAt(big, s, i);
    var j :| 0 <= j <= |s| - |sub| && OccursAt(s, sub, j);
    forall k | 0 <= k < |sub|
      ensures big[i + j + k] == sub[k]
    {
      assert big[i + j + k] == big[i..i + |s|][j + k];
      assert sub[k] == s[j..j + |sub|][k];
    }
    assert big[i + j..i + j + |sub|] == sub;
    assert OccursAt(big, sub, i + j);
  }

  /** A text without the first character of `sub` cannot contain `sub`. */
  lemma AbsentLead(s: string, sub: string)
    requires |sub| > 0 && sub[0] !in s
    ensures !Contains(s, sub)
  {
    forall i | 0 <= i <= |s| - |sub|
      ensures !OccursAt(s, sub, i)
    {
      assert s[i..i + |sub|][0] == s[i];
    }
  }

  lemma ContainsMiddle(a: string, w: string, b: string)
    ensures Contains(a + w + b, w)
  {
    assert (a + w + b)[|a|..|a| + |w|] == w;
    assert OccursAt(a + w + b, w, |a|);
  }

  /** When `s` does not start with `sub`, every occurrence of `sub` lies in `s[1..]`. */
  lemma ContainsTail(s: string, sub: string)
    requires |s| > 0 && !StartsWith(s, sub)
    ensures Contains(s, sub) <==> Contains(s[1..], sub)
  {
    if Contains(s, sub) {
      var i :| 0 <= i <= |s| - |sub| && OccursAt(s, sub, i);
      OccursShift(s, sub, i);
    }
    if Contains(s[1..], sub) {
      var i :| 0 <= i <= |s[1..]| - |sub| && OccursAt(s[1..], sub, i);
      OccursShift(s, sub, i + 1);
    }
  }

  /** An occurrence at `i` in `s` is one at `i - 1` in `s[1..]`, and when `s` does not
      start with `sub` no occurrence is at 0. */
  lemma OccursShift(s: string, sub: string, i: int)
    requires |s| > 0 && !StartsWith(s, sub) && 0 <= i
    ensures OccursAt(s, sub, i) ==> i >= 1 && OccursAt(s[1..], sub, i - 1)
    ensures i >= 1 && OccursAt(s[1..], sub, i - 1) ==> OccursAt(s, sub, i)
  {
    if 1 <= i <= |s| - |sub| {
      assert s[1..][i - 1..i - 1 + |sub|] == s[i..i + |sub|];
    }
  }

  /** `s[:n]`. */
  function Clip(s: string, n: nat): (r: string)
    ensures |r| <= n && StartsWith(s, r)
    ensures |s| <= n ==> r == s
    ensures |s| > n ==> |r| == n
  {
    if |s| <= n then s else s[..n]
  }

  /** `xs[:n]`. */
  function Take<T>(xs: seq<T>, n: nat): (r: seq<T>)
    ensures |r| <= n && |r| <= |xs| && r == xs[..|r|]
    ensures |r| == n || r == xs
  {
    if |xs| <= n then xs else xs[..n]
  }

  /** The number of whitespace characters at the front of `s`. */
  function LeadingSpaces(s: string): (n: nat)
    ensures n <= |s|
    ensures forall k | 0 <= k < n :: IsSpace(s[k])
    ensures n < |s| ==> !IsSpace(s[n])
    decreases |s|
  {
    if |s| > 0 && IsSpace(s[0]) then
      var m := LeadingSpaces(s[1..]);
      assert forall k | 1 <= k < 1 + m :: s[k] == s[1..][k - 1];
      1 + m
    else
      0
  }

  /** The number of whitespace characters at the end of `s`. */
  function TrailingSpaces(s: string): (n: nat)
    ensures n <= |s|
    ensures forall k | |s| - n <= k < |s| :: IsSpace(s[k])
    ensures n < |s| ==> !IsSpace(s[|s| - n - 1])
    decreases |s|
  {
    if |s| > 0 && IsSpace(s[|s| - 1]) then
      var m := TrailingSpaces(s[..|s| - 1]);
      assert forall k | |s| - 1 - m <= k < |s| - 1 :: s[k] == s[..|s| - 1][k];
      1 + m
    else
      0
  }

  /** `r` is `s` with the all-space slices `s[..i]` and `s[i + |r|..]` cut off. */
  predicate StrippedAt(s: string, r: string, i: int) {
    0 <= i <= |s| - |r| && s[i..i + |r|] == r && AllSpace(s[..i]) && AllSpace(s[i + |r|..])
  }

  /** `s.strip()`: leading and trailing whitespace removed. It is empty exactly when `s`
      is blank, and otherwise starts and ends with a non-space. */
  function Strip(s: string): (r: string)
    ensures r == [] <==> AllSpace(s)
    ensures r != [] ==> !IsSpace(r[0]) && !IsSpace(r[|r| - 1])
  {
    var i := LeadingSpaces(s);
    if i == |s| then
      []
    else
      var t := TrailingSpaces(s);
      assert |s| - t > i;
      s[i..|s| - t]
  }

  /** What `strip` removes is all whitespace: the result is the slice of `s` between an
      all-space prefix and an all-space suffix. */
  lemma StripIsSlice(s: string)
    ensures exists i :: StrippedAt(s, Strip(s), i)
  {
    var i := LeadingSpaces(s);
    var r := Strip(s);
    assert forall k | 0 <= k < i :: s[..i][k] == s[k];
    if i < |s| {
      var t := TrailingSpaces(s);
      var tail := s[i + |r|..];
      forall k | 0 <= k < |tail|
        ensures IsSpace(tail[k])
      {
        assert tail[k] == s[|s| - t + k];
      }
    }
    assert StrippedAt(s, r, i);
  }

  /** The first position of `c` in `s`. */
  function FirstIndex(s: string, c: char): (k: nat)
    requires c in s
    ensures k < |s| && s[k] == c && c !in s[..k]
  {
    if s[0] == c then 0 else 1 + FirstIndex(s[1..], c)
  }

  /** `sep.join(parts)`. */
  function Join(parts: seq<string>, sep: string): string {
    if |parts| == 0 then []
    else if |parts| == 1 then parts[0]
    else parts[0] + sep + Join(parts[1..], sep)
  }

  /** The first piece of a split is a prefix, ended by the separator or by the end. */
  lemma FirstPieceIsPrefix(s: string, sep: char)
    ensures StartsWith(s, Split(s, sep)[0])
    ensures |Split(s, sep)[0]| < |s| ==> s[|Split(s, sep)[0]|] == sep
  {
    var parts := Split(s, sep);
    if |parts| > 1 {
      var tail := Join(parts[1..], [sep]);
      assert s == parts[0] + [sep] + tail;
    }
  }

  /** `s.split(sep)` for a one-character separator: always at least one piece, no piece
      holds `sep`, and joining the pieces with `sep` gives `s` back. */
  function Split(s: string, sep: char): (parts: seq<string>)
    ensures |parts| >= 1
    ensures forall i | 0 <= i < |parts| :: sep !in parts[i]
    ensures Join(parts, [sep]) == s
    decreases |s|
  {
    if sep !in s then [s]
    else
      var k := FirstIndex(s, sep);
      var rest := Split(s[k + 1..], sep);
      var parts := [s[..k]] + rest;
      assert parts[1..] == rest;
      assert s == s[..k] + [sep] + s[k + 1..];
      parts
  }

  /** Splitting a join of separator-free pieces gives the pieces back. */
  lemma {:induction false} SplitOfJoin(parts: seq<string>, sep: char)
    requires |parts| >= 1
    requires forall i | 0 <= i < |parts| :: sep !in parts[i]
    ensures Split(Join(parts, [sep]), sep) == parts
    decreases |parts|
  {
    if |parts| > 1 {
      var tail := Join(parts[1..], [sep]);
      assert Join(parts, [sep]) == parts[0] + [sep] + tail;
      SplitCons(parts[0], tail, sep);
      SplitOfJoin(parts[1..], sep);
      assert [parts[0]] + parts[1..] == parts;
    }
  }

  /** A separator-free piece followed by the separator splits off as the first part. */
  lemma SplitCons(a: string, b: string, sep: char)
    requires sep !in a
    ensures Split(a + [sep] + b, sep) == [a] + Split(b, sep)
  {
    var s := a + [sep] + b;
    assert s[|a|] == sep;
    assert s[..|a|] == a;
    FirstIndexAt(s, sep, |a|);
    assert s[|a| + 1..] == b;
  }

  /** The first piece of a split is everything before the first separator. */
  lemma SplitFirst(a: string, b: string, sep: char)
    requires sep !in a
    ensures Split(a + [sep] + b, sep)[0] == a
  {
    SplitCons(a, b, sep);
  }

  /** The position of a character with no earlier occurrence is its first index. */
  lemma {:induction false} FirstIndexAt(s: string, c: char, k: nat)
    requires k < |s| && s[k] == c && c !in s[..k]
    ensures FirstIndex(s, c) == k
    decreases k
  {
    if k > 0 {
      assert s[0] in s[..k];
      assert s[1..][..k - 1] == s[1..k];
      assert s[1..k] == s[..k][1..];
      FirstIndexAt(s[1..], c, k - 1);
    }
  }

  /** Length of the run of non-space characters at the front of `s`. */
  function WordLength(s: string): (n: nat)
    ensures n <= |s| && NoSpace(s[..n])
    ensures n < |s| ==> IsSpace(s[n])
    decreases |s|
  {
    if |s| == 0 || IsSpace(s[0]) then 0 else 1 + WordLength(s[1..])
  }

  /** `s.split()`: the maximal runs of non-space characters, in order. */
  function Words(s: string): (ws: seq<string>)
    ensures forall i | 0 <= i < |ws| :: ws[i] != [] && NoSpace(ws[i])
    ensures AllSpace(s) <==> ws == []
    decreases |s|
  {
    if |s| == 0 then []
    else if IsSpace(s[0]) then Words(s[1..])
    else
      var n := WordLength(s);
      [s[..n]] + Words(s[n..])
  }

  /** The text with every whitespace character removed. */
  function DropSpaces(s: string): string
    decreases |s|
  {
    if s == [] then []
    else (if IsSpace(s[0]) then [] else [s[0]]) + DropSpaces(s[1..])
  }

  /** `"".join(s.split())`: the words run together are exactly the text's non-whitespace
      characters in order, so splitting loses nothing but whitespace. */
  lemma {:induction false} WordsKeepText(s: string)
    ensures Join(Words(s), []) == DropSpaces(s)
    decreases |s|
  {
    if s == [] {
    } else if IsSpace(s[0]) {
      WordsKeepText(s[1..]);
    } else {
      var n := WordLength(s);
      var w := s[..n];
      assert Words(s) == [w] + Words(s[n..]);
      WordsKeepText(s[n..]);
      JoinFront(w, Words(s[n..]));
      assert s == w + s[n..];
      DropSpacesAppend(w, s[n..]);
      DropSpacesOfWord(w);
    }
  }

  lemma JoinFront(w: string, ws: seq<string>)
    ensures Join([w] + ws, []) == w + Join(ws, [])
  {
    if ws == [] {
      assert [w] + ws == [w];
    } else {
      assert ([w] + ws)[1..] == ws;
    }
  }

  lemma {:induction false} DropSpacesAppend(a: string, b: string)
    ensures DropSpaces(a + b) == DropSpaces(a) + DropSpaces(b)
    decreases |a|
  {
    if a != [] {
      assert (a + b)[1..] == a[1..] + b;
      DropSpacesAppend(a[1..], b);
    } else {
      assert a + b == b;
    }
  }

  lemma {:induction false} DropSpacesOfWord(w: string)
    requires NoSpace(w)
    ensures DropSpaces(w) == w
    decreases |w|
  {
    if w != [] {
      DropSpacesOfWord(w[1..]);
      assert [w[0]] + w[1..] == w;
    }
  }

  /** `split()` cuts at every whitespace character: the words on either side of one are
      the words of each side. With `WordOfNoSpace` this fixes `Words` on every text. */
  lemma {:induction false} WordsAtSpace(a: string, c: char, b: string)
    requires IsSpace(c)
    ensures Words(a + [c] + b) == Words(a) + Words(b)
    decreases |a|
  {
    var s := a + [c] + b;
    if a == [] {
      assert s == [c] + b && s[1..] == b;
    } else if IsSpace(a[0]) {
      assert s[1..] == a[1..] + [c] + b;
      WordsAtSpace(a[1..], c, b);
    } else {
      var n := WordLength(a);
      WordLengthAtSpace(a, c, b);
      assert s[..n] == a[..n];
      assert s[n..] == a[n..] + [c] + b;
      WordsAtSpace(a[n..], c, b);
    }
  }

  /** A word ends no later than the next whitespace character. */
  lemma {:induction false} WordLengthAtSpace(a: string, c: char, b: string)
    requires IsSpace(c)
    ensures WordLength(a + [c] + b) == WordLength(a)
    decreases |a|
  {
    var s := a + [c] + b;
    if a == [] {
      assert s[0] == c;
    } else if !IsSpace(a[0]) {
      assert s[1..] == a[1..] + [c] + b;
      WordLengthAtSpace(a[1..], c, b);
    }
  }

  /** Words separated by single spaces are split back into the same words. */
  lemma {:induction false} WordsOfJoin(ws: seq<string>)
    requires forall i | 0 <= i < |ws| :: ws[i] != [] && NoSpace(ws[i])
    ensures Words(Join(ws, " ")) == ws
    decreases |ws|
  {
    if |ws| == 1 {
      WordOfNoSpace(ws[0], []);
      assert ws[0] + [] == ws[0];
    } else if |ws| > 1 {
      var tail := Join(ws[1..], " ");
      assert Join(ws, " ") == ws[0] + (" " + tail);
      WordOfNoSpace(ws[0], " " + tail);
      WordsSkipSpace(tail);
      WordsOfJoin(ws[1..]);
      assert [ws[0]] + ws[1..] == ws;
    }
  }

  /** A leading space separates nothing. */
  lemma WordsSkipSpace(s: string)
    ensures Words(" " + s) == Words(s)
  {
    assert (" " + s)[1..] == s;
  }

  /** A non-empty word followed by nothing or by a space is split off whole. */
  lemma WordOfNoSpace(w: string, rest: string)
    requires w != [] && NoSpace(w)
    requires rest == [] || IsSpace(rest[0])
    ensures Words(w + rest) == [w] + Words(rest)
  {
    var s := w + rest;
    assert s[..|w|] == w;
    WordLengthOf(w, rest);
    assert s[|w|..] == rest;
  }

  lemma {:induction false} WordLengthOf(w: string, rest: string)
    requires NoSpace(w)
    requires rest == [] || IsSpace(rest[0])
    ensures WordLength(w + rest) == |w|
    decreases |w|
  {
    if |w| > 0 {
      assert (w + rest)[1..] == w[1..] + rest;
      WordLengthOf(w[1..], rest);
    }
  }

  /** `s.replace(pat, "")`: scanning left to right, every non-overlapping occurrence of
      `pat` is deleted. The result equals `s` exactly when `pat` does not occur in it. */
  function RemoveAll(s: string, pat: string): (r: string)
    requires pat != []
    ensures |r| <= |s|
    ensures r == s <==> !Contains(s, pat)
    decreases |s|
  {
    if |s| == 0 then
      []
    else if StartsWith(s, pat) then
      assert OccursAt(s, pat, 0);
      RemoveAll(s[|pat|..], pat)
    else
      ContainsTail(s, pat);
      var r := [s[0]] + RemoveAll(s[1..], pat);
      assert r == s <==> r[1..] == s[1..];
      r
  }

  /** The leftmost occurrence of `pat` is deleted and the text before it is kept as it
      is: when no occurrence starts inside `a`, the one right after `a` goes. */
  lemma {:induction false} RemoveAllAfter(a: string, pat: string, b: string)
    requires pat != []
    requires forall i | 0 <= i < |a| :: !OccursAt(a + pat + b, pat, i)
    ensures RemoveAll(a + pat + b, pat) == a + RemoveAll(b, pat)
    decreases |a|
  {
    if a == [] {
      var s := a + pat + b;
      assert s == pat + b;
      RemoveAllDrop(s, pat);
      assert s[|pat|..] == b;
    } else {
      RemoveAllAfterStep(a, pat, b);
      RemoveAllAfter(a[1..], pat, b);
      var tail := RemoveAll(b, pat);
      assert [a[0]] + (a[1..] + tail) == ([a[0]] + a[1..]) + tail;
      assert [a[0]] + a[1..] == a;
    }
  }

  /** The first character of `a` is kept when no occurrence starts there. */
  lemma RemoveAllAfterStep(a: string, pat: string, b: string)
    requires pat != [] && a != []
    requires forall i | 0 <= i < |a| :: !OccursAt(a + pat + b, pat, i)
    ensures forall i | 0 <= i < |a| - 1 :: !OccursAt(a[1..] + pat + b, pat, i)
    ensures RemoveAll(a + pat + b, pat) == [a[0]] + RemoveAll(a[1..] + pat + b, pat)
  {
    var s := a + pat + b;
    assert !OccursAt(s, pat, 0);
    assert !StartsWith(s, pat) by {
      assert s[0..|pat|] == s[..|pat|];
    }
    RemoveAllKeep(s, pat);
    assert s[1..] == a[1..] + pat + b;
    StartsNoneShift(a, pat, b);
  }

  /** Dropping the first character of `a` keeps every occurrence outside what is left. */
  lemma StartsNoneShift(a: string, pat: string, b: string)
    requires a != []
    requires forall i | 0 <= i < |a| :: !OccursAt(a + pat + b, pat, i)
    ensures forall i | 0 <= i < |a| - 1 :: !OccursAt(a[1..] + pat + b, pat, i)
  {
    var s := a + pat + b;
    var t := a[1..] + pat + b;
    assert t == s[1..];
    forall i | 0 <= i < |a| - 1
      ensures !OccursAt(t, pat, i)
    {
      assert !OccursAt(s, pat, i + 1);
      assert t[i..i + |pat|] == s[i + 1..i + 1 + |pat|];
    }
  }

  /** One step of `replace` where the text starts with `pat`. */
  lemma RemoveAllDrop(s: string, pat: string)
    requires pat != [] && StartsWith(s, pat)
    ensures RemoveAll(s, pat) == RemoveAll(s[|pat|..], pat)
  {
  }

  /** One step of `replace` where the text does not start with `pat`. */
  lemma RemoveAllKeep(s: string, pat: string)
    requires pat != [] && |s| > 0 && !StartsWith(s, pat)
    ensures RemoveAll(s, pat) == [s[0]] + RemoveAll(s[1..], pat)
  {
  }

  /** No occurrence of `pat` can start inside `w` once `pat` follows it: either `w` lacks
      the first character of `pat`, or `w` holds no `pat` and that first character does
      not recur in `pat` (as with "# "), so no occurrence can reach across into the next. */
  predicate CannotStartIn(w: string, pat: string)
    requires pat != []
  {
    pat[0] !in w || (pat[0] !in pat[1..] && !Contains(w, pat))
  }

  lemma NoneStartsIn(w: string, pat: string, tail: string)
    requires pat != [] && CannotStartIn(w, pat)
    ensures forall i | 0 <= i < |w| :: !OccursAt(w + pat + tail, pat, i)
  {
    var s := w + pat + tail;
    forall i | 0 <= i < |w|
      ensures !OccursAt(s, pat, i)
    {
      if pat[0] !in w {
        assert s[i] == w[i];
        assert w[i] in w;
        assert s[i..i + |pat|][0] == s[i];
      } else if i + |pat| <= |w| {
        assert s[i..i + |pat|] == w[i..i + |pat|];
        assert !OccursAt(w, pat, i);
      } else {
        var k := |w| - i;
        assert s[i..i + |pat|][k] == s[|w|] == pat[0];
        assert pat[1..][k - 1] == pat[k];
        assert pat[k] in pat[1..];
      }
    }
  }

  /** Every occurrence is removed: pieces that cannot start `pat`, joined by `pat`, come
      out run together. */
  lemma {:induction false} RemoveAllOfJoin(ws: seq<string>, pat: string)
    requires pat != [] && |ws| >= 1
    requires forall i | 0 <= i < |ws| :: CannotStartIn(ws[i], pat)
    ensures RemoveAll(Join(ws, pat), pat) == Join(ws, [])
    decreases |ws|
  {
    if |ws| == 1 {
      if pat[0] !in ws[0] {
        AbsentLead(ws[0], pat);
      }
    } else {
      var tail := Join(ws[1..], pat);
      assert Join(ws, pat) == ws[0] + pat + tail;
      NoneStartsIn(ws[0], pat, tail);
      RemoveAllAfter(ws[0], pat, tail);
      RemoveAllOfJoin(ws[1..], pat);
      assert Join(ws, []) == ws[0] + [] + Join(ws[1..], []);
      assert ws[0] + [] == ws[0];
    }
  }
}
