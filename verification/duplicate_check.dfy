/** `check_existing_post` and the version suffix the caller appends to a title that
    looks like a duplicate. The listing page's text is a parameter; `None` stands for
    any failure while navigating to it or reading it. */
module DuplicateCheck {
  import opened Options
  import opened Text
  import opened Decimal

  /** Title words longer than this many characters are significant. */
  const MinWordLength: nat := 3
  /** The match ratio must exceed ThresholdNum / ThresholdDen, i.e. 0.7. */
  const ThresholdNum: nat := 7
  const ThresholdDen: nat := 10

  /** The de-duplicated, lower-cased title words longer than three characters. */
  function SignificantWords(title: string): (words: set<string>)
    ensures forall w | w in words :: |w| > MinWordLength && Lower(w) == w
  {
    set w | w in Words(title) && |w| > MinWordLength :: Lower(w)
  }

  /** The words that occur in the lower-cased page text. */
  function MatchedWords(words: set<string>, content: string): (matched: set<string>)
    ensures matched <= words
  {
    set w | w in words && Contains(content, w)
  }

  /** `matched / total > 0.7`, with a ratio of 0 when there are no words. Cross
      multiplication is exact where the floating-point quotient is correctly rounded. */
  predicate OverThreshold(matched: nat, total: nat) {
    total > 0 && ThresholdDen * matched > ThresholdNum * total
  }

  /** The decision on a page that was read: more than 70% of the significant words of
      the title occur in the lower-cased page. */
  predicate LikelyDuplicate(title: string, page: string) {
    var words := SignificantWords(title);
    OverThreshold(|MatchedWords(words, Lower(page))|, |words|)
  }

  /** The decision with its failure path: an unreadable page is not a duplicate. */
  predicate Flagged(page: Option<string>, title: string) {
    page.Some? && LikelyDuplicate(title, page.value)
  }

  /** `sum(1 for word in title_words if word in page_content)`. */
  method CountMatches(words: set<string>, content: string) returns (count: nat)
    ensures count == |MatchedWords(words, content)|
  {
    count := 0;
    var remaining := words;
    while remaining != {}
      invariant remaining <= words
      invariant count == |MatchedWords(words - remaining, content)|
      decreases remaining
    {
      var w :| w in remaining;
      ghost var before := MatchedWords(words - remaining, content);
      remaining := remaining - {w};
      if Contains(content, w) {
        assert MatchedWords(words - remaining, content) == before + {w};
        count := count + 1;
      } else {
        assert MatchedWords(words - remaining, content) == before;
      }
    }
    assert words - remaining == words;
  }

  /** `check_existing_post`: fail-open on a page that could not be read, never flagged
      without significant words, and otherwise flagged iff the match ratio exceeds 0.7. */
  method CheckExistingPost(page: Option<string>, title: string) returns (flagged: bool)
    ensures page.None? ==> !flagged
    ensures SignificantWords(title) == {} ==> !flagged
    ensures page.Some? ==>
      (flagged <==>
        10 * |MatchedWords(SignificantWords(title), Lower(page.value))| > 7 * |SignificantWords(title)|)
    ensures flagged == Flagged(page, title)
  {
    if page.None? {
      return false;
    }
    var titleWords := SignificantWords(title);
    var content := Lower(page.value);
    var matchCount := CountMatches(titleWords, content);
    if titleWords == {} {
      flagged := false;
    } else {
      flagged := ThresholdDen * matchCount > ThresholdNum * |titleWords|;
    }
  }

  /** The strict threshold: 8 of 10 words is a duplicate, 7 of 10 is not. */
  lemma ThresholdIsStrict(title: string, page: string)
    requires |SignificantWords(title)| == 10
    ensures |MatchedWords(SignificantWords(title), Lower(page))| == 8 ==> LikelyDuplicate(title, page)
    ensures |MatchedWords(SignificantWords(title), Lower(page))| <= 7 ==> !LikelyDuplicate(title, page)
  {
  }

  /** Upper and lower case in the page make no difference. */
  lemma PageCaseIgnored(title: string, page: string)
    ensures LikelyDuplicate(title, page) == LikelyDuplicate(title, Lower(page))
  {
    LowerIdempotent(page);
  }

  /** A page that contains the first page's text flags whatever the first page flags. */
  lemma MorePageTextKeepsFlag(title: string, page: string, bigger: string)
    requires Contains(Lower(bigger), Lower(page))
    requires LikelyDuplicate(title, page)
    ensures LikelyDuplicate(title, bigger)
  {
    var words := SignificantWords(title);
    var small := MatchedWords(words, Lower(page));
    var large := MatchedWords(words, Lower(bigger));
    forall w | w in small
      ensures w in large
    {
      ContainsTransitive(Lower(bigger), Lower(page), w);
    }
    SubsetCard(small, large);
  }

  lemma {:induction false} SubsetCard<T>(a: set<T>, b: set<T>)
    requires a <= b
    ensures |a| <= |b|
    decreases |a|
  {
    if a != {} {
      var x :| x in a;
      SubsetCard(a - {x}, b - {x});
    }
  }

  // ---------------------------------------------------------------- version suffix

  /** " (vN)" for the drawn version number N. */
  function VersionSuffix(n: nat): (s: string)
    requires 2 <= n <= 99
    ensures |s| == 5 || |s| == 6
  {
    " (v" + NatToString(n) + ")"
  }

  /** The title that is published: suffixed with " (vN)" when the check flagged it,
      unchanged otherwise. */
  function PublishTitle(title: string, flagged: bool, n: nat): (r: string)
    requires 2 <= n <= 99
    ensures !flagged ==> r == title
    ensures flagged ==> StartsWith(r, title) && |title| + 5 <= |r| <= |title| + 6
  {
    if flagged then title + VersionSuffix(n) else title
  }

  datatype Versioned = Versioned(base: string, version: nat)

  /** Reads a title of the form "<base> (vN)" where N is written as `str` writes a
      number below 100: one digit, or two without a leading zero. */
  function ParseVersioned(s: string): Option<Versioned> {
    var n := |s|;
    if n >= 6 && s[n - 6..n - 3] == " (v" && AllDigits(s[n - 3..n - 1]) && s[n - 3] != '0'
       && s[n - 1] == ')' then
      Some(Versioned(s[..n - 6], ParseDigits(s[n - 3..n - 1])))
    else if n >= 5 && s[n - 5..n - 2] == " (v" && IsDigit(s[n - 2]) && s[n - 1] == ')' then
      Some(Versioned(s[..n - 5], DigitValue(s[n - 2])))
    else
      None
  }

  /** The suffixed title reads back as the original title and the drawn number, so the
      suffix policy loses nothing and 2 <= N <= 99 holds of every published suffix. */
  lemma VersionRoundTrip(title: string, n: nat)
    requires 2 <= n <= 99
    ensures ParseVersioned(PublishTitle(title, true, n)) == Some(Versioned(title, n))
  {
    var digits := NatToString(n);
    ParseNatToString(n);
    var s := title + " (v" + digits + ")";
    assert PublishTitle(title, true, n) == s;
    var k := |s|;
    assert s[k - 1] == ')';
    if n >= 10 {
      assert |digits| == 2;
      assert s[k - 6..k - 3] == " (v";
      assert s[k - 3..k - 1] == digits;
      assert AllDigits(s[k - 3..k - 1]);
      assert s[..k - 6] == title;
    } else {
      assert |digits| == 1;
      assert s[k - 3] == 'v';
      assert !IsDigit(s[k - 3]);
      assert s[k - 3..k - 1][0] == s[k - 3];
      assert !AllDigits(s[k - 3..k - 1]);
      assert s[k - 5..k - 2] == " (v";
      assert s[k - 2] == digits[0];
      assert ParseDigits(digits) == ParseDigits(digits[..0]) * 10 + DigitValue(digits[0]);
      assert s[..k - 5] == title;
    }
  }

  /** The converse of the round trip: whatever reads back as a versioned title is the
      base followed by " (v", `str` of the number and ")", so no other spelling of the
      number (such as a leading zero) is accepted. */
  lemma VersionedIsSuffixed(s: string)
    requires ParseVersioned(s).Some?
    ensures var v := ParseVersioned(s).value;
      s == v.base + " (v" + NatToString(v.version) + ")"
    ensures var v := ParseVersioned(s).value;
      2 <= v.version <= 99 ==> s == PublishTitle(v.base, true, v.version)
  {
    var v := ParseVersioned(s).value;
    var n := |s|;
    if n >= 6 && s[n - 6..n - 3] == " (v" && AllDigits(s[n - 3..n - 1]) && s[n - 3] != '0'
       && s[n - 1] == ')' {
      SuffixShape(s, 2);
    } else {
      OneDigitVersioned(s);
      SuffixShape(s, 1);
    }
    var d := NatToString(v.version);
    assert v.base + " (v" + d + ")" == v.base + (" (v" + d + ")");
  }

  /** The one-digit reading in the terms of the two-digit one. */
  lemma OneDigitVersioned(s: string)
    requires ParseVersioned(s).Some?
    requires !(|s| >= 6 && s[|s| - 6..|s| - 3] == " (v" && AllDigits(s[|s| - 3..|s| - 1])
               && s[|s| - 3] != '0' && s[|s| - 1] == ')')
    ensures |s| >= 5 && s[|s| - 5..|s| - 2] == " (v" && s[|s| - 1] == ')'
    ensures AllDigits(s[|s| - 2..|s| - 1])
    ensures ParseVersioned(s).value == Versioned(s[..|s| - 5], ParseDigits(s[|s| - 2..|s| - 1]))
  {
    var n := |s|;
    var x := s[n - 2..n - 1];
    assert x == [s[n - 2]];
    assert x[..0] == [];
  }

  /** A title ending in " (v", `k` digits and ")" as the reader accepts them. */
  lemma SuffixShape(s: string, k: nat)
    requires 1 <= k <= 2 && |s| >= k + 4
    requires s[|s| - k - 4..|s| - k - 1] == " (v" && s[|s| - 1] == ')'
    requires AllDigits(s[|s| - k - 1..|s| - 1])
    requires k == 2 ==> s[|s| - 3] != '0'
    ensures s == s[..|s| - k - 4] + " (v" + NatToString(ParseDigits(s[|s| - k - 1..|s| - 1])) + ")"
  {
    var n := |s|;
    var m, j := n - k - 4, n - k - 1;
    var x := s[j..n - 1];
    var marker := s[m..j];
    assert marker == " (v";
    ShortDigitsAreStr(x);
    var close := s[n - 1..];
    assert close == ")" by {
      assert close == [s[n - 1]];
    }
    FourParts(s, m, j, n - 1);
    assert s == s[..m] + marker + x + close;
  }

  /** Any three cut points split a text into four consecutive slices. */
  lemma FourParts(s: string, i: nat, j: nat, k: nat)
    requires i <= j <= k <= |s|
    ensures s == s[..i] + s[i..j] + s[j..k] + s[k..]
  {
  }

  /** A zero-padded number is not a version suffix: "<t> (v07)" does not read back. */
  lemma PaddedVersionRejected(t: string)
    ensures ParseVersioned(t + " (v07)") == None
  {
    var s := t + " (v07)";
    var n := |s|;
    assert s[n - 3] == '0';
    assert s[n - 5..n - 2] == "(v0";
  }
}
