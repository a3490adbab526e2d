/** A worked instance of the near-duplicate decision. */
module DuplicateScenario {
  import opened Options
  import opened Text
  import opened DuplicateCheck

  /** A listing that already holds "kubernetes production deployment guide" flags the
      title "Kubernetes Production Deployment Guide 2024": all five of its words are
      significant ("2024" has four characters) and four of them occur, 4/5 > 0.7. */
  lemma KubernetesGuideIsFlagged()
    ensures Flagged(Some("kubernetes production deployment guide"),
                    "Kubernetes Production Deployment Guide 2024")
  {
    GuideScenario("kubernetes production deployment guide",
                  "Kubernetes Production Deployment Guide 2024");
  }

  lemma GuideScenario(page: string, title: string)
    requires page == "kubernetes production deployment guide"
    requires title == "Kubernetes Production Deployment Guide 2024"
    ensures LikelyDuplicate(title, page)
  {
    GuideTitleSplits(title);
    GuideSignificantWords(title);
    GuidePageMatches(page);
    GuideCounts();
  }

  lemma GuideTitleSplits(title: string)
    requires title == "Kubernetes Production Deployment Guide 2024"
    ensures Words(title) == ["Kubernetes", "Production", "Deployment", "Guide", "2024"]
  {
    var ws := ["Kubernetes", "Production", "Deployment", "Guide", "2024"];
    GuideTitleJoined(ws);
    forall i | 0 <= i < |ws|
      ensures ws[i] != [] && NoSpace(ws[i])
    {
      LetterWord(ws[i]);
    }
    WordsOfJoin(ws);
  }

  lemma GuideTitleJoined(ws: seq<string>)
    requires ws == ["Kubernetes", "Production", "Deployment", "Guide", "2024"]
    ensures Join(ws, " ") == "Kubernetes Production Deployment Guide 2024"
  {
    GuideTitleSpelled();
    GuideTitleSpelledWhole();
    assert ws[4..] == ["2024"];
    assert Join(ws[3..], " ") == "Guide 2024";
    assert Join(ws[2..], " ") == "Deployment Guide 2024";
    assert Join(ws[1..], " ") == "Production Deployment Guide 2024";
  }

  /** The title spelled out one word at a time, from the back. */
  lemma GuideTitleSpelled()
    ensures "Guide" + " " + "2024" == "Guide 2024"
    ensures "Deployment" + " " + "Guide 2024" == "Deployment Guide 2024"
    ensures "Production" + " " + "Deployment Guide 2024" == "Production Deployment Guide 2024"
  {
  }

  /** The last step on its own: the whole title is the longest literal. */
  lemma GuideTitleSpelledWhole()
    ensures "Kubernetes" + " " + "Production Deployment Guide 2024"
         == "Kubernetes Production Deployment Guide 2024"
  {
  }

  /** Each of the five title words is made of letters and digits only. */
  lemma LetterWord(w: string)
    requires w in ["Kubernetes", "Production", "Deployment", "Guide", "2024"]
    ensures w != [] && NoSpace(w)
  {
    forall k | 0 <= k < |w|
      ensures !IsSpace(w[k])
    {
      assert w[k] in w;
    }
  }

  lemma GuideSignificantWords(title: string)
    requires Words(title) == ["Kubernetes", "Production", "Deployment", "Guide", "2024"]
    ensures SignificantWords(title) == {"kubernetes", "production", "deployment", "guide", "2024"}
  {
    SignificantOfFive(title, "Kubernetes", "Production", "Deployment", "Guide", "2024");
    GuideWordsLowered();
  }

  /** A title of five long words has exactly their lower-cased forms as significant words. */
  lemma SignificantOfFive(title: string, a: string, b: string, c: string, d: string, e: string)
    requires Words(title) == [a, b, c, d, e]
    requires |a| > MinWordLength && |b| > MinWordLength && |c| > MinWordLength
    requires |d| > MinWordLength && |e| > MinWordLength
    ensures SignificantWords(title) == {Lower(a), Lower(b), Lower(c), Lower(d), Lower(e)}
  {
    var ws := Words(title);
    assert a == ws[0] && b == ws[1] && c == ws[2] && d == ws[3] && e == ws[4];
  }

  lemma GuideWordsLowered()
    ensures Lower("Kubernetes") == "kubernetes"
    ensures Lower("Production") == "production"
    ensures Lower("Deployment") == "deployment"
    ensures Lower("Guide") == "guide"
    ensures Lower("2024") == "2024"
  {
    GuideFrontWordsLowered();
    GuideBackWordsLowered();
  }

  /** The words are lowered in two groups, which keeps the literals small for the solver. */
  lemma GuideFrontWordsLowered()
    ensures Lower("Kubernetes") == "kubernetes"
    ensures Lower("Production") == "production"
  {
    LowerCapitalizedWord("Kubernetes", 'K', "ubernetes");
    LowerCapitalizedWord("Production", 'P', "roduction");
  }

  lemma GuideBackWordsLowered()
    ensures Lower("Deployment") == "deployment"
    ensures Lower("Guide") == "guide"
    ensures Lower("2024") == "2024"
  {
    LowerCapitalizedWord("Deployment", 'D', "eployment");
    LowerCapitalizedWord("Guide", 'G', "uide");
    LowerOfNoUpper("2024");
  }

  lemma LowerCapitalizedWord(w: string, c: char, rest: string)
    requires w == [c] + rest
    requires 'A' <= c <= 'Z' && NoUpper(rest)
    ensures Lower(w) == [LowerChar(c)] + rest
  {
    LowerCapitalized(c, rest);
  }

  lemma LowerCapitalized(c: char, rest: string)
    requires 'A' <= c <= 'Z' && NoUpper(rest)
    ensures Lower([c] + rest) == [LowerChar(c)] + rest
  {
    LowerAppend([c], rest);
    LowerOfNoUpper(rest);
  }

  lemma GuidePageMatches(page: string)
    requires page == "kubernetes production deployment guide"
    ensures MatchedWords({"kubernetes", "production", "deployment", "guide", "2024"}, Lower(page))
         == {"kubernetes", "production", "deployment", "guide"}
  {
    GuidePageIsLower(page);
    GuidePageFrontWords(page);
    GuidePageBackWords(page);
    GuidePageLacksYear(page);
    MatchedFourOfFive(page, "kubernetes", "production", "deployment", "guide", "2024");
  }

  /** The listing holds "kubernetes" at offset 0 and "production" at offset 11. */
  lemma GuidePageFrontWords(page: string)
    requires page == "kubernetes production deployment guide"
    ensures Contains(page, "kubernetes") && Contains(page, "production")
  {
    assert page[..10] == "kubernetes";
    assert OccursAt(page, "kubernetes", 0);
    var tail := page[11..];
    assert tail == "production deployment guide";
    assert tail[..10] == "production";
    assert page[11..21] == tail[..10];
    assert OccursAt(page, "production", 11);
  }

  /** The listing holds "deployment" at offset 22 and "guide" at offset 33. */
  lemma GuidePageBackWords(page: string)
    requires page == "kubernetes production deployment guide"
    ensures Contains(page, "deployment") && Contains(page, "guide")
  {
    var tail := page[22..];
    assert tail == "deployment guide";
    assert tail[..10] == "deployment";
    assert page[22..32] == tail[..10];
    assert OccursAt(page, "deployment", 22);
    assert page[33..] == "guide";
    assert OccursAt(page, "guide", 33);
  }

  /** The listing has no '2', so "2024" does not occur in it. */
  lemma GuidePageLacksYear(page: string)
    requires page == "kubernetes production deployment guide"
    ensures !Contains(page, "2024")
  {
    assert '2' !in page;
    AbsentLead(page, "2024");
  }

  /** Four of five words occurring, and the fifth not, match exactly those four. */
  lemma MatchedFourOfFive(page: string, a: string, b: string, c: string, d: string, e: string)
    requires Contains(page, a) && Contains(page, b) && Contains(page, c) && Contains(page, d)
    requires !Contains(page, e)
    ensures MatchedWords({a, b, c, d, e}, page) == {a, b, c, d}
  {
  }

  /** The listing is lower case already; each half is checked on its own, which keeps
      the literal small for the solver. */
  lemma GuidePageIsLower(page: string)
    requires page == "kubernetes production deployment guide"
    ensures Lower(page) == page
  {
    var front, back := "kubernetes production ", "deployment guide";
    GuidePageHalves(page, front, back);
    GuidePageHalvesNoUpper(front, back);
    LowerOfNoUpper(front);
    LowerOfNoUpper(back);
    LowerAppend(front, back);
  }

  lemma GuidePageHalves(page: string, front: string, back: string)
    requires page == "kubernetes production deployment guide"
    requires front == "kubernetes production " && back == "deployment guide"
    ensures page == front + back
  {
  }

  lemma GuidePageHalvesNoUpper(front: string, back: string)
    requires front == "kubernetes production " && back == "deployment guide"
    ensures NoUpper(front) && NoUpper(back)
  {
  }

  lemma GuideCounts()
    ensures |{"kubernetes", "production", "deployment", "guide", "2024"}| == 5
    ensures |{"kubernetes", "production", "deployment", "guide"}| == 4
  {
    assert "kubernetes"[0] == 'k' && "production"[0] == 'p' && "deployment"[0] == 'd';
    assert |"guide"| == 5 && |"2024"| == 4;
  }
}
