/** Worked examples of hesitation detection on concrete transcripts. Each is
    stated for any list of markers and then, where it matters, for
    `HesitationMarkers` itself. */
module DetectionExamples {
  import opened Text
  import opened Markers
  import opened Hesitations

  /** "so" is not reported for "I also ran": inside "also" it has a word
      character on its left. */
  lemma NoMatchInsideWord(lexicon: seq<string>)
    ensures "so" !in Detect(lexicon, "I also ran")
  {
    var text := Lower("I also ran");
    LowerAppend("I", " also ran");
    LowerUnchanged(" also ran");
    assert text == "i also ran";
    forall p | 0 <= p <= |text| - 2
      ensures !MatchAt(text, "so", p)
    {
      if p != 4 {
        assert text[p..p + 2][0] == text[p];
      }
    }
    SelectMembers(text, lexicon);
  }

  /** Upper-case speech still matches a lower-case marker: "um" is
      reported for "UM, let me think about it". */
  lemma UpperCaseSpeechMatches(lexicon: seq<string>)
    requires "um" in lexicon
    ensures "um" in Detect(lexicon, "UM, let me think about it")
  {
    assert Lower("UM") == "um";
    assert "UM, let me think about it" == "" + "UM" + ", let me think about it";
    StandaloneMarkerReported(lexicon, "", "UM", ", let me think about it");
  }

  /** "let me think" is reported for the same transcript. */
  lemma PhraseMatchesInMixedCase(lexicon: seq<string>)
    requires "let me think" in lexicon
    ensures "let me think" in Detect(lexicon, "UM, let me think about it")
  {
    LowerUnchanged("let me think");
    assert "UM, let me think about it" == "UM, " + "let me think" + " about it";
    StandaloneMarkerReported(lexicon, "UM, ", "let me think", " about it");
  }

  /** A multi-word marker matches its literal word sequence: "you know" is
      reported for "you know what I mean, it was fine". */
  lemma MultiWordMatch(lexicon: seq<string>)
    requires "you know" in lexicon
    ensures "you know" in Detect(lexicon, "you know what I mean, it was fine")
  {
    LowerUnchanged("you know");
    assert "you know what I mean, it was fine" == "" + "you know" + " what I mean, it was fine";
    StandaloneMarkerReported(lexicon, "", "you know", " what I mean, it was fine");
  }

  /** The spacing of a multi-word marker is literal: "you know" is not
      reported for "you  know", with two spaces. */
  lemma SpacingIsLiteral(lexicon: seq<string>)
    ensures "you know" !in Detect(lexicon, "you  know")
  {
    var spaced := Lower("you  know");
    LowerUnchanged("you  know");
    forall p | 0 <= p <= |spaced| - 8
      ensures !MatchAt(spaced, "you know", p)
    {
      if p == 0 {
        assert spaced[p..p + 8][4] == spaced[4];
      } else {
        assert spaced[p..p + 8][0] == spaced[p];
      }
    }
    SelectMembers(spaced, lexicon);
  }

  /** Neither "um" nor "umm" is reported for "ummm": the word continues
      past both. */
  lemma NoPrefixMatch(lexicon: seq<string>)
    ensures "um" !in Detect(lexicon, "ummm")
    ensures "umm" !in Detect(lexicon, "ummm")
  {
    var text := Lower("ummm");
    LowerUnchanged("ummm");
    forall p | 0 <= p <= |text| - 2
      ensures !MatchAt(text, "um", p)
    {
      if p != 0 {
        assert text[p..p + 2][0] == text[p];
      }
    }
    forall p | 0 <= p <= |text| - 3
      ensures !MatchAt(text, "umm", p)
    {
      if p != 0 {
        assert text[p..p + 3][0] == text[p];
      }
    }
    SelectMembers(text, lexicon);
  }

  /** The markers used in the examples above are entries of
      `HesitationMarkers`. */
  lemma ExampleMarkersListed()
    ensures "um" in HesitationMarkers && "you know" in HesitationMarkers
    ensures "let me think" in HesitationMarkers
  {
    assert English1[0] == "um" && English1[6] == "you know";
    assert English3[3] == "let me think";
  }

  /** The examples for the marker list of the source, including the entry
      "I mean" that the transcript contains but that is never reported. */
  lemma ExamplesOnMarkerList()
    ensures "so" !in Detect(HesitationMarkers, "I also ran")
    ensures "um" in Detect(HesitationMarkers, "UM, let me think about it")
    ensures "let me think" in Detect(HesitationMarkers, "UM, let me think about it")
    ensures "you know" in Detect(HesitationMarkers, "you know what I mean, it was fine")
    ensures "I mean" !in Detect(HesitationMarkers, "you know what I mean, it was fine")
    ensures "um" !in Detect(HesitationMarkers, "ummm") && "umm" !in Detect(HesitationMarkers, "ummm")
  {
    ExampleMarkersListed();
    NoMatchInsideWord(HesitationMarkers);
    UpperCaseSpeechMatches(HesitationMarkers);
    PhraseMatchesInMixedCase(HesitationMarkers);
    MultiWordMatch(HesitationMarkers);
    CapitalIEntriesNeverReported("you know what I mean, it was fine");
    NoPrefixMatch(HesitationMarkers);
  }

  /** In "ok, um" both "um" and "ok" stand as words of their own. */
  lemma OkUmMatches()
    ensures Found(Lower("ok, um"), "um") && Found(Lower("ok, um"), "ok")
  {
    var text := Lower("ok, um");
    LowerUnchanged("ok, um");
    OccursBetween("ok, ", "um", "");
    assert MatchAt(text, "um", 4);
    OccursBetween("", "ok", ", um");
    assert MatchAt(text, "ok", 0);
  }

  /** "ok, um" holds no "uh". */
  lemma OkUmLacksUh()
    ensures !Found(Lower("ok, um"), "uh")
  {
    var text := Lower("ok, um");
    LowerUnchanged("ok, um");
    forall p | 0 <= p <= |text| - 2
      ensures !MatchAt(text, "uh", p)
    {
      assert text[p..p + 2][1] == text[p + 1];
    }
  }

  /** The result follows the list, not the transcript: with the list
      ["um", "uh", "ok"] and the transcript "ok, um", the result is
      ["um", "ok"]. */
  lemma ListOrderNotSpeechOrder()
    ensures Detect(["um", "uh", "ok"], "ok, um") == ["um", "ok"]
  {
    var text := Lower("ok, um");
    OkUmMatches();
    OkUmLacksUh();
    var found := ["um"];
    assert found[..0] == [];
    assert Select(text, found) == found;
    var twoListed := ["um", "uh"];
    assert twoListed[..1] == found;
    assert Select(text, twoListed) == found;
    var lexicon := ["um", "uh", "ok"];
    assert lexicon[..2] == twoListed;
  }
}
