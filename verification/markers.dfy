/** The fixed list of hesitation markers, `HESITATION_MARKERS`, and facts
    about its entries. */
module Markers {
  import opened Text

  /** `HESITATION_MARKERS`, entry for entry and in order, assembled from
      the lines of its definition. The list keeps its quirks: "eh" and
      "hmm" appear twice and "mmm" three times, and nine entries contain the
      upper-case letter `I`. The apostrophes in "it’s" and "don’t" are
      U+2019. */
  const HesitationMarkers: seq<string> :=
    English1 + English2 + English3 + English4 + English5 + English6 + Spanish1 + Spanish2

  const English1: seq<string> :=
    ["um", "uh", "ah", "er", "well", "like", "you know", "so", "actually", "basically"]
  const English2: seq<string> :=
    ["I mean", "right", "okay", "just", "seriously", "mmm", "uhm", "hmm", "ahh", "eh"]
  const English3: seq<string> :=
    ["aah", "uhh", "huh", "let me think", "I guess", "I suppose", "I'm not sure", "I'm thinking"]
  const English4: seq<string> :=
    ["what I mean is", "it\U{2019}s like", "you know what I mean", "I don\U{2019}t know", "it\U{2019}s kind of"]
  const English5: seq<string> :=
    ["kind of", "sort of", "something like that", "to be honest", "well, you see", "you see"]
  const English6: seq<string> :=
    ["I believe", "if you will", "literally", "honestly", "probably", "uhmm", "aahhh", "umm"]
  /** Spanish speakers' markers. */
  const Spanish1: seq<string> :=
    ["eh", "a ver", "bueno", "pues", "digamos", "como", "o sea", "ya sabes", "bueno, a ver"]
  const Spanish2: seq<string> :=
    ["sabes", "ehhh", "mmm", "aaaa", "eeee", "mmmm", "mmm", "hmm"]

  /** A marker that begins and ends with a word character, as every entry
      of `HesitationMarkers` does. */
  predicate WordBounded(marker: string) {
    |marker| > 0 && IsWordChar(marker[0]) && IsWordChar(marker[|marker| - 1])
  }

  /** Every entry of `line` is word-bounded. */
  predicate AllWordBounded(line: seq<string>) {
    forall i :: 0 <= i < |line| ==> WordBounded(line[i])
  }

  lemma English1WordBounded()
    ensures AllWordBounded(English1)
  {
  }

  lemma English2WordBounded()
    ensures AllWordBounded(English2)
  {
  }

  lemma English3WordBounded()
    ensures AllWordBounded(English3)
  {
  }

  lemma English4WordBounded()
    ensures AllWordBounded(English4)
  {
  }

  lemma English5WordBounded()
    ensures AllWordBounded(English5)
  {
  }

  lemma English6WordBounded()
    ensures AllWordBounded(English6)
  {
  }

  lemma Spanish1WordBounded()
    ensures AllWordBounded(Spanish1)
  {
  }

  lemma Spanish2WordBounded()
    ensures AllWordBounded(Spanish2)
  {
  }

  lemma {:induction false} AllWordBoundedConcat(a: seq<string>, b: seq<string>)
    requires AllWordBounded(a) && AllWordBounded(b)
    ensures AllWordBounded(a + b)
  {
    forall i | 0 <= i < |a + b|
      ensures WordBounded((a + b)[i])
    {
      if i >= |a| {
        assert (a + b)[i] == b[i - |a|];
      }
    }
  }

  /** The list has 64 entries, each beginning and ending with a letter. */
  lemma AllMarkersWordBounded()
    ensures |HesitationMarkers| == 64
    ensures AllWordBounded(HesitationMarkers)
  {
    English1WordBounded();
    English2WordBounded();
    English3WordBounded();
    English4WordBounded();
    English5WordBounded();
    English6WordBounded();
    Spanish1WordBounded();
    Spanish2WordBounded();
    AllWordBoundedConcat(English1, English2);
    AllWordBoundedConcat(English1 + English2, English3);
    AllWordBoundedConcat(English1 + English2 + English3, English4);
    AllWordBoundedConcat(English1 + English2 + English3 + English4, English5);
    AllWordBoundedConcat(English1 + English2 + English3 + English4 + English5, English6);
    AllWordBoundedConcat(English1 + English2 + English3 + English4 + English5 + English6, Spanish1);
    AllWordBoundedConcat(English1 + English2 + English3 + English4 + English5 + English6 + Spanish1, Spanish2);
  }

  /** How often `m` is listed in `lexicon`. */
  function Listings(lexicon: seq<string>, m: string): nat {
    if |lexicon| == 0 then 0 else (if lexicon[0] == m then 1 else 0) + Listings(lexicon[1..], m)
  }

  lemma {:induction false} ListingsIsMultiplicity(lexicon: seq<string>, m: string)
    ensures Listings(lexicon, m) == multiset(lexicon)[m]
  {
    if |lexicon| > 0 {
      ListingsIsMultiplicity(lexicon[1..], m);
      assert lexicon == [lexicon[0]] + lexicon[1..];
    }
  }

  lemma {:induction false} ListingsOfConcat(a: seq<string>, b: seq<string>, m: string)
    ensures Listings(a + b, m) == Listings(a, m) + Listings(b, m)
  {
    if |a| > 0 {
      ListingsOfConcat(a[1..], b, m);
      assert (a + b)[1..] == a[1..] + b;
    } else {
      assert a + b == b;
    }
  }

  // How often the duplicated entries are listed on each line of the
  // definition; one lemma per line keeps each proof small.
  lemma English1Listings()
    ensures Listings(English1, "mmm") == 0 && Listings(English1, "eh") == 0 && Listings(English1, "hmm") == 0
  {}
  lemma English2Listings()
    ensures Listings(English2, "mmm") == 1 && Listings(English2, "eh") == 1 && Listings(English2, "hmm") == 1
  {}
  lemma English3Listings()
    ensures Listings(English3, "mmm") == 0 && Listings(English3, "eh") == 0 && Listings(English3, "hmm") == 0
  {}
  lemma English4Listings()
    ensures Listings(English4, "mmm") == 0 && Listings(English4, "eh") == 0 && Listings(English4, "hmm") == 0
  {}
  lemma English5Listings()
    ensures Listings(English5, "mmm") == 0 && Listings(English5, "eh") == 0 && Listings(English5, "hmm") == 0
  {}
  lemma English6Listings()
    ensures Listings(English6, "mmm") == 0 && Listings(English6, "eh") == 0 && Listings(English6, "hmm") == 0
  {}
  lemma Spanish1Listings()
    ensures Listings(Spanish1, "mmm") == 0 && Listings(Spanish1, "eh") == 1 && Listings(Spanish1, "hmm") == 0
  {}
  lemma Spanish2Listings()
    ensures Listings(Spanish2, "mmm") == 2 && Listings(Spanish2, "eh") == 0 && Listings(Spanish2, "hmm") == 1
  {}

  /** Listings add up over the eight lines of a list. */
  lemma ListingsOfLines(ls: seq<seq<string>>, m: string)
    requires |ls| == 8
    ensures Listings(ls[0] + ls[1] + ls[2] + ls[3] + ls[4] + ls[5] + ls[6] + ls[7], m) ==
      Listings(ls[0], m) + Listings(ls[1], m) + Listings(ls[2], m) + Listings(ls[3], m) +
      Listings(ls[4], m) + Listings(ls[5], m) + Listings(ls[6], m) + Listings(ls[7], m)
  {
    var acc := ls[0];
    ListingsOfConcat(acc, ls[1], m);
    acc := acc + ls[1];
    ListingsOfConcat(acc, ls[2], m);
    acc := acc + ls[2];
    ListingsOfConcat(acc, ls[3], m);
    acc := acc + ls[3];
    ListingsOfConcat(acc, ls[4], m);
    acc := acc + ls[4];
    ListingsOfConcat(acc, ls[5], m);
    acc := acc + ls[5];
    ListingsOfConcat(acc, ls[6], m);
    acc := acc + ls[6];
    ListingsOfConcat(acc, ls[7], m);
  }

  /** How often `m` is listed, summed over the lines of the definition. */
  lemma ListingsByLine(m: string)
    ensures Listings(HesitationMarkers, m) ==
      Listings(English1, m) + Listings(English2, m) + Listings(English3, m) + Listings(English4, m) +
      Listings(English5, m) + Listings(English6, m) + Listings(Spanish1, m) + Listings(Spanish2, m)
  {
    ListingsOfLines([English1, English2, English3, English4, English5, English6, Spanish1, Spanish2], m);
  }

  /** "mmm" is listed three times. */
  lemma MmmListings()
    ensures Listings(HesitationMarkers, "mmm") == 3
  {
    ListingsByLine("mmm");
    English1Listings();
    English2Listings();
    English3Listings();
    English4Listings();
    English5Listings();
    English6Listings();
    Spanish1Listings();
    Spanish2Listings();
  }

  /** "eh" is listed twice. */
  lemma EhListings()
    ensures Listings(HesitationMarkers, "eh") == 2
  {
    ListingsByLine("eh");
    English1Listings();
    English2Listings();
    English3Listings();
    English4Listings();
    English5Listings();
    English6Listings();
    Spanish1Listings();
    Spanish2Listings();
  }

  /** "hmm" is listed twice. */
  lemma HmmListings()
    ensures Listings(HesitationMarkers, "hmm") == 2
  {
    ListingsByLine("hmm");
    English1Listings();
    English2Listings();
    English3Listings();
    English4Listings();
    English5Listings();
    English6Listings();
    Spanish1Listings();
    Spanish2Listings();
  }

}
