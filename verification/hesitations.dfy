/** Hesitation detection (`detect_hesitations`): the transcript is
    lower-cased, then every entry of the fixed marker list is tested, in
    list order, for an occurrence bounded by `\b` on both sides, and each
    entry that occurs is appended to the result. */
module Hesitations {
  import opened Text
  import opened Markers

  // ---------------------------------------------------------------------
  // `re.search(r'\b' + re.escape(marker) + r'\b', text)`
  // ---------------------------------------------------------------------

  /** Position `i` holds a word character (positions outside `s` do not). */
  predicate WordAt(s: string, i: int) {
    0 <= i < |s| && IsWordChar(s[i])
  }

  /** `\b` holds at position `p` of `s`: exactly one of the characters on
      either side of `p` is a word character. */
  predicate IsBoundary(s: string, p: int) {
    WordAt(s, p - 1) != WordAt(s, p)
  }

  /** The pattern `\b<marker>\b` matches `text` at position `p`. */
  predicate MatchAt(text: string, marker: string, p: int) {
    && OccursAt(text, marker, p)
    && IsBoundary(text, p)
    && IsBoundary(text, p + |marker|)
  }

  /** `re.search` of `\b<marker>\b` succeeds somewhere in `text`. */
  predicate Found(text: string, marker: string)
    ensures Found(text, marker) ==> Contains(text, marker)
  {
    exists p :: 0 <= p <= |text| - |marker| && MatchAt(text, marker, p)
  }

  /** For a marker that begins and ends with a word character, `\bM\b`
      matching at `p` means: `M` occurs at `p`, and the characters just
      before and just after it are absent or are not word characters. */
  lemma MatchAtWordBounded(text: string, marker: string, p: int)
    requires WordBounded(marker)
    ensures MatchAt(text, marker, p) <==>
      && OccursAt(text, marker, p)
      && (p == 0 || !IsWordChar(text[p - 1]))
      && (p + |marker| == |text| || !IsWordChar(text[p + |marker|]))
  {
    if OccursAt(text, marker, p) {
      assert text[p] == marker[0];
      assert text[p + |marker| - 1] == marker[|marker| - 1];
    }
  }

  /** Scans the positions of `text` left to right for a match of
      `\b<marker>\b`, as `re.search` does. */
  method Search(text: string, marker: string) returns (found: bool)
    ensures found <==> Found(text, marker)
  {
    var p := 0;
    while p + |marker| <= |text|
      invariant 0 <= p
      invariant forall q :: 0 <= q < p ==> !MatchAt(text, marker, q)
      decreases |text| - p
    {
      if text[p..p + |marker|] == marker && IsBoundary(text, p) && IsBoundary(text, p + |marker|) {
        assert MatchAt(text, marker, p);
        return true;
      }
      p := p + 1;
    }
    return false;
  }

  // ---------------------------------------------------------------------
  // The selection loop of `detect_hesitations`
  // ---------------------------------------------------------------------

  /** The entries of `lexicon` that are found in `text`, in list order,
      each kept as often as it is listed. Defined on the last entry so that
      it follows the appending loop of the source. */
  function Select(text: string, lexicon: seq<string>): (r: seq<string>)
    ensures |r| <= |lexicon|
    decreases |lexicon|
  {
    if |lexicon| == 0 then []
    else
      var init := lexicon[..|lexicon| - 1];
      var last := lexicon[|lexicon| - 1];
      if Found(text, last) then Select(text, init) + [last] else Select(text, init)
  }

  /** An entry is reported if and only if it is listed and found. */
  lemma {:induction false} SelectMembers(text: string, lexicon: seq<string>)
    ensures forall m :: m in Select(text, lexicon) <==> m in lexicon && Found(text, m)
    decreases |lexicon|
  {
    if |lexicon| > 0 {
      var init := lexicon[..|lexicon| - 1];
      SelectMembers(text, init);
      assert lexicon == init + [lexicon[|lexicon| - 1]];
    }
  }

  /** `detect_hesitations` over an arbitrary list: lower-case, then select.
      The result lists exactly the entries found in the lower-cased text. */
  function Detect(lexicon: seq<string>, transcription: string): (r: seq<string>)
    ensures |r| <= |lexicon|
    ensures forall m :: m in r <==> m in lexicon && Found(Lower(transcription), m)
  {
    SelectMembers(Lower(transcription), lexicon);
    Select(Lower(transcription), lexicon)
  }

  /** The loop of `detect_hesitations` over an arbitrary list. */
  method DetectIn(lexicon: seq<string>, transcription: string) returns (detected: seq<string>)
    ensures detected == Detect(lexicon, transcription)
  {
    detected := [];
    var text := Lower(transcription);
    for i := 0 to |lexicon|
      invariant detected == Select(text, lexicon[..i])
    {
      var found := Search(text, lexicon[i]);
      assert lexicon[..i + 1][..i] == lexicon[..i];
      if found {
        detected := detected + [lexicon[i]];
      }
    }
    assert lexicon[..|lexicon|] == lexicon;
  }

  /** `detect_hesitations(transcription)`: the reported entries are exactly
      the listed markers that occur, word-bounded, in the lower-cased
      transcript. */
  method DetectHesitations(transcription: string) returns (detected: seq<string>)
    ensures detected == Detect(HesitationMarkers, transcription)
    ensures forall m :: m in detected <==> m in HesitationMarkers && Found(Lower(transcription), m)
  {
    detected := DetectIn(HesitationMarkers, transcription);
    SelectMembers(Lower(transcription), HesitationMarkers);
  }

  // ---------------------------------------------------------------------
  // Properties of the selection
  // ---------------------------------------------------------------------

  predicate StrictlyIncreasing(idx: seq<nat>) {
    forall k, l :: 0 <= k < l < |idx| ==> idx[k] < idx[l]
  }

  /** The positions in `lexicon` of the entries found in `text`, in
      increasing order. */
  ghost function MatchingIndices(text: string, lexicon: seq<string>): (idx: seq<nat>)
    ensures forall k :: 0 <= k < |idx| ==> idx[k] < |lexicon|
    decreases |lexicon|
  {
    if |lexicon| == 0 then []
    else
      var n := |lexicon| - 1;
      if Found(text, lexicon[n]) then MatchingIndices(text, lexicon[..n]) + [n]
      else MatchingIndices(text, lexicon[..n])
  }

  /** `MatchingIndices` lists every matching position once, in increasing
      order, and nothing else. */
  lemma {:induction false} MatchingIndicesAreTheMatches(text: string, lexicon: seq<string>)
    ensures StrictlyIncreasing(MatchingIndices(text, lexicon))
    ensures forall i :: i in MatchingIndices(text, lexicon) <==> 0 <= i < |lexicon| && Found(text, lexicon[i])
    decreases |lexicon|
  {
    if |lexicon| > 0 {
      var n := |lexicon| - 1;
      MatchingIndicesAreTheMatches(text, lexicon[..n]);
    }
  }

  /** The result lists the found entries in the order of the list, not in
      the order they appear in the transcript: its `k`-th element is the
      entry at the `k`-th matching position. Together with the contract of
      `MatchingIndices` this fixes the result completely. */
  lemma {:induction false} SelectFollowsListOrder(text: string, lexicon: seq<string>)
    ensures |Select(text, lexicon)| == |MatchingIndices(text, lexicon)|
    ensures forall k :: 0 <= k < |Select(text, lexicon)| ==>
      Select(text, lexicon)[k] == lexicon[MatchingIndices(text, lexicon)[k]]
    decreases |lexicon|
  {
    if |lexicon| > 0 {
      var n := |lexicon| - 1;
      var init := lexicon[..n];
      SelectFollowsListOrder(text, init);
      var sel, idx := Select(text, init), MatchingIndices(text, init);
      var sel', idx' := Select(text, lexicon), MatchingIndices(text, lexicon);
      assert sel' == if Found(text, lexicon[n]) then sel + [lexicon[n]] else sel;
      assert idx' == if Found(text, lexicon[n]) then idx + [n] else idx;
      forall k | 0 <= k < |sel'|
        ensures sel'[k] == lexicon[idx'[k]]
      {
        if k < |sel| {
          assert init[idx[k]] == lexicon[idx[k]];
        }
      }
    }
  }

  /** Every entry that is found is reported once for every time it is
      listed; an entry that is not found is not reported. */
  lemma {:induction false} SelectCount(text: string, lexicon: seq<string>, m: string)
    ensures multiset(Select(text, lexicon))[m] == if Found(text, m) then multiset(lexicon)[m] else 0
    decreases |lexicon|
  {
    if |lexicon| > 0 {
      var n := |lexicon| - 1;
      SelectCount(text, lexicon[..n], m);
      assert lexicon == lexicon[..n] + [lexicon[n]];
    }
  }

  /** A listed marker standing as a word or word sequence of its own in the
      transcript, written in any letter case, is reported: `w` lower-cases
      to the marker, and the characters on either side of it are absent or
      are not word characters. */
  lemma StandaloneMarkerReported(lexicon: seq<string>, pre: string, w: string, post: string)
    requires Lower(w) in lexicon && WordBounded(Lower(w))
    requires |pre| == 0 || !IsWordChar(pre[|pre| - 1])
    requires |post| == 0 || !IsWordChar(post[0])
    ensures Lower(w) in Detect(lexicon, pre + w + post)
  {
    var m := Lower(w);
    var text := Lower(pre + w + post);
    LowerAppend(pre + w, post);
    LowerAppend(pre, w);
    OccursBetween(Lower(pre), m, Lower(post));
    assert text == Lower(pre) + m + Lower(post);
    if |pre| > 0 {
      LowerKeepsWordChars(pre[|pre| - 1]);
    }
    if |post| > 0 {
      LowerKeepsWordChars(post[0]);
    }
    MatchAtWordBounded(text, m, |pre|);
    SelectMembers(text, lexicon);
  }

  /** Lower-casing the transcript first changes nothing. */
  lemma DetectIgnoresCase(lexicon: seq<string>, transcription: string)
    ensures Detect(lexicon, Lower(transcription)) == Detect(lexicon, transcription)
  {
    LowerIsNormal(transcription);
    SelectMembers(Lower(transcription), lexicon);
  }

  /** A marker with an upper-case letter can never match the lower-cased
      transcript, so it is never reported. */
  lemma UppercaseMarkerNeverReported(lexicon: seq<string>, transcription: string, m: string)
    requires exists i :: 0 <= i < |m| && IsUpper(m[i])
    ensures m !in Detect(lexicon, transcription)
  {
    LowerIsNormal(transcription);
    SelectMembers(Lower(transcription), lexicon);
  }

  /** "I mean" and the other eight entries spelled with `I` are never
      reported, whatever the transcript says. */
  lemma CapitalIEntriesNeverReported(transcription: string)
    ensures "I mean" !in Detect(HesitationMarkers, transcription)
    ensures "I guess" !in Detect(HesitationMarkers, transcription)
    ensures "I'm not sure" !in Detect(HesitationMarkers, transcription)
    ensures "you know what I mean" !in Detect(HesitationMarkers, transcription)
  {
    assert IsUpper("I mean"[0]);
    UppercaseMarkerNeverReported(HesitationMarkers, transcription, "I mean");
    assert IsUpper("I guess"[0]);
    UppercaseMarkerNeverReported(HesitationMarkers, transcription, "I guess");
    assert IsUpper("I'm not sure"[0]);
    UppercaseMarkerNeverReported(HesitationMarkers, transcription, "I'm not sure");
    assert IsUpper("you know what I mean"[14]);
    UppercaseMarkerNeverReported(HesitationMarkers, transcription, "you know what I mean");
  }

  /** When no entry is found, nothing is reported. */
  lemma {:induction false} SelectNoneFound(text: string, lexicon: seq<string>)
    requires forall i :: 0 <= i < |lexicon| ==> !Found(text, lexicon[i])
    ensures Select(text, lexicon) == []
    decreases |lexicon|
  {
    if |lexicon| > 0 {
      SelectNoneFound(text, lexicon[..|lexicon| - 1]);
    }
  }

  /** An empty transcript yields an empty result, for any list: not even an
      empty marker matches, since `\b` never holds in the empty string. */
  lemma EmptyTranscriptDetectsNothing(lexicon: seq<string>)
    ensures Detect(lexicon, "") == []
  {
    assert Lower("") == "";
    forall i | 0 <= i < |lexicon|
      ensures !Found("", lexicon[i])
    {
      assert !MatchAt("", lexicon[i], 0);
    }
    SelectNoneFound("", lexicon);
  }

  /** A duplicated entry that matches is reported once per listing: "mmm"
      three times, "eh" and "hmm" twice. */
  lemma DuplicatesReportedPerListing(transcription: string)
    ensures Found(Lower(transcription), "mmm") ==> multiset(Detect(HesitationMarkers, transcription))["mmm"] == 3
    ensures Found(Lower(transcription), "eh") ==> multiset(Detect(HesitationMarkers, transcription))["eh"] == 2
    ensures Found(Lower(transcription), "hmm") ==> multiset(Detect(HesitationMarkers, transcription))["hmm"] == 2
  {
    var text := Lower(transcription);
    MmmListings();
    EhListings();
    HmmListings();
    ListingsIsMultiplicity(HesitationMarkers, "mmm");
    ListingsIsMultiplicity(HesitationMarkers, "eh");
    ListingsIsMultiplicity(HesitationMarkers, "hmm");
    SelectCount(text, HesitationMarkers, "mmm");
    SelectCount(text, HesitationMarkers, "eh");
    SelectCount(text, HesitationMarkers, "hmm");
  }
}
