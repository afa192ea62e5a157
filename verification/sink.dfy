/** `save_transcription`: the text written to the transcript file and the
    file's path. */
module Sink {
  import opened Text
  import opened Paths

  const TranscriptHeader: string := "Transcription:\n"
  /** The words that only the marker section writes. */
  const SectionTitle: string := "Detected Hesitations:"
  /** A blank line, then the section title on a line of its own. */
  const HesitationHeader: string := "\n\n" + SectionTitle + "\n"
  const Separator: string := ", "

  /** `", ".join(items)`: nothing for no items, and otherwise starting with
      the first item. */
  function JoinMarkers(items: seq<string>): (r: string)
    ensures |items| == 0 ==> r == ""
    ensures |items| > 0 ==> items[0] <= r
  {
    if |items| == 0 then ""
    else if |items| == 1 then items[0]
    else items[0] + Separator + JoinMarkers(items[1..])
  }

  /** The total length of `items`. */
  function TotalLength(items: seq<string>): nat {
    if |items| == 0 then 0 else |items[0]| + TotalLength(items[1..])
  }

  /** The joined text is the items plus one separator between each pair. */
  lemma {:induction false} JoinMarkersLength(items: seq<string>)
    requires |items| > 0
    ensures |JoinMarkers(items)| == TotalLength(items) + |Separator| * (|items| - 1)
  {
    if |items| > 1 {
      JoinMarkersLength(items[1..]);
    }
  }

  /** Joining one more item appends the separator and that item: with the
      one-item case, this fixes the joined text as the items in order with
      one ", " between each pair. */
  lemma {:induction false} JoinMarkersAppend(items: seq<string>, x: string)
    requires |items| > 0
    ensures JoinMarkers(items + [x]) == JoinMarkers(items) + Separator + x
    decreases |items|
  {
    assert (items + [x])[0] == items[0];
    assert (items + [x])[1..] == items[1..] + [x];
    if |items| == 1 {
      assert JoinMarkers(items) == items[0];
      assert items[1..] + [x] == [x];
    } else {
      JoinMarkersAppend(items[1..], x);
    }
  }

  /** Every item can be found in the joined text. */
  lemma {:induction false} JoinMarkersContainsEach(items: seq<string>, k: nat)
    requires k < |items|
    ensures Contains(JoinMarkers(items), items[k])
  {
    if |items| == 1 {
      OccursBetween("", items[0], "");
      assert "" + items[0] + "" == items[0];
    } else {
      var rest := JoinMarkers(items[1..]);
      assert JoinMarkers(items) == items[0] + Separator + rest;
      if k == 0 {
        OccursBetween("", items[0], Separator + rest);
        assert "" + items[0] + (Separator + rest) == items[0] + Separator + rest;
      } else {
        JoinMarkersContainsEach(items[1..], k - 1);
        var p :| 0 <= p <= |rest| - |items[k]| && OccursAt(rest, items[k], p);
        var pre := items[0] + Separator;
        assert (pre + rest)[|pre| + p..|pre| + p + |items[k]|] == rest[p..p + |items[k]|];
        assert OccursAt(JoinMarkers(items), items[k], |pre| + p);
      }
    }
  }

  /** The text written by `save_transcription`: a header line, the
      transcript verbatim, and, only when some marker was detected, a blank
      line, a second header line and the markers joined by ", ". */
  function Content(transcription: string, detected: seq<string>): (c: string)
    ensures TranscriptHeader + transcription <= c
    ensures |c| == |TranscriptHeader| + |transcription| <==> |detected| == 0
  {
    TranscriptHeader + transcription
      + (if |detected| > 0 then HesitationHeader + JoinMarkers(detected) else "")
  }

  /** Reading the file back gives the transcript unchanged right after the
      header; the file ends there exactly when nothing was detected, and
      otherwise continues with the marker section. */
  lemma ContentReadsBack(transcription: string, detected: seq<string>)
    ensures var c := Content(transcription, detected);
      && |TranscriptHeader| + |transcription| <= |c|
      && c[..|TranscriptHeader|] == TranscriptHeader
      && c[|TranscriptHeader|..|TranscriptHeader| + |transcription|] == transcription
      && (|c| == |TranscriptHeader| + |transcription| <==> |detected| == 0)
      && (|detected| > 0 ==> c[|TranscriptHeader| + |transcription|..] == HesitationHeader + JoinMarkers(detected))
  {
  }

  /** A pattern whose first character the prefix never uses occurs in
      `prefix + s` only if it occurs in `s`. */
  lemma {:induction false} NotFoundAfterForeignPrefix(prefix: string, s: string, pat: string)
    requires |pat| > 0
    requires forall i :: 0 <= i < |prefix| ==> prefix[i] != pat[0]
    requires !Contains(s, pat)
    ensures !Contains(prefix + s, pat)
  {
    var c := prefix + s;
    if Contains(c, pat) {
      var p :| 0 <= p <= |c| - |pat| && OccursAt(c, pat, p);
      assert c[p] == pat[0];
      if p >= |prefix| {
        var q := p - |prefix|;
        assert c[p..p + |pat|] == s[q..q + |pat|];
        assert OccursAt(s, pat, q);
      }
    }
  }

  /** With no marker detected the file holds no "Detected Hesitations:"
      unless the transcript itself says so. */
  lemma NoSectionWhenNothingDetected(transcription: string)
    requires !Contains(transcription, SectionTitle)
    ensures !Contains(Content(transcription, []), SectionTitle)
  {
    assert Content(transcription, []) == TranscriptHeader + transcription;
    assert forall i :: 0 <= i < |TranscriptHeader| ==> TranscriptHeader[i] != 'D';
    NotFoundAfterForeignPrefix(TranscriptHeader, transcription, SectionTitle);
  }

  /** With some marker detected the file holds the section title. */
  lemma SectionWhenDetected(transcription: string, detected: seq<string>)
    requires |detected| > 0
    ensures Contains(Content(transcription, detected), SectionTitle)
  {
    var join := JoinMarkers(detected);
    var pre := TranscriptHeader + transcription + "\n\n";
    var post := "\n" + join;
    assert HesitationHeader + join == "\n\n" + SectionTitle + post;
    assert Content(transcription, detected) == (TranscriptHeader + transcription) + (HesitationHeader + join);
    assert Content(transcription, detected) == pre + SectionTitle + post;
    OccursBetween(pre, SectionTitle, post);
  }

  /** For a transcript that does not itself contain "Detected Hesitations:",
      the file contains those words exactly when some marker was detected:
      an empty result omits the section entirely. */
  lemma SectionPresentIffDetected(transcription: string, detected: seq<string>)
    requires !Contains(transcription, SectionTitle)
    ensures Contains(Content(transcription, detected), SectionTitle) <==> |detected| > 0
  {
    if |detected| > 0 {
      SectionWhenDetected(transcription, detected);
    } else {
      assert detected == [];
      NoSectionWhenNothingDetected(transcription);
    }
  }

  /** What `save_transcription` writes, and where. */
  datatype TranscriptFile = TranscriptFile(path: string, content: string)

  /** `save_transcription(transcription, audio_file, detected_hesitations)`
      less the file write and the confirmation message. */
  function SaveTranscription(transcription: string, audioFile: string, detected: seq<string>): (f: TranscriptFile)
    ensures f.path == OutputFolder + "/" + (Splitext(Basename(audioFile)).0 + TranscriptSuffix)
    ensures TranscriptHeader + transcription <= f.content
    ensures |f.content| > |TranscriptHeader| + |transcription| <==> |detected| > 0
  {
    TranscriptFile(TranscriptPath(audioFile), Content(transcription, detected))
  }
}
