# audiotranscript: a Dafny model of the recording and hesitation-detection core

`main.py` records speech from a microphone, transcribes it with Whisper,
and scans the transcript for hesitation markers: filler words such as "um",
"you know" or "o sea". It then saves the transcript, followed by the markers
it found, next to the recording. This project models that core in Dafny and
proves properties about it:

- **Markers** holds `HESITATION_MARKERS`, entry for entry. It keeps the
  list's duplicates ("eh" and "hmm" twice, "mmm" three times) and its nine
  entries with a capital `I`.
- **Hesitations** models `detect_hesitations`. The transcript is
  lower-cased, then each list entry is tested, in list order, with the
  regular expression `\b<marker>\b`. `\b` is modelled by the
  word-character test on the two characters around a position.
- **Timing** models the chunk count `int(RATE / CHUNK * record_seconds)` and
  the countdown `record_seconds - int(i * CHUNK / RATE)`. Python's `int()`
  truncates toward zero, and the model writes that truncation out.
- **Capture** models the capture loop of `record_audio`. The microphone is a
  finite script of read outcomes: a chunk of bytes, an interrupt (Ctrl+C),
  or a failed read. The frames are collected append-only and joined in read
  order into the payload written to the WAV file.
- **Paths** builds the recording's name,
  `output_transcription/recorded_audio_<timestamp>.wav`. It also models the
  `basename`/`splitext`/`join` steps that derive the transcript path from
  that name.
- **Sink** builds the text `save_transcription` writes.
- **Pipeline** chains the steps of `main()`. The speech-to-text engine is a
  function parameter.

Behaviours of the code worth knowing:

- Matching is tested once per list entry. A duplicated entry that matches
  is therefore reported once per listing: "mmm" three times, "eh" and
  "hmm" twice each.
- The chunk count `int(15.625 * s)` rounds down, `(125 * s) / 8`. A
  recording is never longer than requested and falls short by less than
  one chunk.
- `--seconds` defaults to `None` (`main.py:112`). With `None`, the
  multiplication at `main.py:50` raises before any read. `if
  record_seconds:` (`main.py:53`) sends only a duration of 0 to the
  `while True` loop. A negative duration gives an empty range and reads
  nothing.
- The list entries are not lower-cased, only the transcript is. An entry
  with an upper-case letter ("I mean", "I guess", "I'm not sure", "you
  know what I mean", …) can never be reported.
- "ummm" matches neither "um" nor "umm", because `\b` needs a non-word
  character after the marker.
- The `try` around both loops catches `KeyboardInterrupt`, and the prompt
  at `main.py:27` tells the user to press Ctrl+C to stop. Ctrl+C ends the
  bounded loop as well as the unbounded one, and both keep the chunks
  read so far.
- Any other exception from a read is not caught, so no recording and no
  transcript are saved.

## Model

| member | source | states |
|---|---|---|
| Text.Lower | main.py:87 | lower-casing keeps the length and maps each character on its own: `A`-`Z` to `a`-`z`, every other character unchanged |
| Text.LowerIsNormal | main.py:87 | a lower-cased text has no upper-case letter, and lower-casing it again changes nothing |
| Markers.AllMarkersWordBounded | main.py:14-24 | the list has 64 entries, and every entry begins and ends with a word character |
| Markers.MmmListings | main.py:16-23 | "mmm" is listed three times |
| Markers.EhListings | main.py:16-22 | "eh" is listed twice |
| Markers.HmmListings | main.py:16-23 | "hmm" is listed twice |
| Markers.ListingsByLine | main.py:14-24 | how often a phrase is listed is the sum, over the eight source lines of the list, of how often each line lists it |
| Hesitations.Found | main.py:90 | a `\bM\b` match implies that M occurs in the text |
| Hesitations.MatchAtWordBounded | main.py:90 | for an entry that begins and ends with a word character, `\bM\b` matches at p iff M occurs at p with no word character just before or just after it |
| Hesitations.Search | main.py:90 | the scan over positions returns true iff `\bM\b` matches somewhere in the text |
| Hesitations.Select | main.py:89-91 | the result is never longer than the list |
| Hesitations.SelectMembers | main.py:89-91 | a phrase is in the result iff it is a list entry whose word-bounded match exists in the text |
| Hesitations.Detect | main.py:83-93 | the result is no longer than the list and holds exactly the listed phrases found, word-bounded, in the lower-cased transcript |
| Hesitations.DetectIn | main.py:83-93 | the loop over the list, appending each matching entry, computes the detection of the lower-cased transcript |
| Hesitations.DetectHesitations | main.py:83-93 | with the fixed list, a phrase is reported iff it is listed and matches, word-bounded, in the lower-cased transcript |
| Hesitations.MatchingIndicesAreTheMatches | main.py:89-91 | the positions of the matching entries are strictly increasing and are exactly the list positions whose entry matches |
| Hesitations.SelectFollowsListOrder | main.py:89-91 | the k-th reported phrase is the entry at the k-th matching list position: the result is a subsequence of the list in list order |
| Hesitations.SelectCount | main.py:89-91 | a phrase is reported as many times as it is listed if it matches, and not at all otherwise |
| Hesitations.StandaloneMarkerReported | main.py:87-91 | a listed word-bounded phrase, spoken in any letter case with no word character right before or after it, is reported |
| Hesitations.DetectIgnoresCase | main.py:87 | detecting in the lower-cased transcript gives the same result as detecting in the transcript |
| Hesitations.UppercaseMarkerNeverReported | main.py:87-91 | an entry holding an upper-case letter is never reported, whatever the transcript |
| Hesitations.CapitalIEntriesNeverReported | main.py:16-18 | "I mean", "I guess", "I'm not sure" and "you know what I mean" are never reported |
| Hesitations.SelectNoneFound | main.py:84-91 | when no entry matches, the result is empty |
| Hesitations.EmptyTranscriptDetectsNothing | main.py:84-93 | an empty transcript yields an empty result, for any list |
| Hesitations.DuplicatesReportedPerListing | main.py:89-91 | when "mmm", "eh" or "hmm" matches, it is reported three, two or two times: once per listing |
| DetectionExamples.NoMatchInsideWord | main.py:90 | "so" is not reported for "I also ran" |
| DetectionExamples.UpperCaseSpeechMatches | main.py:87-91 | "um" is reported for "UM, let me think about it" |
| DetectionExamples.PhraseMatchesInMixedCase | main.py:87-91 | "let me think" is reported for "UM, let me think about it" |
| DetectionExamples.MultiWordMatch | main.py:89-91 | a multi-word entry, "you know", is reported when the words appear in sequence |
| DetectionExamples.SpacingIsLiteral | main.py:90 | "you know" is not reported for "you  know" with two spaces: the spacing of a phrase is matched literally |
| DetectionExamples.NoPrefixMatch | main.py:90 | "ummm" reports neither "um" nor "umm" |
| DetectionExamples.ExampleMarkersListed | main.py:15-17 | "um", "you know" and "let me think" are on the list |
| DetectionExamples.ExamplesOnMarkerList | main.py:83-93 | the examples above, with the fixed list; "I mean" is not reported for "you know what I mean, it was fine" |
| DetectionExamples.ListOrderNotSpeechOrder | main.py:89-91 | with the list ["um", "uh", "ok"], the transcript "ok, um" reports ["um", "ok"]: list order, not speech order |
| Timing.TruncDiv | main.py:50 | `int()` of a quotient truncates toward zero: below the quotient for positive values, above it for negative ones |
| Timing.NumChunks | main.py:50 | for s >= 0 the count is the number of whole 1024-frame chunks in s seconds of 16 kHz audio; for s < 0 it is not positive |
| Timing.Countdown | main.py:55 | the value shown falls short of s by the whole seconds of audio in the i chunks already read |
| Timing.NumChunksClosedForm | main.py:50 | the count is `(125 * s) / 8` for s >= 0, at most 0 for s < 0, and 15 for one second |
| Timing.CountdownBounds | main.py:54-55 | for every read i of a positive bounded recording, the seconds shown lie between 1 and s |
| Timing.CountdownNonIncreasing | main.py:55 | the countdown starts at s and never goes up |
| Paths.AudioFile | main.py:34-35 | the recording is `output_transcription/recorded_audio_<ts>.wav` |
| Paths.TranscriptPath | main.py:96-97 | the path is `output_transcription/` followed by a slash-free name: the audio file's stem plus `_transcript.txt` |
| Paths.PathJoin | main.py:35 | `os.path.join` ends with the name, or is the name when the name is absolute |
| Paths.Basename | main.py:96 | the base name is the suffix after the last `/` and holds no `/` |
| Paths.Splitext | main.py:96 | root plus extension give back the path; the extension is empty or a dot followed by no dot or slash |
| Paths.BasenameOfJoin | main.py:96 | the base name of `dir/name` is `name` when the name has no slash |
| Paths.SplitextOfStem | main.py:96 | splitting `stem + ".ext"` gives back stem and extension |
| Paths.AudioNameHasNoSlash | main.py:34-35 | the recording's file name has no slash for a digits-and-underscore timestamp |
| Paths.TranscriptPathOfAudioFile | main.py:96-97 | the recording is `output_transcription/recorded_audio_<ts>.wav` and its transcript is `output_transcription/recorded_audio_<ts>_transcript.txt` |
| Paths.DistinctTimestampsDistinctPaths | main.py:34-35 | different timestamps give different recordings and different transcript files |
| Capture.PlanFor | main.py:50-59 | the loop is unbounded iff the duration is 0; a negative duration reads no chunks; a positive one reads the chunk count |
| Capture.Captured | main.py:52-64 | the capture fails iff the first read that returns no data is a failed read within the quota; otherwise it holds the first min(quota, reads before the stop) chunks, each as read |
| Capture.CaptureFrames | main.py:48-64 | the capture returns the frames of the reference definition; the countdown is shown once per read started, each value from the countdown formula and within 1..s |
| Capture.CaptureCounted | main.py:53-58 | the bounded loop yields the reference frames and shows one countdown value per read started |
| Capture.CaptureUntilInterrupted | main.py:59-64 | the unbounded loop keeps every chunk read before the interrupt |
| Capture.Concat | main.py:74 | joining no frames gives an empty payload |
| Capture.ConcatAppend | main.py:58 | appending a chunk to the frames appends its bytes to the payload |
| Capture.ConcatOfFullChunks | main.py:74 | for chunks of 2048 bytes, the payload has 2048 bytes per chunk, and byte k of chunk j sits at j * 2048 + k |
| Capture.InterruptKeepsChunksRead | main.py:60-64 | an interrupt after N successful reads keeps exactly those N chunks, in both loops |
| Capture.ReadFailureLosesCapture | main.py:52-64 | a failed read before the quota ends the recording with an error |
| Capture.BoundedRecordingLength | main.py:50-58 | a positive recording that is not interrupted holds `(125 * s) / 8` chunks, and `(125 * s) / 8 * 2048` payload bytes for full chunks |
| Capture.NegativeDurationReadsNothing | main.py:50-54 | a negative duration reads nothing and writes an empty payload |
| Capture.RecordAudio | main.py:26-76 | no duration fails before reading; otherwise the recording succeeds iff the capture does, at the timestamped path, with the joined frames as payload |
| Sink.JoinMarkers | main.py:105 | joining no markers gives the empty text; otherwise the joined text starts with the first marker |
| Sink.JoinMarkersAppend | main.py:105 | joining one more marker appends ", " and that marker; with one marker joining to itself, this fixes the text as the markers in order with ", " between each pair |
| Sink.JoinMarkersLength | main.py:105 | the length of the joined text is the markers' total length plus 2 per gap |
| Sink.JoinMarkersContainsEach | main.py:105 | every detected marker can be found in the joined text |
| Sink.Content | main.py:99-105 | the text starts with "Transcription:\n" and the transcript, and goes on past them iff some marker was detected |
| Sink.SaveTranscription | main.py:95-107 | the file sits in the output folder, named after the audio file's stem plus `_transcript.txt`; its content starts with the header and the transcript and goes on past them iff some marker was detected |
| Sink.ContentReadsBack | main.py:100-105 | the file starts with "Transcription:\n" and then the transcript verbatim; it ends there iff nothing was detected, and otherwise continues with the section header and the joined markers |
| Sink.NoSectionWhenNothingDetected | main.py:103 | with nothing detected, the file holds no "Detected Hesitations:" unless the transcript does |
| Sink.SectionWhenDetected | main.py:103-105 | with some marker detected, the file holds "Detected Hesitations:" |
| Sink.SectionPresentIffDetected | main.py:100-105 | for a transcript without those words, the section title is present iff some marker was detected |
| Pipeline.RunSession | main.py:122-128 | a session fails iff recording fails; otherwise it saves `output_transcription/recorded_audio_<ts>_transcript.txt`, which starts with the transcript and names the hesitation section iff some listed marker matches |

## Left out

- The PyAudio device is replaced by a finite script of read outcomes. The model leaves out opening it, closing it, the stream's stop/terminate calls and `get_sample_size` (`main.py:41-46, 66-68, 72`). Stream release is not tracked.
- The WAV header (`setnchannels`, `setsampwidth`, `setframerate`) is left out. Only the payload handed to `writeframes` is modelled.
- Whisper's model loading and transcription (`main.py:78-81`) are left out. `Pipeline.RunSession` takes the engine as a function from the payload to text.
- Pipeline.RunSession: the engine is a total function and the file write is left out, so errors raised by Whisper (`main.py:123`) or by `open()` and `write()` (`main.py:99-105`) are not modelled. A session fails only when recording fails.
- Creating the output folder, opening and writing files, and the printed messages are left out.
- `datetime.now().strftime`: the timestamp is a parameter, assumed to be digits and `_`.
- The argument parsing, the preparation countdown with `time.sleep`, and the transcript preview (`main.py:110-120, 126`) are left out.
- `KeyboardInterrupt` arrives asynchronously in Python. The model treats it as the outcome of a read, so an interrupt between two reads is not modelled separately.
- Text.Lower: only ASCII `A`-`Z` are lower-cased. Python's full Unicode `str.lower()` can change other letters, and for some it changes the length.
- Hesitations.IsBoundary: word characters are ASCII letters, digits and `_`. Python's `\w` is Unicode-aware.
- Timing.NumChunksClosedForm: states the exact rational value of `16000 / 1024 * s`. It does not model float rounding for durations so large that the product exceeds double precision.
- Timing.Countdown: uses the exact integer quotient of `i * 1024` by 16000. The float quotient truncates to the same integer only while `i` stays below about 10^15.
- Capture.CaptureFrames: requires the script to answer every read the loop performs. A real device blocks instead of running out.
- Paths.PathJoin: models `os.path.join` for POSIX paths only.
- Capture.ReadFailureLosesCapture: a failed read is reported as a device error. The Python exception type is not modelled.
