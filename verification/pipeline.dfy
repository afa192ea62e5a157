/** `main()` from the recording on: record, transcribe, detect, save. */
module Pipeline {
  import opened Wrappers
  import opened Text
  import opened Markers
  import opened Hesitations
  import opened Paths
  import opened Capture
  import opened Sink

  /** One session. The speech-to-text engine is the parameter `transcribe`,
      applied to the captured audio; the argument parsing, the preparation
      countdown and the console output are not modelled. A session either
      fails in `record_audio`, and nothing is saved, or saves one transcript
      file next to the recording. */
  method RunSession(recordSeconds: Option<int>, timestamp: string, device: seq<ReadOutcome>,
                    transcribe: seq<byte> -> string)
    returns (r: Result<TranscriptFile, RecordError>)
    requires recordSeconds.Some? ==> Supplies(PlanFor(recordSeconds.value), device)
    ensures recordSeconds.None? ==> r == Failure(DurationMissing)
    ensures recordSeconds.Some? ==>
      (r.Success? <==> Captured(PlanFor(recordSeconds.value), device).Success?)
    ensures r.Success? && IsTimestamp(timestamp) ==>
      r.value.path == OutputFolder + "/" + AudioPrefix + timestamp + TranscriptSuffix
    ensures r.Success? ==>
      var t := transcribe(Concat(Captured(PlanFor(recordSeconds.value), device).value));
      && TranscriptHeader + t <= r.value.content
      && (!Contains(t, SectionTitle) ==>
            (Contains(r.value.content, SectionTitle) <==>
             exists m :: m in HesitationMarkers && Found(Lower(t), m)))
  {
    var recording, progress := RecordAudio(recordSeconds, timestamp, device);
    if recording.Failure? {
      return Failure(recording.error);
    }
    var audioPath := recording.value.audioFile;
    var transcription := transcribe(recording.value.payload);
    var detected := DetectHesitations(transcription);
    r := Success(SaveTranscription(transcription, audioPath, detected));
    if IsTimestamp(timestamp) {
      TranscriptPathOfAudioFile(timestamp);
    }
    ContentReadsBack(transcription, detected);
    assert r.value.content[..|TranscriptHeader| + |transcription|] == TranscriptHeader + transcription;
    if !Contains(transcription, SectionTitle) {
      SectionPresentIffDetected(transcription, detected);
      if |detected| > 0 {
        assert detected[0] in detected;
      }
    }
  }
}
