/** File names: the audio file name built by `record_audio` and the
    transcript path derived from it by `save_transcription`, with the
    POSIX `os.path` operations they use (`join`, `basename`, `splitext`). */
module Paths {
  import opened Text

  const OutputFolder: string := "output_transcription"
  const AudioPrefix: string := "recorded_audio_"
  const AudioExtension: string := ".wav"
  const TranscriptSuffix: string := "_transcript.txt"

  /** The timestamp `%Y%m%d_%H%M%S`, taken as any string of digits and
      underscores. */
  predicate IsTimestamp(ts: string) {
    forall i :: 0 <= i < |ts| ==> '0' <= ts[i] <= '9' || ts[i] == '_'
  }

  /** `os.path.join(dir, name)` for two components. */
  function PathJoin(dir: string, name: string): (p: string)
    ensures |name| > 0 && name[0] == '/' ==> p == name
    ensures (|name| == 0 || name[0] != '/') ==> |name| <= |p| && p[|p| - |name|..] == name
  {
    if |name| > 0 && name[0] == '/' then name
    else if |dir| == 0 || dir[|dir| - 1] == '/' then dir + name
    else dir + "/" + name
  }

  /** `os.path.basename(p)`: what follows the last `/`. */
  function Basename(p: string): (b: string)
    ensures |b| <= |p| && p[|p| - |b|..] == b
    ensures forall i :: 0 <= i < |b| ==> b[i] != '/'
    ensures |b| < |p| ==> p[|p| - |b| - 1] == '/'
  {
    p[LastIndexOf(p, '/') + 1..]
  }

  /** `os.path.splitext(p)`: the extension is the part from the last `.`
      that follows the last `/`, unless only dots precede that `.` in the
      last component (so ".bashrc" has no extension). */
  function Splitext(p: string): (parts: (string, string))
    ensures parts.0 + parts.1 == p
    ensures parts.1 == [] || (parts.1[0] == '.' && forall i :: 1 <= i < |parts.1| ==> parts.1[i] != '.' && parts.1[i] != '/')
  {
    var sep := LastIndexOf(p, '/');
    var dot := LastIndexOf(p, '.');
    if dot > sep && exists j :: sep + 1 <= j < dot && p[j] != '.' then
      assert p[..dot] + p[dot..] == p;
      (p[..dot], p[dot..])
    else
      assert p + [] == p;
      (p, [])
  }

  /** `AUDIO_FILE = os.path.join(OUTPUT_FOLDER, f"recorded_audio_{timestamp}.wav")`. */
  function AudioFile(timestamp: string): (f: string)
    ensures f == OutputFolder + "/" + AudioPrefix + timestamp + AudioExtension
  {
    assert (AudioPrefix + timestamp + AudioExtension)[0] == 'r';
    PathJoin(OutputFolder, AudioPrefix + timestamp + AudioExtension)
  }

  /** `os.path.join(OUTPUT_FOLDER, f"{base_name}_transcript.txt")` with
      `base_name = os.path.splitext(os.path.basename(audio_file))[0]`. */
  function TranscriptPath(audioFile: string): (t: string)
    ensures t == OutputFolder + "/" + (Splitext(Basename(audioFile)).0 + TranscriptSuffix)
    ensures NoSlash(Splitext(Basename(audioFile)).0 + TranscriptSuffix)
  {
    var stem := Splitext(Basename(audioFile)).0;
    TranscriptNameHasNoSlash(audioFile);
    JoinIntoOutputFolder(stem);
    PathJoin(OutputFolder, stem + TranscriptSuffix)
  }

  /** The transcript's file name, the audio file's stem plus the suffix,
      has no slash. */
  lemma TranscriptNameHasNoSlash(audioFile: string)
    ensures NoSlash(Splitext(Basename(audioFile)).0 + TranscriptSuffix)
  {
    StemHasNoSlash(audioFile);
    assert NoSlash(TranscriptSuffix);
    NoSlashAppend(Splitext(Basename(audioFile)).0, TranscriptSuffix);
  }

  /** The stem of a base name has no slash. */
  lemma StemHasNoSlash(audioFile: string)
    ensures NoSlash(Splitext(Basename(audioFile)).0)
  {
    var base := Basename(audioFile);
    var stem := Splitext(base).0;
    assert base == stem + Splitext(base).1;
    forall i | 0 <= i < |stem| ensures stem[i] != '/' {
      assert stem[i] == base[i];
    }
  }

  lemma NoSlashAppend(a: string, b: string)
    requires NoSlash(a) && NoSlash(b)
    ensures NoSlash(a + b)
  {
  }

  /** Joining a slash-free `stem + "_transcript.txt"` onto the output
      folder puts one `/` between them. */
  lemma JoinIntoOutputFolder(stem: string)
    requires NoSlash(stem + TranscriptSuffix)
    ensures PathJoin(OutputFolder, stem + TranscriptSuffix) == OutputFolder + "/" + (stem + TranscriptSuffix)
  {
    var name := stem + TranscriptSuffix;
    assert name[0] != '/';
    assert OutputFolder[|OutputFolder| - 1] != '/';
  }

  predicate NoSlash(s: string) {
    forall i :: 0 <= i < |s| ==> s[i] != '/'
  }

  /** The base name of `dir/name` is `name` when `name` has no `/`. */
  lemma BasenameOfJoin(dir: string, name: string)
    requires NoSlash(name)
    ensures Basename(dir + "/" + name) == name
  {
    var p := dir + "/" + name;
    assert forall j :: |dir| < j < |p| ==> p[j] == name[j - |dir| - 1];
    LastIndexOfUnique(p, '/', |dir|);
  }

  /** `splitext` separates a final ".ext" from a stem that does not start
      with a dot, within a single path component. */
  lemma SplitextOfStem(stem: string, ext: string)
    requires NoSlash(stem + ext) && |stem| > 0 && stem[0] != '.'
    requires |ext| > 0 && ext[0] == '.' && forall i :: 1 <= i < |ext| ==> ext[i] != '.'
    ensures Splitext(stem + ext) == (stem, ext)
  {
    var p := stem + ext;
    LastIndexOfUnique(p, '/', -1);
    assert forall j :: |stem| < j < |p| ==> p[j] == ext[j - |stem|];
    LastIndexOfUnique(p, '.', |stem|);
    assert p[0] != '.';
    assert p[..|stem|] == stem && p[|stem|..] == ext;
  }

  /** The file name of a recording contains no `/`. */
  lemma AudioNameHasNoSlash(ts: string)
    requires IsTimestamp(ts)
    ensures NoSlash(AudioPrefix + ts + AudioExtension)
  {
    var stem := AudioPrefix + ts;
    var name := stem + AudioExtension;
    forall i | 0 <= i < |name| ensures name[i] != '/' {
      if i < |AudioPrefix| {
        assert name[i] == AudioPrefix[i];
      } else if i < |stem| {
        assert name[i] == ts[i - |AudioPrefix|];
      } else {
        assert name[i] == AudioExtension[i - |stem|];
      }
    }
  }

  /** For an audio file named by `record_audio`, the transcript sits next
      to it with ".wav" replaced by "_transcript.txt":
      `output_transcription/recorded_audio_<ts>_transcript.txt`. */
  lemma TranscriptPathOfAudioFile(ts: string)
    requires IsTimestamp(ts)
    ensures AudioFile(ts) == OutputFolder + "/" + AudioPrefix + ts + AudioExtension
    ensures TranscriptPath(AudioFile(ts)) == OutputFolder + "/" + AudioPrefix + ts + TranscriptSuffix
  {
    var stem := AudioPrefix + ts;
    var name := stem + AudioExtension;
    var transcriptName := stem + TranscriptSuffix;
    assert name[0] == 'r' && transcriptName[0] == 'r';
    assert AudioFile(ts) == OutputFolder + "/" + name;
    AudioNameHasNoSlash(ts);
    BasenameOfJoin(OutputFolder, name);
    SplitextOfStem(stem, AudioExtension);
    assert TranscriptPath(AudioFile(ts)) == PathJoin(OutputFolder, transcriptName);
    assert PathJoin(OutputFolder, transcriptName) == OutputFolder + "/" + transcriptName;
  }

  /** Recordings whose timestamps differ get different audio files and
      different transcript paths. */
  lemma DistinctTimestampsDistinctPaths(ts1: string, ts2: string)
    requires IsTimestamp(ts1) && IsTimestamp(ts2) && ts1 != ts2
    ensures AudioFile(ts1) != AudioFile(ts2)
    ensures TranscriptPath(AudioFile(ts1)) != TranscriptPath(AudioFile(ts2))
  {
    TranscriptPathOfAudioFile(ts1);
    TranscriptPathOfAudioFile(ts2);
    var pre := OutputFolder + "/" + AudioPrefix;
    var t1, t2 := pre + ts1 + TranscriptSuffix, pre + ts2 + TranscriptSuffix;
    var a1, a2 := pre + ts1 + AudioExtension, pre + ts2 + AudioExtension;
    assert t1[|pre|..|t1| - |TranscriptSuffix|] == ts1;
    assert a1[|pre|..|a1| - |AudioExtension|] == ts1;
    assert t2[|pre|..|t2| - |TranscriptSuffix|] == ts2;
    assert a2[|pre|..|a2| - |AudioExtension|] == ts2;
  }
}
