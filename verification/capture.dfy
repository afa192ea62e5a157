/** The capture loop of `record_audio`: reads chunks from the input stream,
    appends each to `frames`, and stops when the chunk quota is used up or
    when the user interrupts; the payload written to the WAV file is the
    concatenation of the frames. The stream is a script of read outcomes. */
module Capture {
  import opened Wrappers
  import opened Timing
  import opened Paths

  newtype byte = x: int | 0 <= x < 256

  /** The raw bytes returned by one `stream.read(CHUNK)`. */
  type Chunk = seq<byte>

  /** What one `stream.read(CHUNK)` does: return a chunk, be interrupted by
      the user (`KeyboardInterrupt`), or fail with any other error. */
  datatype ReadOutcome = Data(chunk: Chunk) | Interrupted | ReadFailed

  datatype RecordError =
    | DurationMissing   // `record_seconds` is None: the multiplication at line 50 raises
    | DeviceError       // a read raised something other than KeyboardInterrupt

  /** How many reads the loop asks for: `Bounded(n)` runs
      `for i in range(num_chunks)`, `Unbounded` runs `while True`. */
  datatype Plan = Bounded(count: nat) | Unbounded

  /** `if record_seconds:` selects the bounded loop for every non-zero
      duration; a negative duration gives an empty range. */
  function PlanFor(recordSeconds: int): (plan: Plan)
    ensures plan.Unbounded? <==> recordSeconds == 0
    ensures recordSeconds < 0 ==> plan == Bounded(0)
    ensures recordSeconds > 0 ==> plan == Bounded(NumChunks(recordSeconds))
  {
    if recordSeconds != 0 then
      var n := NumChunks(recordSeconds);
      Bounded(if n < 0 then 0 else n)
    else
      Unbounded
  }

  /** The position of the first read that does not deliver data, or the
      length of the script if every read delivers. */
  function StopIndex(device: seq<ReadOutcome>): (k: nat)
    ensures k <= |device|
    ensures forall j :: 0 <= j < k ==> device[j].Data?
    ensures k < |device| ==> !device[k].Data?
  {
    if |device| == 0 || !device[0].Data? then 0 else 1 + StopIndex(device[1..])
  }

  /** The script answers every read the plan will make: it either contains
      a stop, or is at least as long as the bounded quota. */
  predicate Supplies(plan: Plan, device: seq<ReadOutcome>) {
    StopIndex(device) < |device| || (plan.Bounded? && plan.count <= |device|)
  }

  /** The chunks of a run of successful reads. */
  function ChunksOf(run: seq<ReadOutcome>): (frames: seq<Chunk>)
    requires forall j :: 0 <= j < |run| ==> run[j].Data?
    ensures |frames| == |run|
    ensures forall j :: 0 <= j < |run| ==> frames[j] == run[j].chunk
  {
    seq(|run|, j requires 0 <= j < |run| => run[j].chunk)
  }

  /** What the loop leaves in `frames`, stated without the loop: the chunks
      read before the quota runs out or the first stop, whichever comes
      first; an interrupt keeps them, any other failure discards them. */
  function Captured(plan: Plan, device: seq<ReadOutcome>): (r: Result<seq<Chunk>, RecordError>)
    requires Supplies(plan, device)
    ensures r.Failure? <==>
      && StopIndex(device) < |device| && device[StopIndex(device)] == ReadFailed
      && (plan.Unbounded? || StopIndex(device) < plan.count)
    ensures r.Failure? ==> r.error == DeviceError
    ensures r.Success? ==>
      |r.value| == (if plan.Bounded? then Min(plan.count, StopIndex(device)) else StopIndex(device))
    ensures r.Success? ==> forall j :: 0 <= j < |r.value| ==> device[j].Data? && r.value[j] == device[j].chunk
  {
    var k := StopIndex(device);
    if plan.Bounded? && plan.count <= k then Success(ChunksOf(device[..plan.count]))
    else if device[k].Interrupted? then Success(ChunksOf(device[..k]))
    else Failure(DeviceError)
  }

  /** The `try` block of `record_audio`. `progress` lists the countdown
      values printed, one before each read of the bounded loop. */
  method CaptureFrames(recordSeconds: int, device: seq<ReadOutcome>)
    returns (outcome: Result<seq<Chunk>, RecordError>, progress: seq<int>)
    requires Supplies(PlanFor(recordSeconds), device)
    ensures outcome == Captured(PlanFor(recordSeconds), device)
    ensures recordSeconds == 0 ==> progress == []
    ensures recordSeconds != 0 ==> |progress| == Min(PlanFor(recordSeconds).count, StopIndex(device) + 1)
    ensures forall j :: 0 <= j < |progress| ==> progress[j] == Countdown(recordSeconds, j)
    ensures forall j :: 0 <= j < |progress| ==> 1 <= progress[j] <= recordSeconds
  {
    if recordSeconds != 0 {
      outcome, progress := CaptureCounted(recordSeconds, device);
    } else {
      outcome := CaptureUntilInterrupted(device);
      progress := [];
    }
  }

  /** `for i in range(num_chunks)`: print the countdown, read, append. */
  method CaptureCounted(recordSeconds: int, device: seq<ReadOutcome>)
    returns (outcome: Result<seq<Chunk>, RecordError>, progress: seq<int>)
    requires recordSeconds != 0 && Supplies(PlanFor(recordSeconds), device)
    ensures outcome == Captured(PlanFor(recordSeconds), device)
    ensures |progress| == Min(PlanFor(recordSeconds).count, StopIndex(device) + 1)
    ensures forall j :: 0 <= j < |progress| ==> progress[j] == Countdown(recordSeconds, j)
    ensures forall j :: 0 <= j < |progress| ==> 1 <= progress[j] <= recordSeconds
  {
    var frames: seq<Chunk> := [];
    progress := [];
    var numChunks := NumChunks(recordSeconds);
    NumChunksClosedForm(recordSeconds);
    var i := 0;
    while i < numChunks
      invariant 0 <= i <= StopIndex(device)
      invariant i <= numChunks || i == 0
      invariant frames == ChunksOf(device[..i])
      invariant |progress| == i
      invariant forall j :: 0 <= j < i ==> progress[j] == Countdown(recordSeconds, j)
      invariant forall j :: 0 <= j < i ==> 1 <= progress[j] <= recordSeconds
    {
      CountdownBounds(recordSeconds, i);
      progress := progress + [Countdown(recordSeconds, i)];
      match device[i]
      case Interrupted =>
        outcome := Success(frames);
        return;
      case ReadFailed =>
        outcome := Failure(DeviceError);
        return;
      case Data(c) =>
        assert device[..i + 1] == device[..i] + [device[i]];
        frames := frames + [c];
        i := i + 1;
    }
    outcome := Success(frames);
  }

  /** `while True`: read and append until the user interrupts. */
  method CaptureUntilInterrupted(device: seq<ReadOutcome>) returns (outcome: Result<seq<Chunk>, RecordError>)
    requires StopIndex(device) < |device|
    ensures outcome == Captured(Unbounded, device)
  {
    var frames: seq<Chunk> := [];
    var i := 0;
    while true
      invariant 0 <= i <= StopIndex(device)
      invariant frames == ChunksOf(device[..i])
      decreases |device| - i
    {
      match device[i]
      case Interrupted =>
        outcome := Success(frames);
        return;
      case ReadFailed =>
        outcome := Failure(DeviceError);
        return;
      case Data(c) =>
        assert device[..i + 1] == device[..i] + [device[i]];
        frames := frames + [c];
        i := i + 1;
    }
  }

  function Min(a: int, b: int): int {
    if a <= b then a else b
  }

  /** `b''.join(frames)`. */
  function Concat(frames: seq<Chunk>): (payload: seq<byte>)
    ensures frames == [] ==> payload == []
  {
    if |frames| == 0 then [] else frames[0] + Concat(frames[1..])
  }

  /** Joining is compatible with appending a chunk. */
  lemma {:induction false} ConcatAppend(frames: seq<Chunk>, c: Chunk)
    ensures Concat(frames + [c]) == Concat(frames) + c
  {
    if |frames| > 0 {
      assert (frames + [c])[1..] == frames[1..] + [c];
      ConcatAppend(frames[1..], c);
    }
  }

  /** With every chunk of `ChunkBytes` (2048) bytes, the payload has 2048
      bytes per chunk, and byte `k` of chunk `j` sits at offset
      `j * 2048 + k`: nothing is dropped, padded or reordered. */
  lemma {:induction false} ConcatOfFullChunks(frames: seq<Chunk>)
    requires forall j :: 0 <= j < |frames| ==> |frames[j]| == ChunkBytes
    ensures |Concat(frames)| == |frames| * ChunkBytes
    ensures forall j, k :: 0 <= j < |frames| && 0 <= k < ChunkBytes ==> Concat(frames)[j * ChunkBytes + k] == frames[j][k]
  {
    if |frames| > 0 {
      var rest := frames[1..];
      ConcatOfFullChunks(rest);
      forall j, k | 0 <= j < |frames| && 0 <= k < ChunkBytes
        ensures Concat(frames)[j * ChunkBytes + k] == frames[j][k]
      {
        if j > 0 {
          assert Concat(rest)[(j - 1) * ChunkBytes + k] == rest[j - 1][k];
        }
      }
    }
  }

  /** The stop position is determined by the script: the first `n` reads
      deliver and read `n` does not. */
  lemma StopIndexAt(device: seq<ReadOutcome>, n: nat)
    requires n < |device| && !device[n].Data?
    requires forall j :: 0 <= j < n ==> device[j].Data?
    ensures StopIndex(device) == n
  {
  }

  /** An interrupt after `n` successful reads keeps exactly those `n`
      chunks, in read order, whether the loop is bounded (with a quota
      beyond `n`) or unbounded. */
  lemma InterruptKeepsChunksRead(plan: Plan, device: seq<ReadOutcome>, n: nat)
    requires n < |device| && device[n] == Interrupted
    requires forall j :: 0 <= j < n ==> device[j].Data?
    requires plan.Unbounded? || n < plan.count
    ensures Supplies(plan, device)
    ensures Captured(plan, device) == Success(ChunksOf(device[..n]))
    ensures |Captured(plan, device).value| == n
  {
    StopIndexAt(device, n);
  }

  /** A read failure before the quota is reached loses the whole capture:
      no frames are kept. */
  lemma ReadFailureLosesCapture(plan: Plan, device: seq<ReadOutcome>, n: nat)
    requires n < |device| && device[n] == ReadFailed
    requires forall j :: 0 <= j < n ==> device[j].Data?
    requires plan.Unbounded? || n < plan.count
    ensures Supplies(plan, device)
    ensures Captured(plan, device) == Failure(DeviceError)
  {
    StopIndexAt(device, n);
  }

  /** A bounded recording of `s > 0` seconds that is not interrupted reads
      exactly `(125 * s) / 8` chunks: 15 for one second. With full chunks
      the payload holds 2048 bytes per chunk. */
  lemma BoundedRecordingLength(s: int, device: seq<ReadOutcome>)
    requires s > 0
    requires NumChunks(s) <= StopIndex(device)
    requires forall j :: 0 <= j < |device| && device[j].Data? ==> |device[j].chunk| == ChunkBytes
    ensures Supplies(PlanFor(s), device)
    ensures Captured(PlanFor(s), device).Success?
    ensures |Captured(PlanFor(s), device).value| == (125 * s) / 8
    ensures |Concat(Captured(PlanFor(s), device).value)| == ((125 * s) / 8) * ChunkBytes
  {
    NumChunksClosedForm(s);
    var frames := Captured(PlanFor(s), device).value;
    assert forall j :: 0 <= j < |frames| ==> frames[j] == device[j].chunk;
    ConcatOfFullChunks(frames);
  }

  /** A negative duration takes the bounded branch with an empty range:
      nothing is read and the payload is empty. */
  lemma NegativeDurationReadsNothing(s: int, device: seq<ReadOutcome>)
    requires s < 0
    ensures Supplies(PlanFor(s), device)
    ensures Captured(PlanFor(s), device) == Success([])
    ensures Concat(Captured(PlanFor(s), device).value) == []
  {
  }

  /** The recorded audio: the file name and the bytes handed to
      `wf.writeframes`. */
  datatype Recording = Recording(audioFile: string, payload: seq<byte>)

  /** `record_audio(record_seconds)`, less the device setup, the WAV header
      and the file write. With `record_seconds` of None the multiplication
      at line 50 raises before any read. */
  method RecordAudio(recordSeconds: Option<int>, timestamp: string, device: seq<ReadOutcome>)
    returns (r: Result<Recording, RecordError>, progress: seq<int>)
    requires recordSeconds.Some? ==> Supplies(PlanFor(recordSeconds.value), device)
    ensures recordSeconds.None? ==> r == Failure(DurationMissing) && progress == []
    ensures recordSeconds.Some? ==>
      (r.Success? <==> Captured(PlanFor(recordSeconds.value), device).Success?)
    ensures recordSeconds.Some? && r.Failure? ==> r.error == DeviceError
    ensures r.Success? ==> r.value.audioFile == AudioFile(timestamp)
    ensures r.Success? ==> r.value.payload == Concat(Captured(PlanFor(recordSeconds.value), device).value)
  {
    if recordSeconds.None? {
      return Failure(DurationMissing), [];
    }
    var outcome;
    outcome, progress := CaptureFrames(recordSeconds.value, device);
    match outcome
    case Success(frames) =>
      r := Success(Recording(AudioFile(timestamp), Concat(frames)));
    case Failure(e) =>
      r := Failure(e);
  }
}
