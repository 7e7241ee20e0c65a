/**
 `generate_tts_audio` and `main` of backend_python/text_to_speech.py, as a
 function of an abstract world: the set of file names that exist before the
 call and the outcomes of the collaborators (reading the summary, loading the
 speech model, synthesizing each piece, the ffmpeg steps). The result says
 which pieces were handed to the synthesizer, how the audio was assembled,
 which Python exception escaped, and which names exist afterwards.
 */
module Synthesis {
  import opened Results
  import opened PyStr
  import opened Segmenter
  import opened Numerals

  /** The intermediate WAV file, in the working directory. */
  const WavTempFile: string := "output.wav"

  function DecimalDigit(d: nat): char
    requires d < 10
  {
    ('0' as int + d) as char
  }

  /** `str(n)` for a non-negative integer. */
  function NatToString(n: nat): (s: string)
    ensures |s| >= 1
    ensures n >= 10 ==> |s| >= 2
    decreases n
  {
    if n < 10 then [DecimalDigit(n)] else NatToString(n / 10) + [DecimalDigit(n % 10)]
  }

  /** Different numbers print differently. */
  lemma {:induction false} NatToStringInjective(a: nat, b: nat)
    requires NatToString(a) == NatToString(b)
    ensures a == b
    decreases a
  {
    var s := NatToString(a);
    if a >= 10 && b >= 10 {
      assert s[..|s| - 1] == NatToString(a / 10);
      assert s[..|s| - 1] == NatToString(b / 10);
      NatToStringInjective(a / 10, b / 10);
      assert s[|s| - 1] == DecimalDigit(a % 10) == DecimalDigit(b % 10);
    }
  }

  /** `f"temp_chunk_{i}.wav"`: the file the synthesizer writes for piece `i`. */
  function TempChunkName(i: nat): string {
    "temp_chunk_" + NatToString(i) + ".wav"
  }

  /** Each piece has its own temporary file, distinct from the intermediate WAV. */
  lemma TempChunkNameDistinct(i: nat, j: nat)
    ensures TempChunkName(i) != WavTempFile
    ensures i != j ==> TempChunkName(i) != TempChunkName(j)
  {
    assert TempChunkName(i)[0] == 't';
    if TempChunkName(i) == TempChunkName(j) {
      var a, b := TempChunkName(i), TempChunkName(j);
      assert NatToString(i) == a[11..|a| - 4];
      assert NatToString(j) == b[11..|b| - 4];
      NatToStringInjective(i, j);
    }
  }

  /** The temporary names of pieces `lo` up to (not including) `hi`. */
  function TempNames(lo: nat, hi: nat): set<string> {
    set j | lo <= j < hi :: TempChunkName(j)
  }

  lemma TempNamesCons(lo: nat, hi: nat)
    requires lo < hi
    ensures TempNames(lo, hi) == {TempChunkName(lo)} + TempNames(lo + 1, hi)
  {
  }

  /** How one `tts_to_file` call ends: it writes the file, or raises after or before creating it. */
  datatype ChunkWrite = Wrote | FailedPartial | FailedClean

  /** Everything outside the function that decides how a call goes. */
  datatype TtsWorld = TtsWorld(
    readOk: bool,                          // opening and decoding the summary succeeds
    text: string,                          // the summary's content
    numWord: string -> string,             // num2words for a run of digits
    modelReady: bool,                      // the model loads and a language is selected
    hasSpeaker: bool,                      // the model lists at least one speaker
    synthesize: (nat, string) -> ChunkWrite,
    concatOk: bool,                        // the ffmpeg concatenation succeeds
    mp3Ok: bool)                           // the ffmpeg MP3 conversion succeeds

  datatype PyError = FileNotFoundError | RuntimeError | UnboundLocalError

  /** How the per-piece WAV files became the intermediate WAV. */
  datatype Assembly = NotAssembled | Renamed | Concatenated(count: nat)

  datatype TtsRun = TtsRun(
    spoken: seq<string>,     // pieces handed to the synthesizer, in order
    assembly: Assembly,
    raised: Option<PyError>, // the exception that escapes; None when the call returns
    files: set<string>)      // names that exist afterwards

  /**
   A failure before the list of temporary files is bound: the handler's
   RuntimeError is replaced by the UnboundLocalError the cleanup raises.
   */
  predicate FailsBeforeLoop(inputPath: string, fs: set<string>, w: TtsWorld) {
    inputPath !in fs || !w.readOk || !w.modelReady || !w.hasSpeaker
  }

  /** The pieces to synthesize: numbers and units spelled out, then split. */
  function TtsChunks(w: TtsWorld): (chunks: seq<string>)
    ensures |chunks| >= 1
  {
    TtsSections(ConvertNumbersToWords(w.text, w.numWord), MaxTextLength)
  }

  /** State after the synthesis loop: pieces written and recorded, whether one raised, names present. */
  datatype ChunkLoop = ChunkLoop(recorded: nat, failed: bool, files: set<string>)

  /** The temporary file a raising call left behind, if it created one. */
  function Leftover(chunks: seq<string>, synthesize: (nat, string) -> ChunkWrite, r: ChunkLoop): set<string> {
    if r.failed && r.recorded < |chunks| && synthesize(r.recorded, chunks[r.recorded]) == FailedPartial
    then {TempChunkName(r.recorded)} else {}
  }

  /** The loop over the pieces from index `i`: the first call that raises ends it. */
  function ChunkLoopFrom(chunks: seq<string>, synthesize: (nat, string) -> ChunkWrite, i: nat, fs: set<string>)
    : (r: ChunkLoop)
    requires i <= |chunks|
    ensures i <= r.recorded <= |chunks|
    ensures r.failed <==> r.recorded < |chunks|
    ensures r.failed ==> synthesize(r.recorded, chunks[r.recorded]) != Wrote
    ensures forall j :: i <= j < r.recorded ==> synthesize(j, chunks[j]) == Wrote
    ensures r.files == fs + TempNames(i, r.recorded) + Leftover(chunks, synthesize, r)
    decreases |chunks| - i
  {
    if i == |chunks| then ChunkLoop(i, false, fs)
    else
      match synthesize(i, chunks[i])
      case Wrote =>
        var r := ChunkLoopFrom(chunks, synthesize, i + 1, fs + {TempChunkName(i)});
        TempNamesCons(i, r.recorded);
        r
      case FailedPartial => ChunkLoop(i, true, fs + {TempChunkName(i)})
      case FailedClean => ChunkLoop(i, true, fs)
  }

  /** The part of `generate_tts_audio` from the loop on, for the pieces `chunks`. */
  function RunPieces(chunks: seq<string>, outputPath: string, fs: set<string>, w: TtsWorld): (run: TtsRun)
    requires |chunks| >= 1
    ensures run.raised == None || run.raised == Some(RuntimeError)
  {
    var loop := ChunkLoopFrom(chunks, w.synthesize, 0, fs);
    var spoken := if loop.failed then chunks[..loop.recorded + 1] else chunks;
    var assembly := if loop.failed then NotAssembled else if |chunks| > 1 then Concatenated(|chunks|) else Renamed;
    var wavFiles :=
      if loop.failed then loop.files
      else if |chunks| > 1 then loop.files + {WavTempFile}
      else loop.files - {TempChunkName(0)} + {WavTempFile};
    var ok := !loop.failed && (|chunks| == 1 || w.concatOk) && w.mp3Ok;
    var produced := if ok then wavFiles + {outputPath} else wavFiles;
    TtsRun(spoken, assembly, if ok then None else Some(RuntimeError),
           produced - TempNames(0, loop.recorded) - {WavTempFile})
  }

  /** `generate_tts_audio(input_path, output_path)`. */
  function GenerateTtsAudio(inputPath: string, outputPath: string, fs: set<string>, w: TtsWorld): (run: TtsRun)
    ensures run.raised != Some(FileNotFoundError)
    ensures run.raised == Some(UnboundLocalError) <==> FailsBeforeLoop(inputPath, fs, w)
  {
    if FailsBeforeLoop(inputPath, fs, w) then TtsRun([], NotAssembled, Some(UnboundLocalError), fs)
    else RunPieces(TtsChunks(w), outputPath, fs, w)
  }

  /**
   A failure before the loop leaves the file system as it was, a stale
   intermediate WAV included, and escapes as UnboundLocalError.
   */
  lemma EarlyFailureKeepsFiles(inputPath: string, outputPath: string, fs: set<string>, w: TtsWorld)
    requires FailsBeforeLoop(inputPath, fs, w)
    ensures GenerateTtsAudio(inputPath, outputPath, fs, w).raised == Some(UnboundLocalError)
    ensures GenerateTtsAudio(inputPath, outputPath, fs, w).files == fs
    ensures GenerateTtsAudio(inputPath, outputPath, fs, w).spoken == []
  {
  }

  lemma PiecesSpoken(chunks: seq<string>, outputPath: string, fs: set<string>, w: TtsWorld)
    requires |chunks| >= 1
    ensures var run := RunPieces(chunks, outputPath, fs, w);
      && 1 <= |run.spoken|
      && run.spoken <= chunks
      && forall j :: 0 <= j < |run.spoken| - 1 ==> w.synthesize(j, run.spoken[j]) == Wrote
  {
    var loop := ChunkLoopFrom(chunks, w.synthesize, 0, fs);
    var run := RunPieces(chunks, outputPath, fs, w);
    assert forall j :: 0 <= j < |run.spoken| ==> run.spoken[j] == chunks[j];
  }

  /**
   The synthesizer sees the pieces of the text with numbers and units spelled
   out, in order, starting from the first, and every piece before the last
   one it saw was written.
   */
  lemma SpeaksConvertedPieces(inputPath: string, outputPath: string, fs: set<string>, w: TtsWorld)
    requires !FailsBeforeLoop(inputPath, fs, w)
    ensures var run := GenerateTtsAudio(inputPath, outputPath, fs, w);
      && 1 <= |run.spoken|
      && run.spoken <= TtsSections(ConvertNumbersToWords(w.text, w.numWord), MaxTextLength)
      && forall j :: 0 <= j < |run.spoken| - 1 ==> w.synthesize(j, run.spoken[j]) == Wrote
  {
    PiecesSpoken(TtsChunks(w), outputPath, fs, w);
  }

  /** One piece that fails aborts the run: nothing after it is synthesized and nothing is assembled. */
  lemma ChunkFailureIsFatal(inputPath: string, outputPath: string, fs: set<string>, w: TtsWorld, j: nat)
    requires !FailsBeforeLoop(inputPath, fs, w)
    requires j < |TtsChunks(w)| && w.synthesize(j, TtsChunks(w)[j]) != Wrote
    ensures var run := GenerateTtsAudio(inputPath, outputPath, fs, w);
      && run.raised == Some(RuntimeError)
      && |run.spoken| <= j + 1
      && run.assembly == NotAssembled
  {
  }

  /**
   The call returns normally exactly when every piece is written, the
   concatenation (needed only for several pieces) succeeds and the MP3
   conversion succeeds; then every piece was spoken, a single piece is
   renamed, several are concatenated, and the MP3 exists.
   */
  lemma SuccessCharacterized(inputPath: string, outputPath: string, fs: set<string>, w: TtsWorld)
    ensures var run := GenerateTtsAudio(inputPath, outputPath, fs, w);
      var chunks := TtsChunks(w);
      && (run.raised == None <==>
            && !FailsBeforeLoop(inputPath, fs, w)
            && (forall j :: 0 <= j < |chunks| ==> w.synthesize(j, chunks[j]) == Wrote)
            && (|chunks| == 1 || w.concatOk)
            && w.mp3Ok)
      && (run.raised == None ==>
            && run.spoken == chunks
            && run.assembly == (if |chunks| > 1 then Concatenated(|chunks|) else Renamed)
            && (outputPath != WavTempFile && outputPath !in TempNames(0, |chunks|) ==> outputPath in run.files))
  {
  }

  lemma PiecesCleanedUp(chunks: seq<string>, outputPath: string, fs: set<string>, w: TtsWorld)
    requires |chunks| >= 1
    ensures var run := RunPieces(chunks, outputPath, fs, w);
      && WavTempFile !in run.files
      && forall j :: 0 <= j < |run.spoken| && w.synthesize(j, run.spoken[j]) == Wrote ==>
           TempChunkName(j) !in run.files
  {
    var loop := ChunkLoopFrom(chunks, w.synthesize, 0, fs);
    var run := RunPieces(chunks, outputPath, fs, w);
    forall j | 0 <= j < |run.spoken| && w.synthesize(j, run.spoken[j]) == Wrote
      ensures TempChunkName(j) !in run.files
    {
      assert run.spoken[j] == chunks[j];
      assert j < loop.recorded;
      assert TempChunkName(j) in TempNames(0, loop.recorded);
    }
  }

  /**
   Once the loop has started, the cleanup removes the intermediate WAV and
   the file of every piece that was written.
   */
  lemma CleanupRemovesTemporaries(inputPath: string, outputPath: string, fs: set<string>, w: TtsWorld)
    requires !FailsBeforeLoop(inputPath, fs, w)
    ensures var run := GenerateTtsAudio(inputPath, outputPath, fs, w);
      && WavTempFile !in run.files
      && forall j :: 0 <= j < |run.spoken| && w.synthesize(j, run.spoken[j]) == Wrote ==>
           TempChunkName(j) !in run.files
  {
    PiecesCleanedUp(TtsChunks(w), outputPath, fs, w);
  }

  lemma PartialPieceRemains(chunks: seq<string>, outputPath: string, fs: set<string>, w: TtsWorld)
    requires |chunks| >= 1
    ensures var run := RunPieces(chunks, outputPath, fs, w);
      var k := |run.spoken| - 1;
      0 <= k && (w.synthesize(k, run.spoken[k]) == FailedPartial ==> TempChunkName(k) in run.files)
  {
    var loop := ChunkLoopFrom(chunks, w.synthesize, 0, fs);
    var run := RunPieces(chunks, outputPath, fs, w);
    var k := |run.spoken| - 1;
    if w.synthesize(k, run.spoken[k]) == FailedPartial {
      assert loop.failed && k == loop.recorded && run.spoken[k] == chunks[k];
      TempChunkNameDistinct(k, k);
      assert TempChunkName(k) !in TempNames(0, loop.recorded) by {
        forall j | 0 <= j < loop.recorded
          ensures TempChunkName(j) != TempChunkName(k)
        {
          TempChunkNameDistinct(j, k);
        }
      }
      assert TempChunkName(k) in loop.files;
    }
  }

  /**
   The file of a piece whose synthesis raised after creating it was never
   recorded, so the cleanup leaves it in place.
   */
  lemma PartialChunkFileRemains(inputPath: string, outputPath: string, fs: set<string>, w: TtsWorld)
    requires !FailsBeforeLoop(inputPath, fs, w)
    ensures var run := GenerateTtsAudio(inputPath, outputPath, fs, w);
      var k := |run.spoken| - 1;
      0 <= k && (w.synthesize(k, run.spoken[k]) == FailedPartial ==> TempChunkName(k) in run.files)
  {
    PartialPieceRemains(TtsChunks(w), outputPath, fs, w);
  }

  lemma PiecesTouchNothingElse(chunks: seq<string>, outputPath: string, fs: set<string>, w: TtsWorld, n: string)
    requires |chunks| >= 1
    ensures var run := RunPieces(chunks, outputPath, fs, w);
      && (n in fs && n != WavTempFile && n !in TempNames(0, |run.spoken|) ==> n in run.files)
      && (n in run.files && n !in fs ==> n == outputPath || n == TempChunkName(|run.spoken| - 1))
  {
    var loop := ChunkLoopFrom(chunks, w.synthesize, 0, fs);
    var run := RunPieces(chunks, outputPath, fs, w);
    assert TempNames(0, loop.recorded) <= TempNames(0, |run.spoken|);
    if !loop.failed && |chunks| == 1 {
      assert TempChunkName(0) in TempNames(0, |run.spoken|);
    }
  }

  /**
   Nothing else is touched: a name other than the intermediate WAV and the
   spoken pieces' files survives, and the only names that can appear are
   the MP3 and the file of the piece that raised.
   */
  lemma OtherFilesUntouched(inputPath: string, outputPath: string, fs: set<string>, w: TtsWorld, n: string)
    ensures var run := GenerateTtsAudio(inputPath, outputPath, fs, w);
      && (n in fs && n != WavTempFile && n !in TempNames(0, |run.spoken|) ==> n in run.files)
      && (n in run.files && n !in fs ==> n == outputPath || n == TempChunkName(|run.spoken| - 1))
  {
    if !FailsBeforeLoop(inputPath, fs, w) {
      PiecesTouchNothingElse(TtsChunks(w), outputPath, fs, w, n);
    }
  }

  const StaticDir: string := "./static/file/"

  /** `f"./static/file/{audio_id}/resum.txt"`. */
  function SummaryPath(audioId: string): string {
    StaticDir + audioId + "/resum.txt"
  }

  /** `f"./static/file/{audio_id}/audio_resume.mp3"`. */
  function AudioPath(audioId: string): string {
    StaticDir + audioId + "/audio_resume.mp3"
  }

  /**
   `main` of text_to_speech.py. `args` are the arguments after the script
   name. FileNotFoundError would give status 2, but it never escapes
   `generate_tts_audio`, so every failure ends with status 3.
   */
  function TtsMain(args: seq<string>, fs: set<string>, w: TtsWorld): (code: nat)
    ensures code == 1 <==> |args| != 1
    ensures code == 0 <==> |args| == 1 && GenerateTtsAudio(SummaryPath(args[0]), AudioPath(args[0]), fs, w).raised == None
    ensures code == 3 <==> |args| == 1 && GenerateTtsAudio(SummaryPath(args[0]), AudioPath(args[0]), fs, w).raised.Some?
    ensures code != 2
  {
    if |args| != 1 then 1
    else ExitStatus(GenerateTtsAudio(SummaryPath(args[0]), AudioPath(args[0]), fs, w).raised)
  }

  /** The handlers of `main`: FileNotFoundError gives 2, any other exception 3. */
  function ExitStatus(raised: Option<PyError>): (code: nat)
    ensures code == 0 <==> raised == None
    ensures code == 2 <==> raised == Some(FileNotFoundError)
    ensures code == 3 <==> raised.Some? && raised != Some(FileNotFoundError)
  {
    match raised
    case None => 0
    case Some(FileNotFoundError) => 2
    case Some(_) => 3
  }

  /** A missing summary file ends with status 3, not 2. */
  lemma MissingSummaryExitsThree(audioId: string, fs: set<string>, w: TtsWorld)
    requires SummaryPath(audioId) !in fs
    ensures TtsMain([audioId], fs, w) == 3
  {
  }
}
