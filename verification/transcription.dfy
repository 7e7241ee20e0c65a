/**
 backend_python/transcription.py: the audio format check, the order of the
 checks in `convert_to_wav` and `transcribe_audio`, and the exit status of
 `main`. ffmpeg and Whisper are oracles; the file system is the set of
 names that exist.
 */
module Transcription {
  import opened Results
  import opened PyStr
  import Summarizer

  const AudioUploadDir: string := "static/upload/audio"
  const OutputBaseDir: string := "static/file"
  const SupportedFormats: seq<string> := [".mp3", ".wav", ".m4a", ".ogg", ".flac"]
  const ModelDir: string := "models"
  const WhisperModelSize: string := "medium"

  /** Some position in `[lo, hi)` of `p` holds a character other than '.'. */
  predicate HasNonDot(p: string, lo: nat, hi: nat)
    requires hi <= |p|
  {
    exists k :: lo <= k < hi && p[k] != '.'
  }

  /**
   `os.path.splitext(p)` on POSIX: the extension starts at the last '.' of
   the last path component, unless only dots precede it in that component.
   */
  function SplitExt(p: string): (parts: (string, string))
    ensures parts.0 + parts.1 == p
    ensures |parts.1| > 0 ==> parts.1[0] == '.'
    ensures forall i :: 1 <= i < |parts.1| ==> parts.1[i] != '.'
    ensures forall i :: 0 <= i < |parts.1| ==> parts.1[i] != '/'
    ensures |parts.1| > 0 ==> NamedStem(parts.0)
    ensures |parts.1| == 0 ==>
              forall d :: 0 <= d < |p| && p[d] == '.' && (forall j :: d < j < |p| ==> p[j] != '/') ==> !NamedStem(p[..d])
  {
    var sepIndex := RFind(p, '/', 0, |p|);
    var dotIndex := RFind(p, '.', 0, |p|);
    if dotIndex > sepIndex && HasNonDot(p, sepIndex + 1, dotIndex) then
      ExtensionAfterNamedStem(p, sepIndex, dotIndex);
      (p[..dotIndex], p[dotIndex..])
    else
      NoDotAfterNamedStem(p, sepIndex, dotIndex);
      (p, "")
  }

  /** A dot after the last '/' with a non-dot between them has a named stem before it. */
  lemma ExtensionAfterNamedStem(p: string, sepIndex: int, dotIndex: int)
    requires sepIndex == RFind(p, '/', 0, |p|) && dotIndex == RFind(p, '.', 0, |p|)
    requires dotIndex > sepIndex && HasNonDot(p, sepIndex + 1, dotIndex)
    ensures NamedStem(p[..dotIndex])
  {
    var stem := p[..dotIndex];
    var k :| sepIndex + 1 <= k < dotIndex && p[k] != '.';
    assert stem[k] == p[k] && p[k] != '/';
    assert forall j :: k < j < |stem| ==> stem[j] == p[j] && stem[j] != '/';
  }

  /** Without such a dot, no dot of the last component has a named stem before it. */
  lemma NoDotAfterNamedStem(p: string, sepIndex: int, dotIndex: int)
    requires sepIndex == RFind(p, '/', 0, |p|) && dotIndex == RFind(p, '.', 0, |p|)
    requires !(dotIndex > sepIndex && HasNonDot(p, sepIndex + 1, dotIndex))
    ensures forall d :: 0 <= d < |p| && p[d] == '.' && (forall j :: d < j < |p| ==> p[j] != '/') ==> !NamedStem(p[..d])
  {
  }

  /** `check_audio_format`: the lower-cased extension is one of the supported ones. */
  predicate CheckAudioFormat(path: string) {
    Lower(SplitExt(path).1) in SupportedFormats
  }

  /**
   The stem's last path component has a character other than '.': some
   character that is neither '.' nor '/' with no '/' after it.
   */
  predicate NamedStem(s: string) {
    exists m :: 0 <= m < |s| && s[m] != '.' && s[m] != '/' && forall j :: m < j < |s| ==> s[j] != '/'
  }

  /** Reference reading of the format check: the path ends, case aside, in a supported extension after a real name. */
  predicate HasAudioSuffix(p: string) {
    exists f :: f in SupportedFormats && |f| <= |p| && Lower(p[|p| - |f|..]) == f && NamedStem(p[..|p| - |f|])
  }

  lemma FormatShape(f: string)
    requires f in SupportedFormats
    ensures |f| >= 4 && f[0] == '.'
    ensures forall i :: 1 <= i < |f| ==> f[i] != '.' && f[i] != '/'
  {
  }

  /** The format check accepts a path exactly when it has a supported suffix after a named stem. */
  lemma CheckAudioFormatMeaning(p: string)
    ensures CheckAudioFormat(p) <==> HasAudioSuffix(p)
  {
    if CheckAudioFormat(p) {
      FormatAccepted(p);
    }
    if HasAudioSuffix(p) {
      var f :| f in SupportedFormats && |f| <= |p| && Lower(p[|p| - |f|..]) == f && NamedStem(p[..|p| - |f|]);
      SuffixAccepted(p, f);
    }
  }

  lemma FormatAccepted(p: string)
    requires CheckAudioFormat(p)
    ensures HasAudioSuffix(p)
  {
    var sepIndex := RFind(p, '/', 0, |p|);
    var dotIndex := RFind(p, '.', 0, |p|);
    var f := Lower(SplitExt(p).1);
    FormatShape(f);
    assert dotIndex > sepIndex && HasNonDot(p, sepIndex + 1, dotIndex);
    assert p[|p| - |f|..] == p[dotIndex..];
    var stem := p[..dotIndex];
    var k :| sepIndex + 1 <= k < dotIndex && p[k] != '.';
    assert stem[k] == p[k] && p[k] != '/';
    assert forall j :: k < j < |stem| ==> stem[j] == p[j] && stem[j] != '/';
    assert NamedStem(stem);
  }

  /** A lower-cased suffix equal to a supported format starts with '.' and has neither '.' nor '/' after it. */
  lemma SuffixShape(p: string, f: string)
    requires f in SupportedFormats && |f| <= |p| && Lower(p[|p| - |f|..]) == f
    ensures p[|p| - |f|] == '.'
    ensures forall j :: |p| - |f| < j < |p| ==> p[j] != '.' && p[j] != '/'
  {
    FormatShape(f);
    var k := |p| - |f|;
    var tail := p[k..];
    assert LowerChar(tail[0]) == '.';
    forall j | k < j < |p|
      ensures p[j] != '.' && p[j] != '/'
    {
      assert LowerChar(tail[j - k]) == f[j - k];
    }
  }

  lemma LastCharAt(p: string, c: char, k: nat)
    requires k < |p| && p[k] == c
    requires forall j :: k < j < |p| ==> p[j] != c
    ensures RFind(p, c, 0, |p|) == k
  {
  }

  lemma NoCharAfter(p: string, c: char, m: nat)
    requires m < |p| && p[m] != c
    requires forall j :: m < j < |p| ==> p[j] != c
    ensures RFind(p, c, 0, |p|) < m
  {
  }

  /** A named stem followed by a slash-free tail gives a non-dot, non-slash character with no slash after it. */
  lemma StemWitness(p: string, k: nat) returns (m: nat)
    requires k <= |p| && NamedStem(p[..k])
    requires forall j :: k <= j < |p| ==> p[j] != '/'
    ensures m < k && p[m] != '.' && p[m] != '/'
    ensures forall j :: m < j < |p| ==> p[j] != '/'
  {
    var stem := p[..k];
    m :| 0 <= m < |stem| && stem[m] != '.' && stem[m] != '/' && forall j :: m < j < |stem| ==> stem[j] != '/';
    assert p[m] == stem[m];
    forall j | m < j < |p|
      ensures p[j] != '/'
    {
      if j < k {
        assert stem[j] == p[j];
      }
    }
  }

  lemma SuffixAccepted(p: string, f: string)
    requires f in SupportedFormats && |f| <= |p| && Lower(p[|p| - |f|..]) == f && NamedStem(p[..|p| - |f|])
    ensures CheckAudioFormat(p)
  {
    var k := |p| - |f|;
    SuffixShape(p, f);
    var dotIndex := RFind(p, '.', 0, |p|);
    assert dotIndex == k by {
      LastCharAt(p, '.', k);
    }
    var m := StemWitness(p, k);
    var sepIndex := RFind(p, '/', 0, |p|);
    assert sepIndex < m by {
      NoCharAfter(p, '/', m);
    }
    assert HasNonDot(p, sepIndex + 1, dotIndex);
    assert SplitExt(p).1 == p[k..];
  }

  /** Upper-case extensions pass. */
  lemma UpperCaseAccepted()
    ensures CheckAudioFormat("a/b.MP3")
  {
    var p := "a/b.MP3";
    assert p[3..] == ".MP3";
    assert Lower(".MP3") == ".mp3" by {
      assert LowerChar('M') == 'm' && LowerChar('P') == 'p';
    }
    assert NamedStem(p[..3]) by { assert p[..3][2] == 'b'; }
    SuffixAccepted(p, ".mp3");
  }

  /** Only the last extension counts: a wrapped audio name is rejected, a wrapped text name accepted. */
  lemma LastExtensionAccepted()
    ensures CheckAudioFormat("a.txt.wav")
  {
    var p := "a.txt.wav";
    assert p[5..] == ".wav";
    assert NamedStem(p[..5]) by { assert p[..5][4] == 't'; }
    SuffixAccepted(p, ".wav");
  }

  lemma InnerExtensionIgnored()
    ensures !CheckAudioFormat("a.wav.txt")
  {
    var q := "a.wav.txt";
    LastCharAt(q, '.', 5);
    NoCharAfter(q, '/', 0);
    assert HasNonDot(q, 0, 5) by { assert q[0] == 'a'; }
    assert SplitExt(q).1 == ".txt";
    assert Lower(".txt") == ".txt";
  }

  /** A name made of the extension alone has no extension. */
  lemma DotNameHasNoExtension()
    ensures !CheckAudioFormat(".wav")
  {
    var p := ".wav";
    LastCharAt(p, '.', 0);
    assert RFind(p, '/', 0, 4) == -1;
    assert SplitExt(p).1 == "";
  }

  /** A directory's extension does not count. */
  lemma DirectoryExtensionIgnored()
    ensures !CheckAudioFormat("dir.wav/track")
  {
    var q := "dir.wav/track";
    LastCharAt(q, '.', 3);
    LastCharAt(q, '/', 7);
    assert SplitExt(q).1 == "";
  }

  /** The observable steps of a transcription run, in the order they happen. */
  datatype Step = MakeOutputDir | CheckInput | CheckFormat | ConvertAudio | CheckModel | Transcribe

  datatype PyError = FileNotFoundError | ValueError | OtherError

  /**
   The outcomes of the collaborators: the exception, if any, that the ffmpeg
   conversion raises (a missing `ffmpeg` executable is a FileNotFoundError),
   and the one that Whisper's load, transcription or the transcript write raises.
   */
  datatype TranscribeWorld = TranscribeWorld(ffmpeg: Option<PyError>, whisper: Option<PyError>)

  datatype TranscribeRun = TranscribeRun(steps: seq<Step>, raised: Option<PyError>, output: Option<string>)

  /** The steps and outcome of `convert_to_wav` once the format verdict is known. */
  function ConvertSteps(formatOk: bool, ffmpeg: Option<PyError>): (r: (seq<Step>, Option<PyError>))
    ensures |r.0| >= 1 && r.0[0] == CheckFormat
    ensures ConvertAudio in r.0 <==> formatOk
    ensures !formatOk ==> r.1 == Some(ValueError)
    ensures formatOk ==> r.1 == ffmpeg
    ensures r.1 == None <==> formatOk && ffmpeg == None
  {
    if !formatOk then ([CheckFormat], Some(ValueError))
    else ([CheckFormat, ConvertAudio], ffmpeg)
  }

  /** `convert_to_wav`: the format is checked before ffmpeg is started, and a rejected format is a ValueError. */
  function ConvertToWav(inputPath: string, ffmpeg: Option<PyError>): (r: (seq<Step>, Option<PyError>))
    ensures |r.0| >= 1 && r.0[0] == CheckFormat
    ensures ConvertAudio in r.0 <==> CheckAudioFormat(inputPath)
    ensures !CheckAudioFormat(inputPath) ==> r.1 == Some(ValueError)
    ensures CheckAudioFormat(inputPath) ==> r.1 == ffmpeg
    ensures r.1 == None <==> CheckAudioFormat(inputPath) && ffmpeg == None
  {
    ConvertSteps(CheckAudioFormat(inputPath), ffmpeg)
  }

  /** `os.path.join(AUDIO_UPLOAD_DIR, f"{audio_id}.{audio_ext}")`. */
  function UploadPath(audioId: string, audioExt: string): string {
    PathJoin(AudioUploadDir, audioId + "." + audioExt)
  }

  /** `os.path.join(MODEL_DIR, WHISPER_MODEL_SIZE + ".pt")`. */
  function ModelPath(): string {
    PathJoin(ModelDir, WhisperModelSize + ".pt")
  }

  function TranscriptPath(audioId: string): string {
    PathJoin(PathJoin(OutputBaseDir, audioId), "transcription.txt")
  }

  /** The verdicts `transcribe_audio` branches on. */
  datatype Verdicts = Verdicts(inputExists: bool, formatOk: bool, ffmpeg: Option<PyError>, modelExists: bool, whisper: Option<PyError>)

  function VerdictsFor(audioId: string, audioExt: string, fs: set<string>, w: TranscribeWorld): Verdicts {
    var input := UploadPath(audioId, audioExt);
    Verdicts(input in fs, CheckAudioFormat(input), w.ffmpeg, ModelPath() in fs, w.whisper)
  }

  /** The control flow of `transcribe_audio` over its verdicts. */
  function TranscribeSteps(v: Verdicts): (r: (seq<Step>, Option<PyError>))
    ensures [MakeOutputDir, CheckInput] <= r.0
  {
    var started := [MakeOutputDir, CheckInput];
    if !v.inputExists then (started, Some(FileNotFoundError))
    else
      var conv := ConvertSteps(v.formatOk, v.ffmpeg);
      var converted := started + conv.0;
      if conv.1.Some? then (converted, conv.1)
      else
        var checked := converted + [CheckModel];
        if !v.modelExists then (checked, Some(FileNotFoundError))
        else (checked + [Transcribe], v.whisper)
  }

  lemma StepsInOrder(v: Verdicts)
    ensures var steps := TranscribeSteps(v).0;
      && (CheckFormat in steps ==> v.inputExists && [MakeOutputDir, CheckInput, CheckFormat] <= steps)
      && (ConvertAudio in steps ==> v.formatOk && [MakeOutputDir, CheckInput, CheckFormat, ConvertAudio] <= steps)
      && (CheckModel in steps ==> v.ffmpeg == None && [MakeOutputDir, CheckInput, CheckFormat, ConvertAudio, CheckModel] <= steps)
      && (Transcribe in steps ==> v.modelExists && steps == [MakeOutputDir, CheckInput, CheckFormat, ConvertAudio, CheckModel, Transcribe])
  {
  }

  lemma StepsErrors(v: Verdicts)
    ensures var raised := TranscribeSteps(v).1;
      && (raised == None <==> v.inputExists && v.formatOk && v.ffmpeg == None && v.modelExists && v.whisper == None)
      && (!v.inputExists ==> raised == Some(FileNotFoundError))
      && (v.inputExists && !v.formatOk ==> raised == Some(ValueError))
      && (v.inputExists && v.formatOk && v.ffmpeg.Some? ==> raised == v.ffmpeg)
      && (v.inputExists && v.formatOk && v.ffmpeg == None && !v.modelExists ==> raised == Some(FileNotFoundError))
      && (v.inputExists && v.formatOk && v.ffmpeg == None && v.modelExists ==> raised == v.whisper)
  {
  }

  /** `transcribe_audio(audio_id, audio_ext)` over the names `fs` that exist. */
  function TranscribeAudio(audioId: string, audioExt: string, fs: set<string>, w: TranscribeWorld): (run: TranscribeRun)
    ensures [MakeOutputDir, CheckInput] <= run.steps
    ensures run.raised == None <==> run.output.Some?
    ensures run.output.Some? ==> run.output.value == TranscriptPath(audioId)
  {
    var r := TranscribeSteps(VerdictsFor(audioId, audioExt, fs, w));
    TranscribeRun(r.0, r.1, if r.1 == None then Some(TranscriptPath(audioId)) else None)
  }

  /**
   The checks run in the source's order: the upload must exist before its
   format is checked, the format must pass before ffmpeg runs, and the
   model file is looked for only after the conversion succeeded.
   */
  lemma ChecksInOrder(audioId: string, audioExt: string, fs: set<string>, w: TranscribeWorld)
    ensures var run := TranscribeAudio(audioId, audioExt, fs, w);
      var input := UploadPath(audioId, audioExt);
      && (CheckFormat in run.steps ==> input in fs && [MakeOutputDir, CheckInput, CheckFormat] <= run.steps)
      && (ConvertAudio in run.steps ==> CheckAudioFormat(input) && [MakeOutputDir, CheckInput, CheckFormat, ConvertAudio] <= run.steps)
      && (CheckModel in run.steps ==> w.ffmpeg == None && [MakeOutputDir, CheckInput, CheckFormat, ConvertAudio, CheckModel] <= run.steps)
      && (Transcribe in run.steps ==> ModelPath() in fs && run.steps == [MakeOutputDir, CheckInput, CheckFormat, ConvertAudio, CheckModel, Transcribe])
  {
    StepsInOrder(VerdictsFor(audioId, audioExt, fs, w));
  }

  /**
   Which exception escapes: the first failing stage decides. A missing upload
   or model is a FileNotFoundError, an unsupported format a ValueError, and
   otherwise whatever ffmpeg or Whisper raises escapes unchanged.
   */
  lemma ErrorsClassified(audioId: string, audioExt: string, fs: set<string>, w: TranscribeWorld)
    ensures var run := TranscribeAudio(audioId, audioExt, fs, w);
      var input := UploadPath(audioId, audioExt);
      && (run.raised == None <==> input in fs && CheckAudioFormat(input) && w.ffmpeg == None && ModelPath() in fs && w.whisper == None)
      && (input !in fs ==> run.raised == Some(FileNotFoundError))
      && (input in fs && !CheckAudioFormat(input) ==> run.raised == Some(ValueError))
      && (input in fs && CheckAudioFormat(input) && w.ffmpeg.Some? ==> run.raised == w.ffmpeg)
      && (input in fs && CheckAudioFormat(input) && w.ffmpeg == None && ModelPath() !in fs ==> run.raised == Some(FileNotFoundError))
      && (input in fs && CheckAudioFormat(input) && w.ffmpeg == None && ModelPath() in fs ==> run.raised == w.whisper)
  {
    StepsErrors(VerdictsFor(audioId, audioExt, fs, w));
  }

  /** The transcript lands where the summarizer looks for it, under the same identifier. */
  lemma TranscriptFeedsSummary(audioId: string, audioExt: string, fs: set<string>, w: TranscribeWorld)
    requires TranscribeAudio(audioId, audioExt, fs, w).raised == None
    ensures TranscribeAudio(audioId, audioExt, fs, w).output == Some(Summarizer.UserFile(audioId, Summarizer.TranscriptionFilename))
  {
  }

  /** The handlers of `main`. */
  function ExitStatus(raised: Option<PyError>): (code: nat)
    ensures code == 0 <==> raised == None
    ensures code == 2 <==> raised == Some(FileNotFoundError)
    ensures code == 3 <==> raised == Some(ValueError)
    ensures code == 4 <==> raised == Some(OtherError)
  {
    match raised
    case None => 0
    case Some(FileNotFoundError) => 2
    case Some(ValueError) => 3
    case Some(OtherError) => 4
  }

  /** `main` of transcription.py; `args` are the arguments after the script name. */
  function TranscriptionMain(args: seq<string>, fs: set<string>, w: TranscribeWorld): (code: nat)
    ensures code == 1 <==> |args| != 2
    ensures |args| == 2 ==> code == ExitStatus(TranscribeAudio(args[0], args[1], fs, w).raised)
  {
    if |args| != 2 then 1 else ExitStatus(TranscribeAudio(args[0], args[1], fs, w).raised)
  }

  /**
   The exit status of a well-formed call: 2 for a missing upload or model,
   3 for an unsupported format, and for a failure inside ffmpeg or Whisper
   the status its exception kind selects (2 for a missing `ffmpeg`
   executable, 4 for most).
   */
  lemma MainExitStatus(audioId: string, audioExt: string, fs: set<string>, w: TranscribeWorld)
    ensures var code := TranscriptionMain([audioId, audioExt], fs, w);
      var input := UploadPath(audioId, audioExt);
      && (code == 0 <==> input in fs && CheckAudioFormat(input) && w.ffmpeg == None && ModelPath() in fs && w.whisper == None)
      && (input !in fs ==> code == 2)
      && (input in fs && !CheckAudioFormat(input) ==> code == 3)
      && (input in fs && CheckAudioFormat(input) && w.ffmpeg.Some? ==> code == ExitStatus(w.ffmpeg))
      && (input in fs && CheckAudioFormat(input) && w.ffmpeg == Some(FileNotFoundError) ==> code == 2)
      && (input in fs && CheckAudioFormat(input) && w.ffmpeg == None && ModelPath() !in fs ==> code == 2)
      && (input in fs && CheckAudioFormat(input) && w.ffmpeg == None && ModelPath() in fs ==> code == ExitStatus(w.whisper))
  {
    ErrorsClassified(audioId, audioExt, fs, w);
  }
}
