/**
 The summarization run of backend_python/resume.py: a short transcript is
 written out as it is; a longer one is split into windows, each window is
 handed to the summarizer (an oracle that returns a summary or raises), a
 window whose call raises is logged and skipped, and the summaries that came
 back are joined with newlines, in window order.
 */
module Summarizer {
  import opened Results
  import opened PyStr
  import opened Segmenter

  /** Below this many tokens `summarize_file` copies the transcript unchanged. */
  const ShortTextTokens: nat := 500

  const BaseDir: string := "static/file"
  const TranscriptionFilename: string := "transcription.txt"
  const ResumeFilename: string := "resum.txt"

  /** What the log records about one window. */
  datatype ChunkLog = Summarized(index: nat, summary: string) | Skipped(index: nat)

  /** How `summarize_file` went: the transcript copied, or the windows and what became of each. */
  datatype SummaryRun =
    | Verbatim(text: string)
    | Condensed(chunks: seq<string>, log: seq<ChunkLog>, summary: string)
  {
    /** The content written to the output file. */
    function Written(): string {
      match this
      case Verbatim(t) => t
      case Condensed(_, _, s) => s
    }
  }

  /**
   The summarizer: one call per window, given the window's index and its
   text. Each call reaches the service anew, so its outcome may depend on the
   index and not only on the text; `None` is a call that raised.
   */
  type Summarize = (nat, string) -> Option<string>

  /** The summaries of the windows whose call returned, in window order; `chunks[j]` is window `first + j`. */
  function Kept(chunks: seq<string>, first: nat, summarize: Summarize): (kept: seq<string>)
    ensures |kept| <= |chunks|
    ensures |kept| == |chunks| ==> forall j :: 0 <= j < |chunks| ==> summarize(first + j, chunks[j]).Some?
  {
    if |chunks| == 0 then []
    else
      var head := match summarize(first, chunks[0]) case Some(v) => [v] case None => [];
      var rest := Kept(chunks[1..], first + 1, summarize);
      assert forall j :: 1 <= j < |chunks| ==> chunks[j] == chunks[1..][j - 1];
      head + rest
  }

  /** Keeping works window by window: the windows of `b` come after those of `a`. */
  lemma {:induction false} KeptConcat(a: seq<string>, b: seq<string>, first: nat, summarize: Summarize)
    ensures Kept(a + b, first, summarize) == Kept(a, first, summarize) + Kept(b, first + |a|, summarize)
    decreases |a|
  {
    if |a| == 0 {
      assert a + b == b;
    } else {
      assert (a + b)[0] == a[0];
      assert (a + b)[1..] == a[1..] + b;
      KeptConcat(a[1..], b, first + 1, summarize);
    }
  }

  /** A window whose call raises contributes nothing, and the windows after it are still summarized. */
  lemma KeptSkipsFailure(chunks: seq<string>, first: nat, i: nat, summarize: Summarize)
    requires i < |chunks| && summarize(first + i, chunks[i]).None?
    ensures Kept(chunks, first, summarize)
            == Kept(chunks[..i], first, summarize) + Kept(chunks[i + 1..], first + i + 1, summarize)
  {
    var before, from := chunks[..i], chunks[i..];
    assert from == [chunks[i]] + chunks[i + 1..];
    KeptDropsNone(chunks[i], chunks[i + 1..], first + i, summarize);
    assert chunks == before + from;
    KeptConcat(before, from, first, summarize);
  }

  lemma KeptDropsNone(x: string, rest: seq<string>, first: nat, summarize: Summarize)
    requires summarize(first, x).None?
    ensures Kept([x] + rest, first, summarize) == Kept(rest, first + 1, summarize)
  {
    assert ([x] + rest)[0] == x;
    assert ([x] + rest)[1..] == rest;
  }

  /** Two windows with the same text can fare differently: the first call raises, the second returns. */
  lemma SameTextDifferentOutcome()
    ensures Kept(["x", "x"], 0, (i: nat, t: string) => if i == 0 then None else Some(t)) == ["x"]
  {
    var summarize: Summarize := (i: nat, t: string) => if i == 0 then None else Some(t);
    KeptDropsNone("x", ["x"], 0, summarize);
    assert ["x", "x"] == ["x"] + ["x"];
  }

  /** When every call returns, every window's summary is kept, in order. */
  lemma {:induction false} KeptAllSucceed(chunks: seq<string>, first: nat, summarize: Summarize)
    requires forall j :: 0 <= j < |chunks| ==> summarize(first + j, chunks[j]).Some?
    ensures |Kept(chunks, first, summarize)| == |chunks|
    ensures forall j :: 0 <= j < |chunks| ==> Kept(chunks, first, summarize)[j] == summarize(first + j, chunks[j]).value
  {
    if |chunks| > 0 {
      forall j | 0 <= j < |chunks[1..]|
        ensures summarize(first + 1 + j, chunks[1..][j]).Some?
      {
        assert chunks[1..][j] == chunks[j + 1];
      }
      KeptAllSucceed(chunks[1..], first + 1, summarize);
      var k := Kept(chunks, first, summarize);
      assert k == [summarize(first, chunks[0]).value] + Kept(chunks[1..], first + 1, summarize);
      forall j | 1 <= j < |chunks|
        ensures k[j] == summarize(first + j, chunks[j]).value
      {
        assert chunks[1..][j - 1] == chunks[j];
      }
    }
  }

  /** When every call raises, nothing is kept. */
  lemma {:induction false} KeptAllFail(chunks: seq<string>, first: nat, summarize: Summarize)
    requires forall j :: 0 <= j < |chunks| ==> summarize(first + j, chunks[j]).None?
    ensures Kept(chunks, first, summarize) == []
  {
    if |chunks| > 0 {
      forall j | 0 <= j < |chunks[1..]|
        ensures summarize(first + 1 + j, chunks[1..][j]).None?
      {
        assert chunks[1..][j] == chunks[j + 1];
      }
      KeptAllFail(chunks[1..], first + 1, summarize);
    }
  }

  /**
   The per-window loop of `summarize_file`: one summarizer call per window,
   in index order; a call that raises is logged and the loop goes on.
   */
  method SummarizeChunks(chunks: seq<string>, summarize: Summarize)
    returns (summaries: seq<string>, log: seq<ChunkLog>)
    ensures summaries == Kept(chunks, 0, summarize)
    ensures |log| == |chunks|
    ensures forall i :: 0 <= i < |chunks| ==>
              && log[i].index == i
              && (log[i].Skipped? <==> summarize(i, chunks[i]).None?)
              && (log[i].Summarized? ==> log[i].summary == summarize(i, chunks[i]).value)
  {
    summaries := [];
    log := [];
    var i := 0;
    while i < |chunks|
      invariant i <= |chunks|
      invariant summaries == Kept(chunks[..i], 0, summarize)
      invariant |log| == i
      invariant forall j :: 0 <= j < i ==>
                  && log[j].index == j
                  && (log[j].Skipped? <==> summarize(j, chunks[j]).None?)
                  && (log[j].Summarized? ==> log[j].summary == summarize(j, chunks[j]).value)
    {
      KeptConcat(chunks[..i], [chunks[i]], 0, summarize);
      assert chunks[..i + 1] == chunks[..i] + [chunks[i]];
      assert [chunks[i]][1..] == [];
      match summarize(i, chunks[i]) {
        case Some(s) =>
          summaries := summaries + [s];
          log := log + [Summarized(i, s)];
        case None =>
          log := log + [Skipped(i)];
      }
      i := i + 1;
    }
    assert chunks[..i] == chunks;
  }

  /**
   `summarize_file` on the transcript `text`, with the tokenizer
   `countTokens` and the summarizer `summarize` as oracles.
   */
  method SummarizeFile(text: string, countTokens: string -> nat, summarize: Summarize)
    returns (run: SummaryRun)
    ensures run.Verbatim? <==> countTokens(text) < ShortTextTokens
    ensures run.Verbatim? ==> run.text == text
    ensures run.Condensed? ==>
              && run.chunks == Texts(Chunks(text, 0, OptimalChunkSize(countTokens(text))))
              && run.summary == Join(Kept(run.chunks, 0, summarize), "\n")
              && |run.log| == |run.chunks|
              && (forall i :: 0 <= i < |run.chunks| ==>
                    && run.log[i].index == i
                    && (run.log[i].Skipped? <==> summarize(i, run.chunks[i]).None?))
  {
    if countTokens(text) < ShortTextTokens {
      return Verbatim(text);
    }
    var chunks := SplitText(text, countTokens);
    var summaries, log := SummarizeChunks(chunks, summarize);
    run := Condensed(chunks, log, Join(summaries, "\n"));
  }

  /** If every window fails, the summary file is empty and the run still succeeds. */
  lemma AllFailuresWriteEmpty(chunks: seq<string>, summarize: Summarize)
    requires forall i :: 0 <= i < |chunks| ==> summarize(i, chunks[i]).None?
    ensures Join(Kept(chunks, 0, summarize), "\n") == ""
  {
    KeptAllFail(chunks, 0, summarize);
  }

  /**
   When no returned summary contains a newline, the summary file lists the
   returned summaries one per line, in window order.
   */
  lemma SummaryLinesRoundTrip(chunks: seq<string>, summarize: Summarize)
    requires |Kept(chunks, 0, summarize)| >= 1
    requires forall i :: 0 <= i < |chunks| && summarize(i, chunks[i]).Some? ==> '\n' !in summarize(i, chunks[i]).value
    ensures SplitOn(Join(Kept(chunks, 0, summarize), "\n"), '\n') == Kept(chunks, 0, summarize)
  {
    KeptNoNewline(chunks, 0, summarize);
    SplitJoinRoundTrip(Kept(chunks, 0, summarize), '\n');
  }

  lemma {:induction false} KeptNoNewline(chunks: seq<string>, first: nat, summarize: Summarize)
    requires forall j :: 0 <= j < |chunks| && summarize(first + j, chunks[j]).Some? ==> '\n' !in summarize(first + j, chunks[j]).value
    ensures forall j :: 0 <= j < |Kept(chunks, first, summarize)| ==> '\n' !in Kept(chunks, first, summarize)[j]
  {
    if |chunks| > 0 {
      forall j | 0 <= j < |chunks[1..]| && summarize(first + 1 + j, chunks[1..][j]).Some?
        ensures '\n' !in summarize(first + 1 + j, chunks[1..][j]).value
      {
        assert chunks[1..][j] == chunks[j + 1];
      }
      KeptNoNewline(chunks[1..], first + 1, summarize);
    }
  }

  /** `os.path.join(os.path.join(BASE_DIR, user_id), name)`. */
  function UserFile(userId: string, name: string): string {
    PathJoin(PathJoin(BaseDir, userId), name)
  }

  /**
   `main` of resume.py, with the module-level model load before it.
   `modelLoads` says whether the tokenizer model loads on import, `args` are
   the arguments after the script name, `files` the names that exist, and
   `ioOk` whether reading, tokenizing and writing succeed. Returns the exit
   status and what was written to the summary file.
   */
  method SummarizeMain(modelLoads: bool, args: seq<string>, files: set<string>, ioOk: bool, text: string,
                       countTokens: string -> nat, summarize: Summarize)
    returns (code: nat, written: Option<string>)
    ensures code == 1 <==> !modelLoads || |args| != 1
    ensures code == 2 <==> modelLoads && |args| == 1 && UserFile(args[0], TranscriptionFilename) !in files
    ensures code == 3 <==> modelLoads && |args| == 1 && UserFile(args[0], TranscriptionFilename) in files && !ioOk
    ensures code == 0 <==> modelLoads && |args| == 1 && UserFile(args[0], TranscriptionFilename) in files && ioOk
    ensures written.Some? <==> code == 0
    ensures code == 0 && countTokens(text) < ShortTextTokens ==> written == Some(text)
    ensures code == 0 && countTokens(text) >= ShortTextTokens ==>
              written == Some(Join(Kept(Texts(Chunks(text, 0, OptimalChunkSize(countTokens(text)))), 0, summarize), "\n"))
  {
    if !modelLoads || |args| != 1 {
      return 1, None;
    }
    if UserFile(args[0], TranscriptionFilename) !in files {
      return 2, None;
    }
    if !ioOk {
      return 3, None;
    }
    var run := SummarizeFile(text, countTokens, summarize);
    return 0, Some(run.Written());
  }
}
