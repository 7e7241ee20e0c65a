# Speech-to-summary text pipeline, modelled in Dafny

The Python back end of this system runs three command-line stages on an
uploaded recording. `transcription.py` converts the audio to WAV and
transcribes it with Whisper. `resume.py` splits the transcript into windows,
summarizes each window with a language model, and joins the summaries.
`text_to_speech.py` spells out numbers and units in the summary, splits it
into pieces, synthesizes each piece, and assembles the audio into one MP3.

This project models the logic of those three scripts. The tokenizer, the
summarizer, num2words, the speech model, ffmpeg and Whisper are oracles:
function-typed parameters, flags that say whether a call succeeds where
every failure is handled alike, or the kind of exception a call raises where
the kind decides the exit status. The summarizer and the speech model are asked once per
window or piece, keyed by its index, so two windows with the same text can
fare differently. The file system is the set of names that exist.

| file | module | models |
|---|---|---|
| `results.dfy` | `Results` | `Option`: a collaborator call that returns or raises |
| `python_str.dfy` | `PyStr` | the `str` operations the scripts use: `strip`, `rfind`, `replace`, `"\n".join`, `split`, `lower`, plus `os.path.join` |
| `segmenter.dfy` | `Segmenter` | the shared window loop: `split_text` and `calculate_optimal_chunk_size` (resume.py), `split_text_for_tts` (text_to_speech.py) |
| `summarizer.dfy` | `Summarizer` | `summarize_file` and `main` of resume.py |
| `numerals.dfy` | `Numerals` | `convert_numbers_to_words` |
| `synthesis.dfy` | `Synthesis` | `generate_tts_audio` and `main` of text_to_speech.py |
| `transcription.dfy` | `Transcription` | `check_audio_format`, `convert_to_wav`, `transcribe_audio` and `main` of transcription.py |

The segmenter has two parts:

- `Chunks` is a reference definition by recursion over the cut offsets.
- `SplitWindows` is the source's `while` loop.

A lemma ties the loop to the reference. Properties of the pieces are proved
once, about `Chunks`: they tile the text, they round-trip, and each piece is
bounded.

### Behaviour as written

The model follows the code. Where the code's own structure suggests a
different intent, the model still follows the code and a lemma records the
behaviour:

- There is no preference of '.' over ','. The cut follows whichever
  delimiter comes later in the window (`Segmenter.CommaAfterPeriodWins`).
- With no delimiter in the window, the cut is at the window end, even inside
  a word (`Segmenter.HardCutPieces`).
- `main` of text_to_speech.py maps FileNotFoundError to status 2, but no
  FileNotFoundError ever reaches it. A missing summary makes the `finally`
  block of `generate_tts_audio` raise UnboundLocalError. Any failure once
  the synthesis loop has started is raised again as RuntimeError. Neither is a
  FileNotFoundError, so a missing summary ends with status 3
  (`Synthesis.MissingSummaryExitsThree`).
- A failure before `temp_files` is bound escapes as UnboundLocalError from
  the `finally` block. In that case a stale `output.wav` is not removed
  (`Synthesis.EarlyFailureKeepsFiles`).
- A piece whose synthesis raises after creating its file was never recorded.
  Cleanup therefore leaves that file behind
  (`Synthesis.PartialChunkFileRemains`).
- resume.py uses a token count as a number of characters.

## Model

All paths are under `backend_python/`.

| member | source | states |
|---|---|---|
| PyStr.Strip | backend_python/resume.py:55 | the result is a contiguous middle slice of the input, the dropped prefix and suffix are all CPython whitespace, and the result neither starts nor ends with whitespace |
| PyStr.StripKeepsTrimmed | backend_python/resume.py:55 | stripping a string that does not start or end with whitespace returns it unchanged |
| PyStr.RFind | backend_python/resume.py:49-50 | `rfind` is -1 exactly when the character does not occur in `[lo, hi)`; otherwise it is an in-range occurrence with none after it |
| PyStr.ReplaceAll | backend_python/text_to_speech.py:26-28 | the definition of `str.replace`: left to right, non-overlapping; `PyStr.ReplaceAllKeepsOut`, `PyStr.ReplaceAllAbsent` and `PyStr.ReplaceAllNoPair` characterize it |
| PyStr.ReplaceAllKeepsOut | backend_python/text_to_speech.py:26-28 | `replace` with a replacement free of a character removes every occurrence of that character when it is the pattern, and never introduces it otherwise |
| PyStr.ReplaceAllAbsent | backend_python/text_to_speech.py:26-28 | `replace` leaves a text with no occurrence of the pattern unchanged |
| PyStr.ReplaceAllNoPair | backend_python/text_to_speech.py:27 | after replacing "m²" with a replacement that neither contains nor creates the pair at its edges, no 'm' is directly followed by '²' |
| PyStr.Join | backend_python/resume.py:103 | `"\n".join`: no parts give "", one part gives that part; `PyStr.SplitJoinRoundTrip` is its inverse |
| PyStr.Lower | backend_python/transcription.py:26 | `lower` keeps the length and lowers each character on its own |
| PyStr.SplitJoinRoundTrip | backend_python/resume.py:103 | pieces joined with "\n" and split on '\n' come back unchanged when no piece holds a newline |
| PyStr.PathJoin | backend_python/transcription.py:46-50 | an absolute second part replaces the first; otherwise the result starts with the first part and ends with the second, with a '/' between them exactly when the first part is non-empty and does not already end in '/' |
| Segmenter.Cut | backend_python/resume.py:47-54 | the cut lies in the clamped window; with a '.' or ',' in the window it falls just after the last one; without one it is the window end; a window of at least one character always advances |
| Segmenter.Chunks | backend_python/resume.py:46-56 | the reference pieces of the loop from a given offset: there are none exactly at the end of the text; `Segmenter.ChunksTile` and `Segmenter.ChunksRoundTrip` give their tiling and their contents |
| Segmenter.ChunksTile | backend_python/resume.py:46-56 | the pieces cover the rest of the text in order, with no gap and no overlap; each is non-empty, at most one window long, ends at the cut of its own start, and holds its stripped slice |
| Segmenter.ChunksRoundTrip | backend_python/resume.py:46-56 | the untrimmed slices of the pieces concatenate back to the text |
| Segmenter.SplitWindows | backend_python/resume.py:43-58 | the `while` loop returns the stripped texts of the reference pieces, and returns nothing exactly for empty text |
| Segmenter.OptimalChunkSize | backend_python/resume.py:30-38 | under 512 tokens the window is the token count; above 20480 it is 2048; in between it is a tenth of the count clamped to [512, 2048]; it is non-zero exactly for a non-zero count |
| Segmenter.OptimalChunkSizeMonotone | backend_python/resume.py:30-38 | a larger token count never gives a smaller window |
| Segmenter.SplitText | backend_python/resume.py:40-58 | `split_text` gives the reference pieces for the window computed from the document's token count |
| Segmenter.TtsSections | backend_python/text_to_speech.py:40-61 | a text of at most `max_length` characters is returned whole and unstripped; a longer one yields the reference pieces; there is always at least one section |
| Segmenter.SplitForTts | backend_python/text_to_speech.py:40-61 | the loop implementation returns the reference sections |
| Segmenter.TtsPiecesBounded | backend_python/text_to_speech.py:48-59 | with `MAX_TEXT_LENGTH` every untrimmed piece of a long text holds between 1 and 5000 characters |
| Segmenter.CommaAfterPeriodWins | backend_python/resume.py:49-54 | in "a.b,c" the first cut falls after the comma, not the period |
| Segmenter.HardCutInsideWord | backend_python/resume.py:47-54 | without a delimiter the cut is the window end, inside a word |
| Segmenter.HardCutPieces | backend_python/resume.py:46-56 | "abcdef" with a 4-character window splits into "abcd" and "ef" |
| Numerals.ExpandNumbers | backend_python/text_to_speech.py:25 | the definition of `re.sub(r'\d+', …)`: each maximal digit run, left to right, goes to the number-word oracle; `Numerals.DigitRunMaximal`, `Numerals.ExpandDigitFree`, `Numerals.ExpandDigitRun`, `Numerals.ExpandNumbersConcat` and `Numerals.ExpandNumbersIdentity` characterize it |
| Numerals.DigitRunMaximal | backend_python/text_to_speech.py:25 | the digit run taken at the head is maximal: all digits, and not followed by a digit |
| Numerals.ExpandDigitFree | backend_python/text_to_speech.py:25 | text without digits is left unchanged by the `\d+` substitution |
| Numerals.ExpandLeavesNoDigits | backend_python/text_to_speech.py:22-25 | if number words never contain digits, no digit survives the substitution |
| Numerals.ExpandDigitRun | backend_python/text_to_speech.py:22-25 | a whole run of digits is passed to num2words in one piece |
| Numerals.ExpandNumbersConcat | backend_python/text_to_speech.py:25 | substituting over a concatenation that does not split a digit run equals substituting each part |
| Numerals.ExpandNumbersIdentity | backend_python/text_to_speech.py:22-25 | with an identity number-word oracle the substitution returns the text itself, so every digit lies in exactly one run |
| Numerals.ConvertNumbersToWords | backend_python/text_to_speech.py:20-29 | the result has no '%', no 'm' directly followed by '²', and no digit whenever the number words have none |
| Numerals.SquareKilometreFirst | backend_python/text_to_speech.py:26-27 | "km²" becomes " kilomètres carrés", because the km² rule runs before the m² rule |
| Numerals.PlainTextUnchanged | backend_python/text_to_speech.py:20-29 | text without digits, '%' or '²' passes through unchanged |
| Summarizer.Kept | backend_python/resume.py:92-103 | at most one summary per window, and one for every window only when every call, keyed by the window's index, returned |
| Summarizer.KeptConcat | backend_python/resume.py:93-101 | the kept summaries of consecutive window lists concatenate, the second list's windows numbered after the first's |
| Summarizer.KeptSkipsFailure | backend_python/resume.py:100-101 | a window whose call raises contributes nothing, and later windows are still summarized |
| Summarizer.SameTextDifferentOutcome | backend_python/resume.py:93-101 | two windows with the same text can fare differently, the first call raising and the second returning, since each call reaches the service anew |
| Summarizer.KeptAllSucceed | backend_python/resume.py:93-97 | when every call returns, summary i is the summary of window i |
| Summarizer.KeptAllFail | backend_python/resume.py:93-101 | when every call raises, nothing is kept |
| Summarizer.SummarizeChunks | backend_python/resume.py:92-101 | the loop keeps the returned summaries in window order, with one log entry per window in index order, marked skipped exactly when its call raised |
| Summarizer.SummarizeFile | backend_python/resume.py:75-106 | below 500 tokens the transcript is copied; otherwise the windows come from `split_text`, each one is logged, and the output is the kept summaries joined with "\n" |
| Summarizer.AllFailuresWriteEmpty | backend_python/resume.py:100-105 | if every window fails, the summary file is empty and no error is raised |
| Summarizer.SummaryLinesRoundTrip | backend_python/resume.py:103-105 | when summaries hold no newline, the summary file's lines are the kept summaries in window order |
| Summarizer.SummarizeMain | backend_python/resume.py:108-126 | status 1 when the tokenizer model fails to load (lines 21-25) or the argument count is wrong; 2 when the transcript is missing; 3 when reading, tokenizing or writing raises; otherwise 0, with the summary written; per-window failures never change the status |
| Synthesis.NatToStringInjective | backend_python/text_to_speech.py:94 | different indices print differently |
| Synthesis.TempChunkNameDistinct | backend_python/text_to_speech.py:94 | each piece's temporary name is distinct from the others and from `output.wav` |
| Synthesis.ChunkLoopFrom | backend_python/text_to_speech.py:92-97 | the loop stops at the first piece that is not written; all earlier pieces were written and recorded; the names present are the earlier ones plus the recorded temporary files and any file the failing call created |
| Synthesis.RunPieces | backend_python/text_to_speech.py:90-126 | once the synthesis loop has started, every exception leaves the call as RuntimeError |
| Synthesis.GenerateTtsAudio | backend_python/text_to_speech.py:63-127 | FileNotFoundError never escapes, and UnboundLocalError escapes exactly when the failure happens before the loop |
| Synthesis.EarlyFailureKeepsFiles | backend_python/text_to_speech.py:66-123 | a failure before the loop escapes as UnboundLocalError, synthesizes nothing, and leaves every name, a stale `output.wav` included |
| Synthesis.SpeaksConvertedPieces | backend_python/text_to_speech.py:75-96 | the synthesizer receives a non-empty prefix of the split, number-converted text, and every piece before the last one it received was written |
| Synthesis.ChunkFailureIsFatal | backend_python/text_to_speech.py:93-114 | one piece that is not written raises RuntimeError: no later piece is synthesized and nothing is assembled |
| Synthesis.SuccessCharacterized | backend_python/text_to_speech.py:93-108 | the call returns exactly when every piece is written, the concatenation succeeds (needed only for several pieces) and the MP3 conversion succeeds; then a single piece is renamed, several are concatenated, and the MP3 exists |
| Synthesis.CleanupRemovesTemporaries | backend_python/text_to_speech.py:116-127 | once the loop has started, `output.wav` and every written piece's file are gone afterwards |
| Synthesis.PartialChunkFileRemains | backend_python/text_to_speech.py:93-125 | the file of a piece whose synthesis raised after creating it survives the cleanup |
| Synthesis.OtherFilesUntouched | backend_python/text_to_speech.py:92-127 | every other name survives, and the only new names are the MP3 and the failing piece's file |
| Synthesis.ExitStatus | backend_python/text_to_speech.py:138-146 | status 0 exactly on return, 2 exactly for FileNotFoundError, 3 exactly for any other exception |
| Synthesis.TtsMain | backend_python/text_to_speech.py:129-146 | status 1 exactly for a wrong argument count, 0 on success, 3 on any failure, and never 2 |
| Synthesis.MissingSummaryExitsThree | backend_python/text_to_speech.py:135-146 | a missing summary file ends with status 3 |
| Transcription.SplitExt | backend_python/transcription.py:25 | `splitext` splits the path into two parts that concatenate back; the extension is empty or starts with its only '.', and holds no '/'; a non-empty extension follows a root whose last component is not all dots; an empty extension means no '.' of the last component has such a root before it |
| Transcription.CheckAudioFormat | backend_python/transcription.py:23-26 | the definition of the format check (the lower-cased `splitext` extension is a supported one); `Transcription.CheckAudioFormatMeaning` characterizes it |
| Transcription.CheckAudioFormatMeaning | backend_python/transcription.py:23-26 | the check accepts a path exactly when it ends, ignoring case, in a supported extension after a last path component that is not all dots |
| Transcription.UpperCaseAccepted | backend_python/transcription.py:26 | "a/b.MP3" is accepted |
| Transcription.LastExtensionAccepted | backend_python/transcription.py:25-26 | "a.txt.wav" is accepted |
| Transcription.InnerExtensionIgnored | backend_python/transcription.py:25-26 | "a.wav.txt" is rejected |
| Transcription.DotNameHasNoExtension | backend_python/transcription.py:25-26 | ".wav" is rejected: a leading dot does not start an extension |
| Transcription.DirectoryExtensionIgnored | backend_python/transcription.py:25-26 | "dir.wav/track" is rejected |
| Transcription.ConvertToWav | backend_python/transcription.py:28-39 | the format check comes first; ffmpeg runs exactly when the format passes; a rejected format is a ValueError; after an accepted format, whatever ffmpeg raises escapes unchanged; success needs both the format and ffmpeg |
| Transcription.TranscribeAudio | backend_python/transcription.py:41-80 | the output directory is created and the upload checked first; the call returns exactly when it yields the transcript path under the item's directory |
| Transcription.TranscribeSteps | backend_python/transcription.py:44-74 | the control flow over the check verdicts always creates the output directory and checks the upload first; `Transcription.StepsInOrder` and `Transcription.StepsErrors` give the order of the steps and the exception raised |
| Transcription.StepsInOrder | backend_python/transcription.py:44-74 | each step happens only after the previous verdict passed, in source order |
| Transcription.StepsErrors | backend_python/transcription.py:44-74 | nothing escapes exactly when every verdict passes; otherwise the first failing stage decides the exception |
| Transcription.ChecksInOrder | backend_python/transcription.py:46-68 | the format is checked only for an existing upload; ffmpeg runs only after the format passes; the model file is looked for only after conversion succeeds; transcription happens only with the model present |
| Transcription.ErrorsClassified | backend_python/transcription.py:53-71 | the first failing stage decides the exception: a missing upload is a FileNotFoundError, an unsupported format a ValueError, an ffmpeg failure escapes with its own kind, a missing model after conversion is a FileNotFoundError, and a Whisper failure escapes with its own kind; nothing escapes exactly when every stage succeeds |
| Transcription.TranscriptFeedsSummary | backend_python/transcription.py:47-50 | the transcript is written at the path the summarization stage reads for the same identifier |
| Transcription.ExitStatus | backend_python/transcription.py:89-101 | status 0, 2, 3, 4 exactly for success, FileNotFoundError, ValueError and any other error |
| Transcription.TranscriptionMain | backend_python/transcription.py:82-101 | status 1 exactly for a wrong argument count; otherwise the status of the exception that escaped |
| Transcription.MainExitStatus | backend_python/transcription.py:82-101 | for well-formed arguments: 0 exactly when every stage succeeds; 2 for a missing upload or model, and for a missing `ffmpeg` executable; 3 for an unsupported format; an ffmpeg or Whisper failure gets the status of its exception kind |

## Left out

- The Go back end, the FastAPI wrappers (`main_api.py`, `tts_api.py`), `download_models.py` and `config.py`: they are outside the text pipeline. Only the constants that the three scripts import are used (`models`, `medium`).
- The text of log messages, `del` and `gc.collect()`: they do not affect results or files. The per-window log of resume.py is modelled as which window was summarized or skipped.
- File contents are not modelled. The file system is the set of names that exist, and the text read from a file is a separate parameter.
- The spaCy tokenizer, the Ollama summarizer, num2words, the TTS model, ffmpeg and Whisper are oracles. Their internals are foreign code.
- Numerals.ConvertNumbersToWords: the num2words oracle always returns. In the source it can raise, for example on a very long digit run, and that would be one more failure before the synthesis loop.
- Numerals.ExpandNumbers: `\d` is taken as the ASCII digits 0-9. Python's `\d` also matches other Unicode decimal digits.
- Transcription.CheckAudioFormat: `lower()` lowers ASCII letters only. The supported extensions are ASCII, and no other character lowers to one of their letters, so the verdict is the same.
- Synthesis.GenerateTtsAudio: a failure of `os.rename`, or a partial MP3 left behind by a failed conversion, is not modelled. Concatenation failure is taken to leave an `output.wav`, which the cleanup then removes.
- Synthesis.GenerateTtsAudio: if the output path is itself `output.wav` or a temporary piece name, the file is overwritten or deleted as the code would do. The success lemma assumes the output path is not one of those names.
- Transcription.TranscribeAudio: a failure of `os.makedirs`, and the content of the intermediate WAV, are not modelled. Whisper's load, transcription and write are a single outcome: none, or the kind of exception raised.
- Segmenter.SplitText: requires a non-zero window for non-empty text. In the source a zero window on non-empty text never advances, so the loop does not terminate.
- Segmenter.TtsSections: requires a non-zero `max_length` for a text longer than it, for the same reason.
- Running the three stages in sequence, and concurrency between runs, are left out. The scripts are independent processes, and only `Transcription.TranscriptFeedsSummary` connects two of them.
