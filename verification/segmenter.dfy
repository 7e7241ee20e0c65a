/**
 The character-window segmenter shared by `split_text` (summarization,
 backend_python/resume.py) and `split_text_for_tts` (speech synthesis,
 backend_python/text_to_speech.py). Both run the same loop: take the window
 `[start, min(start + size, |text|))`, cut just after the later of the last
 '.' and the last ',' in it, or at the window end when it holds neither,
 strip the piece and continue from the cut.
 */
module Segmenter {
  import opened PyStr

  /** `MIN_CHUNK_SIZE`, `MAX_CHUNK_SIZE` of resume.py (`TARGET_CHUNK_SIZE` is never read). */
  const MinChunkSize: nat := 512
  const MaxChunkSize: nat := 2048

  /** `MAX_TEXT_LENGTH` of text_to_speech.py. */
  const MaxTextLength: nat := 5000

  predicate IsBreak(c: char) {
    c == '.' || c == ','
  }

  predicate NoBreakIn(text: string, lo: nat, hi: nat)
    requires lo <= hi <= |text|
  {
    forall k :: lo <= k < hi ==> !IsBreak(text[k])
  }

  /** End of the scan window that starts at `start`. */
  function WindowEnd(text: string, start: nat, size: nat): nat {
    if start + size < |text| then start + size else |text|
  }

  /**
   Where one iteration of the loop cuts the piece that starts at `start`.
   There is no preference of '.' over ',': whichever comes later wins.
   */
  function Cut(text: string, start: nat, size: nat): (end: nat)
    requires start < |text|
    ensures start <= end <= WindowEnd(text, start, size)
    ensures NoBreakIn(text, start, WindowEnd(text, start, size)) ==> end == WindowEnd(text, start, size)
    ensures !NoBreakIn(text, start, WindowEnd(text, start, size)) ==>
              start < end && IsBreak(text[end - 1]) && NoBreakIn(text, end, WindowEnd(text, start, size))
    ensures size >= 1 ==> start < end
    ensures size == 0 ==> end == start
  {
    var w := WindowEnd(text, start, size);
    var lastDot := RFind(text, '.', start, w);
    var lastComma := RFind(text, ',', start, w);
    var lastBreak := if lastDot >= lastComma then lastDot else lastComma;
    if lastBreak != -1 then lastBreak + 1 else w
  }

  /** A piece of the text: `[start, end)` of the untrimmed text, and its stripped `text`. */
  datatype Chunk = Chunk(start: nat, end: nat, text: string)

  /** `c` is the piece one iteration cuts at its own start offset. */
  ghost predicate WellCut(text: string, size: nat, c: Chunk) {
    && c.start < c.end <= |text|
    && c.end - c.start <= size
    && c.end == Cut(text, c.start, size)
    && c.text == Strip(text[c.start..c.end])
  }

  /** The pieces tile `[start, |text|)` in order, without gaps or overlaps. */
  ghost predicate Tiling(text: string, start: nat, cs: seq<Chunk>) {
    && (|cs| == 0 <==> start == |text|)
    && (|cs| > 0 ==> cs[0].start == start && cs[|cs| - 1].end == |text|)
    && (forall i :: 0 <= i < |cs| - 1 ==> cs[i].end == cs[i + 1].start)
  }

  /**
   `cs` is what the loop produces from offset `start` with window `size`:
   the pieces tile the rest of the text and each is well cut.
   */
  ghost predicate Tiles(text: string, start: nat, size: nat, cs: seq<Chunk>) {
    && Tiling(text, start, cs)
    && (forall i :: 0 <= i < |cs| ==> WellCut(text, size, cs[i]))
  }

  /**
   Reference definition of the loop's pieces from offset `start`. With
   `size == 0` the source loop never advances on non-empty text, so the
   window must be at least one character unless nothing is left.
   */
  function Chunks(text: string, start: nat, size: nat): (cs: seq<Chunk>)
    requires start <= |text|
    requires size >= 1 || start == |text|
    ensures |cs| == 0 <==> start == |text|
    decreases |text| - start
  {
    if start == |text| then []
    else
      var end := Cut(text, start, size);
      [Chunk(start, end, Strip(text[start..end]))] + Chunks(text, end, size)
  }

  /** The pieces `Chunks` produces tile the rest of the text and each is well cut. */
  lemma ChunksTile(text: string, start: nat, size: nat)
    requires start <= |text|
    requires size >= 1 || start == |text|
    ensures Tiles(text, start, size, Chunks(text, start, size))
  {
    ChunksTiling(text, start, size);
    forall i | 0 <= i < |Chunks(text, start, size)|
      ensures WellCut(text, size, Chunks(text, start, size)[i])
    {
      ChunkWellCut(text, start, size, i);
    }
  }

  lemma {:induction false} ChunksTiling(text: string, start: nat, size: nat)
    requires start <= |text|
    requires size >= 1 || start == |text|
    ensures Tiling(text, start, Chunks(text, start, size))
    ensures forall i :: 0 <= i < |Chunks(text, start, size)| ==> Chunks(text, start, size)[i].start < Chunks(text, start, size)[i].end
    decreases |text| - start
  {
    if start < |text| {
      var end := Cut(text, start, size);
      var rest := Chunks(text, end, size);
      ChunksTiling(text, end, size);
      var cs := [Chunk(start, end, Strip(text[start..end]))] + rest;
      assert Chunks(text, start, size) == cs;
      assert forall i :: 1 <= i < |cs| ==> cs[i] == rest[i - 1];
    }
  }

  lemma {:induction false} ChunkWellCut(text: string, start: nat, size: nat, i: nat)
    requires start <= |text|
    requires size >= 1 || start == |text|
    requires i < |Chunks(text, start, size)|
    ensures WellCut(text, size, Chunks(text, start, size)[i])
    decreases i
  {
    var end := Cut(text, start, size);
    if i > 0 {
      ChunkWellCut(text, end, size, i - 1);
      assert Chunks(text, start, size)[i] == Chunks(text, end, size)[i - 1];
    }
  }

  /** The stripped texts of the pieces, in order: what the source returns. */
  function Texts(cs: seq<Chunk>): (ts: seq<string>)
    ensures |ts| == |cs|
    ensures forall i :: 0 <= i < |cs| ==> ts[i] == cs[i].text
  {
    if |cs| == 0 then [] else [cs[0].text] + Texts(cs[1..])
  }

  predicate ChunksInText(text: string, cs: seq<Chunk>) {
    forall i :: 0 <= i < |cs| ==> cs[i].start <= cs[i].end <= |text|
  }

  /** The untrimmed slices `text[start:end]` of the pieces, in order. */
  function Slices(text: string, cs: seq<Chunk>): (ss: seq<string>)
    requires ChunksInText(text, cs)
    ensures |ss| == |cs|
    ensures forall i :: 0 <= i < |cs| ==> ss[i] == text[cs[i].start..cs[i].end]
  {
    if |cs| == 0 then [] else [text[cs[0].start..cs[0].end]] + Slices(text, cs[1..])
  }

  lemma SliceSplit(t: string, a: nat, b: nat)
    requires a <= b <= |t|
    ensures t[a..b] + t[b..] == t[a..]
  {
  }

  /** Round trip: the untrimmed slices concatenate back to the text, nothing lost or repeated. */
  lemma {:induction false} ChunksRoundTrip(text: string, start: nat, size: nat)
    requires start <= |text|
    requires size >= 1 || start == |text|
    ensures ChunksInText(text, Chunks(text, start, size))
    ensures Concat(Slices(text, Chunks(text, start, size))) == text[start..]
    decreases |text| - start
  {
    ChunksTile(text, start, size);
    if start < |text| {
      var end := Cut(text, start, size);
      var cs := Chunks(text, start, size);
      var rest := Chunks(text, end, size);
      assert cs == [Chunk(start, end, Strip(text[start..end]))] + rest;
      assert cs[1..] == rest;
      var ss := Slices(text, cs);
      assert ss == [text[start..end]] + Slices(text, rest);
      ChunksRoundTrip(text, end, size);
      SliceSplit(text, start, end);
    }
  }

  /** One iteration of the loop appends the stripped piece up to `Cut`. */
  lemma ChunksStep(text: string, start: nat, size: nat, done: seq<string>)
    requires start < |text| && size >= 1
    ensures var end := Cut(text, start, size);
      done + Texts(Chunks(text, start, size))
      == (done + [Strip(text[start..end])]) + Texts(Chunks(text, end, size))
  {
    var end := Cut(text, start, size);
    var c := Chunk(start, end, Strip(text[start..end]));
    var rest := Chunks(text, end, size);
    assert Chunks(text, start, size) == [c] + rest;
    assert ([c] + rest)[1..] == rest;
    assert Texts([c] + rest) == [c.text] + Texts(rest);
  }

  /** The source loop (`while start < len(text)`). */
  method SplitWindows(text: string, size: nat) returns (sections: seq<string>)
    requires size >= 1 || |text| == 0
    ensures sections == Texts(Chunks(text, 0, size))
    ensures |text| == 0 <==> sections == []
  {
    sections := [];
    var start: nat := 0;
    while start < |text|
      invariant start <= |text|
      invariant sections + Texts(Chunks(text, start, size)) == Texts(Chunks(text, 0, size))
      decreases |text| - start
    {
      var end := Cut(text, start, size);
      var piece := Strip(text[start..end]);
      ChunksStep(text, start, size, sections);
      sections := sections + [piece];
      start := end;
    }
  }

  /**
   `calculate_optimal_chunk_size` from the document's token count: small
   documents keep their own size, others get a tenth of it clamped to
   `[MinChunkSize, MaxChunkSize]`.
   */
  function OptimalChunkSize(totalTokens: nat): (size: nat)
    ensures totalTokens < MinChunkSize ==> size == totalTokens
    ensures totalTokens >= MinChunkSize ==> MinChunkSize <= size <= MaxChunkSize
    ensures MinChunkSize <= totalTokens < 10 * MinChunkSize ==> size == MinChunkSize
    ensures 10 * MinChunkSize <= totalTokens <= 10 * MaxChunkSize ==> size == totalTokens / 10
    ensures totalTokens > 10 * MaxChunkSize ==> size == MaxChunkSize
    ensures size >= 1 <==> totalTokens >= 1
  {
    if totalTokens < MinChunkSize then totalTokens
    else if totalTokens > MaxChunkSize * 10 then MaxChunkSize
    else
      var tenth := totalTokens / 10;
      var atLeast := if MinChunkSize >= tenth then MinChunkSize else tenth;
      if atLeast <= MaxChunkSize then atLeast else MaxChunkSize
  }

  /** A longer document never gets a smaller window. */
  lemma OptimalChunkSizeMonotone(a: nat, b: nat)
    requires a <= b
    ensures OptimalChunkSize(a) <= OptimalChunkSize(b)
  {
  }

  /**
   `split_text`: the window is the document's token count run through
   `OptimalChunkSize`, applied as a number of characters. A non-empty text
   whose tokenizer count is 0 would loop forever in the source.
   */
  method SplitText(text: string, countTokens: string -> nat) returns (sections: seq<string>)
    requires |text| == 0 || countTokens(text) >= 1
    ensures sections == Texts(Chunks(text, 0, OptimalChunkSize(countTokens(text))))
    ensures |text| == 0 <==> sections == []
  {
    sections := SplitWindows(text, OptimalChunkSize(countTokens(text)));
  }

  /**
   What `split_text_for_tts` returns: a text that fits is returned whole
   and unstripped; a longer one goes through the window loop.
   */
  function TtsSections(text: string, maxLength: nat): (sections: seq<string>)
    requires |text| <= maxLength || maxLength >= 1
    ensures |sections| >= 1
    ensures |text| <= maxLength ==> sections == [text]
    ensures |text| > maxLength ==> sections == Texts(Chunks(text, 0, maxLength))
  {
    if |text| <= maxLength then [text] else Texts(Chunks(text, 0, maxLength))
  }

  /** `split_text_for_tts(text, max_length)`. */
  method SplitForTts(text: string, maxLength: nat) returns (sections: seq<string>)
    requires |text| <= maxLength || maxLength >= 1
    ensures sections == TtsSections(text, maxLength)
    ensures |sections| >= 1
  {
    if |text| <= maxLength {
      return [text];
    }
    sections := SplitWindows(text, maxLength);
  }

  /**
   With the default `MAX_TEXT_LENGTH`, every untrimmed piece of a long
   speech text holds between 1 and 5000 characters.
   */
  lemma TtsPiecesBounded(text: string)
    requires |text| > MaxTextLength
    ensures forall i :: 0 <= i < |Chunks(text, 0, MaxTextLength)| ==>
              1 <= Chunks(text, 0, MaxTextLength)[i].end - Chunks(text, 0, MaxTextLength)[i].start <= MaxTextLength
  {
    ChunksTile(text, 0, MaxTextLength);
  }

  /**
   A comma after a period wins: in "a.b,c" the first cut falls after the
   comma, not after the period.
   */
  lemma CommaAfterPeriodWins()
    ensures Cut("a.b,c", 0, 5) == 4
  {
    assert !NoBreakIn("a.b,c", 0, 5) by { assert IsBreak("a.b,c"[3]); }
  }

  /** Without a delimiter the window end is used even inside a word. */
  lemma HardCutInsideWord()
    ensures Cut("abcdef", 0, 4) == 4
    ensures Cut("abcdef", 4, 4) == 6
  {
    assert NoBreakIn("abcdef", 0, 4);
    assert NoBreakIn("abcdef", 4, 6);
  }

  /** So "abcdef" with a 4-character window comes out as "abcd" and "ef". */
  lemma HardCutPieces()
    ensures Texts(Chunks("abcdef", 0, 4)) == ["abcd", "ef"]
  {
    var t := "abcdef";
    HardCutInsideWord();
    assert t[0..4] == "abcd" && t[4..6] == "ef";
    StripKeepsTrimmed("abcd");
    StripKeepsTrimmed("ef");
    var rest := Chunks(t, 4, 4);
    assert rest == [Chunk(4, 6, "ef")];
    assert Chunks(t, 0, 4) == [Chunk(0, 4, "abcd")] + rest;
  }
}
