/** `PDFOCR._process_ocr_results`: the reduction of the OCR engine's
    detections on one page to the page's text, its number of text blocks
    and the confidence scores of those blocks. */
module OcrResults {
  import opened PyText

  /** One detection as the engine's `readtext` reports it: a Python list
      `[bbox, text, confidence, ...]`.  `fields` is the list's length; the
      bounding box is not modelled, and `text` and `confidence` stand for
      the second and third fields, which exist only when `fields >= 3`. */
  datatype OcrRecord = OcrRecord(fields: nat, text: string, confidence: real)

  /** The dictionary `confidence_info`.  `scores` are the confidences the
      source averages into `avg_confidence`; the average itself (floating
      point, rounded to three places) is not modelled. */
  datatype ConfidenceInfo = ConfidenceInfo(scores: seq<real>, blockCount: nat)

  /** A detection yields a text block iff it has at least three fields and
      its text is not blank. */
  predicate Contributes(rec: OcrRecord) {
    rec.fields >= 3 && Strip(rec.text) != ""
  }

  /** The contributing detections, in input order. */
  function Kept(results: seq<OcrRecord>): (r: seq<OcrRecord>)
    ensures |r| <= |results|
    ensures forall rec :: rec in r <==> rec in results && Contributes(rec)
  {
    if results == [] then []
    else
      var init, last := results[..|results| - 1], results[|results| - 1];
      assert results == init + [last];
      Kept(init) + (if Contributes(last) then [last] else [])
  }

  /** The stripped texts of some detections. */
  function Texts(recs: seq<OcrRecord>): seq<string> {
    seq(|recs|, i requires 0 <= i < |recs| => Strip(recs[i].text))
  }

  /** The confidences of some detections. */
  function Scores(recs: seq<OcrRecord>): seq<real> {
    seq(|recs|, i requires 0 <= i < |recs| => recs[i].confidence)
  }

  /** The page's text blocks: `text_blocks` once the loop has run. */
  function Blocks(results: seq<OcrRecord>): seq<string> {
    Texts(Kept(results))
  }

  lemma KeptStep(results: seq<OcrRecord>, i: nat)
    requires i < |results|
    ensures Kept(results[..i + 1]) ==
      Kept(results[..i]) + (if Contributes(results[i]) then [results[i]] else [])
  {
    assert results[..i + 1][..i] == results[..i];
  }

  lemma AppendOne(recs: seq<OcrRecord>, rec: OcrRecord)
    ensures Texts(recs + [rec]) == Texts(recs) + [Strip(rec.text)]
    ensures Scores(recs + [rec]) == Scores(recs) + [rec.confidence]
  {
    var all := recs + [rec];
    forall k | 0 <= k < |all|
      ensures Texts(all)[k] == (Texts(recs) + [Strip(rec.text)])[k]
      ensures Scores(all)[k] == (Scores(recs) + [rec.confidence])[k]
    {
      if k < |recs| {
        assert all[k] == recs[k];
      }
    }
  }

  /** The loop of `_process_ocr_results` followed by `" ".join`: the page
      text is the text blocks joined by single spaces, and the block count
      and scores describe exactly the contributing detections. */
  method ProcessOcrResults(results: seq<OcrRecord>) returns (text: string, info: ConfidenceInfo)
    ensures results == [] ==> text == "" && info == ConfidenceInfo([], 0)
    ensures text == Join(" ", Blocks(results))
    ensures info.blockCount == |Kept(results)| <= |results|
    ensures info.scores == Scores(Kept(results))
  {
    if |results| == 0 {
      return "", ConfidenceInfo([], 0);
    }
    var textBlocks: seq<string> := [];
    var confidenceScores: seq<real> := [];
    for i := 0 to |results|
      invariant textBlocks == Texts(Kept(results[..i]))
      invariant confidenceScores == Scores(Kept(results[..i]))
    {
      var rec := results[i];
      KeptStep(results, i);
      if rec.fields >= 3 {
        var stripped := Strip(rec.text);
        if stripped != "" {
          AppendOne(Kept(results[..i]), rec);
          textBlocks := textBlocks + [stripped];
          confidenceScores := confidenceScores + [rec.confidence];
        }
      }
    }
    assert results[..|results|] == results;
    text := Join(" ", textBlocks);
    info := ConfidenceInfo(confidenceScores, |textBlocks|);
  }

  /** Every text block is non-blank and has no surrounding whitespace, and
      there is one block per contributing detection. */
  lemma BlocksAreTrimmed(results: seq<OcrRecord>)
    ensures |Blocks(results)| == |Kept(results)|
    ensures forall i :: 0 <= i < |Blocks(results)| ==>
      Blocks(results)[i] != [] && Strip(Blocks(results)[i]) == Blocks(results)[i]
  {
    var kept := Kept(results);
    forall i | 0 <= i < |kept|
      ensures Blocks(results)[i] != [] && Strip(Blocks(results)[i]) == Blocks(results)[i]
    {
      assert kept[i] in kept;
      StripIdempotent(kept[i].text);
    }
  }

  /** Splitting the page text on single spaces gives back the text blocks
      exactly when there is at least one block and no block holds an
      inner space. */
  lemma TextSplitsIntoBlocks(results: seq<OcrRecord>)
    ensures Split(Join(" ", Blocks(results)), ' ') == Blocks(results) <==>
      Blocks(results) != [] && forall i :: 0 <= i < |Blocks(results)| ==> ' ' !in Blocks(results)[i]
  {
    var blocks := Blocks(results);
    if blocks != [] {
      SplitJoin(blocks, ' ');
    }
  }

  /** A string that is not all whitespace has at least one word. */
  lemma {:induction false} WordsOfNonBlank(s: string)
    requires !AllSpace(s)
    ensures Words(s) != []
  {
    if IsSpace(s[0]) {
      assert !AllSpace(s[1..]) by {
        var k :| 0 <= k < |s| && !IsSpace(s[k]);
        assert s[1..][k - 1] == s[k];
      }
      WordsOfNonBlank(s[1..]);
    }
  }

  lemma {:induction false} WordTotalAtLeastCount(parts: seq<string>)
    requires forall i :: 0 <= i < |parts| ==> !AllSpace(parts[i])
    ensures WordTotal(parts) >= |parts|
  {
    if parts != [] {
      WordsOfNonBlank(parts[0]);
      WordTotalAtLeastCount(parts[1..]);
    }
  }

  /** The word count of the page text (its number of whitespace-separated
      words) is the sum of the blocks' word counts, hence at least the
      block count. */
  lemma PageWordCount(results: seq<OcrRecord>)
    ensures |Words(Join(" ", Blocks(results)))| == WordTotal(Blocks(results)) >= |Kept(results)|
  {
    var blocks := Blocks(results);
    BlocksAreTrimmed(results);
    WordsOfSpaceJoin(blocks);
    WordTotalAtLeastCount(blocks);
  }

  /** The character count of the page text is the blocks' total length
      plus one space between neighbours. */
  lemma PageCharCount(results: seq<OcrRecord>)
    ensures |Join(" ", Blocks(results))| ==
      TotalLength(Blocks(results)) + (if Kept(results) == [] then 0 else |Kept(results)| - 1)
  {
    assert |Blocks(results)| == |Kept(results)|;
  }
}
