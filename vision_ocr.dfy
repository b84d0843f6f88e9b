/**
 * The two cheap analysis tiers of the change detector (vision_ocr.py): the
 * pre-hash text normaliser, the two content hashes, and the step of each OCR
 * client that turns the detector's already-parsed output into one `OCRText`
 * (joined text, mean confidence, number of kept lines).
 *
 * The detectors themselves (PaddleOCR inference, the Azure HTTPS call) and the
 * SHA-256 / SHA-1 digests are not modelled: the detector output is an input
 * here, and each digest is a function passed in by the caller.
 */
module VisionOcr {
  import opened Wrappers
  import opened Strings

  newtype byte = b: int | 0 <= b < 256

  /** The punctuation `_normalize_text` keeps besides letters, digits and whitespace. */
  const KeptPunctuation: string := "-_/.:@"

  predicate KeptChar(c: char) {
    IsAlnum(c) || IsSpace(c) || c in KeptPunctuation
  }

  /** A character that may appear in normalised text. */
  predicate NormalChar(c: char) {
    IsLower(c) || IsDigit(c) || c == ' ' || c in KeptPunctuation
  }

  /** No space at either end and never two spaces in a row. */
  predicate SingleSpaced(r: string) {
    && (r == [] || (r[0] != ' ' && r[|r| - 1] != ' '))
    && forall i :: 0 <= i < |r| - 1 ==> !(r[i] == ' ' && r[i + 1] == ' ')
  }

  /** The character filter of `_normalize_text`, keeping order. */
  function KeepChars(s: string): string
  {
    if s == [] then []
    else (if KeptChar(s[0]) then [s[0]] else []) + KeepChars(s[1..])
  }

  /** The filter keeps only kept characters of its input. */
  lemma {:induction false} KeepCharsKept(s: string)
    ensures forall c :: c in KeepChars(s) ==> c in s && KeptChar(c)
  {
    if s != [] {
      KeepCharsKept(s[1..]);
      assert forall c :: c in s[1..] ==> c in s;
    }
  }

  lemma KeepCharsOfKept(s: string)
    requires forall c :: c in s ==> KeptChar(c)
    ensures KeepChars(s) == s
  {
  }

  /** Joining non-empty, whitespace-free words with single spaces gives single-spaced text. */
  lemma {:induction false} JoinSingleSpaced(ws: seq<string>)
    requires forall w :: w in ws ==> w != [] && NoSpace(w)
    ensures SingleSpaced(Join(" ", ws))
  {
    if |ws| >= 2 {
      var w := ws[0];
      assert w in ws && NoSpace(w);
      assert forall v :: v in ws[1..] ==> v in ws;
      JoinSingleSpaced(ws[1..]);
      var rest := Join(" ", ws[1..]);
      assert ws[1] in ws && |rest| >= |ws[1]| > 0 by {
        if |ws[1..]| == 1 { } else { }
      }
      var r := w + " " + rest;
      forall i | 0 <= i < |r| - 1 ensures !(r[i] == ' ' && r[i + 1] == ' ') {
        if i < |w| {
          assert r[i] == w[i] && !IsSpace(w[i]);
        } else if i > |w| {
          assert r[i] == rest[i - |w| - 1] && r[i + 1] == rest[i - |w|];
        } else {
          assert r[i + 1] == rest[0];
        }
      }
      assert r[0] == w[0] && !IsSpace(w[0]);
      assert r[|r| - 1] == rest[|rest| - 1];
    } else if |ws| == 1 {
      assert ws[0] in ws && NoSpace(ws[0]);
      assert !IsSpace(ws[0][0]) && !IsSpace(ws[0][|ws[0]| - 1]);
    }
  }

  /**
   * `_normalize_text`: lowercase, keep letters, digits, whitespace and
   * `- _ / . : @`, then collapse every whitespace run to one space and trim.
   * Python's `None` input behaves as the empty string.
   */
  function NormalizeText(s: string): string {
    Join(" ", Split(KeepChars(Lower(s))))
  }

  /**
   * Normalised text holds only lowercase letters, digits, single spaces and
   * `- _ / . : @`; it has no space at either end and no two spaces in a row;
   * empty input gives empty output.
   */
  lemma NormalizeTextShape(s: string)
    ensures forall c :: c in NormalizeText(s) ==> NormalChar(c)
    ensures SingleSpaced(NormalizeText(s))
    ensures s == "" ==> NormalizeText(s) == ""
  {
    var ws := Split(KeepChars(Lower(s)));
    KeepCharsKept(Lower(s));
    SplitWords(KeepChars(Lower(s)));
    JoinSingleSpaced(ws);
    var r := Join(" ", ws);
    forall c | c in r ensures NormalChar(c) {
      var k :| 0 <= k < |r| && r[k] == c;
      JoinChars(" ", ws, k);
      if c != ' ' {
        var w :| w in ws && c in w;
        assert c in KeepChars(Lower(s));
        assert c in Lower(s);
        assert !IsSpace(c);
      }
    }
  }

  /** Normalising twice is the same as normalising once. */
  lemma NormalizeTextIdempotent(s: string)
    ensures NormalizeText(NormalizeText(s)) == NormalizeText(s)
  {
    var ws := Split(KeepChars(Lower(s)));
    var n := NormalizeText(s);
    assert n == Join(" ", ws);
    NormalizeTextShape(s);
    SplitWords(KeepChars(Lower(s)));
    assert Lower(n) == n by {
      forall i | 0 <= i < |n| ensures Lower(n)[i] == n[i] {
        assert n[i] in n && NormalChar(n[i]);
      }
    }
    KeepCharsOfKept(n);
    SplitJoin(ws);
  }

  /** `text_sha`: the SHA-256 digest `sha256` of the normalised text. */
  function TextSha(sha256: string -> string, s: string): string {
    sha256(NormalizeText(s))
  }

  /** Text that normalises alike hashes alike, whatever the digest. */
  lemma TextShaRespectsNormalization(sha256: string -> string, a: string, b: string)
    requires NormalizeText(a) == NormalizeText(b)
    ensures TextSha(sha256, a) == TextSha(sha256, b)
  {
  }

  /** Hashing already-normalised text gives the same digest as hashing the raw text. */
  lemma TextShaOfNormalized(sha256: string -> string, s: string)
    ensures TextSha(sha256, NormalizeText(s)) == TextSha(sha256, s)
  {
    NormalizeTextIdempotent(s);
  }

  /** `img_sha`: the SHA-1 digest `sha1` of the raw bytes, with no normalisation. */
  function ImgSha(sha1: seq<byte> -> string, bytes: seq<byte>): string {
    sha1(bytes)
  }

  /** `OCRText`; `lines` is the `extra["lines"]` diagnostic (latency and raw size are not modelled). */
  datatype OCRText = OCRText(text: string, confidence: real, model: string, lines: nat)

  /** Python's `sum`, exact on reals. */
  function Sum(xs: seq<real>): real {
    if xs == [] then 0.0 else Sum(xs[..|xs| - 1]) + xs[|xs| - 1]
  }

  /** `sum(xs) / len(xs) if xs else 0.0` */
  function Mean(xs: seq<real>): real {
    if xs == [] then 0.0 else Sum(xs) / (|xs| as real)
  }

  predicate InUnit(xs: seq<real>) {
    forall i :: 0 <= i < |xs| ==> 0.0 <= xs[i] <= 1.0
  }

  lemma {:induction false} SumBounds(xs: seq<real>)
    requires InUnit(xs)
    ensures 0.0 <= Sum(xs) <= |xs| as real
  {
    if xs != [] {
      SumBounds(xs[..|xs| - 1]);
    }
  }

  /** The mean of confidences in [0, 1] lies in [0, 1]. */
  lemma MeanInUnit(xs: seq<real>)
    requires InUnit(xs)
    ensures 0.0 <= Mean(xs) <= 1.0
  {
    if xs != [] {
      SumBounds(xs);
      var n := |xs| as real;
      assert Mean(xs) * n == Sum(xs);
    }
  }

  // ---------------------------------------------------------------- PaddleOCR

  /** One detector line: `[bbox, (text, score)]`, or a line whose entry is missing. */
  datatype PaddleLine = Undetected | Detected(text: string, score: real)

  /** `result`: blocks of lines (a `None` block or result is an empty sequence). */
  type PaddleResult = seq<seq<PaddleLine>>

  /** `line[1][0] if line and line[1] else ""` */
  function LineText(l: PaddleLine): string {
    if l.Detected? then l.text else ""
  }

  /** `float(line[1][1]) if line and line[1] else 0.0` */
  function LineScore(l: PaddleLine): real {
    if l.Detected? then l.score else 0.0
  }

  /** The texts a block contributes: those that are non-empty, in order. */
  function BlockLines(b: seq<PaddleLine>): seq<string> {
    if b == [] then []
    else BlockLines(b[..|b| - 1]) + (if LineText(b[|b| - 1]) != "" then [LineText(b[|b| - 1])] else [])
  }

  /** The scores a block contributes: those of the lines whose text is non-empty. */
  function BlockScores(b: seq<PaddleLine>): seq<real> {
    if b == [] then []
    else BlockScores(b[..|b| - 1]) + (if LineText(b[|b| - 1]) != "" then [LineScore(b[|b| - 1])] else [])
  }

  function PaddleLines(r: PaddleResult): seq<string> {
    if r == [] then [] else PaddleLines(r[..|r| - 1]) + BlockLines(r[|r| - 1])
  }

  function PaddleScores(r: PaddleResult): seq<real> {
    if r == [] then [] else PaddleScores(r[..|r| - 1]) + BlockScores(r[|r| - 1])
  }

  /** What `PaddleClient.run` returns for detector output `r`. */
  function PaddleText(r: PaddleResult): OCRText {
    var lines := PaddleLines(r);
    OCRText(Strip(Join("\n", lines)), Mean(PaddleScores(r)), "paddle", |lines|)
  }

  /** The aggregation loop of `PaddleClient.run`, over already-returned detector output. */
  method PaddleRun(result: PaddleResult) returns (o: OCRText)
    ensures o == PaddleText(result)
  {
    var lines: seq<string> := [];
    var confs: seq<real> := [];
    for i := 0 to |result|
      invariant lines == PaddleLines(result[..i])
      invariant confs == PaddleScores(result[..i])
    {
      var block := result[i];
      for j := 0 to |block|
        invariant lines == PaddleLines(result[..i]) + BlockLines(block[..j])
        invariant confs == PaddleScores(result[..i]) + BlockScores(block[..j])
      {
        var line := block[j];
        var txt := LineText(line);
        var score := LineScore(line);
        if txt != "" {
          lines := lines + [txt];
          confs := confs + [score];
        }
        assert block[..j + 1][..j] == block[..j];
      }
      assert block[..|block|] == block;
      assert result[..i + 1][..i] == result[..i];
    }
    assert result[..|result|] == result;
    var text := Strip(Join("\n", lines));
    var conf := if |confs| > 0 then Sum(confs) / (|confs| as real) else 0.0;
    o := OCRText(text, conf, "paddle", |lines|);
  }

  lemma {:induction false} BlockAligned(b: seq<PaddleLine>)
    ensures |BlockLines(b)| == |BlockScores(b)|
  {
    if b != [] {
      BlockAligned(b[..|b| - 1]);
    }
  }

  /** Every kept line carries exactly one score: the two lists have equal length. */
  lemma {:induction false} PaddleAligned(r: PaddleResult)
    ensures |PaddleLines(r)| == |PaddleScores(r)|
  {
    if r != [] {
      PaddleAligned(r[..|r| - 1]);
      BlockAligned(r[|r| - 1]);
    }
  }

  /** Only non-empty texts are kept. */
  lemma {:induction false} PaddleLinesNonEmpty(r: PaddleResult)
    ensures forall l :: l in PaddleLines(r) ==> l != ""
  {
    if r != [] {
      PaddleLinesNonEmpty(r[..|r| - 1]);
      BlockLinesNonEmpty(r[|r| - 1]);
    }
  }

  lemma {:induction false} BlockLinesNonEmpty(b: seq<PaddleLine>)
    ensures forall l :: l in BlockLines(b) ==> l != ""
  {
    if b != [] {
      BlockLinesNonEmpty(b[..|b| - 1]);
    }
  }

  predicate ScoresInUnit(r: PaddleResult) {
    forall i, j :: 0 <= i < |r| && 0 <= j < |r[i]| && r[i][j].Detected? ==> 0.0 <= r[i][j].score <= 1.0
  }

  lemma {:induction false} BlockScoresInUnit(b: seq<PaddleLine>)
    requires forall j :: 0 <= j < |b| && b[j].Detected? ==> 0.0 <= b[j].score <= 1.0
    ensures InUnit(BlockScores(b))
  {
    if b != [] {
      BlockScoresInUnit(b[..|b| - 1]);
    }
  }

  lemma {:induction false} PaddleScoresInUnit(r: PaddleResult)
    requires ScoresInUnit(r)
    ensures InUnit(PaddleScores(r))
  {
    if r != [] {
      var init := r[..|r| - 1];
      assert ScoresInUnit(init) by {
        forall i, j | 0 <= i < |init| && 0 <= j < |init[i]| && init[i][j].Detected?
          ensures 0.0 <= init[i][j].score <= 1.0
        {
          assert init[i] == r[i];
        }
      }
      PaddleScoresInUnit(init);
      var last := r[|r| - 1];
      assert forall j :: 0 <= j < |last| && last[j].Detected? ==> 0.0 <= last[j].score <= 1.0 by {
        forall j | 0 <= j < |last| && last[j].Detected? ensures 0.0 <= last[j].score <= 1.0 {
          assert last[j] == r[|r| - 1][j];
        }
      }
      BlockScoresInUnit(last);
    }
  }

  /**
   * Paddle confidence is the mean score of the kept lines: it lies in [0, 1] when the
   * detector's scores do, and it is 0.0, with empty text, when no line is kept.
   */
  lemma PaddleConfidence(r: PaddleResult)
    ensures ScoresInUnit(r) ==> 0.0 <= PaddleText(r).confidence <= 1.0
    ensures PaddleText(r).lines == 0 ==> PaddleText(r).confidence == 0.0 && PaddleText(r).text == ""
  {
    if ScoresInUnit(r) {
      PaddleScoresInUnit(r);
      MeanInUnit(PaddleScores(r));
    }
    PaddleAligned(r);
  }

  // ---------------------------------------------------------------- Azure Vision

  /** One word of a `readResult` line; `confidence` is absent when the key is missing. */
  datatype AzureWord = AzureWord(confidence: Option<real>)

  /** One line of a `readResult` block: its `text` (absent or null is `None`) and its words. */
  datatype AzureLine = AzureLine(text: Option<string>, words: seq<AzureWord>)

  /** `readResult.blocks`, each a sequence of lines; missing keys are empty sequences. */
  type AzureRead = seq<seq<AzureLine>>

  /** `[float(w["confidence"]) for w in words if "confidence" in w]` */
  function WordConfs(ws: seq<AzureWord>): seq<real> {
    if ws == [] then []
    else WordConfs(ws[..|ws| - 1]) + (if ws[|ws| - 1].confidence.Some? then [ws[|ws| - 1].confidence.value] else [])
  }

  /** `(ln.get("text") or "").strip()` */
  function AzureLineText(l: AzureLine): string {
    Strip(l.text.GetOr(""))
  }

  function AzureBlockLines(b: seq<AzureLine>): seq<string> {
    if b == [] then []
    else AzureBlockLines(b[..|b| - 1]) + (if AzureLineText(b[|b| - 1]) != "" then [AzureLineText(b[|b| - 1])] else [])
  }

  /** Word confidences of a block, collected whether or not the line's text was blank. */
  function AzureBlockConfs(b: seq<AzureLine>): seq<real> {
    if b == [] then [] else AzureBlockConfs(b[..|b| - 1]) + WordConfs(b[|b| - 1].words)
  }

  function AzureLines(r: AzureRead): seq<string> {
    if r == [] then [] else AzureLines(r[..|r| - 1]) + AzureBlockLines(r[|r| - 1])
  }

  function AzureConfs(r: AzureRead): seq<real> {
    if r == [] then [] else AzureConfs(r[..|r| - 1]) + AzureBlockConfs(r[|r| - 1])
  }

  /** What `AzureVisionClient.run` returns for a parsed `readResult`. */
  function AzureText(r: AzureRead): OCRText {
    var lines := AzureLines(r);
    var confs := AzureConfs(r);
    var text := Strip(Join("\n", lines));
    OCRText(text, if confs != [] then Mean(confs) else if text != "" then 0.9 else 0.0, "azure", |lines|)
  }

  /** The inner loop of `AzureVisionClient.run`: one block's lines appended to
      the running text and confidence lists. */
  method AzureCollectBlock(blk: seq<AzureLine>, lines0: seq<string>, confs0: seq<real>)
    returns (lines: seq<string>, confs: seq<real>)
    ensures lines == lines0 + AzureBlockLines(blk)
    ensures confs == confs0 + AzureBlockConfs(blk)
  {
    lines, confs := lines0, confs0;
    for j := 0 to |blk|
      invariant lines == lines0 + AzureBlockLines(blk[..j])
      invariant confs == confs0 + AzureBlockConfs(blk[..j])
    {
      var ln := blk[j];
      var txt := AzureLineText(ln);
      ghost var kept := if txt != "" then [txt] else [];
      if txt != "" {
        lines := lines + [txt];
      }
      var wConfs := WordConfs(ln.words);
      if wConfs != [] {
        confs := confs + wConfs;
      }
      AzureBlockStep(blk, j);
      AppendAssoc(lines0, AzureBlockLines(blk[..j]), kept);
      AppendAssoc(confs0, AzureBlockConfs(blk[..j]), wConfs);
    }
    assert blk[..|blk|] == blk;
  }

  /** The aggregation loop of `AzureVisionClient.run`, over an already-parsed response. */
  method AzureRun(read: AzureRead) returns (o: OCRText)
    ensures o == AzureText(read)
  {
    var lines: seq<string> := [];
    var confs: seq<real> := [];
    for i := 0 to |read|
      invariant lines == AzureLines(read[..i])
      invariant confs == AzureConfs(read[..i])
    {
      lines, confs := AzureCollectBlock(read[i], lines, confs);
      AzureReadStep(read, i);
    }
    assert read[..|read|] == read;
    var text := Strip(Join("\n", lines));
    var conf := if |confs| > 0 then Sum(confs) / (|confs| as real) else (if text != "" then 0.9 else 0.0);
    o := OCRText(text, conf, "azure", |lines|);
  }

  lemma AppendAssoc<T>(a: seq<T>, b: seq<T>, c: seq<T>)
    ensures a + b + c == a + (b + c)
  {
  }

  lemma AzureBlockStep(b: seq<AzureLine>, j: nat)
    requires j < |b|
    ensures AzureBlockLines(b[..j + 1]) == AzureBlockLines(b[..j]) + (if AzureLineText(b[j]) != "" then [AzureLineText(b[j])] else [])
    ensures AzureBlockConfs(b[..j + 1]) == AzureBlockConfs(b[..j]) + WordConfs(b[j].words)
  {
    assert b[..j + 1][..j] == b[..j];
  }

  lemma AzureReadStep(r: AzureRead, i: nat)
    requires i < |r|
    ensures AzureLines(r[..i + 1]) == AzureLines(r[..i]) + AzureBlockLines(r[i])
    ensures AzureConfs(r[..i + 1]) == AzureConfs(r[..i]) + AzureBlockConfs(r[i])
  {
    assert r[..i + 1][..i] == r[..i];
  }

  /** A kept Azure line is non-empty and already stripped. */
  predicate CleanLine(l: string) {
    l != "" && !IsSpace(l[0]) && !IsSpace(l[|l| - 1])
  }

  lemma {:induction false} AzureBlockLinesClean(b: seq<AzureLine>)
    ensures forall l :: l in AzureBlockLines(b) ==> CleanLine(l)
  {
    if b != [] {
      AzureBlockLinesClean(b[..|b| - 1]);
    }
  }

  lemma {:induction false} AzureLinesClean(r: AzureRead)
    ensures forall l :: l in AzureLines(r) ==> CleanLine(l)
  {
    if r != [] {
      AzureLinesClean(r[..|r| - 1]);
      AzureBlockLinesClean(r[|r| - 1]);
    }
  }

  /** A join of clean lines starts with the first line's first character and
      ends with the last line's last character. */
  lemma {:induction false} JoinOfCleanLines(ls: seq<string>)
    requires ls != [] && forall l :: l in ls ==> CleanLine(l)
    ensures CleanLine(Join("\n", ls))
  {
    assert ls[0] in ls;
    if |ls| >= 2 {
      assert forall l :: l in ls[1..] ==> l in ls;
      JoinOfCleanLines(ls[1..]);
    }
  }

  /**
   * The Azure text is exactly the newline-join of the kept lines, in input order:
   * each kept line is stripped and non-empty, so the final `strip()` changes nothing.
   */
  lemma AzureTextIsJoin(r: AzureRead)
    ensures AzureText(r).text == Join("\n", AzureLines(r))
    ensures AzureText(r).lines == |AzureLines(r)|
    ensures forall l :: l in AzureLines(r) ==> l != "" && Strip(l) == l
  {
    AzureLinesClean(r);
    var ls := AzureLines(r);
    if ls != [] {
      JoinOfCleanLines(ls);
      StripOfTrimmed(Join("\n", ls));
    }
    forall l | l in ls ensures l != "" && Strip(l) == l {
      StripOfTrimmed(l);
    }
  }

  predicate WordConfsInUnit(r: AzureRead) {
    forall i, j, k :: (0 <= i < |r| && 0 <= j < |r[i]| && 0 <= k < |r[i][j].words| && r[i][j].words[k].confidence.Some?
      ==> 0.0 <= r[i][j].words[k].confidence.value <= 1.0)
  }

  lemma {:induction false} WordConfsBound(ws: seq<AzureWord>)
    requires forall k :: 0 <= k < |ws| && ws[k].confidence.Some? ==> 0.0 <= ws[k].confidence.value <= 1.0
    ensures InUnit(WordConfs(ws))
  {
    if ws != [] {
      WordConfsBound(ws[..|ws| - 1]);
    }
  }

  lemma {:induction false} AzureBlockConfsBound(b: seq<AzureLine>)
    requires forall j, k :: (0 <= j < |b| && 0 <= k < |b[j].words| && b[j].words[k].confidence.Some?
      ==> 0.0 <= b[j].words[k].confidence.value <= 1.0)
    ensures InUnit(AzureBlockConfs(b))
  {
    if b != [] {
      AzureBlockConfsBound(b[..|b| - 1]);
      WordConfsBound(b[|b| - 1].words);
    }
  }

  lemma {:induction false} AzureConfsBound(r: AzureRead)
    requires WordConfsInUnit(r)
    ensures InUnit(AzureConfs(r))
  {
    if r != [] {
      var init := r[..|r| - 1];
      assert WordConfsInUnit(init) by {
        forall i, j, k | 0 <= i < |init| && 0 <= j < |init[i]| && 0 <= k < |init[i][j].words| && init[i][j].words[k].confidence.Some?
          ensures 0.0 <= init[i][j].words[k].confidence.value <= 1.0
        {
          assert init[i] == r[i];
        }
      }
      AzureConfsBound(init);
      var last := r[|r| - 1];
      assert forall j, k :: (0 <= j < |last| && 0 <= k < |last[j].words| && last[j].words[k].confidence.Some?
        ==> 0.0 <= last[j].words[k].confidence.value <= 1.0) by {
        forall j, k | 0 <= j < |last| && 0 <= k < |last[j].words| && last[j].words[k].confidence.Some?
          ensures 0.0 <= last[j].words[k].confidence.value <= 1.0
        {
          assert last[j] == r[|r| - 1][j];
        }
      }
      AzureBlockConfsBound(last);
    }
  }

  /** Azure confidence lies in [0, 1] when the word confidences do. */
  lemma AzureConfidenceInUnit(r: AzureRead)
    requires WordConfsInUnit(r)
    ensures 0.0 <= AzureText(r).confidence <= 1.0
  {
    var confs := AzureConfs(r);
    AzureConfsBound(r);
    MeanInUnit(confs);
  }

  /** With no word confidence at all, Azure confidence is 0.9 when some line was kept and 0.0 otherwise. */
  lemma AzureConfidenceFallback(r: AzureRead)
    requires AzureConfs(r) == []
    ensures AzureText(r).confidence == (if AzureLines(r) == [] then 0.0 else 0.9)
  {
    var ls := AzureLines(r);
    AzureTextIsJoin(r);
    var text := AzureText(r).text;
    assert text == Join("\n", ls);
    if ls != [] {
      AzureLinesClean(r);
      JoinOfCleanLines(ls);
      assert text != "";
    } else {
      assert text == "";
    }
  }

  /** A line whose text is blank adds no text but its word confidences still count. */
  lemma AzureBlankLineStillScores(text: Option<string>, words: seq<AzureWord>)
    requires AllSpace(text.GetOr(""))
    requires WordConfs(words) != []
    ensures AzureText([[AzureLine(text, words)]]) == OCRText("", Mean(WordConfs(words)), "azure", 0)
  {
    var line := AzureLine(text, words);
    var r := [[line]];
    StripEmptyIffBlank(text.GetOr(""));
    assert AzureLineText(line) == "";
    assert r[..0] == [];
    assert r[0][..0] == [];
    assert AzureBlockLines(r[0]) == [];
    assert AzureLines(r) == [];
    assert AzureBlockConfs(r[0]) == WordConfs(words);
    assert AzureConfs(r) == WordConfs(words);
  }
}
