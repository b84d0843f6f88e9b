/**
 * What one `check_or_escalate` call does, proved about `Router.Check`: the fast
 * path, the escalation test, the order in which stages run, how the three
 * counters move, what the store and the escalation log receive, the Gemini and
 * exhaustion results, and that a repeated screenshot is skipped.
 *
 * The proofs follow one pattern: a few facts hold of the state before the first
 * stage, each stage keeps them (`StageKeeps...`), so the whole stage loop keeps
 * them (`WalkKeeps...`), and each theorem about `Check` reads its claim off them.
 */
module RouterProperties {
  import opened Wrappers
  import opened Strings
  import opened VisionOcr
  import opened FootprintStore
  import opened Router

  /** The two OCR stage names. */
  predicate IsOcr(s: string) { s == "paddle" || s == "azure" }

  /** Whether some OCR stage is among the stages that ran (`ocr_used`). */
  predicate OcrRan(ran: seq<string>) { "paddle" in ran || "azure" in ran }

  /** The stages of `stages` whose body runs when reached, in order. */
  function EnabledStages(cfg: RouterConfig, stages: seq<string>): seq<string> {
    if stages == [] then []
    else (if Enabled(cfg, stages[0]) then [stages[0]] else []) + EnabledStages(cfg, stages[1..])
  }

  /** How many OCR stage runs `ran` records. */
  function CountOcr(ran: seq<string>): nat {
    if ran == [] then 0 else CountOcr(ran[..|ran| - 1]) + (if IsOcr(ran[|ran| - 1]) then 1 else 0)
  }

  /** The last entry of the stage order, which is `last_stage` once the loop has run out. */
  function LastOf(order: seq<string>): Option<string> {
    if order == [] then None else Some(order[|order| - 1])
  }

  /** What the analyzer of OCR stage `s` returns for the call's screenshot. */
  function Output(ctx: Ctx, s: string): OCRText {
    if s == "paddle" then ctx.env.paddle(ctx.shot) else ctx.env.azure(ctx.shot)
  }

  /** The previous text hash OCR stage `s` compares against. */
  function PrevFor(ctx: Ctx, s: string): string {
    if s == "paddle" then ctx.prevPaddleSha else ctx.prevAzureSha
  }

  /** The text-hash column OCR stage `s` writes. */
  function ColumnFor(s: string): Column {
    if s == "paddle" then TextShaPaddle else TextShaAzure
  }

  /** A walk that ended because an OCR stage was good enough. */
  predicate Settled(w: Walk) {
    w.result.Some? && w.result.value.Returned? && !w.result.value.decision.changed
  }

  /** What the `gemini` stage ends the call with. */
  function GeminiResult(reply: Option<GeminiReply>): Outcome {
    if reply == Some(Raised) then CallbackRaised else Returned(Decision("gemini", true, GeminiFields(reply)))
  }

  /** Whether some stage of the walk has written to the `pages` table. */
  predicate Wrote(w: Walk) {
    OcrRan(w.ran) || ("gemini" in w.ran && w.result != Some(CallbackRaised))
  }

  /** An escalation row that an OCR stage of this call had reason to log. */
  predicate Justified(ctx: Ctx, row: EscalationRow) {
    && IsOcr(row.fromModel)
    && row == EscalationOf(ctx, row.fromModel, Output(ctx, row.fromModel))
    && NeedsEscalation(ctx.cfg, ctx.env.sha256, Output(ctx, row.fromModel), PrevFor(ctx, row.fromModel))
  }

  /** Column `ColumnFor(s)` of the call's URL holds stage `s`'s fresh hash once `s` ran, and its old value before. */
  predicate TierColumn(ctx: Ctx, p0: Pages, w: Walk, s: string) {
    ColState(w.pages, ctx.url, ColumnFor(s)) ==
      if s in w.ran then Some(TextSha(ctx.env.sha256, Output(ctx, s).text)) else ColState(p0, ctx.url, ColumnFor(s))
  }

  /**
   * The bookkeeping of a walk that started from counters `c0`: the `gemini` stage
   * runs at most once and last, and ends the walk with its result; an OCR stage
   * that settles is the last stage run and returns an empty field set; a walk ends
   * only in one of those two ways; each of those two counters grows by one
   * exactly when its event happened; and `ocr_used` records whether an OCR stage ran.
   */
  predicate CountsFrom(ctx: Ctx, c0: Counters, w: Walk) {
    && w.counters.skippedNoChange == c0.skippedNoChange
    && w.counters.escalatedToGemini == c0.escalatedToGemini + (if "gemini" in w.ran then 1 else 0)
    && w.counters.usedCheapOcr == c0.usedCheapOcr + (if Settled(w) then 1 else 0)
    && ("gemini" in w.ran ==>
          w.ran[|w.ran| - 1] == "gemini" && "gemini" !in w.ran[..|w.ran| - 1] && w.result == Some(GeminiResult(ctx.reply)))
    && (Settled(w) ==>
          var s := w.result.value.decision.status;
          && IsOcr(s) && w.ran != [] && w.ran[|w.ran| - 1] == s && w.result.value.decision.fields == map[]
          && !NeedsEscalation(ctx.cfg, ctx.env.sha256, Output(ctx, s), PrevFor(ctx, s)))
    && (w.result.Some? ==> Settled(w) || "gemini" in w.ran)
    && w.ocrUsed == OcrRan(w.ran)
  }

  /** Rows of URLs other than the call's are as they were in `p0`. */
  ghost predicate OthersKept(ctx: Ctx, p0: Pages, w: Walk) {
    forall u :: u != ctx.url ==> (u in w.pages <==> u in p0) && (u in p0 ==> w.pages[u] == p0[u])
  }

  /** The screenshot hash is stored once anything was written, and nothing is written otherwise. */
  predicate ShotStored(ctx: Ctx, p0: Pages, w: Walk) {
    && (Wrote(w) ==> ColState(w.pages, ctx.url, ScreenshotSha) == Some(ctx.shotSha))
    && (!Wrote(w) ==> w.pages == p0)
  }

  /**
   * What the `pages` table holds after a walk that started from `p0`: other URLs'
   * rows are untouched; each tier's text-hash column changes only when that tier
   * ran; the screenshot hash is stored once anything was written, and nothing is
   * written otherwise.
   */
  ghost predicate RowsFrom(ctx: Ctx, p0: Pages, w: Walk) {
    OthersKept(ctx, p0, w) && TierColumn(ctx, p0, w, "paddle") && TierColumn(ctx, p0, w, "azure") && ShotStored(ctx, p0, w)
  }

  /**
   * What the escalation log holds after a walk that started from `e0`: it only
   * grows, by one justified row per OCR stage that did not settle.
   */
  predicate LogFrom(ctx: Ctx, e0: seq<EscalationRow>, w: Walk) {
    && |e0| <= |w.escalations| && w.escalations[..|e0|] == e0
    && |w.escalations| - |e0| == CountOcr(w.ran) - (if Settled(w) then 1 else 0)
    && (forall i :: |e0| <= i < |w.escalations| ==> Justified(ctx, w.escalations[i]) && w.escalations[i].fromModel in w.ran)
  }

  /** `Stage` by cases, with the OCR stages folded into one. */
  lemma StageCases(ctx: Ctx, w: Walk, s: string)
    ensures var w1 := Stage(ctx, w, s); var named := w.(lastStage := Some(s));
      && (IsOcr(s) && Enabled(ctx.cfg, s) ==> w1 == OcrStage(ctx, named, s, Output(ctx, s), ColumnFor(s), PrevFor(ctx, s)))
      && (s == "gemini" && Enabled(ctx.cfg, s) ==> w1 == GeminiStage(ctx, named))
      && (!Enabled(ctx.cfg, s) ==> w1 == named)
  {
  }

  lemma CountOcrStep(ran: seq<string>, s: string)
    ensures CountOcr(ran + [s]) == CountOcr(ran) + (if IsOcr(s) then 1 else 0)
  {
    assert (ran + [s])[..|ran|] == ran;
  }

  lemma OcrKeepsCounts(ctx: Ctx, c0: Counters, w: Walk, s: string)
    requires IsOcr(s) && w.result.None? && CountsFrom(ctx, c0, w)
    ensures CountsFrom(ctx, c0, OcrStage(ctx, w, s, Output(ctx, s), ColumnFor(s), PrevFor(ctx, s)))
  {
    var w1 := OcrStage(ctx, w, s, Output(ctx, s), ColumnFor(s), PrevFor(ctx, s));
    assert w1.ran == w.ran + [s];
    assert "gemini" !in w1.ran;
  }

  lemma GeminiKeepsCounts(ctx: Ctx, c0: Counters, w: Walk)
    requires w.result.None? && CountsFrom(ctx, c0, w)
    ensures CountsFrom(ctx, c0, GeminiStage(ctx, w))
  {
    var w1 := GeminiStage(ctx, w);
    assert w1.ran == w.ran + ["gemini"];
    assert w1.ran[..|w1.ran| - 1] == w.ran;
  }

  /** One stage keeps the bookkeeping of `CountsFrom`. */
  lemma StageKeepsCounts(ctx: Ctx, c0: Counters, w: Walk, s: string)
    requires w.result.None? && CountsFrom(ctx, c0, w)
    ensures CountsFrom(ctx, c0, Stage(ctx, w, s))
  {
    StageCases(ctx, w, s);
    var named := w.(lastStage := Some(s));
    if IsOcr(s) && Enabled(ctx.cfg, s) {
      OcrKeepsCounts(ctx, c0, named, s);
    } else if s == "gemini" && Enabled(ctx.cfg, s) {
      GeminiKeepsCounts(ctx, c0, named);
    }
  }

  /** The columns an OCR stage writes, seen column by column. */
  lemma OcrColumns(ctx: Ctx, pages: Pages, s: string, h: string)
    ensures var p := Apply(pages, UpsertCall(ctx.url, OcrWrite(ctx, s, ColumnFor(s), h), ctx.now));
      && ColState(p, ctx.url, ScreenshotSha) == Some(ctx.shotSha)
      && ColState(p, ctx.url, ColumnFor(s)) == Some(h)
      && (forall c :: c != ScreenshotSha && c != ColumnFor(s) && c != LastModel ==> ColState(p, ctx.url, c) == ColState(pages, ctx.url, c))
      && (forall u :: u != ctx.url ==> (u in p <==> u in pages) && (u in pages ==> p[u] == pages[u]))
  {
    ApplyColumns(pages, UpsertCall(ctx.url, OcrWrite(ctx, s, ColumnFor(s), h), ctx.now));
  }

  lemma OcrKeepsRows(ctx: Ctx, p0: Pages, w: Walk, s: string)
    requires IsOcr(s) && w.result.None? && "gemini" !in w.ran && RowsFrom(ctx, p0, w)
    ensures RowsFrom(ctx, p0, OcrStage(ctx, w, s, Output(ctx, s), ColumnFor(s), PrevFor(ctx, s)))
  {
    var w1 := OcrStage(ctx, w, s, Output(ctx, s), ColumnFor(s), PrevFor(ctx, s));
    var h := TextSha(ctx.env.sha256, Output(ctx, s).text);
    OcrColumns(ctx, w.pages, s, h);
    assert w1.pages == Apply(w.pages, UpsertCall(ctx.url, OcrWrite(ctx, s, ColumnFor(s), h), ctx.now));
    assert w1.ran == w.ran + [s];
    assert TierColumn(ctx, p0, w1, "paddle");
    assert TierColumn(ctx, p0, w1, "azure");
    assert OthersKept(ctx, p0, w1);
    assert Wrote(w1);
  }

  /** The columns the `gemini` stage writes, seen column by column. */
  lemma GeminiColumns(ctx: Ctx, w: Walk)
    requires ctx.reply != Some(Raised)
    ensures var w1 := GeminiStage(ctx, w);
      && ColState(w1.pages, ctx.url, ScreenshotSha) == Some(ctx.shotSha)
      && (forall c :: c != ScreenshotSha && c != LastModel ==> ColState(w1.pages, ctx.url, c) == ColState(w.pages, ctx.url, c))
      && (forall u :: u != ctx.url ==> (u in w1.pages <==> u in w.pages) && (u in w.pages ==> w1.pages[u] == w.pages[u]))
  {
    ApplyColumns(w.pages, UpsertCall(ctx.url, GeminiWrite(ctx), ctx.now));
  }

  lemma GeminiKeepsRows(ctx: Ctx, p0: Pages, w: Walk)
    requires w.result.None? && "gemini" !in w.ran && RowsFrom(ctx, p0, w)
    ensures RowsFrom(ctx, p0, GeminiStage(ctx, w))
  {
    var w1 := GeminiStage(ctx, w);
    assert w1.ran == w.ran + ["gemini"];
    if ctx.reply != Some(Raised) {
      GeminiColumns(ctx, w);
      assert TierColumn(ctx, p0, w1, "paddle");
      assert TierColumn(ctx, p0, w1, "azure");
      assert OthersKept(ctx, p0, w1);
    }
  }

  lemma OcrKeepsLog(ctx: Ctx, e0: seq<EscalationRow>, w: Walk, s: string)
    requires IsOcr(s) && w.result.None? && LogFrom(ctx, e0, w)
    ensures LogFrom(ctx, e0, OcrStage(ctx, w, s, Output(ctx, s), ColumnFor(s), PrevFor(ctx, s)))
  {
    var o := Output(ctx, s);
    var w1 := OcrStage(ctx, w, s, o, ColumnFor(s), PrevFor(ctx, s));
    assert w1.ran == w.ran + [s];
    CountOcrStep(w.ran, s);
    if NeedsEscalation(ctx.cfg, ctx.env.sha256, o, PrevFor(ctx, s)) {
      assert w1.escalations == w.escalations + [EscalationOf(ctx, s, o)];
      assert w1.escalations[..|e0|] == w.escalations[..|e0|];
    }
  }

  lemma GeminiKeepsLog(ctx: Ctx, e0: seq<EscalationRow>, w: Walk)
    requires w.result.None? && LogFrom(ctx, e0, w)
    ensures LogFrom(ctx, e0, GeminiStage(ctx, w))
  {
    var w1 := GeminiStage(ctx, w);
    assert w1.ran == w.ran + ["gemini"];
    CountOcrStep(w.ran, "gemini");
  }

  /** One stage keeps what `RowsFrom` says about the `pages` table. */
  lemma StageKeepsRows(ctx: Ctx, p0: Pages, w: Walk, s: string)
    requires w.result.None? && "gemini" !in w.ran && RowsFrom(ctx, p0, w)
    ensures RowsFrom(ctx, p0, Stage(ctx, w, s))
  {
    StageCases(ctx, w, s);
    var named := w.(lastStage := Some(s));
    if IsOcr(s) && Enabled(ctx.cfg, s) {
      OcrKeepsRows(ctx, p0, named, s);
    } else if s == "gemini" && Enabled(ctx.cfg, s) {
      GeminiKeepsRows(ctx, p0, named);
    }
  }

  /** One stage keeps what `LogFrom` says about the escalation log. */
  lemma StageKeepsLog(ctx: Ctx, e0: seq<EscalationRow>, w: Walk, s: string)
    requires w.result.None? && LogFrom(ctx, e0, w)
    ensures LogFrom(ctx, e0, Stage(ctx, w, s))
  {
    StageCases(ctx, w, s);
    var named := w.(lastStage := Some(s));
    if IsOcr(s) && Enabled(ctx.cfg, s) {
      OcrKeepsLog(ctx, e0, named, s);
    } else if s == "gemini" && Enabled(ctx.cfg, s) {
      GeminiKeepsLog(ctx, e0, named);
    }
  }

  /** The whole stage loop keeps `CountsFrom`, `RowsFrom` and `LogFrom`. */
  lemma {:induction false} WalkKeeps(ctx: Ctx, c0: Counters, p0: Pages, e0: seq<EscalationRow>, stages: seq<string>, w: Walk)
    requires w.result.None? && CountsFrom(ctx, c0, w) && RowsFrom(ctx, p0, w) && LogFrom(ctx, e0, w)
    ensures var r := WalkFrom(ctx, stages, w);
      CountsFrom(ctx, c0, r) && RowsFrom(ctx, p0, r) && LogFrom(ctx, e0, r)
    decreases |stages|
  {
    if stages != [] {
      var w1 := Stage(ctx, w, stages[0]);
      StageKeepsCounts(ctx, c0, w, stages[0]);
      StageKeepsRows(ctx, p0, w, stages[0]);
      StageKeepsLog(ctx, e0, w, stages[0]);
      if w1.result.None? {
        WalkKeeps(ctx, c0, p0, e0, stages[1..], w1);
      }
    }
  }

  /** One stage appends its name to `ran` exactly when it is enabled, and only an enabled stage returns. */
  lemma StageRan(ctx: Ctx, w: Walk, s: string)
    requires w.result.None?
    ensures Stage(ctx, w, s).ran == w.ran + (if Enabled(ctx.cfg, s) then [s] else [])
    ensures Stage(ctx, w, s).result.Some? ==> Enabled(ctx.cfg, s)
  {
    StageCases(ctx, w, s);
  }

  lemma EnabledStagesPrefix(cfg: RouterConfig, stages: seq<string>, k: nat)
    requires 0 < k <= |stages|
    ensures EnabledStages(cfg, stages[..k]) == (if Enabled(cfg, stages[0]) then [stages[0]] else []) + EnabledStages(cfg, stages[1..][..k - 1])
  {
    assert stages[..k][0] == stages[0] && stages[..k][1..] == stages[1..][..k - 1];
  }

  /** The runs of the first stage followed by those of the next `k'` stages are
      the runs of the first `k' + 1` stages. */
  lemma RunsCons(cfg: RouterConfig, stages: seq<string>, k': nat, ran0: seq<string>, ran1: seq<string>, r: seq<string>)
    requires k' < |stages|
    requires ran1 == ran0 + (if Enabled(cfg, stages[0]) then [stages[0]] else [])
    requires r == ran1 + EnabledStages(cfg, stages[1..][..k'])
    ensures r == ran0 + EnabledStages(cfg, stages[..k' + 1])
    ensures k' > 0 ==> stages[1..][k' - 1] == stages[k']
  {
    EnabledStagesPrefix(cfg, stages, k' + 1);
    var head := if Enabled(cfg, stages[0]) then [stages[0]] else [];
    assert ran0 + head + EnabledStages(cfg, stages[1..][..k']) == ran0 + (head + EnabledStages(cfg, stages[1..][..k']));
  }

  /**
   * The stage loop runs the enabled stages of the first `k` stages, in order; it
   * stops before the end only because a stage returned, and that stage is the
   * last one run.
   */
  lemma {:induction false} WalkRuns(ctx: Ctx, stages: seq<string>, w: Walk) returns (k: nat)
    requires w.result.None?
    ensures var r := WalkFrom(ctx, stages, w);
      && k <= |stages| && r.ran == w.ran + EnabledStages(ctx.cfg, stages[..k])
      && (r.result.None? ==> k == |stages|)
      && (r.result.Some? ==> 0 < k && Enabled(ctx.cfg, stages[k - 1]) && r.ran != [] && r.ran[|r.ran| - 1] == stages[k - 1])
    decreases |stages|
  {
    if stages == [] {
      k := 0;
      assert stages[..0] == [];
    } else {
      var s := stages[0];
      var w1 := Stage(ctx, w, s);
      StageRan(ctx, w, s);
      assert WalkFrom(ctx, stages, w) == WalkFrom(ctx, stages[1..], w1);
      if w1.result.Some? {
        k := 1;
        EnabledStagesPrefix(ctx.cfg, stages, 1);
        assert stages[1..][..0] == [];
      } else {
        var k' := WalkRuns(ctx, stages[1..], w1);
        k := k' + 1;
        RunsCons(ctx.cfg, stages, k', w.ran, w1.ran, WalkFrom(ctx, stages[1..], w1).ran);
      }
    }
  }

  /** Once the stage loop has run out, `last_stage` is the last stage name. */
  lemma {:induction false} WalkLastStage(ctx: Ctx, stages: seq<string>, w: Walk)
    requires w.result.None?
    ensures var r := WalkFrom(ctx, stages, w);
      r.result.None? && stages != [] ==> r.lastStage == LastOf(stages)
    decreases |stages|
  {
    if stages != [] {
      var w1 := Stage(ctx, w, stages[0]);
      StageCases(ctx, w, stages[0]);
      if w1.result.None? {
        WalkLastStage(ctx, stages[1..], w1);
      }
    }
  }

  /** Every stage in `EnabledStages` is an enabled stage of `stages`. */
  lemma {:induction false} EnabledStagesMembers(cfg: RouterConfig, stages: seq<string>)
    ensures forall s :: s in EnabledStages(cfg, stages) ==> s in stages && Enabled(cfg, s)
  {
    if stages != [] {
      EnabledStagesMembers(cfg, stages[1..]);
    }
  }

  /** With no enabled stage in `stages`, no stage runs. */
  lemma {:induction false} NoneEnabled(cfg: RouterConfig, stages: seq<string>)
    requires forall s :: s in stages ==> !Enabled(cfg, s)
    ensures EnabledStages(cfg, stages) == []
  {
    if stages != [] {
      assert stages[0] in stages;
      NoneEnabled(cfg, stages[1..]);
    }
  }

  /**
   * A call that does not take the fast path is the stage loop from the stored
   * state, finished; the loop keeps `CountsFrom`, `RowsFrom` and `LogFrom`, and
   * runs the enabled stages of the first `k` entries of the order.
   */
  lemma CheckWalks(cfg: RouterConfig, env: Env, pages: Pages, escalations: seq<EscalationRow>, counters: Counters,
                   url: string, shot: seq<byte>, reply: Option<GeminiReply>, now: nat) returns (k: nat)
    requires !Unchanged(Lookup(pages, url), ImgSha(env.sha1, shot))
    ensures var ctx := ContextOf(cfg, env, pages, url, shot, reply, now);
      var r := WalkFrom(ctx, cfg.order, Start(pages, escalations, counters));
      && Check(cfg, env, pages, escalations, counters, url, shot, reply, now) == Finish(r)
      && CountsFrom(ctx, counters, r) && RowsFrom(ctx, pages, r) && LogFrom(ctx, escalations, r)
      && k <= |cfg.order| && r.ran == EnabledStages(cfg, cfg.order[..k])
      && (r.result.None? ==> k == |cfg.order| && r.lastStage == LastOf(cfg.order))
      && (r.result.Some? ==> 0 < k && r.ran != [] && r.ran[|r.ran| - 1] == cfg.order[k - 1])
  {
    var ctx := ContextOf(cfg, env, pages, url, shot, reply, now);
    var w0 := Start(pages, escalations, counters);
    assert escalations[..|escalations|] == escalations;
    assert RowsFrom(ctx, pages, w0);
    WalkKeeps(ctx, counters, pages, escalations, cfg.order, w0);
    k := WalkRuns(ctx, cfg.order, w0);
    WalkLastStage(ctx, cfg.order, w0);
  }

  /**
   * The fast path: when the stored screenshot hash equals the new one, the call
   * returns `skipped`, counts one skip and nothing else, logs nothing, runs no
   * stage, and only re-stamps the screenshot hash and `last_seen` of the row.
   */
  lemma UnchangedScreenshotSkips(cfg: RouterConfig, env: Env, pages: Pages, escalations: seq<EscalationRow>, counters: Counters,
                                 url: string, shot: seq<byte>, reply: Option<GeminiReply>, now: nat)
    requires Unchanged(Lookup(pages, url), ImgSha(env.sha1, shot))
    ensures var w := Check(cfg, env, pages, escalations, counters, url, shot, reply, now);
      && w.result == Some(Returned(Decision("skipped", false, map[])))
      && w.counters == counters.(skippedNoChange := counters.skippedNoChange + 1)
      && w.escalations == escalations && w.ran == []
      && url in pages
      && w.pages == pages[url := pages[url].(lastSeen := Some(now), cols := pages[url].cols[ScreenshotSha := ImgSha(env.sha1, shot)])]
  {
    var h := ImgSha(env.sha1, shot);
    var kvs := map[ScreenshotSha := Some(h)];
    assert url in pages;
    assert Supplied(kvs) == map[ScreenshotSha := h];
    assert pages[url].cols + map[ScreenshotSha := h] == pages[url].cols[ScreenshotSha := h];
    var p := pages[url := pages[url].(lastSeen := Some(now), cols := pages[url].cols[ScreenshotSha := h])];
    assert Upserted(pages, url, kvs, now) == Some(p);
    assert Apply(pages, UpsertCall(url, kvs, now)) == p;
    assert Check(cfg, env, pages, escalations, counters, url, shot, reply, now) == Skip(pages, escalations, counters, url, h, now);
  }

  /**
   * `_needs_escalation` escalates exactly when the stripped text is empty, the
   * text is shorter than the threshold, the confidence is below the threshold,
   * or there is a previous hash and the new text's hash differs from it.
   */
  lemma NeedsEscalationIff(cfg: RouterConfig, sha256: string -> string, o: OCRText, prevTextSha: string)
    ensures NeedsEscalation(cfg, sha256, o, prevTextSha) <==>
      || Strip(o.text) == ""
      || |o.text| < cfg.minCharsForConfidence
      || o.confidence < cfg.minConfidence
      || (prevTextSha != "" && TextSha(sha256, o.text) != prevTextSha)
  {
    StripEmptyIffBlank(o.text);
  }

  /**
   * Long, confident text whose normalised form is that of the text the previous
   * hash was taken from does not escalate: changes in case, punctuation outside
   * the kept set, or spacing are not changes.
   */
  lemma SameNormalizedTextSettles(cfg: RouterConfig, sha256: string -> string, o: OCRText, before: string)
    requires Strip(o.text) != ""
    requires |o.text| >= cfg.minCharsForConfidence && o.confidence >= cfg.minConfidence
    requires NormalizeText(o.text) == NormalizeText(before)
    ensures !NeedsEscalation(cfg, sha256, o, TextSha(sha256, before))
  {
    StripEmptyIffBlank(o.text);
    TextShaRespectsNormalization(sha256, o.text, before);
  }

  /**
   * Off the fast path, the stages that run are the enabled stages of a prefix of
   * the order, in order; the loop stops before the end of the order only when an
   * OCR stage settled or `gemini` ran, and then that stage is the last one run.
   */
  lemma StagesRunInOrder(cfg: RouterConfig, env: Env, pages: Pages, escalations: seq<EscalationRow>, counters: Counters,
                         url: string, shot: seq<byte>, reply: Option<GeminiReply>, now: nat)
    requires !Unchanged(Lookup(pages, url), ImgSha(env.sha1, shot))
    ensures var w := Check(cfg, env, pages, escalations, counters, url, shot, reply, now);
      exists k :: 0 <= k <= |cfg.order| && w.ran == EnabledStages(cfg, cfg.order[..k])
        && (k < |cfg.order| ==> Settled(w) || "gemini" in w.ran)
        && (Settled(w) || "gemini" in w.ran ==> 0 < k && w.ran != [] && w.ran[|w.ran| - 1] == cfg.order[k - 1])
  {
    var k := CheckWalks(cfg, env, pages, escalations, counters, url, shot, reply, now);
  }

  /**
   * Off the fast path, the skip counter stays, the Gemini counter grows by one
   * exactly when `gemini` ran, the cheap-OCR counter grows by one exactly when an
   * OCR stage settled the call, and never both.
   */
  lemma CheckCounters(cfg: RouterConfig, env: Env, pages: Pages, escalations: seq<EscalationRow>, counters: Counters,
                      url: string, shot: seq<byte>, reply: Option<GeminiReply>, now: nat)
    requires !Unchanged(Lookup(pages, url), ImgSha(env.sha1, shot))
    ensures var w := Check(cfg, env, pages, escalations, counters, url, shot, reply, now);
      && w.counters.skippedNoChange == counters.skippedNoChange
      && w.counters.escalatedToGemini == counters.escalatedToGemini + (if "gemini" in w.ran then 1 else 0)
      && w.counters.usedCheapOcr == counters.usedCheapOcr + (if Settled(w) then 1 else 0)
      && !(Settled(w) && "gemini" in w.ran)
  {
    var k := CheckWalks(cfg, env, pages, escalations, counters, url, shot, reply, now);
  }

  /**
   * When `gemini` runs it is the last stage; the call ends with the callback's
   * fields (`{}` for no callback or a `None` reply) or with its exception, the
   * Gemini counter has grown by one either way, and unless the callback raised
   * the screenshot hash is stored.
   */
  lemma GeminiOutcome(cfg: RouterConfig, env: Env, pages: Pages, escalations: seq<EscalationRow>, counters: Counters,
                      url: string, shot: seq<byte>, reply: Option<GeminiReply>, now: nat)
    requires !Unchanged(Lookup(pages, url), ImgSha(env.sha1, shot))
    requires "gemini" in Check(cfg, env, pages, escalations, counters, url, shot, reply, now).ran
    ensures var w := Check(cfg, env, pages, escalations, counters, url, shot, reply, now);
      && w.result == Some(GeminiResult(reply))
      && w.ran[|w.ran| - 1] == "gemini"
      && w.counters.escalatedToGemini == counters.escalatedToGemini + 1
      && (reply != Some(Raised) ==> ColState(w.pages, url, ScreenshotSha) == Some(ImgSha(env.sha1, shot)))
  {
    var k := CheckWalks(cfg, env, pages, escalations, counters, url, shot, reply, now);
  }

  /**
   * A call settled by an OCR stage returns that stage's name, unchanged, with no
   * fields; that stage ran last, its output passed the escalation test against
   * the hash previously stored for its tier, and the cheap-OCR counter grew by one.
   */
  lemma OcrSettles(cfg: RouterConfig, env: Env, pages: Pages, escalations: seq<EscalationRow>, counters: Counters,
                   url: string, shot: seq<byte>, reply: Option<GeminiReply>, now: nat)
    requires !Unchanged(Lookup(pages, url), ImgSha(env.sha1, shot))
    requires Settled(Check(cfg, env, pages, escalations, counters, url, shot, reply, now))
    ensures var w := Check(cfg, env, pages, escalations, counters, url, shot, reply, now);
      var s := w.result.value.decision.status;
      && IsOcr(s) && w.ran != [] && w.ran[|w.ran| - 1] == s
      && w.result.value.decision.fields == map[]
      && !NeedsEscalation(cfg, env.sha256, if s == "paddle" then env.paddle(shot) else env.azure(shot),
                          Prev(Lookup(pages, url), s == "paddle"))
      && w.counters.usedCheapOcr == counters.usedCheapOcr + 1
  {
    var k := CheckWalks(cfg, env, pages, escalations, counters, url, shot, reply, now);
  }

  /**
   * Off the fast path the escalation log only grows: by one row per OCR stage
   * that ran and did not settle, each naming this call's URL and clock, its
   * stage, `next` and `low_conf_or_changed`, with the stage's confidence and
   * text length, and each logged only because that stage's output failed the
   * escalation test.
   */
  lemma EscalationsLogged(cfg: RouterConfig, env: Env, pages: Pages, escalations: seq<EscalationRow>, counters: Counters,
                          url: string, shot: seq<byte>, reply: Option<GeminiReply>, now: nat)
    requires !Unchanged(Lookup(pages, url), ImgSha(env.sha1, shot))
    ensures var w := Check(cfg, env, pages, escalations, counters, url, shot, reply, now);
      var ctx := ContextOf(cfg, env, pages, url, shot, reply, now);
      && |escalations| <= |w.escalations| && w.escalations[..|escalations|] == escalations
      && |w.escalations| - |escalations| == CountOcr(w.ran) - (if Settled(w) then 1 else 0)
      && (forall i :: |escalations| <= i < |w.escalations| ==>
            && Justified(ctx, w.escalations[i]) && w.escalations[i].fromModel in w.ran
            && w.escalations[i].url == url && w.escalations[i].ts == now
            && w.escalations[i].toModel == "next" && w.escalations[i].reason == "low_conf_or_changed")
  {
    var k := CheckWalks(cfg, env, pages, escalations, counters, url, shot, reply, now);
  }

  /**
   * Off the fast path no other URL's row changes, and each tier's text-hash
   * column of the call's row changes only if that tier ran, to the hash of
   * that tier's own text.
   */
  lemma TierIsolation(cfg: RouterConfig, env: Env, pages: Pages, escalations: seq<EscalationRow>, counters: Counters,
                      url: string, shot: seq<byte>, reply: Option<GeminiReply>, now: nat)
    requires !Unchanged(Lookup(pages, url), ImgSha(env.sha1, shot))
    ensures var w := Check(cfg, env, pages, escalations, counters, url, shot, reply, now);
      && (forall u :: u != url ==> (u in w.pages <==> u in pages) && (u in pages ==> w.pages[u] == pages[u]))
      && ColState(w.pages, url, TextShaPaddle) ==
           (if "paddle" in w.ran then Some(TextSha(env.sha256, env.paddle(shot).text)) else ColState(pages, url, TextShaPaddle))
      && ColState(w.pages, url, TextShaAzure) ==
           (if "azure" in w.ran then Some(TextSha(env.sha256, env.azure(shot).text)) else ColState(pages, url, TextShaAzure))
  {
    var k := CheckWalks(cfg, env, pages, escalations, counters, url, shot, reply, now);
  }

  /**
   * When no stage returns, every enabled stage of the order has run, no counter
   * moves, and the call returns `changed` with no fields and the status
   * `last_stage or "ocr"` (the last entry of the order, whether or not that stage
   * ran) if an OCR stage ran, else `noop`.
   */
  lemma ExhaustionResult(cfg: RouterConfig, env: Env, pages: Pages, escalations: seq<EscalationRow>, counters: Counters,
                         url: string, shot: seq<byte>, reply: Option<GeminiReply>, now: nat)
    requires !Unchanged(Lookup(pages, url), ImgSha(env.sha1, shot))
    requires !Settled(Check(cfg, env, pages, escalations, counters, url, shot, reply, now))
    requires "gemini" !in Check(cfg, env, pages, escalations, counters, url, shot, reply, now).ran
    ensures var w := Check(cfg, env, pages, escalations, counters, url, shot, reply, now);
      && w.ran == EnabledStages(cfg, cfg.order)
      && w.counters == counters
      && w.result == Some(Returned(Decision(if OcrRan(w.ran) then StatusOf(LastOf(cfg.order)) else "noop", true, map[])))
  {
    var k := CheckWalks(cfg, env, pages, escalations, counters, url, shot, reply, now);
    assert cfg.order[..|cfg.order|] == cfg.order;
  }

  /**
   * With no enabled stage in the order, a call off the fast path changes
   * nothing: store, log and counters stay, and it returns `noop`.
   */
  lemma DisabledStagesInert(cfg: RouterConfig, env: Env, pages: Pages, escalations: seq<EscalationRow>, counters: Counters,
                            url: string, shot: seq<byte>, reply: Option<GeminiReply>, now: nat)
    requires !Unchanged(Lookup(pages, url), ImgSha(env.sha1, shot))
    requires forall s :: s in cfg.order ==> !Enabled(cfg, s)
    ensures var w := Check(cfg, env, pages, escalations, counters, url, shot, reply, now);
      && w.pages == pages && w.escalations == escalations && w.counters == counters && w.ran == []
      && w.result == Some(Returned(Decision("noop", true, map[])))
  {
    var k := CheckWalks(cfg, env, pages, escalations, counters, url, shot, reply, now);
    NoneEnabled(cfg, cfg.order[..k]);
    var w := Check(cfg, env, pages, escalations, counters, url, shot, reply, now);
    assert w.escalations == w.escalations[..|escalations|];
  }

  /**
   * A call that returned after storing the screenshot hash (the fast path, or
   * any stage ran) makes the next call with the same screenshot take the fast path.
   */
  lemma RepeatSkips(cfg: RouterConfig, env: Env, pages: Pages, escalations: seq<EscalationRow>, counters: Counters,
                    url: string, shot: seq<byte>, reply: Option<GeminiReply>, now: nat,
                    reply2: Option<GeminiReply>, now2: nat)
    requires Check(cfg, env, pages, escalations, counters, url, shot, reply, now).result.value.Returned?
    requires Unchanged(Lookup(pages, url), ImgSha(env.sha1, shot)) || Check(cfg, env, pages, escalations, counters, url, shot, reply, now).ran != []
    ensures var w := Check(cfg, env, pages, escalations, counters, url, shot, reply, now);
      Check(cfg, env, w.pages, w.escalations, w.counters, url, shot, reply2, now2).result == Some(Returned(Decision("skipped", false, map[])))
  {
    var w := Check(cfg, env, pages, escalations, counters, url, shot, reply, now);
    CallStoresShot(cfg, env, pages, escalations, counters, url, shot, reply, now);
    assert Unchanged(Lookup(w.pages, url), ImgSha(env.sha1, shot));
  }

  /** Such a call leaves the new screenshot hash in the row of `url`. */
  lemma CallStoresShot(cfg: RouterConfig, env: Env, pages: Pages, escalations: seq<EscalationRow>, counters: Counters,
                       url: string, shot: seq<byte>, reply: Option<GeminiReply>, now: nat)
    requires Check(cfg, env, pages, escalations, counters, url, shot, reply, now).result.value.Returned?
    requires Unchanged(Lookup(pages, url), ImgSha(env.sha1, shot)) || Check(cfg, env, pages, escalations, counters, url, shot, reply, now).ran != []
    ensures var w := Check(cfg, env, pages, escalations, counters, url, shot, reply, now);
      Lookup(w.pages, url).Some? && Lookup(w.pages, url).value.screenshotSha == ImgSha(env.sha1, shot)
  {
    var h := ImgSha(env.sha1, shot);
    var w := Check(cfg, env, pages, escalations, counters, url, shot, reply, now);
    if Unchanged(Lookup(pages, url), h) {
      ApplyColumns(pages, UpsertCall(url, map[ScreenshotSha := Some(h)], now));
    } else {
      var k := CheckWalks(cfg, env, pages, escalations, counters, url, shot, reply, now);
      EnabledStagesMembers(cfg, cfg.order[..k]);
      assert w.ran[0] in w.ran;
      assert Wrote(w);
    }
    assert ColState(w.pages, url, ScreenshotSha) == Some(h);
  }

  /**
   * The exhaustion status is the last entry of the order even when that stage is
   * disabled: with order `paddle, gemini`, Gemini disabled and Paddle reading no
   * text, the call reports `gemini` although Gemini never ran.
   */
  lemma ExhaustionNamesUnrunStage()
    ensures var cfg := RouterConfig(true, true, false, ["paddle", "gemini"], 300, 0.65);
      var env := Env(s => s, b => "shot", b => OCRText("", 0.0, "paddle", 0), b => OCRText("", 0.0, "azure", 0), (c, n) => "{}");
      var w := Check(cfg, env, map[], [], Counters(0, 0, 0), "https://example.org/jobs", [], None, 0);
      && w.result == Some(Returned(Decision("gemini", true, map[])))
      && "gemini" !in w.ran
  {
    var cfg := RouterConfig(true, true, false, ["paddle", "gemini"], 300, 0.65);
    var env := Env(s => s, b => "shot", b => OCRText("", 0.0, "paddle", 0), b => OCRText("", 0.0, "azure", 0), (c, n) => "{}");
    var ctx := ContextOf(cfg, env, map[], "https://example.org/jobs", [], None, 0);
    var w0 := Start(map[], [], Counters(0, 0, 0));
    var w1 := Stage(ctx, w0, "paddle");
    assert w1.result.None?;
    var w2 := Stage(ctx, w1, "gemini");
    assert w2 == w1.(lastStage := Some("gemini"));
    assert WalkFrom(ctx, cfg.order, w0) == WalkFrom(ctx, ["gemini"], w1) == WalkFrom(ctx, [], w2);
  }
}
