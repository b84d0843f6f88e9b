/**
 * The escalation router (vision_router.py). For one page screenshot it either
 * skips (the screenshot hash is unchanged since the last visit) or walks the
 * configured stage order: each enabled OCR stage reads the screenshot, stores
 * its own text hash, and either settles the page (confident, enough text, text
 * unchanged) or logs an escalation and moves on; an enabled `gemini` stage
 * calls the caller's extraction callback and always settles. Three counters
 * record how each call ended.
 *
 * `Check` is the whole call as a function of the store and counters before it;
 * `VisionRouter.CheckOrEscalate` is the loop that performs it in place and is
 * proved equal to it.
 */
module Router {
  import opened Wrappers
  import opened Strings
  import opened VisionOcr
  import opened FootprintStore

  /** `RouterConfig`; `order` is `None` or a list, and `None` is the empty sequence. */
  datatype RouterConfig = RouterConfig(
    enablePaddle: bool,
    enableAzure: bool,
    enableGemini: bool,
    order: seq<string>,
    minCharsForConfidence: int,
    minConfidence: real)

  const DefaultOrder: seq<string> := ["paddle", "azure", "gemini"]

  /** `RouterConfig.__post_init__`: an empty or missing order becomes the default order. */
  function PostInit(cfg: RouterConfig): (c: RouterConfig)
    ensures c.order != []
    ensures cfg.order == [] ==> c == cfg.(order := DefaultOrder)
    ensures cfg.order != [] ==> c == cfg
  {
    if cfg.order == [] then cfg.(order := DefaultOrder) else cfg
  }

  /** `RouterConfig()` with every argument defaulted. */
  function DefaultConfig(): (c: RouterConfig)
    ensures c.enablePaddle && c.enableAzure && c.enableGemini
    ensures c.order == ["paddle", "azure", "gemini"]
    ensures c.minCharsForConfidence == 300 && c.minConfidence == 0.65
  {
    PostInit(RouterConfig(true, true, true, [], 300, 0.65))
  }

  /** `_needs_escalation`, with the SHA-256 digest passed in; `(o.text or "").strip()` is
      empty exactly when the text is all whitespace. */
  function NeedsEscalation(cfg: RouterConfig, sha256: string -> string, o: OCRText, prevTextSha: string): bool {
    if AllSpace(o.text) then true
    else if |o.text| < cfg.minCharsForConfidence then true
    else if o.confidence < cfg.minConfidence then true
    else if prevTextSha != "" && TextSha(sha256, o.text) != prevTextSha then true
    else false
  }

  /**
   * What the router cannot compute itself: the two digests, the two clients'
   * `run` (each a function of the screenshot bytes; what `run` makes of the
   * detector's output is `PaddleRun` / `AzureRun`), and
   * `json.dumps({"conf": ..., "chars": ...})`.
   */
  datatype Env = Env(
    sha256: string -> string,
    sha1: seq<byte> -> string,
    paddle: seq<byte> -> OCRText,
    azure: seq<byte> -> OCRText,
    infoJson: (real, nat) -> string)

  /** What calling `on_need_gemini()` does: return a dict (`None` for a `None` return) or raise. */
  datatype GeminiReply = Replied(fields: Option<map<string, string>>) | Raised

  /** The returned dict `{"status", "changed", "fields"}`. */
  datatype Decision = Decision(status: string, changed: bool, fields: map<string, string>)

  /** How a call ends: it returns a decision, or the callback's exception propagates. */
  datatype Outcome = Returned(decision: Decision) | CallbackRaised

  /** The three headline counters. */
  datatype Counters = Counters(skippedNoChange: nat, usedCheapOcr: nat, escalatedToGemini: nat)

  /**
   * The state of one call as the stage loop advances: the store's two written tables,
   * the counters, the stages whose body ran (ghost bookkeeping), `ocr_used`,
   * `last_stage`, and the outcome once a stage has returned.
   */
  datatype Walk = Walk(
    pages: Pages,
    escalations: seq<EscalationRow>,
    counters: Counters,
    ran: seq<string>,
    ocrUsed: bool,
    lastStage: Option<string>,
    result: Option<Outcome>)

  /** What is fixed for the duration of one call. */
  datatype Ctx = Ctx(
    cfg: RouterConfig,
    env: Env,
    url: string,
    shot: seq<byte>,
    shotSha: string,
    prevPaddleSha: string,
    prevAzureSha: string,
    reply: Option<GeminiReply>,
    now: nat)

  /** The columns an OCR stage writes: the screenshot hash, its own text hash, and the model name. */
  function OcrWrite(ctx: Ctx, stage: string, col: Column, hash: string): map<Column, Option<string>> {
    map[ScreenshotSha := Some(ctx.shotSha), col := Some(hash), LastModel := Some(stage)]
  }

  /** The columns the `gemini` stage writes. */
  function GeminiWrite(ctx: Ctx): map<Column, Option<string>> {
    map[ScreenshotSha := Some(ctx.shotSha), LastModel := Some("gemini")]
  }

  /** The escalation row an OCR stage logs when its output is not good enough. */
  function EscalationOf(ctx: Ctx, stage: string, o: OCRText): EscalationRow {
    EscalationRow(ctx.now, ctx.url, stage, "next", "low_conf_or_changed", Truncate(ctx.env.infoJson(o.confidence, |o.text|), InfoLimit))
  }

  /** The body of an enabled OCR stage whose analyzer returned `o`. */
  function OcrStage(ctx: Ctx, w: Walk, stage: string, o: OCRText, col: Column, prevSha: string): Walk {
    var h := TextSha(ctx.env.sha256, o.text);
    var w1 := w.(pages := Apply(w.pages, UpsertCall(ctx.url, OcrWrite(ctx, stage, col, h), ctx.now)),
                 ran := w.ran + [stage], ocrUsed := true);
    if !NeedsEscalation(ctx.cfg, ctx.env.sha256, o, prevSha) then
      w1.(counters := w.counters.(usedCheapOcr := w.counters.usedCheapOcr + 1),
          result := Some(Returned(Decision(stage, false, map[]))))
    else
      w1.(escalations := w.escalations + [EscalationOf(ctx, stage, o)])
  }

  /** An OCR stage settles the call exactly when its output needs no escalation. */
  lemma OcrStageSettles(ctx: Ctx, w: Walk, stage: string, o: OCRText, col: Column, prevSha: string)
    requires w.result.None?
    ensures OcrStage(ctx, w, stage, o, col, prevSha).result.Some? <==> !NeedsEscalation(ctx.cfg, ctx.env.sha256, o, prevSha)
  {
  }

  /** `on_need_gemini() or {}`, or `{}` with no callback. */
  function GeminiFields(reply: Option<GeminiReply>): map<string, string> {
    if reply.Some? && reply.value.Replied? then reply.value.fields.GetOr(map[]) else map[]
  }

  /** The body of an enabled `gemini` stage: count, call back, store, return. */
  function GeminiStage(ctx: Ctx, w: Walk): Walk {
    var w1 := w.(counters := w.counters.(escalatedToGemini := w.counters.escalatedToGemini + 1),
                 ran := w.ran + ["gemini"]);
    if ctx.reply == Some(Raised) then w1.(result := Some(CallbackRaised))
    else
      w1.(pages := Apply(w.pages, UpsertCall(ctx.url, GeminiWrite(ctx), ctx.now)),
          result := Some(Returned(Decision("gemini", true, GeminiFields(ctx.reply)))))
  }

  /** Whether stage name `s` names an enabled stage. */
  predicate Enabled(cfg: RouterConfig, s: string) {
    (s == "paddle" && cfg.enablePaddle) || (s == "azure" && cfg.enableAzure) || (s == "gemini" && cfg.enableGemini)
  }

  /** One iteration of the stage loop. */
  function Stage(ctx: Ctx, w: Walk, s: string): Walk {
    var w := w.(lastStage := Some(s));
    if s == "paddle" && ctx.cfg.enablePaddle then OcrStage(ctx, w, "paddle", ctx.env.paddle(ctx.shot), TextShaPaddle, ctx.prevPaddleSha)
    else if s == "azure" && ctx.cfg.enableAzure then OcrStage(ctx, w, "azure", ctx.env.azure(ctx.shot), TextShaAzure, ctx.prevAzureSha)
    else if s == "gemini" && ctx.cfg.enableGemini then GeminiStage(ctx, w)
    else w
  }

  /** The stage loop over the remaining `stages`, stopping at the first stage that returns. */
  function WalkFrom(ctx: Ctx, stages: seq<string>, w: Walk): Walk
    decreases |stages|
  {
    if stages == [] || w.result.Some? then w
    else WalkFrom(ctx, stages[1..], Stage(ctx, w, stages[0]))
  }

  /** `last_stage or "ocr"` */
  function StatusOf(lastStage: Option<string>): string {
    if lastStage.Some? && lastStage.value != "" then lastStage.value else "ocr"
  }

  function Prev(prev: Option<PageFP>, paddle: bool): string {
    if prev.None? then "" else if paddle then prev.value.textShaPaddle else prev.value.textShaAzure
  }

  /** What the call returns once the stage loop is over: the returned outcome, or the
      exhaustion result (`last_stage or "ocr"` if some OCR stage ran, else `"noop"`). */
  function Finish(w: Walk): Walk {
    if w.result.Some? then w
    else w.(result := Some(Returned(Decision(if w.ocrUsed then StatusOf(w.lastStage) else "noop", true, map[]))))
  }

  /** The fast path: an unchanged screenshot is only re-stamped and counted. */
  function Skip(pages: Pages, escalations: seq<EscalationRow>, counters: Counters, url: string, shotSha: string, now: nat): Walk {
    Walk(Apply(pages, UpsertCall(url, map[ScreenshotSha := Some(shotSha)], now)), escalations,
         counters.(skippedNoChange := counters.skippedNoChange + 1), [], false, None,
         Some(Returned(Decision("skipped", false, map[]))))
  }

  /** Whether the stored fingerprint's screenshot hash equals the new one. */
  predicate Unchanged(prev: Option<PageFP>, shotSha: string) {
    prev.Some? && prev.value.screenshotSha == shotSha
  }

  /** The fixed context of a call that did not take the fast path. */
  function ContextOf(cfg: RouterConfig, env: Env, pages: Pages, url: string, shot: seq<byte>, reply: Option<GeminiReply>, now: nat): Ctx {
    var prev := Lookup(pages, url);
    Ctx(cfg, env, url, shot, ImgSha(env.sha1, shot), Prev(prev, true), Prev(prev, false), reply, now)
  }

  /** The state before the first stage. */
  function Start(pages: Pages, escalations: seq<EscalationRow>, counters: Counters): Walk {
    Walk(pages, escalations, counters, [], false, None, None)
  }

  /**
   * `check_or_escalate` as a function of the store and the counters before the
   * call; `now` is the clock for every write the call makes.
   */
  function Check(cfg: RouterConfig, env: Env, pages: Pages, escalations: seq<EscalationRow>, counters: Counters,
                 url: string, shot: seq<byte>, reply: Option<GeminiReply>, now: nat): (w: Walk)
    ensures w.result.Some?
  {
    var shotSha := ImgSha(env.sha1, shot);
    if Unchanged(Lookup(pages, url), shotSha) then Skip(pages, escalations, counters, url, shotSha, now)
    else Finish(WalkFrom(ContextOf(cfg, env, pages, url, shot, reply, now), cfg.order, Start(pages, escalations, counters)))
  }

  /** The router: its store, its configuration, its environment and its three counters. */
  class VisionRouter {
    const fp: Footprints
    const cfg: RouterConfig
    const env: Env
    var skippedNoChange: nat
    var usedCheapOcr: nat
    var escalatedToGemini: nat

    constructor(fpdb: Footprints, cfg0: RouterConfig, env0: Env)
      ensures fp == fpdb && cfg == PostInit(cfg0) && env == env0
      ensures skippedNoChange == 0 && usedCheapOcr == 0 && escalatedToGemini == 0
    {
      fp := fpdb;
      cfg := PostInit(cfg0);
      env := env0;
      skippedNoChange := 0;
      usedCheapOcr := 0;
      escalatedToGemini := 0;
    }

    function Counts(): Counters
      reads this
    {
      Counters(skippedNoChange, usedCheapOcr, escalatedToGemini)
    }

    /** `summary`: the three counters under their report names. */
    function Summary(): (s: map<string, int>)
      reads this
      ensures s.Keys == {"skipped_nochange", "used_cheap_ocr", "escalated_to_gemini"}
      ensures s["skipped_nochange"] == skippedNoChange && s["used_cheap_ocr"] == usedCheapOcr
      ensures s["escalated_to_gemini"] == escalatedToGemini
    {
      map["skipped_nochange" := skippedNoChange, "used_cheap_ocr" := usedCheapOcr, "escalated_to_gemini" := escalatedToGemini]
    }

    /**
     * The body of an enabled OCR stage once its analyzer returned `o`: store the
     * screenshot hash, this stage's text hash and the model name, then either
     * settle (count a cheap OCR use) or log an escalation. `settled` tells the
     * caller to return.
     */
    method OcrStageBody(ghost ctx: Ctx, ghost w: Walk, url: string, shotSha: string, now: nat,
                        stage: string, o: OCRText, col: Column, prevSha: string) returns (settled: bool)
      requires fp.Valid()
      requires ctx.cfg == cfg && ctx.env == env && ctx.url == url && ctx.shotSha == shotSha && ctx.now == now
      requires w.pages == fp.pages && w.escalations == fp.escalations && w.counters == Counts() && w.result.None?
      modifies this, fp
      ensures fp.Valid() && fp.runs == old(fp.runs)
      ensures var w1 := OcrStage(ctx, w, stage, o, col, prevSha);
        && fp.pages == w1.pages && fp.escalations == w1.escalations && Counts() == w1.counters
        && (settled <==> w1.result.Some?)
    {
      ghost var w1 := OcrStage(ctx, w, stage, o, col, prevSha);
      var h := TextSha(env.sha256, o.text);
      var kvs := map[ScreenshotSha := Some(shotSha), col := Some(h), LastModel := Some(stage)];
      assert kvs == OcrWrite(ctx, stage, col, h);
      var _ := fp.Upsert(url, kvs, now);
      assert fp.pages == w1.pages;
      var escalate := NeedsEscalation(cfg, env.sha256, o, prevSha);
      OcrStageSettles(ctx, w, stage, o, col, prevSha);
      if !escalate {
        usedCheapOcr := usedCheapOcr + 1;
        settled := true;
      } else {
        fp.RecordEscalation(url, stage, "next", "low_conf_or_changed", env.infoJson(o.confidence, |o.text|), now);
        settled := false;
      }
    }

    /**
     * The body of an enabled `gemini` stage: count the escalation first, then call
     * back, then store the screenshot hash and the model name. `out` is `None` when
     * the callback raised (nothing is stored then).
     */
    method GeminiStageBody(ghost ctx: Ctx, ghost w: Walk, url: string, shotSha: string, now: nat,
                           onNeedGemini: Option<GeminiReply>) returns (out: Outcome)
      requires fp.Valid()
      requires ctx.cfg == cfg && ctx.env == env && ctx.url == url && ctx.shotSha == shotSha && ctx.now == now
      requires ctx.reply == onNeedGemini
      requires w.pages == fp.pages && w.escalations == fp.escalations && w.counters == Counts()
      modifies this, fp
      ensures fp.Valid() && fp.runs == old(fp.runs)
      ensures var w1 := GeminiStage(ctx, w);
        && fp.pages == w1.pages && fp.escalations == w1.escalations && Counts() == w1.counters
        && w1.result == Some(out)
    {
      escalatedToGemini := escalatedToGemini + 1;
      var fields: map<string, string> := map[];
      if onNeedGemini.Some? {
        match onNeedGemini.value
        case Raised =>
          out := CallbackRaised;
          return;
        case Replied(f) =>
          fields := f.GetOr(map[]);
      }
      var kvs := map[ScreenshotSha := Some(shotSha), LastModel := Some("gemini")];
      assert kvs == GeminiWrite(ctx);
      var _ := fp.Upsert(url, kvs, now);
      out := Returned(Decision("gemini", true, fields));
    }

    /**
     * One iteration of the stage loop (the `last_stage` assignment is the caller's):
     * run the stage's body if it names an enabled stage. `result` is the outcome
     * when the stage returned; `ranOcr` tells whether an OCR analyzer ran.
     */
    method RunStage(ghost ctx: Ctx, ghost cur: Walk, stage: string, url: string, shot: seq<byte>, shotSha: string,
                    prevPaddleSha: string, prevAzureSha: string, onNeedGemini: Option<GeminiReply>, now: nat)
      returns (result: Option<Outcome>, ranOcr: bool)
      requires fp.Valid()
      requires ctx == Ctx(cfg, env, url, shot, shotSha, prevPaddleSha, prevAzureSha, onNeedGemini, now)
      requires cur.pages == fp.pages && cur.escalations == fp.escalations && cur.counters == Counts() && cur.result.None?
      modifies this, fp
      ensures fp.Valid() && fp.runs == old(fp.runs)
      ensures var w := Stage(ctx, cur, stage);
        && fp.pages == w.pages && fp.escalations == w.escalations && Counts() == w.counters
        && result == w.result && w.ocrUsed == (cur.ocrUsed || ranOcr) && w.lastStage == Some(stage)
    {
      ghost var named := cur.(lastStage := Some(stage));
      result, ranOcr := None, false;
      if stage == "paddle" && cfg.enablePaddle {
        var o := env.paddle(shot);
        ranOcr := true;
        var settled := OcrStageBody(ctx, named, url, shotSha, now, "paddle", o, TextShaPaddle, prevPaddleSha);
        if settled {
          result := Some(Returned(Decision("paddle", false, map[])));
        }
      } else if stage == "azure" && cfg.enableAzure {
        var o := env.azure(shot);
        ranOcr := true;
        var settled := OcrStageBody(ctx, named, url, shotSha, now, "azure", o, TextShaAzure, prevAzureSha);
        if settled {
          result := Some(Returned(Decision("azure", false, map[])));
        }
      } else if stage == "gemini" && cfg.enableGemini {
        var out := GeminiStageBody(ctx, named, url, shotSha, now, onNeedGemini);
        result := Some(out);
      }
    }

    /**
     * The stage loop of `check_or_escalate` and the exhaustion result after it,
     * from the store and counters `w0` holds: the outcome, the store and the
     * counters are exactly those `Finish(WalkFrom(...))` gives.
     */
    method WalkStages(ghost ctx: Ctx, ghost w0: Walk, url: string, shot: seq<byte>, shotSha: string,
                      prevPaddleSha: string, prevAzureSha: string, onNeedGemini: Option<GeminiReply>, now: nat)
      returns (out: Outcome)
      requires fp.Valid()
      requires ctx == Ctx(cfg, env, url, shot, shotSha, prevPaddleSha, prevAzureSha, onNeedGemini, now)
      requires w0 == Start(fp.pages, fp.escalations, Counts())
      modifies this, fp
      ensures fp.Valid() && fp.runs == old(fp.runs)
      ensures var w := Finish(WalkFrom(ctx, cfg.order, w0));
        && out == w.result.value && fp.pages == w.pages && fp.escalations == w.escalations && Counts() == w.counters
    {
      ghost var target := WalkFrom(ctx, cfg.order, w0);
      ghost var w := w0;
      var ocrUsed := false;
      var lastStage: Option<string> := None;
      var i := 0;
      while i < |cfg.order|
        invariant 0 <= i <= |cfg.order|
        invariant fp.Valid() && fp.runs == old(fp.runs)
        invariant w.pages == fp.pages && w.escalations == fp.escalations && w.counters == Counts()
        invariant w.ocrUsed == ocrUsed && w.lastStage == lastStage && w.result.None?
        invariant WalkFrom(ctx, cfg.order[i..], w) == target
      {
        var stage := cfg.order[i];
        assert cfg.order[i..][1..] == cfg.order[i + 1..];
        ghost var next := Stage(ctx, w, stage);
        lastStage := Some(stage);
        var result, ranOcr := RunStage(ctx, w, stage, url, shot, shotSha, prevPaddleSha, prevAzureSha, onNeedGemini, now);
        ocrUsed := ocrUsed || ranOcr;
        w := next;
        if result.Some? {
          out := result.value;
          return;
        }
        i := i + 1;
      }
      assert cfg.order[i..] == [];
      if ocrUsed {
        out := Returned(Decision(if lastStage.Some? && lastStage.value != "" then lastStage.value else "ocr", true, map[]));
      } else {
        out := Returned(Decision("noop", true, map[]));
      }
    }

    /**
     * `check_or_escalate(url, screenshot, on_need_gemini=...)` at clock reading `now`:
     * the outcome, the store and the counters are exactly those `Check` gives.
     */
    method CheckOrEscalate(url: string, shot: seq<byte>, onNeedGemini: Option<GeminiReply>, now: nat) returns (out: Outcome)
      requires fp.Valid()
      modifies this, fp
      ensures fp.Valid()
      ensures var w := Check(cfg, env, old(fp.pages), old(fp.escalations), old(Counts()), url, shot, onNeedGemini, now);
        && out == w.result.value
        && fp.pages == w.pages && fp.escalations == w.escalations && fp.runs == old(fp.runs)
        && Counts() == w.counters
    {
      var prev := fp.Get(url);
      var prevPaddleSha := if prev.Some? then prev.value.textShaPaddle else "";
      var prevAzureSha := if prev.Some? then prev.value.textShaAzure else "";
      var shotSha := env.sha1(shot);

      if prev.Some? && prev.value.screenshotSha == shotSha {
        skippedNoChange := skippedNoChange + 1;
        var _ := fp.Upsert(url, map[ScreenshotSha := Some(shotSha)], now);
        out := Returned(Decision("skipped", false, map[]));
        return;
      }

      ghost var ctx := ContextOf(cfg, env, fp.pages, url, shot, onNeedGemini, now);
      assert ctx == Ctx(cfg, env, url, shot, shotSha, prevPaddleSha, prevAzureSha, onNeedGemini, now);
      out := WalkStages(ctx, Start(fp.pages, fp.escalations, Counts()), url, shot, shotSha, prevPaddleSha, prevAzureSha, onNeedGemini, now);
    }
  }
}
