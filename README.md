# Change detection and escalation for a job scraper, in Dafny

This project models the rescrape core of a coaching-job scraper. The core decides whether a
career page changed, and how much work it takes to find out. It covers five parts.

- **Escalation router** (`vision_router.dfy`, `router_properties.dfy`, for `vision_router.py`).
  - For each page screenshot, the router first takes the fast path: if the stored screenshot
    hash is unchanged, it skips.
  - Otherwise it walks the configured stage order. An enabled OCR stage (`paddle`, `azure`)
    stores its own text hash, then either settles the page or logs an escalation and moves on.
  - An enabled `gemini` stage calls the caller's extraction callback and always ends the call.
  - Three counters record how each call ended.
  - `Router.Check` is the whole call as a function of the store and counters before it.
  - `Router.VisionRouter.CheckOrEscalate` performs the call in place and is proved equal to
    `Check`. The properties of the call are lemmas about `Check`.
- **Fingerprint store** (`footprints.dfy`, for `footprints.py`).
  - The `pages` table is a map from URL to row. Because it is keyed by URL, a URL has at most
    one row.
  - The `escalations` and `runs` tables are append-only sequences.
  - `upsert` does a partial update and always refreshes `last_seen`. The clock is a parameter.
- **Text normalisation and OCR aggregation** (`vision_ocr.dfy`, for `vision_ocr.py`).
  - The normaliser runs before hashing. The two digests are abstract functions.
  - The line and confidence aggregation loops of the Paddle and Azure clients work over
    detector output that has already been returned.
- **Job feed utilities** (`jobs_xml.dfy`, for `jobs_xml.py`).
  - URL canonicalisation, the dedup key, works over an abstract URL codec.
  - Date normalisation works over an abstract `strptime`.
  - `append_jobs` applies the field mask.
  - `mark_seen`, `mark_seen_by_apply_url` and `seen_apply_urls` work on a class holding the
    sequence of `Job` elements.
- **District rows** (`district_index.dfy`, for `district_index.py`).
  - `_first_nonempty`, `_normalize_homepage` and `_collect_career_urls` (splitting, the
    scheme fix-up and dedup).
  - The defaults `_iter_from_file` applies when it builds a `District`.
  - `_find_state_csv`, over the list of file names a directory holds.

Shared pieces:

- `strings.dfy` models Python's `strip`, `lower`, `split`, `join` and `startswith` on ASCII text.
- `seqs.dfy` defines the two front-to-back searches the scan loops perform: the first position of
  a value, and the first value filed under a key (`dict.get`, `findtext`).
- `wrappers.dfy` defines `Option`, which stands for Python's `None`.

## Model

| member | source | states |
|---|---|---|
| Router.PostInit | vision_router.py:20-22 | after `__post_init__` the order is never empty: an empty order becomes `paddle, azure, gemini` and nothing else changes, and a non-empty configuration is kept as is |
| Router.DefaultConfig | vision_router.py:11-22 | the default configuration enables all three stages, orders them `paddle, azure, gemini`, and sets the thresholds to 300 characters and confidence 0.65 |
| Router.OcrStageSettles | vision_router.py:83-88 | an OCR stage ends the call exactly when its output does not need escalation |
| Router.Check | vision_router.py:49-119 | every call ends: it returns a decision, or the callback's exception propagates |
| Router.VisionRouter.constructor | vision_router.py:24-34 | a new router keeps its store, its configuration after `__post_init__` and its environment, and starts all three counters at 0 |
| Router.VisionRouter.Summary | vision_router.py:121-126 | the summary has exactly the keys `skipped_nochange`, `used_cheap_ocr` and `escalated_to_gemini`, holding the three counters |
| Router.VisionRouter.OcrStageBody | vision_router.py:78-100 | one enabled OCR stage, done in place, leaves the store, the log and the counters as `OcrStage` says, and reports whether it settled; the `runs` table is untouched |
| Router.VisionRouter.GeminiStageBody | vision_router.py:102-110 | the `gemini` stage, done in place, leaves the store and counters as `GeminiStage` says and returns its outcome, or the callback's exception |
| Router.VisionRouter.RunStage | vision_router.py:76-110 | one iteration of the stage loop, done in place, matches `Stage`: same store, log, counters, outcome, `ocr_used` and `last_stage` |
| Router.VisionRouter.WalkStages | vision_router.py:72-119 | the stage loop and the exhaustion result, done in place, end in exactly the state and outcome of `Finish(WalkFrom(...))` |
| Router.VisionRouter.CheckOrEscalate | vision_router.py:49-119 | `check_or_escalate` leaves exactly the store, escalation log and counters that `Check` computes, and returns its outcome; `runs` is untouched |
| RouterProperties.UnchangedScreenshotSkips | vision_router.py:60-70 | on the fast path the call returns `skipped` with `changed=False` and no fields; it counts one skip and nothing else, logs nothing and runs no stage; it only re-stamps the screenshot hash and `last_seen` of the URL's row |
| RouterProperties.NeedsEscalationIff | vision_router.py:36-47 | `_needs_escalation` fires exactly when the stripped text is empty, the text is shorter than the threshold (equal length does not fire), the confidence is below its threshold, or a non-empty previous hash differs from the new text's hash |
| RouterProperties.SameNormalizedTextSettles | vision_router.py:36-47 | long, confident text that normalises like the text the previous hash came from does not escalate |
| RouterProperties.StageKeepsCounts | vision_router.py:76-110 | one stage keeps the counter bookkeeping: the skip counter stays; the Gemini and cheap-OCR counters grow by one exactly when `gemini` ran or an OCR stage settled; `gemini` runs at most once, last, and ends the call with the callback's result; a settling OCR stage ran last and returns no fields; `ocr_used` records whether an OCR stage ran |
| RouterProperties.OcrKeepsCounts | vision_router.py:78-100 | an OCR stage keeps that counter bookkeeping |
| RouterProperties.GeminiKeepsCounts | vision_router.py:102-110 | the `gemini` stage keeps that counter bookkeeping |
| RouterProperties.OcrColumns | vision_router.py:82 | an OCR stage's upsert sets the screenshot hash and its own text-hash column; every column but those and `last_model` keeps its value, and so does every other row |
| RouterProperties.GeminiColumns | vision_router.py:108 | the `gemini` upsert sets the screenshot hash and keeps every other column except `last_model`, and every other row |
| RouterProperties.OcrKeepsRows | vision_router.py:78-100 | an OCR stage keeps the table invariant: other URLs' rows stay, and each tier's hash column changes only when that tier ran |
| RouterProperties.GeminiKeepsRows | vision_router.py:102-110 | the `gemini` stage keeps that table invariant |
| RouterProperties.StageKeepsRows | vision_router.py:76-110 | one stage of either kind keeps that table invariant |
| RouterProperties.OcrKeepsLog | vision_router.py:83-88 | an OCR stage keeps the log invariant: the log only grows, by one justified row per OCR stage that did not settle |
| RouterProperties.GeminiKeepsLog | vision_router.py:102-110 | the `gemini` stage logs nothing |
| RouterProperties.StageKeepsLog | vision_router.py:76-110 | one stage of either kind keeps the log invariant |
| RouterProperties.WalkKeeps | vision_router.py:76-110 | the whole stage loop keeps the counter, table and log invariants |
| RouterProperties.StageRan | vision_router.py:76-110 | a stage records that it ran exactly when it names an enabled stage, and only an enabled stage ends the call |
| RouterProperties.WalkRuns | vision_router.py:76-110 | the loop runs the enabled stages of a prefix of the order, in order; it stops early only when a stage returned, and that stage ran last |
| RouterProperties.WalkLastStage | vision_router.py:76-77 | once the loop runs out, `last_stage` is the last entry of the order |
| RouterProperties.EnabledStagesMembers | vision_router.py:78-102 | every stage that runs is in the order and is enabled |
| RouterProperties.NoneEnabled | vision_router.py:78-102 | with no enabled stage in the order, no stage runs |
| RouterProperties.CheckWalks | vision_router.py:72-119 | off the fast path the call is the finished stage loop from the stored state; the loop keeps all three invariants and runs the enabled stages of the first `k` order entries |
| RouterProperties.StagesRunInOrder | vision_router.py:76-110 | off the fast path the stages that run are the enabled ones of a prefix of the order, in order; the loop stops before the end only when an OCR stage settled or `gemini` ran, and that stage is the last one run |
| RouterProperties.CheckCounters | vision_router.py:31-34 | off the fast path the skip counter stays; the Gemini counter grows by one exactly when `gemini` ran; the cheap-OCR counter grows by one exactly when an OCR stage settled; never both |
| RouterProperties.GeminiOutcome | vision_router.py:102-110 | when `gemini` runs it runs last and counts one escalation even if the callback raises; the call returns the callback's fields (`{}` when there is no callback or it returns `None`) or its exception; unless it raised, the screenshot hash is stored |
| RouterProperties.OcrSettles | vision_router.py:83-86 | a call settled by OCR returns that stage's name with no fields; the stage ran last, its output passed the test against its own tier's stored hash, and the cheap-OCR counter grew by one |
| RouterProperties.EscalationsLogged | vision_router.py:87-88 | the log grows by exactly one row per OCR stage that ran and did not settle; each row has this URL, the clock, the stage, `next`, `low_conf_or_changed` and the stage's confidence and length, and exists only because the stage failed the test |
| RouterProperties.TierIsolation | vision_router.py:82 | no other URL's row changes; each tier's text-hash column changes only if that tier ran, and then to the hash of its own text |
| RouterProperties.ExhaustionResult | vision_router.py:112-119 | when no stage returns, every enabled stage of the order has run and no counter moves; the call returns `changed` with no fields, with status `last_stage or "ocr"` if OCR ran and `noop` otherwise |
| RouterProperties.DisabledStagesInert | vision_router.py:117-119 | with every stage disabled, a call off the fast path changes neither the store, the log nor the counters, and returns `noop` |
| RouterProperties.CallStoresShot | vision_router.py:68 | a call that returned a decision, on the fast path or after some stage ran, leaves the new screenshot hash in the URL's row |
| RouterProperties.RepeatSkips | vision_router.py:66-70 | after a call that returned a decision, on the fast path or after some stage ran, the same URL with the same bytes is `skipped`, whatever the callback and clock |
| RouterProperties.ExhaustionNamesUnrunStage | vision_router.py:112-116 | with order `paddle, gemini`, Gemini disabled and Paddle reading no text, the call reports `gemini`, although Gemini never ran |
| FootprintStore.Lookup | footprints.py:58-63 | `get` returns nothing exactly for an unknown URL; otherwise every selected column is returned as stored, NULL as `""`, and a NULL `last_seen` as 0 |
| FootprintStore.UpsertInsertsNewRow | footprints.py:73-77 | a new URL gets one row with `first_seen = last_seen = now` and the supplied columns; the others are NULL and the other rows are untouched |
| FootprintStore.UpsertUpdatesOnlySupplied | footprints.py:68-72 | on an existing URL only the supplied columns and `last_seen` change; `first_seen`, every other column and every other row keep their values |
| FootprintStore.UpsertNothingOnExistingFails | footprints.py:70-72 | an existing URL with nothing supplied is an error |
| FootprintStore.UpsertIgnoresNone | footprints.py:67 | passing `None` for a column is the same as not passing it |
| FootprintStore.ApplyColumns | footprints.py:65-78 | column by column, one upsert leaves a row for its URL, sets exactly the supplied columns, keeps the rest and leaves other rows alone |
| FootprintStore.ApplyKeepsLastSeenOrder | footprints.py:66-76 | with the clock not behind any stored `last_seen`, one upsert does not lower any URL's `last_seen`, and the clock stays ahead |
| FootprintStore.ReplayClockAhead | footprints.py:66-76 | after a series of upserts with a clock that never runs backwards, the clock is still not behind any stored `last_seen` |
| FootprintStore.LastSeenMonotone | footprints.py:66-76 | over any series of upserts with a clock that never runs backwards, each URL's `last_seen` is non-decreasing |
| FootprintStore.Truncate | footprints.py:82 | `s[:n]` has at most `n` characters, is a prefix of `s`, and is `s` itself when `s` is short enough |
| FootprintStore.AppendRun | footprints.py:32-38 | a run summary is rejected exactly when its `ts` is already present; otherwise it is appended and the timestamps stay distinct |
| FootprintStore.Footprints.Open | footprints.py:52-56 | opening a store gives the tables it already holds |
| FootprintStore.Footprints.Upsert | footprints.py:65-78 | `upsert` changes `pages` as `Apply` says, reports failure exactly when the statement fails, and leaves both logs alone |
| FootprintStore.Footprints.RecordEscalation | footprints.py:80-83 | `record_escalation` appends exactly one row with the clock and `info` cut to 2000 characters; `pages` and `runs` are unchanged |
| FootprintStore.Footprints.RecordRunSummary | footprints.py:85-88 | `record_run_summary` appends one row keyed by the clock, or fails without change when that `ts` already exists |
| VisionOcr.KeepCharsKept | vision_ocr.py:19 | the character filter keeps only letters, digits, whitespace and `-_/.:@` taken from its input |
| VisionOcr.KeepCharsOfKept | vision_ocr.py:19 | the filter changes nothing in text made only of kept characters |
| VisionOcr.JoinSingleSpaced | vision_ocr.py:19-20 | joining non-empty words that hold no whitespace with single spaces gives single-spaced text |
| VisionOcr.NormalizeTextShape | vision_ocr.py:16-20 | normalised text holds only lowercase letters, digits, single spaces and `-_/.:@`; it has no space at either end and no two spaces in a row; empty input gives `""` |
| VisionOcr.NormalizeTextIdempotent | vision_ocr.py:16-20 | normalising twice is the same as normalising once |
| VisionOcr.TextShaRespectsNormalization | vision_ocr.py:22-23 | texts that normalise alike have the same `text_sha` |
| VisionOcr.TextShaOfNormalized | vision_ocr.py:22-23 | `text_sha` of normalised text equals `text_sha` of the raw text |
| VisionOcr.SumBounds | vision_ocr.py:56 | a sum of scores in [0, 1] lies between 0 and the number of scores |
| VisionOcr.MeanInUnit | vision_ocr.py:56 | the mean of scores in [0, 1], or 0.0 for none, lies in [0, 1] |
| VisionOcr.PaddleRun | vision_ocr.py:45-57 | the Paddle aggregation loop returns `PaddleText`: the kept lines joined by newlines and stripped, their mean score, and the count of kept lines |
| VisionOcr.BlockAligned | vision_ocr.py:48-53 | within a block, the kept texts and kept scores have equal length |
| VisionOcr.PaddleAligned | vision_ocr.py:45-53 | every kept line has exactly one score, so the two lists have equal length |
| VisionOcr.BlockLinesNonEmpty | vision_ocr.py:51-52 | a block keeps only non-empty texts |
| VisionOcr.PaddleLinesNonEmpty | vision_ocr.py:51-52 | only non-empty texts are kept |
| VisionOcr.BlockScoresInUnit | vision_ocr.py:50-53 | a block's kept scores lie in [0, 1] when the detector's scores do |
| VisionOcr.PaddleScoresInUnit | vision_ocr.py:45-53 | all kept scores lie in [0, 1] when the detector's scores do |
| VisionOcr.PaddleConfidence | vision_ocr.py:55-57 | Paddle confidence lies in [0, 1] when the scores do; with no kept line it is 0.0 and the text is empty |
| VisionOcr.AzureCollectBlock | vision_ocr.py:88-95 | the loop over one block's lines appends the stripped non-blank texts and all word confidences |
| VisionOcr.AzureRun | vision_ocr.py:85-99 | the Azure aggregation loop returns `AzureText`: the kept lines joined and stripped, the mean word confidence (or 0.9/0.0), and the count of kept lines |
| VisionOcr.AzureBlockStep | vision_ocr.py:88-95 | one more line adds its stripped text if it is non-blank, and always adds its word confidences |
| VisionOcr.AzureReadStep | vision_ocr.py:87-95 | one more block adds its lines and confidences after those before it |
| VisionOcr.AzureBlockLinesClean | vision_ocr.py:89-91 | a block keeps only non-empty, stripped lines |
| VisionOcr.AzureLinesClean | vision_ocr.py:87-91 | every kept Azure line is non-empty and stripped |
| VisionOcr.JoinOfCleanLines | vision_ocr.py:97 | a newline-join of non-empty stripped lines is itself stripped |
| VisionOcr.AzureTextIsJoin | vision_ocr.py:97-99 | the Azure text is exactly the newline-join of the kept lines, in input order, with no stripping left to do; `lines` is their count |
| VisionOcr.WordConfsBound | vision_ocr.py:93 | collected word confidences lie in [0, 1] when the given ones do |
| VisionOcr.AzureBlockConfsBound | vision_ocr.py:88-95 | a block's collected confidences lie in [0, 1] when its words' do |
| VisionOcr.AzureConfsBound | vision_ocr.py:87-95 | all collected confidences lie in [0, 1] when the words' do |
| VisionOcr.AzureConfidenceInUnit | vision_ocr.py:98 | Azure confidence lies in [0, 1] when the word confidences do |
| VisionOcr.AzureConfidenceFallback | vision_ocr.py:98 | with no word confidence at all, Azure confidence is 0.9 if some line was kept and 0.0 otherwise |
| VisionOcr.AzureBlankLineStillScores | vision_ocr.py:89-95 | a line with blank text adds no text, but its word confidences still set the confidence |
| JobsXml.FieldsTagged | jobs_xml.py:61-89 | there are 22 field keys and each has a tag |
| JobsXml.FieldMaskOf | jobs_xml.py:157 | the mask applied is never empty: a given mask is used as is, and an empty or missing one selects every field |
| JobsXml.FilterParamsExact | jobs_xml.py:229-235 | exactly the query pairs that pass the keep rule survive, and no tracker survives |
| JobsXml.FilterParamsAppend | jobs_xml.py:229-235 | the filter works piece by piece, so kept pairs keep their relative order |
| JobsXml.FilterParamsIdempotent | jobs_xml.py:229-235 | filtering kept pairs again keeps them all |
| JobsXml.KeepParams | jobs_xml.py:229-235 | the query loop builds exactly the filtered pairs, in order |
| JobsXml.CanonicalPartsMeaning | jobs_xml.py:229-237 | the canonical URL keeps scheme, host, path and params; it keeps exactly the kept query pairs; the fragment survives only if it is empty or names a job, and otherwise becomes empty |
| JobsXml.CanonicalPartsIdempotent | jobs_xml.py:229-237 | canonicalising canonical components changes nothing |
| JobsXml.CanonicalizeIdempotent | jobs_xml.py:220-237 | if the codec reads back what it writes, canonicalising a canonical URL changes nothing |
| JobsXml.CanonicalizeUrl | jobs_xml.py:220-237 | `canonicalize_url` returns the stripped input when parsing fails, and otherwise rebuilds the URL from the canonical components |
| JobsXml.FirstParse | jobs_xml.py:142-147 | the format found is the first one that parses; none is found only when no format parses |
| JobsXml.FirstParseAt | jobs_xml.py:142-147 | a format that parses, with none parsing before it, is the one found |
| JobsXml.Padded | jobs_xml.py:145 | zero-padding gives only digits, at least `width` of them |
| JobsXml.PaddedLength | jobs_xml.py:145 | a number below `10^width` takes exactly `width` digits |
| JobsXml.PaddedValue | jobs_xml.py:145 | reading the padded digits back gives the number |
| JobsXml.RenderShape | jobs_xml.py:145 | a valid date renders as `YYYY-MM-DD` and its three fields read back |
| JobsXml.RenderedIsNormal | jobs_xml.py:131-148 | a rendered `YYYY-MM-DD` date is not blank and normalises to itself |
| JobsXml.UnparsedIsNormal | jobs_xml.py:142-148 | stripped input that no format parses is returned unchanged |
| JobsXml.NormalizeDateIdempotent | jobs_xml.py:131-148 | the normalised date is `""` exactly for blank input; for a parser that reads ISO dates back, normalising twice is the same as once |
| JobsXml.ParseFirst | jobs_xml.py:142-147 | the format loop returns the date of the first format that parses, or nothing when none does |
| JobsXml.NormalizeDateStr | jobs_xml.py:131-148 | blank input gives `""`; otherwise the first format that parses is rendered `YYYY-MM-DD`; failing that, the stripped input is returned |
| JobsXml.ChildTextDate | jobs_xml.py:190-198 | a selected date field is written normalised; skipping normalisation for an empty value changes nothing, because an empty date normalises to `""` |
| JobsXml.ChildrenShape | jobs_xml.py:186-199 | a new element has one child per field key, in key order, with its tag; fields outside the mask are empty, selected dates are normalised, and other selected fields are written as given |
| JobsXml.NewJobs | jobs_xml.py:175-199 | one element per record, in record order |
| JobsXml.Ids | jobs_xml.py:203-204 | the ids of the jobs, position by position |
| JobsXml.KeysBy | jobs_xml.py:255-256 | the key of each job, position by position |
| JobsXml.ApplyKeys | jobs_xml.py:255-256 | each job's canonical stripped `ApplyUrl` (`""` when missing), position by position |
| JobsXml.FindFirstKey | jobs_xml.py:255-257 | the scan returns the position of the first job whose key equals the target, or nothing when there is none |
| JobsXml.Touch | jobs_xml.py:205-207 | marking a job refreshes `lastSeen`, rewrites `active` only when a value is given, and changes no other attribute and no child |
| JobsXml.MarkedAtMeaning | jobs_xml.py:201-208 | marking changes only the job found, and with no job found it changes nothing |
| JobsXml.KeySetMembers | jobs_xml.py:243-248 | a value is collected exactly when some job's non-blank key has it as canonical form |
| JobsXml.SeenSetMembers | jobs_xml.py:239-249 | a URL is seen exactly when some job's non-blank stripped `ApplyUrl` canonicalises to it |
| JobsXml.ApplyUrlTag | jobs_xml.py:61-89 | only the 16th field key, `apply_url`, is written under the `ApplyUrl` tag |
| JobsXml.NewJobApplyUrl | jobs_xml.py:186-199 | a new element's `ApplyUrl` text is the record's apply URL when that field is selected, and empty otherwise |
| JobsXml.NewJobApplyKey | jobs_xml.py:186-199 | that text, stripped, is the key `seen_apply_urls` reads |
| JobsXml.SeenSetSnoc | jobs_xml.py:245-248 | one job more adds its canonical apply URL when it is not blank |
| JobsXml.SeenSetGrows | jobs_xml.py:174-199 | appending jobs never removes a seen URL |
| JobsXml.AppendedRecordSeen | jobs_xml.py:174-199 | an appended record's selected, non-blank apply URL is seen afterwards |
| JobsXml.AppendedApplyUrlsSeen | jobs_xml.py:174-199 | after appending, every appended record with a selected, non-blank apply URL is seen, and the URLs seen before stay seen |
| JobsXml.SeenIsMarkable | jobs_xml.py:239-262 | every seen URL is one `mark_seen_by_apply_url` finds a job for |
| JobsXml.BlankApplyUrlPicksUnlinkedJob | jobs_xml.py:254-257 | a blank argument is not rejected: unless an earlier job's canonical URL equals the canonical form of `""`, it matches the first job with a blank or missing apply URL |
| JobsXml.JobsXML.constructor | jobs_xml.py:152-157 | a feed starts with the jobs on disk and the mask `set(field_mask or []) or set(ALL_FIELD_KEYS)` |
| JobsXml.JobsXML.WriteChildren | jobs_xml.py:186-199 | the field loop builds the children `ChildrenShape` describes |
| JobsXml.JobsXML.WriteJob | jobs_xml.py:178-199 | one element carries the id, the state, the district (or the company name), the district id, `active` and `lastSeen` (or the clock), then its children |
| JobsXml.JobsXML.AppendJobs | jobs_xml.py:174-199 | `append_jobs` appends one element per record, in order, and keeps the existing jobs |
| JobsXml.JobsXML.MarkSeen | jobs_xml.py:201-208 | `mark_seen` touches only the first job with that id, and changes nothing when there is none |
| JobsXml.JobsXML.SeenApplyUrls | jobs_xml.py:239-249 | `seen_apply_urls` is exactly the set of canonical non-blank stripped apply URLs |
| JobsXml.JobsXML.MarkSeenByApplyUrl | jobs_xml.py:251-262 | `mark_seen_by_apply_url` touches only the first job whose canonical apply URL equals the canonical target and returns true; with no match it returns false and changes nothing |
| Seqs.FindByKey | district_index.py:72 | `row.get(k)` and `findtext(tag)` find nothing exactly when no pair carries the key, and a value found is filed under that key |
| Seqs.FindByKeyAt | jobs_xml.py:246 | the pair found is the first that carries the key |
| DistrictIndex.PutHeaders | district_index.py:65 | `norm[kk] = vv` adds `kk` to the keys, last, only when it is new; an existing key keeps its position |
| DistrictIndex.PutDistinct | district_index.py:65 | assigning a key keeps the dict's keys distinct |
| DistrictIndex.PutGet | district_index.py:65 | after `norm[kk] = vv`, `kk` reads `vv` and every other key reads as before |
| DistrictIndex.BuildDistinct | district_index.py:60-65 | the dict built by the assignments has distinct keys |
| DistrictIndex.BuildLast | district_index.py:60-65 | the dict holds under each key the value of the last assignment to it |
| DistrictIndex.BuildAbsent | district_index.py:60-65 | a key never assigned is not in the dict |
| DistrictIndex.ReadRowDistinct | district_index.py:58-66 | a row read from the file has distinct headers |
| DistrictIndex.ReadRowLast | district_index.py:59-66 | over the items of a `DictReader` row, a header repeated after normalisation reads the stripped value of its last item |
| DistrictIndex.ReadRowAbsent | district_index.py:59-66 | a header no item normalises to is not found |
| DistrictIndex.PutNew | district_index.py:65 | assigning a key the dict does not hold appends it last |
| DistrictIndex.BuildOfDistinct | district_index.py:58 | `dict(zip(fieldnames, row))` over distinct raw headers holds exactly the columns, in column order |
| DistrictIndex.ReadRecordOfDistinct | district_index.py:58-66 | with distinct raw headers, reading a record is normalising its columns as they stand |
| DistrictIndex.RepeatedRawHeader | district_index.py:58-66 | raw headers `A,a,A` with values `1,2,3` read `a` as `2`: `DictReader` keeps the last `A` at the first `A`'s position, and normalisation then lets the later `a` win |
| DistrictIndex.NormalizeRow | district_index.py:60-66 | the loop that builds `norm` gives exactly `ReadRow` |
| DistrictIndex.FromKeysFirstHit | district_index.py:69-74 | the requested keys are tried in argument order, stripped and lower-cased: the first that hits decides |
| DistrictIndex.FromKeysNoHit | district_index.py:69-74 | when no requested key hits, the key loop gives nothing |
| DistrictIndex.FirstValueMeaning | district_index.py:78-81 | the fallback is the first non-empty value in column order (every value before it is empty); there is none exactly when every value is empty |
| DistrictIndex.FirstValueAt | district_index.py:78-80 | a non-empty value with only empty values before it is the fallback |
| DistrictIndex.FromKeysSound | district_index.py:69-74 | a value found by key is a non-empty value of the row |
| DistrictIndex.FirstNonEmptyMeaning | district_index.py:68-81 | `_first_nonempty` gives `None` exactly when there is no default and every value is empty; any other result is the default or a non-empty value of the row |
| DistrictIndex.FindFirstNonEmpty | district_index.py:68-81 | the two loops of `_first_nonempty` return the keyed value, else the default, else the first non-empty value |
| DistrictIndex.PrefixNoCaseMeaning | district_index.py:89 | the character-wise test is `s.lower().startswith(p)` |
| DistrictIndex.PrefixNoCaseOwn | district_index.py:90 | a lower-case prefix followed by anything passes the test |
| DistrictIndex.HasSchemeMeaning | district_index.py:89 | the scheme test is the lower-cased `startswith(("http://", "https://"))` |
| DistrictIndex.HttpsPrefixed | district_index.py:90 | `"https://" + t` has a scheme, and is its own strip when `t` does not end in whitespace |
| DistrictIndex.NormalizeHomepageEmpty | district_index.py:83-88 | `_normalize_homepage` gives `""` exactly for `None` or blank input |
| DistrictIndex.NormalizeHomepageScheme | district_index.py:83-91 | any non-empty result has an `http://` or `https://` scheme, in any case; input that has one comes back stripped and otherwise unchanged |
| DistrictIndex.NormalizeHomepageIdempotent | district_index.py:83-91 | `_normalize_homepage` is idempotent |
| DistrictIndex.NormalizeHomepageKeeps | district_index.py:83-91 | a stripped string with a scheme is its own normal form |
| DistrictIndex.NormalizeHomepageAddsScheme | district_index.py:89-90 | input without a scheme gets `https://` in front, with leading slashes dropped, and the result is stripped |
| DistrictIndex.ListHasMeaning | district_index.py:105 | the key-by-key search is membership |
| DistrictIndex.HasAnyPrefixMeaning | district_index.py:105 | the prefix-by-prefix test is `startswith` of a tuple |
| DistrictIndex.IsCareerKeyMeaning | district_index.py:96-105 | a header counts exactly when it is a career header or starts with `career`, `jobs`, `job`, `hr`, `ats` or `portal` |
| DistrictIndex.PieceLen | district_index.py:107 | a piece ends at the first `;` or `|`, or at the end: it holds no separator and is followed by one or by nothing |
| DistrictIndex.PieceLenAt | district_index.py:107 | a separator-free stretch followed by a separator or the end is exactly the leading piece |
| DistrictIndex.SplitSepsFree | district_index.py:107 | a cell with no `;` or `|` is a single piece |
| DistrictIndex.SplitSepsJoin | district_index.py:106-107 | splitting undoes a join with `;` or `|`: separator-free pieces, none empty but possibly the first and last, come back exactly, so `a;b` gives `a` and `b` |
| DistrictIndex.SepRunLen | district_index.py:107 | the separator run after a piece is non-empty when a separator follows |
| DistrictIndex.RemoveSepsAppend | district_index.py:107 | removing separators works piece by piece |
| DistrictIndex.PieceLenFree | district_index.py:107 | the leading piece holds no separator |
| DistrictIndex.SepRunRemoved | district_index.py:107 | the leading separator run vanishes when separators are removed |
| DistrictIndex.RemoveSepsStep | district_index.py:107 | a piece, a separator run and the rest lose exactly the separators |
| DistrictIndex.SplitSepsPieces | district_index.py:107 | splitting on runs of `;` and `|` gives pieces with no separator that, concatenated, are the cell without its separators |
| DistrictIndex.Normalized | district_index.py:108-111 | one fixed-up URL per piece |
| DistrictIndex.NormalizedAt | district_index.py:109-111 | the fix-up of each piece is `_normalize_homepage` of it |
| DistrictIndex.DedupMeaning | district_index.py:112-113 | dedup keeps exactly the non-empty values, once each, in order of first occurrence |
| DistrictIndex.NormalizedMembers | district_index.py:108-111 | a fixed-up URL is the normal form of some piece |
| DistrictIndex.RowUrlsMembers | district_index.py:102-111 | a URL is offered exactly when some non-empty career cell has a piece that normalises to it |
| DistrictIndex.CareerUrlsShape | district_index.py:101-114 | career URLs have no duplicates and no empty strings; each has an `http(s)://` scheme and is offered by the row; they come in first-occurrence order |
| DistrictIndex.CareerUrlsMembers | district_index.py:93-114 | a URL is collected exactly when it is non-empty and some non-empty career cell has a piece that normalises to it |
| DistrictIndex.DedupSnoc | district_index.py:112-113 | one value more is appended only when it is non-empty and new |
| DistrictIndex.FixUpIsNormalize | district_index.py:109-111 | the loop's fix-up of a piece equals `_normalize_homepage` of that piece |
| DistrictIndex.AddPiecesStep | district_index.py:108-113 | one piece more appends its fix-up when it is non-empty and new |
| DistrictIndex.AddPieces | district_index.py:108-113 | the inner loop extends the deduplicated list by the fixed-up pieces, new ones only |
| DistrictIndex.RowUrlsStep | district_index.py:102-107 | one cell more offers its pieces only when it is non-empty under a career header |
| DistrictIndex.CollectCareerUrls | district_index.py:93-114 | `_collect_career_urls` returns the deduplicated URLs the row offers |
| DistrictIndex.DistrictNameMeaning | district_index.py:131 | the name is the stripped name given, or `Unknown District` when that is missing or blank; it is never empty |
| DistrictIndex.UnknownDistrictTrimmed | district_index.py:131 | the default name is already stripped |
| DistrictIndex.MakeDistrict | district_index.py:129-137 | the district keeps the state and career URLs; its name and homepage are the defaulted ones; each optional field is `None` exactly when the looked-up value is missing or empty, and otherwise that value |
| DistrictIndex.RowsToDistricts | district_index.py:116-137 | one district per record of the file, in record order, each read from the dict `_read_csv_rows` makes of the record's `DictReader` row |
| DistrictIndex.EmailFallsBackToFirstValue | district_index.py:124 | when no e-mail header has a value, the e-mail is the first non-empty value of the row, from whatever column |
| DistrictIndex.LexLessTrans | district_index.py:156 | string order is transitive |
| DistrictIndex.LexLessIrreflexive | district_index.py:156 | no string is before itself |
| DistrictIndex.KeyLessTrans | district_index.py:156 | the sort key order is transitive |
| DistrictIndex.BestFuzzyMeaning | district_index.py:153-157 | the fuzzy choice is a candidate that matches and that no matching candidate beats (shortest name, ties by lower-cased name), and, as the sort is stable, every matching candidate before it in glob order has a strictly greater key; there is none only when no candidate matches |
| DistrictIndex.LexLessTotal | district_index.py:156 | Python's string order is total |
| DistrictIndex.KeyLessBefore | district_index.py:156 | a key below `b` is below every key not below `b` |
| DistrictIndex.Lowered | district_index.py:150 | the lower-cased names, position by position |
| DistrictIndex.StateCsvBlank | district_index.py:140-142 | a blank state selects no file |
| DistrictIndex.StateCsvExact | district_index.py:144-146 | an existing `{STATE}.csv` wins over every other file |
| DistrictIndex.StateCsvCaseInsensitive | district_index.py:148-151 | otherwise the first file named `{state}.csv`, ignoring case, wins |
| DistrictIndex.StateCsvFuzzy | district_index.py:153-158 | failing both, the best fuzzy match is chosen, or none |
| DistrictIndex.FindStateCsv | district_index.py:139-158 | the loops of `_find_state_csv` return the file the selection order picks |
| Strings.LStrip | district_index.py:86 | the leading part of `strip()`: the result is a suffix of the input, what it drops is all whitespace, and it does not start with whitespace |
| Strings.RStrip | district_index.py:86 | the trailing part of `strip()`: the result is a prefix of the input, what it drops is all whitespace, and it does not end with whitespace |
| Strings.Strip | district_index.py:86 | `strip()` leaves no whitespace at either end |
| Strings.LStripChar | district_index.py:90 | `lstrip("/")` drops a leading run of `/` only: the result is a suffix of the input that does not start with `/`, and every character dropped is `/` |
| Strings.StripEmptyIffBlank | vision_router.py:38 | `s.strip()` is empty exactly when `s` is all whitespace |
| Strings.StripIdempotent | district_index.py:86 | stripping twice is the same as stripping once |
| Strings.SplitWords | vision_ocr.py:19-20 | every word of `split()` is non-empty, holds no whitespace, and is made of characters of the input |
| Strings.SplitJoin | vision_ocr.py:19-20 | splitting a single-space join of clean words gives the words back |

## Left out

- Characters are ASCII. `lower`, `upper`, `isalnum` and `isspace` follow their ASCII meaning;
  Unicode case mapping and Unicode whitespace are not modelled.
- The SHA-256 and SHA-1 digests, the Paddle and Azure detectors (image decoding, inference,
  the HTTPS call and `raise_for_status`) and `json.dumps` are abstract functions. Timings and
  the `extra` fields other than `lines` are not modelled.
- The router sees each analyzer as a function of the screenshot bytes returning its `OCRText`.
  `PaddleRun` and `AzureRun` model, separately, how that `OCRText` is built from detector output.
- Real numbers stand for Python floats, so rounding is not modelled.
- The `previous_fp` parameter of `check_or_escalate` is unused and is not modelled. Logging is
  not modelled.
- An exception from an analyzer, or from the store, is not modelled. An exception from the
  Gemini callback is: it ends the call.
- SQLite is not modelled: connection, commit and SQL text are left out. The store is a map plus
  two sequences, and `int(time.time())` is a clock parameter. One router call reads the clock
  once, so all of a call's writes share that reading.
- `upsert` with nothing supplied on an existing URL is modelled as a failing call that changes
  nothing, not as a precondition, because the source handles that input (it raises).
- `urlparse`, `parse_qsl`, `urlencode` and `urlunparse` are one abstract codec over parsed
  components. Percent-encoding is not modelled. `CanonicalizeIdempotent` needs the codec to
  read back what it writes.
- `strptime` is an abstract parser and only the choice among formats is modelled.
  `strftime("%Y")` is modelled as zero-padded to four digits.
- Lxml is not modelled: parse, write, indentation and the file on disk are left out. The feed is
  the sequence of `Job` elements. `uuid4()` ids and `_now_iso()` are parameters.
- `_ensure_tree` is not modelled: the constructor takes the parsed jobs, or none.
- `JobsXml.JobsXML.WriteJob`: a record is a map of field strings. The `hasattr`/`dict` fallback
  of `getattr` is not modelled separately.
- CSV reading is not modelled: decoding, sniffing and the parsing of records. A record reaches
  the model as the list of its `(raw header, value)` columns in column order. `ReadRecord` first
  builds `DictReader`'s `dict(zip(fieldnames, row))`, where a repeated raw header keeps its first
  column's position and its last column's value, then `ReadRow` normalises that dict's items, so
  a header repeated after normalisation keeps the position of its first item and the value of
  its last. Extra or missing columns (`restkey`, `restval`) and a `None` header or value from
  `DictReader` are not modelled: a record has one header per value.
- `DistrictIndex.FirstNonEmpty` and `DistrictIndex.CareerUrls` take any list of pairs. They agree
  with the source on dicts, that is on rows with `DistinctHeaders`, which `RowToDistrict`,
  `CollectCareerUrls` and `EmailFallsBackToFirstValue` require and `ReadRow` provides.
- Path resolution, `exists`, `glob` and the async `iter_districts` are not modelled. `_find_state_csv`
  takes whether `{STATE}.csv` exists and the names the glob returns.
- `DistrictIndex.FindStateCsv`: the fuzzy regular expression is modelled with `\b` between
  ASCII word characters, on lower-cased names. `re.I` on already lower-cased text changes nothing.
- `DistrictIndex.RowsToDistricts` states the districts of the records, each read through `ReadRecord`.
  The generator's laziness is not modelled.
- `DistrictIndex.MakeDistrict`: the contract refers to `DistrictName` and `NormalizeHomepage`;
  what those give is stated by `DistrictNameMeaning` and the `NormalizeHomepage` lemmas.
- `ImgSha` is the SHA-1 digest of the raw bytes, with no normalisation. The digest is abstract, so
  the model states nothing more about it than its use by the fast path (`UnchangedScreenshotSkips`,
  `RepeatSkips`).
- `imagescrape1.py` is not part of this model.
