/**
 * The fingerprint store (footprints.py): a `pages` table keyed by URL holding
 * the last hashes seen for each page, and two append-only logs, `escalations`
 * and `runs`.
 *
 * The SQLite database becomes three fields of a `Footprints` object: a map from
 * URL to row (the primary key makes the map the natural shape), and two
 * sequences. A SQL NULL column is a key missing from a row's `cols` map. The
 * clock `int(time.time())` is a `now` parameter of every writing operation.
 */
module FootprintStore {
  import opened Wrappers

  /** The nullable text columns of `pages` (everything except the key and the two timestamps). */
  datatype Column =
    | CanonicalUrl | LastModel | ScreenshotSha | TextShaPaddle | TextShaAzure
    | Etag | LastModified | Notes

  /** One `pages` row, without its key; a missing column or timestamp is NULL. */
  datatype PageRow = PageRow(firstSeen: Option<int>, lastSeen: Option<int>, cols: map<Column, string>)

  type Pages = map<string, PageRow>

  /** `PageFP`: what `get` hands back, with NULL text read as "" and NULL `last_seen` as 0. */
  datatype PageFP = PageFP(
    url: string,
    screenshotSha: string,
    textShaPaddle: string,
    textShaAzure: string,
    lastModel: string,
    canonicalUrl: string,
    etag: string,
    lastModified: string,
    lastSeen: int)

  /** `row[i] or ""` */
  function Col(row: PageRow, c: Column): string {
    if c in row.cols then row.cols[c] else ""
  }

  /** The `PageFP` attribute that reads column `c` (`notes` is not selected by `get`). */
  function Field(fp: PageFP, c: Column): Option<string> {
    match c
    case CanonicalUrl => Some(fp.canonicalUrl)
    case LastModel => Some(fp.lastModel)
    case ScreenshotSha => Some(fp.screenshotSha)
    case TextShaPaddle => Some(fp.textShaPaddle)
    case TextShaAzure => Some(fp.textShaAzure)
    case Etag => Some(fp.etag)
    case LastModified => Some(fp.lastModified)
    case Notes => None
  }

  /**
   * `Footprints.get`: nothing for an unknown URL; for a known one, every selected
   * column as stored, NULL read as "", and `last_seen` with NULL read as 0.
   */
  function Lookup(pages: Pages, url: string): (r: Option<PageFP>)
    ensures r.None? <==> url !in pages
    ensures r.Some? ==> r.value.url == url && r.value.lastSeen == pages[url].lastSeen.GetOr(0)
    ensures r.Some? ==> forall c :: c != Notes ==>
      Field(r.value, c) == Some(if c in pages[url].cols then pages[url].cols[c] else "")
  {
    if url !in pages then None
    else
      var row := pages[url];
      Some(PageFP(url, Col(row, ScreenshotSha), Col(row, TextShaPaddle), Col(row, TextShaAzure),
                  Col(row, LastModel), Col(row, CanonicalUrl), Col(row, Etag), Col(row, LastModified),
                  row.lastSeen.GetOr(0)))
  }

  /** The keyword arguments of `upsert` after dropping those whose value is `None`. */
  function Supplied(kvs: map<Column, Option<string>>): map<Column, string> {
    map c | c in kvs && kvs[c].Some? :: kvs[c].value
  }

  /**
   * The `pages` table after `upsert(url, **kvs)` at time `now`, or `None` when the
   * statement fails: an existing URL with nothing supplied gives `SET , last_seen=?`,
   * which SQLite rejects.
   */
  function Upserted(pages: Pages, url: string, kvs: map<Column, Option<string>>, now: int): Option<Pages> {
    var vals := Supplied(kvs);
    if url in pages then
      if vals == map[] then None
      else Some(pages[url := pages[url].(lastSeen := Some(now), cols := pages[url].cols + vals)])
    else Some(pages[url := PageRow(Some(now), Some(now), vals)])
  }

  /** A new URL gets one row: first and last seen are `now`, supplied columns are set, the rest are NULL. */
  lemma UpsertInsertsNewRow(pages: Pages, url: string, kvs: map<Column, Option<string>>, now: int)
    requires url !in pages
    ensures Upserted(pages, url, kvs, now).Some?
    ensures var p := Upserted(pages, url, kvs, now).value;
      && p.Keys == pages.Keys + {url}
      && p[url].firstSeen == Some(now) && p[url].lastSeen == Some(now)
      && (forall c :: c in kvs && kvs[c].Some? ==> c in p[url].cols && p[url].cols[c] == kvs[c].value)
      && (forall c :: !(c in kvs && kvs[c].Some?) ==> c !in p[url].cols)
      && (forall u :: u in pages ==> p[u] == pages[u])
  {
  }

  /**
   * On an existing URL with at least one supplied value, only the supplied columns
   * and `last_seen` change: `first_seen` and every other column keep their values,
   * and no other row changes.
   */
  lemma UpsertUpdatesOnlySupplied(pages: Pages, url: string, kvs: map<Column, Option<string>>, now: int)
    requires url in pages
    requires exists c :: c in kvs && kvs[c].Some?
    ensures Upserted(pages, url, kvs, now).Some?
    ensures var p := Upserted(pages, url, kvs, now).value;
      && p.Keys == pages.Keys
      && p[url].firstSeen == pages[url].firstSeen
      && p[url].lastSeen == Some(now)
      && (forall c :: c in kvs && kvs[c].Some? ==> c in p[url].cols && p[url].cols[c] == kvs[c].value)
      && (forall c :: !(c in kvs && kvs[c].Some?) ==>
            (c in p[url].cols <==> c in pages[url].cols) && (c in p[url].cols ==> p[url].cols[c] == pages[url].cols[c]))
      && (forall u :: u in pages && u != url ==> p[u] == pages[u])
  {
    var c :| c in kvs && kvs[c].Some?;
    assert c in Supplied(kvs);
  }

  /** An existing URL with nothing supplied is an error, and the table stays as it was. */
  lemma UpsertNothingOnExistingFails(pages: Pages, url: string, kvs: map<Column, Option<string>>, now: int)
    requires url in pages
    requires forall c :: c in kvs ==> kvs[c].None?
    ensures Upserted(pages, url, kvs, now).None?
  {
    assert Supplied(kvs) == map[];
  }

  /** Passing `None` for a column is the same as not passing it: `None` never clears a field. */
  lemma UpsertIgnoresNone(pages: Pages, url: string, kvs: map<Column, Option<string>>, c: Column, now: int)
    requires c in kvs && kvs[c].None?
    ensures Upserted(pages, url, kvs, now) == Upserted(pages, url, kvs - {c}, now)
  {
    assert Supplied(kvs) == Supplied(kvs - {c});
  }

  /** `last_seen` as the monotonicity argument reads it: NULL, or no row, as 0. */
  function LastSeenOf(pages: Pages, url: string): int {
    if url in pages then pages[url].lastSeen.GetOr(0) else 0
  }

  /** The clock is not behind any stored `last_seen`. */
  predicate ClockAhead(pages: Pages, now: int) {
    forall u :: u in pages ==> LastSeenOf(pages, u) <= now
  }

  /** One upsert request: its URL, keyword arguments and clock reading (seconds since the epoch). */
  datatype UpsertCall = UpsertCall(url: string, kvs: map<Column, Option<string>>, now: nat)

  /** The table after one call; a failing call leaves it unchanged. */
  function Apply(pages: Pages, op: UpsertCall): Pages {
    var r := Upserted(pages, op.url, op.kvs, op.now);
    if r.Some? then r.value else pages
  }

  /** Column `c` of `url`'s row, `None` when the row or the column is missing. */
  function ColState(pages: Pages, url: string, c: Column): Option<string> {
    if url in pages && c in pages[url].cols then Some(pages[url].cols[c]) else None
  }

  /**
   * Seen column by column, one call always leaves a row for its URL, sets exactly
   * the columns it supplies a value for, keeps every other column of that row, and
   * leaves every other row as it was (a failing call changes nothing, which is
   * the same thing, since it supplies nothing).
   */
  lemma ApplyColumns(pages: Pages, op: UpsertCall)
    ensures op.url in Apply(pages, op)
    ensures forall c :: (ColState(Apply(pages, op), op.url, c) ==
      if c in op.kvs && op.kvs[c].Some? then Some(op.kvs[c].value) else ColState(pages, op.url, c))
    ensures forall u :: u != op.url ==> (u in Apply(pages, op) <==> u in pages) && (u in pages ==> Apply(pages, op)[u] == pages[u])
  {
    var vals := Supplied(op.kvs);
    var p := Apply(pages, op);
    forall c ensures ColState(p, op.url, c) == if c in op.kvs && op.kvs[c].Some? then Some(op.kvs[c].value) else ColState(pages, op.url, c) {
      if c in op.kvs && op.kvs[c].Some? {
        assert c in vals && vals != map[];
      } else {
        assert c !in vals;
      }
    }
  }

  /** The table after a series of calls, in order. */
  function Replay(pages: Pages, ops: seq<UpsertCall>): Pages {
    if ops == [] then pages else Apply(Replay(pages, ops[..|ops| - 1]), ops[|ops| - 1])
  }

  /** With the clock not behind the table, one upsert moves no `last_seen` backwards
      and leaves the clock still not behind. */
  lemma ApplyKeepsLastSeenOrder(pages: Pages, op: UpsertCall)
    requires ClockAhead(pages, op.now)
    ensures forall u :: LastSeenOf(pages, u) <= LastSeenOf(Apply(pages, op), u)
    ensures ClockAhead(Apply(pages, op), op.now)
  {
    var p := Apply(pages, op);
    forall u ensures LastSeenOf(pages, u) <= LastSeenOf(p, u) {
      if u in pages {
        assert LastSeenOf(pages, u) <= op.now;
      }
    }
  }

  predicate NonDecreasingClock(ops: seq<UpsertCall>) {
    forall i, j :: 0 <= i < j < |ops| ==> ops[i].now <= ops[j].now
  }

  lemma {:induction false} ReplayClockAhead(pages: Pages, ops: seq<UpsertCall>, t: int)
    requires ops != [] && ClockAhead(pages, ops[0].now) && NonDecreasingClock(ops)
    requires forall i :: 0 <= i < |ops| ==> ops[i].now <= t
    ensures ClockAhead(Replay(pages, ops), t)
  {
    var init := ops[..|ops| - 1];
    var last := ops[|ops| - 1];
    if init == [] {
      assert Replay(pages, init) == pages;
    } else {
      ReplayClockAhead(pages, init, last.now);
    }
    ApplyKeepsLastSeenOrder(Replay(pages, init), last);
  }

  /**
   * With a clock that never runs backwards (and starts no earlier than the stored
   * timestamps), `last_seen` of every URL is non-decreasing over any series of upserts.
   */
  lemma {:induction false} LastSeenMonotone(pages: Pages, ops: seq<UpsertCall>, i: nat, j: nat, url: string)
    requires ops != [] && ClockAhead(pages, ops[0].now) && NonDecreasingClock(ops)
    requires i <= j <= |ops|
    ensures LastSeenOf(Replay(pages, ops[..i]), url) <= LastSeenOf(Replay(pages, ops[..j]), url)
  {
    if i < j {
      LastSeenMonotone(pages, ops, i, j - 1, url);
      var pre := ops[..j - 1];
      assert ops[..j][..j - 1] == pre;
      if pre == [] {
        assert Replay(pages, pre) == pages;
      } else {
        assert NonDecreasingClock(pre);
        ReplayClockAhead(pages, pre, ops[j - 1].now);
      }
      ApplyKeepsLastSeenOrder(Replay(pages, pre), ops[j - 1]);
    }
  }

  /** One `escalations` row. */
  datatype EscalationRow = EscalationRow(ts: int, url: string, fromModel: string, toModel: string, reason: string, info: string)

  /** One `runs` row, keyed by `ts`. */
  datatype RunRow = RunRow(ts: int, skippedNoChange: int, usedCheapOcr: int, escalatedToGemini: int)

  /** The cap on the stored `info` text. */
  const InfoLimit: nat := 2000

  /** `s[:n]` */
  function Truncate(s: string, n: nat): (r: string)
    ensures |r| <= n && |r| <= |s| && r == s[..|r|]
    ensures |s| <= n ==> r == s
    ensures |s| > n ==> |r| == n
  {
    if |s| <= n then s else s[..n]
  }

  /** No two `runs` rows share a timestamp. */
  predicate DistinctRunTimes(runs: seq<RunRow>) {
    forall i, j :: 0 <= i < j < |runs| ==> runs[i].ts != runs[j].ts
  }

  /** The `runs` log after inserting `row`, or `None` when `row.ts` is already a key. */
  function AppendRun(runs: seq<RunRow>, row: RunRow): (r: Option<seq<RunRow>>)
    ensures r.None? <==> exists i :: 0 <= i < |runs| && runs[i].ts == row.ts
    ensures r.Some? ==> |r.value| == |runs| + 1 && r.value[..|runs|] == runs && r.value[|runs|] == row
    ensures r.Some? && DistinctRunTimes(runs) ==> DistinctRunTimes(r.value)
  {
    if exists i :: 0 <= i < |runs| && runs[i].ts == row.ts then None
    else
      var r := runs + [row];
      assert r[..|runs|] == runs;
      Some(r)
  }

  /** The store: the three tables of one SQLite file. */
  class Footprints {
    var pages: Pages
    var escalations: seq<EscalationRow>
    var runs: seq<RunRow>

    ghost predicate Valid()
      reads this
    {
      DistinctRunTimes(runs)
    }

    /** Opening a store whose tables already hold these rows (all empty for a new file). */
    constructor Open(pages0: Pages, escalations0: seq<EscalationRow>, runs0: seq<RunRow>)
      requires DistinctRunTimes(runs0)
      ensures Valid()
      ensures pages == pages0 && escalations == escalations0 && runs == runs0
    {
      pages := pages0;
      escalations := escalations0;
      runs := runs0;
    }

    /** `get` */
    function Get(url: string): Option<PageFP>
      reads this
    {
      Lookup(pages, url)
    }

    /** `upsert(url, **kvs)` at time `now`; `ok` is false when the statement fails. */
    method Upsert(url: string, kvs: map<Column, Option<string>>, now: nat) returns (ok: bool)
      requires Valid()
      modifies this
      ensures Valid()
      ensures ok <==> Upserted(old(pages), url, kvs, now).Some?
      ensures pages == Apply(old(pages), UpsertCall(url, kvs, now))
      ensures escalations == old(escalations) && runs == old(runs)
    {
      var vals := map c | c in kvs && kvs[c].Some? :: kvs[c].value;
      var existing := Get(url);
      if existing.Some? {
        if vals == map[] {
          ok := false;
        } else {
          var row := pages[url];
          pages := pages[url := row.(lastSeen := Some(now), cols := row.cols + vals)];
          ok := true;
        }
      } else {
        pages := pages[url := PageRow(Some(now), Some(now), vals)];
        ok := true;
      }
    }

    /** `record_escalation`: one row appended, `info` cut to 2000 characters, pages untouched. */
    method RecordEscalation(url: string, fromModel: string, toModel: string, reason: string, infoJson: string, now: int)
      requires Valid()
      modifies this
      ensures Valid()
      ensures escalations == old(escalations) + [EscalationRow(now, url, fromModel, toModel, reason, Truncate(infoJson, InfoLimit))]
      ensures pages == old(pages) && runs == old(runs)
    {
      var info := if |infoJson| <= InfoLimit then infoJson else infoJson[..InfoLimit];
      escalations := escalations + [EscalationRow(now, url, fromModel, toModel, reason, info)];
    }

    /** `record_run_summary`; `ok` is false when a run with the same `ts` is already stored. */
    method RecordRunSummary(skipped: int, usedOcr: int, escalated: int, now: int) returns (ok: bool)
      requires Valid()
      modifies this
      ensures Valid()
      ensures ok <==> AppendRun(old(runs), RunRow(now, skipped, usedOcr, escalated)).Some?
      ensures runs == AppendRun(old(runs), RunRow(now, skipped, usedOcr, escalated)).GetOr(old(runs))
      ensures pages == old(pages) && escalations == old(escalations)
    {
      var r := AppendRun(runs, RunRow(now, skipped, usedOcr, escalated));
      if r.Some? {
        runs := r.value;
        ok := true;
      } else {
        ok := false;
      }
    }
  }
}
