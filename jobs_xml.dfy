/**
 * The jobs XML feed (`JobsXML`): the field mask and date normalisation applied
 * when new `Job` elements are appended, the in-place "seen" updates of existing
 * elements, and the apply-URL canonicalisation that serves as the feed's
 * de-duplication key.
 *
 * The XML tree is the sequence of `Job` elements under the root, each with its
 * attribute map and its ordered child elements (tag, text).  Parsing and
 * writing the file, `uuid4`, the clock, `urlparse`/`urlencode` and `strptime`
 * are parameters.
 */
module JobsXml {
  import opened Wrappers
  import opened Strings
  import opened Seqs

  // ------------------------------------------------------------------ tables

  /** The record fields, in the order their child elements are written. */
  const AllFieldKeys: seq<string> := [
    "job_title", "job_description", "job_type", "sport", "location", "city", "state", "country",
    "zip_code", "experience", "salary_range", "benefits", "posting_date", "closing_date", "job_url",
    "apply_url", "coach_search_url", "employer_email", "employer_full_name",
    "company_description", "company_email", "company_name"
  ]

  /** The element tag written for each field. */
  const TagByKey: map<string, string> := map[
    "job_title" := "JobTitle",
    "job_description" := "JobDescription",
    "job_type" := "JobType",
    "sport" := "Sport",
    "location" := "Location",
    "city" := "City",
    "state" := "State",
    "country" := "Country",
    "zip_code" := "ZipCode",
    "experience" := "Experience",
    "salary_range" := "SalaryRange",
    "benefits" := "Benefits",
    "posting_date" := "PostingDate",
    "closing_date" := "ClosingDate",
    "job_url" := "JobUrl",
    "apply_url" := "ApplyUrl",
    "coach_search_url" := "CoachSearchUrl",
    "employer_email" := "EmployerEmail",
    "employer_full_name" := "EmployerFullName",
    "company_description" := "CompanyDescription",
    "company_email" := "CompanyEmail",
    "company_name" := "CompanyName"
  ]

  /** Query keys that identify a job posting. */
  const JobKeys: set<string> := {
    "jobid", "jid", "id", "rid", "req", "reqid", "requisition", "requisitionid",
    "postingid", "positionid", "vacancyid", "oppid"
  }

  /** Query keys that only track the visitor. */
  const Trackers: set<string> := {
    "utm_source", "utm_medium", "utm_campaign", "utm_term", "utm_content",
    "gclid", "fbclid", "mc_cid", "mc_eid", "msclkid"
  }

  /** The fields whose text goes through date normalisation. */
  const DateKeys: set<string> := {"posting_date", "closing_date"}

  /** Every field has a tag, so writing a job never misses the tag table. */
  lemma FieldsTagged()
    ensures |AllFieldKeys| == 22
    ensures forall i :: 0 <= i < |AllFieldKeys| ==> AllFieldKeys[i] in TagByKey
  {
  }

  /** `set(field_mask or []) or set(ALL_FIELD_KEYS)`: the mask actually applied. */
  function FieldMaskOf(mask: set<string>): (m: set<string>)
    ensures m != {}
    ensures mask != {} ==> m == mask
    ensures mask == {} ==> forall i :: 0 <= i < |AllFieldKeys| ==> AllFieldKeys[i] in m
  {
    if mask != {} then mask
    else
      var all := set k | k in AllFieldKeys;
      assert AllFieldKeys[0] in all;
      all
  }

  // ---------------------------------------------------------- canonical URLs

  /** The six components `urlparse` returns, with the query already split into
      its `(name, value)` pairs in order, blank values kept. */
  datatype ParsedUrl = ParsedUrl(
    scheme: string, netloc: string, path: string, params: string,
    query: seq<(string, string)>, fragment: string)

  /** The standard-library URL codec: `parse` is `urlparse` followed by
      `parse_qsl` of the query (None where `urlparse` raises); `unparse` is
      `urlencode` of the pairs followed by `urlunparse`. */
  datatype UrlCodec = UrlCodec(parse: string -> Option<ParsedUrl>, unparse: ParsedUrl -> string)

  predicate HasDigit(s: string) {
    exists i :: 0 <= i < |s| && IsDigit(s[i])
  }

  /** A query parameter survives canonicalisation when its lower-cased key is
      not a tracker and is either a job key or mentions "job" with a digit in
      the value. */
  predicate KeepParam(kv: (string, string)) {
    var kl := Lower(kv.0);
    kl !in Trackers && (kl in JobKeys || (Contains(kl, "job") && HasDigit(kv.1)))
  }

  /** The kept parameters, in their original order. */
  function FilterParams(q: seq<(string, string)>): seq<(string, string)> {
    if q == [] then []
    else
      var last := q[|q| - 1];
      FilterParams(q[..|q| - 1]) + (if KeepParam(last) then [last] else [])
  }

  /** Exactly the parameters that pass the rule are kept; no tracker survives. */
  lemma {:induction false} FilterParamsExact(q: seq<(string, string)>)
    ensures forall kv :: kv in FilterParams(q) <==> kv in q && KeepParam(kv)
    ensures forall kv :: kv in FilterParams(q) ==> Lower(kv.0) !in Trackers
  {
    if q != [] {
      var init := q[..|q| - 1];
      FilterParamsExact(init);
      assert q == init + [q[|q| - 1]];
    }
  }

  /** Filtering works piece by piece, so kept parameters keep their relative order. */
  lemma {:induction false} FilterParamsAppend(a: seq<(string, string)>, b: seq<(string, string)>)
    decreases |b|
    ensures FilterParams(a + b) == FilterParams(a) + FilterParams(b)
  {
    if b == [] {
      assert a + b == a;
    } else {
      var init := b[..|b| - 1];
      var last := b[|b| - 1];
      assert (a + b)[..|a + b| - 1] == a + init;
      assert (a + b)[|a + b| - 1] == last;
      FilterParamsAppend(a, init);
    }
  }

  lemma {:induction false} FilterParamsIdempotent(q: seq<(string, string)>)
    ensures FilterParams(FilterParams(q)) == FilterParams(q)
  {
    if q != [] {
      var init := q[..|q| - 1];
      var last := q[|q| - 1];
      FilterParamsIdempotent(init);
      if KeepParam(last) {
        FilterParamsAppend(FilterParams(init), [last]);
        assert [last][..0] == [];
      } else {
        assert FilterParams(q) == FilterParams(init);
      }
    }
  }

  /** The query loop of `canonicalize_url`. */
  method KeepParams(q: seq<(string, string)>) returns (keep: seq<(string, string)>)
    ensures keep == FilterParams(q)
  {
    keep := [];
    var i := 0;
    while i < |q|
      invariant 0 <= i <= |q|
      invariant keep == FilterParams(q[..i])
    {
      var k := q[i].0;
      var v := q[i].1;
      var kl := Lower(k);
      assert q[..i + 1][..i] == q[..i];
      if kl in Trackers {
      } else if kl in JobKeys || (Contains(kl, "job") && HasDigit(v)) {
        keep := keep + [(k, v)];
      }
      i := i + 1;
    }
    assert q[..|q|] == q;
  }

  /** Substrings that mark a fragment as job-identifying. */
  const FragmentWords: seq<string> := ["job", "posting", "vacancy", "req", "rid", "id"]

  predicate FragmentKept(f: string) {
    exists w :: w in FragmentWords && Contains(Lower(f), w)
  }

  /** The components the canonical URL is rebuilt from. */
  function CanonicalParts(p: ParsedUrl): ParsedUrl {
    p.(query := FilterParams(p.query), fragment := if FragmentKept(p.fragment) then p.fragment else "")
  }

  /** `canonicalize_url(u)` */
  function Canonicalize(codec: UrlCodec, u: string): string {
    match codec.parse(u)
    case None => Strip(u)
    case Some(p) => codec.unparse(CanonicalParts(p))
  }

  /** Canonicalisation keeps scheme, host, path and params, keeps exactly the
      job-identifying query pairs in order, and keeps the fragment only when it
      names a job. */
  lemma CanonicalPartsMeaning(p: ParsedUrl)
    ensures var c := CanonicalParts(p);
      && c.scheme == p.scheme && c.netloc == p.netloc && c.path == p.path && c.params == p.params
      && (forall kv :: kv in c.query <==> kv in p.query && KeepParam(kv))
      && (c.fragment == p.fragment <==> p.fragment == "" || FragmentKept(p.fragment))
      && (c.fragment != p.fragment ==> c.fragment == "")
  {
    FilterParamsExact(p.query);
  }

  lemma CanonicalPartsIdempotent(p: ParsedUrl)
    ensures CanonicalParts(CanonicalParts(p)) == CanonicalParts(p)
  {
    FilterParamsIdempotent(p.query);
    if !FragmentKept(p.fragment) {
      assert Lower("") == "";
      assert !FragmentKept("");
    }
  }

  /** Canonicalising a canonical URL changes nothing, provided the codec reads
      back what it wrote and a string it cannot parse stays unparseable once
      stripped. */
  lemma CanonicalizeIdempotent(codec: UrlCodec, u: string)
    requires codec.parse(u).None? ==> codec.parse(Strip(u)).None?
    requires codec.parse(u).Some? ==>
      codec.parse(codec.unparse(CanonicalParts(codec.parse(u).value))) == Some(CanonicalParts(codec.parse(u).value))
    ensures Canonicalize(codec, Canonicalize(codec, u)) == Canonicalize(codec, u)
  {
    match codec.parse(u)
    case None =>
      StripIdempotent(u);
    case Some(p) =>
      CanonicalPartsIdempotent(p);
  }

  method CanonicalizeUrl(codec: UrlCodec, u: string) returns (r: string)
    ensures r == Canonicalize(codec, u)
  {
    var parsed := codec.parse(u);
    if parsed.None? {
      return Strip(u);
    }
    var p := parsed.value;
    var keep := KeepParams(p.query);
    var frag := if FragmentKept(p.fragment) then p.fragment else "";
    r := codec.unparse(ParsedUrl(p.scheme, p.netloc, p.path, p.params, keep, frag));
  }

  // ------------------------------------------------------------------- dates

  datatype Date = Date(year: nat, month: nat, day: nat)

  /** The dates a `datetime` can hold (day-of-month checked loosely). */
  predicate ValidDate(d: Date) {
    1 <= d.year <= 9999 && 1 <= d.month <= 12 && 1 <= d.day <= 31
  }

  /** `datetime.strptime(s, fmt)`: the date, or None where it raises. */
  type Strptime = (string, string) -> Option<Date>

  const DateFormats: seq<string> := ["%Y-%m-%d", "%m/%d/%Y", "%b %d, %Y", "%B %d, %Y", "%b %d %Y", "%B %d %Y"]

  /** Index of the first format that parses `s`. */
  function FirstParse(strptime: Strptime, s: string, fmts: seq<string>): (r: Option<nat>)
    ensures r.Some? ==> r.value < |fmts| && strptime(s, fmts[r.value]).Some?
    ensures r.Some? ==> forall j :: 0 <= j < r.value ==> strptime(s, fmts[j]).None?
    ensures r.None? ==> forall j :: 0 <= j < |fmts| ==> strptime(s, fmts[j]).None?
  {
    if fmts == [] then None
    else if strptime(s, fmts[0]).Some? then Some(0)
    else match FirstParse(strptime, s, fmts[1..])
      case None => None
      case Some(k) => Some(k + 1)
  }

  /** The first format that parses is the one `FirstParse` finds. */
  lemma FirstParseAt(strptime: Strptime, s: string, fmts: seq<string>, i: nat)
    requires i < |fmts| && strptime(s, fmts[i]).Some?
    requires forall j :: 0 <= j < i ==> strptime(s, fmts[j]).None?
    ensures FirstParse(strptime, s, fmts) == Some(i)
  {
  }

  function DigitChar(n: nat): char
    requires n < 10
  {
    ('0' as int + n) as char
  }

  /** The number a string of decimal digits spells. */
  function DecimalValue(s: string): nat
    requires forall i :: 0 <= i < |s| ==> IsDigit(s[i])
  {
    if s == [] then 0
    else
      var c := s[|s| - 1];
      assert IsDigit(c);
      DecimalValue(s[..|s| - 1]) * 10 + (c as int - '0' as int)
  }

  function Pow10(k: nat): nat {
    if k == 0 then 1 else 10 * Pow10(k - 1)
  }

  /** `n` in decimal, zero-padded to at least `width` digits. */
  function Padded(n: nat, width: nat): (r: string)
    decreases n + width
    ensures |r| >= 1 && |r| >= width
    ensures forall i :: 0 <= i < |r| ==> IsDigit(r[i])
  {
    if width <= 1 && n < 10 then [DigitChar(n)]
    else Padded(n / 10, if width == 0 then 0 else width - 1) + [DigitChar(n % 10)]
  }

  /** A number below `10^width` takes exactly `width` digits. */
  lemma {:induction false} PaddedLength(n: nat, width: nat)
    requires 1 <= width && n < Pow10(width)
    decreases width
    ensures |Padded(n, width)| == width
  {
    if !(width <= 1 && n < 10) {
      PaddedLength(n / 10, width - 1);
    }
  }

  /** Zero-padding is undone by reading the digits back. */
  lemma {:induction false} PaddedValue(n: nat, width: nat)
    decreases n + width
    ensures DecimalValue(Padded(n, width)) == n
  {
    if !(width <= 1 && n < 10) {
      var w := if width == 0 then 0 else width - 1;
      var r := Padded(n, width);
      PaddedValue(n / 10, w);
      assert r[..|r| - 1] == Padded(n / 10, w);
    }
  }

  /** `strftime("%Y-%m-%d")` */
  function Render(d: Date): string {
    Padded(d.year, 4) + "-" + Padded(d.month, 2) + "-" + Padded(d.day, 2)
  }

  /** A valid date renders as `YYYY-MM-DD`, and the three fields read back. */
  lemma RenderShape(d: Date)
    requires ValidDate(d)
    ensures var r := Render(d);
      && |r| == 10 && r[4] == '-' && r[7] == '-'
      && (forall i :: 0 <= i < 10 && i != 4 && i != 7 ==> IsDigit(r[i]))
      && DecimalValue(r[..4]) == d.year && DecimalValue(r[5..7]) == d.month && DecimalValue(r[8..]) == d.day
  {
    var y := Padded(d.year, 4);
    var m := Padded(d.month, 2);
    var dd := Padded(d.day, 2);
    PaddedLength(d.year, 4);
    PaddedLength(d.month, 2);
    PaddedLength(d.day, 2);
    var r := Render(d);
    assert r[..4] == y && r[5..7] == m && r[8..] == dd;
    PaddedValue(d.year, 4);
    PaddedValue(d.month, 2);
    PaddedValue(d.day, 2);
  }

  /** `_normalize_date_str(s)` */
  function NormalizeDate(strptime: Strptime, s: string): string {
    var s2 := Strip(s);
    if s2 == "" then ""
    else match FirstParse(strptime, s2, DateFormats)
      case Some(i) => Render(strptime(s2, DateFormats[i]).value)
      case None => s2
  }

  /** `strptime` only produces valid dates, and reads the ISO rendering of any
      valid date back with the first format. */
  ghost predicate CoherentParser(strptime: Strptime) {
    && (forall s, f :: strptime(s, f).Some? ==> ValidDate(strptime(s, f).value))
    && (forall d :: ValidDate(d) ==> strptime(Render(d), DateFormats[0]) == Some(d))
  }

  /** A rendered valid date is already normalised: it is not blank, and the first format reads it back. */
  lemma RenderedIsNormal(strptime: Strptime, d: Date)
    requires CoherentParser(strptime) && ValidDate(d)
    ensures Render(d) != "" && NormalizeDate(strptime, Render(d)) == Render(d)
  {
    RenderShape(d);
    var r := Render(d);
    assert !IsSpace(r[0]) && !IsSpace(r[9]);
    StripOfTrimmed(r);
    assert strptime(r, DateFormats[0]) == Some(d);
    assert FirstParse(strptime, r, DateFormats) == Some(0);
  }

  /** Stripped input that no format parses is kept as it is. */
  lemma UnparsedIsNormal(strptime: Strptime, s: string)
    requires Strip(s) == s && s != "" && FirstParse(strptime, s, DateFormats).None?
    ensures NormalizeDate(strptime, s) == s
  {
  }

  /** Normalisation yields the empty string exactly for blank input, and is
      idempotent: a normalised date stays as it is. */
  lemma NormalizeDateIdempotent(strptime: Strptime, s: string)
    requires CoherentParser(strptime)
    ensures NormalizeDate(strptime, s) == "" <==> AllSpace(s)
    ensures NormalizeDate(strptime, NormalizeDate(strptime, s)) == NormalizeDate(strptime, s)
  {
    StripEmptyIffBlank(s);
    var s2 := Strip(s);
    if s2 != "" {
      match FirstParse(strptime, s2, DateFormats)
      case Some(i) =>
        RenderedIsNormal(strptime, strptime(s2, DateFormats[i]).value);
      case None =>
        StripIdempotent(s);
        UnparsedIsNormal(strptime, s2);
    }
  }

  /** The format loop of `_normalize_date_str`: the date the first format that parses gives. */
  method ParseFirst(strptime: Strptime, s: string, fmts: seq<string>) returns (dt: Option<Date>)
    ensures dt.Some? <==> FirstParse(strptime, s, fmts).Some?
    ensures dt.Some? ==> dt == strptime(s, fmts[FirstParse(strptime, s, fmts).value])
  {
    var i := 0;
    while i < |fmts|
      invariant 0 <= i <= |fmts|
      invariant forall j :: 0 <= j < i ==> strptime(s, fmts[j]).None?
    {
      dt := strptime(s, fmts[i]);
      if dt.Some? {
        FirstParseAt(strptime, s, fmts, i);
        return;
      }
      i := i + 1;
    }
    return None;
  }

  /** `_normalize_date_str(s)` */
  method NormalizeDateStr(strptime: Strptime, s: string) returns (r: string)
    ensures r == NormalizeDate(strptime, s)
  {
    var s2 := Strip(s);
    if s2 == "" {
      return "";
    }
    var dt := ParseFirst(strptime, s2, DateFormats);
    if dt.Some? {
      return Render(dt.value);
    }
    return s2;
  }

  // -------------------------------------------------------------------- jobs

  /** A `JobXMLRecord`: the 22 text fields by key, and the book-keeping fields. */
  datatype JobRecord = JobRecord(
    fields: map<string, string>, district: Option<string>, districtId: Option<string>,
    active: bool, lastSeen: Option<string>)

  /** A `Job` element: its attributes and its child elements (tag, text) in order. */
  datatype JobElem = JobElem(attrs: map<string, string>, children: seq<(string, string)>)

  /** `getattr(job, key) or ""` */
  function FieldOf(rec: JobRecord, key: string): string {
    if key in rec.fields then rec.fields[key] else ""
  }

  function BoolText(b: bool): string {
    if b then "true" else "false"
  }

  /** The text written for one field: empty outside the mask, dates normalised. */
  function ChildText(mask: set<string>, strptime: Strptime, rec: JobRecord, key: string): string {
    if key !in mask then ""
    else
      var v := FieldOf(rec, key);
      if key in DateKeys && v != "" then NormalizeDate(strptime, v) else v
  }

  function Children(mask: set<string>, strptime: Strptime, rec: JobRecord): seq<(string, string)> {
    FieldsTagged();
    seq(|AllFieldKeys|, i requires 0 <= i < |AllFieldKeys| =>
      (TagByKey[AllFieldKeys[i]], ChildText(mask, strptime, rec, AllFieldKeys[i])))
  }

  /** A selected date field is normalised even when empty, since an empty date normalises to `""`. */
  lemma ChildTextDate(mask: set<string>, strptime: Strptime, rec: JobRecord, key: string)
    requires key in mask && key in DateKeys
    ensures ChildText(mask, strptime, rec, key) == NormalizeDate(strptime, FieldOf(rec, key))
  {
    if FieldOf(rec, key) == "" {
      assert Strip("") == "";
    }
  }

  /**
   * A new element has one child per field key, in the order of the key list,
   * tagged by the tag table; a field outside the mask is written empty, a
   * selected date field is normalised, and any other selected field is written
   * as given.
   */
  lemma ChildrenShape(mask: set<string>, strptime: Strptime, rec: JobRecord)
    ensures var cs := Children(mask, strptime, rec);
      && |cs| == |AllFieldKeys|
      && (forall i :: 0 <= i < |cs| ==> AllFieldKeys[i] in TagByKey && cs[i].0 == TagByKey[AllFieldKeys[i]])
      && (forall i :: 0 <= i < |cs| && AllFieldKeys[i] !in mask ==> cs[i].1 == "")
      && (forall i :: 0 <= i < |cs| && AllFieldKeys[i] in mask && AllFieldKeys[i] !in DateKeys ==>
            cs[i].1 == FieldOf(rec, AllFieldKeys[i]))
      && (forall i :: 0 <= i < |cs| && AllFieldKeys[i] in mask && AllFieldKeys[i] in DateKeys ==>
            cs[i].1 == NormalizeDate(strptime, FieldOf(rec, AllFieldKeys[i])))
  {
    FieldsTagged();
    var cs := Children(mask, strptime, rec);
    forall i | 0 <= i < |cs|
      ensures AllFieldKeys[i] in mask && AllFieldKeys[i] in DateKeys ==>
        cs[i].1 == NormalizeDate(strptime, FieldOf(rec, AllFieldKeys[i]))
    {
      if AllFieldKeys[i] in mask && AllFieldKeys[i] in DateKeys {
        ChildTextDate(mask, strptime, rec, AllFieldKeys[i]);
      }
    }
  }

  /** The element `append_jobs` writes for one record. */
  function NewJob(mask: set<string>, strptime: Strptime, rec: JobRecord, id: string, now: string): JobElem {
    JobElem(
      map[
        "id" := id,
        "state" := FieldOf(rec, "state"),
        "district" := Or(rec.district.GetOr(""), FieldOf(rec, "company_name")),
        "districtId" := rec.districtId.GetOr(""),
        "active" := BoolText(rec.active),
        "lastSeen" := Or(rec.lastSeen.GetOr(""), now)],
      Children(mask, strptime, rec))
  }

  /** The elements `append_jobs` writes, one per record, in order. */
  function NewJobs(mask: set<string>, strptime: Strptime, recs: seq<JobRecord>, ids: seq<string>, now: string): (r: seq<JobElem>)
    requires |ids| == |recs|
    ensures |r| == |recs| && forall i :: 0 <= i < |recs| ==> r[i] == NewJob(mask, strptime, recs[i], ids[i], now)
  {
    seq(|recs|, i requires 0 <= i < |recs| => NewJob(mask, strptime, recs[i], ids[i], now))
  }

  /** `(job.findtext("ApplyUrl") or "").strip()`; `findtext` is `FindByKey` on the children. */
  function ApplyKey(j: JobElem): string {
    Strip(FindByKey(j.children, "ApplyUrl").GetOr(""))
  }

  /** `job.get("id")` */
  function IdOf(j: JobElem): Option<string> {
    if "id" in j.attrs then Some(j.attrs["id"]) else None
  }

  /** The ids of the jobs, position by position. */
  function Ids(js: seq<JobElem>): (r: seq<Option<string>>)
    ensures |r| == |js| && forall k :: 0 <= k < |js| ==> r[k] == IdOf(js[k])
  {
    seq(|js|, k requires 0 <= k < |js| => IdOf(js[k]))
  }

  /** The key `keyOf` gives each job, position by position. */
  function KeysBy(keyOf: JobElem -> string, js: seq<JobElem>): (r: seq<string>)
    ensures |r| == |js| && forall k :: 0 <= k < |js| ==> r[k] == keyOf(js[k])
  {
    seq(|js|, k requires 0 <= k < |js| => keyOf(js[k]))
  }

  /** `canonicalize_url((job.findtext("ApplyUrl") or "").strip())` as a key of the job. */
  function CanonicalApplyKey(codec: UrlCodec): JobElem -> string {
    j => Canonicalize(codec, ApplyKey(j))
  }

  /** The canonical apply URL of each job, position by position (blank ones included). */
  function ApplyKeys(codec: UrlCodec, js: seq<JobElem>): (r: seq<string>)
    ensures |r| == |js| && forall k :: 0 <= k < |js| ==> r[k] == Canonicalize(codec, ApplyKey(js[k]))
  {
    KeysBy(CanonicalApplyKey(codec), js)
  }

  /** The scan of `mark_seen_by_apply_url`: the position of the first job whose
      key is `target`, if any. */
  method FindFirstKey(keyOf: JobElem -> string, js: seq<JobElem>, target: string) returns (at: Option<nat>)
    ensures at == FirstIndex(KeysBy(keyOf, js), target)
  {
    ghost var keys := KeysBy(keyOf, js);
    var i := 0;
    while i < |js|
      invariant 0 <= i <= |js|
      invariant forall k :: 0 <= k < i ==> keys[k] != target
    {
      if keyOf(js[i]) == target {
        FirstIndexAt(keys, target, i);
        return Some(i);
      }
      i := i + 1;
    }
    assert FirstIndex(keys, target).None?;
    return None;
  }

  /** What marking a job as seen does to it: `active` is rewritten only when a
      value is given, `lastSeen` always, and nothing else changes. */
  function Touch(j: JobElem, active: Option<bool>, now: string): (t: JobElem)
    ensures t.children == j.children
    ensures "lastSeen" in t.attrs && t.attrs["lastSeen"] == now
    ensures active.Some? ==> "active" in t.attrs && t.attrs["active"] == BoolText(active.value)
    ensures active.None? ==> ("active" in t.attrs <==> "active" in j.attrs)
    ensures active.None? && "active" in j.attrs ==> t.attrs["active"] == j.attrs["active"]
    ensures forall a :: a != "active" && a != "lastSeen" ==> (a in t.attrs <==> a in j.attrs)
    ensures forall a :: a in j.attrs && a != "active" && a != "lastSeen" ==> t.attrs[a] == j.attrs[a]
  {
    var attrs := if active.Some? then j.attrs["active" := BoolText(active.value)] else j.attrs;
    JobElem(attrs["lastSeen" := now], j.children)
  }

  /** The jobs after touching the one at `at`, if any. */
  function MarkedAt(js: seq<JobElem>, at: Option<nat>, active: Option<bool>, now: string): seq<JobElem> {
    if at.Some? && at.value < |js| then js[at.value := Touch(js[at.value], active, now)] else js
  }

  /** Marking touches the job at `at` and leaves every other job, and the number of jobs, as they were. */
  lemma MarkedAtMeaning(js: seq<JobElem>, at: Option<nat>, active: Option<bool>, now: string)
    requires at.Some? ==> at.value < |js|
    ensures var r := MarkedAt(js, at, active, now);
      && |r| == |js|
      && (forall k :: 0 <= k < |js| && at != Some(k) ==> r[k] == js[k])
      && (at.Some? ==> r[at.value] == Touch(js[at.value], active, now))
      && (at.None? ==> r == js)
  {
  }

  /** The canonical forms of the jobs' keys, leaving out blank keys. */
  function KeySet(keyOf: JobElem -> string, canon: string -> string, js: seq<JobElem>): set<string> {
    if js == [] then {}
    else
      var j := js[|js| - 1];
      KeySet(keyOf, canon, js[..|js| - 1]) + (if keyOf(j) != "" then {canon(keyOf(j))} else {})
  }

  /** A value is in the key set exactly when some job's non-blank key has it as canonical form. */
  lemma {:induction false} KeySetMembers(keyOf: JobElem -> string, canon: string -> string, js: seq<JobElem>, x: string)
    ensures x in KeySet(keyOf, canon, js) <==> exists k :: 0 <= k < |js| && keyOf(js[k]) != "" && canon(keyOf(js[k])) == x
  {
    if js != [] {
      var n := |js| - 1;
      var init := js[..n];
      KeySetMembers(keyOf, canon, init, x);
      if x in KeySet(keyOf, canon, js) && x !in KeySet(keyOf, canon, init) {
        assert keyOf(js[n]) != "" && canon(keyOf(js[n])) == x;
      }
      if k :| 0 <= k < |js| && keyOf(js[k]) != "" && canon(keyOf(js[k])) == x {
        if k < n {
          assert init[k] == js[k];
        }
      }
    }
  }

  /** The canonical apply URLs of the jobs that have a non-blank one. */
  function SeenSet(codec: UrlCodec, js: seq<JobElem>): set<string> {
    KeySet(ApplyKey, CanonicalOf(codec), js)
  }

  /** The collection loop of `seen_apply_urls`, over any key and canonical form. */
  method CollectKeys(keyOf: JobElem -> string, canon: string -> string, js: seq<JobElem>) returns (out: set<string>)
    ensures forall x :: x in out <==> exists k :: 0 <= k < |js| && keyOf(js[k]) != "" && canon(keyOf(js[k])) == x
  {
    out := {};
    var i := 0;
    while i < |js|
      invariant 0 <= i <= |js|
      invariant forall x :: x in out <==> exists k :: 0 <= k < i && keyOf(js[k]) != "" && canon(keyOf(js[k])) == x
    {
      var au := keyOf(js[i]);
      if au != "" {
        out := out + {canon(au)};
      }
      i := i + 1;
    }
  }

  function CanonicalOf(codec: UrlCodec): string -> string { u => Canonicalize(codec, u) }

  /** A URL is seen exactly when some job's non-blank apply URL canonicalises to it. */
  lemma SeenSetMembers(codec: UrlCodec, js: seq<JobElem>, x: string)
    ensures x in SeenSet(codec, js) <==> exists k :: 0 <= k < |js| && ApplyKey(js[k]) != "" && Canonicalize(codec, ApplyKey(js[k])) == x
  {
    KeySetMembers(ApplyKey, CanonicalOf(codec), js, x);
  }

  /** Only the 16th field is written under the `ApplyUrl` tag. */
  lemma ApplyUrlTag()
    ensures |AllFieldKeys| == 22 && AllFieldKeys[15] == "apply_url" && TagByKey["apply_url"] == "ApplyUrl"
    ensures forall k :: 0 <= k < 15 ==> AllFieldKeys[k] in TagByKey && TagByKey[AllFieldKeys[k]] != "ApplyUrl"
  {
    FieldsTagged();
  }

  /** A new element's `ApplyUrl` text is the record's apply URL when that field
      is selected, and empty otherwise. */
  lemma NewJobApplyUrl(mask: set<string>, strptime: Strptime, rec: JobRecord)
    ensures FindByKey(Children(mask, strptime, rec), "ApplyUrl")
      == Some(if "apply_url" in mask then FieldOf(rec, "apply_url") else "")
  {
    var children := Children(mask, strptime, rec);
    ApplyUrlTag();
    assert forall k :: 0 <= k < 15 ==> children[k].0 != "ApplyUrl";
    assert children[15] == ("ApplyUrl", ChildText(mask, strptime, rec, "apply_url"));
    FindByKeyAt(children, "ApplyUrl", 15);
    assert "apply_url" !in DateKeys;
  }

  lemma NewJobApplyKey(mask: set<string>, strptime: Strptime, rec: JobRecord, id: string, now: string)
    ensures ApplyKey(NewJob(mask, strptime, rec, id, now)) == Strip(if "apply_url" in mask then FieldOf(rec, "apply_url") else "")
  {
    var e := NewJob(mask, strptime, rec, id, now);
    var v := if "apply_url" in mask then FieldOf(rec, "apply_url") else "";
    assert e.children == Children(mask, strptime, rec);
    NewJobApplyUrl(mask, strptime, rec);
    assert FindByKey(e.children, "ApplyUrl") == Some(v);
  }

  lemma SeenSetSnoc(codec: UrlCodec, js: seq<JobElem>, e: JobElem)
    ensures SeenSet(codec, js + [e]) == SeenSet(codec, js) + (if ApplyKey(e) != "" then {Canonicalize(codec, ApplyKey(e))} else {})
  {
    assert (js + [e])[..|js|] == js;
    assert SeenSet(codec, js + [e]) == KeySet(ApplyKey, CanonicalOf(codec), js + [e]);
  }

  /** Adding jobs never removes a seen URL. */
  lemma SeenSetGrows(codec: UrlCodec, before: seq<JobElem>, more: seq<JobElem>)
    ensures SeenSet(codec, before) <= SeenSet(codec, before + more)
  {
    forall x | x in SeenSet(codec, before)
      ensures x in SeenSet(codec, before + more)
    {
      SeenSetMembers(codec, before, x);
      var k :| 0 <= k < |before| && ApplyKey(before[k]) != "" && Canonicalize(codec, ApplyKey(before[k])) == x;
      assert (before + more)[k] == before[k];
      SeenSetMembers(codec, before + more, x);
    }
  }

  /** The `i`-th appended record's selected, non-blank apply URL is seen afterwards. */
  lemma AppendedRecordSeen(codec: UrlCodec, mask: set<string>, strptime: Strptime,
                           before: seq<JobElem>, recs: seq<JobRecord>, ids: seq<string>, now: string, i: nat)
    requires |ids| == |recs| && i < |recs|
    requires "apply_url" in mask && Strip(FieldOf(recs[i], "apply_url")) != ""
    ensures Canonicalize(codec, Strip(FieldOf(recs[i], "apply_url"))) in SeenSet(codec, before + NewJobs(mask, strptime, recs, ids, now))
  {
    var js := before + NewJobs(mask, strptime, recs, ids, now);
    var k := |before| + i;
    var e := NewJob(mask, strptime, recs[i], ids[i], now);
    assert js[k] == e;
    NewJobApplyKey(mask, strptime, recs[i], ids[i], now);
    assert ApplyKey(js[k]) == Strip(FieldOf(recs[i], "apply_url"));
    SeenSetMembers(codec, js, Canonicalize(codec, Strip(FieldOf(recs[i], "apply_url"))));
  }

  /**
   * After appending, every appended record whose apply URL is selected and not
   * blank is among the seen apply URLs, and the URLs seen before stay seen.
   */
  lemma AppendedApplyUrlsSeen(codec: UrlCodec, mask: set<string>, strptime: Strptime,
                               before: seq<JobElem>, recs: seq<JobRecord>, ids: seq<string>, now: string)
    requires |ids| == |recs|
    ensures SeenSet(codec, before) <= SeenSet(codec, before + NewJobs(mask, strptime, recs, ids, now))
    ensures forall i :: 0 <= i < |recs| && "apply_url" in mask && Strip(FieldOf(recs[i], "apply_url")) != "" ==>
      Canonicalize(codec, Strip(FieldOf(recs[i], "apply_url"))) in SeenSet(codec, before + NewJobs(mask, strptime, recs, ids, now))
  {
    SeenSetGrows(codec, before, NewJobs(mask, strptime, recs, ids, now));
    forall i | 0 <= i < |recs| && "apply_url" in mask && Strip(FieldOf(recs[i], "apply_url")) != ""
      ensures Canonicalize(codec, Strip(FieldOf(recs[i], "apply_url"))) in SeenSet(codec, before + NewJobs(mask, strptime, recs, ids, now))
    {
      AppendedRecordSeen(codec, mask, strptime, before, recs, ids, now, i);
    }
  }

  /** A URL reported as seen is one `mark_seen_by_apply_url` finds a job for. */
  lemma SeenIsMarkable(codec: UrlCodec, js: seq<JobElem>, x: string)
    requires x in SeenSet(codec, js)
    ensures FirstIndex(ApplyKeys(codec, js), x).Some?
  {
    SeenSetMembers(codec, js, x);
    var k :| 0 <= k < |js| && ApplyKey(js[k]) != "" && Canonicalize(codec, ApplyKey(js[k])) == x;
    assert ApplyKeys(codec, js)[k] == x;
  }

  /**
   * Unlike `seen_apply_urls`, `mark_seen_by_apply_url` does not skip blank URLs:
   * a blank argument picks the first job with a blank or missing apply URL.
   */
  lemma BlankApplyUrlPicksUnlinkedJob(codec: UrlCodec, js: seq<JobElem>, applyUrl: string, i: nat)
    requires AllSpace(applyUrl)
    requires i < |js| && ApplyKey(js[i]) == ""
    requires forall k :: 0 <= k < i ==> ApplyKey(js[k]) != ""
    requires forall k :: 0 <= k < i ==> Canonicalize(codec, ApplyKey(js[k])) != Canonicalize(codec, "")
    ensures FirstIndex(ApplyKeys(codec, js), Canonicalize(codec, Strip(applyUrl))) == Some(i)
  {
    StripEmptyIffBlank(applyUrl);
    FirstIndexAt(ApplyKeys(codec, js), Canonicalize(codec, ""), i);
  }

  class JobsXML {
    const codec: UrlCodec
    const strptime: Strptime
    /** The fields written with their values; every other field gets an empty element. */
    const fieldMask: set<string>
    /** The `Job` children of the root, in document order. */
    var jobs: seq<JobElem>

    /** Opening the feed: `existing` is what the file on disk parses to (empty
        when it is missing or unreadable). */
    constructor (codec: UrlCodec, strptime: Strptime, mask: set<string>, existing: seq<JobElem>)
      ensures this.codec == codec && this.strptime == strptime
      ensures fieldMask == FieldMaskOf(mask)
      ensures jobs == existing
    {
      this.codec := codec;
      this.strptime := strptime;
      fieldMask := FieldMaskOf(mask);
      jobs := existing;
    }

    /** Builds the children of one new element, field by field. */
    method WriteChildren(rec: JobRecord) returns (children: seq<(string, string)>)
      ensures children == Children(fieldMask, strptime, rec)
    {
      FieldsTagged();
      ghost var cs := Children(fieldMask, strptime, rec);
      children := [];
      var i := 0;
      while i < |AllFieldKeys|
        invariant 0 <= i <= |AllFieldKeys| == |cs|
        invariant children == cs[..i]
      {
        var key := AllFieldKeys[i];
        var tag := TagByKey[key];
        var value := if key in fieldMask then FieldOf(rec, key) else "";
        if key in DateKeys && value != "" {
          value := NormalizeDateStr(strptime, value);
        }
        assert value == ChildText(fieldMask, strptime, rec, key);
        assert cs[i] == (tag, value);
        assert cs[..i + 1] == cs[..i] + [cs[i]];
        children := children + [(tag, value)];
        i := i + 1;
      }
    }

    /** The element for one record, with the given id and clock reading. */
    method WriteJob(rec: JobRecord, id: string, now: string) returns (e: JobElem)
      ensures e == NewJob(fieldMask, strptime, rec, id, now)
    {
      var attrs := map[
        "id" := id,
        "state" := Or(FieldOf(rec, "state"), ""),
        "district" := Or(Or(rec.district.GetOr(""), FieldOf(rec, "company_name")), ""),
        "districtId" := Or(rec.districtId.GetOr(""), ""),
        "active" := if rec.active then "true" else "false",
        "lastSeen" := Or(rec.lastSeen.GetOr(""), now)];
      var children := WriteChildren(rec);
      e := JobElem(attrs, children);
    }

    /** `append_jobs(recs)`; `ids` are the fresh element ids and `now` the clock. */
    method AppendJobs(recs: seq<JobRecord>, ids: seq<string>, now: string)
      requires |ids| == |recs|
      modifies this
      ensures jobs == old(jobs) + NewJobs(fieldMask, strptime, recs, ids, now)
    {
      var i := 0;
      while i < |recs|
        invariant 0 <= i <= |recs|
        invariant |jobs| == |old(jobs)| + i && jobs[..|old(jobs)|] == old(jobs)
        invariant forall k :: 0 <= k < i ==> jobs[|old(jobs)| + k] == NewJob(fieldMask, strptime, recs[k], ids[k], now)
      {
        var e := WriteJob(recs[i], ids[i], now);
        jobs := jobs + [e];
        i := i + 1;
      }
      assert jobs == old(jobs) + NewJobs(fieldMask, strptime, recs, ids, now);
    }

    /** `mark_seen(job_id, active)`: touches the first job with that id, if any. */
    method MarkSeen(jobId: string, active: Option<bool>, now: string)
      modifies this
      ensures jobs == MarkedAt(old(jobs), FirstIndex(Ids(old(jobs)), Some(jobId)), active, now)
    {
      var i := 0;
      while i < |jobs|
        invariant 0 <= i <= |jobs| && jobs == old(jobs)
        invariant forall k :: 0 <= k < i ==> Ids(jobs)[k] != Some(jobId)
      {
        if "id" in jobs[i].attrs && jobs[i].attrs["id"] == jobId {
          FirstIndexAt(Ids(jobs), Some(jobId), i);
          var attrs := jobs[i].attrs;
          if active.Some? {
            attrs := attrs["active" := if active.value then "true" else "false"];
          }
          attrs := attrs["lastSeen" := now];
          jobs := jobs[i := JobElem(attrs, jobs[i].children)];
          return;
        }
        i := i + 1;
      }
      assert FirstIndex(Ids(jobs), Some(jobId)).None?;
    }

    /** `seen_apply_urls()` */
    method SeenApplyUrls() returns (out: set<string>)
      ensures out == SeenSet(codec, jobs)
    {
      out := CollectKeys(ApplyKey, CanonicalOf(codec), jobs);
      forall x ensures x in out <==> x in SeenSet(codec, jobs) {
        SeenSetMembers(codec, jobs, x);
      }
    }

    /** `mark_seen_by_apply_url(apply_url, active)`: touches the first job whose
        canonical apply URL equals the canonical form of `applyUrl`. */
    method MarkSeenByApplyUrl(applyUrl: string, active: Option<bool>, now: string) returns (found: bool)
      modifies this
      ensures var at := FirstIndex(ApplyKeys(codec, old(jobs)), Canonicalize(codec, Strip(applyUrl)));
        found == at.Some? && jobs == MarkedAt(old(jobs), at, active, now)
    {
      var target := CanonicalizeUrl(codec, Strip(applyUrl));
      var at := FindFirstKey(CanonicalApplyKey(codec), jobs, target);
      if at.Some? {
        jobs := jobs[at.value := Touch(jobs[at.value], active, now)];
        return true;
      }
      return false;
    }
  }
}
