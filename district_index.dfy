/**
 * Reading one district out of a state's CSV row: the first non-empty of several
 * header variants, the homepage normalisation, the career URLs collected from
 * the row, the defaults of a `District`, and the choice of the CSV file for a
 * state among the files of a directory.
 *
 * A row is the dict `_read_csv_rows` yields: its headers lower-cased and
 * stripped, its values stripped, in column order.
 */
module DistrictIndex {
  import opened Wrappers
  import opened Strings
  import opened Seqs

  /** A dict of strings as its (key, value) pairs in insertion order; `row.get(k)` is `FindByKey(row, k)`. */
  type Row = seq<(string, string)>

  /** The keys of a dict are distinct. */
  predicate DistinctHeaders(row: Row) {
    forall i, j :: 0 <= i < j < |row| ==> row[i].0 != row[j].0
  }

  // ------------------------------------------------------------ reading a row

  /** `d[k] = v`: a key already present keeps its position and takes the new value; a new key goes last. */
  function Put(row: Row, k: string, v: string): Row {
    if row == [] then [(k, v)]
    else if row[0].0 == k then [(k, v)] + row[1..]
    else [row[0]] + Put(row[1..], k, v)
  }

  /** The keys of a row, in order. */
  function Headers(row: Row): (r: seq<string>)
    ensures |r| == |row| && forall i :: 0 <= i < |row| ==> r[i] == row[i].0
  {
    seq(|row|, i requires 0 <= i < |row| => row[i].0)
  }

  /** Assigning a key adds it to the keys if it is new, and otherwise leaves them as they are. */
  lemma {:induction false} PutHeaders(row: Row, k: string, v: string)
    ensures Headers(Put(row, k, v)) == if k in Headers(row) then Headers(row) else Headers(row) + [k]
  {
    if row != [] && row[0].0 != k {
      PutHeaders(row[1..], k, v);
      assert Headers(row) == [row[0].0] + Headers(row[1..]);
      assert Headers(Put(row, k, v)) == [row[0].0] + Headers(Put(row[1..], k, v));
    }
  }

  /** Assigning a key keeps the keys distinct. */
  lemma PutDistinct(row: Row, k: string, v: string)
    requires DistinctHeaders(row)
    ensures DistinctHeaders(Put(row, k, v))
  {
    PutHeaders(row, k, v);
    var h := Headers(Put(row, k, v));
    assert forall i :: 0 <= i < |Put(row, k, v)| ==> Put(row, k, v)[i].0 == h[i];
  }

  /** After `d[k] = v`, `d.get(k)` is `v` and every other key reads as before. */
  lemma {:induction false} PutGet(row: Row, k: string, v: string, k': string)
    ensures FindByKey(Put(row, k, v), k') == if k' == k then Some(v) else FindByKey(row, k')
  {
    if row != [] && row[0].0 != k {
      PutGet(row[1..], k, v, k');
    }
  }

  /** A header as `_read_csv_rows` and `_first_nonempty` normalise it: stripped, then lower-cased. */
  function HeaderOf(k: string): string {
    Lower(Strip(k))
  }

  /** The dict that assigning the pairs one after another, `d[k] = v`, builds from an empty one. */
  function Build(pairs: seq<(string, string)>): Row {
    if pairs == [] then []
    else Put(Build(pairs[..|pairs| - 1]), pairs[|pairs| - 1].0, pairs[|pairs| - 1].1)
  }

  /** The dict built has distinct keys. */
  lemma {:induction false} BuildDistinct(pairs: seq<(string, string)>)
    ensures DistinctHeaders(Build(pairs))
  {
    if pairs != [] {
      var n := |pairs| - 1;
      BuildDistinct(pairs[..n]);
      PutDistinct(Build(pairs[..n]), pairs[n].0, pairs[n].1);
    }
  }

  /** The dict built holds, under each key, the value of the last pair with that key. */
  lemma {:induction false} BuildLast(pairs: seq<(string, string)>, k: string, i: nat)
    requires i < |pairs| && pairs[i].0 == k
    requires forall j :: i < j < |pairs| ==> pairs[j].0 != k
    ensures FindByKey(Build(pairs), k) == Some(pairs[i].1)
  {
    var n := |pairs| - 1;
    PutGet(Build(pairs[..n]), pairs[n].0, pairs[n].1, k);
    if i < n {
      BuildLast(pairs[..n], k, i);
    }
  }

  /** A key no pair carries is not in the dict built. */
  lemma {:induction false} BuildAbsent(pairs: seq<(string, string)>, k: string)
    requires forall j :: 0 <= j < |pairs| ==> pairs[j].0 != k
    ensures FindByKey(Build(pairs), k) == None
  {
    if pairs != [] {
      var n := |pairs| - 1;
      PutGet(Build(pairs[..n]), pairs[n].0, pairs[n].1, k);
      BuildAbsent(pairs[..n], k);
    }
  }

  /** `(kk, vv)` of one cell: the header normalised, the value stripped. */
  function Cells(cells: seq<(string, string)>): (r: seq<(string, string)>)
    ensures |r| == |cells| && forall i :: 0 <= i < |cells| ==> r[i] == (HeaderOf(cells[i].0), Strip(cells[i].1))
  {
    seq(|cells|, i requires 0 <= i < |cells| => (HeaderOf(cells[i].0), Strip(cells[i].1)))
  }

  /**
   * The dict `_read_csv_rows` builds from the items of one `DictReader` row, in
   * the dict's order: headers stripped and lower-cased, values stripped, and a
   * header repeated after normalisation keeps the position of its first item
   * and the value of its last.
   */
  function ReadRow(cells: seq<(string, string)>): Row {
    Build(Cells(cells))
  }

  /**
   * One record of the file, given as its (raw header, value) columns in column
   * order: `DictReader` first makes the dict `dict(zip(fieldnames, row))`, in
   * which a repeated raw header keeps its first column's position and its last
   * column's value, and `_read_csv_rows` then normalises that dict's items.
   */
  function ReadRecord(columns: seq<(string, string)>): Row {
    ReadRow(Build(columns))
  }

  /** Assigning a key the dict does not hold appends it. */
  lemma {:induction false} PutNew(row: Row, k: string, v: string)
    requires forall i :: 0 <= i < |row| ==> row[i].0 != k
    ensures Put(row, k, v) == row + [(k, v)]
  {
    if row != [] {
      PutNew(row[1..], k, v);
      assert row == [row[0]] + row[1..];
    }
  }

  /** Pairs whose keys are already distinct build the dict holding exactly them. */
  lemma {:induction false} BuildOfDistinct(pairs: seq<(string, string)>)
    requires DistinctHeaders(pairs)
    ensures Build(pairs) == pairs
  {
    if pairs != [] {
      var n := |pairs| - 1;
      BuildOfDistinct(pairs[..n]);
      PutNew(pairs[..n], pairs[n].0, pairs[n].1);
      assert pairs[..n] + [pairs[n]] == pairs;
    }
  }

  /** With distinct raw headers the record's items are its columns, read as they stand. */
  lemma ReadRecordOfDistinct(columns: seq<(string, string)>)
    requires DistinctHeaders(columns)
    ensures ReadRecord(columns) == ReadRow(columns)
  {
    BuildOfDistinct(columns);
  }

  /**
   * Raw headers `A,a,A` with values `1,2,3`: `DictReader` keeps `{"A": "3", "a": "2"}`,
   * so the normalised header `a` reads `2`, not the last column's `3`.
   */
  lemma RepeatedRawHeader()
    ensures FindByKey(ReadRecord([("A", "1"), ("a", "2"), ("A", "3")]), "a") == Some("2")
  {
    var items := [("A", "3"), ("a", "2")];
    assert Build([("A", "1"), ("a", "2"), ("A", "3")]) == items by {
      var p2 := [("A", "1"), ("a", "2")];
      assert [("A", "1"), ("a", "2"), ("A", "3")][..2] == p2;
      assert p2[..1] == [("A", "1")];
      assert [("A", "1")][..0] == [];
    }
    assert HeaderOf("a") == "a" && Strip("2") == "2" by {
      StripOfTrimmed("a");
      StripOfTrimmed("2");
    }
    ReadRowLast(items, "a", 1);
  }

  /** A row read from the file has distinct headers. */
  lemma ReadRowDistinct(cells: seq<(string, string)>)
    ensures DistinctHeaders(ReadRow(cells))
  {
    BuildDistinct(Cells(cells));
  }

  /** Looking a header up in a row read from the file gives the stripped value of the last cell with that header. */
  lemma ReadRowLast(cells: seq<(string, string)>, k: string, i: nat)
    requires i < |cells| && HeaderOf(cells[i].0) == k
    requires forall j :: i < j < |cells| ==> HeaderOf(cells[j].0) != k
    ensures FindByKey(ReadRow(cells), k) == Some(Strip(cells[i].1))
  {
    BuildLast(Cells(cells), k, i);
  }

  /** A header no cell carries is not found. */
  lemma ReadRowAbsent(cells: seq<(string, string)>, k: string)
    requires forall j :: 0 <= j < |cells| ==> HeaderOf(cells[j].0) != k
    ensures FindByKey(ReadRow(cells), k) == None
  {
    BuildAbsent(Cells(cells), k);
  }

  /** The loop of `_read_csv_rows` that builds `norm` from one row. */
  method NormalizeRow(cells: seq<(string, string)>) returns (norm: Row)
    ensures norm == ReadRow(cells)
  {
    ghost var pairs := Cells(cells);
    norm := [];
    var i := 0;
    while i < |cells|
      invariant 0 <= i <= |cells|
      invariant norm == Build(pairs[..i])
    {
      assert pairs[..i + 1][..i] == pairs[..i];
      var kk := HeaderOf(cells[i].0);
      var vv := Strip(cells[i].1);
      norm := Put(norm, kk, vv);
      i := i + 1;
    }
    assert pairs[..i] == pairs;
  }

  // ------------------------------------------------------------ first non-empty

  /** Key `k` of `_first_nonempty` finds a non-empty value. */
  predicate Hit(row: Row, k: string) {
    k != "" && FindByKey(row, HeaderOf(k)).Some? && FindByKey(row, HeaderOf(k)).value != ""
  }

  /** The value of the first requested key that hits. */
  function FromKeys(row: Row, keys: seq<string>): Option<string> {
    if keys == [] then None
    else if Hit(row, keys[0]) then FindByKey(row, HeaderOf(keys[0]))
    else FromKeys(row, keys[1..])
  }

  /** The first non-empty value of the row, in column order. */
  function FirstValue(row: Row): Option<string> {
    if row == [] then None
    else if row[0].1 != "" then Some(row[0].1)
    else FirstValue(row[1..])
  }

  /** `_first_nonempty(row, *keys, default=default)` */
  function FirstNonEmpty(row: Row, keys: seq<string>, default: Option<string>): Option<string> {
    var hit := FromKeys(row, keys);
    if hit.Some? then hit else if default.Some? then default else FirstValue(row)
  }

  /** The requested keys are tried in argument order: the first key that hits decides. */
  lemma {:induction false} FromKeysFirstHit(row: Row, keys: seq<string>, i: nat)
    requires i < |keys| && Hit(row, keys[i])
    requires forall j :: 0 <= j < i ==> !Hit(row, keys[j])
    ensures FromKeys(row, keys) == FindByKey(row, HeaderOf(keys[i]))
  {
    if i > 0 {
      FromKeysFirstHit(row, keys[1..], i - 1);
    }
  }

  lemma {:induction false} FromKeysNoHit(row: Row, keys: seq<string>)
    requires forall j :: 0 <= j < |keys| ==> !Hit(row, keys[j])
    ensures FromKeys(row, keys) == None
  {
    if keys != [] {
      FromKeysNoHit(row, keys[1..]);
    }
  }

  /** The fallback is the first non-empty value in column order, and `None` only when every value is empty. */
  lemma {:induction false} FirstValueMeaning(row: Row)
    ensures FirstValue(row).Some? ==> FirstValue(row).value != "" && exists e :: e in row && e.1 == FirstValue(row).value
    ensures FirstValue(row).Some? ==>
      exists i :: 0 <= i < |row| && row[i].1 == FirstValue(row).value && forall j :: 0 <= j < i ==> row[j].1 == ""
    ensures FirstValue(row).None? <==> forall e :: e in row ==> e.1 == ""
  {
    if row != [] {
      FirstValueMeaning(row[1..]);
      assert row == [row[0]] + row[1..];
      if row[0].1 != "" {
        assert row[0] in row;
      } else if FirstValue(row).Some? {
        var i :| 0 <= i < |row[1..]| && row[1..][i].1 == FirstValue(row).value
          && forall j :: 0 <= j < i ==> row[1..][j].1 == "";
        assert forall j :: 0 <= j < i + 1 ==> row[j].1 == "" by {
          forall j | 0 <= j < i + 1 ensures row[j].1 == "" {
            if j > 0 { assert row[j] == row[1..][j - 1]; }
          }
        }
        assert row[i + 1].1 == FirstValue(row).value;
      }
    }
  }

  /** A non-empty value with only empty values before it is the fallback. */
  lemma {:induction false} FirstValueAt(row: Row, i: nat)
    requires i < |row| && row[i].1 != ""
    requires forall j :: 0 <= j < i ==> row[j].1 == ""
    ensures FirstValue(row) == Some(row[i].1)
  {
    if i > 0 {
      FirstValueAt(row[1..], i - 1);
    }
  }

  /**
   * `_first_nonempty` gives `None` exactly when no default is given and every
   * value of the row is empty; any other result is the default or a non-empty
   * value of the row.
   */
  lemma FirstNonEmptyMeaning(row: Row, keys: seq<string>, default: Option<string>)
    ensures FirstNonEmpty(row, keys, default).None? <==> default.None? && forall e :: e in row ==> e.1 == ""
    ensures var r := FirstNonEmpty(row, keys, default);
      r.Some? && r != default ==> r.value != "" && exists e :: e in row && e.1 == r.value
  {
    FirstValueMeaning(row);
    FromKeysSound(row, keys);
  }

  lemma {:induction false} FromKeysSound(row: Row, keys: seq<string>)
    ensures FromKeys(row, keys).Some? ==> FromKeys(row, keys).value != "" && exists e :: e in row && e.1 == FromKeys(row, keys).value
  {
    if keys != [] && !Hit(row, keys[0]) {
      FromKeysSound(row, keys[1..]);
    } else if keys != [] {
      var v := FindByKey(row, HeaderOf(keys[0])).value;
      assert (HeaderOf(keys[0]), v) in row;
    }
  }

  /** The loops of `_first_nonempty`. */
  method FindFirstNonEmpty(row: Row, keys: seq<string>, default: Option<string>) returns (r: Option<string>)
    ensures r == FirstNonEmpty(row, keys, default)
  {
    var i := 0;
    while i < |keys|
      invariant 0 <= i <= |keys|
      invariant FromKeys(row, keys) == FromKeys(row, keys[i..])
    {
      assert keys[i..][1..] == keys[i + 1..];
      var k := keys[i];
      if k != "" {
        var v := FindByKey(row, HeaderOf(k));
        if v.Some? && v.value != "" {
          return v;
        }
      }
      i := i + 1;
    }
    if default.Some? {
      return default;
    }
    var j := 0;
    while j < |row|
      invariant 0 <= j <= |row|
      invariant FirstValue(row) == FirstValue(row[j..])
    {
      assert row[j..][1..] == row[j + 1..];
      if row[j].1 != "" {
        return Some(row[j].1);
      }
      j := j + 1;
    }
    return None;
  }

  // ----------------------------------------------------------------- homepages

  /** `s.lower().startswith(p)` for a lower-case `p`, read one character at a time. */
  predicate PrefixNoCase(s: string, p: string) {
    p == [] || (s != [] && LowerChar(s[0]) == p[0] && PrefixNoCase(s[1..], p[1..]))
  }

  lemma {:induction false} PrefixNoCaseMeaning(s: string, p: string)
    ensures PrefixNoCase(s, p) <==> StartsWith(Lower(s), p)
  {
    if p != [] && s != [] {
      PrefixNoCaseMeaning(s[1..], p[1..]);
      assert Lower(s)[1..] == Lower(s[1..]);
      if StartsWith(Lower(s), p) {
        assert Lower(s)[1..][..|p| - 1] == Lower(s)[..|p|][1..];
      }
      if StartsWith(Lower(s[1..]), p[1..]) && LowerChar(s[0]) == p[0] {
        assert Lower(s)[..|p|] == [p[0]] + Lower(s[1..])[..|p| - 1];
      }
    }
  }

  lemma {:induction false} PrefixNoCaseOwn(p: string, t: string)
    requires forall i :: 0 <= i < |p| ==> LowerChar(p[i]) == p[i]
    ensures PrefixNoCase(p + t, p)
  {
    if p != [] {
      assert (p + t)[1..] == p[1..] + t;
      PrefixNoCaseOwn(p[1..], t);
    }
  }

  /** `s.lower().startswith(("http://", "https://"))` */
  predicate HasScheme(s: string) {
    PrefixNoCase(s, "http://") || PrefixNoCase(s, "https://")
  }

  /** The scheme test is the lower-cased prefix test. */
  lemma HasSchemeMeaning(s: string)
    ensures HasScheme(s) <==> StartsWith(Lower(s), "http://") || StartsWith(Lower(s), "https://")
  {
    PrefixNoCaseMeaning(s, "http://");
    PrefixNoCaseMeaning(s, "https://");
  }

  /** `_normalize_homepage(u)` */
  function NormalizeHomepage(u: Option<string>): string {
    if u.None? || u.value == "" then ""
    else
      var s := Strip(u.value);
      if s == "" then ""
      else if HasScheme(s) then s
      else "https://" + LStripChar(s, '/')
  }

  /** `"https://" + t` has a scheme, and it is its own strip when `t` does not end in whitespace. */
  lemma HttpsPrefixed(t: string)
    requires t == [] || !IsSpace(t[|t| - 1])
    ensures HasScheme("https://" + t)
    ensures Strip("https://" + t) == "https://" + t
  {
    var r := "https://" + t;
    PrefixNoCaseOwn("https://", t);
    assert r[0] == 'h';
    if t != [] {
      assert r[|r| - 1] == t[|t| - 1];
    }
    StripOfTrimmed(r);
  }

  /** `_normalize_homepage` gives `""` exactly for `None` or blank input. */
  lemma NormalizeHomepageEmpty(u: Option<string>)
    ensures NormalizeHomepage(u) == "" <==> u.None? || AllSpace(u.value)
  {
    if u.Some? {
      StripEmptyIffBlank(u.value);
      if Strip(u.value) != "" && !HasScheme(Strip(u.value)) {
        NormalizeHomepageAddsScheme(u);
      }
    }
  }

  /**
   * Any non-empty result of `_normalize_homepage` has an `http://` or
   * `https://` scheme, and input that already has one comes back stripped
   * and otherwise unchanged.
   */
  lemma NormalizeHomepageScheme(u: Option<string>)
    ensures NormalizeHomepage(u) != "" ==> HasScheme(NormalizeHomepage(u))
    ensures u.Some? && HasScheme(Strip(u.value)) ==> NormalizeHomepage(u) == Strip(u.value)
  {
    if u.Some? && Strip(u.value) != "" && !HasScheme(Strip(u.value)) {
      NormalizeHomepageAddsScheme(u);
    } else if u.Some? && u.value == "" {
      assert Strip(u.value) == "";
    }
  }

  /** `_normalize_homepage` is idempotent. */
  lemma NormalizeHomepageIdempotent(u: Option<string>)
    ensures NormalizeHomepage(Some(NormalizeHomepage(u))) == NormalizeHomepage(u)
  {
    var r := NormalizeHomepage(u);
    if u.Some? && Strip(u.value) != "" {
      if HasScheme(Strip(u.value)) {
        StripIdempotent(u.value);
        assert r == Strip(u.value);
      } else {
        NormalizeHomepageAddsScheme(u);
      }
      NormalizeHomepageKeeps(r);
    } else {
      assert r == "";
    }
  }

  /** A stripped string with a scheme is its own normal form. */
  lemma NormalizeHomepageKeeps(s: string)
    requires s != "" && Strip(s) == s && HasScheme(s)
    ensures NormalizeHomepage(Some(s)) == s
  {
  }

  /** Input without a scheme gets `https://` in front of it, leading slashes dropped. */
  lemma NormalizeHomepageAddsScheme(u: Option<string>)
    requires u.Some? && Strip(u.value) != "" && !HasScheme(Strip(u.value))
    ensures var r := NormalizeHomepage(u);
      && r == "https://" + LStripChar(Strip(u.value), '/')
      && HasScheme(r) && Strip(r) == r
  {
    var t := LStripChar(Strip(u.value), '/');
    assert NormalizeHomepage(u) == "https://" + t;
    HttpsPrefixed(t);
  }

  // --------------------------------------------------------------- career URLs

  /** Headers that name a career link outright. */
  const CareerKeys: seq<string> := [
    "career_url", "careers_url", "career", "career page", "employment_url", "employment page",
    "jobs_url", "jobs page", "job_board_url", "job board", "ats_url", "portal_url", "hr_url", "hr page",
    "coach_url", "coach_search_url"
  ]

  /** Header prefixes that mark a possible career link. */
  const CareerPrefixes: seq<string> := ["career", "jobs", "job", "hr", "ats", "portal"]

  /** `k in keys`, one key at a time. */
  predicate ListHas(keys: seq<string>, k: string) {
    keys != [] && (keys[0] == k || ListHas(keys[1..], k))
  }

  /** `k.startswith(tuple(prefixes))`, one prefix at a time. */
  predicate HasAnyPrefix(k: string, prefixes: seq<string>) {
    prefixes != [] && (StartsWith(k, prefixes[0]) || HasAnyPrefix(k, prefixes[1..]))
  }

  /** The header test of `_collect_career_urls`. */
  predicate IsCareerKey(k: string) {
    ListHas(CareerKeys, k) || HasAnyPrefix(k, CareerPrefixes)
  }

  lemma {:induction false} ListHasMeaning(keys: seq<string>, k: string)
    ensures ListHas(keys, k) <==> k in keys
  {
    if keys != [] {
      ListHasMeaning(keys[1..], k);
      assert keys == [keys[0]] + keys[1..];
    }
  }

  lemma {:induction false} HasAnyPrefixMeaning(k: string, prefixes: seq<string>)
    ensures HasAnyPrefix(k, prefixes) <==> exists p :: p in prefixes && StartsWith(k, p)
  {
    if prefixes != [] {
      HasAnyPrefixMeaning(k, prefixes[1..]);
      assert prefixes == [prefixes[0]] + prefixes[1..];
    }
  }

  /** A header counts when it is one of the career headers or starts with one of the prefixes. */
  lemma IsCareerKeyMeaning(k: string)
    ensures IsCareerKey(k) <==> k in CareerKeys || exists p :: p in CareerPrefixes && StartsWith(k, p)
  {
    ListHasMeaning(CareerKeys, k);
    HasAnyPrefixMeaning(k, CareerPrefixes);
  }

  predicate IsSep(c: char) {
    c == ';' || c == '|'
  }

  predicate SepFree(s: string) {
    forall i :: 0 <= i < |s| ==> !IsSep(s[i])
  }

  /** Length of the leading run of non-separators: the position of the first `;` or `|`, if any. */
  function PieceLen(s: string): (n: nat)
    ensures n <= |s|
    ensures n < |s| ==> IsSep(s[n])
    ensures SepFree(s[..n])
  {
    if s == [] || IsSep(s[0]) then 0
    else
      var n := 1 + PieceLen(s[1..]);
      assert forall i :: 1 <= i < n ==> s[i] == s[1..][..n - 1][i - 1];
      n
  }

  /** Length of the leading run of separators. */
  function SepRunLen(s: string): (n: nat)
    ensures n <= |s|
    ensures s != [] && IsSep(s[0]) ==> n >= 1
  {
    if s == [] || !IsSep(s[0]) then 0 else 1 + SepRunLen(s[1..])
  }

  /** `re.split(r"[;|]+", s)`: the pieces between maximal runs of `;` and `|`. */
  function SplitSeps(s: string): seq<string>
    decreases |s|
  {
    var n := PieceLen(s);
    if n == |s| then [s]
    else
      var m := SepRunLen(s[n..]);
      [s[..n]] + SplitSeps(s[n + m..])
  }

  /** `s` with every separator removed. */
  function RemoveSeps(s: string): string {
    if s == [] then [] else (if IsSep(s[0]) then [] else [s[0]]) + RemoveSeps(s[1..])
  }

  function Concat(parts: seq<string>): string {
    if parts == [] then [] else parts[0] + Concat(parts[1..])
  }

  lemma {:induction false} RemoveSepsAppend(a: string, b: string)
    ensures RemoveSeps(a + b) == RemoveSeps(a) + RemoveSeps(b)
  {
    if a != [] {
      assert (a + b)[1..] == a[1..] + b;
      RemoveSepsAppend(a[1..], b);
    } else {
      assert a + b == b;
    }
  }

  /** The leading piece holds no separator, so removing separators leaves it as it is. */
  lemma {:induction false} PieceLenFree(s: string)
    ensures SepFree(s[..PieceLen(s)])
    ensures RemoveSeps(s[..PieceLen(s)]) == s[..PieceLen(s)]
  {
    if s != [] && !IsSep(s[0]) {
      var n := PieceLen(s);
      PieceLenFree(s[1..]);
      var tail := s[1..][..n - 1];
      assert s[..n] == [s[0]] + tail;
      assert ([s[0]] + tail)[1..] == tail;
    }
  }

  /** The leading run of separators vanishes when separators are removed. */
  lemma {:induction false} SepRunRemoved(s: string)
    ensures RemoveSeps(s[..SepRunLen(s)]) == []
  {
    if s != [] && IsSep(s[0]) {
      var n := SepRunLen(s);
      SepRunRemoved(s[1..]);
      var tail := s[1..][..n - 1];
      assert s[..n] == [s[0]] + tail;
      assert ([s[0]] + tail)[1..] == tail;
    }
  }

  /** Removing separators from a piece, a run of separators and the rest. */
  lemma RemoveSepsStep(piece: string, run: string, rest: string)
    requires RemoveSeps(piece) == piece && RemoveSeps(run) == []
    ensures RemoveSeps(piece + run + rest) == piece + RemoveSeps(rest)
  {
    assert piece + run + rest == piece + (run + rest);
    RemoveSepsAppend(piece, run + rest);
    RemoveSepsAppend(run, rest);
  }

  /** The pieces hold no separator, and together they are the cell without its separators. */
  lemma {:induction false} SplitSepsPieces(s: string)
    decreases |s|
    ensures forall p :: p in SplitSeps(s) ==> SepFree(p)
    ensures Concat(SplitSeps(s)) == RemoveSeps(s)
  {
    var n := PieceLen(s);
    PieceLenFree(s);
    if n == |s| {
      assert s[..n] == s;
      assert Concat([s]) == s + Concat([]);
    } else {
      var m := SepRunLen(s[n..]);
      SepRunRemoved(s[n..]);
      var run := s[n..][..m];
      var rest := s[n + m..];
      SplitSepsPieces(rest);
      RemoveSepsStep(s[..n], run, rest);
      assert s == s[..n] + run + rest;
      var parts := SplitSeps(s);
      assert parts == [s[..n]] + SplitSeps(rest);
      assert parts[1..] == SplitSeps(rest);
      assert Concat(parts) == s[..n] + Concat(SplitSeps(rest));
    }
  }

  /** The leading piece ends at the first separator. */
  lemma {:induction false} PieceLenAt(s: string, k: nat)
    requires k <= |s| && SepFree(s[..k])
    requires k < |s| ==> IsSep(s[k])
    ensures PieceLen(s) == k
  {
    if k > 0 {
      assert s[0] == s[..k][0];
      assert s[1..][..k - 1] == s[1..k];
      assert forall i :: 0 <= i < k - 1 ==> s[1..k][i] == s[..k][i + 1];
      PieceLenAt(s[1..], k - 1);
    }
  }

  /** A separator-free cell is a single piece. */
  lemma SplitSepsFree(s: string)
    requires SepFree(s)
    ensures SplitSeps(s) == [s]
  {
    assert s[..|s|] == s;
    PieceLenAt(s, |s|);
  }

  /**
   * Splitting is the inverse of joining with one separator: pieces that hold no
   * separator, with none empty except possibly the first and the last, come back
   * as they were joined.
   */
  lemma {:induction false} SplitSepsJoin(c: char, ps: seq<string>)
    requires IsSep(c) && ps != []
    requires forall p :: p in ps ==> SepFree(p)
    requires forall i :: 0 < i < |ps| - 1 ==> ps[i] != ""
    ensures SplitSeps(Join([c], ps)) == ps
  {
    var p := ps[0];
    assert p in ps;
    if |ps| == 1 {
      SplitSepsFree(p);
    } else {
      var rest := ps[1..];
      var j := Join([c], rest);
      var s := Join([c], ps);
      assert s == p + [c] + j;
      var n := |p|;
      assert s[..n] == p && s[n] == c;
      PieceLenAt(s, n);
      assert rest[0] in ps;
      if |rest| >= 2 {
        assert j == rest[0] + [c] + Join([c], rest[1..]);
        assert rest[0] != "";
        assert j[0] == rest[0][0];
      }
      assert j == [] || !IsSep(j[0]);
      assert s[n..] == [c] + j;
      assert ([c] + j)[1..] == j;
      assert SepRunLen(s[n..]) == 1;
      assert s[n + 1..] == j;
      forall q | q in rest
        ensures SepFree(q)
      {
        assert q in ps;
      }
      forall i | 0 < i < |rest| - 1
        ensures rest[i] != ""
      {
        assert rest[i] == ps[i + 1];
      }
      SplitSepsJoin(c, rest);
      assert ps == [p] + rest;
    }
  }

  /** The normalised form of each piece, in order. */
  function Normalized(parts: seq<string>): (r: seq<string>)
    ensures |r| == |parts|
  {
    if parts == [] then []
    else Normalized(parts[..|parts| - 1]) + [NormalizeHomepage(Some(parts[|parts| - 1]))]
  }

  lemma {:induction false} NormalizedAt(parts: seq<string>, i: nat)
    requires i < |parts|
    ensures Normalized(parts)[i] == NormalizeHomepage(Some(parts[i]))
  {
    if i < |parts| - 1 {
      NormalizedAt(parts[..|parts| - 1], i);
    }
  }

  /** The URLs one cell offers: its normalised pieces when it is a non-empty career cell. */
  function CellUrls(cell: (string, string)): seq<string> {
    if cell.1 != "" && IsCareerKey(cell.0) then Normalized(SplitSeps(cell.1)) else []
  }

  /** The URLs the row offers, cell by cell, duplicates and empties included. */
  function RowUrls(row: Row): seq<string> {
    if row == [] then [] else RowUrls(row[..|row| - 1]) + CellUrls(row[|row| - 1])
  }

  /** The list after appending each non-empty value not already in it. */
  function Dedup(xs: seq<string>): seq<string> {
    if xs == [] then []
    else
      var d := Dedup(xs[..|xs| - 1]);
      var x := xs[|xs| - 1];
      if x != "" && x !in d then d + [x] else d
  }

  /** `_collect_career_urls(row)` */
  function CareerUrls(row: Row): seq<string> {
    Dedup(RowUrls(row))
  }

  /** Dedup keeps exactly the non-empty values, once each, in order of first occurrence. */
  lemma {:induction false} DedupMeaning(xs: seq<string>)
    ensures forall x :: x in Dedup(xs) <==> x in xs && x != ""
    ensures forall i, j :: 0 <= i < j < |Dedup(xs)| ==> Dedup(xs)[i] != Dedup(xs)[j]
    ensures forall i, j :: 0 <= i < j < |Dedup(xs)| ==>
      FirstIndex(xs, Dedup(xs)[i]).value < FirstIndex(xs, Dedup(xs)[j]).value
  {
    if xs != [] {
      var init := xs[..|xs| - 1];
      var x := xs[|xs| - 1];
      var d := Dedup(init);
      DedupMeaning(init);
      assert xs == init + [x];
      forall y | y in d
        ensures FirstIndex(xs, y) == FirstIndex(init, y)
      {
        FirstIndexPrefix(init, [x], y);
      }
      if x != "" && x !in d {
        assert x !in init;
        FirstIndexAt(xs, x, |xs| - 1);
        var d' := d + [x];
        forall i, j | 0 <= i < j < |d'|
          ensures FirstIndex(xs, d'[i]).value < FirstIndex(xs, d'[j]).value
        {
          assert d'[i] == d[i] && d[i] in d;
          if j < |d| {
            assert d'[j] == d[j] && d[j] in d;
          }
        }
      }
    }
  }

  /** The non-empty career cell `c` has a piece that normalises to `x`. */
  predicate CellOffers(c: (string, string), x: string) {
    c.1 != "" && IsCareerKey(c.0) && exists p :: p in SplitSeps(c.1) && NormalizeHomepage(Some(p)) == x
  }

  lemma NormalizedMembers(parts: seq<string>, x: string)
    ensures x in Normalized(parts) <==> exists p :: p in parts && NormalizeHomepage(Some(p)) == x
  {
    forall i | 0 <= i < |parts|
      ensures Normalized(parts)[i] == NormalizeHomepage(Some(parts[i]))
    {
      NormalizedAt(parts, i);
    }
    ImageMembers((p: string) => NormalizeHomepage(Some(p)), parts, Normalized(parts), x);
  }

  /** A URL is offered exactly when some non-empty career cell has a piece that normalises to it. */
  lemma {:induction false} RowUrlsMembers(row: Row, x: string)
    ensures x in RowUrls(row) <==> exists c :: c in row && CellOffers(c, x)
  {
    if row != [] {
      var init := row[..|row| - 1];
      var c := row[|row| - 1];
      assert row == init + [c];
      RowUrlsMembers(init, x);
      NormalizedMembers(SplitSeps(c.1), x);
      assert x in CellUrls(c) <==> CellOffers(c, x);
    }
  }

  /**
   * The career URLs of a row hold no duplicates and no empty strings, each
   * has an `http://` or `https://` scheme, and they come in the order in
   * which the row first offers them.
   */
  lemma CareerUrlsShape(row: Row)
    ensures var out := CareerUrls(row);
      && (forall i, j :: 0 <= i < j < |out| ==> out[i] != out[j])
      && (forall x :: x in out ==> x != "" && HasScheme(x) && x in RowUrls(row))
      && (forall i, j :: 0 <= i < j < |out| ==>
            FirstIndex(RowUrls(row), out[i]).value < FirstIndex(RowUrls(row), out[j]).value)
  {
    DedupMeaning(RowUrls(row));
    forall x | x in CareerUrls(row)
      ensures HasScheme(x)
    {
      RowUrlsMembers(row, x);
      var c :| c in row && CellOffers(c, x);
      var p :| p in SplitSeps(c.1) && NormalizeHomepage(Some(p)) == x;
      NormalizeHomepageScheme(Some(p));
    }
  }

  /**
   * A URL is collected exactly when it is non-empty and some non-empty cell
   * under a career header has a piece that normalises to it.
   */
  lemma CareerUrlsMembers(row: Row, x: string)
    ensures x in CareerUrls(row) <==> x != "" && exists c :: c in row && CellOffers(c, x)
  {
    DedupMeaning(RowUrls(row));
    RowUrlsMembers(row, x);
  }

  /** One step of `Dedup`: a value is appended when it is non-empty and new. */
  lemma DedupSnoc(xs: seq<string>, u: string)
    ensures Dedup(xs + [u]) == if u != "" && u !in Dedup(xs) then Dedup(xs) + [u] else Dedup(xs)
  {
    assert (xs + [u])[..|xs|] == xs;
  }

  /** The loop body's fix-up of a piece is `_normalize_homepage` of that piece. */
  lemma FixUpIsNormalize(p: string)
    ensures var u := Strip(p);
      (if u != "" && !HasScheme(u) then "https://" + LStripChar(u, '/') else u) == NormalizeHomepage(Some(p))
  {
    if p == "" {
      assert Strip(p) == "";
    }
  }

  /** One piece more: `Dedup` over the URLs seen so far and the first `j + 1` pieces. */
  lemma AddPiecesStep(seen: seq<string>, parts: seq<string>, j: nat)
    requires j < |parts|
    ensures var u := NormalizeHomepage(Some(parts[j]));
      var d := Dedup(seen + Normalized(parts[..j]));
      Dedup(seen + Normalized(parts[..j + 1])) == if u != "" && u !in d then d + [u] else d
  {
    var u := NormalizeHomepage(Some(parts[j]));
    assert parts[..j + 1][..j] == parts[..j];
    assert seen + Normalized(parts[..j + 1]) == (seen + Normalized(parts[..j])) + [u];
    DedupSnoc(seen + Normalized(parts[..j]), u);
  }

  /** The inner loop of `_collect_career_urls`: each piece fixed up, appended when non-empty and new. */
  method AddPieces(out0: seq<string>, ghost seen: seq<string>, parts: seq<string>) returns (out: seq<string>)
    requires out0 == Dedup(seen)
    ensures out == Dedup(seen + Normalized(parts))
  {
    out := out0;
    assert seen + Normalized(parts[..0]) == seen;
    var j := 0;
    while j < |parts|
      invariant 0 <= j <= |parts|
      invariant out == Dedup(seen + Normalized(parts[..j]))
    {
      var u := Strip(parts[j]);
      if u != "" && !HasScheme(u) {
        u := "https://" + LStripChar(u, '/');
      }
      FixUpIsNormalize(parts[j]);
      AddPiecesStep(seen, parts, j);
      if u != "" && u !in out {
        out := out + [u];
      }
      j := j + 1;
    }
    assert parts[..|parts|] == parts;
  }

  /** One cell more: `RowUrls` of the first `i + 1` cells. */
  lemma RowUrlsStep(row: Row, i: nat)
    requires i < |row|
    ensures RowUrls(row[..i + 1]) == RowUrls(row[..i]) +
      if row[i].1 != "" && IsCareerKey(row[i].0) then Normalized(SplitSeps(row[i].1)) else []
  {
    assert row[..i + 1][..i] == row[..i];
  }

  /** The outer loop of `_collect_career_urls`, over the cells of the row. */
  method CollectCareerUrls(row: Row) returns (out: seq<string>)
    requires DistinctHeaders(row)
    ensures out == CareerUrls(row)
  {
    out := [];
    var i := 0;
    while i < |row|
      invariant 0 <= i <= |row|
      invariant out == Dedup(RowUrls(row[..i]))
    {
      var k := row[i].0;
      var v := row[i].1;
      RowUrlsStep(row, i);
      if v != "" && IsCareerKey(k) {
        out := AddPieces(out, RowUrls(row[..i]), SplitSeps(v));
      } else {
        assert RowUrls(row[..i]) + [] == RowUrls(row[..i]);
      }
      i := i + 1;
    }
    assert row[..|row|] == row;
  }

  // ------------------------------------------------------------------ districts

  /** A district as `_iter_from_file` yields it. */
  datatype District = District(
    state: string, name: string, homepage: string,
    districtEmail: Option<string>, aboutUrl: Option<string>, districtId: Option<string>,
    careerUrls: seq<string>)

  const NameKeys: seq<string> := ["district", "district_name", "name", "school district"]
  const HomepageKeys: seq<string> := [
    "homepage", "homepage_url", "home page", "website", "site", "url",
    "district_homepage", "district homepage", "www"
  ]
  const EmailKeys: seq<string> := ["district_email", "email", "contact_email", "hr_email"]
  const AboutKeys: seq<string> := ["about_url", "about page", "about"]
  const IdKeys: seq<string> := ["district_id", "lea_id", "id"]

  /** `x or None` */
  function NoneIfEmpty(o: Option<string>): Option<string> {
    if o.Some? && o.value != "" then o else None
  }

  /** `(name or "").strip() or "Unknown District"` */
  function DistrictName(name: Option<string>): string {
    Or(Strip(name.GetOr("")), "Unknown District")
  }

  /** The name is the stripped name given, or `Unknown District` when that is blank; never empty. */
  lemma DistrictNameMeaning(name: Option<string>)
    ensures DistrictName(name) != "" && Strip(DistrictName(name)) == DistrictName(name)
    ensures name.None? || AllSpace(name.value) ==> DistrictName(name) == "Unknown District"
    ensures name.Some? && !AllSpace(name.value) ==> DistrictName(name) == Strip(name.value)
  {
    var given := name.GetOr("");
    var t := Strip(given);
    assert DistrictName(name) == Or(t, "Unknown District");
    assert t == "" <==> AllSpace(given) by { StripEmptyIffBlank(given); }
    if t == "" {
      UnknownDistrictTrimmed();
    } else {
      assert Strip(t) == t by { StripIdempotent(given); }
    }
  }

  lemma UnknownDistrictTrimmed()
    ensures Strip("Unknown District") == "Unknown District"
  {
    StripOfTrimmed("Unknown District");
  }

  /**
   * The `District(...)` of `_iter_from_file` from the looked-up values: the
   * name of `DistrictName`, the homepage of `_normalize_homepage`, and
   * optional fields that are `None` rather than empty.
   */
  function MakeDistrict(state: string, name: Option<string>, homepage: Option<string>,
                        email: Option<string>, about: Option<string>, id: Option<string>,
                        careers: seq<string>): (d: District)
    ensures d.state == state && d.careerUrls == careers
    ensures d.name == DistrictName(name) && d.homepage == NormalizeHomepage(homepage)
    ensures d.districtEmail.Some? <==> email.Some? && email.value != ""
    ensures d.districtEmail.Some? ==> d.districtEmail == email
    ensures d.aboutUrl.Some? <==> about.Some? && about.value != ""
    ensures d.aboutUrl.Some? ==> d.aboutUrl == about
    ensures d.districtId.Some? <==> id.Some? && id.value != ""
    ensures d.districtId.Some? ==> d.districtId == id
  {
    District(state, DistrictName(name), NormalizeHomepage(homepage),
             NoneIfEmpty(email), NoneIfEmpty(about), NoneIfEmpty(id), careers)
  }

  /** The district one row describes; a row is a dict, so its headers are distinct. */
  function RowToDistrict(state: string, row: Row): District
    requires DistinctHeaders(row)
  {
    MakeDistrict(
      state,
      FirstNonEmpty(row, NameKeys, None),
      FirstNonEmpty(row, HomepageKeys, None),
      FirstNonEmpty(row, EmailKeys, None),
      FirstNonEmpty(row, AboutKeys, None),
      FirstNonEmpty(row, IdKeys, None),
      CareerUrls(row))
  }

  /** The district of one record of the file, given as its columns: read the dict, then the district. */
  function FileDistrict(state: string, columns: seq<(string, string)>): District {
    ReadRowDistinct(Build(columns));
    RowToDistrict(state, ReadRecord(columns))
  }

  /**
   * `_iter_from_file` over the records of the file, each given as its (raw
   * header, value) columns in column order: one district per record, in record
   * order, each read from the dict `_read_csv_rows` makes of its `DictReader` row.
   */
  function RowsToDistricts(state: string, rows: seq<seq<(string, string)>>): (ds: seq<District>)
    ensures |ds| == |rows| && forall i :: 0 <= i < |rows| ==> ds[i] == FileDistrict(state, rows[i])
  {
    seq(|rows|, i requires 0 <= i < |rows| => FileDistrict(state, rows[i]))
  }

  /**
   * The fallback of `_first_nonempty` reaches every field: when none of the
   * e-mail headers has a value, the district's e-mail is the first non-empty
   * value of the row, whichever column holds it.
   */
  lemma EmailFallsBackToFirstValue(state: string, row: Row)
    requires DistinctHeaders(row)
    requires forall j :: 0 <= j < |EmailKeys| ==> !Hit(row, EmailKeys[j])
    ensures RowToDistrict(state, row).districtEmail == FirstValue(row)
  {
    FromKeysNoHit(row, EmailKeys);
    FirstValueMeaning(row);
  }

  // --------------------------------------------------------------- state files

  /** Python's `<` on strings: lexicographic by code point. */
  predicate LexLess(a: string, b: string) {
    b != [] && (a == [] || a[0] < b[0] || (a[0] == b[0] && LexLess(a[1..], b[1..])))
  }

  lemma {:induction false} LexLessTrans(a: string, b: string, c: string)
    requires LexLess(a, b) && LexLess(b, c)
    ensures LexLess(a, c)
  {
    if a != [] && a[0] == b[0] && b[0] == c[0] {
      LexLessTrans(a[1..], b[1..], c[1..]);
    }
  }

  /** The sort key `(len(name), name.lower())`, compared as Python compares tuples. */
  predicate KeyLess(a: string, b: string) {
    |a| < |b| || (|a| == |b| && LexLess(Lower(a), Lower(b)))
  }

  lemma KeyLessTrans(a: string, b: string, c: string)
    requires KeyLess(a, b) && KeyLess(b, c)
    ensures KeyLess(a, c)
  {
    if |a| == |b| == |c| {
      LexLessTrans(Lower(a), Lower(b), Lower(c));
    }
  }

  predicate IsWordChar(c: char) {
    IsAlnum(c) || c == '_'
  }

  /** `\b` at position `j` of `s`. */
  predicate Boundary(s: string, j: nat)
    requires j <= |s|
  {
    (j > 0 && IsWordChar(s[j - 1])) != (j < |s| && IsWordChar(s[j]))
  }

  /** `.*\.csv$` matches the rest `t`. */
  predicate EndsCsv(t: string) {
    |t| >= 4 && t[|t| - 4..] == ".csv"
  }

  /** The pattern `(^|[/\-_ ])<st>(\.|\b).*\.csv$` matches with `st` starting at `i`. */
  predicate FuzzyAt(name: string, st: string, i: nat)
    requires i + |st| <= |name|
  {
    && (i == 0 || name[i - 1] in "/-_ ")
    && name[i..i + |st|] == st
    && var j := i + |st|;
       (j < |name| && name[j] == '.' && EndsCsv(name[j + 1..])) || (Boundary(name, j) && EndsCsv(name[j..]))
  }

  /** `rx.search(name)` for the fuzzy pattern of the lower-cased state `st`. */
  predicate Fuzzy(name: string, st: string) {
    exists i: nat :: i + |st| <= |name| && FuzzyAt(name, st, i)
  }

  /** The first fuzzy candidate with the least sort key. */
  function BestFuzzy(cands: seq<string>, st: string): Option<string> {
    if cands == [] then None
    else
      var best := BestFuzzy(cands[..|cands| - 1], st);
      var c := cands[|cands| - 1];
      if Fuzzy(Lower(c), st) && (best.None? || KeyLess(c, best.value)) then Some(c) else best
  }

  /**
   * The fuzzy choice is a fuzzy candidate that no other fuzzy candidate beats:
   * the shortest name, ties broken by lower-cased name; there is none only when
   * no candidate matches. As the sort is stable, among candidates with equal
   * keys the first in glob order is chosen: every fuzzy candidate before the
   * chosen one has a strictly greater key.
   */
  lemma {:induction false} BestFuzzyMeaning(cands: seq<string>, st: string)
    ensures var b := BestFuzzy(cands, st);
      && (b.Some? ==> b.value in cands && Fuzzy(Lower(b.value), st))
      && (b.Some? ==> forall q :: q in cands && Fuzzy(Lower(q), st) ==> !KeyLess(q, b.value))
      && (b.None? <==> forall q :: q in cands ==> !Fuzzy(Lower(q), st))
      && (b.Some? ==>
            exists i :: 0 <= i < |cands| && b.value == cands[i]
              && forall k :: 0 <= k < i && Fuzzy(Lower(cands[k]), st) ==> KeyLess(cands[i], cands[k]))
  {
    if cands != [] {
      var n := |cands| - 1;
      var init := cands[..n];
      var c := cands[n];
      BestFuzzyMeaning(init, st);
      assert cands == init + [c];
      var best := BestFuzzy(init, st);
      if Fuzzy(Lower(c), st) && (best.None? || KeyLess(c, best.value)) {
        forall q | q in cands && Fuzzy(Lower(q), st)
          ensures !KeyLess(q, c)
        {
          if q in init && KeyLess(q, c) {
            KeyLessTrans(q, c, best.value);
          } else if q == c && KeyLess(c, c) {
            LexLessIrreflexive(Lower(c));
          }
        }
        forall k | 0 <= k < n && Fuzzy(Lower(cands[k]), st)
          ensures KeyLess(c, cands[k])
        {
          assert cands[k] == init[k] && init[k] in init;
          KeyLessBefore(c, best.value, cands[k]);
        }
      } else if best.Some? {
        forall q | q in cands && Fuzzy(Lower(q), st)
          ensures !KeyLess(q, best.value)
        {
        }
        var i :| 0 <= i < |init| && best.value == init[i]
          && forall k :: 0 <= k < i && Fuzzy(Lower(init[k]), st) ==> KeyLess(init[i], init[k]);
        assert cands[i] == init[i];
        assert forall k :: 0 <= k < i ==> cands[k] == init[k];
      }
    }
  }

  /** A key below `b` is below every key that is not below `b`. */
  lemma KeyLessBefore(a: string, b: string, q: string)
    requires KeyLess(a, b) && !KeyLess(q, b)
    ensures KeyLess(a, q)
  {
    LexLessTotal(Lower(q), Lower(b));
    if KeyLess(b, q) {
      KeyLessTrans(a, b, q);
    }
  }

  /** Python's string order is total. */
  lemma {:induction false} LexLessTotal(a: string, b: string)
    ensures LexLess(a, b) || a == b || LexLess(b, a)
  {
    if a != [] && b != [] && a[0] == b[0] {
      LexLessTotal(a[1..], b[1..]);
      if a[1..] == b[1..] {
        assert a == [a[0]] + a[1..] && b == [b[0]] + b[1..];
      }
    }
  }

  lemma {:induction false} LexLessIrreflexive(a: string)
    ensures !LexLess(a, a)
  {
    if a != [] {
      LexLessIrreflexive(a[1..]);
    }
  }

  /** The file names lower-cased, position by position. */
  function Lowered(names: seq<string>): (r: seq<string>)
    ensures |r| == |names| && forall i :: 0 <= i < |names| ==> r[i] == Lower(names[i])
  {
    seq(|names|, i requires 0 <= i < |names| => Lower(names[i]))
  }

  /**
   * `_find_state_csv(base, state)` over the directory as seen by the function:
   * whether `{STATE}.csv` exists, and the names `*.csv` globs to, in glob order.
   * The result is the chosen file name.
   */
  function StateCsv(state: string, exactExists: bool, cands: seq<string>): Option<string> {
    var st := Upper(Strip(state));
    if st == "" then None
    else if exactExists then Some(st + ".csv")
    else match FirstIndex(Lowered(cands), Lower(st) + ".csv")
      case Some(i) => Some(cands[i])
      case None => BestFuzzy(cands, Lower(st))
  }

  /** A blank state names no file. */
  lemma StateCsvBlank(state: string, exactExists: bool, cands: seq<string>)
    requires AllSpace(state)
    ensures StateCsv(state, exactExists, cands).None?
  {
    StripEmptyIffBlank(state);
  }

  /** An existing `{STATE}.csv` wins over every other file. */
  lemma StateCsvExact(state: string, cands: seq<string>)
    requires !AllSpace(state)
    ensures StateCsv(state, true, cands) == Some(Upper(Strip(state)) + ".csv")
  {
    StripEmptyIffBlank(state);
    assert |Upper(Strip(state))| == |Strip(state)|;
  }

  /** Otherwise the first file whose name equals `{state}.csv` ignoring case wins. */
  lemma StateCsvCaseInsensitive(state: string, cands: seq<string>, k: nat)
    requires !AllSpace(state)
    requires k < |cands| && Lower(cands[k]) == Lower(Upper(Strip(state))) + ".csv"
    requires forall k' :: 0 <= k' < k ==> Lower(cands[k']) != Lower(Upper(Strip(state))) + ".csv"
    ensures StateCsv(state, false, cands) == Some(cands[k])
  {
    StripEmptyIffBlank(state);
    assert |Upper(Strip(state))| == |Strip(state)|;
    FirstIndexAt(Lowered(cands), Lower(Upper(Strip(state))) + ".csv", k);
  }

  /** Failing both, the best fuzzy match is chosen. */
  lemma StateCsvFuzzy(state: string, cands: seq<string>)
    requires !AllSpace(state)
    requires forall q :: q in cands ==> Lower(q) != Lower(Upper(Strip(state))) + ".csv"
    ensures StateCsv(state, false, cands) == BestFuzzy(cands, Lower(Upper(Strip(state))))
  {
    StripEmptyIffBlank(state);
    assert |Upper(Strip(state))| == |Strip(state)|;
    var target := Lower(Upper(Strip(state))) + ".csv";
    assert target !in Lowered(cands);
  }

  /** The loops of `_find_state_csv`: the case-insensitive search with early return,
      then the least fuzzy candidate (the first after a stable sort by the key). */
  method FindStateCsv(state: string, exactExists: bool, cands: seq<string>) returns (r: Option<string>)
    ensures r == StateCsv(state, exactExists, cands)
  {
    var st := Upper(Strip(state));
    if st == "" {
      return None;
    }
    if exactExists {
      return Some(st + ".csv");
    }
    var target := Lower(st) + ".csv";
    var i := 0;
    while i < |cands|
      invariant 0 <= i <= |cands|
      invariant forall k :: 0 <= k < i ==> Lowered(cands)[k] != target
    {
      if Lower(cands[i]) == target {
        FirstIndexAt(Lowered(cands), target, i);
        return Some(cands[i]);
      }
      i := i + 1;
    }
    assert FirstIndex(Lowered(cands), target).None?;
    var best: Option<string> := None;
    var j := 0;
    while j < |cands|
      invariant 0 <= j <= |cands|
      invariant best == BestFuzzy(cands[..j], Lower(st))
    {
      assert cands[..j + 1][..j] == cands[..j];
      if Fuzzy(Lower(cands[j]), Lower(st)) && (best.None? || KeyLess(cands[j], best.value)) {
        best := Some(cands[j]);
      }
      j := j + 1;
    }
    assert cands[..|cands|] == cands;
    return best;
  }
}
