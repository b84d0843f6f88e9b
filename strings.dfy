/**
 * The small part of Python's `str` behaviour that the scraper's string utilities
 * rely on, restricted to ASCII: `isspace`, `isalnum`, `lower`, `upper`, `strip`,
 * `startswith`, substring search, `sep.join` and whitespace `split()`.
 */
module Strings {

  /** `str.isspace` on ASCII: tab, line feed, vertical tab, form feed, carriage
      return, the four information separators 0x1C..0x1F, and space. */
  predicate IsSpace(c: char) {
    (9 <= c as int <= 13) || (28 <= c as int <= 32)
  }

  predicate IsUpper(c: char) { 'A' <= c <= 'Z' }

  predicate IsLower(c: char) { 'a' <= c <= 'z' }

  predicate IsDigit(c: char) { '0' as int <= c as int <= '9' as int }

  predicate IsAlnum(c: char) { IsUpper(c) || IsLower(c) || IsDigit(c) }

  function LowerChar(c: char): char {
    if IsUpper(c) then (c as int + 32) as char else c
  }

  function UpperChar(c: char): char {
    if IsLower(c) then (c as int - 32) as char else c
  }

  /** `s.lower()` */
  function Lower(s: string): string {
    seq(|s|, i requires 0 <= i < |s| => LowerChar(s[i]))
  }

  /** `s.upper()` */
  function Upper(s: string): string {
    seq(|s|, i requires 0 <= i < |s| => UpperChar(s[i]))
  }

  predicate AllSpace(s: string) {
    forall i :: 0 <= i < |s| ==> IsSpace(s[i])
  }

  predicate NoSpace(s: string) {
    forall i :: 0 <= i < |s| ==> !IsSpace(s[i])
  }

  /** `s.lstrip()`: drops the leading whitespace and nothing else. */
  function LStrip(s: string): (r: string)
    ensures |r| <= |s| && r == s[|s| - |r|..]
    ensures AllSpace(s[..|s| - |r|])
    ensures r == [] || !IsSpace(r[0])
  {
    if s != [] && IsSpace(s[0]) then
      var r := LStrip(s[1..]);
      assert s[..|s| - |r|] == [s[0]] + s[1..][..|s| - 1 - |r|];
      r
    else s
  }

  /** `s.rstrip()`: drops the trailing whitespace and nothing else. */
  function RStrip(s: string): (r: string)
    ensures |r| <= |s| && r == s[..|r|]
    ensures AllSpace(s[|r|..])
    ensures r == [] || !IsSpace(r[|r| - 1])
  {
    if s != [] && IsSpace(s[|s| - 1]) then
      var r := RStrip(s[..|s| - 1]);
      assert s[|r|..] == s[..|s| - 1][|r|..] + [s[|s| - 1]];
      r
    else s
  }

  /** `s.strip()` */
  function Strip(s: string): (r: string)
    ensures r == [] || (!IsSpace(r[0]) && !IsSpace(r[|r| - 1]))
  {
    RStrip(LStrip(s))
  }

  /** `s.strip()` is empty exactly when `s` is all whitespace. */
  lemma StripEmptyIffBlank(s: string)
    ensures Strip(s) == [] <==> AllSpace(s)
  {
    var l := LStrip(s);
    var r := RStrip(l);
    if r == [] {
      assert s == s[..|s| - |l|] + l;
      assert AllSpace(l[|r|..]);
    }
  }

  /** A string with no whitespace at either end is its own `strip()`. */
  lemma StripOfTrimmed(s: string)
    requires s == [] || (!IsSpace(s[0]) && !IsSpace(s[|s| - 1]))
    ensures Strip(s) == s
  {
  }

  lemma StripIdempotent(s: string)
    ensures Strip(Strip(s)) == Strip(s)
  {
    StripOfTrimmed(Strip(s));
  }

  /** `s.lstrip(c)` for a single character `c`. */
  function LStripChar(s: string, c: char): (r: string)
    ensures |r| <= |s| && r == s[|s| - |r|..]
    ensures r == [] || r[0] != c
    ensures forall i :: 0 <= i < |s| - |r| ==> s[i] == c
  {
    if s != [] && s[0] == c then LStripChar(s[1..], c) else s
  }

  /** `a or b` on strings. */
  function Or(a: string, b: string): string {
    if a != "" then a else b
  }

  /** `s.startswith(p)` */
  predicate StartsWith(s: string, p: string) {
    |p| <= |s| && s[..|p|] == p
  }

  /** `t in s` for strings. */
  predicate Contains(s: string, t: string) {
    StartsWith(s, t) || (s != [] && Contains(s[1..], t))
  }

  /** `sep.join(parts)` */
  function Join(sep: string, parts: seq<string>): string
  {
    if |parts| == 0 then ""
    else if |parts| == 1 then parts[0]
    else parts[0] + sep + Join(sep, parts[1..])
  }

  /** Every character of a join comes from the separator or from one of the parts. */
  lemma {:induction false} JoinChars(sep: string, parts: seq<string>, k: nat)
    requires k < |Join(sep, parts)|
    ensures Join(sep, parts)[k] in sep || exists p :: p in parts && Join(sep, parts)[k] in p
  {
    if |parts| >= 2 {
      var rest := Join(sep, parts[1..]);
      if k < |parts[0]| {
        assert Join(sep, parts)[k] == parts[0][k] && parts[0] in parts;
      } else if k < |parts[0]| + |sep| {
        assert Join(sep, parts)[k] == sep[k - |parts[0]|];
      } else {
        JoinChars(sep, parts[1..], k - |parts[0]| - |sep|);
        assert Join(sep, parts)[k] == rest[k - |parts[0]| - |sep|];
        assert forall p :: p in parts[1..] ==> p in parts;
      }
    } else if |parts| == 1 {
      assert Join(sep, parts)[k] in parts[0];
    }
  }

  /** Length of the leading run of non-whitespace characters. */
  function WordLen(s: string): (n: nat)
    ensures n <= |s|
    ensures NoSpace(s[..n])
    ensures n < |s| ==> IsSpace(s[n])
  {
    if s == [] || IsSpace(s[0]) then 0 else 1 + WordLen(s[1..])
  }

  /** `s.split()` with no separator: the maximal runs of non-whitespace, in order. */
  function Split(s: string): seq<string>
    decreases |s|
  {
    if s == [] then []
    else if IsSpace(s[0]) then Split(s[1..])
    else
      var n := WordLen(s);
      [s[..n]] + Split(s[n..])
  }

  /** Every word of `s.split()` is non-empty, whitespace-free and made of characters of `s`. */
  lemma {:induction false} SplitWords(s: string)
    decreases |s|
    ensures forall w :: w in Split(s) ==> w != [] && NoSpace(w)
    ensures forall w, c :: w in Split(s) && c in w ==> c in s
  {
    if s == [] {
    } else if IsSpace(s[0]) {
      SplitWords(s[1..]);
      assert forall c :: c in s[1..] ==> c in s;
    } else {
      var n := WordLen(s);
      SplitWords(s[n..]);
      assert forall c :: c in s[n..] ==> c in s;
      assert forall c :: c in s[..n] ==> c in s;
      assert Split(s) == [s[..n]] + Split(s[n..]);
    }
  }

  /** A non-empty whitespace-free word followed by whitespace (or nothing) is the leading run. */
  lemma {:induction false} WordLenOfWord(w: string, t: string)
    requires NoSpace(w)
    requires t == [] || IsSpace(t[0])
    ensures WordLen(w + t) == |w|
  {
    if w == [] {
      assert w + t == t;
    } else {
      assert (w + t)[0] == w[0];
      assert (w + t)[1..] == w[1..] + t;
      WordLenOfWord(w[1..], t);
    }
  }

  /** Words that are non-empty and whitespace-free come back unchanged from
      splitting their single-space join. */
  lemma {:induction false} SplitJoin(ws: seq<string>)
    requires forall w :: w in ws ==> w != [] && NoSpace(w)
    ensures Split(Join(" ", ws)) == ws
  {
    if |ws| == 1 {
      var w := ws[0];
      assert w in ws;
      WordLenOfWord(w, []);
      assert w + [] == w;
      assert w[..|w|] == w && w[|w|..] == [];
    } else if |ws| > 1 {
      var w := ws[0];
      assert w in ws;
      var rest := Join(" ", ws[1..]);
      var t := " " + rest;
      var s := w + t;
      assert Join(" ", ws) == s;
      WordLenOfWord(w, t);
      assert s[..|w|] == w && s[|w|..] == t;
      assert Split(s) == [w] + Split(t);
      assert t[1..] == rest;
      assert Split(t) == Split(rest);
      assert forall v :: v in ws[1..] ==> v in ws;
      SplitJoin(ws[1..]);
      assert ws == [w] + ws[1..];
    }
  }
}
