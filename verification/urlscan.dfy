/** The URL scanner: `re.findall` of the pattern
    `http[s]?://` followed by one or more characters of the URL class. */
module UrlScan {
  import opened Wrappers

  /** The pattern's character class, written alternative by alternative:
      letters, digits, the range `$`..`_` (which the pattern spells `[$-_@.&+]`
      and which therefore also covers `@`, `.`, `&`, `+`), and the bracket
      `[!*\(),]` (the backslash is part of it). */
  predicate InPatternClass(c: char) {
    || ('a' <= c <= 'z')
    || ('A' <= c <= 'Z')
    || ('0' <= c <= '9')
    || ('$' <= c <= '_')
    || c == '@' || c == '.' || c == '&' || c == '+'
    || c == '!' || c == '*' || c == '\\' || c == '(' || c == ')' || c == ','
  }

  /** An ASCII hexadecimal digit. */
  predicate IsHexDigit(c: char) {
    ('0' <= c <= '9') || ('a' <= c <= 'f') || ('A' <= c <= 'F')
  }

  /** The simplified class a URL character belongs to: `!`, the range from
      `$` (0x24) to `_` (0x5F), and the lower-case letters. */
  predicate IsUrlChar(c: char) {
    c == '!' || ('$' <= c <= '_') || ('a' <= c <= 'z')
  }

  /** The pattern's class is exactly the simplified class, and its `%XX`
      alternative adds nothing: each of its three characters is already in the
      class. */
  lemma PatternClassSimplifies(c: char, h1: char, h2: char)
    ensures InPatternClass(c) <==> IsUrlChar(c)
    ensures IsHexDigit(h1) && IsHexDigit(h2) ==> IsUrlChar('%') && IsUrlChar(h1) && IsUrlChar(h2)
  {
  }

  /** `u` is something the pattern matches in full: `http://` or `https://`
      followed by a non-empty run of URL characters. */
  predicate UrlShape(u: string) {
    || ("https://" <= u && |u| > 8 && forall k :: 8 <= k < |u| ==> IsUrlChar(u[k]))
    || ("http://" <= u && |u| > 7 && forall k :: 7 <= k < |u| ==> IsUrlChar(u[k]))
  }

  /** Length of the scheme part of a URL-shaped text: 8 for `https://`, 7
      for `http://`; the characters after it are URL characters. */
  function SchemePartLen(u: string): (k: nat)
    requires UrlShape(u)
    ensures k == 7 || k == 8
    ensures k < |u|
    ensures u[..k] == (if k == 8 then "https://" else "http://")
    ensures forall j :: k <= j < |u| ==> IsUrlChar(u[j])
  {
    if "https://" <= u then
      assert u[4] == 's';
      assert !("http://" <= u);
      8
    else
      7
  }

  /** A match of the pattern starting at `i` and ending at `e`: the text in
      between has the URL shape and the run cannot be extended (the `+` is
      greedy). */
  predicate IsMatch(text: string, i: nat, e: nat) {
    i < e <= |text| && UrlShape(text[i..e]) && (e == |text| || !IsUrlChar(text[e]))
  }

  /** Length of the scheme part `http://` or `https://` at `i`, or 0. */
  function SchemeLen(text: string, i: nat): (k: nat)
    ensures k == 0 || k == 7 || k == 8
    ensures k == 8 ==> i + 8 <= |text| && text[i..i + 8] == "https://"
    ensures k == 7 ==> i + 7 <= |text| && text[i..i + 7] == "http://"
    ensures k == 0 ==> !(i + 8 <= |text| && text[i..i + 8] == "https://") && !(i + 7 <= |text| && text[i..i + 7] == "http://")
  {
    if i + 8 <= |text| && text[i..i + 8] == "https://" then 8
    else if i + 7 <= |text| && text[i..i + 7] == "http://" then 7
    else 0
  }

  /** End of the maximal run of URL characters starting at `j`. */
  function RunEnd(text: string, j: nat): (e: nat)
    requires j <= |text|
    ensures j <= e <= |text|
    ensures forall k :: j <= k < e ==> IsUrlChar(text[k])
    ensures e == |text| || !IsUrlChar(text[e])
    decreases |text| - j
  {
    if j < |text| && IsUrlChar(text[j]) then RunEnd(text, j + 1) else j
  }

  /** Where the pattern's match starting exactly at `i` ends, if there is one. */
  function MatchAt(text: string, i: nat): (m: Option<nat>)
    requires i <= |text|
    ensures m.Some? ==> IsMatch(text, i, m.value)
    ensures m.None? ==> forall e: nat :: !IsMatch(text, i, e)
  {
    var k := SchemeLen(text, i);
    if k == 0 then
      None
    else
      var e := RunEnd(text, i + k);
      if e == i + k then
        MatchEndDetermined(text, i);
        None
      else
        SchemeThenRun(text, i, k, e);
        Some(e)
  }

  /** A scheme part followed by a non-empty maximal run of URL characters is
      a match. */
  lemma SchemeThenRun(text: string, i: nat, k: nat, e: nat)
    requires k == SchemeLen(text, i) && k != 0
    requires i + k < e && e == RunEnd(text, i + k)
    ensures IsMatch(text, i, e)
  {
    var u := text[i..e];
    if k == 8 {
      assert u[..8] == text[i..e][..8] == text[i..i + 8];
    } else {
      assert u[..7] == text[i..e][..7] == text[i..i + 7];
    }
    forall j | k <= j < |u|
      ensures IsUrlChar(u[j])
    {
      assert u[j] == text[i + j];
    }
  }

  /** The end of a maximal run is determined by where the run starts. */
  lemma RunEndUnique(text: string, j: nat, e: nat)
    requires j <= e <= |text|
    requires forall k :: j <= k < e ==> IsUrlChar(text[k])
    requires e == |text| || !IsUrlChar(text[e])
    ensures RunEnd(text, j) == e
  {
  }

  /** A match starting at `i` ends where the run after the scheme ends, and
      that run is not empty. */
  lemma MatchEndDetermined(text: string, i: nat)
    requires i <= |text|
    ensures forall e: nat :: IsMatch(text, i, e) ==>
      var k := SchemeLen(text, i);
      && k != 0
      && i + k < e
      && e == RunEnd(text, i + k)
  {
    var k := SchemeLen(text, i);
    forall e: nat | IsMatch(text, i, e)
      ensures k != 0 && i + k < e && e == RunEnd(text, i + k)
    {
      SchemeDetermined(text, i, e, k);
      RunEndUnique(text, i + k, e);
    }
  }

  /** When a URL-shaped text starts at `i`, its scheme part has the length
      `SchemeLen` reports. */
  lemma SchemeDetermined(text: string, i: nat, e: nat, k: nat)
    requires i < e <= |text| && UrlShape(text[i..e])
    requires k == SchemeLen(text, i)
    ensures k != 0 && i + k < e
    ensures forall j :: i + k <= j < e ==> IsUrlChar(text[j])
  {
    var u := text[i..e];
    if "https://" <= u {
      assert u[..8] == "https://";
      assert u[4] == 's';
      assert !("http://" <= u);
      assert text[i..i + 8] == u[..8];
      assert forall j :: i + 8 <= j < e ==> text[j] == u[j - i];
    } else {
      assert u[..7] == "http://";
      assert text[i..i + 7] == u[..7];
      assert text[i + 4] == ':';
      assert forall j :: i + 7 <= j < e ==> text[j] == u[j - i];
    }
  }

  /** A position where a match of the pattern starts. */
  ghost predicate StartsMatch(text: string, p: nat) {
    exists e: nat :: IsMatch(text, p, e)
  }

  /** A half-open range `[start, end)` of the scanned text. */
  datatype Span = Span(start: nat, end: nat)

  /** Position `p` lies inside one of the spans. */
  ghost predicate Covered(spans: seq<Span>, p: nat) {
    exists k :: 0 <= k < |spans| && spans[k].start <= p < spans[k].end
  }

  /** The spans of `re.findall`, scanning from `i`: at each position try a
      match; on success continue after it, otherwise one position further. */
  function ScanFrom(text: string, i: nat): (spans: seq<Span>)
    requires i <= |text|
    ensures forall k :: 0 <= k < |spans| ==> i <= spans[k].start && IsMatch(text, spans[k].start, spans[k].end)
    ensures forall k :: 0 <= k < |spans| - 1 ==> spans[k].end <= spans[k + 1].start
    ensures forall p :: i <= p < |text| && StartsMatch(text, p) ==> Covered(spans, p)
    decreases |text| - i
  {
    if i == |text| then []
    else
      match MatchAt(text, i)
      case Some(e) =>
        var rest := ScanFrom(text, e);
        CoverCons(Span(i, e), rest);
        [Span(i, e)] + rest
      case None =>
        var rest := ScanFrom(text, i + 1);
        assert !StartsMatch(text, i);
        rest
  }

  /** A span put in front covers its own positions and keeps every position
      the others cover. */
  lemma CoverCons(s: Span, rest: seq<Span>)
    ensures forall p :: s.start <= p < s.end ==> Covered([s] + rest, p)
    ensures forall p: nat :: Covered(rest, p) ==> Covered([s] + rest, p)
  {
    var spans := [s] + rest;
    forall p | s.start <= p < s.end
      ensures Covered(spans, p)
    {
      assert spans[0].start <= p < spans[0].end;
    }
    forall p: nat | Covered(rest, p)
      ensures Covered(spans, p)
    {
      var k :| 0 <= k < |rest| && rest[k].start <= p < rest[k].end;
      assert spans[k + 1] == rest[k];
    }
  }

  /** The URLs `re.findall` returns for `text`: every match, left to right,
      repeated ones included. */
  function ExtractUrls(text: string): (urls: seq<string>)
    ensures |urls| == |ScanFrom(text, 0)|
    ensures forall k :: 0 <= k < |urls| ==>
      var s := ScanFrom(text, 0)[k];
      s.start < s.end <= |text| && urls[k] == text[s.start..s.end] && UrlShape(urls[k])
  {
    var spans := ScanFrom(text, 0);
    seq(|spans|, k requires 0 <= k < |spans| => text[spans[k].start..spans[k].end])
  }

  /** `spans` is a findall result for `text` scanned from `from`: each span is
      a match starting at or after `from`, consecutive spans are disjoint and
      in order, and every position from `from` on where a match could start
      lies inside one of them. */
  ghost predicate IsFindAllFrom(text: string, from: nat, spans: seq<Span>) {
    && (forall k :: 0 <= k < |spans| ==> from <= spans[k].start && IsMatch(text, spans[k].start, spans[k].end))
    && (forall k :: 0 <= k < |spans| - 1 ==> spans[k].end <= spans[k + 1].start)
    && (forall p :: from <= p < |text| && StartsMatch(text, p) ==> Covered(spans, p))
  }

  /** `spans` is a findall result for the whole of `text`. */
  ghost predicate IsFindAll(text: string, spans: seq<Span>) {
    IsFindAllFrom(text, 0, spans)
  }

  /** The scanner's spans are a findall result. */
  lemma ScanIsFindAll(text: string)
    ensures IsFindAll(text, ScanFrom(text, 0))
  {
  }

  /** Spans that are matches and disjoint in order have increasing starts. */
  lemma {:induction false} StartsIncrease(text: string, spans: seq<Span>)
    requires forall k :: 0 <= k < |spans| ==> IsMatch(text, spans[k].start, spans[k].end)
    requires forall k :: 0 <= k < |spans| - 1 ==> spans[k].end <= spans[k + 1].start
    ensures forall j, k :: 0 <= j < k < |spans| ==> spans[j].end <= spans[k].start
    decreases |spans|
  {
    if |spans| > 1 {
      var rest := spans[1..];
      StartsIncrease(text, rest);
      forall j, k | 0 <= j < k < |spans|
        ensures spans[j].end <= spans[k].start
      {
        if j == 0 && k > 1 {
          assert spans[1] == rest[0] && spans[k] == rest[k - 1];
        } else if j > 0 {
          assert spans[j] == rest[j - 1] && spans[k] == rest[k - 1];
        }
      }
    }
  }

  /** There is only one findall result: any two agree, so the scanner's is
      the only one. */
  lemma {:induction false} FindAllUnique(text: string, from: nat, a: seq<Span>, b: seq<Span>)
    requires IsFindAllFrom(text, from, a) && IsFindAllFrom(text, from, b)
    ensures a == b
    decreases |a| + |b|
  {
    if a == [] || b == [] {
      if b != [] {
        assert StartsMatch(text, b[0].start) by { assert IsMatch(text, b[0].start, b[0].end); }
      }
      if a != [] {
        assert StartsMatch(text, a[0].start) by { assert IsMatch(text, a[0].start, a[0].end); }
      }
    } else {
      StartsIncrease(text, a);
      StartsIncrease(text, b);
      var a0, b0 := a[0], b[0];
      assert StartsMatch(text, a0.start) by { assert IsMatch(text, a0.start, a0.end); }
      assert StartsMatch(text, b0.start) by { assert IsMatch(text, b0.start, b0.end); }
      assert Covered(b, a0.start);
      assert Covered(a, b0.start);
      assert a0.start == b0.start;
      MatchEndDetermined(text, a0.start);
      assert a0.end == b0.end;
      TailIsFindAll(text, from, a);
      TailIsFindAll(text, from, b);
      FindAllUnique(text, a0.end, a[1..], b[1..]);
      assert a == [a0] + a[1..];
      assert b == [b0] + b[1..];
    }
  }

  /** Dropping the first span leaves a findall result from its end. */
  lemma TailIsFindAll(text: string, from: nat, spans: seq<Span>)
    requires spans != [] && IsFindAllFrom(text, from, spans)
    ensures IsFindAllFrom(text, spans[0].end, spans[1..])
  {
    StartsIncrease(text, spans);
    var rest := spans[1..];
    forall p | spans[0].end <= p < |text| && StartsMatch(text, p)
      ensures Covered(rest, p)
    {
      var k :| 0 <= k < |spans| && spans[k].start <= p < spans[k].end;
      assert k != 0;
      assert rest[k - 1] == spans[k];
    }
  }

  /** Every findall result of `text` is the scanner's. */
  lemma FindAllIsScan(text: string, spans: seq<Span>)
    requires IsFindAll(text, spans)
    ensures spans == ScanFrom(text, 0)
  {
    FindAllUnique(text, 0, spans, ScanFrom(text, 0));
  }
}
