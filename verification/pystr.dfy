/** The parts of Python's `str` behaviour the plugin relies on: the whitespace
    set used by `strip()` and `split()`, `' '.join`, ASCII lower-casing and
    substring search. */
module PyStr {

  /** Python's `str.isspace()`: the characters `strip()` and `split()` with no
      argument treat as whitespace. */
  predicate IsSpace(c: char) {
    var n := c as int;
    || (9 <= n <= 13)
    || (28 <= n <= 32)
    || n == 0x85 || n == 0xA0 || n == 0x1680
    || (0x2000 <= n <= 0x200A)
    || n == 0x2028 || n == 0x2029 || n == 0x202F || n == 0x205F || n == 0x3000
  }

  /** A non-empty run of non-whitespace characters: one item of `str.split()`. */
  predicate IsWord(w: string) {
    |w| > 0 && forall k :: 0 <= k < |w| ==> !IsSpace(w[k])
  }

  /** Neither end of `s` is whitespace. */
  predicate NoEdgeSpace(s: string) {
    s == [] || (!IsSpace(s[0]) && !IsSpace(s[|s| - 1]))
  }

  /** The shape `' '.join(s.split())` produces: every whitespace character is a
      plain space standing between two non-whitespace characters. */
  predicate WellSpaced(s: string) {
    && NoEdgeSpace(s)
    && (forall k :: 0 <= k < |s| && IsSpace(s[k]) ==> s[k] == ' ')
    && (forall i :: 0 <= i < |s| - 1 ==> !SpacePair(s, i))
  }

  /** Whitespace at both `i` and `i + 1`. */
  predicate SpacePair(s: string, i: nat)
    requires i + 1 < |s|
  {
    IsSpace(s[i]) && IsSpace(s[i + 1])
  }

  /** Number of whitespace characters at the start of `s`. */
  function LeadingSpace(s: string): (n: nat)
    ensures n <= |s|
    ensures forall k :: 0 <= k < n ==> IsSpace(s[k])
    ensures n == |s| || !IsSpace(s[n])
  {
    if s == [] || !IsSpace(s[0]) then 0 else 1 + LeadingSpace(s[1..])
  }

  /** Number of whitespace characters at the end of `s`. */
  function TrailingSpace(s: string): (n: nat)
    ensures n <= |s|
    ensures forall k :: |s| - n <= k < |s| ==> IsSpace(s[k])
    ensures n == |s| || !IsSpace(s[|s| - n - 1])
  {
    if s == [] || !IsSpace(s[|s| - 1]) then 0 else 1 + TrailingSpace(s[..|s| - 1])
  }

  /** `s` with its leading whitespace removed (`str.lstrip()`). */
  function TrimStart(s: string): (r: string)
    ensures r != [] ==> !IsSpace(r[0])
  {
    s[LeadingSpace(s)..]
  }

  /** Python's `str.strip()`: the middle of `s` between its leading and
      trailing whitespace. */
  function Strip(s: string): (r: string)
    ensures NoEdgeSpace(r)
    ensures var i := LeadingSpace(s);
      && i + |r| <= |s|
      && r == s[i..i + |r|]
      && (forall k :: 0 <= k < i ==> IsSpace(s[k]))
      && (forall k :: i + |r| <= k < |s| ==> IsSpace(s[k]))
  {
    var i := LeadingSpace(s);
    var j := TrailingSpace(s[i..]);
    StripTail(s, i, j);
    s[i..|s| - j]
  }

  /** The whitespace at the end of `s[i..]` is whitespace at the end of `s`. */
  lemma StripTail(s: string, i: nat, j: nat)
    requires i <= |s| && j == TrailingSpace(s[i..])
    ensures i + j <= |s|
    ensures forall k :: |s| - j <= k < |s| ==> IsSpace(s[k])
    ensures i + j < |s| ==> !IsSpace(s[|s| - j - 1])
  {
    var t := s[i..];
    forall k | |s| - j <= k < |s|
      ensures IsSpace(s[k])
    {
      assert s[k] == t[k - i];
    }
    if i + j < |s| {
      assert s[|s| - j - 1] == t[|t| - j - 1];
    }
  }

  /** Length of the run of non-whitespace characters at the start of `s`. */
  function WordLen(s: string): (n: nat)
    ensures n <= |s|
    ensures forall k :: 0 <= k < n ==> !IsSpace(s[k])
    ensures n == |s| || IsSpace(s[n])
  {
    if s == [] || IsSpace(s[0]) then 0 else 1 + WordLen(s[1..])
  }

  /** Python's `str.split()` with no separator: the maximal whitespace-free
      runs of `s`, in order. */
  function Split(s: string): (ws: seq<string>)
    ensures forall k :: 0 <= k < |ws| ==> IsWord(ws[k])
    decreases |s|
  {
    var t := TrimStart(s);
    if t == [] then []
    else
      var n := WordLen(t);
      LeadingWord(t);
      [t[..n]] + Split(t[n..])
  }

  /** The non-whitespace run at the start of text that begins with a
      non-whitespace character is a word. */
  lemma LeadingWord(t: string)
    requires t != [] && !IsSpace(t[0])
    ensures 0 < WordLen(t) && IsWord(t[..WordLen(t)])
  {
    var n := WordLen(t);
    assert forall k :: 0 <= k < n ==> t[..n][k] == t[k];
  }

  /** Python's `sep.join(parts)`. */
  function Join(parts: seq<string>, sep: string): string
  {
    if parts == [] then ""
    else if |parts| == 1 then parts[0]
    else parts[0] + sep + Join(parts[1..], sep)
  }

  /** `' '.join(s.split())`: collapse every whitespace run to one space and drop
      leading and trailing whitespace. */
  function Normalize(s: string): (r: string)
    ensures WellSpaced(r)
    ensures Split(r) == Split(s)
  {
    JoinWords(Split(s));
    SplitJoin(Split(s));
    Join(Split(s), " ")
  }

  /** `s` starts with the first character of `first` and ends with the last
      character of `last`. */
  predicate StartsAndEndsLike(s: string, first: string, last: string) {
    s != [] && first != [] && last != [] && s[0] == first[0] && s[|s| - 1] == last[|last| - 1]
  }

  /** Joining words with single spaces gives a well-spaced string that starts
      with the first word's first character and ends with the last word's last
      character. */
  lemma {:induction false} JoinWords(ws: seq<string>)
    requires forall k :: 0 <= k < |ws| ==> IsWord(ws[k])
    ensures WellSpaced(Join(ws, " "))
    ensures ws != [] ==> Join(ws, " ") != [] && StartsAndEndsLike(Join(ws, " "), ws[0], ws[|ws| - 1])
  {
    if |ws| <= 1 {
    } else {
      var w := ws[0];
      var rest := Join(ws[1..], " ");
      JoinWords(ws[1..]);
      var j := w + " " + rest;
      assert Join(ws, " ") == j;
      assert ws[1..][|ws| - 2] == ws[|ws| - 1];
      assert forall k :: 0 <= k < |w| ==> j[k] == w[k];
      assert j[|w|] == ' ';
      assert forall k :: |w| < k < |j| ==> j[k] == rest[k - |w| - 1];
      forall i | 0 <= i < |j| - 1
        ensures !SpacePair(j, i)
      {
        if i > |w| {
          assert !SpacePair(rest, i - |w| - 1);
        }
      }
    }
  }

  /** A leading whitespace character does not change the split. */
  lemma SplitSpaceCons(c: char, x: string)
    requires IsSpace(c)
    ensures Split([c] + x) == Split(x)
  {
    var y := [c] + x;
    assert y[1..] == x;
    assert LeadingSpace(y) == 1 + LeadingSpace(x);
    assert y[1 + LeadingSpace(x)..] == x[LeadingSpace(x)..];
    assert TrimStart(y) == TrimStart(x);
  }

  /** A word followed by nothing or by whitespace splits off as the first item. */
  lemma SplitWordCons(w: string, tail: string)
    requires IsWord(w)
    requires tail == [] || IsSpace(tail[0])
    ensures Split(w + tail) == [w] + Split(tail)
  {
    var t := w + tail;
    assert t[0] == w[0];
    assert TrimStart(t) == t;
    WordLenOfWord(w, tail);
    assert t[..|w|] == w;
    assert t[|w|..] == tail;
  }

  /** `split()` character by character: nothing for the empty text, a
      leading whitespace character is dropped, and otherwise the leading
      non-whitespace run is the first item. These three cases fix the split of
      every text. */
  lemma SplitCases(s: string)
    ensures s == [] ==> Split(s) == []
    ensures s != [] && IsSpace(s[0]) ==> Split(s) == Split(s[1..])
    ensures s != [] && !IsSpace(s[0]) ==>
      Split(s) == [s[..WordLen(s)]] + Split(s[WordLen(s)..])
  {
    if s == [] {
      SplitEmpty();
    } else if IsSpace(s[0]) {
      SplitDropSpace(s);
    } else {
      SplitTakeWord(s);
    }
  }

  /** Text starting with whitespace splits like the text after it. */
  lemma SplitDropSpace(s: string)
    requires s != [] && IsSpace(s[0])
    ensures Split(s) == Split(s[1..])
  {
    assert s == [s[0]] + s[1..];
    SplitSpaceCons(s[0], s[1..]);
  }

  /** Text starting with a non-whitespace character splits into its leading
      run and the split of what follows. */
  lemma SplitTakeWord(s: string)
    requires s != [] && !IsSpace(s[0])
    ensures Split(s) == [s[..WordLen(s)]] + Split(s[WordLen(s)..])
  {
    assert LeadingSpace(s) == 0;
    assert TrimStart(s) == s;
  }

  /** The non-whitespace run at the start of a word followed by whitespace is
      the word. */
  lemma {:induction false} WordLenOfWord(w: string, tail: string)
    requires IsWord(w)
    requires tail == [] || IsSpace(tail[0])
    ensures WordLen(w + tail) == |w|
  {
    var t := w + tail;
    assert t[0] == w[0];
    if |w| == 1 {
      assert t[1..] == tail;
    } else {
      assert t[1..] == w[1..] + tail;
      assert IsWord(w[1..]) by {
        assert forall k :: 0 <= k < |w| - 1 ==> w[1..][k] == w[k + 1];
      }
      WordLenOfWord(w[1..], tail);
    }
  }

  /** Splitting undoes joining with single spaces: the round trip of
      `' '.join` and `split()` on words. */
  lemma {:induction false} SplitJoin(ws: seq<string>)
    requires forall k :: 0 <= k < |ws| ==> IsWord(ws[k])
    ensures Split(Join(ws, " ")) == ws
  {
    if ws == [] {
      SplitEmpty();
    } else {
      var w, more := ws[0], ws[1..];
      assert ws == [w] + more;
      assert IsWord(w);
      if more == [] {
        SplitOneWord(w);
      } else {
        assert forall k :: 0 <= k < |more| ==> IsWord(more[k]);
        SplitJoin(more);
        SplitJoinStep(w, more);
      }
    }
  }

  /** Empty text has no words. */
  lemma SplitEmpty()
    ensures Join([], " ") == "" && Split("") == []
  {
    assert TrimStart("") == "";
  }

  /** A single word splits to itself. */
  lemma SplitOneWord(w: string)
    requires IsWord(w)
    ensures Split(Join([w], " ")) == [w]
  {
    SplitWordCons(w, []);
    assert w + [] == w;
    assert Split([]) == [];
  }

  /** One step of the join/split round trip: a word in front of a joined
      non-empty list. */
  lemma SplitJoinStep(w: string, more: seq<string>)
    requires IsWord(w) && more != []
    requires Split(Join(more, " ")) == more
    ensures Split(Join([w] + more, " ")) == [w] + more
  {
    JoinCons(w, more);
    SplitWordSpace(w, Join(more, " "));
  }

  /** Normalising twice is normalising once. */
  lemma NormalizeIdempotent(s: string)
    ensures Normalize(Normalize(s)) == Normalize(s)
  {
  }

  /** Normalising changes nothing exactly when the text is already well
      spaced. */
  lemma NormalizeFixedPoints(s: string)
    ensures Normalize(s) == s <==> WellSpaced(s)
  {
    if WellSpaced(s) {
      JoinSplit(s);
    }
  }

  /** Joining the words of well-spaced text with single spaces rebuilds it. */
  lemma {:induction false} JoinSplit(s: string)
    requires WellSpaced(s)
    ensures Join(Split(s), " ") == s
    decreases |s|
  {
    if s != [] {
      var n := WordLen(s);
      FirstWord(s);
      var w := s[..n];
      if n < |s| {
        var rest := s[n + 1..];
        JoinSplit(rest);
        JoinWordThenRest(w, rest);
        CutAtSpace(s, n);
      } else {
        assert w == s;
        SplitWordCons(w, []);
        assert w + [] == w;
      }
    }
  }

  /** Splitting a word, one space and more text, then joining, keeps the
      word and the space and normalises the rest. */
  lemma JoinWordThenRest(w: string, rest: string)
    requires IsWord(w) && rest != [] && !IsSpace(rest[0])
    ensures Join(Split(w + " " + rest), " ") == w + " " + Join(Split(rest), " ")
  {
    SplitWordSpace(w, rest);
    assert Split(rest) != [] by {
      assert TrimStart(rest) == rest;
    }
    JoinCons(w, Split(rest));
  }

  /** A word followed by a space splits off as the first item. */
  lemma SplitWordSpace(w: string, rest: string)
    requires IsWord(w)
    ensures Split(w + " " + rest) == [w] + Split(rest)
  {
    var tail := [' '] + rest;
    assert w + " " + rest == w + tail;
    SplitWordCons(w, tail);
    SplitSpaceCons(' ', rest);
  }

  /** The first word of well-spaced text is a word; what follows it is
      nothing, or one space and more well-spaced text. */
  lemma FirstWord(s: string)
    requires WellSpaced(s) && s != []
    ensures var n := WordLen(s);
      && IsWord(s[..n])
      && (n < |s| ==> n + 1 < |s| && s[n] == ' ' && !IsSpace(s[n + 1]) && WellSpaced(s[n + 1..]))
  {
    var n := WordLen(s);
    if n < |s| {
      assert !SpacePair(s, n);
      WellSpacedTail(s, n);
    }
  }

  /** A text cut around one of its spaces. */
  lemma CutAtSpace(s: string, n: nat)
    requires n < |s| && s[n] == ' '
    ensures s == s[..n] + " " + s[n + 1..]
  {
    assert s == s[..n] + s[n..];
    assert s[n..] == " " + s[n + 1..];
  }

  /** `' '.join` of two or more parts puts a space after the first. */
  lemma JoinCons(w: string, ws: seq<string>)
    requires ws != []
    ensures Join([w] + ws, " ") == w + " " + Join(ws, " ")
  {
    assert ([w] + ws)[1..] == ws;
  }

  /** The text after the space that ends the first word is well spaced. */
  lemma WellSpacedTail(s: string, n: nat)
    requires WellSpaced(s) && n + 1 < |s| && s[n] == ' '
    ensures WellSpaced(s[n + 1..])
  {
    var t := s[n + 1..];
    assert !SpacePair(s, n);
    forall i | 0 <= i < |t| - 1
      ensures !SpacePair(t, i)
    {
      assert !SpacePair(s, n + 1 + i);
      assert t[i] == s[n + 1 + i] && t[i + 1] == s[n + 1 + i + 1];
    }
  }

  /** Python's `str.lower()` on one ASCII character. */
  function LowerChar(c: char): char {
    if 'A' <= c <= 'Z' then (c as int + 32) as char else c
  }

  /** No ASCII upper-case letter occurs in `s`. */
  predicate NoAsciiUpper(s: string) {
    forall k :: 0 <= k < |s| ==> !('A' <= s[k] <= 'Z')
  }

  /** Python's `str.lower()`, restricted to ASCII letters. */
  function Lower(s: string): (r: string)
    ensures |r| == |s|
    ensures NoAsciiUpper(r)
    ensures forall k :: 0 <= k < |s| && !('A' <= s[k] <= 'Z') ==> r[k] == s[k]
    ensures forall k :: 0 <= k < |s| && 'A' <= s[k] <= 'Z' ==> r[k] as int == s[k] as int + 32
  {
    seq(|s|, i requires 0 <= i < |s| => LowerChar(s[i]))
  }

  /** Lower-casing text without ASCII upper-case letters changes nothing. */
  lemma LowerUnchanged(s: string)
    requires NoAsciiUpper(s)
    ensures Lower(s) == s
  {
  }

  /** `pat` occurs in `s` at index `i`. */
  predicate OccursAt(s: string, pat: string, i: nat) {
    i + |pat| <= |s| && s[i..i + |pat|] == pat
  }

  /** An occurrence of `a + b` is an occurrence of `a` directly followed by
      one of `b`. */
  lemma OccursSplit(s: string, a: string, b: string, i: nat)
    ensures OccursAt(s, a + b, i) <==> OccursAt(s, a, i) && OccursAt(s, b, i + |a|)
  {
    if i + |a| + |b| <= |s| {
      var w := s[i..i + |a| + |b|];
      assert w[..|a|] == s[i..i + |a|] && w[|a|..] == s[i + |a|..i + |a| + |b|];
      assert w == w[..|a|] + w[|a|..];
      assert (a + b)[..|a|] == a && (a + b)[|a|..] == b;
    }
  }

  /** An occurrence of `a + b + c` is one of each, side by side. */
  lemma OccursSplit3(s: string, a: string, b: string, c: string, i: nat)
    ensures OccursAt(s, a + b + c, i) <==>
      OccursAt(s, a, i) && OccursAt(s, b, i + |a|) && OccursAt(s, c, i + |a| + |b|)
  {
    OccursSplit(s, a + b, c, i);
    OccursSplit(s, a, b, i);
  }

  /** Python's `pat in s` for strings. */
  function Contains(s: string, pat: string): (b: bool)
    ensures b <==> exists i: nat :: OccursAt(s, pat, i)
    decreases |s|
  {
    if |s| < |pat| then false
    else if s[..|pat|] == pat then (assert OccursAt(s, pat, 0); true)
    else
      var b := Contains(s[1..], pat);
      if b then
        var i: nat :| OccursAt(s[1..], pat, i);
        assert s[1..][i..i + |pat|] == s[i + 1..i + 1 + |pat|];
        assert OccursAt(s, pat, i + 1);
        true
      else
        assert !OccursAt(s, pat, 0);
        forall i: nat | OccursAt(s, pat, i) && i > 0
          ensures OccursAt(s[1..], pat, i - 1)
        {
          assert s[1..][i - 1..i - 1 + |pat|] == s[i..i + |pat|];
        }
        false
  }
}
