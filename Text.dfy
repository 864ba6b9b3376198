/** String helpers shared by the front end and the back end: JavaScript's
    String.prototype.trim (used by every "add title" handler), lower-casing,
    substring search and the '|' join/split behind the back end's regular
    expression filters. */
module Text {

  /** The characters ECMAScript's trim removes: WhiteSpace (tab, vertical tab,
      form feed, space, no-break space, byte-order mark and the Unicode Zs
      spaces) and LineTerminator (LF, CR, LS, PS). */
  predicate IsSpace(c: char) {
    c == '\t' || c == '\n' || c == '\U{B}' || c == '\U{C}' || c == '\r' ||
    c == ' ' || c == '\U{A0}' || c == '\U{1680}' ||
    ('\U{2000}' <= c <= '\U{200A}') ||
    c == '\U{2028}' || c == '\U{2029}' || c == '\U{202F}' || c == '\U{205F}' ||
    c == '\U{3000}' || c == '\U{FEFF}'
  }

  ghost predicate AllSpace(s: string) {
    forall i :: 0 <= i < |s| ==> IsSpace(s[i])
  }

  /** Number of whitespace characters at the front of s. */
  function LeadingSpaces(s: string): (n: nat)
    ensures n <= |s|
    ensures AllSpace(s[..n])
    ensures n == |s| || !IsSpace(s[n])
  {
    if s == [] || !IsSpace(s[0]) then 0 else 1 + LeadingSpaces(s[1..])
  }

  /** Number of whitespace characters at the end of s. */
  function TrailingSpaces(s: string): (n: nat)
    ensures n <= |s|
    ensures AllSpace(s[|s| - n..])
    ensures n == |s| || !IsSpace(s[|s| - 1 - n])
  {
    if s == [] || !IsSpace(s[|s| - 1]) then 0 else 1 + TrailingSpaces(s[..|s| - 1])
  }

  /** s without its leading and trailing whitespace (JavaScript's trim). */
  function Trim(s: string): (r: string)
    ensures |r| <= |s|
    ensures r == "" || (!IsSpace(r[0]) && !IsSpace(r[|r| - 1]))
  {
    var a := LeadingSpaces(s);
    var rest := s[a..];
    rest[..|rest| - TrailingSpaces(rest)]
  }

  /** Trimming only cuts whitespace: s is whitespace, then Trim(s), then whitespace. */
  lemma TrimIsInfix(s: string)
    ensures exists a :: 0 <= a <= |s| - |Trim(s)| && s[a..a + |Trim(s)|] == Trim(s)
                          && AllSpace(s[..a]) && AllSpace(s[a + |Trim(s)|..])
  {
    var a := LeadingSpaces(s);
    var rest := s[a..];
    var t := TrailingSpaces(rest);
    var n := |rest| - t;
    var r := Trim(s);
    assert r == rest[..n];
    assert |r| == n;
    assert s[a..a + n] == r;
    assert s[a + n..] == rest[n..];
    assert AllSpace(s[..a]) && AllSpace(s[a + n..]);
  }

  /** A string trims to "" exactly when it consists of whitespace only. */
  lemma TrimEmptyIff(s: string)
    ensures Trim(s) == "" <==> AllSpace(s)
  {
    var a := LeadingSpaces(s);
    var rest := s[a..];
    var t := TrailingSpaces(rest);
    if Trim(s) == "" {
      assert |rest| == t;
      assert a == |s|;
      forall i | 0 <= i < |s| ensures IsSpace(s[i]) {
        assert s[..a][i] == s[i];
      }
    }
  }

  lemma NoOuterSpaceTrimsToItself(s: string)
    requires s == "" || (!IsSpace(s[0]) && !IsSpace(s[|s| - 1]))
    ensures Trim(s) == s
  {
    assert LeadingSpaces(s) == 0;
    assert s[0..] == s;
    assert TrailingSpaces(s) == 0;
  }

  /** Trimming twice is trimming once. */
  lemma TrimIdempotent(s: string)
    ensures Trim(Trim(s)) == Trim(s)
  {
    NoOuterSpaceTrimsToItself(Trim(s));
  }

  /** Python's str.lower restricted to ASCII letters. */
  function LowerChar(c: char): (d: char)
    ensures 'A' <= c <= 'Z' ==> d as int == c as int + 32
    ensures !('A' <= c <= 'Z') ==> d == c
  {
    if 'A' <= c <= 'Z' then (c as int + 32) as char else c
  }

  function Lower(s: string): (r: string)
    ensures |r| == |s|
    ensures forall i :: 0 <= i < |s| ==> r[i] == LowerChar(s[i])
  {
    seq(|s|, i requires 0 <= i < |s| => LowerChar(s[i]))
  }

  lemma LowerEmptyIff(s: string)
    ensures Lower(s) == "" <==> s == ""
  {
  }

  /** sub occurs in s starting at position i. */
  predicate OccursAt(s: string, sub: string, i: nat) {
    i + |sub| <= |s| && s[i..i + |sub|] == sub
  }

  /** sub occurs somewhere in s (Python's `sub in s`). */
  predicate Contains(s: string, sub: string) {
    exists i: nat :: i <= |s| && OccursAt(s, sub, i)
  }

  /** The strings xs joined with sep between them (Python's sep.join(xs)). */
  function Join(xs: seq<string>, sep: char): (r: string)
  {
    if |xs| == 0 then ""
    else if |xs| == 1 then xs[0]
    else Join(xs[..|xs| - 1], sep) + [sep] + xs[|xs| - 1]
  }

  /** The pieces of s between occurrences of sep; there is always at least one. */
  function Split(s: string, sep: char): (r: seq<string>)
    ensures |r| >= 1
    ensures forall k :: 0 <= k < |r| ==> sep !in r[k]
  {
    if s == [] then [""]
    else
      var init := Split(s[..|s| - 1], sep);
      var c := s[|s| - 1];
      if c == sep then init + [""]
      else init[..|init| - 1] + [init[|init| - 1] + [c]]
  }

  lemma SplitAppendPiece(s: string, sep: char, x: string)
    requires sep !in x
    ensures Split(s + x, sep) == Split(s, sep)[..|Split(s, sep)| - 1] + [Split(s, sep)[|Split(s, sep)| - 1] + x]
    decreases |x|
  {
    if x == [] {
      assert s + x == s;
      var r := Split(s, sep);
      assert r[|r| - 1] + x == r[|r| - 1];
      assert r[..|r| - 1] + [r[|r| - 1]] == r;
    } else {
      var y := x[..|x| - 1];
      var c := x[|x| - 1];
      assert x == y + [c];
      assert c != sep;
      assert (s + x)[|s + x| - 1] == c;
      assert (s + x)[..|s + x| - 1] == s + y;
      SplitAppendPiece(s, sep, y);
      var r := Split(s, sep);
      var mid := Split(s + y, sep);
      assert Split(s + x, sep) == mid[..|mid| - 1] + [mid[|mid| - 1] + [c]];
      assert mid[..|mid| - 1] == r[..|r| - 1];
      assert mid[|mid| - 1] + [c] == r[|r| - 1] + x;
    }
  }

  /** A trailing separator starts a new, empty piece. */
  lemma SplitAfterSeparator(s: string, sep: char)
    ensures Split(s + [sep], sep) == Split(s, sep) + [""]
  {
    assert (s + [sep])[..|s + [sep]| - 1] == s;
  }

  /** Splitting a join recovers the pieces, when no piece holds the separator. */
  lemma {:induction false} SplitJoin(xs: seq<string>, sep: char)
    requires |xs| >= 1
    requires forall k :: 0 <= k < |xs| ==> sep !in xs[k]
    ensures Split(Join(xs, sep), sep) == xs
  {
    if |xs| == 1 {
      SplitAppendPiece("", sep, xs[0]);
      assert "" + xs[0] == xs[0];
    } else {
      var init := xs[..|xs| - 1];
      var last := xs[|xs| - 1];
      SplitJoin(init, sep);
      var j := Join(init, sep);
      assert Join(xs, sep) == (j + [sep]) + last;
      SplitAfterSeparator(j, sep);
      var pieces := init + [""];
      assert Split(j + [sep], sep) == pieces;
      SplitAppendPiece(j + [sep], sep, last);
      assert pieces[..|pieces| - 1] == init;
      assert pieces[|pieces| - 1] + last == last;
      assert xs == init + [last];
    }
  }

  /** s contains at least one of the alternatives. */
  predicate ContainsAny(s: string, alternatives: seq<string>) {
    exists k :: 0 <= k < |alternatives| && Contains(s, alternatives[k])
  }

  /** The match that the back end's `str.contains(pattern)` performs, reading
      the pattern as '|'-separated literal alternatives. */
  predicate MatchesPattern(s: string, pattern: string) {
    ContainsAny(s, Split(pattern, '|'))
  }
}
