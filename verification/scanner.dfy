/** The package-name extraction of `import_condalibs`: Python's
    `re.findall(r'\s+-\s+([0-9a-z-]+)', env)` over the manifest text,
    written as a left-to-right scanner over characters. */
module Scanner {
  import opened Wrappers

  /** `\s` on a text pattern: the characters `str.isspace()` accepts. These
      are tab to carriage return (U+0009 to U+000D), the information
      separators U+001C to U+001F, space, next line (U+0085), no-break space
      (U+00A0), the Ogham space mark (U+1680), the spaces U+2000 to U+200A,
      the line and paragraph separators (U+2028, U+2029), the narrow
      no-break space (U+202F), the medium mathematical space (U+205F) and the
      ideographic space (U+3000). */
  predicate IsSpace(c: char) {
    || '\t' <= c <= '\r'
    || '\U{1C}' <= c <= ' '
    || c == '\U{85}' || c == '\U{A0}' || c == '\U{1680}'
    || '\U{2000}' <= c <= '\U{200A}'
    || c == '\U{2028}' || c == '\U{2029}' || c == '\U{202F}' || c == '\U{205F}'
    || c == '\U{3000}'
  }

  /** The character class `[0-9a-z-]`. */
  predicate IsNameChar(c: char) {
    '0' <= c <= '9' || 'a' <= c <= 'z' || c == '-'
  }

  /** Every character of `s[i..j]` belongs to the class `cls`. */
  ghost predicate AllIn(s: string, i: nat, j: nat, cls: char -> bool)
    requires i <= j <= |s|
  {
    forall k :: i <= k < j ==> cls(s[k])
  }

  /** The end of the longest run of `cls` characters starting at `i`: what a
      greedy `cls*` consumes from position `i`. */
  function RunEnd(s: string, i: nat, cls: char -> bool): (e: nat)
    requires i <= |s|
    ensures i <= e <= |s|
    ensures AllIn(s, i, e, cls)
    ensures e == |s| || !cls(s[e])
    decreases |s| - i
  {
    if i == |s| || !cls(s[i]) then i else RunEnd(s, i + 1, cls)
  }

  /** A run is maximal in exactly one place: any `j` that ends a run of
      `cls` characters from `i` is `RunEnd(s, i, cls)`. */
  lemma {:induction false} RunEndUnique(s: string, i: nat, j: nat, cls: char -> bool)
    requires i <= j <= |s|
    requires AllIn(s, i, j, cls)
    requires j == |s| || !cls(s[j])
    ensures RunEnd(s, i, cls) == j
    decreases j - i
  {
    if i < j {
      assert cls(s[i]);
      RunEndUnique(s, i + 1, j, cls);
    }
  }

  /** The separator `\s+-\s+` occupies `s[p..r]` with its dash at `q`. */
  ghost predicate Separator(s: string, p: nat, q: nat, r: nat)
    requires p < q && q + 1 < r <= |s|
  {
    AllIn(s, p, q, IsSpace) && s[q] == '-' && AllIn(s, q + 1, r, IsSpace)
  }

  /** Declarative reading of the pattern: a match starting at `p` whose group
      is `s[r..e]`. The group is maximal because `[0-9a-z-]+` is greedy and
      nothing follows it in the pattern. */
  ghost predicate PatternAt(s: string, p: nat, r: nat, e: nat) {
    && p < r < e <= |s|
    && (exists q :: p < q && q + 1 < r && Separator(s, p, q, r))
    && AllIn(s, r, e, IsNameChar)
    && (e == |s| || !IsNameChar(s[e]))
  }

  /** A match at `p` leaves no choice: both whitespace runs are maximal
      (the character after each is `-` or a name character, never a space)
      and the group is the maximal name run. */
  lemma PatternDetermined(s: string, p: nat, r: nat, e: nat)
    requires PatternAt(s, p, r, e)
    ensures RunEnd(s, p, IsSpace) + 1 < r
    ensures s[RunEnd(s, p, IsSpace)] == '-'
    ensures IsSpace(s[p]) && IsSpace(s[RunEnd(s, p, IsSpace) + 1])
    ensures r == RunEnd(s, RunEnd(s, p, IsSpace) + 1, IsSpace)
    ensures IsNameChar(s[r]) && e == RunEnd(s, r, IsNameChar)
  {
    var q :| p < q && q + 1 < r && Separator(s, p, q, r);
    RunEndUnique(s, p, q, IsSpace);
    assert !IsNameChar(s[r]) ==> false by {
      assert IsNameChar(s[r]);
    }
    RunEndUnique(s, q + 1, r, IsSpace);
    RunEndUnique(s, r, e, IsNameChar);
  }

  /** The regex engine's attempt at position `p`: the span `(r, e)` of the
      captured group, or `None` when the pattern does not match there. */
  function MatchAt(s: string, p: nat): (m: Option<(nat, nat)>)
    requires p <= |s|
    ensures m.Some? ==> PatternAt(s, p, m.value.0, m.value.1)
    ensures forall r: nat, e: nat :: PatternAt(s, p, r, e) ==> m == Some((r, e))
  {
    assert forall r: nat, e: nat :: PatternAt(s, p, r, e) ==>
      && RunEnd(s, p, IsSpace) + 1 < r
      && s[RunEnd(s, p, IsSpace)] == '-'
      && IsSpace(s[p]) && IsSpace(s[RunEnd(s, p, IsSpace) + 1])
      && r == RunEnd(s, RunEnd(s, p, IsSpace) + 1, IsSpace)
      && IsNameChar(s[r]) && e == RunEnd(s, r, IsNameChar)
    by {
      forall r, e | PatternAt(s, p, r, e) {
        PatternDetermined(s, p, r, e);
      }
    }
    if p == |s| || !IsSpace(s[p]) then None
    else
      var q := RunEnd(s, p, IsSpace);
      if q + 1 >= |s| || s[q] != '-' || !IsSpace(s[q + 1]) then None
      else
        var r := RunEnd(s, q + 1, IsSpace);
        if r == |s| || !IsNameChar(s[r]) then None
        else
          var e := RunEnd(s, r, IsNameChar);
          assert Separator(s, p, q, r);
          Some((r, e))
  }

  /** One `findall` result with its position: the match occupies
      `s[start..end]` and its group is `s[nameStart..end]`. */
  datatype Hit = Hit(start: nat, nameStart: nat, end: nat)

  ghost predicate IsHit(s: string, h: Hit) {
    PatternAt(s, h.start, h.nameStart, h.end)
  }

  /** Position `t` lies inside one of the reported matches. */
  ghost predicate Covered(hits: seq<Hit>, t: nat) {
    exists i :: 0 <= i < |hits| && hits[i].start <= t < hits[i].end
  }

  /** `findall` from position `p`: try the pattern at `p`; on a match report
      it and resume at its end, otherwise resume at `p + 1`. The contract
      pins the result down completely: every hit is a match, hits come in
      text order without overlap, and every position where the pattern
      matches lies inside a hit (so no match is skipped and each hit is the
      leftmost one after its predecessor). */
  function Scan(s: string, p: nat): (hits: seq<Hit>)
    requires p <= |s|
    ensures forall i :: 0 <= i < |hits| ==> p <= hits[i].start && IsHit(s, hits[i])
    ensures forall i, j :: 0 <= i < j < |hits| ==> hits[i].end <= hits[j].start
    decreases |s| - p
  {
    if p == |s| then []
    else
      match MatchAt(s, p)
      case None => Scan(s, p + 1)
      case Some((r, e)) => [Hit(p, r, e)] + Scan(s, e)
  }

  /** `Scan` misses nothing: every position from `p` on at which the pattern
      matches lies inside one of the reported hits. With the ordering in
      `Scan`'s contract this makes each hit the leftmost match after its
      predecessor, as `findall` reports them. */
  lemma {:induction false} ScanComplete(s: string, p: nat, t: nat, r: nat, e: nat)
    requires p <= t
    requires PatternAt(s, t, r, e)
    ensures Covered(Scan(s, p), t)
    decreases |s| - p, 1
  {
    if MatchAt(s, p).None? {
      if p == t {
        assert false;
      }
      ScanCompleteSkip(s, p, t, r, e);
    } else {
      ScanCompleteReport(s, p, t, r, e);
    }
  }

  /** `ScanComplete` where the pattern fails at `p`, so `t` is past `p`. */
  lemma {:induction false} ScanCompleteSkip(s: string, p: nat, t: nat, r: nat, e: nat)
    requires p < t
    requires PatternAt(s, t, r, e)
    requires MatchAt(s, p).None?
    ensures Covered(Scan(s, p), t)
    decreases |s| - p, 0
  {
    ScanComplete(s, p + 1, t, r, e);
    PatternInside(s, t, r, e);
    ScanSkips(s, p);
  }

  /** A match lies inside the text. */
  lemma PatternInside(s: string, p: nat, r: nat, e: nat)
    requires PatternAt(s, p, r, e)
    ensures p < r < e <= |s|
  {
  }

  /** Where the pattern fails, the scan moves on by one character. */
  lemma ScanSkips(s: string, p: nat)
    requires p < |s|
    requires MatchAt(s, p).None?
    ensures Scan(s, p) == Scan(s, p + 1)
  {
  }

  /** `ScanComplete` where the pattern matches at `p`: `t` lies in that
      match or after it. */
  lemma {:induction false} ScanCompleteReport(s: string, p: nat, t: nat, r: nat, e: nat)
    requires p <= t
    requires PatternAt(s, t, r, e)
    requires MatchAt(s, p).Some?
    ensures Covered(Scan(s, p), t)
    decreases |s| - p, 0
  {
    var h := Hit(p, MatchAt(s, p).value.0, MatchAt(s, p).value.1);
    var rest := Scan(s, h.end);
    assert Scan(s, p) == [h] + rest;
    if t < h.end {
      CoveredHead(h, rest, t);
    } else {
      ScanComplete(s, h.end, t, r, e);
      CoveredTail(h, rest, t);
    }
  }

  lemma CoveredHead(h: Hit, rest: seq<Hit>, t: nat)
    requires h.start <= t < h.end
    ensures Covered([h] + rest, t)
  {
    assert ([h] + rest)[0] == h;
  }

  lemma CoveredTail(h: Hit, rest: seq<Hit>, t: nat)
    requires Covered(rest, t)
    ensures Covered([h] + rest, t)
  {
    var i :| 0 <= i < |rest| && rest[i].start <= t < rest[i].end;
    assert ([h] + rest)[i + 1] == rest[i];
  }

  /** The package names `re.findall` returns for the manifest text `env`. */
  function FindAll(env: string): (names: seq<string>)
    ensures |names| == |Scan(env, 0)|
    ensures forall i :: 0 <= i < |names| ==>
              var h := Scan(env, 0)[i]; names[i] == env[h.nameStart..h.end]
    ensures forall i :: 0 <= i < |names| ==> IsPackageName(names[i])
    ensures forall i :: 0 <= i < |names| ==>
              var h := Scan(env, 0); h[i].end == |env| || !IsNameChar(env[h[i].end])
  {
    var hits := Scan(env, 0);
    seq(|hits|, i requires 0 <= i < |hits| => env[hits[i].nameStart..hits[i].end])
  }

  /** A non-empty word over `[0-9a-z-]`. */
  predicate IsPackageName(name: string) {
    |name| > 0 && forall k :: 0 <= k < |name| ==> IsNameChar(name[k])
  }
}
