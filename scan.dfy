/**
 * Scanning a string with a pattern anchored at a position.
 *
 * Each regular expression of the extractors is written as a matcher: given
 * the text and a start position it says whether the pattern matches there,
 * where that match ends and what it captured. `Search` is `re.search` /
 * Kotlin's `Regex.find` (the leftmost match), `FindAll` is `re.findall` /
 * `re.finditer` (successive non-overlapping matches, resuming at the end of
 * the previous one) and `RemoveAll` is `re.sub(pattern, '', text)`.
 */
module Scan {
  import opened Wrappers
  import opened Text

  /** A pattern anchored at a position: the end of the match there and its capture, if any. */
  type Matcher<T> = (string, nat) -> Option<(nat, T)>

  /** A match found in the text: where it starts and ends, and what it captured. */
  datatype Found<T> = Found(start: nat, end: nat, value: T)

  predicate MatchesAt<T(==)>(s: string, m: Matcher<T>, f: Found<T>)
  {
    m(s, f.start) == Some((f.end, f.value))
  }

  /** The leftmost match at or after `from` (a match may also start at `|s|`). */
  function Search<T(==)>(s: string, m: Matcher<T>, from: nat): (r: Option<Found<T>>)
    decreases |s| + 1 - from
    ensures r.Some? ==> from <= r.value.start <= |s| && MatchesAt(s, m, r.value)
    ensures r.Some? ==> forall j :: from <= j < r.value.start ==> m(s, j).None?
    ensures r.None? ==> forall j :: from <= j <= |s| ==> m(s, j).None?
  {
    if from > |s| then None
    else match m(s, from)
      case Some(hit) => Some(Found(from, hit.0, hit.1))
      case None => Search(s, m, from + 1)
  }

  /** The capture of the leftmost match in the whole text (`re.search(...).group(n)`). */
  function First<T(==)>(s: string, m: Matcher<T>): (r: Option<T>)
    ensures r.Some? ==> exists i :: 0 <= i <= |s| && m(s, i).Some? && m(s, i).value.1 == r.value
                                   && forall j :: 0 <= j < i ==> m(s, j).None?
    ensures r.None? <==> forall i :: 0 <= i <= |s| ==> m(s, i).None?
  {
    match Search(s, m, 0)
    case Some(f) => Some(f.value)
    case None => None
  }

  /**
   * The greatest `k` in `lo..hi` satisfying `p`: how a greedy repetition
   * backtracks, giving back one item at a time until the rest matches.
   */
  function Greatest(lo: nat, hi: nat, p: nat -> bool): (r: Option<nat>)
    decreases hi
    ensures r.Some? ==> lo <= r.value <= hi && p(r.value)
    ensures r.Some? ==> forall k :: r.value < k <= hi ==> !p(k)
    ensures r.None? ==> forall k :: lo <= k <= hi ==> !p(k)
  {
    if hi < lo then None
    else if p(hi) then Some(hi)
    else if hi == 0 then None
    else Greatest(lo, hi - 1, p)
  }

  /**
   * A loop over two patterns that stops at the first one matching anywhere:
   * the leftmost match of `m1`, or, only when `m1` matches nowhere, the
   * leftmost match of `m2`.
   */
  function SearchEither<T(==)>(s: string, m1: Matcher<T>, m2: Matcher<T>): (r: Option<Found<T>>)
    ensures r.Some? ==> r.value.start <= |s|
    ensures r.Some? ==>
              (MatchesAt(s, m1, r.value) && forall j :: 0 <= j < r.value.start ==> m1(s, j).None?)
              || ((forall j :: 0 <= j <= |s| ==> m1(s, j).None?)
                  && MatchesAt(s, m2, r.value) && forall j :: 0 <= j < r.value.start ==> m2(s, j).None?)
    ensures r.None? <==> forall j :: 0 <= j <= |s| ==> m1(s, j).None? && m2(s, j).None?
  {
    match Search(s, m1, 0)
    case Some(f) => Some(f)
    case None => Search(s, m2, 0)
  }

  /** Where scanning resumes after a match: its end, or one past an empty match. */
  function Resume<T>(s: string, f: Found<T>): (n: nat)
    requires f.start <= |s|
    ensures f.start < n <= |s| + 1
  {
    if f.start < f.end <= |s| then f.end else f.start + 1
  }

  /** All successive non-overlapping matches at or after `from`, left to right. */
  function FindAll<T(==)>(s: string, m: Matcher<T>, from: nat): (r: seq<Found<T>>)
    decreases |s| + 1 - from
    ensures forall k :: 0 <= k < |r| ==> from <= r[k].start <= |s| && MatchesAt(s, m, r[k])
    ensures forall k :: 0 <= k < |r| - 1 ==> r[k].start < r[k + 1].start
    ensures |r| > 0 <==> Search(s, m, from).Some?
    ensures |r| > 0 ==> r[0] == Search(s, m, from).value
  {
    match Search(s, m, from)
    case None => []
    case Some(f) => [f] + FindAll(s, m, Resume(s, f))
  }

  /** The captures of a list of matches, in order. */
  function Values<T>(fs: seq<Found<T>>): (r: seq<T>)
    ensures |r| == |fs|
    ensures forall k :: 0 <= k < |fs| ==> r[k] == fs[k].value
  {
    if fs == [] then [] else [fs[0].value] + Values(fs[1..])
  }

  /** `re.sub(pattern, '', s[from..])`: the text with every match found by `FindAll` cut out. */
  function RemoveAll<T(==)>(s: string, m: Matcher<T>, from: nat): (r: string)
    requires from <= |s|
    decreases |s| + 1 - from
    ensures |r| <= |s| - from
    ensures Search(s, m, from).None? ==> r == s[from..]
  {
    match Search(s, m, from)
    case None => s[from..]
    case Some(f) =>
      var n := Resume(s, f);
      if n > |s| then s[from..f.start]
      else if f.start < f.end then s[from..f.start] + RemoveAll(s, m, n)
      else s[from..n] + RemoveAll(s, m, n)
  }

  /**
   * Each match after the first is the leftmost one from where scanning
   * resumes after the one before it, and nothing matches after the last:
   * with `FindAll`'s own contract (its first element is the leftmost
   * match) this says that no match is skipped.
   */
  lemma {:induction false} FindAllResumes<T>(s: string, m: Matcher<T>, from: nat)
    ensures var r := FindAll(s, m, from);
      forall k :: 0 <= k < |r| - 1 ==> Search(s, m, Resume(s, r[k])) == Some(r[k + 1])
    ensures var r := FindAll(s, m, from);
      |r| > 0 ==> Search(s, m, Resume(s, r[|r| - 1])).None?
    decreases |s| + 1 - from
  {
    match Search(s, m, from)
    case None =>
    case Some(f) =>
      var rest := FindAll(s, m, Resume(s, f));
      FindAllResumes(s, m, Resume(s, f));
      assert FindAll(s, m, from) == [f] + rest;
  }

  /** Matches inside the text, each starting no earlier than scanning resumes after the one before. */
  predicate Spaced<T>(s: string, fs: seq<Found<T>>)
  {
    (forall k :: 0 <= k < |fs| ==> fs[k].start <= |s|)
    && forall k :: 0 <= k < |fs| - 1 ==> Resume(s, fs[k]) <= fs[k + 1].start
  }

  /** The matches `FindAll` lists are spaced. */
  lemma FindAllSpaced<T>(s: string, m: Matcher<T>, from: nat)
    ensures Spaced(s, FindAll(s, m, from))
  {
    FindAllResumes(s, m, from);
  }

  /**
   * The text `re.sub(pattern, '', ...)` keeps from `from` up to where scanning
   * resumes after the match `f`: everything before the match, and the
   * character an empty match steps over.
   */
  function KeptBefore<T>(s: string, from: nat, f: Found<T>): (r: string)
    requires from <= f.start <= |s|
    ensures from + |r| <= |s| && from + |r| <= Resume(s, f)
    ensures r == s[from..from + |r|]
  {
    if f.start < f.end || f.start == |s| then s[from..f.start] else s[from..f.start + 1]
  }

  /**
   * The text around a list of successive matches: what each match leaves
   * before it, and the rest of the text after the last one. The matched
   * spans themselves are left out.
   */
  function Gaps<T>(s: string, fs: seq<Found<T>>, from: nat): string
    requires Spaced(s, fs) && (|fs| > 0 ==> from <= fs[0].start)
    decreases |fs|
  {
    if fs == [] then (if from <= |s| then s[from..] else [])
    else KeptBefore(s, from, fs[0]) + Gaps(s, fs[1..], Resume(s, fs[0]))
  }

  /** `RemoveAll` keeps exactly the gaps between the matches `FindAll` lists, in order. */
  lemma {:induction false} RemoveAllGaps<T>(s: string, m: Matcher<T>, from: nat)
    requires from <= |s|
    ensures Spaced(s, FindAll(s, m, from)) && RemoveAll(s, m, from) == Gaps(s, FindAll(s, m, from), from)
    decreases |s| + 1 - from
  {
    FindAllSpaced(s, m, from);
    match Search(s, m, from)
    case None =>
    case Some(f) =>
      var n := Resume(s, f);
      assert FindAll(s, m, from) == [f] + FindAll(s, m, n);
      if n <= |s| {
        RemoveAllGaps(s, m, n);
        RemoveAllStep(s, m, from);
      }
  }

  /** One step of `RemoveAll`: the text kept before the leftmost match, then the rest. */
  lemma RemoveAllStep<T>(s: string, m: Matcher<T>, from: nat)
    requires from <= |s| && Search(s, m, from).Some?
    requires Resume(s, Search(s, m, from).value) <= |s|
    ensures RemoveAll(s, m, from)
            == KeptBefore(s, from, Search(s, m, from).value) + RemoveAll(s, m, Resume(s, Search(s, m, from).value))
  {
  }

  /**
   * A pattern matching only at `i`, with a non-empty match ending at `e`,
   * is cut out of the text and the text on both sides is kept.
   */
  lemma RemoveAllOnlyAt<T>(s: string, m: Matcher<T>, i: nat)
    requires i <= |s| && m(s, i).Some? && i < m(s, i).value.0 <= |s|
    requires forall j :: 0 <= j < i ==> m(s, j).None?
    requires forall j :: m(s, i).value.0 <= j <= |s| ==> m(s, j).None?
    ensures RemoveAll(s, m, 0) == s[..i] + s[m(s, i).value.0..]
  {
    SearchSkip(s, m, 0, i);
    var e := m(s, i).value.0;
    SearchSkip(s, m, e, |s| + 1);
  }

  /** Searching from a position where the pattern does not match is searching from the next one. */
  lemma {:induction false} SearchSkip<T>(s: string, m: Matcher<T>, from: nat, to: nat)
    requires from <= to
    requires forall j :: from <= j < to ==> m(s, j).None?
    ensures Search(s, m, from) == Search(s, m, to)
    decreases (to as int) - (from as int)
  {
    if from < to {
      SearchSkip(s, m, from + 1, to);
    }
  }

  /** The first match is the one at `k` when nothing matches before it. */
  lemma FirstAt<T>(s: string, m: Matcher<T>, k: nat)
    requires k <= |s| && m(s, k).Some?
    requires forall j :: 0 <= j < k ==> m(s, j).None?
    ensures First(s, m) == Some(m(s, k).value.1)
  {
    SearchSkip(s, m, 0, k);
  }

  /** Where the first match comes from: a position where the pattern matches with that value. */
  lemma FirstFrom<T>(s: string, m: Matcher<T>) returns (i: nat)
    requires First(s, m).Some?
    ensures i <= |s| && m(s, i).Some? && m(s, i).value.1 == First(s, m).value
  {
    i :| 0 <= i <= |s| && m(s, i).Some? && m(s, i).value.1 == First(s, m).value;
  }

  /** What every match of a pattern captures, the first match captures. */
  lemma FirstHolds<T>(s: string, m: Matcher<T>, P: T -> bool)
    requires First(s, m).Some?
    requires forall i :: 0 <= i <= |s| && m(s, i).Some? ==> P(m(s, i).value.1)
    ensures P(First(s, m).value)
  {
    var i := FirstFrom(s, m);
  }

  /** The match of `m` at `i`, if any, ends with `w`. */
  predicate MatchEndsWith<T>(s: string, m: Matcher<T>, w: string, i: nat)
  {
    m(s, i).Some? ==> |w| <= m(s, i).value.0 && OccursAt(s, w, m(s, i).value.0 - |w|)
  }

  /** Every match of `m` in `s` ends with `w`. */
  predicate MatchesEndWith<T>(s: string, m: Matcher<T>, w: string)
  {
    forall i :: 0 <= i <= |s| ==> MatchEndsWith(s, m, w, i)
  }

  /** When every match of a pattern ends with `w`, a text where the pattern is found contains `w`. */
  lemma FoundContains<T>(s: string, m: Matcher<T>, w: string)
    requires First(s, m).Some? && MatchesEndWith(s, m, w)
    ensures Contains(s, w)
  {
    var i := FirstFrom(s, m);
    assert MatchEndsWith(s, m, w, i);
    ContainsSlice(s, w, m(s, i).value.0 - |w|);
  }

  /** A pattern that matches nowhere from `from` on is found nowhere. */
  lemma FindAllNowhere<T>(s: string, m: Matcher<T>, from: nat)
    requires forall j :: from <= j <= |s| ==> m(s, j).None?
    ensures FindAll(s, m, from) == []
  {
  }

  /** A pattern matching only at `i` (once, ending inside the text) yields that one capture. */
  lemma FindAllOnlyAt<T>(s: string, m: Matcher<T>, i: nat)
    requires i <= |s| && m(s, i).Some? && i < m(s, i).value.0 <= |s|
    requires forall j :: 0 <= j < i ==> m(s, j).None?
    requires forall j :: m(s, i).value.0 <= j <= |s| ==> m(s, j).None?
    ensures Values(FindAll(s, m, 0)) == [m(s, i).value.1]
  {
    SearchSkip(s, m, 0, i);
    var e := m(s, i).value.0;
    FindAllNowhere(s, m, e);
    assert FindAll(s, m, 0) == [Found(i, e, m(s, i).value.1)];
  }

  /** Two patterns that agree everywhere find the same matches. */
  lemma {:induction false} FindAllSame<T>(s: string, m1: Matcher<T>, m2: Matcher<T>, from: nat)
    requires forall j :: 0 <= j <= |s| ==> m1(s, j) == m2(s, j)
    ensures FindAll(s, m1, from) == FindAll(s, m2, from)
    decreases |s| + 1 - from
  {
    SearchSame(s, m1, m2, from);
    match Search(s, m1, from)
    case None =>
    case Some(f) => FindAllSame(s, m1, m2, Resume(s, f));
  }

  lemma {:induction false} SearchSame<T>(s: string, m1: Matcher<T>, m2: Matcher<T>, from: nat)
    requires forall j :: 0 <= j <= |s| ==> m1(s, j) == m2(s, j)
    ensures Search(s, m1, from) == Search(s, m2, from)
    decreases |s| + 1 - from
  {
    if from <= |s| && m1(s, from).None? {
      SearchSame(s, m1, m2, from + 1);
    }
  }
}
