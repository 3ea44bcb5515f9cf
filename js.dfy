/**
 * Small pieces of JavaScript runtime behaviour that several modules of the
 * model share: optional values (`undefined`), `Array.prototype.slice(0, end)`,
 * `Array.prototype.join`, the insertion order of a `Set`, and the pages
 * of a paginated HTTP endpoint.
 */
module Js {

  /** A value that may be `undefined`. */
  datatype Option<T> = None | Some(value: T)

  function Min(a: int, b: int): int { if a <= b then a else b }

  function Max(a: int, b: int): int { if a <= b then b else a }

  /** `a ?? 0` for an optional number. */
  function OrZero(a: Option<int>): int { if a.Some? then a.value else 0 }

  /**
   * `s.slice(0, end)`: an absent end keeps everything, a non-negative end keeps
   * at most that many elements, a negative end drops that many from the back.
   */
  function SliceTo<T>(s: seq<T>, end: Option<int>): (r: seq<T>)
    ensures |r| <= |s| && r == s[..|r|]
    ensures end.None? ==> r == s
    ensures end.Some? && end.value >= 0 ==> |r| == Min(end.value, |s|)
    ensures end.Some? && end.value < 0 ==> |r| == Max(0, |s| + end.value)
  {
    if end.None? then s
    else if end.value >= 0 then (if end.value < |s| then s[..end.value] else s)
    else if |s| + end.value > 0 then s[..|s| + end.value]
    else []
  }

  /** `parts.join(sep)`. */
  function Join(parts: seq<string>, sep: string): (r: string)
    ensures parts == [] ==> r == []
    ensures |parts| == 1 ==> r == parts[0]
    ensures |parts| >= 1 ==> |r| == TotalLength(parts) + (|parts| - 1) * |sep|
    ensures |parts| >= 1 ==> |parts[0]| <= |r| && r[..|parts[0]|] == parts[0]
  {
    if parts == [] then []
    else if |parts| == 1 then parts[0]
    else parts[0] + sep + Join(parts[1..], sep)
  }

  function TotalLength(parts: seq<string>): nat
  {
    if parts == [] then 0 else |parts[0]| + TotalLength(parts[1..])
  }

  /** No element occurs twice. */
  predicate Distinct<T(==)>(s: seq<T>)
  {
    forall i, j :: 0 <= i < j < |s| ==> s[i] != s[j]
  }

  /** `set.add(x)` on a JavaScript `Set`, seen through its insertion order. */
  function AddNew<T(==)>(s: seq<T>, x: T): (r: seq<T>)
    ensures |r| == if x in s then |s| else |s| + 1
  {
    if x in s then s else s + [x]
  }

  /** Adding keeps the set free of repeats, keeps every member, and brings in only `x`. */
  lemma AddNewFacts<T>(s: seq<T>, x: T)
    ensures x in AddNew(s, x)
    ensures Distinct(s) ==> Distinct(AddNew(s, x))
    ensures forall i :: 0 <= i < |s| ==> s[i] in AddNew(s, x)
    ensures forall i :: 0 <= i < |AddNew(s, x)| ==> AddNew(s, x)[i] in s || AddNew(s, x)[i] == x
  {
  }

  /**
   * The elements of `s` in order of first occurrence: what `new Set(s)`
   * iterates over.
   */
  function Dedup<T(==)>(s: seq<T>): (r: seq<T>)
    ensures Distinct(r)
    ensures forall i :: 0 <= i < |s| ==> s[i] in r
    ensures forall i :: 0 <= i < |r| ==> r[i] in s
    ensures |r| <= |s|
  {
    if s == [] then []
    else
      var r := Dedup(s[..|s| - 1]);
      AddNewFacts(r, s[|s| - 1]);
      AddNew(r, s[|s| - 1])
  }

  /**
   * Page `p` (counted from 1) of a paginated endpoint that serves the pages
   * `pages` and, past them, only empty pages.
   */
  function Page<T>(pages: seq<seq<T>>, p: nat): seq<T>
  {
    if 1 <= p <= |pages| then pages[p - 1] else []
  }

  /** The items of pages 1 to `n`, in order. */
  function Feed<T>(pages: seq<seq<T>>, n: nat): seq<T>
  {
    if n == 0 then [] else Feed(pages, n - 1) + Page(pages, n)
  }

  /** Fetching more pages only extends what was fetched. */
  lemma {:induction false} FeedIsPrefix<T>(pages: seq<seq<T>>, m: nat, n: nat)
    requires m <= n
    decreases n - m
    ensures Feed(pages, m) <= Feed(pages, n)
  {
    if m < n {
      FeedIsPrefix(pages, m, n - 1);
    }
  }

  /** The items of the first `n` pages are those of the first `m` followed by the rest. */
  lemma FeedSplit<T>(pages: seq<seq<T>>, m: nat, n: nat)
    requires m <= n
    ensures |Feed(pages, m)| <= |Feed(pages, n)|
    ensures Feed(pages, m) + Feed(pages, n)[|Feed(pages, m)|..] == Feed(pages, n)
  {
    FeedIsPrefix(pages, m, n);
  }

  /** Sequence steps of a walk over `d` after `w`, one element at a time. */
  lemma AppendNext<T>(w: seq<T>, d: seq<T>, j: nat)
    requires j < |d|
    ensures w + d[..j + 1] == (w + d[..j]) + [d[j]]
  {
    assert d[..j + 1] == d[..j] + [d[j]];
  }

  lemma AppendRest<T>(w: seq<T>, d: seq<T>, j: nat)
    requires j <= |d|
    ensures (w + d[..j]) + d[j..] == w + d
    ensures j == 0 ==> w == w + d[..j]
    ensures j == |d| ==> w + d[..j] == w + d
  {
    assert d[..j] + d[j..] == d;
  }

  /** Replacing the element `x` that follows `w` by the sequence `d`. */
  lemma Splice<T>(w: seq<T>, x: T, rest: seq<T>, d: seq<T>)
    ensures var s := w + [x] + rest;
      |w| < |s| && s[|w|] == x && s[..|w|] + d + s[|w| + 1..] == (w + d) + rest
  {
    var s := w + [x] + rest;
    assert s[..|w|] == w && s[|w| + 1..] == rest;
  }
}
