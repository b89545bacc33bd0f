/** The JavaScript array operations the dashboard is built from:
    `Array.prototype.filter`, `Array.prototype.map` and `Array.prototype.slice`. */
module Sequences {

  /** `s.filter(p)`: the elements of `s` that satisfy `p`, in their order in `s`. */
  function Filter<T>(s: seq<T>, p: T -> bool): (r: seq<T>)
    ensures |r| <= |s|
    ensures forall i :: 0 <= i < |r| ==> r[i] in s && p(r[i])
    ensures forall i :: 0 <= i < |s| && p(s[i]) ==> s[i] in r
  {
    if s == [] then [] else (if p(s[0]) then [s[0]] else []) + Filter(s[1..], p)
  }

  /** Filtering distributes over concatenation, so relative order is kept. */
  lemma {:induction false} FilterConcat<T>(a: seq<T>, b: seq<T>, p: T -> bool)
    ensures Filter(a + b, p) == Filter(a, p) + Filter(b, p)
  {
    if a != [] {
      assert (a + b)[0] == a[0];
      assert (a + b)[1..] == a[1..] + b;
      FilterConcat(a[1..], b, p);
    } else {
      assert a + b == b;
    }
  }

  /** A filter that every element passes keeps the whole sequence. */
  lemma {:induction false} FilterKeepsAll<T>(s: seq<T>, p: T -> bool)
    requires forall i :: 0 <= i < |s| ==> p(s[i])
    ensures Filter(s, p) == s
  {
    if s != [] {
      FilterKeepsAll(s[1..], p);
    }
  }

  /** Two filters applied one after the other commute. */
  lemma {:induction false} FilterCommutes<T>(s: seq<T>, p: T -> bool, q: T -> bool)
    ensures Filter(Filter(s, p), q) == Filter(Filter(s, q), p)
  {
    if s != [] {
      FilterConcat(if p(s[0]) then [s[0]] else [], Filter(s[1..], p), q);
      FilterConcat(if q(s[0]) then [s[0]] else [], Filter(s[1..], q), p);
      FilterCommutes(s[1..], p, q);
    }
  }

  /** The elements kept and the elements dropped by a filter add up to the whole. */
  lemma {:induction false} FilterPartition<T>(s: seq<T>, p: T -> bool, notP: T -> bool)
    requires forall i :: 0 <= i < |s| ==> notP(s[i]) == !p(s[i])
    ensures |Filter(s, p)| + |Filter(s, notP)| == |s|
  {
    if s != [] {
      FilterPartition(s[1..], p, notP);
    }
  }

  /** `s.map(f)`: same length, `f` applied at every position. */
  function Map<T, U>(s: seq<T>, f: T -> U): (r: seq<U>)
    ensures |r| == |s|
    ensures forall i :: 0 <= i < |s| ==> r[i] == f(s[i])
  {
    if s == [] then [] else [f(s[0])] + Map(s[1..], f)
  }

  /** How `slice` turns an argument into a position of a sequence of length `n`:
      a negative index counts from the end, and both ends are clamped to `0..n`. */
  function ClampIndex(i: int, n: nat): (r: nat)
    ensures r <= n
    ensures 0 <= i <= n ==> r == i
    ensures i > n ==> r == n
  {
    if i < 0 then (if n + i < 0 then 0 else n + i) else if i > n then n else i
  }

  /** `s.slice(start, end)`: the elements from `start` up to, not including, `end`,
      or nothing when the clamped end is not past the clamped start. */
  function Slice<T>(s: seq<T>, start: int, end: int): (r: seq<T>)
    ensures |r| <= |s|
    ensures 0 <= start <= end ==> r == s[Min(|s|, start)..Min(|s|, end)]
    ensures 0 <= end <= start ==> r == []
  {
    var from, to := ClampIndex(start, |s|), ClampIndex(end, |s|);
    if from < to then s[from..to] else []
  }

  function Min(a: int, b: int): int { if a <= b then a else b }

  /** Page number `page` of `s` with `size` elements to a page, as
      `s.slice(page * size, page * size + size)` computes it. */
  function Page<T>(s: seq<T>, page: nat, size: nat): (r: seq<T>)
    ensures |r| <= size
    ensures page * size >= |s| ==> r == []
    ensures page * size < |s| ==> r == s[page * size..Min(|s|, page * size + size)]
  {
    Slice(s, page * size, page * size + size)
  }

  /** Entry `r` of page `q` is element `q * size + r`. */
  lemma EntryOfPage<T>(s: seq<T>, size: nat, q: nat, r: nat)
    requires r < size && q * size + r < |s|
    ensures r < |Page(s, q, size)| && Page(s, q, size)[r] == s[q * size + r]
  {
    PageBetween(s, q, size);
  }

  lemma DivMod(i: nat, size: nat)
    requires size > 0
    ensures (i / size) * size + i % size == i && i % size < size
  {
  }

  /** The element at position `i` is shown as entry `i % size` of page `i / size`. */
  lemma EveryElementOnItsPage<T>(s: seq<T>, size: nat, i: nat)
    requires size > 0 && i < |s|
    ensures i % size < |Page(s, i / size, size)|
    ensures Page(s, i / size, size)[i % size] == s[i]
  {
    DivMod(i, size);
    EntryOfPage(s, size, i / size, i % size);
  }

  /** Pages `0 .. count - 1` of `s`, one after the other. */
  function Pages<T>(s: seq<T>, size: nat, count: nat): seq<T>
  {
    if count == 0 then [] else Pages(s, size, count - 1) + Page(s, count - 1, size)
  }

  /** Page `k` is the run between the clamped start and clamped end of the page. */
  lemma PageBetween<T>(s: seq<T>, k: nat, size: nat)
    ensures Min(|s|, k * size) <= Min(|s|, k * size + size)
    ensures Page(s, k, size) == s[Min(|s|, k * size)..Min(|s|, k * size + size)]
  {
  }

  lemma MulSucc(k: nat, size: nat)
    ensures (k + 1) * size == k * size + size
  {
  }

  /** The elements before a clamped position, then the next run of `size`, are the
      elements before the clamped end of that run. */
  lemma PrefixThenRun<T>(s: seq<T>, a: nat, size: nat)
    ensures Min(|s|, a) <= Min(|s|, a + size)
    ensures s[..Min(|s|, a)] + s[Min(|s|, a)..Min(|s|, a + size)] == s[..Min(|s|, a + size)]
  {
  }

  /** The first `count` pages are exactly the first `count * size` elements:
      no element is skipped or shown twice. */
  lemma {:induction false} PagesArePrefix<T>(s: seq<T>, size: nat, count: nat)
    ensures Pages(s, size, count) == s[..Min(|s|, count * size)]
  {
    if count > 0 {
      var k := count - 1;
      PagesArePrefix(s, size, k);
      PageBetween(s, k, size);
      PrefixThenRun(s, k * size, size);
      MulSucc(k, size);
    }
  }
}
