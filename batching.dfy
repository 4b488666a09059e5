/** The bulk-import batch partitioner (`payload_parser`) and the loops that slice the
    contact list into POST bodies with its boundaries. */
module Batching {
  import opened Common

  /** Byte ceiling for one bulk-import body: 90% of the API's 400,000-byte limit. */
  const PayloadCeiling: nat := 360000

  /** The API's hard limit on the size of one bulk-import body. */
  const ApiLimit: nat := 400000

  /** Records per batch for `n` contacts whose serialization takes `size` bytes:
      `int(360000 / size * n) + 1`, with the quotient taken exactly. */
  function Step(n: nat, size: nat): (k: nat)
    requires size > 0
    ensures k >= 1
    ensures (k - 1) * size <= PayloadCeiling * n < k * size
  {
    PayloadCeiling * n / size + 1
  }

  /** The list `list_index` as the `while` loop leaves it, when its last element
      is `last`: one more boundary, `step` further on, for as long as the last is
      below `n`. */
  function Grown(last: nat, n: nat, step: nat): (g: seq<nat>)
    requires step >= 1
    decreases n - last
  {
    if last < n then [last] + Grown(last + step, n, step) else [last]
  }

  /** What `payload_parser` returns: the grown list with its last element overwritten by `n`. */
  function Boundaries(n: nat, size: nat): seq<nat>
    requires size > 0
  {
    var g := Grown(0, n, Step(n, size));
    g[..|g| - 1] + [n]
  }

  /** `payload_parser`, with `n = len(payload["contacts"])` and `size` the serialized size. */
  method PayloadParser(n: nat, size: nat) returns (bounds: seq<nat>)
    requires size > 0
    ensures bounds == Boundaries(n, size)
  {
    bounds := [0];
    while bounds[|bounds| - 1] < n
      invariant |bounds| >= 1
      invariant Grown(0, n, Step(n, size)) == bounds[..|bounds| - 1] + Grown(bounds[|bounds| - 1], n, Step(n, size))
      decreases n - bounds[|bounds| - 1]
    {
      var last := bounds[|bounds| - 1] + PayloadCeiling * n / size + 1;
      ghost var prev := bounds;
      bounds := bounds + [last];
      assert bounds[..|bounds| - 1] == prev;
      assert prev[..|prev| - 1] + [prev[|prev| - 1]] == prev;
    }
    bounds := bounds[..|bounds| - 1] + [n];
  }

  /** The grown list advances by exactly `step`, stays below `n` until its last
      element, which reaches `n`; every element but the last starts one batch. */
  lemma {:induction false} GrownShape(last: nat, n: nat, step: nat)
    requires step >= 1
    ensures var g := Grown(last, n, step);
            && |g| >= 1 && g[0] == last && g[|g| - 1] >= n
            && (forall i :: 0 <= i < |g| - 1 ==> g[i] < n)
            && (forall i :: 0 <= i < |g| - 1 ==> g[i + 1] == g[i] + step)
            && last + (|g| - 1) * step >= n
            && (|g| > 1 ==> last + (|g| - 2) * step < n)
    decreases n - last
  {
    if last < n {
      GrownShape(last + step, n, step);
      var g := Grown(last, n, step);
      var rest := Grown(last + step, n, step);
      assert g == [last] + rest;
      assert forall i :: 1 <= i < |g| ==> g[i] == rest[i - 1];
      assert (|g| - 1) * step == (|rest| - 1) * step + step;
      if |rest| > 1 {
        assert (|g| - 2) * step == (|rest| - 2) * step + step;
      }
    }
  }

  /** `payload_parser`'s boundaries are well formed: they start at 0, end at `n`,
      strictly increase, every step but the last is `Step(n, size)` and the last is
      at most that; `n = 0` gives `[0]`, and there are `ceil(n / Step)` batches
      (the least count whose steps cover `n`). */
  lemma BoundariesWellFormed(n: nat, size: nat)
    requires size > 0
    ensures var b := Boundaries(n, size);
            && |b| >= 1 && b[0] == 0 && b[|b| - 1] == n
            && (forall i :: 0 <= i < |b| - 1 ==> b[i] < n)
            && (forall i :: 0 <= i < |b| - 1 ==> b[i] < b[i + 1])
            && (forall i :: 0 <= i < |b| - 2 ==> b[i + 1] - b[i] == Step(n, size))
            && (forall i :: 0 <= i < |b| - 1 ==> b[i + 1] - b[i] <= Step(n, size))
            && (n == 0 <==> b == [0])
            && (|b| - 1) * Step(n, size) >= n
            && (n > 0 ==> (|b| - 2) * Step(n, size) < n)
  {
    var step := Step(n, size);
    GrownShape(0, n, step);
    var g := Grown(0, n, step);
    var b := Boundaries(n, size);
    assert |b| == |g|;
    assert forall i :: 0 <= i < |b| - 1 ==> b[i] == g[i];
    if |g| == 1 {
      assert b == [n];
    } else {
      assert b[0] == g[0];
      assert g[|g| - 2] < n <= g[|g| - 2] + step;
    }
  }

  /** Body `k` of `posts` is `contacts[b[k]..b[k + 1]]`, one body per pair of
      consecutive boundaries. */
  ghost predicate SlicedBy<T>(posts: seq<seq<T>>, contacts: seq<T>, b: seq<nat>)
  {
    |posts| == |b| - 1 &&
    forall k {:trigger posts[k]} :: 0 <= k < |posts| ==> b[k] <= b[k + 1] <= |contacts| && posts[k] == contacts[b[k]..b[k + 1]]
  }

  /** The part of `BoundariesWellFormed` the slicing loop needs: from 0 to `n`,
      each boundary at most the next. The loop calls this rather than the full
      lemma, whose step-count clauses (products of `Step`) make the loop's proof
      too expensive. */
  lemma BoundariesSliceable(n: nat, size: nat)
    requires size > 0
    ensures var b := Boundaries(n, size);
            && |b| >= 1 && b[0] == 0 && b[|b| - 1] == n
            && (forall i :: 0 <= i < |b| ==> b[i] <= n)
            && (forall i :: 0 <= i < |b| - 1 ==> b[i] <= b[i + 1])
  {
    BoundariesWellFormed(n, size);
  }

  /** The POST bodies: consecutive boundaries slice `contacts` (script.py lines
      212-220 and 277-285; each body is the one sent by `requests.post`). */
  method BulkImport<T>(contacts: seq<T>, size: nat) returns (posts: seq<seq<T>>)
    requires size > 0
    ensures Concat(posts) == contacts
    ensures forall k :: 0 <= k < |posts| ==> 0 < |posts[k]| <= Step(|contacts|, size)
    ensures |posts| * Step(|contacts|, size) >= |contacts|
    ensures |contacts| > 0 ==> (|posts| - 1) * Step(|contacts|, size) < |contacts|
    ensures contacts == [] <==> posts == []
    ensures SlicedBy(posts, contacts, Boundaries(|contacts|, size))
  {
    var bounds := PayloadParser(|contacts|, size);
    BoundariesSliceable(|contacts|, size);
    posts := [];
    var i := 0;
    while i < |bounds| - 1
      invariant 0 <= i <= |bounds| - 1
      invariant |posts| == i
      invariant Concat(posts) == contacts[..bounds[i]]
      invariant forall k :: 0 <= k < i ==> posts[k] == contacts[bounds[k]..bounds[k + 1]]
    {
      var body := contacts[bounds[i]..bounds[i + 1]];
      ConcatSnoc(posts, body);
      assert contacts[..bounds[i + 1]] == contacts[..bounds[i]] + body;
      posts := posts + [body];
      i := i + 1;
    }
    assert contacts[..bounds[i]] == contacts;
    SlicedByBoundaries(posts, contacts, size);
  }

  /** Bodies cut at `payload_parser`'s boundaries are non-empty, hold at most one
      step of records each, and number `ceil(n / Step)`, none for no contacts. */
  lemma SlicedByBoundaries<T>(posts: seq<seq<T>>, contacts: seq<T>, size: nat)
    requires size > 0
    requires SlicedBy(posts, contacts, Boundaries(|contacts|, size))
    ensures forall k :: 0 <= k < |posts| ==> 0 < |posts[k]| <= Step(|contacts|, size)
    ensures |posts| * Step(|contacts|, size) >= |contacts|
    ensures |contacts| > 0 ==> (|posts| - 1) * Step(|contacts|, size) < |contacts|
    ensures contacts == [] <==> posts == []
  {
    BoundariesWellFormed(|contacts|, size);
  }

  /** With `n` records of equal size `recordSize`, serialized to `size` bytes, at
      least their total (the separators, brackets and string header only add to
      it), each batch's body is at most the ceiling plus one record: the `+ 1` in
      the step can overshoot by one record. */
  lemma UniformBatchBound(n: nat, recordSize: nat, size: nat, len: nat)
    requires n > 0 && recordSize > 0 && size >= n * recordSize
    requires len <= Step(n, size)
    ensures len * recordSize <= PayloadCeiling + recordSize
  {
    var k := Step(n, size);
    assert (k - 1) * (n * recordSize) <= (k - 1) * size;
    assert ((k - 1) * recordSize - PayloadCeiling) * n <= 0 by {
      assert ((k - 1) * recordSize - PayloadCeiling) * n == (k - 1) * (n * recordSize) - PayloadCeiling * n;
    }
    assert len * recordSize <= k * recordSize;
  }

  /** Ten records whose JSON takes 70,000 bytes each serialize to 700,020 bytes of
      JSON (with the `", "` separators and the brackets), which `sys.getsizeof`
      reports with a string header of a few dozen bytes on top. For any size up to
      720,000 the step is 6, and a batch of six such records (420,000 bytes)
      exceeds even the API's hard limit. */
  lemma UniformBatchCanExceedApiLimit(size: nat)
    requires 700000 <= size <= 720000
    ensures Step(10, size) == 6
    ensures Step(10, size) * 70000 > ApiLimit
  {
    // Dafny sometimes finds this unaided; on some solver seeds it does not, and
    // these two products pin the step between 5 and 7 exclusive.
    var k := Step(10, size);
    assert (k - 5) * size > 0 by {
      assert (k - 5) * size == k * size - 5 * size;
    }
    assert (7 - k) * size > 0 by {
      assert (7 - k) * size == 6 * size - (k - 1) * size;
    }
  }
}
