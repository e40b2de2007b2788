/** Parts put end to end, and where each of them stands. */
module Segments {
  import opened Machine

  /** The first k parts, one after the other. */
  function Flat<T>(parts: seq<seq<T>>, k: nat): seq<T>
    requires k <= |parts|
  {
    if k == 0 then [] else Flat(parts, k - 1) + parts[k - 1]
  }

  /** For each element, the number of the part it comes from. */
  function Origins<T>(parts: seq<seq<T>>, k: nat): seq<nat>
    requires k <= |parts|
  {
    if k == 0 then [] else Origins(parts, k - 1) + Repeat(k - 1, |parts[k - 1]|)
  }

  lemma {:induction false} FlatKept<T>(parts: seq<seq<T>>, part: seq<T>, k: nat)
    requires k <= |parts|
    ensures Flat(parts + [part], k) == Flat(parts, k) && Origins(parts + [part], k) == Origins(parts, k)
  {
    if k > 0 {
      FlatKept(parts, part, k - 1);
    }
  }

  /** Part k stands at `a`, whole and in order, and no other element comes from it. */
  ghost predicate Segment<T>(flat: seq<T>, origins: seq<nat>, k: nat, a: nat, part: seq<T>) {
    && |flat| == |origins| && a + |part| <= |flat|
    && flat[a..a + |part|] == part
    && forall v | 0 <= v < |origins| :: origins[v] == k <==> a <= v < a + |part|
  }

  ghost predicate AllBelow(origins: seq<nat>, n: nat) {
    forall v | 0 <= v < |origins| :: origins[v] < n
  }

  lemma BelowMore(origins: seq<nat>, n: nat, more: nat)
    requires AllBelow(origins, n)
    ensures AllBelow(origins + Repeat(n, more), n + 1)
  {
  }

  lemma {:induction false} OriginsBelow<T>(parts: seq<seq<T>>, n: nat)
    requires n <= |parts|
    ensures |Origins(parts, n)| == |Flat(parts, n)| && AllBelow(Origins(parts, n), n)
  {
    if n > 0 {
      OriginsBelow(parts, n - 1);
      BelowMore(Origins(parts, n - 1), n - 1, |parts[n - 1]|);
    }
  }

  lemma SegmentKept<T>(flat: seq<T>, origins: seq<nat>, k: nat, a: nat, part: seq<T>, more: seq<T>, n: nat)
    requires Segment(flat, origins, k, a, part) && n != k
    ensures Segment(flat + more, origins + Repeat(n, |more|), k, a, part)
  {
    assert (flat + more)[a..a + |part|] == flat[a..a + |part|];
  }

  lemma SegmentNew<T>(flat: seq<T>, origins: seq<nat>, part: seq<T>, n: nat)
    requires |flat| == |origins| && AllBelow(origins, n)
    ensures Segment(flat + part, origins + Repeat(n, |part|), n, |flat|, part)
  {
    assert (flat + part)[|flat|..|flat| + |part|] == part;
  }

  lemma SegmentOfOne<T>(flat: seq<T>, origins: seq<nat>, k: nat, a: nat, part: seq<T>)
    requires Segment(flat, origins, k, a, part) && |part| <= 1
    ensures if part == [] then forall v | 0 <= v < |origins| :: origins[v] != k
            else && a < |flat| && flat[a] == part[0]
                 && forall v | 0 <= v < |origins| :: origins[v] == k <==> v == a
  {
    assert part != [] ==> flat[a..a + |part|][0] == flat[a];
  }

  /** Each part stands where its turn comes. */
  lemma {:induction false} PartStands<T>(parts: seq<seq<T>>, n: nat, k: nat)
    requires k < n <= |parts|
    ensures Segment(Flat(parts, n), Origins(parts, n), k, |Flat(parts, k)|, parts[k])
  {
    if k < n - 1 {
      PartStands(parts, n - 1, k);
      SegmentKept(Flat(parts, n - 1), Origins(parts, n - 1), k, |Flat(parts, k)|, parts[k], parts[n - 1], n - 1);
    } else {
      OriginsBelow(parts, k);
      SegmentNew(Flat(parts, k), Origins(parts, k), parts[k], k);
    }
  }
}
