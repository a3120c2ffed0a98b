/** Byte sequences that are spread over a larger one, each byte at its own place. */
module Scattered {
  import opened Block

  predicate Injective(pl: seq<nat>, n: nat) {
    (forall p :: 0 <= p < |pl| ==> pl[p] < n) && forall p, q :: 0 <= p < q < |pl| ==> pl[p] != pl[q]
  }

  function Gather(d: seq<byte>, pl: seq<nat>): (f: seq<byte>)
    requires forall p :: 0 <= p < |pl| ==> pl[p] < |d|
    ensures |f| == |pl| && forall p :: 0 <= p < |pl| ==> f[p] == d[pl[p]]
  {
    seq(|pl|, p requires 0 <= p < |pl| => d[pl[p]])
  }

  /** Puts the bytes of `b` at the places from `p` on. */
  function Scatter(d: seq<byte>, pl: seq<nat>, p: nat, b: seq<byte>): (r: seq<byte>)
    requires p + |b| <= |pl| && forall q :: 0 <= q < |pl| ==> pl[q] < |d|
    ensures |r| == |d|
    decreases |b|
  {
    if b == [] then d else Scatter(d, pl, p, b[..|b| - 1])[pl[p + |b| - 1] := b[|b| - 1]]
  }

  lemma {:induction false} GatherScatter(d: seq<byte>, pl: seq<nat>, p: nat, b: seq<byte>)
    requires Injective(pl, |d|) && p + |b| <= |pl|
    ensures Gather(Scatter(d, pl, p, b), pl) == Splice(Gather(d, pl), p, b)
    decreases |b|
  {
    if b != [] { GatherScatter(d, pl, p, b[..|b| - 1]); }
  }

  lemma {:induction false} ScatterElsewhere(d: seq<byte>, pl: seq<nat>, p: nat, b: seq<byte>, a: nat)
    requires p + |b| <= |pl| && (forall q :: 0 <= q < |pl| ==> pl[q] < |d|) && a < |d|
    requires forall q :: p <= q < p + |b| ==> pl[q] != a
    ensures Scatter(d, pl, p, b)[a] == d[a]
    decreases |b|
  {
    if b != [] { ScatterElsewhere(d, pl, p, b[..|b| - 1], a); }
  }

  lemma GatherElsewhere(d: seq<byte>, pl: seq<nat>, p: nat, b: seq<byte>, ql: seq<nat>)
    requires Injective(pl, |d|) && Injective(ql, |d|) && p + |b| <= |pl|
    requires forall x, y :: 0 <= x < |pl| && 0 <= y < |ql| ==> pl[x] != ql[y]
    ensures Gather(Scatter(d, pl, p, b), ql) == Gather(d, ql)
  {
    forall y | 0 <= y < |ql| ensures Scatter(d, pl, p, b)[ql[y]] == d[ql[y]] { ScatterElsewhere(d, pl, p, b, ql[y]); }
  }

  /** `k` consecutive places from the `p`-th on. */
  predicate Run(pl: seq<nat>, p: nat, k: nat)
  {
    p + k <= |pl| && 0 < k && forall q :: p <= q < p + k ==> pl[q] == pl[p] + (q - p)
  }

  lemma GatherRun(d: seq<byte>, pl: seq<nat>, p: nat, k: nat)
    requires Injective(pl, |d|) && Run(pl, p, k)
    ensures pl[p] + k <= |d| && Gather(d, pl)[p..p + k] == d[pl[p]..pl[p] + k]
  {
    assert pl[p + (k - 1)] == pl[p] + (k - 1);
  }

  /** Scattering over consecutive places is replacing a stretch. */
  lemma {:induction false} ScatterRun(d: seq<byte>, pl: seq<nat>, p: nat, b: seq<byte>, t: nat, k: nat)
    requires Injective(pl, |d|) && t + k <= |b| && p + |b| <= |pl| && Run(pl, p + t, k)
    ensures pl[p + t] + k <= |d|
    ensures Splice(Scatter(d, pl, p, b[..t]), pl[p + t], b[t..t + k]) == Scatter(d, pl, p, b[..t + k])
    decreases k
  {
    var c := b[..t + k];
    assert pl[p + t + (k - 1)] == pl[p + t] + (k - 1);
    assert c[..|c| - 1] == b[..t + k - 1];
    if k > 1 { ScatterRun(d, pl, p, b, t, k - 1); }
  }
}
