/** Singly linked lists in memory, and searches through tables: shared by several parts of the kernel. */
module Chains {
  /** The field of struct `k`, 0 where it was never set. */
  function At<K>(m: map<K, int>, k: K): int { if k in m then m[k] else 0 }

  predicate NoDup(q: seq<int>) { forall i, j :: 0 <= i < j < |q| ==> q[i] != q[j] }

  ghost predicate LinkAt(next: map<int, int>, q: seq<int>, i: int)
    requires 0 <= i < |q|
  {
    At(next, q[i]) == if i + 1 < |q| then q[i + 1] else 0
  }

  /** From `h` the links run through `q` and end in NULL. */
  ghost predicate Chain(next: map<int, int>, h: int, q: seq<int>) {
    && h == (if q == [] then 0 else q[0]) && 0 !in q && NoDup(q)
    && forall i :: 0 <= i < |q| ==> LinkAt(next, q, i)
  }

  lemma ChainHead(next: map<int, int>, h: int, q: seq<int>)
    requires Chain(next, h, q)
    ensures h == (if q == [] then 0 else q[0]) && 0 !in q
  {
  }

  lemma SameChain(next: map<int, int>, next': map<int, int>, h: int, q: seq<int>)
    requires Chain(next, h, q) && forall p :: p in q ==> At(next', p) == At(next, p)
    ensures Chain(next', h, q)
  {
    forall i | 0 <= i < |q| ensures LinkAt(next', q, i) {
      assert q[i] in q;
      assert LinkAt(next, q, i);
    }
  }

  /** Linking `a` in before the `k`-th struct. */
  lemma ChainInsert(next: map<int, int>, h: int, q: seq<int>, k: nat, a: int)
    requires Chain(next, h, q) && k <= |q| && a != 0 && a !in q
    ensures var next' := next[a := if k < |q| then q[k] else 0];
            if k == 0 then Chain(next', a, [a] + q) else Chain(next'[q[k - 1] := a], h, q[..k] + [a] + q[k..])
  {
    var next1 := next[a := if k < |q| then q[k] else 0];
    var next', r := if k == 0 then next1 else next1[q[k - 1] := a], q[..k] + [a] + q[k..];
    forall i | 0 <= i < |r| ensures LinkAt(next', r, i) {
      if i < k {
        assert LinkAt(next, q, i);
      } else if i > k {
        assert r[i] == q[i - 1];
        assert LinkAt(next, q, i - 1);
      }
    }
    if k == 0 { assert r == [a] + q; }
  }

  /** Taking the first struct off. */
  lemma ChainTail(next: map<int, int>, h: int, q: seq<int>)
    requires Chain(next, h, q) && q != []
    ensures Chain(next[h := 0], At(next, h), q[1..])
  {
    var next', r := next[h := 0], q[1..];
    assert LinkAt(next, q, 0);
    forall i | 0 <= i < |r| ensures LinkAt(next', r, i) {
      assert r[i] == q[i + 1];
      assert LinkAt(next, q, i + 1);
    }
    assert forall p :: p in r ==> p in q;
  }

  /** Linking the last struct of one chain to the first of another. */
  lemma ChainJoin(next: map<int, int>, h0: int, q0: seq<int>, h1: int, q1: seq<int>)
    requires Chain(next, h0, q0) && Chain(next, h1, q1) && forall p :: p in q1 ==> p !in q0
    ensures var next' := if q0 == [] || q1 == [] then next else next[q0[|q0| - 1] := h1];
            Chain(next', if q0 == [] then h1 else h0, q0 + q1)
  {
    JoinNoDup(q0, q1);
    if q0 == [] { assert q0 + q1 == q1; }
    if q1 == [] { assert q0 + q1 == q0; }
    var next', q := if q0 == [] || q1 == [] then next else next[q0[|q0| - 1] := h1], q0 + q1;
    forall i | 0 <= i < |q| ensures LinkAt(next', q, i) {
      if i < |q0| {
        assert LinkAt(next, q0, i);
      } else {
        assert q1[i - |q0|] in q1;
        assert LinkAt(next, q1, i - |q0|);
      }
    }
  }

  lemma JoinNoDup(a: seq<int>, b: seq<int>)
    requires NoDup(a) && NoDup(b) && forall p :: p in b ==> p !in a
    ensures NoDup(a + b)
  {
    forall i, j | 0 <= i < j < |a + b| ensures (a + b)[i] != (a + b)[j] {
      if i < |a| <= j { assert b[j - |a|] in b; }
    }
  }

  /** The first index from `i` on where `found` holds; `n` if there is none. */
  function First(i: nat, n: nat, found: int -> bool): (k: nat)
    requires i <= n
    ensures i <= k <= n && (k < n ==> found(k)) && forall j :: i <= j < k ==> !found(j)
    decreases n - i
  {
    if i == n || found(i) then i else First(i + 1, n, found)
  }
}
