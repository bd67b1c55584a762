/** The tree of the pseudo-LRU replacement policy: one victim, and how long a used entry is safe. */
module PseudoLru {
  import opened Powers

  // `L` levels of bits choose among 2^L entries.

  /** The upper `n` bits of an entry number. */
  function Prefix(i: nat, n: nat, L: nat): nat
    requires n <= L
  {
    DivNatural(i, Pow2(L - n));
    i / Pow2(L - n)
  }

  /** The next bit below them. */
  function Dir(i: nat, n: nat, L: nat): bool
    requires n < L
  {
    Prefix(i, n + 1, L) % 2 == 1
  }

  /** The place of the tree bit that decides at level `n` above entry `i`. */
  function Node(i: nat, n: nat, L: nat): nat
    requires n < L
  {
    Pow2(n) - 1 + Prefix(i, n, L)
  }

  lemma PrefixNext(i: nat, n: nat, L: nat)
    requires n < L
    ensures Prefix(i, n + 1, L) == 2 * Prefix(i, n, L) + if Dir(i, n, L) then 1 else 0
  {
    var b := NextBit(i, L - n);
  }

  lemma {:induction false} PrefixBelow(i: nat, n: nat, L: nat)
    requires n <= L && i < Pow2(L)
    ensures Prefix(i, n, L) < Pow2(n)
    decreases n
  {
    hide Prefix, Dir;
    if n == 0 {
      PrefixEnds(i, L);
    } else {
      PrefixBelow(i, n - 1, L);
      PrefixNext(i, n - 1, L);
    }
  }

  lemma PrefixEnds(i: nat, L: nat)
    requires i < Pow2(L)
    ensures Prefix(i, 0, L) == 0 && Prefix(i, L, L) == i
  {
    RemainderIs(i, Pow2(L), 0, i);
    assert Pow2(0) == 1;
  }

  /** Two tree bits coincide only on the same level, under the same prefix. */
  lemma NodeIs(i: nat, n: nat, j: nat, k: nat, L: nat)
    requires n < L && k < L && i < Pow2(L) && j < Pow2(L)
    ensures Node(i, n, L) == Node(j, k, L) <==> n == k && Prefix(i, n, L) == Prefix(j, k, L)
    ensures Node(i, n, L) < Pow2(L) - 1
  {
    hide Prefix;
    PrefixBelow(i, n, L);
    PrefixBelow(j, k, L);
    Pow2Increases(n, L);
    if n < k {
      Pow2Increases(n, k);
    } else if k < n {
      Pow2Increases(k, n);
    }
  }

  predicate IsTree(t: seq<bool>, L: nat) { |t| >= Pow2(L) - 1 }

  lemma NodeInTree(i: nat, n: nat, L: nat, t: seq<bool>)
    requires n < L && i < Pow2(L) && IsTree(t, L)
    ensures Node(i, n, L) < |t|
  {
    NodeIs(i, n, i, n, L);
  }

  /** The bit at level `n` points towards entry `i`. */
  predicate Points(t: seq<bool>, i: nat, n: nat, L: nat)
    requires n < L && i < Pow2(L) && IsTree(t, L)
  {
    NodeInTree(i, n, L, t);
    t[Node(i, n, L)] == Dir(i, n, L)
  }

  /** Entry `i` is the one to replace as far as the first `n` levels go. */
  predicate Enabled(t: seq<bool>, i: nat, n: nat, L: nat)
    requires n <= L && i < Pow2(L) && IsTree(t, L)
  {
    forall k :: 0 <= k < n ==> Points(t, i, k, L)
  }

  // ---- exactly one victim ----

  /** The entry number that the bits spell out, down to level `n`. */
  function Chosen(t: seq<bool>, n: nat, L: nat): (p: nat)
    requires n <= L && IsTree(t, L)
    ensures p < Pow2(n)
    decreases n
  {
    if n == 0 then 0
    else
      var p := Chosen(t, n - 1, L);
      Pow2Below(n - 1, L);
      2 * p + if t[Pow2(n - 1) - 1 + p] then 1 else 0
  }

  lemma Pow2Below(n: nat, L: nat)
    requires n < L
    ensures 2 * Pow2(n) <= Pow2(L)
  {
    Pow2Increases(n, L);
  }

  lemma {:induction false} EnabledIsChosen(t: seq<bool>, i: nat, n: nat, L: nat)
    requires n <= L && i < Pow2(L) && IsTree(t, L)
    ensures Enabled(t, i, n, L) <==> Prefix(i, n, L) == Chosen(t, n, L)
    decreases n
  {
    hide Prefix, Dir;
    if n == 0 {
      PrefixEnds(i, L);
    } else {
      EnabledIsChosen(t, i, n - 1, L);
      PrefixNext(i, n - 1, L);
      EnabledNext(t, i, n - 1, L);
    }
  }

  lemma EnabledNext(t: seq<bool>, i: nat, n: nat, L: nat)
    requires n < L && i < Pow2(L) && IsTree(t, L)
    ensures Enabled(t, i, n + 1, L) <==> Enabled(t, i, n, L) && Points(t, i, n, L)
  {
    hide Points;
  }

  /** Main result: whatever the bits are, exactly one entry is the victim. */
  lemma OneVictim(t: seq<bool>, L: nat, i: nat)
    requires i < Pow2(L) && IsTree(t, L)
    ensures Enabled(t, i, L, L) <==> i == Chosen(t, L, L)
  {
    EnabledIsChosen(t, i, L, L);
    PrefixEnds(i, L);
  }

  // ---- using an entry ----

  /** The tree after the first `n` levels above entry `j` have been turned away from it. */
  function Turned(t: seq<bool>, j: nat, n: nat, L: nat): (t': seq<bool>)
    requires n <= L && j < Pow2(L) && IsTree(t, L)
    ensures |t'| == |t|
    decreases n
  {
    if n == 0 then t
    else
      var before := Turned(t, j, n - 1, L);
      NodeInTree(j, n - 1, L, before);
      before[Node(j, n - 1, L) := !Dir(j, n - 1, L)]
  }

  /** What a hit on `j` leaves at the bits above `i`. */
  lemma {:induction false} TurnedAt(t: seq<bool>, j: nat, n: nat, L: nat, i: nat, k: nat)
    requires n <= L && j < Pow2(L) && i < Pow2(L) && k < L && IsTree(t, L)
    ensures Node(i, k, L) < |t|
    ensures Turned(t, j, n, L)[Node(i, k, L)] ==
            if k < n && Prefix(i, k, L) == Prefix(j, k, L) then !Dir(j, k, L) else t[Node(i, k, L)]
    decreases n
  {
    hide Prefix, Dir, Node;
    NodeInTree(i, k, L, t);
    if n > 0 {
      NodeInTree(j, n - 1, L, t);
      TurnedAt(t, j, n - 1, L, i, k);
      NodeIs(i, k, j, n - 1, L);
    }
  }

  /** How many of the first `n` bits above `i` point towards it. */
  function Towards(t: seq<bool>, i: nat, n: nat, L: nat): (c: nat)
    requires n <= L && i < Pow2(L) && IsTree(t, L)
    ensures c <= n
    ensures c == n <==> Enabled(t, i, n, L)
    decreases n
  {
    if n == 0 then 0
    else
      EnabledNext(t, i, n - 1, L);
      Towards(t, i, n - 1, L) + if Points(t, i, n - 1, L) then 1 else 0
  }

  function Hit(t: seq<bool>, j: nat, L: nat): (t': seq<bool>)
    requires j < Pow2(L) && IsTree(t, L)
    ensures |t'| == |t|
  {
    Turned(t, j, L, L)
  }

  /** A hit turns every shared bit away except the one where the two entries part. */
  lemma {:induction false} HitCount(t: seq<bool>, j: nat, i: nat, n: nat, L: nat)
    requires n <= L && i < Pow2(L) && j < Pow2(L) && IsTree(t, L)
    ensures Prefix(i, n, L) == Prefix(j, n, L) ==> Towards(Hit(t, j, L), i, n, L) == 0
    ensures Towards(Hit(t, j, L), i, n, L) <= Towards(t, i, n, L) + 1
    decreases n
  {
    hide Prefix, Dir, Node;
    if n > 0 {
      HitCount(t, j, i, n - 1, L);
      TurnedAt(t, j, L, L, i, n - 1);
      PrefixNext(i, n - 1, L);
      PrefixNext(j, n - 1, L);
    }
  }

  function Hits(t: seq<bool>, js: seq<nat>, L: nat): (t': seq<bool>)
    requires IsTree(t, L) && forall k :: 0 <= k < |js| ==> js[k] < Pow2(L)
    ensures |t'| == |t|
  {
    if js == [] then t else Hit(Hits(t, js[..|js| - 1], L), js[|js| - 1], L)
  }

  lemma {:induction false} TowardsAfterHits(t: seq<bool>, i: nat, js: seq<nat>, L: nat)
    requires i < Pow2(L) && IsTree(t, L) && forall k :: 0 <= k < |js| ==> js[k] < Pow2(L)
    ensures Towards(Hits(Hit(t, i, L), js, L), i, L, L) <= |js|
    decreases |js|
  {
    hide Towards, Hit;
    if js == [] {
      HitCount(t, i, i, L, L);
    } else {
      var front := js[..|js| - 1];
      TowardsAfterHits(t, i, front, L);
      HitCount(Hits(Hit(t, i, L), front, L), js[|js| - 1], i, L, L);
    }
  }

  /** Main result: after an entry is used it is not the victim before `L` further hits. */
  lemma SafeAfterHit(t: seq<bool>, i: nat, js: seq<nat>, L: nat)
    requires 0 < L && i < Pow2(L) && IsTree(t, L) && forall k :: 0 <= k < |js| ==> js[k] < Pow2(L)
    ensures |js| < L ==> Chosen(Hits(Hit(t, i, L), js, L), L, L) != i
  {
    var t' := Hits(Hit(t, i, L), js, L);
    TowardsAfterHits(t, i, js, L);
    OneVictim(t', L, i);
  }

  // ---- the circuit ----

  class PseudoLru {
    const L: nat
    const plru_tree_q: array<bool>

    constructor (L: nat)
      requires 0 < L
      ensures this.L == L && fresh(plru_tree_q) && plru_tree_q.Length == 2 * (Pow2(L) - 1) && IsTree(plru_tree_q[..], L)
    {
      this.L := L;
      assert Pow2(L) >= 1;
      plru_tree_q := new bool[2 * (Pow2(L) - 1)](_ => false);
    }

    /** The clock edge, or reset: reset clears all bits, a hit turns the bits above the entry away from it. */
    method Posedge(rstN: bool, accessHit: bool, accessIdx: nat)
      requires 0 < L && IsTree(plru_tree_q[..], L) && accessIdx < Pow2(L)
      modifies plru_tree_q
      ensures !rstN ==> forall x :: 0 <= x < plru_tree_q.Length ==> !plru_tree_q[x]
      ensures rstN ==> plru_tree_q[..] == if accessHit then Hit(old(plru_tree_q[..]), accessIdx, L) else old(plru_tree_q[..])
    {
      if !rstN {
        forall x | 0 <= x < plru_tree_q.Length {
          plru_tree_q[x] := false;
        }
        return;
      }
      ghost var t := plru_tree_q[..];
      var i := 0;
      while i < Pow2(L)
        invariant 0 <= i <= Pow2(L)
        invariant plru_tree_q[..] == if accessHit && accessIdx < i then Hit(t, accessIdx, L) else t
      {
        if i == accessIdx && accessHit {
          TurnAway(i, t);
        }
        i := i + 1;
      }
    }

    method TurnAway(i: nat, ghost t: seq<bool>)
      requires IsTree(t, L) && plru_tree_q[..] == t && i < Pow2(L)
      modifies plru_tree_q
      ensures plru_tree_q[..] == Hit(t, i, L)
    {
      hide Node, Dir, Prefix;
      var lvl := 0;
      while lvl < L
        invariant 0 <= lvl <= L && plru_tree_q[..] == Turned(t, i, lvl, L)
      {
        NodeInTree(i, lvl, L, t);
        plru_tree_q[Node(i, lvl, L)] := !Dir(i, lvl, L);
        lvl := lvl + 1;
      }
    }

    /** `replace_en` for one entry. */
    method ReplaceEn(i: nat) returns (en: bool)
      requires IsTree(plru_tree_q[..], L) && i < Pow2(L)
      ensures en <==> Enabled(plru_tree_q[..], i, L, L)
    {
      hide Node, Dir, Prefix;
      en := true;
      var lvl := 0;
      while lvl < L
        invariant 0 <= lvl <= L && (en <==> Enabled(plru_tree_q[..], i, lvl, L))
      {
        NodeInTree(i, lvl, L, plru_tree_q[..]);
        EnabledNext(plru_tree_q[..], i, lvl, L);
        if Dir(i, lvl, L) {
          en := en && plru_tree_q[Node(i, lvl, L)];
        } else {
          en := en && !plru_tree_q[Node(i, lvl, L)];
        }
        lvl := lvl + 1;
      }
    }

    /** The first enabled entry, which is the only one. */
    method ReplacementIdx(en: bool) returns (idx: nat)
      requires IsTree(plru_tree_q[..], L)
      ensures idx == if en then Chosen(plru_tree_q[..], L, L) else 0
    {
      hide Enabled, Chosen;
      idx := 0;
      if en {
        ghost var t := plru_tree_q[..];
        var iter, found := 0, false;
        while iter < Pow2(L) && !found
          invariant 0 <= iter <= Pow2(L)
          invariant if found then idx == Chosen(t, L, L) else idx == 0 && Chosen(t, L, L) >= iter
        {
          var enabled := ReplaceEn(iter);
          OneVictim(t, L, iter);
          if enabled {
            idx, found := iter, true;
          }
          iter := iter + 1;
        }
      }
    }
  }
}
