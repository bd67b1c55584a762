/** Multi-level page tables as trees: what a walk that fills in missing tables does to the
    translations, and which pages the tables occupy. */
module PageTree {
  /** A table entry and what hangs off it: nothing, or a table owned by the address space. */
  datatype Tree = Word(e: nat) | Table(e: nat, kids: seq<Tree>)

  // Entry words: a page number above twelve flag bits; bit 0 present, bit 1 writable, bit 2 user.
  predicate Present(e: nat) { e % 2 == 1 }

  predicate Writable(e: nat) { e / 2 % 2 == 1 }

  predicate User(e: nat) { e / 4 % 2 == 1 }

  /** Bit 7 above the last level: the entry maps a large page itself. */
  predicate Large(e: nat) { e / 128 % 2 == 1 }

  predicate Owned(e: nat) { Present(e) && User(e) }

  function Page(e: nat): nat { e / 4096 }

  function Bit(b: bool): nat { if b then 1 else 0 }

  /** The flags are the bits of the word below its page number. */
  lemma Flags(e: nat)
    ensures e % 8 == Bit(Present(e)) + 2 * Bit(Writable(e)) + 4 * Bit(User(e))
    ensures e % 256 == e % 128 + 128 * Bit(Large(e))
    ensures Page(e) * 4096 <= e < (Page(e) + 1) * 4096
  {
    Halves(e, e / 2, e % 2);
    Quarters(e, e / 4, e % 4);
    Halves(e / 2, e / 4, e / 2 % 2);
    Halves(e / 4, e / 8, e / 4 % 2);
    Halves(e / 128, e / 256, e / 128 % 2);
  }

  lemma Halves(e: nat, h: nat, r: nat)
    requires e == 2 * h + r && r < 2
    ensures e / 2 == h && e % 2 == r
  {
  }

  lemma Quarters(e: nat, h: nat, r: nat)
    requires e == 4 * h + r && r < 4
    ensures e / 4 == h && e % 4 == r
  {
  }

  /** The word of a table that the address space owns: present, writable, user. */
  function TableWord(page: nat): nat { page * 4096 + 7 }

  lemma TableWordFacts(page: nat)
    ensures Owned(TableWord(page)) && Page(TableWord(page)) == page && Writable(TableWord(page)) && !Large(TableWord(page))
  {
    Fields(page, 1, 1);
  }

  /** The flags of a word put together from a page number, the user and the writable bit, and the present bit. */
  lemma Fields(page: nat, u: nat, w: nat)
    requires u < 2 && w < 2
    ensures var e := page * 4096 + 4 * u + 2 * w + 1;
            e / 4096 == page && e % 2 == 1 && e / 2 % 2 == w && e / 4 % 2 == u && e / 128 % 2 == 0
  {
    var e := page * 4096 + 4 * u + 2 * w + 1;
    Halves(e, page * 2048 + 2 * u + w, 1);
    Halves(page * 2048 + 2 * u + w, page * 1024 + u, w);
    Quarters(e, page * 1024 + u, 2 * w + 1);
    Halves(page * 1024 + u, page * 512, u);
    Upper(e, page * 32, 4 * u + 2 * w + 1);
    Halves(page * 32, page * 16, 0);
  }

  lemma Upper(e: nat, h: nat, r: nat)
    requires e == 128 * h + r && r < 128
    ensures e / 128 == h
  {
  }

  // ---- paths ----

  /** Every step of `q` is through a table. */
  predicate Reaches(t: Tree, q: seq<nat>) {
    q == [] || (t.Table? && q[0] < |t.kids| && Reaches(t.kids[q[0]], q[1..]))
  }

  function Sub(t: Tree, q: seq<nat>): Tree
    requires Reaches(t, q)
  {
    if q == [] then t else Sub(t.kids[q[0]], q[1..])
  }

  function Put(t: Tree, q: seq<nat>, s: Tree): Tree
    requires Reaches(t, q)
  {
    if q == [] then s else Table(t.e, t.kids[q[0] := Put(t.kids[q[0]], q[1..], s)])
  }

  /** The entry that `q` leads to; 0 where a table on the way is missing. */
  function Get(t: Tree, q: seq<nat>): nat {
    if q == [] then t.e
    else if t.Table? && q[0] < |t.kids| then Get(t.kids[q[0]], q[1..])
    else 0
  }

  predicate IsPath(q: seq<nat>, E: nat) { forall i :: 0 <= i < |q| ==> q[i] < E }

  /** Every table has `E` entries. */
  predicate Full(t: Tree, E: nat) {
    t.Table? ==> |t.kids| == E && forall j :: 0 <= j < E ==> Full(t.kids[j], E)
  }

  /** One more step through a table. */
  lemma ReachesMore(t: Tree, q: seq<nat>, j: nat)
    requires Reaches(t, q) && Sub(t, q).Table? && j < |Sub(t, q).kids|
    ensures Reaches(t, q + [j]) && Sub(t, q + [j]) == Sub(t, q).kids[j]
  {
    if q != [] {
      ReachesMore(t.kids[q[0]], q[1..], j);
      assert (q + [j])[1..] == q[1..] + [j];
    }
  }

  lemma PutReaches(t: Tree, q: seq<nat>, s: Tree)
    requires Reaches(t, q)
    ensures Reaches(Put(t, q, s), q) && Sub(Put(t, q, s), q) == s
  {
  }

  // ---- writing the last entry of a path ----

  lemma {:induction false} GetAfterPut(t: Tree, q: seq<nat>, x: nat, r: seq<nat>)
    requires Reaches(t, q) && |r| == |q|
    ensures Get(Put(t, q, Word(x)), r) == if r == q then x else Get(t, r)
  {
    if q != [] {
      if r[0] == q[0] {
        GetAfterPut(t.kids[q[0]], q[1..], x, r[1..]);
        assert r == [r[0]] + r[1..] && q == [q[0]] + q[1..];
      }
    } else {
      assert r == [];
    }
  }

  // ---- filling in the tables of a path ----

  function Zeros(E: nat): seq<Tree> { seq(E, _ => Word(0)) }

  function EmptyTable(page: nat, E: nat): Tree { Table(TableWord(page), Zeros(E)) }

  /** How many tables are missing on the way. */
  function Need(t: Tree, q: seq<nat>): nat {
    if q == [] then 0
    else if t.Table? && q[0] < |t.kids| then Need(t.kids[q[0]], q[1..])
    else |q|
  }

  /** The tree with every table on the way, missing ones taken in order from the front of `pool`. */
  function Grow(t: Tree, q: seq<nat>, pool: seq<nat>, E: nat): (r: (Tree, seq<nat>))
    requires IsPath(q, E) && Need(t, q) <= |pool|
    decreases |q|
  {
    if q == [] then (t, pool)
    else if t.Table? && q[0] < |t.kids| then
      var r := Grow(t.kids[q[0]], q[1..], pool, E);
      (Table(t.e, t.kids[q[0] := r.0]), r.1)
    else
      var r := Grow(Word(0), q[1..], pool[1..], E);
      (Table(TableWord(pool[0]), Zeros(E)[q[0] := r.0]), r.1)
  }

  lemma {:induction false} GrowReaches(t: Tree, q: seq<nat>, pool: seq<nat>, E: nat)
    requires IsPath(q, E) && Need(t, q) <= |pool|
    ensures Reaches(Grow(t, q, pool, E).0, q)
    ensures Grow(t, q, pool, E).1 == pool[Need(t, q)..]
    decreases |q|
  {
    if q != [] {
      if t.Table? && q[0] < |t.kids| {
        GrowReaches(t.kids[q[0]], q[1..], pool, E);
      } else {
        GrowReaches(Word(0), q[1..], pool[1..], E);
        assert pool[1..][|q| - 1..] == pool[|q|..];
      }
    }
  }

  /** A path that is already there is left as it is. */
  lemma {:induction false} GrowNothing(t: Tree, q: seq<nat>, pool: seq<nat>, E: nat)
    requires IsPath(q, E) && Reaches(t, q)
    ensures Need(t, q) == 0 && Grow(t, q, pool, E) == (t, pool)
  {
    if q != [] {
      GrowNothing(t.kids[q[0]], q[1..], pool, E);
      assert t.kids[q[0] := t.kids[q[0]]] == t.kids;
    }
  }

  /** No translation changes: new tables hold only absent entries. */
  lemma {:induction false} GetAfterGrow(t: Tree, q: seq<nat>, pool: seq<nat>, E: nat, r: seq<nat>)
    requires Full(t, E) && IsPath(q, E) && IsPath(r, E) && Need(t, q) <= |pool| && |r| == |q|
    ensures Get(Grow(t, q, pool, E).0, r) == Get(t, r)
    decreases |q|
  {
    if q != [] {
      if t.Table? && q[0] < |t.kids| {
        if r[0] == q[0] {
          GetAfterGrow(t.kids[q[0]], q[1..], pool, E, r[1..]);
        }
      } else {
        if r[0] == q[0] {
          GetAfterGrow(Word(0), q[1..], pool[1..], E, r[1..]);
        }
        ZeroGet(r[1..]);
      }
    }
  }

  lemma ZeroGet(r: seq<nat>)
    ensures Get(Word(0), r) == 0
  {
  }

  /** Filling in the first missing table changes nothing about where the filling ends. */
  lemma {:induction false} GrowStep(t: Tree, q: seq<nat>, i: nat, pool: seq<nat>, E: nat)
    requires IsPath(q, E) && i < |q| && Reaches(t, q[..i]) && Sub(t, q[..i]).Word?
    ensures Need(t, q) == |q| - i
    ensures pool != [] ==> Need(Put(t, q[..i], EmptyTable(pool[0], E)), q) == |q| - i - 1
    ensures |q| - i <= |pool| ==>
              Grow(Put(t, q[..i], EmptyTable(pool[0], E)), q, pool[1..], E) == Grow(t, q, pool, E)
    decreases |q|
  {
    if i == 0 {
      NeedOfWord(q[1..]);
    } else {
      assert q[..i][1..] == q[1..][..i - 1] && q[..i][0] == q[0];
      GrowStep(t.kids[q[0]], q[1..], i - 1, pool, E);
      if |q| - i <= |pool| {
        var kid := Put(t.kids[q[0]], q[1..][..i - 1], EmptyTable(pool[0], E));
        PutOverwritten(t.kids, q[0], kid, Grow(kid, q[1..], pool[1..], E).0);
      }
    }
  }

  lemma PutOverwritten(kids: seq<Tree>, j: nat, a: Tree, b: Tree)
    requires j < |kids|
    ensures kids[j := a][j := b] == kids[j := b]
  {
  }

  lemma NeedOfWord(q: seq<nat>)
    ensures Need(Word(0), q) == |q|
  {
  }

  /** Nothing is missing along a path through tables. */
  lemma NeedIsZero(t: Tree, q: seq<nat>)
    requires Reaches(t, q)
    ensures Need(t, q) == 0
  {
  }

  // ---- the pages of the tables, in the order `teardown` frees them ----

  function Pages(t: Tree): seq<nat>
    decreases t, if t.Table? then |t.kids| + 1 else 0
  {
    if t.Word? then [] else PagesUpTo(t, |t.kids|) + [Page(t.e)]
  }

  function PagesUpTo(t: Tree, n: nat): seq<nat>
    requires t.Table? && n <= |t.kids|
    decreases t, n
  {
    if n == 0 then [] else PagesUpTo(t, n - 1) + Pages(t.kids[n - 1])
  }

  lemma NextPages(t: Tree, n: nat)
    requires t.Table? && 0 < n <= |t.kids|
    ensures PagesUpTo(t, n) == PagesUpTo(t, n - 1) + Pages(t.kids[n - 1])
    ensures multiset(PagesUpTo(t, n)) == multiset(PagesUpTo(t, n - 1)) + multiset(Pages(t.kids[n - 1]))
  {
  }

  lemma NoPages(t: Tree)
    requires t.Table?
    ensures PagesUpTo(t, 0) == []
  {
  }

  lemma Swap(a: multiset<nat>, b: multiset<nat>, c: multiset<nat>)
    ensures (a + b) + c == (a + c) + b
  {
  }

  /** Cancelling what two exchanges have in common. */
  lemma Balance(a: multiset<nat>, a': multiset<nat>, k: multiset<nat>, k': multiset<nat>, x: multiset<nat>, y: multiset<nat>)
    requires a' + k == a + k' && k' + x == k + y
    ensures a' + x == a + y
  {
    forall z: nat
      ensures (a' + x)[z] == (a + y)[z]
    {
      assert (a' + k)[z] == (a + k')[z] && (k' + x)[z] == (k + y)[z];
    }
    assert a' + x == a + y;
  }

  lemma TablePages(t: Tree)
    requires t.Table?
    ensures Pages(t) == PagesUpTo(t, |t.kids|) + [Page(t.e)]
    ensures multiset(Pages(t)) == multiset(PagesUpTo(t, |t.kids|)) + multiset{Page(t.e)}
  {
  }

  lemma {:induction false} PagesOfKid(t: Tree, n: nat, j: nat, p: nat)
    requires t.Table? && j < n <= |t.kids| && p in Pages(t.kids[j])
    ensures p in PagesUpTo(t, n)
  {
    if j < n - 1 {
      PagesOfKid(t, n - 1, j, p);
    }
  }

  lemma {:induction false} PageOfSome(t: Tree, n: nat, p: nat) returns (j: nat)
    requires t.Table? && n <= |t.kids| && p in PagesUpTo(t, n)
    ensures j < n && p in Pages(t.kids[j])
  {
    if p in Pages(t.kids[n - 1]) {
      j := n - 1;
    } else {
      j := PageOfSome(t, n - 1, p);
    }
  }

  /** Changing one child changes the pages by that child's. */
  lemma {:induction false} KidPages(t: Tree, j: nat, s: Tree, n: nat)
    requires t.Table? && j < |t.kids| && n <= |t.kids|
    ensures var t' := Table(t.e, t.kids[j := s]);
            if n <= j then PagesUpTo(t', n) == PagesUpTo(t, n)
            else multiset(PagesUpTo(t', n)) + multiset(Pages(t.kids[j])) == multiset(PagesUpTo(t, n)) + multiset(Pages(s))
  {
    hide PagesUpTo, Pages;
    NoPages(t);
    NoPages(Table(t.e, t.kids[j := s]));
    if n > 0 {
      var t' := Table(t.e, t.kids[j := s]);
      KidPages(t, j, s, n - 1);
      NextPages(t, n);
      NextPages(t', n);
      var before, before' := multiset(PagesUpTo(t, n - 1)), multiset(PagesUpTo(t', n - 1));
      var last, last' := multiset(Pages(t.kids[n - 1])), multiset(Pages(t'.kids[n - 1]));
      var old', new' := multiset(Pages(t.kids[j])), multiset(Pages(s));
      if j < n - 1 {
        assert last == last' && before' + old' == before + new';
        Swap(before', old', last);
        Swap(before, new', last);
      } else if j == n - 1 {
        Swap(before, last', last);
      }
    }
  }

  lemma {:induction false} ZeroPages(t: Tree, n: nat)
    requires t.Table? && n <= |t.kids| && forall j :: 0 <= j < n ==> t.kids[j].Word?
    ensures PagesUpTo(t, n) == []
  {
    if n > 0 {
      ZeroPages(t, n - 1);
    }
  }

  lemma {:induction false} PutPages(t: Tree, q: seq<nat>, s: Tree)
    requires Reaches(t, q)
    ensures multiset(Pages(Put(t, q, s))) + multiset(Pages(Sub(t, q))) == multiset(Pages(t)) + multiset(Pages(s))
  {
    hide Pages, PagesUpTo;
    if q != [] {
      var kid := Put(t.kids[q[0]], q[1..], s);
      PutPages(t.kids[q[0]], q[1..], s);
      KidPages(t, q[0], kid, |t.kids|);
      TablePages(t);
      var t' := Table(t.e, t.kids[q[0] := kid]);
      TablePages(t');
      var a, a' := multiset(PagesUpTo(t, |t.kids|)), multiset(PagesUpTo(t', |t.kids|));
      Balance(a, a', multiset(Pages(t.kids[q[0]])), multiset(Pages(kid)), multiset(Pages(Sub(t, q))), multiset(Pages(s)));
      Swap(a', multiset{Page(t.e)}, multiset(Pages(Sub(t, q))));
      Swap(a, multiset{Page(t.e)}, multiset(Pages(s)));
    }
  }

  lemma EmptyTablePages(page: nat, E: nat)
    ensures Pages(EmptyTable(page, E)) == [page]
  {
    ZeroPages(EmptyTable(page, E), E);
    TableWordFacts(page);
  }

  lemma Neutral(a: multiset<nat>, none: seq<nat>)
    requires none == []
    ensures a + multiset(none) == a == multiset(none) + a
  {
    assert forall z: nat :: multiset(none)[z] == 0;
    assert forall z: nat :: (a + multiset(none))[z] == a[z];
  }

  lemma WordPages(e: nat)
    ensures Pages(Word(e)) == []
  {
  }

  // ---- one mapping ----

  /** One mapping made (or removed, with word 0). */
  datatype Request = Request(path: seq<nat>, word: nat)

  function Apply(t: Tree, pool: seq<nat>, r: Request, E: nat): (Tree, seq<nat>)
    requires IsPath(r.path, E) && Need(t, r.path) <= |pool|
  {
    GrowReaches(t, r.path, pool, E);
    var grown := Grow(t, r.path, pool, E);
    (Put(grown.0, r.path, Word(r.word)), grown.1)
  }

  lemma ApplyIs(t: Tree, pool: seq<nat>, r: Request, E: nat)
    requires IsPath(r.path, E) && Need(t, r.path) <= |pool|
    ensures var grown := Grow(t, r.path, pool, E);
            && Reaches(grown.0, r.path) && Apply(t, pool, r, E) == (Put(grown.0, r.path, Word(r.word)), grown.1)
  {
    GrowReaches(t, r.path, pool, E);
  }

  /** Writing a last entry changes no page. */
  lemma PutWordPages(t: Tree, q: seq<nat>, x: nat)
    requires Reaches(t, q) && Sub(t, q).Word?
    ensures multiset(Pages(Put(t, q, Word(x)))) == multiset(Pages(t))
  {
    PutPages(t, q, Word(x));
    WordPages(x);
    WordPages(Sub(t, q).e);
    hide Pages, PagesUpTo;
    var none: seq<nat> := [];
    Neutral(multiset(Pages(t)), none);
    Neutral(multiset(Pages(Put(t, q, Word(x)))), none);
  }

  /** Tables hang only above the last of `k` levels. */
  predicate Depth(t: Tree, k: nat) {
    t.Table? ==> k > 0 && forall j :: 0 <= j < |t.kids| ==> Depth(t.kids[j], k - 1)
  }

  lemma {:induction false} GrowDepth(t: Tree, q: seq<nat>, pool: seq<nat>, E: nat)
    requires Depth(t, |q|) && IsPath(q, E) && Need(t, q) <= |pool|
    ensures Depth(Grow(t, q, pool, E).0, |q|)
    decreases |q|
  {
    if q == [] {
    } else if t.Table? && q[0] < |t.kids| {
      GrowDepth(t.kids[q[0]], q[1..], pool, E);
    } else {
      GrowDepth(Word(0), q[1..], pool[1..], E);
    }
  }

  lemma {:induction false} PutDepth(t: Tree, q: seq<nat>, x: nat)
    requires Depth(t, |q|) && Reaches(t, q)
    ensures Depth(Put(t, q, Word(x)), |q|) && Sub(t, q).Word?
    decreases |q|
  {
    if q != [] {
      PutDepth(t.kids[q[0]], q[1..], x);
    }
  }
}
