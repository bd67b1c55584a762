/** The bitboard search for N queens counts the non-attacking placements. */
module Queens {
  import opened BitMasks
  import opened Counting
  import opened Powers

  // A placement gives the column of each row, top row first.

  /** A queen in column `c` of the next row would meet one of the queens placed. */
  predicate Attacked(cols: seq<nat>, c: nat) {
    exists i :: 0 <= i < |cols| && Meets(cols, i, c)
  }

  predicate Meets(cols: seq<nat>, i: nat, c: nat)
    requires i < |cols|
  {
    cols[i] == c || Leftwards(cols, i, c) || Rightwards(cols, i, c)
  }

  predicate Leftwards(cols: seq<nat>, i: nat, c: nat)
    requires i < |cols|
  {
    cols[i] + (|cols| - i) == c
  }

  predicate Rightwards(cols: seq<nat>, i: nat, c: nat)
    requires i < |cols|
  {
    cols[i] == c + (|cols| - i)
  }

  /** Queens in the first rows, none attacking another. */
  predicate Placed(cols: seq<nat>, n: nat) {
    cols == [] || (cols[|cols| - 1] < n && !Attacked(cols[..|cols| - 1], cols[|cols| - 1]) && Placed(cols[..|cols| - 1], n))
  }

  // ---- the number of completions ----

  /** How many ways there are to place the remaining queens. */
  function Count(cols: seq<nat>, n: nat): nat
    requires |cols| <= n
    decreases n - |cols|, n + 1
  {
    if |cols| == n then 1 else CountUpTo(cols, n, n)
  }

  /** The ways with the next queen in one of the first `m` columns. */
  function CountUpTo(cols: seq<nat>, n: nat, m: nat): nat
    requires |cols| < n && m <= n
    decreases n - |cols|, m
  {
    if m == 0 then 0
    else CountUpTo(cols, n, m - 1) + if Attacked(cols, m - 1) then 0 else Count(cols + [m - 1], n)
  }

  /** The placements that complete `cols`. */
  ghost function Completions(cols: seq<nat>, n: nat): set<seq<nat>>
    requires |cols| <= n
    decreases n - |cols|, n + 1
  {
    if |cols| == n then {cols} else CompletionsUpTo(cols, n, n)
  }

  ghost function CompletionsUpTo(cols: seq<nat>, n: nat, m: nat): set<seq<nat>>
    requires |cols| < n && m <= n
    decreases n - |cols|, m
  {
    if m == 0 then {}
    else CompletionsUpTo(cols, n, m - 1) + if Attacked(cols, m - 1) then {} else Completions(cols + [m - 1], n)
  }

  predicate Extends(s: seq<nat>, cols: seq<nat>) { |cols| <= |s| && s[..|cols|] == cols }

  /** Completions are exactly the full placements that extend `cols`. */
  lemma {:induction false} CompletionsAre(cols: seq<nat>, n: nat, s: seq<nat>)
    requires |cols| <= n && Placed(cols, n)
    ensures s in Completions(cols, n) <==> |s| == n && Extends(s, cols) && Placed(s, n)
    decreases n - |cols|, n + 1
  {
    hide Attacked;
    if |cols| == n {
      assert |s| == n ==> s[..n] == s;
    } else {
      CompletionsUpToAre(cols, n, n, s);
      if |s| == n && Extends(s, cols) && Placed(s, n) {
        PlacedPrefix(s, n, |cols| + 1);
      }
    }
  }

  lemma {:induction false} CompletionsUpToAre(cols: seq<nat>, n: nat, m: nat, s: seq<nat>)
    requires |cols| < n && m <= n && Placed(cols, n)
    ensures s in CompletionsUpTo(cols, n, m) <==> |s| == n && Extends(s, cols) && Placed(s, n) && s[|cols|] < m
    decreases n - |cols|, m
  {
    hide Attacked;
    if m > 0 {
      CompletionsUpToAre(cols, n, m - 1, s);
      var next := cols + [m - 1];
      assert next[..|cols|] == cols;
      if |s| == n && Extends(s, cols) {
        assert s[..|cols| + 1] == cols + [s[|cols|]];
        if Placed(s, n) {
          PlacedPrefix(s, n, |cols| + 1);
          assert s[..|cols| + 1][..|cols|] == cols;
        }
      }
      if !Attacked(cols, m - 1) {
        CompletionsAre(next, n, s);
        if |s| == n && Extends(s, next) {
          assert s[|cols|] == next[|cols|] == m - 1;
          assert s[..|cols|] == s[..|cols| + 1][..|cols|] == cols;
        }
      }
    }
  }

  lemma {:induction false} PlacedPrefix(s: seq<nat>, n: nat, k: nat)
    requires Placed(s, n) && k <= |s|
    ensures Placed(s[..k], n)
    decreases |s|
  {
    if k < |s| {
      PlacedPrefix(s[..|s| - 1], n, k);
      assert s[..|s| - 1][..k] == s[..k];
    } else {
      assert s[..k] == s;
    }
  }

  /** The count is the number of completions: none is counted twice. */
  lemma {:induction false} CountIsSize(cols: seq<nat>, n: nat)
    requires |cols| <= n && Placed(cols, n)
    ensures |Completions(cols, n)| == Count(cols, n)
    decreases n - |cols|, n + 1
  {
    if |cols| < n {
      CountUpToIsSize(cols, n, n);
    }
  }

  lemma {:induction false} CountUpToIsSize(cols: seq<nat>, n: nat, m: nat)
    requires |cols| < n && m <= n && Placed(cols, n)
    ensures |CompletionsUpTo(cols, n, m)| == CountUpTo(cols, n, m)
    decreases n - |cols|, m
  {
    hide Attacked;
    if m > 0 {
      CountUpToIsSize(cols, n, m - 1);
      if !Attacked(cols, m - 1) {
        var next := cols + [m - 1];
        assert next[..|cols|] == cols;
        CountIsSize(next, n);
        var a, b := CompletionsUpTo(cols, n, m - 1), Completions(next, n);
        BranchesDiffer(cols, n, m);
        assert a * b == {};
        assert |a + b| == |a| + |b|;
      }
    }
  }

  /** Completions with the next queen in different columns differ. */
  lemma BranchesDiffer(cols: seq<nat>, n: nat, m: nat)
    requires |cols| < n && 0 < m <= n && Placed(cols, n) && !Attacked(cols, m - 1)
    ensures CompletionsUpTo(cols, n, m - 1) !! Completions(cols + [m - 1], n)
  {
    hide Attacked, Completions, CompletionsUpTo;
    var next := cols + [m - 1];
    PlacedNext(cols, n, m - 1);
    forall s | s in CompletionsUpTo(cols, n, m - 1)
      ensures s !in Completions(next, n)
    {
      CompletionsUpToAre(cols, n, m - 1, s);
      CompletionsAre(next, n, s);
      ExtendsLast(s, cols, m - 1);
    }
  }

  lemma ExtendsLast(s: seq<nat>, cols: seq<nat>, x: nat)
    ensures Extends(s, cols + [x]) ==> |s| > |cols| && s[|cols|] == x
  {
    if Extends(s, cols + [x]) {
      assert s[|cols|] == s[..|cols| + 1][|cols|];
    }
  }

  /** All placements of `n` queens. */
  lemma AllPlacements(n: nat, s: seq<nat>)
    ensures s in Completions([], n) <==> |s| == n && Placed(s, n)
    ensures |Completions([], n)| == Count([], n)
  {
    CompletionsAre([], n, s);
    CountIsSize([], n);
    assert s[..0] == [];
  }

  /** Two queens share a column or a diagonal. */
  predicate Clash(s: seq<nat>, i: nat, j: nat)
    requires i < j < |s|
  {
    s[i] == s[j] || s[i] + (j - i) == s[j] || s[i] == s[j] + (j - i)
  }

  ghost predicate Peaceful(s: seq<nat>) { forall i, j :: 0 <= i < j < |s| ==> !Clash(s, i, j) }

  /** Placements are the boards on which no two queens share a column or a diagonal. */
  lemma {:induction false} PlacedMeans(s: seq<nat>, n: nat)
    ensures Placed(s, n) <==> Peaceful(s) && forall i :: 0 <= i < |s| ==> s[i] < n
    decreases |s|
  {
    hide Attacked, Clash, Peaceful;
    if s != [] {
      PlacedMeans(s[..|s| - 1], n);
      PeacefulNext(s);
      assert forall i :: 0 <= i < |s| - 1 ==> s[..|s| - 1][i] == s[i];
    } else {
      PeacefulNothing();
    }
  }

  lemma PeacefulNothing()
    ensures Peaceful([])
  {
  }

  lemma PeacefulNext(s: seq<nat>)
    requires s != []
    ensures Peaceful(s) <==> Peaceful(s[..|s| - 1]) && !Attacked(s[..|s| - 1], s[|s| - 1])
  {
    var front, last := s[..|s| - 1], |s| - 1;
    assert forall i :: 0 <= i < last ==> front[i] == s[i];
    assert forall i :: 0 <= i < last ==> (Meets(front, i, s[last]) <==> Clash(s, i, last));
    assert forall i, j :: 0 <= i < j < last ==> (Clash(front, i, j) <==> Clash(s, i, j));
    hide Meets, Clash;
  }

  // ---- the masks ----

  predicate InRow(cols: seq<nat>, c: nat) { c in cols }

  predicate OnLeftDiagonal(cols: seq<nat>, c: nat) { exists i :: 0 <= i < |cols| && Leftwards(cols, i, c) }

  predicate OnRightDiagonal(cols: seq<nat>, c: nat) { exists i :: 0 <= i < |cols| && Rightwards(cols, i, c) }

  /** The three masks hold exactly the columns and diagonals in use. */
  ghost predicate Masks(cols: seq<nat>, n: nat, row: nat, ld: nat, rd: nat) {
    && row < Pow2(n) && ld < WORD && rd < Pow2(n)
    && (forall c: nat :: Bit(row, c) <==> InRow(cols, c))
    && (forall c: nat :: c < 32 ==> (Bit(ld, c) <==> OnLeftDiagonal(cols, c)))
    && (forall c: nat :: Bit(rd, c) <==> OnRightDiagonal(cols, c))
  }

  lemma AttackedIs(cols: seq<nat>, c: nat)
    ensures Attacked(cols, c) <==> InRow(cols, c) || OnLeftDiagonal(cols, c) || OnRightDiagonal(cols, c)
  {
    if InRow(cols, c) {
      var i :| 0 <= i < |cols| && cols[i] == c;
      assert Meets(cols, i, c);
    }
    if OnLeftDiagonal(cols, c) {
      var i :| 0 <= i < |cols| && Leftwards(cols, i, c);
      assert Meets(cols, i, c);
    }
    if OnRightDiagonal(cols, c) {
      var i :| 0 <= i < |cols| && Rightwards(cols, i, c);
      assert Meets(cols, i, c);
    }
  }

  // What a queen in column `q` of the next row adds, one row further down.

  lemma NextRow(cols: seq<nat>, q: nat, c: nat)
    ensures InRow(cols + [q], c) <==> InRow(cols, c) || c == q
  {
  }

  lemma NextLeft(cols: seq<nat>, q: nat, c: nat)
    ensures OnLeftDiagonal(cols + [q], c) <==> c > 0 && (OnLeftDiagonal(cols, c - 1) || c - 1 == q)
  {
    var next := cols + [q];
    if OnLeftDiagonal(next, c) {
      var i :| 0 <= i < |next| && Leftwards(next, i, c);
      if i < |cols| {
        assert Leftwards(cols, i, c - 1);
      }
    }
    if c > 0 && OnLeftDiagonal(cols, c - 1) {
      var i :| 0 <= i < |cols| && Leftwards(cols, i, c - 1);
      assert Leftwards(next, i, c);
    }
    if c > 0 && c - 1 == q {
      assert Leftwards(next, |cols|, c);
    }
  }

  lemma NextRight(cols: seq<nat>, q: nat, c: nat)
    ensures OnRightDiagonal(cols + [q], c) <==> OnRightDiagonal(cols, c + 1) || c + 1 == q
  {
    var next := cols + [q];
    if OnRightDiagonal(next, c) {
      var i :| 0 <= i < |next| && Rightwards(next, i, c);
      if i < |cols| {
        assert Rightwards(cols, i, c + 1);
      }
    }
    if OnRightDiagonal(cols, c + 1) {
      var i :| 0 <= i < |cols| && Rightwards(cols, i, c + 1);
      assert Rightwards(next, i, c);
    }
    if c + 1 == q {
      assert Rightwards(next, |cols|, c);
    }
  }

  /** Columns that no queen placed attacks. */
  predicate Free(cols: seq<nat>, n: nat, c: nat) { c < n && !Attacked(cols, c) }

  /** The candidates `FULL & ~(row | ld | rd)`. */
  function Candidates(n: nat, row: nat, ld: nat, rd: nat): nat
    requires row < WORD && ld < WORD && rd < WORD
  {
    WordPower();
    OrBelow(row, ld, 32);
    OrBelow(Or(row, ld), rd, 32);
    And(Pow2(n) - 1, Not(Or(Or(row, ld), rd), 32))
  }

  lemma WordPower()
    ensures Pow2(32) == WORD
  {
    Pow2Values();
  }

  lemma CandidatesAre(cols: seq<nat>, n: nat, row: nat, ld: nat, rd: nat, c: nat)
    requires 0 < n <= 30 && Masks(cols, n, row, ld, rd)
    ensures row < WORD && rd < WORD && Candidates(n, row, ld, rd) < Pow2(n)
    ensures Bit(Candidates(n, row, ld, rd), c) <==> Free(cols, n, c)
  {
    hide And, Or, Not, Bit, Pow2, Attacked, InRow, OnLeftDiagonal, OnRightDiagonal;
    WordPower();
    Pow2Increases(n, 32);
    var m := Or(Or(row, ld), rd);
    OrBelow(row, ld, 32);
    OrBelow(Or(row, ld), rd, 32);
    AndBelow(Pow2(n) - 1, Not(m, 32));
    BitAnd(Pow2(n) - 1, Not(m, 32), c);
    BitOfFull(n, c);
    AttackedIs(cols, c);
    if c < n {
      BitNot(m, 32, c);
      BitOr(Or(row, ld), rd, c);
      BitOr(row, ld, c);
    }
  }

  /** Placing a queen on a free column and going one row down. */
  lemma MasksNext(cols: seq<nat>, n: nat, row: nat, ld: nat, rd: nat, q: nat)
    requires 0 < n <= 30 && Masks(cols, n, row, ld, rd) && q < n
    ensures Masks(cols + [q], n, Or(row, Pow2(q)), 2 * Or(ld, Pow2(q)) % WORD, Or(rd, Pow2(q)) / 2)
  {
    hide And, Or, Not, Bit, Pow2, Attacked, InRow, OnLeftDiagonal, OnRightDiagonal;
    Pow2Increases(q, n);
    OrBelow(row, Pow2(q), n);
    OrBelow(rd, Pow2(q), n);
    var row', ld', rd' := Or(row, Pow2(q)), 2 * Or(ld, Pow2(q)) % WORD, Or(rd, Pow2(q)) / 2;
    forall c: nat
      ensures Bit(row', c) <==> InRow(cols + [q], c)
      ensures c < 32 ==> (Bit(ld', c) <==> OnLeftDiagonal(cols + [q], c))
      ensures Bit(rd', c) <==> OnRightDiagonal(cols + [q], c)
    {
      RowNext(cols, row, q, c);
      if c < 32 {
        LeftNext(cols, ld, q, c);
      }
      RightNext(cols, rd, q, c);
    }
  }

  lemma RowNext(cols: seq<nat>, row: nat, q: nat, c: nat)
    requires Bit(row, c) <==> InRow(cols, c)
    ensures Bit(Or(row, Pow2(q)), c) <==> InRow(cols + [q], c)
  {
    hide Or, Bit, Pow2, InRow;
    BitOr(row, Pow2(q), c);
    BitOfPow2(q, c);
    NextRow(cols, q, c);
  }

  lemma LeftNext(cols: seq<nat>, ld: nat, q: nat, c: nat)
    requires c < 32 && (c > 0 ==> (Bit(ld, c - 1) <==> OnLeftDiagonal(cols, c - 1)))
    ensures Bit(2 * Or(ld, Pow2(q)) % WORD, c) <==> OnLeftDiagonal(cols + [q], c)
  {
    hide Or, Pow2, OnLeftDiagonal;
    NextLeft(cols, q, c);
    var x := Or(ld, Pow2(q));
    WordPower();
    BitModulo(2 * x, 32, c);
    if c > 0 {
      BitOr(ld, Pow2(q), c - 1);
      BitOfPow2(q, c - 1);
      assert Bit(2 * x, c) == Bit(x, c - 1);
    }
  }

  lemma BitModulo(x: nat, w: nat, c: nat)
    requires c < w
    ensures Bit(x % Pow2(w), c) <==> Bit(x, c)
  {
    hide And;
    AndLow(x, w);
    BitAnd(x, Pow2(w) - 1, c);
    BitOfFull(w, c);
  }

  lemma RightNext(cols: seq<nat>, rd: nat, q: nat, c: nat)
    requires Bit(rd, c + 1) <==> OnRightDiagonal(cols, c + 1)
    ensures Bit(Or(rd, Pow2(q)) / 2, c) <==> OnRightDiagonal(cols + [q], c)
  {
    hide Or, Pow2, OnRightDiagonal;
    NextRight(cols, q, c);
    BitOr(rd, Pow2(q), c + 1);
    BitOfPow2(q, c + 1);
    var x := Or(rd, Pow2(q));
    assert Bit(x, c + 1) == Bit(x / 2, c);
  }

  lemma MasksStart(n: nat)
    ensures Masks([], n, 0, 0, 0)
  {
    forall c: nat
      ensures !Bit(0, c)
    {
      BitOfZero(c);
    }
  }

  // ---- when the board is full ----

  lemma PlacedDistinct(cols: seq<nat>, n: nat)
    requires Placed(cols, n)
    ensures Distinct(cols) && forall i :: 0 <= i < |cols| ==> cols[i] < n
  {
    PlacedMeans(cols, n);
    forall i, j | 0 <= i < j < |cols|
      ensures cols[i] != cols[j]
    {
      assert !Clash(cols, i, j);
    }
  }

  /** All columns are taken exactly when all rows are. */
  lemma RowFull(cols: seq<nat>, n: nat, row: nat, ld: nat, rd: nat)
    requires Placed(cols, n) && |cols| <= n && Masks(cols, n, row, ld, rd)
    ensures row == Pow2(n) - 1 <==> |cols| == n
  {
    hide Attacked, Bit;
    PlacedDistinct(cols, n);
    DistinctSize(cols);
    var used := set x | x in cols;
    if |cols| == n {
      forall c: nat | c < n
        ensures c in cols
      {
        AllUsed(used, n, c);
      }
      forall c | 0 <= c < n
        ensures Bit(row, c) <==> Bit(Pow2(n) - 1, c)
      {
        BitOfFull(n, c);
      }
      SameBits(row, Pow2(n) - 1, n);
    } else if row == Pow2(n) - 1 {
      forall c: nat | c < n
        ensures c in used
      {
        BitOfFull(n, c);
      }
      RangeInside(used, n);
    }
  }

  lemma AllUsed(used: set<nat>, n: nat, c: nat)
    requires |used| == n && c < n && forall x :: x in used ==> x < n
    ensures c in used
  {
    var all: set<int> := Range(n);
    var u: set<int> := set x | x in used;
    assert u == used;
    if c !in used {
      SubsetSize(u + {c}, all);
    }
  }

  lemma RangeInside(used: set<nat>, n: nat)
    requires forall c: nat :: c < n ==> c in used
    ensures |used| >= n
  {
    var u: set<int> := set x | x in used;
    assert u == used;
    SubsetSize(Range(n), u);
  }

  // ---- the search ----

  lemma {:induction false} SkipColumns(cols: seq<nat>, n: nat, m: nat, c: nat)
    requires |cols| < n && m <= c <= n && forall d :: m <= d < c ==> Attacked(cols, d)
    ensures CountUpTo(cols, n, c) == CountUpTo(cols, n, m)
    decreases c
  {
    hide Attacked;
    if m < c {
      SkipColumns(cols, n, m, c - 1);
    }
  }

  /** The candidates that are left are the free columns from `m` on. */
  ghost predicate Pending(pos: nat, cols: seq<nat>, n: nat, m: nat) {
    forall c: nat :: Bit(pos, c) <==> c >= m && Free(cols, n, c)
  }

  lemma PendingStarts(cols: seq<nat>, n: nat, row: nat, ld: nat, rd: nat)
    requires 0 < n <= 30 && Masks(cols, n, row, ld, rd)
    ensures row < WORD && ld < WORD && rd < WORD && Candidates(n, row, ld, rd) < Pow2(n)
    ensures Pending(Candidates(n, row, ld, rd), cols, n, 0)
  {
    hide Masks, Bit, Candidates, Free, Pow2;
    MasksSmall(cols, n, row, ld, rd);
    CandidatesAre(cols, n, row, ld, rd, 0);
    forall c: nat
      ensures Bit(Candidates(n, row, ld, rd), c) <==> c >= 0 && Free(cols, n, c)
    {
      CandidatesAre(cols, n, row, ld, rd, c);
    }
  }

  /** Taking the lowest candidate. */
  lemma PendingNext(pos: nat, cols: seq<nat>, n: nat, m: nat) returns (q: nat)
    requires 0 < n <= 30 && 0 < pos < Pow2(n) && Pending(pos, cols, n, m)
    ensures pos < WORD && And(pos, WORD - pos) == Pow2(q) <= pos && m <= q < n && !Attacked(cols, q)
    ensures forall d :: m <= d < q ==> Attacked(cols, d)
    ensures Pending(pos - Pow2(q), cols, n, q + 1)
  {
    hide Bit, And, Pow2, Attacked;
    WordPower();
    Pow2Increases(n, 32);
    q := LowestBit(pos, 32);
    assert Free(cols, n, q);
    forall d | m <= d < q
      ensures Attacked(cols, d)
    {
      assert !Bit(pos, d);
    }
    forall c: nat
      ensures Bit(pos - Pow2(q), c) <==> c >= q + 1 && Free(cols, n, c)
    {
      assert c < q ==> !Bit(pos, c);
    }
  }

  lemma PendingDone(cols: seq<nat>, n: nat, m: nat)
    requires Pending(0, cols, n, m)
    ensures forall d :: m <= d < n ==> Attacked(cols, d)
  {
    hide Bit, Attacked;
    forall d | m <= d < n
      ensures Attacked(cols, d)
    {
      BitOfZero(d);
    }
  }

  lemma CountStarts(cols: seq<nat>, n: nat)
    requires |cols| <= n
    ensures if |cols| == n then Count(cols, n) == 1
            else CountUpTo(cols, n, 0) == 0 && Count(cols, n) == CountUpTo(cols, n, n)
  {
  }

  lemma CountMore(cols: seq<nat>, n: nat, q: nat)
    requires |cols| < n && q < n && !Attacked(cols, q)
    ensures CountUpTo(cols, n, q + 1) == CountUpTo(cols, n, q) + Count(cols + [q], n)
  {
  }

  lemma WrapSum(x: nat, y: nat)
    ensures (x % WORD + y % WORD) % WORD == (x + y) % WORD
  {
  }

  /** `dfs`: the number of completions of the board that the masks describe, as a 32-bit word. */
  method Dfs(row: nat, ld: nat, rd: nat, n: nat, ghost cols: seq<nat>) returns (ans: nat)
    requires 0 < n <= 30 && Placed(cols, n) && |cols| <= n && Masks(cols, n, row, ld, rd)
    ensures ans == Count(cols, n) % WORD
    decreases n - |cols|
  {
    hide Masks, Bit, And, Or, Not, Pow2, Candidates, Attacked, Placed, Pending, Count, CountUpTo;
    CountStarts(cols, n);
    RowFull(cols, n, row, ld, rd);
    if row == Pow2(n) - 1 {
      return 1;
    }
    PendingStarts(cols, n, row, ld, rd);
    var pos: nat := Candidates(n, row, ld, rd);
    ans := 0;
    ghost var m: nat := 0;
    WordPower();
    Pow2Increases(n, 32);
    while pos > 0
      invariant 0 <= m <= n && pos < Pow2(n) && ans == CountUpTo(cols, n, m) % WORD && Pending(pos, cols, n, m)
      decreases pos
    {
      ghost var q := PendingNext(pos, cols, n, m);
      var p := And(pos, WORD - pos);
      Pow2Positive(q);
      pos := pos - p;
      SkipColumns(cols, n, m, q);
      MasksNext(cols, n, row, ld, rd, q);
      PlacedNext(cols, n, q);
      var more := Dfs(Or(row, p), 2 * Or(ld, p) % WORD, Or(rd, p) / 2, n, cols + [q]);
      CountMore(cols, n, q);
      WrapSum(CountUpTo(cols, n, q), Count(cols + [q], n));
      ans := (ans + more) % WORD;
      m := q + 1;
    }
    PendingDone(cols, n, m);
    SkipColumns(cols, n, m, n);
  }

  lemma MasksSmall(cols: seq<nat>, n: nat, row: nat, ld: nat, rd: nat)
    requires 0 < n <= 30 && Masks(cols, n, row, ld, rd)
    ensures row < WORD && ld < WORD && rd < WORD
  {
    hide Bit, Pow2;
    WordPower();
    Pow2Increases(n, 32);
  }

  lemma Pow2Positive(q: nat)
    ensures Pow2(q) > 0
  {
  }

  lemma PlacedNext(cols: seq<nat>, n: nat, q: nat)
    requires Placed(cols, n) && q < n && !Attacked(cols, q)
    ensures Placed(cols + [q], n)
  {
    hide Attacked;
    assert (cols + [q])[..|cols|] == cols;
  }

  /** One queen in each of `n` rows, in plain terms: every one within the columns, no two in the same column, and no two
      as many columns as rows apart. */
  ghost predicate IsSolution(s: seq<nat>, n: nat) {
    && |s| == n && (forall i :: 0 <= i < n ==> s[i] < n)
    && forall i, j :: 0 <= i < j < n ==> s[i] != s[j] && s[i] + j != s[j] + i && s[j] + j != s[i] + i
  }

  lemma PeacefulMeans(s: seq<nat>)
    ensures Peaceful(s) <==>
            forall i, j :: 0 <= i < j < |s| ==> s[i] != s[j] && s[i] + j != s[j] + i && s[j] + j != s[i] + i
  {
    forall i, j | 0 <= i < j < |s|
      ensures Clash(s, i, j) <==> s[i] == s[j] || s[i] + j == s[j] + i || s[j] + j == s[i] + i
    {
    }
    hide Clash;
  }

  /** `bench_queen_run`: the number of ways to place `n` queens, as a 32-bit word. */
  method Run(n: nat) returns (ans: nat)
    requires 0 < n <= 30
    ensures ans == |Completions([], n)| % WORD
    ensures forall s :: s in Completions([], n) <==> IsSolution(s, n)
  {
    forall s ensures s in Completions([], n) <==> IsSolution(s, n) {
      AllPlacements(n, s);
      PlacedMeans(s, n);
      PeacefulMeans(s);
    }
    MasksStart(n);
    CountIsSize([], n);
    ans := Dfs(0, 0, 0, n, []);
  }
}
