/**
 The theory of the catalogue's open-addressing index: a ring of cells probed
 linearly, with no tombstones. `home[s]` is the cell where the probe for slot
 `s` starts. The whole structure rests on one fact, `WellProbed`: every cell
 from a slot's home to the cell that holds it is occupied.
 */
module ProbeTable {

  /** Marks an empty cell, and "no such entry" to callers. */
  const NO_SLOT: int := 0xffff_ffff

  /** `(i + 1) & mask` for a ring of n cells. */
  function Next(i: nat, n: nat): (r: nat)
    requires i < n
    ensures r < n
  {
    if i + 1 == n then 0 else i + 1
  }

  lemma NextIsModulo(i: nat, n: nat)
    requires i < n
    ensures Next(i, n) == (i + 1) % n
  {
    if i + 1 < n {
      assert (i + 1) % n == i + 1;
    } else {
      assert n % n == 0;
    }
  }

  /** Steps from a forward to b around a ring of n cells. */
  function Dist(a: nat, b: nat, n: nat): (d: nat)
    requires a < n && b < n
    ensures d < n
  {
    if a <= b then b - a else b - a + n
  }

  ghost predicate Shaped(table: seq<int>, home: seq<nat>) {
    && (forall c :: 0 <= c < |table| && table[c] != NO_SLOT ==> 0 <= table[c] < |home|)
    && (forall s :: 0 <= s < |home| ==> home[s] < |table|)
  }

  /** Cell x is one a probe for slot s meets no later than cell c. */
  ghost predicate OnPath(table: seq<int>, home: seq<nat>, s: int, x: int, c: int)
    requires 0 <= s < |home| && home[s] < |table|
    requires 0 <= x < |table| && 0 <= c < |table|
  {
    Dist(home[s], x, |table|) <= Dist(home[s], c, |table|)
  }

  ghost predicate WellProbed(table: seq<int>, home: seq<nat>)
    requires Shaped(table, home)
  {
    forall c, x ::
      (0 <= c < |table| && 0 <= x < |table| && table[c] != NO_SLOT && OnPath(table, home, table[c], x, c))
      ==> table[x] != NO_SLOT
  }

  /** Leaving cell `hole` aside (-1 for none), each slot of S sits in exactly one cell, and nothing else does. */
  ghost predicate HoldsExcept(table: seq<int>, hole: int, S: set<int>) {
    && NO_SLOT !in S
    && (forall c :: 0 <= c < |table| && c != hole && table[c] != NO_SLOT ==> table[c] in S)
    && (forall s :: s in S ==> exists c :: 0 <= c < |table| && c != hole && table[c] == s)
    && (forall c, d :: 0 <= c < d < |table| && c != hole && d != hole && table[c] != NO_SLOT
          ==> table[c] != table[d])
  }

  ghost predicate Holds(table: seq<int>, S: set<int>) {
    HoldsExcept(table, -1, S)
  }

  lemma {:induction false} DistinctCells(t: seq<int>, S: set<int>)
    requires forall c :: 0 <= c < |t| ==> t[c] in S
    requires forall c, d :: 0 <= c < d < |t| ==> t[c] != t[d]
    ensures |t| <= |S|
  {
    if t != [] {
      var last := t[|t| - 1];
      DistinctCells(t[..|t| - 1], S - {last});
    }
  }

  /** A table with more cells than slots has an empty cell, so every probe ends. */
  lemma EmptyCellExists(table: seq<int>, S: set<int>) returns (e: nat)
    requires Holds(table, S) && |S| < |table|
    ensures e < |table| && table[e] == NO_SLOT
  {
    if forall c :: 0 <= c < |table| ==> table[c] != NO_SLOT {
      DistinctCells(table, S);
      assert false;
    }
    e :| 0 <= e < |table| && table[e] == NO_SLOT;
  }

  /** Filling the first empty cell on a slot's path keeps the invariant. */
  lemma InsertKeeps(table: seq<int>, home: seq<nat>, S: set<int>, slot: int, i: nat)
    requires Shaped(table, home) && WellProbed(table, home) && Holds(table, S)
    requires 0 <= slot < |home| && slot != NO_SLOT && slot !in S
    requires i < |table| && table[i] == NO_SLOT
    requires forall x :: 0 <= x < |table| && Dist(home[slot], x, |table|) < Dist(home[slot], i, |table|)
               ==> table[x] != NO_SLOT
    ensures var t := table[i := slot];
            Shaped(t, home) && WellProbed(t, home) && Holds(t, S + {slot})
  {
    var t := table[i := slot];
    forall c, x | 0 <= c < |t| && 0 <= x < |t| && t[c] != NO_SLOT && OnPath(t, home, t[c], x, c)
      ensures t[x] != NO_SLOT
    {
      if c != i {
        assert OnPath(table, home, table[c], x, c);
      }
    }
    forall s | s in S + {slot}
      ensures exists c :: 0 <= c < |t| && c != -1 && t[c] == s
    {
      if s == slot {
        assert t[i] == s;
      } else {
        var c :| 0 <= c < |table| && c != -1 && table[c] == s;
        assert t[c] == s;
      }
    }
  }

  // --- Backward-shift deletion -------------------------------------------------

  /** Every path is unbroken, save for the hole at i. */
  ghost predicate PathsCross(table: seq<int>, home: seq<nat>, i: nat)
    requires Shaped(table, home)
  {
    forall c, x ::
      (0 <= c < |table| && 0 <= x < |table| && c != i && table[c] != NO_SLOT && OnPath(table, home, table[c], x, c))
      ==> x == i || table[x] != NO_SLOT
  }

  /**
   The state of a deletion whose hole is at i and which has scanned up to and
   including j: apart from the hole every path is unbroken, and a path that
   crosses the hole belongs to a cell not yet scanned.
   */
  ghost predicate Shifting(table: seq<int>, home: seq<nat>, i: nat, j: nat)
    requires Shaped(table, home) && i < |table| && j < |table|
  {
    && PathsCross(table, home, i)
    && (forall c ::
          (0 <= c < |table| && c != i && table[c] != NO_SLOT && OnPath(table, home, table[c], i, c))
          ==> Dist(i, c, |table|) > Dist(i, j, |table|))
    && (forall x :: 0 <= x < |table| && 0 < Dist(i, x, |table|) <= Dist(i, j, |table|) ==> table[x] != NO_SLOT)
  }

  lemma ShiftStart(table: seq<int>, home: seq<nat>, S: set<int>, i: nat)
    requires Shaped(table, home) && WellProbed(table, home) && Holds(table, S)
    requires i < |table| && table[i] != NO_SLOT
    ensures Shifting(table, home, i, i)
    ensures HoldsExcept(table, i, S - {table[i]})
  {
    forall s | s in S - {table[i]}
      ensures exists c :: 0 <= c < |table| && c != i && table[c] == s
    {
      var c :| 0 <= c < |table| && c != -1 && table[c] == s;
    }
  }

  /** A cell whose home lies after the hole and no later than itself need not move. */
  lemma ShiftPass(table: seq<int>, home: seq<nat>, i: nat, j: nat)
    requires Shaped(table, home) && i < |table| && j < |table| && Shifting(table, home, i, j)
    requires var k := Next(j, |table|);
             && k != i && table[k] != NO_SLOT && !OnPath(table, home, table[k], i, k)
    ensures Shifting(table, home, i, Next(j, |table|))
  {
  }

  lemma MoveHolds(table: seq<int>, S: set<int>, i: nat, k: nat)
    requires i < |table| && k < |table| && k != i && table[k] != NO_SLOT && HoldsExcept(table, i, S)
    ensures HoldsExcept(table[i := table[k]], k, S)
  {
    var t := table[i := table[k]];
    forall s | s in S
      ensures exists c :: 0 <= c < |t| && c != k && t[c] == s
    {
      var c :| 0 <= c < |table| && c != i && table[c] == s;
      if c == k { assert t[i] == s; } else { assert t[c] == s; }
    }
  }

  /** Any other cell moves into the hole, and leaves a new one. */
  lemma ShiftMove(table: seq<int>, home: seq<nat>, i: nat, k: nat)
    requires Shaped(table, home) && i < |table| && k < |table| && PathsCross(table, home, i)
    requires k != i && table[k] != NO_SLOT && OnPath(table, home, table[k], i, k)
    ensures var t := table[i := table[k]];
            Shaped(t, home) && Shifting(t, home, k, k)
  {
    var t := table[i := table[k]];
    forall c, x | 0 <= c < |t| && 0 <= x < |t| && c != k && t[c] != NO_SLOT && OnPath(t, home, t[c], x, c)
      ensures x == k || t[x] != NO_SLOT
    {
      assert OnPath(table, home, table[if c == i then k else c], x, if c == i then k else c);
    }
  }

  /** Once the scan meets an empty cell, emptying the hole restores the invariant. */
  lemma ShiftStop(table: seq<int>, home: seq<nat>, S: set<int>, i: nat, j: nat)
    requires Shaped(table, home) && i < |table| && j < |table| && Shifting(table, home, i, j)
    requires HoldsExcept(table, i, S)
    requires var k := Next(j, |table|); k != i && table[k] == NO_SLOT
    ensures var t := table[i := NO_SLOT];
            Shaped(t, home) && WellProbed(t, home) && Holds(t, S)
  {
    hide HoldsExcept;
    var k := Next(j, |table|);
    var t := table[i := NO_SLOT];
    forall c, x | 0 <= c < |t| && 0 <= x < |t| && t[c] != NO_SLOT && OnPath(t, home, t[c], x, c)
      ensures t[x] != NO_SLOT
    {
      assert OnPath(table, home, table[c], x, c);
      assert !OnPath(table, home, table[c], k, c);
    }
    EmptiedHolds(table, S, i);
  }

  /** With the hole emptied, the table holds what it held around the hole. */
  lemma EmptiedHolds(table: seq<int>, S: set<int>, i: nat)
    requires i < |table| && HoldsExcept(table, i, S)
    ensures Holds(table[i := NO_SLOT], S)
  {
    var t := table[i := NO_SLOT];
    forall s | s in S
      ensures exists c :: 0 <= c < |t| && c != -1 && t[c] == s
    {
      var c :| 0 <= c < |table| && c != i && table[c] == s;
      assert t[c] == s;
    }
  }

  /** The source's comparison of ring positions asks whether the hole lies on the cell's path. */
  predicate StaysPut(i: nat, j: nat, home: nat) {
    if i <= j then i < home && home <= j else i < home || home <= j
  }

  lemma StaysPutMeans(i: nat, j: nat, home: nat, n: nat)
    requires i < n && j < n && home < n && i != j
    ensures StaysPut(i, j, home) <==> Dist(home, i, n) > Dist(home, j, n)
  {
  }

  /** Everything the deletion loop keeps: `kept` is what must remain, and e an empty cell ahead of the scan. */
  ghost predicate Deleting(table: seq<int>, home: seq<nat>, kept: set<int>, i: nat, j: nat, e: nat) {
    && i < |table| && j < |table| && e < |table|
    && table[e] == NO_SLOT && Dist(i, j, |table|) < Dist(i, e, |table|)
    && Shaped(table, home) && Shifting(table, home, i, j) && HoldsExcept(table, i, kept)
  }

  lemma RingAdvance(i: nat, j: nat, e: nat, n: nat)
    requires i < n && j < n && e < n && Dist(i, j, n) < Dist(i, e, n)
    ensures var k := Next(j, n);
            && k != i && Dist(i, k, n) == Dist(i, j, n) + 1 && Dist(k, e, n) + 1 == Dist(j, e, n)
            && (k != e ==> Dist(i, k, n) < Dist(i, e, n) && Dist(k, k, n) < Dist(k, e, n))
  {
  }

  /** One turn of the deletion loop, whichever branch it takes. */
  lemma DeletingStep(table: seq<int>, home: seq<nat>, kept: set<int>, i: nat, j: nat, e: nat)
    requires Deleting(table, home, kept, i, j, e)
    ensures var k := Next(j, |table|);
            && Dist(k, e, |table|) < Dist(j, e, |table|)
            && if table[k] == NO_SLOT then
                 var t := table[i := NO_SLOT];
                 Shaped(t, home) && WellProbed(t, home) && Holds(t, kept)
               else if StaysPut(i, k, home[table[k]]) then
                 Deleting(table, home, kept, i, k, e)
               else
                 Deleting(table[i := table[k]], home, kept, k, k, e)
  {
    var k := Next(j, |table|);
    RingAdvance(i, j, e, |table|);
    if table[k] == NO_SLOT {
      ShiftStop(table, home, kept, i, j);
    } else {
      StaysPutMeans(i, k, home[table[k]], |table|);
      if StaysPut(i, k, home[table[k]]) {
        ShiftPass(table, home, i, j);
      } else {
        MoveHolds(table, kept, i, k);
        ShiftMove(table, home, i, k);
      }
    }
  }
}
