/**
 * Combining the three cleaned horizons: two inner joins on 'Name', a final
 * `dropna`, and a sort by one return column, largest first.
 */
module Merging {
  import opened Wrappers
  import opened Frames
  import opened Cleaning
  import Sequences

  /** The row `pd.merge` builds from a left and a right row with the same name. */
  function Joined(a: Record, b: Record): Record
  {
    Record(a.name, a.values + b.values)
  }

  /** The names occurring in a dataset. */
  function Names(rs: seq<Record>): set<Cell>
  {
    set r | r in rs :: r.name
  }

  /** Row `a` joined with every row of `rs` that has its name, in the order of `rs`. */
  function Matches(a: Record, rs: seq<Record>): (r: seq<Record>)
    ensures forall x :: x in r <==> exists b :: b in rs && b.name == a.name && x == Joined(a, b)
    decreases |rs|
  {
    if rs == [] then []
    else
      var rest := Matches(a, rs[1..]);
      assert forall b :: b in rs <==> b == rs[0] || b in rs[1..];
      if rs[0].name == a.name then [Joined(a, rs[0])] + rest else rest
  }

  /**
   * `pd.merge(l, r, on='Name', how='inner')`: every pair of a left and a
   * right row with equal names, joined; duplicates of a name give all pairs
   * (JoinCounts counts them).
   */
  function Join(l: seq<Record>, r: seq<Record>): (j: seq<Record>)
    ensures forall x :: x in j <==> exists a, b :: a in l && b in r && a.name == b.name && x == Joined(a, b)
    decreases |l|
  {
    if l == [] then []
    else
      var rest := Join(l[1..], r);
      assert forall a :: a in l <==> a == l[0] || a in l[1..];
      Matches(l[0], r) + rest
  }

  /** The positions in `rs` of the rows that join with `a` into `x`. */
  ghost function MatchPositions(a: Record, rs: seq<Record>, x: Record): set<nat>
  {
    set k: nat | k < |rs| && rs[k].name == a.name && Joined(a, rs[k]) == x
  }

  /** The pairs of positions, left then right, of the equally named rows that join into `x`. */
  ghost function PairPositions(l: seq<Record>, r: seq<Record>, x: Record): set<(nat, nat)>
  {
    set i: nat, k: nat | i < |l| && k < |r| && l[i].name == r[k].name && Joined(l[i], r[k]) == x :: (i, k)
  }

  /** Positions moved one place right. */
  ghost function Shift(s: set<nat>): set<nat>
  {
    set k | k in s :: k + 1
  }

  /** Right positions paired with left position 0. */
  ghost function AtFirst(s: set<nat>): set<(nat, nat)>
  {
    set k | k in s :: (0, k)
  }

  /** Pairs of positions moved one place down the left side. */
  ghost function ShiftLeft(s: set<(nat, nat)>): set<(nat, nat)>
  {
    set q | q in s :: (q.0 + 1, q.1)
  }

  lemma {:induction false} ShiftSize(s: set<nat>)
    ensures |Shift(s)| == |s| && 0 !in Shift(s)
    decreases |s|
  {
    if s != {} {
      var y :| y in s;
      ShiftSize(s - {y});
      forall z | z in Shift(s)
        ensures z in Shift(s - {y}) + {y + 1}
      {
        var k :| k in s && z == k + 1;
        if k != y {
          assert k in s - {y};
        }
      }
      assert Shift(s) == Shift(s - {y}) + {y + 1};
    }
  }

  lemma {:induction false} AtFirstSize(s: set<nat>)
    ensures |AtFirst(s)| == |s|
    decreases |s|
  {
    if s != {} {
      var y :| y in s;
      AtFirstSize(s - {y});
      assert AtFirst(s) == AtFirst(s - {y}) + {(0, y)};
    }
  }

  lemma {:induction false} ShiftLeftSize(s: set<(nat, nat)>)
    ensures |ShiftLeft(s)| == |s|
    decreases |s|
  {
    if s != {} {
      var y :| y in s;
      ShiftLeftSize(s - {y});
      assert ShiftLeft(s) == ShiftLeft(s - {y}) + {(y.0 + 1, y.1)};
    }
  }

  /** The matching positions of a non-empty sequence: its head, if it matches, and the tail's positions moved right. */
  lemma MatchPositionsStep(a: Record, rs: seq<Record>, x: Record)
    requires rs != []
    ensures MatchPositions(a, rs, x) ==
      (if rs[0].name == a.name && Joined(a, rs[0]) == x then {0} else {}) + Shift(MatchPositions(a, rs[1..], x))
  {
    forall k: nat | k > 0
      ensures k in MatchPositions(a, rs, x) <==> k in Shift(MatchPositions(a, rs[1..], x))
    {
      if k < |rs| {
        assert rs[1..][k - 1] == rs[k];
      }
      assert k in Shift(MatchPositions(a, rs[1..], x)) <==> k - 1 in MatchPositions(a, rs[1..], x);
    }
  }

  /** Joining `a` with a non-empty sequence: one copy from its head if it matches, then the tail's copies. */
  lemma MatchesStep(a: Record, rs: seq<Record>, x: Record)
    requires rs != []
    ensures multiset(Matches(a, rs))[x] ==
      (if rs[0].name == a.name && Joined(a, rs[0]) == x then 1 else 0) + multiset(Matches(a, rs[1..]))[x]
  {
    if rs[0].name == a.name {
      assert multiset(Matches(a, rs)) == multiset{Joined(a, rs[0])} + multiset(Matches(a, rs[1..]));
    }
  }

  /** Joining one left row yields each joined row once per right row of its name that produces it. */
  lemma {:induction false} MatchesCounts(a: Record, rs: seq<Record>)
    ensures forall x :: multiset(Matches(a, rs))[x] == |MatchPositions(a, rs, x)|
    decreases |rs|
  {
    if rs == [] {
      forall x
        ensures multiset(Matches(a, rs))[x] == |MatchPositions(a, rs, x)|
      {
        assert MatchPositions(a, rs, x) == {};
      }
    } else {
      MatchesCounts(a, rs[1..]);
      forall x
        ensures multiset(Matches(a, rs))[x] == |MatchPositions(a, rs, x)|
      {
        MatchPositionsStep(a, rs, x);
        MatchesStep(a, rs, x);
        ShiftSize(MatchPositions(a, rs[1..], x));
      }
    }
  }

  /** The pairs for a non-empty left side: those of its head row, then the tail's pairs moved down one place. */
  lemma PairPositionsStep(l: seq<Record>, r: seq<Record>, x: Record)
    requires l != []
    ensures PairPositions(l, r, x) == AtFirst(MatchPositions(l[0], r, x)) + ShiftLeft(PairPositions(l[1..], r, x))
  {
    forall q: (nat, nat)
      ensures q in PairPositions(l, r, x) <==> q in AtFirst(MatchPositions(l[0], r, x)) + ShiftLeft(PairPositions(l[1..], r, x))
    {
      if q.0 == 0 {
        assert q in AtFirst(MatchPositions(l[0], r, x)) <==> q.1 in MatchPositions(l[0], r, x);
      } else {
        if q.0 < |l| {
          assert l[1..][q.0 - 1] == l[q.0];
        }
        assert q in ShiftLeft(PairPositions(l[1..], r, x)) <==> (q.0 - 1, q.1) in PairPositions(l[1..], r, x);
      }
    }
  }

  /**
   * The inner join yields each row once per pair of equally named left and
   * right rows that produce it: every copy is kept.
   */
  lemma {:induction false} JoinCounts(l: seq<Record>, r: seq<Record>)
    ensures forall x :: multiset(Join(l, r))[x] == |PairPositions(l, r, x)|
    decreases |l|
  {
    if l == [] {
      forall x
        ensures multiset(Join(l, r))[x] == |PairPositions(l, r, x)|
      {
        assert PairPositions(l, r, x) == {};
      }
    } else {
      JoinCounts(l[1..], r);
      MatchesCounts(l[0], r);
      forall x
        ensures multiset(Join(l, r))[x] == |PairPositions(l, r, x)|
      {
        var first := AtFirst(MatchPositions(l[0], r, x));
        var rest := ShiftLeft(PairPositions(l[1..], r, x));
        PairPositionsStep(l, r, x);
        AtFirstSize(MatchPositions(l[0], r, x));
        ShiftLeftSize(PairPositions(l[1..], r, x));
        assert first * rest == {} by {
          forall q | q in rest
            ensures q !in first
          {
            assert q.0 > 0;
          }
        }
      }
    }
  }

  /** An inner join with an empty side is empty. */
  lemma {:induction false} JoinWithEmpty(l: seq<Record>)
    ensures Join(l, []) == [] && Join([], l) == []
    decreases |l|
  {
    if l != [] {
      JoinWithEmpty(l[1..]);
    }
  }

  /** Every joined row carries a name that both sides have. */
  lemma JoinedNamesOccurInBoth(l: seq<Record>, r: seq<Record>)
    ensures forall x :: x in Join(l, r) ==> x.name in Names(l) && x.name in Names(r)
  {
    forall x | x in Join(l, r)
      ensures x.name in Names(l) && x.name in Names(r)
    {
      var a, b :| a in l && b in r && a.name == b.name && x == Joined(a, b);
    }
  }

  /** Joining rows without NaN gives a row without NaN. */
  lemma JoinedIsComplete(a: Record, b: Record)
    requires Complete(a) && Complete(b)
    ensures Complete(Joined(a, b))
  {
    forall i | 0 <= i < |a.values| + |b.values|
      ensures Joined(a, b).values[i].Some?
    {
      if i >= |a.values| {
        assert Joined(a, b).values[i] == b.values[i - |a.values|];
      }
    }
  }

  /** The sort key of a row: its value in column k (NaN where it has none). */
  function KeyOf(r: Record, k: nat): Option<int>
  {
    if k < |r.values| then r.values[k] else None
  }

  /** Key `a` may precede key `b` in a descending sort that puts NaN last. */
  predicate RanksBefore(a: Option<int>, b: Option<int>)
  {
    b.None? || (a.Some? && a.value >= b.value)
  }

  /** Non-increasing in column k, NaN last. */
  predicate SortedDesc(rs: seq<Record>, k: nat)
  {
    forall i, j :: 0 <= i < j < |rs| ==> RanksBefore(KeyOf(rs[i], k), KeyOf(rs[j], k))
  }

  /** Keys are totally ordered by RanksBefore. */
  lemma RanksBeforeTotal(a: Option<int>, b: Option<int>)
    ensures RanksBefore(a, b) || RanksBefore(b, a)
  {
  }

  /** Places `x` into a sequence already sorted on column k. */
  function Insert(x: Record, rs: seq<Record>, k: nat): (r: seq<Record>)
    requires SortedDesc(rs, k)
    ensures SortedDesc(r, k)
    ensures multiset(r) == multiset(rs) + multiset{x}
    decreases |rs|
  {
    if rs == [] then [x]
    else if RanksBefore(KeyOf(x, k), KeyOf(rs[0], k)) then
      assert rs == [rs[0]] + rs[1..];
      [x] + rs
    else
      var rest := Insert(x, rs[1..], k);
      assert rs == [rs[0]] + rs[1..];
      RanksBeforeTotal(KeyOf(x, k), KeyOf(rs[0], k));
      forall j | 0 <= j < |rest|
        ensures RanksBefore(KeyOf(rs[0], k), KeyOf(rest[j], k))
      {
        assert rest[j] in multiset(rest);
        if rest[j] != x {
          assert rest[j] in multiset(rs[1..]);
          var m :| 0 <= m < |rs[1..]| && rs[1..][m] == rest[j];
          assert rs[m + 1] == rest[j];
        }
      }
      [rs[0]] + rest
  }

  /**
   * `sort_values(by=column, ascending=False)`: a permutation of the rows,
   * non-increasing in column k with NaN last. Ties are in no promised order.
   */
  function SortDescending(rs: seq<Record>, k: nat): (r: seq<Record>)
    ensures SortedDesc(r, k)
    ensures multiset(r) == multiset(rs)
    decreases |rs|
  {
    if rs == [] then []
    else
      assert rs == [rs[0]] + rs[1..];
      Insert(rs[0], SortDescending(rs[1..], k), k)
  }

  /** The rows left after both joins and `dropna` have no NaN and a name present in all three inputs. */
  lemma MergedRowsAreCommon(c3: seq<Record>, c6: seq<Record>, c12: seq<Record>)
    ensures forall x :: x in DropMissing(Join(Join(c3, c6), c12)) ==>
      Complete(x) && x.name in Names(c3) && x.name in Names(c6) && x.name in Names(c12)
  {
    JoinedNamesOccurInBoth(c3, c6);
    JoinedNamesOccurInBoth(Join(c3, c6), c12);
  }

  /**
   * Both inner joins, `dropna`, and the sort (skipped when nothing is left):
   * the result is ordered by column `key`, holds no NaN, names only what all
   * three inputs name, and is a permutation of the joined rows without NaN.
   */
  function MergeAndSort(c3: seq<Record>, c6: seq<Record>, c12: seq<Record>, key: nat): (r: seq<Record>)
    ensures SortedDesc(r, key)
    ensures multiset(r) == multiset(DropMissing(Join(Join(c3, c6), c12)))
    ensures forall x :: x in r ==> Complete(x) && x.name in Names(c3) && x.name in Names(c6) && x.name in Names(c12)
  {
    var merged := DropMissing(Join(Join(c3, c6), c12));
    MergedRowsAreCommon(c3, c6, c12);
    var r := if |merged| == 0 then merged else SortDescending(merged, key);
    assert forall x :: x in r ==> x in multiset(merged);
    r
  }

  /**
   * With complete inputs, a row is in the result exactly when it joins a row
   * of each horizon, all three with the same name.
   */
  lemma MergedRowsAreMatchingTriples(c3: seq<Record>, c6: seq<Record>, c12: seq<Record>, key: nat)
    requires forall x :: x in c3 ==> Complete(x)
    requires forall x :: x in c6 ==> Complete(x)
    requires forall x :: x in c12 ==> Complete(x)
    ensures forall x :: x in MergeAndSort(c3, c6, c12, key) <==>
      exists a, b, c :: a in c3 && b in c6 && c in c12 && a.name == b.name == c.name && x == Joined(Joined(a, b), c)
  {
    var r := MergeAndSort(c3, c6, c12, key);
    forall x | x in r
      ensures exists a, b, c :: a in c3 && b in c6 && c in c12 && a.name == b.name == c.name && x == Joined(Joined(a, b), c)
    {
      assert x in multiset(DropMissing(Join(Join(c3, c6), c12)));
      var ab, c :| ab in Join(c3, c6) && c in c12 && ab.name == c.name && x == Joined(ab, c);
      var a, b :| a in c3 && b in c6 && a.name == b.name && ab == Joined(a, b);
    }
    forall a, b, c | a in c3 && b in c6 && c in c12 && a.name == b.name == c.name
      ensures Joined(Joined(a, b), c) in r
    {
      JoinedIsComplete(a, b);
      JoinedIsComplete(Joined(a, b), c);
      assert Joined(a, b) in Join(c3, c6);
      var x := Joined(Joined(a, b), c);
      assert x in DropMissing(Join(Join(c3, c6), c12));
      assert x in multiset(r);
    }
  }

  /** With complete inputs, the merged result names exactly the names common to all three horizons. */
  lemma MergedNamesAreCommon(c3: seq<Record>, c6: seq<Record>, c12: seq<Record>, key: nat)
    requires forall x :: x in c3 ==> Complete(x)
    requires forall x :: x in c6 ==> Complete(x)
    requires forall x :: x in c12 ==> Complete(x)
    ensures Names(MergeAndSort(c3, c6, c12, key)) == Names(c3) * Names(c6) * Names(c12)
  {
    var r := MergeAndSort(c3, c6, c12, key);
    MergedRowsAreMatchingTriples(c3, c6, c12, key);
    forall n | n in Names(c3) * Names(c6) * Names(c12)
      ensures n in Names(r)
    {
      var a :| a in c3 && a.name == n;
      var b :| b in c6 && b.name == n;
      var c :| c in c12 && c.name == n;
      assert Joined(Joined(a, b), c) in r;
    }
  }

  /** Joining rows without NaN gives rows without NaN. */
  lemma JoinOfCompleteIsComplete(l: seq<Record>, r: seq<Record>)
    requires forall x :: x in l ==> Complete(x)
    requires forall x :: x in r ==> Complete(x)
    ensures forall x :: x in Join(l, r) ==> Complete(x)
  {
    forall x | x in Join(l, r)
      ensures Complete(x)
    {
      var a, b :| a in l && b in r && a.name == b.name && x == Joined(a, b);
      JoinedIsComplete(a, b);
    }
  }

  /** With complete inputs the final `dropna` removes nothing: the result is a permutation of the joined rows. */
  lemma MergeDropsNothing(c3: seq<Record>, c6: seq<Record>, c12: seq<Record>, key: nat)
    requires forall x :: x in c3 ==> Complete(x)
    requires forall x :: x in c6 ==> Complete(x)
    requires forall x :: x in c12 ==> Complete(x)
    ensures multiset(MergeAndSort(c3, c6, c12, key)) == multiset(Join(Join(c3, c6), c12))
  {
    JoinOfCompleteIsComplete(c3, c6);
    JoinOfCompleteIsComplete(Join(c3, c6), c12);
    var joined := Join(Join(c3, c6), c12);
    assert forall i :: 0 <= i < |joined| ==> joined[i] in joined;
    Sequences.FilterKeepsAll(joined, Complete);
  }

  /** If any horizon is empty, so is the merged result. */
  lemma MergeWithEmptyHorizon(c3: seq<Record>, c6: seq<Record>, c12: seq<Record>, key: nat)
    requires c3 == [] || c6 == [] || c12 == []
    ensures MergeAndSort(c3, c6, c12, key) == []
  {
    JoinWithEmpty(c3);
    JoinWithEmpty(c6);
    JoinWithEmpty(Join(c3, c6));
  }
}
