/** Runs of spots that the administrator creates and removes: the numbered
    spots a lot is created or grown with, and the first free spots a shrink
    takes away. */
module SpotRuns {
  import opened Wrappers
  import opened Records
  import Text

  /** `count` new spots of lot `lotId`, with ids from `firstId` and label
      indexes from `first`; a spot whose label index exceeds `freeUpTo` starts
      out occupied (the seeded lots have their tail marked taken). */
  function NewSpots(firstId: SpotId, lotId: LotId, first: nat, count: nat, freeUpTo: int): (r: seq<Spot>)
    ensures |r| == count
    ensures forall k :: 0 <= k < count ==>
              r[k] == Spot(firstId + k, Text.Label(first + k), first + k > freeUpTo, lotId)
  {
    if count == 0 then []
    else NewSpots(firstId, lotId, first, count - 1, freeUpTo)
         + [Spot(firstId + count - 1, Text.Label(first + count - 1), first + count - 1 > freeUpTo, lotId)]
  }

  /** A run one spot longer ends with the next spot. */
  lemma NewSpotsStep(firstId: SpotId, lotId: LotId, first: nat, count: nat, freeUpTo: int)
    ensures NewSpots(firstId, lotId, first, count + 1, freeUpTo)
            == NewSpots(firstId, lotId, first, count, freeUpTo)
               + [Spot(firstId + count, Text.Label(first + count), first + count > freeUpTo, lotId)]
  {
  }

  /** `f` cut into the range 0..count. */
  function Clamp(f: int, count: nat): nat {
    if f < 0 then 0 else if f > count then count else f
  }

  /** A run of new spots adds `count` spots to its own lot, of which those with
      a label index up to `freeUpTo` are free, and nothing to any other lot. */
  lemma {:induction false} NewSpotsCounts(firstId: SpotId, lotId: LotId, first: nat, count: nat, freeUpTo: int, l: LotId)
    ensures SpotCount(NewSpots(firstId, lotId, first, count, freeUpTo), l) == if l == lotId then count else 0
    ensures FreeCount(NewSpots(firstId, lotId, first, count, freeUpTo), l)
            == if l == lotId then Clamp(freeUpTo - first + 1, count) else 0
    decreases count
  {
    if count > 0 {
      var init := NewSpots(firstId, lotId, first, count - 1, freeUpTo);
      var last := Spot(firstId + count - 1, Text.Label(first + count - 1), first + count - 1 > freeUpTo, lotId);
      assert NewSpots(firstId, lotId, first, count, freeUpTo) == init + [last];
      NewSpotsCounts(firstId, lotId, first, count - 1, freeUpTo, l);
      CountsAppend(init, [last], l);
    }
  }

  /** The labels of a run of new spots differ pairwise. */
  lemma NewSpotsLabelsDistinct(firstId: SpotId, lotId: LotId, first: nat, count: nat, freeUpTo: int, i: nat, j: nat)
    requires i < count && j < count
    ensures var r := NewSpots(firstId, lotId, first, count, freeUpTo);
            r[i].number == r[j].number <==> i == j
  {
    Text.LabelInjective(first + i, first + j);
  }

  /** The highest label index among the spots of lot `l`, or 0 when none of
      them carries a label of the generated form. */
  function MaxLabelIndex(s: seq<Spot>, l: LotId): nat {
    if s == [] then 0
    else
      var rest := MaxLabelIndex(s[1..], l);
      var here := if s[0].lotId == l then Text.LabelIndex(s[0].number) else None;
      match here
      case Some(i) => if i > rest then i else rest
      case None => rest
  }

  /** `MaxLabelIndex` bounds every label index in use in lot `l`, and is one
      of them unless it is 0. */
  lemma {:induction false} MaxLabelIndexIsMax(s: seq<Spot>, l: LotId)
    ensures var m := MaxLabelIndex(s, l);
            && (forall k :: 0 <= k < |s| && s[k].lotId == l && Text.LabelIndex(s[k].number).Some?
                  ==> Text.LabelIndex(s[k].number).value <= m)
            && (m == 0 || exists k :: 0 <= k < |s| && s[k].lotId == l && Text.LabelIndex(s[k].number) == Some(m))
    decreases |s|
  {
    if s != [] {
      var rest := MaxLabelIndex(s[1..], l);
      MaxLabelIndexIsMax(s[1..], l);
      forall k | 1 <= k < |s| ensures s[k] == s[1..][k - 1] { }
      if rest != 0 {
        var k :| 0 <= k < |s[1..]| && s[1..][k].lotId == l && Text.LabelIndex(s[1..][k].number) == Some(rest);
        assert s[k + 1] == s[1..][k];
      }
    }
  }

  /** A spot whose label index lies above every index in lot `l` carries a
      label no spot of that lot carries. */
  lemma LabelAboveMaxIsFresh(s: seq<Spot>, l: LotId, i: nat, k: nat)
    requires MaxLabelIndex(s, l) < i && k < |s| && s[k].lotId == l
    ensures s[k].number != Text.Label(i)
  {
    MaxLabelIndexIsMax(s, l);
    Text.LabelRoundTrip(i);
  }

  // ---------------------------------------------------------------------
  // Removing the first free spots of a lot

  /** The spots left once the first `n` unoccupied spots of lot `l` are taken out. */
  function DropFree(s: seq<Spot>, l: LotId, n: nat): (r: seq<Spot>)
    ensures forall k :: 0 <= k < |r| ==> r[k] in s
    ensures forall k :: 0 <= k < |s| && (s[k].occupied || s[k].lotId != l) ==> s[k] in r
  {
    if s == [] then []
    else if s[0].lotId == l && !s[0].occupied && n > 0 then DropFree(s[1..], l, n - 1)
    else [s[0]] + DropFree(s[1..], l, n)
  }

  /** Taking out `n` free spots of lot `l`, when it has that many, lowers that
      lot's spot count and free count by `n` and leaves every other lot's counts alone. */
  lemma DropFreeCounts(s: seq<Spot>, l: LotId, n: nat, l': LotId)
    requires n <= FreeCount(s, l)
    ensures SpotCount(DropFree(s, l, n), l') == SpotCount(s, l') - (if l' == l then n else 0)
    ensures FreeCount(DropFree(s, l, n), l') == FreeCount(s, l') - (if l' == l then n else 0)
  {
    if l' == l {
      DropFreeOwnCounts(s, l, n);
    } else {
      DropFreeOtherCounts(s, l, n, l');
    }
  }

  lemma {:induction false} DropFreeOwnCounts(s: seq<Spot>, l: LotId, n: nat)
    requires n <= FreeCount(s, l)
    ensures SpotCount(DropFree(s, l, n), l) == SpotCount(s, l) - n
    ensures FreeCount(DropFree(s, l, n), l) == FreeCount(s, l) - n
    decreases |s|
  {
    if s != [] {
      HeadCounts(s, l);
      if s[0].lotId == l && !s[0].occupied && n > 0 {
        DropFreeOwnCounts(s[1..], l, n - 1);
      } else {
        var d := DropFree(s[1..], l, n);
        DropFreeOwnCounts(s[1..], l, n);
        HeadCounts([s[0]] + d, l);
        assert ([s[0]] + d)[1..] == d;
      }
    }
  }

  lemma {:induction false} DropFreeOtherCounts(s: seq<Spot>, l: LotId, n: nat, l': LotId)
    requires l' != l
    ensures SpotCount(DropFree(s, l, n), l') == SpotCount(s, l')
    ensures FreeCount(DropFree(s, l, n), l') == FreeCount(s, l')
    decreases |s|
  {
    if s != [] {
      HeadCounts(s, l');
      if s[0].lotId == l && !s[0].occupied && n > 0 {
        DropFreeOtherCounts(s[1..], l, n - 1, l');
      } else {
        var d := DropFree(s[1..], l, n);
        DropFreeOtherCounts(s[1..], l, n, l');
        HeadCounts([s[0]] + d, l');
        assert ([s[0]] + d)[1..] == d;
      }
    }
  }

  /** The counts of a non-empty run: its first spot's share plus the rest's. */
  lemma HeadCounts(s: seq<Spot>, l: LotId)
    requires s != []
    ensures SpotCount(s, l) == (if s[0].lotId == l then 1 else 0) + SpotCount(s[1..], l)
    ensures FreeCount(s, l) == (if s[0].lotId == l && !s[0].occupied then 1 else 0) + FreeCount(s[1..], l)
  {
    var head := if s[0].lotId == l then [s[0]] else [];
    UnoccupiedAppend(head, LotSpots(s[1..], l));
  }

  /** The free spots of lot `l` are spots of `s`. */
  lemma {:induction false} FreeSpotsAreSpots(s: seq<Spot>, l: LotId)
    ensures forall y :: y in Unoccupied(LotSpots(s, l)) ==> y in s && y.lotId == l && !y.occupied
    decreases |s|
  {
    if s != [] {
      FreeSpotsAreSpots(s[1..], l);
      FreeSplit(s, l);
    }
  }

  /** The free spots of lot `l` in `s` are the first spot, when it is one, followed by those of the rest. */
  lemma FreeSplit(s: seq<Spot>, l: LotId)
    requires s != []
    ensures Unoccupied(LotSpots(s, l))
            == (if s[0].lotId == l && !s[0].occupied then [s[0]] else []) + Unoccupied(LotSpots(s[1..], l))
  {
    var head := if s[0].lotId == l then [s[0]] else [];
    assert LotSpots(s, l) == head + LotSpots(s[1..], l);
    UnoccupiedAppend(head, LotSpots(s[1..], l));
  }

  lemma IdsCons(x: Spot, v: seq<Spot>)
    ensures Ids([x] + v) == {x.id} + Ids(v)
  {
    var w := [x] + v;
    assert w[0] == x;
    forall id | id in Ids(v) ensures id in Ids(w) {
      var k :| 0 <= k < |v| && v[k].id == id;
      assert w[k + 1] == v[k];
    }
    forall id | id in Ids(w) ensures id in {x.id} + Ids(v) {
      var k :| 0 <= k < |w| && w[k].id == id;
      if k > 0 {
        assert w[k] == v[k - 1];
      }
    }
  }

  /** Asking to remove an id no spot carries changes nothing. */
  lemma {:induction false} WithoutAbsentId(t: seq<Spot>, gone: set<SpotId>, id: SpotId)
    requires forall k :: 0 <= k < |t| ==> t[k].id != id
    ensures WithoutIds(t, {id} + gone) == WithoutIds(t, gone)
    decreases |t|
  {
    if t != [] {
      WithoutAbsentId(t[1..], gone, id);
    }
  }

  /** No free spot after the first spot of an id-ordered run carries its id. */
  lemma FirstIdNotAmongLaterFree(s: seq<Spot>, l: LotId, n: nat)
    requires IdsIncreasing(s) && s != [] && n <= |Unoccupied(LotSpots(s[1..], l))|
    ensures s[0].id !in Ids(Unoccupied(LotSpots(s[1..], l))[..n])
  {
    var f := Unoccupied(LotSpots(s[1..], l))[..n];
    FreeSpotsAreSpots(s[1..], l);
    forall k | 0 <= k < |f| ensures f[k].id != s[0].id {
      assert f[k] in s[1..];
    }
  }

  /** Removing the spots whose ids are those of the first `n` free spots of lot
      `l` is taking out those `n` spots. */
  lemma {:induction false} RemoveFirstFree(s: seq<Spot>, l: LotId, n: nat)
    requires IdsIncreasing(s) && n <= FreeCount(s, l)
    ensures WithoutIds(s, Ids(Unoccupied(LotSpots(s, l))[..n])) == DropFree(s, l, n)
    decreases |s|
  {
    if s != [] {
      FreeSplit(s, l);
      assert IdsIncreasing(s[1..]);
      if s[0].lotId == l && !s[0].occupied && n > 0 {
        RemoveFirstFree(s[1..], l, n - 1);
        RemoveLeadingFree(s, l, n);
      } else {
        RemoveFirstFree(s[1..], l, n);
        KeepLeading(s, l, n);
      }
    }
  }

  /** The step of `RemoveFirstFree` where the first spot is among those removed. */
  lemma RemoveLeadingFree(s: seq<Spot>, l: LotId, n: nat)
    requires IdsIncreasing(s) && s != [] && s[0].lotId == l && !s[0].occupied && 0 < n
    requires n - 1 <= |Unoccupied(LotSpots(s[1..], l))|
    requires Unoccupied(LotSpots(s, l)) == [s[0]] + Unoccupied(LotSpots(s[1..], l))
    ensures WithoutIds(s, Ids(Unoccupied(LotSpots(s, l))[..n]))
            == WithoutIds(s[1..], Ids(Unoccupied(LotSpots(s[1..], l))[..n - 1]))
  {
    var x, t := s[0], s[1..];
    var g := Unoccupied(LotSpots(t, l))[..n - 1];
    assert Unoccupied(LotSpots(s, l))[..n] == [x] + g;
    IdsCons(x, g);
    WithoutAbsentId(t, Ids(g), x.id);
  }

  /** The step of `RemoveFirstFree` where the first spot stays. */
  lemma KeepLeading(s: seq<Spot>, l: LotId, n: nat)
    requires IdsIncreasing(s) && s != [] && (s[0].lotId != l || s[0].occupied || n == 0)
    requires n <= |Unoccupied(LotSpots(s[1..], l))|
    requires Unoccupied(LotSpots(s, l))
             == (if s[0].lotId == l && !s[0].occupied then [s[0]] else []) + Unoccupied(LotSpots(s[1..], l))
    ensures WithoutIds(s, Ids(Unoccupied(LotSpots(s, l))[..n]))
            == [s[0]] + WithoutIds(s[1..], Ids(Unoccupied(LotSpots(s[1..], l))[..n]))
  {
    var f := Unoccupied(LotSpots(s[1..], l));
    assert Unoccupied(LotSpots(s, l))[..n] == f[..n];
    FirstIdNotAmongLaterFree(s, l, n);
  }
}
