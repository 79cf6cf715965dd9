// Committing a nested transaction (mdb_txn_commit in liblmdb/src/mdb.c): the
// child's dirty list is merged into its parent's, in place and from the end.

module NestedCommit {
  import opened Idls

  // --- The union of two dirty lists -------------------------------------

  // Built from the ends: where both have a page, the child's copy wins.
  function MergeUp<P>(d: seq<Id2<P>>, s: seq<Id2<P>>): (r: seq<Id2<P>>)
    decreases |d| + |s|
  {
    if s == [] then d
    else
      var last := s[|s| - 1];
      if d != [] && last.mid < d[|d| - 1].mid then MergeUp(d[..|d| - 1], s) + [d[|d| - 1]]
      else if d != [] && last.mid == d[|d| - 1].mid then MergeUp(d[..|d| - 1], s[..|s| - 1]) + [last]
      else MergeUp(d, s[..|s| - 1]) + [last]
  }

  lemma AscendingInit<P>(s: seq<Id2<P>>)
    requires Ascending(s) && s != []
    ensures Ascending(s[..|s| - 1])
    ensures Below(s[..|s| - 1], s[|s| - 1].mid)
    ensures s == s[..|s| - 1] + [s[|s| - 1]]
  {
  }

  ghost predicate Below<P>(s: seq<Id2<P>>, id: nat) {
    forall k :: 0 <= k < |s| ==> s[k].mid < id
  }

  lemma BelowAppend<P>(s: seq<Id2<P>>, e: Id2<P>)
    requires Ascending(s) && Below(s, e.mid)
    ensures Ascending(s + [e])
  {
  }

  // The merge is in order and free of duplicates.
  lemma {:induction false} MergeAscends<P>(d: seq<Id2<P>>, s: seq<Id2<P>>, id: nat)
    requires Ascending(d) && Ascending(s) && Below(d, id) && Below(s, id)
    ensures Ascending(MergeUp(d, s)) && Below(MergeUp(d, s), id)
    decreases |d| + |s|
  {
    if s != [] {
      AscendingInit(s);
      var last := s[|s| - 1];
      if d != [] { AscendingInit(d); }
      if d != [] && last.mid < d[|d| - 1].mid {
        MergeAscends(d[..|d| - 1], s, d[|d| - 1].mid);
        BelowAppend(MergeUp(d[..|d| - 1], s), d[|d| - 1]);
      } else if d != [] && last.mid == d[|d| - 1].mid {
        MergeAscends(d[..|d| - 1], s[..|s| - 1], last.mid);
        BelowAppend(MergeUp(d[..|d| - 1], s[..|s| - 1]), last);
      } else {
        MergeAscends(d, s[..|s| - 1], last.mid);
        BelowAppend(MergeUp(d, s[..|s| - 1]), last);
      }
    }
  }

  // It lists the child's pages and those of the parent the child does not have.
  lemma {:induction false} UnionOfBoth<P>(d: seq<Id2<P>>, s: seq<Id2<P>>, e: Id2<P>)
    requires Ascending(d) && Ascending(s)
    ensures e in MergeUp(d, s) <==> e in s || (e in d && !HasId(s, e.mid))
    decreases |d| + |s|
  {
    if s != [] {
      AscendingInit(s);
      var last, s' := s[|s| - 1], s[..|s| - 1];
      HasIdAppend(s', last, e.mid);
      if d == [] {
        UnionOfBoth(d, s', e);
      } else {
        AscendingInit(d);
        var top, d' := d[|d| - 1], d[..|d| - 1];
        if last.mid < top.mid {
          UnionOfBoth(d', s, e);
          assert !HasId(s, top.mid);
        } else if last.mid == top.mid {
          UnionOfBoth(d', s', e);
          assert HasId(s, top.mid);
        } else {
          UnionOfBoth(d, s', e);
        }
      }
    }
  }

  lemma HasIdAppend<P>(s: seq<Id2<P>>, e: Id2<P>, id: nat)
    ensures HasId(s + [e], id) <==> HasId(s, id) || e.mid == id
  {
    assert (s + [e])[|s|] == e;
    if HasId(s, id) {
      var x :| 0 <= x < |s| && s[x].mid == id;
      assert (s + [e])[x].mid == id;
    }
  }

  // The merge is no shorter than either list.
  lemma {:induction false} MergeLonger<P>(d: seq<Id2<P>>, s: seq<Id2<P>>)
    ensures |d| <= |MergeUp(d, s)| <= |d| + |s|
    ensures s != [] && (d == [] || s[|s| - 1].mid > d[|d| - 1].mid) ==> |MergeUp(d, s)| > |d|
    decreases |d| + |s|
  {
    if s != [] {
      if d != [] && s[|s| - 1].mid < d[|d| - 1].mid {
        MergeLonger(d[..|d| - 1], s);
      } else if d != [] && s[|s| - 1].mid == d[|d| - 1].mid {
        MergeLonger(d[..|d| - 1], s[..|s| - 1]);
      } else {
        MergeLonger(d, s[..|s| - 1]);
      }
    }
  }

  ghost function Ids<P>(s: seq<Id2<P>>): set<nat> {
    set e <- s :: e.mid
  }

  lemma IdsOf<P>(s: seq<Id2<P>>, id: nat)
    ensures id in Ids(s) <==> HasId(s, id)
  {
    if HasId(s, id) {
      var x :| 0 <= x < |s| && s[x].mid == id;
      assert s[x] in s;
    }
  }

  lemma {:induction false} IdsCount<P>(s: seq<Id2<P>>)
    requires Ascending(s)
    ensures |Ids(s)| == |s|
  {
    if s != [] {
      AscendingInit(s);
      var s', id := s[..|s| - 1], s[|s| - 1].mid;
      IdsCount(s');
      IdsOf(s', id);
      assert Ids(s) == Ids(s') + {id};
    }
  }

  // Its length is the number of pages in either list.
  lemma MergeCount<P>(d: seq<Id2<P>>, s: seq<Id2<P>>)
    requires Ascending(d) && Ascending(s)
    ensures Ids(MergeUp(d, s)) == Ids(d) + Ids(s) && |MergeUp(d, s)| == |Ids(d) + Ids(s)|
  {
    var r := MergeUp(d, s);
    var top := Top(d, s);
    MergeAscends(d, s, top);
    IdsCount(r);
    forall id: nat ensures id in Ids(r) <==> id in Ids(d) || id in Ids(s) {
      if id in Ids(r) {
        var e :| e in r && e.mid == id;
        UnionOfBoth(d, s, e);
      } else if id in Ids(s) {
        var e :| e in s && e.mid == id;
        UnionOfBoth(d, s, e);
      } else if id in Ids(d) {
        var e :| e in d && e.mid == id;
        IdsOf(s, id);
        UnionOfBoth(d, s, e);
      }
    }
  }

  function Top<P>(d: seq<Id2<P>>, s: seq<Id2<P>>): (t: nat)
    requires Ascending(d) && Ascending(s)
    ensures Below(d, t) && Below(s, t)
  {
    var a := if d == [] then 0 else d[|d| - 1].mid + 1;
    var b := if s == [] then 0 else s[|s| - 1].mid + 1;
    if a > b then a else b
  }

  // --- The length, computed in advance ----------------------------------

  ghost predicate NonZero<P>(s: seq<Id2<P>>) {
    forall k :: 0 <= k < |s| ==> s[k].mid > 0
  }

  // Elements of s above all of d only add to the length.
  lemma {:induction false} MergeAbove<P>(d: seq<Id2<P>>, s: seq<Id2<P>>, y: nat)
    requires y <= |s| && forall k :: y <= k < |s| ==> d == [] || s[k].mid > d[|d| - 1].mid
    ensures |MergeUp(d, s)| == |MergeUp(d, s[..y])| + |s| - y
    decreases |s|
  {
    if y < |s| {
      assert s[..|s| - 1][..y] == s[..y];
      MergeAbove(d, s[..|s| - 1], y);
    } else {
      assert s[..y] == s;
    }
  }

  // Elements of d above all of s only add to the length.
  lemma {:induction false} MergeUnder<P>(d: seq<Id2<P>>, s: seq<Id2<P>>, i: nat)
    requires i <= |d| && forall k :: i <= k < |d| ==> s == [] || s[|s| - 1].mid < d[k].mid
    ensures |MergeUp(d, s)| == |MergeUp(d[..i], s)| + |d| - i
    decreases |d|
  {
    if s != [] && i < |d| {
      assert d[..|d| - 1][..i] == d[..i];
      MergeUnder(d[..|d| - 1], s, i);
    } else {
      assert i == |d| ==> d[..i] == d;
    }
  }

  // The first i of d and y of s remain to be compared.
  ghost predicate LengthAt<P>(d: seq<Id2<P>>, s: seq<Id2<P>>, n: int, i: nat, y: nat) {
    i <= |d| && y <= |s| && n - i - y + |MergeUp(d[..i], s[..y])| == |MergeUp(d, s)|
  }

  // The length of the merge, with the child's entries above the parent's last
  // one left out of the scan.
  method MergeLength<P(0)>(dst: Id2l<P>, src: Id2l<P>, x: nat) returns (len: nat)
    requires dst.ids != src.ids && src.Valid() && x < dst.ids.Length && dst.ids[0].mid == 0
    requires Ascending(src.Contents()) && Ascending(dst.ids[1..x + 1])
    requires NonZero(src.Contents()) && NonZero(dst.ids[1..x + 1])
    ensures len == |MergeUp(dst.ids[1..x + 1], src.Contents())|
  {
    var y := src.Search(dst.ids[x].mid + 1);
    len := ScanLength(dst, src, x, y - 1, dst.ids[1..x + 1], src.Contents());
  }

  method ScanLength<P(0)>(dst: Id2l<P>, src: Id2l<P>, x: nat, y0: nat, ghost d: seq<Id2<P>>, ghost s: seq<Id2<P>>)
    returns (len: nat)
    requires |d| == x < dst.ids.Length && dst.ids[0].mid == 0 && src.Valid() && src.ids[0].mid == |s|
    requires forall k :: 1 <= k <= x ==> dst.ids[k] == d[k - 1]
    requires forall k :: 1 <= k <= |s| ==> src.ids[k] == s[k - 1]
    requires Ascending(d) && Ascending(s) && PlaceUp(s, dst.ids[x].mid + 1, y0 + 1) && NonZero(s)
    ensures len == |MergeUp(d, s)|
  {
    var n: int := x + src.ids[0].mid;
    var y, i := y0, x;
    LengthStart(d, s, y, dst.ids[x].mid);
    while y > 0 && i > 0
      invariant 0 <= y && 0 <= i && LengthAt(d, s, n, i, y)
      decreases y
    {
      ghost var i0 := i;
      i := SkipParents(dst, src.ids[y].mid, d, i);
      LengthStep(d, s, n, i0, i, y);
      if src.ids[y].mid == dst.ids[i].mid {
        i, n := i - 1, n - 1;
      }
      y := y - 1;
    }
    LengthEnd(d, s, n, i, y);
    len := n;
  }

  method SkipParents<P(0)>(dst: Id2l<P>, yp: nat, ghost d: seq<Id2<P>>, i0: nat) returns (i: nat)
    requires i0 <= |d| < dst.ids.Length && dst.ids[0].mid == 0
    requires forall k :: 1 <= k <= |d| ==> dst.ids[k] == d[k - 1]
    ensures i <= i0 && (forall k :: i <= k < i0 ==> yp < d[k].mid) && (i > 0 ==> yp >= d[i - 1].mid)
  {
    i := i0;
    while yp < dst.ids[i].mid
      invariant i <= i0 && forall k :: i <= k < i0 ==> yp < d[k].mid
      decreases i
    {
      i := i - 1;
    }
  }

  lemma LengthStart<P>(d: seq<Id2<P>>, s: seq<Id2<P>>, y: nat, last: nat)
    requires Ascending(d) && Ascending(s) && PlaceUp(s, last + 1, y + 1)
    requires if d == [] then last == 0 else last == d[|d| - 1].mid
    ensures LengthAt(d, s, |d| + |s|, |d|, y)
  {
    forall k | y <= k < |s| ensures s[k].mid > last {
      if !HasId(s, last + 1) { assert s[k].mid > last + 1; }
    }
    MergeAbove(d, s, y);
    assert d[..|d|] == d;
  }

  lemma LengthStep<P>(d: seq<Id2<P>>, s: seq<Id2<P>>, n: int, i0: nat, i: nat, y: nat)
    requires LengthAt(d, s, n, i0, y) && i <= i0 && 0 < y
    requires forall k :: i <= k < i0 ==> s[y - 1].mid < d[k].mid
    requires i > 0 ==> s[y - 1].mid >= d[i - 1].mid
    ensures if i > 0 && s[y - 1].mid == d[i - 1].mid then LengthAt(d, s, n - 1, i - 1, y - 1) else LengthAt(d, s, n, i, y - 1)
  {
    MergeUnder(d[..i0], s[..y], i);
    assert d[..i0][..i] == d[..i] && s[..y][..y - 1] == s[..y - 1];
    if i > 0 { assert d[..i][..i - 1] == d[..i - 1]; }
  }

  lemma LengthEnd<P>(d: seq<Id2<P>>, s: seq<Id2<P>>, n: int, i: nat, y: nat)
    requires LengthAt(d, s, n, i, y) && (y == 0 || i == 0)
    ensures n == |MergeUp(d, s)|
  {
    if y == 0 { assert s[..y] == []; } else { MergeNone(d[..i], s[..y]); }
  }

  lemma {:induction false} MergeNone<P>(d: seq<Id2<P>>, s: seq<Id2<P>>)
    requires d == []
    ensures |MergeUp(d, s)| == |s|
    decreases |s|
  {
    if s != [] { MergeNone(d, s[..|s| - 1]); }
  }

  // --- The merge in place -----------------------------------------------

  // Places 1..x of t still hold the parent's first x, those after i are done.
  ghost predicate MergedTo<P>(d: seq<Id2<P>>, s: seq<Id2<P>>, t: seq<Id2<P>>, x: nat, y: nat, i: nat) {
    && x <= |d| && y <= |s| && x < |t| && t[0].mid == 0
    && (forall k :: 1 <= k <= x ==> t[k] == d[k - 1])
    && i == |MergeUp(d[..x], s[..y])| <= |MergeUp(d, s)| < |t|
    && MergeUp(d, s) == MergeUp(d[..x], s[..y]) + t[i + 1..|MergeUp(d, s)| + 1]
  }

  lemma TakeParent<P>(d: seq<Id2<P>>, s: seq<Id2<P>>, t: seq<Id2<P>>, x: nat, y: nat, i: nat)
    requires MergedTo(d, s, t, x, y, i) && x > 0 && y > 0 && s[y - 1].mid < d[x - 1].mid
    ensures x <= i && MergedTo(d, s, t[i := d[x - 1]], x - 1, y, i - 1)
  {
    var t', n := t[i := d[x - 1]], |MergeUp(d, s)|;
    assert d[..x][..x - 1] == d[..x - 1];
    MergeLonger(d[..x - 1], s[..y]);
    assert t'[i..n + 1] == [d[x - 1]] + t[i + 1..n + 1];
  }

  // Place i gets the child's entry; the parent's own one for it is dropped.
  lemma TakeChild<P>(d: seq<Id2<P>>, s: seq<Id2<P>>, t: seq<Id2<P>>, x: nat, y: nat, i: nat)
    requires MergedTo(d, s, t, x, y, i) && y > 0 && (x > 0 ==> s[y - 1].mid >= d[x - 1].mid)
    ensures var x' := if x > 0 && s[y - 1].mid == d[x - 1].mid then x - 1 else x;
      x' < i && MergedTo(d, s, t[i := s[y - 1]], x', y - 1, i - 1)
  {
    var t', n := t[i := s[y - 1]], |MergeUp(d, s)|;
    var x' := if x > 0 && s[y - 1].mid == d[x - 1].mid then x - 1 else x;
    assert MergeUp(d[..x], s[..y]) == MergeUp(d[..x'], s[..y - 1]) + [s[y - 1]] by {
      assert s[..y][..y - 1] == s[..y - 1];
      if x > 0 { assert d[..x][..x - 1] == d[..x - 1]; }
    }
    assert x' < i by { MergeLonger(d[..x'], s[..y - 1]); }
    assert t'[i..n + 1] == [s[y - 1]] + t[i + 1..n + 1];
  }

  lemma MergeEnd<P>(d: seq<Id2<P>>, s: seq<Id2<P>>, t: seq<Id2<P>>, x: nat, i: nat)
    requires MergedTo(d, s, t, x, 0, i)
    ensures i == x && t[1..|MergeUp(d, s)| + 1] == MergeUp(d, s)
  {
    assert s[..0] == [];
    assert t[1..x + 1] == d[..x];
  }

  // "Merge our dirty list with parent's": with the right length the last
  // entry goes just where the untouched part ends.
  method MergeDirty<P(0)>(dst: Id2l<P>, src: Id2l<P>, x: nat, len: nat)
    requires dst.ids != src.ids && src.Valid() && x < dst.ids.Length && dst.ids[0].mid == 0
    requires NonZero(src.Contents()) && NonZero(dst.ids[1..x + 1])
    requires len == |MergeUp(dst.ids[1..x + 1], src.Contents())| < dst.ids.Length
    modifies dst.ids
    ensures dst.Valid() && dst.Contents() == MergeUp(old(dst.ids[1..x + 1]), src.Contents())
  {
    ghost var d, s := dst.ids[1..x + 1], src.Contents();
    MergeStart(d, s, dst.ids[..]);
    MergeBackward(dst, src, x, len, d, s);
    ghost var t := dst.ids[..];
    dst.ids[0] := dst.ids[0].(mid := len);
    assert dst.ids[1..len + 1] == t[1..len + 1];
  }

  method MergeBackward<P(0)>(dst: Id2l<P>, src: Id2l<P>, x0: nat, len: nat, ghost d: seq<Id2<P>>, ghost s: seq<Id2<P>>)
    requires dst.ids != src.ids && src.Valid() && src.ids[0].mid == |s| && NonZero(s) && NonZero(d)
    requires forall k :: 1 <= k <= |s| ==> src.ids[k] == s[k - 1]
    requires MergedTo(d, s, dst.ids[..], x0, |s|, len)
    modifies dst.ids
    ensures dst.ids[..][1..|MergeUp(d, s)| + 1] == MergeUp(d, s)
    ensures |MergeUp(d, s)| < dst.ids.Length
  {
    var x, y, i := x0, src.ids[0].mid, len;
    while y > 0
      invariant 0 <= x && 0 <= y <= |s| && 0 <= i && MergedTo(d, s, dst.ids[..], x, y, i)
      invariant src.ids[..] == old(src.ids[..])
    {
      x, i := MoveParents(dst, src.ids[y].mid, d, s, x, y, i);
      x := PlaceChild(dst, src.ids[y], d, s, x, y, i);
      i, y := i - 1, y - 1;
    }
    MergeEnd(d, s, dst.ids[..], x, i);
    assert i == x;
  }

  lemma MergeStart<P>(d: seq<Id2<P>>, s: seq<Id2<P>>, t: seq<Id2<P>>)
    requires |MergeUp(d, s)| < |t| && t[0].mid == 0 && |d| < |t| && d == t[1..|d| + 1]
    ensures MergedTo(d, s, t, |d|, |s|, |MergeUp(d, s)|)
  {
    assert d[..|d|] == d && s[..|s|] == s;
  }

  // The parent's own entry for the page, if any, is dropped.
  method PlaceChild<P(0)>(dst: Id2l<P>, e: Id2<P>, ghost d: seq<Id2<P>>, ghost s: seq<Id2<P>>, x0: nat, ghost y: nat, i: nat)
    returns (x: nat)
    requires MergedTo(d, s, dst.ids[..], x0, y, i) && y > 0 && e == s[y - 1] && e.mid > 0
    requires x0 > 0 ==> e.mid >= d[x0 - 1].mid
    modifies dst.ids
    ensures i > 0 && MergedTo(d, s, dst.ids[..], x, y - 1, i - 1)
  {
    TakeChild(d, s, dst.ids[..], x0, y, i);
    x := if e.mid == dst.ids[x0].mid then x0 - 1 else x0;
    ghost var t := dst.ids[..];
    dst.ids[i] := e;
    assert dst.ids[..] == t[i := e];
  }

  method MoveParents<P(0)>(dst: Id2l<P>, yp: nat, ghost d: seq<Id2<P>>, ghost s: seq<Id2<P>>, x0: nat, ghost y: nat, i0: nat)
    returns (x: nat, i: nat)
    requires MergedTo(d, s, dst.ids[..], x0, y, i0) && y > 0 && yp == s[y - 1].mid && NonZero(d)
    modifies dst.ids
    ensures MergedTo(d, s, dst.ids[..], x, y, i) && (x > 0 ==> yp >= d[x - 1].mid)
  {
    x, i := x0, i0;
    while yp < dst.ids[x].mid
      invariant MergedTo(d, s, dst.ids[..], x, y, i)
      decreases x
    {
      TakeParent(d, s, dst.ids[..], x, y, i);
      ghost var t := dst.ids[..];
      dst.ids[i] := dst.ids[x];
      assert dst.ids[..] == t[i := d[x - 1]];
      x, i := x - 1, i - 1;
    }
  }
}
