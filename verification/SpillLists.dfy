// The spill lists at the commit of a nested transaction (mdb_txn_commit in
// liblmdb/src/mdb.c). A spill list holds page numbers shifted left by one, in
// descending order; an odd entry is a deleted one.

module SpillLists {
  import opened Idls
  import opened NestedCommit

  // The entries that are not deleted.
  function Live(s: seq<nat>): (r: seq<nat>)
    decreases |s|
  {
    if s == [] then []
    else Live(s[..|s| - 1]) + if s[|s| - 1] % 2 == 0 then [s[|s| - 1]] else []
  }

  lemma {:induction false} LiveConcat(s: seq<nat>, t: seq<nat>)
    ensures Live(s + t) == Live(s) + Live(t)
    decreases |t|
  {
    if t == [] {
      assert s + t == s;
    } else {
      assert (s + t)[..|s + t| - 1] == s + t[..|t| - 1];
      LiveConcat(s, t[..|t| - 1]);
    }
  }

  lemma {:induction false} LiveHas(s: seq<nat>, v: nat)
    ensures v in Live(s) <==> v in s && v % 2 == 0
    decreases |s|
  {
    if s != [] {
      LiveHas(s[..|s| - 1], v);
      assert s == s[..|s| - 1] + [s[|s| - 1]];
    }
  }

  lemma LiveSingle(v: nat)
    ensures Live([v]) == if v % 2 == 0 then [v] else []
  {
    assert [v][..0] == [];
  }

  lemma {:induction false} LiveIdempotent(s: seq<nat>)
    ensures Live(Live(s)) == Live(s)
    decreases |s|
  {
    if s != [] {
      var v, r := s[|s| - 1], Live(s[..|s| - 1]);
      LiveIdempotent(s[..|s| - 1]);
      LiveSingle(v);
      if v % 2 == 0 {
        assert Live(s) == r + [v];
        LiveConcat(r, [v]);
      } else {
        assert Live(s) == r;
      }
    }
  }

  // A spilled page that is dirty in the child.
  ghost predicate IsDirty<P>(src: seq<Id2<P>>, v: nat) {
    v % 2 == 0 && HasId(src, v / 2)
  }

  ghost function Mark<P>(src: seq<Id2<P>>, v: nat): nat {
    if IsDirty(src, v) then 1 else v
  }

  // "Mark our dirty pages as deleted."
  ghost function Marked<P>(src: seq<Id2<P>>, s: seq<nat>): (r: seq<nat>)
    ensures |r| == |s| && forall k :: 0 <= k < |s| ==> r[k] == Mark(src, s[k])
  {
    seq(|s|, k requires 0 <= k < |s| => Mark(src, s[k]))
  }

  // The list loses exactly the child's dirty pages.
  lemma MarkedLive<P>(src: seq<Id2<P>>, s: seq<nat>, v: nat)
    ensures v in Live(Marked(src, s)) <==> v in Live(s) && !IsDirty(src, v)
  {
    LiveHas(Marked(src, s), v);
    LiveHas(s, v);
    if v in s && v % 2 == 0 && !IsDirty(src, v) {
      var k :| 0 <= k < |s| && s[k] == v;
      assert Marked(src, s)[k] == v;
    }
  }

  // Deleted entries may repeat, others may not.
  ghost predicate SpillOrder(s: seq<nat>) {
    IsDescending(s) && forall x, y :: 0 <= x < y < |s| && s[x] == s[y] ==> s[x] % 2 == 1
  }

  // Entries after x are dealt with; those up to x are above pn.
  ghost predicate MarkedFrom<P>(src: seq<Id2<P>>, s: seq<nat>, t: seq<nat>, x: nat, y: nat, pn: nat) {
    && x <= y <= |s| < |t| && t[0] == ID_MAX
    && (forall k :: 0 < k <= x ==> t[k] == s[k - 1])
    && (forall k :: x < k <= |s| ==> t[k] == Mark(src, s[k - 1]))
    && (forall k :: 0 <= k < x ==> s[k] > pn)
    && (forall k :: x <= k < |s| ==> s[k] <= pn)
    && (forall k :: x <= k < y ==> !IsDirty(src, s[k]))
  }

  // What one page of the child does to the list.
  lemma MarkOne<P>(src: seq<Id2<P>>, s: seq<nat>, t: seq<nat>, x0: nat, y: nat, i: nat, x: nat)
    requires Ascending(src) && i < |src| && SpillOrder(s)
    requires MarkedFrom(src, s, t, x0, y, if i == 0 then 0 else 2 * src[i - 1].mid)
    requires x <= x0 && 2 * src[i].mid <= t[x] && forall k :: x <= k < x0 ==> s[k] < 2 * src[i].mid
    ensures t[x] != 2 * src[i].mid && x <= |s| ==> MarkedFrom(src, s, t, x, y, 2 * src[i].mid)
    ensures t[x] == 2 * src[i].mid && x > 0 ==> MarkedFrom(src, s, t[x := 1], x - 1, x - 1, 2 * src[i].mid)
  {
    var pn := 2 * src[i].mid;
    forall k | x <= k < x0 ensures !IsDirty(src, s[k]) {
      NotBetween(src, s[k], i);
    }
    if x > 0 && t[x] == pn {
      assert s[x - 1] == pn && pn / 2 == src[i].mid && IsDirty(src, pn);
      forall k | 0 <= k < x - 1 ensures s[k] > pn {
        assert s[k] >= s[x - 1];
      }
    } else if x > 0 {
      forall k | 0 <= k < x ensures s[k] > pn {
        assert s[k] >= s[x - 1];
      }
    }
  }

  lemma NotBetween<P>(src: seq<Id2<P>>, v: nat, i: nat)
    requires Ascending(src) && i < |src| && v < 2 * src[i].mid && (i > 0 ==> v > 2 * src[i - 1].mid)
    ensures !IsDirty(src, v)
  {
    forall k | 0 <= k < |src| ensures 2 * src[k].mid != v {
      assert k < i ==> src[k].mid <= src[i - 1].mid;
      assert k > i ==> src[i].mid < src[k].mid;
    }
  }

  lemma AboveLast<P>(src: seq<Id2<P>>, v: nat)
    requires Ascending(src) && (src != [] ==> v > 2 * src[|src| - 1].mid)
    ensures !IsDirty(src, v)
  {
    forall k | 0 <= k < |src| ensures 2 * src[k].mid != v {
      assert src[k].mid <= src[|src| - 1].mid;
    }
  }

  // Marking is complete after the last page of the child.
  lemma MarkedAll<P>(src: seq<Id2<P>>, s: seq<nat>, t: seq<nat>, x: nat, y: nat)
    requires Ascending(src) && MarkedFrom(src, s, t, x, y, if src == [] then 0 else 2 * src[|src| - 1].mid)
    ensures t[1..|s| + 1] == Marked(src, s) && Marked(src, s)[..y] == s[..y]
  {
    forall k | 0 <= k < x ensures !IsDirty(src, s[k]) {
      AboveLast(src, s[k]);
    }
    var m, t' := Marked(src, s), t[1..|s| + 1];
    forall k | 0 <= k < |s| ensures t'[k] == m[k] {
      assert t'[k] == t[k + 1];
    }
  }

  // A dirty list, and a spill list whose entries are page numbers or marks.
  ghost predicate Purgeable<P>(src: seq<Id2<P>>, s: seq<nat>) {
    && Ascending(src) && NonZero(src) && (forall k :: 0 <= k < |src| ==> 2 * src[k].mid < ID_MAX)
    && SpillOrder(s) && forall k :: 0 <= k < |s| ==> s[k] > 0
  }

  method MarkDirty<P(0)>(pspill: Idl, src: Id2l<P>) returns (y: nat)
    requires pspill.Valid() && src.Valid() && Purgeable(src.Contents(), pspill.Contents())
    modifies pspill.ids
    ensures pspill.ids[0] == ID_MAX && y <= |old(pspill.Contents())|
    ensures pspill.ids[1..|old(pspill.Contents())| + 1] == Marked(src.Contents(), old(pspill.Contents()))
    ensures Marked(src.Contents(), old(pspill.Contents()))[..y] == old(pspill.Contents())[..y]
  {
    ghost var s, d := pspill.Contents(), src.Contents();
    ghost var x;
    x, y := MarkEach(pspill, src);
    MarkedAll(d, s, pspill.ids[..], x, y);
  }

  method MarkEach<P(0)>(pspill: Idl, src: Id2l<P>) returns (ghost x: nat, y: nat)
    requires pspill.Valid() && src.Valid() && Purgeable(src.Contents(), pspill.Contents())
    modifies pspill.ids
    ensures pspill.ids[0] == ID_MAX
    ensures var d := src.Contents();
      MarkedFrom(d, old(pspill.Contents()), pspill.ids[..], x, y, if d == [] then 0 else 2 * d[|d| - 1].mid)
  {
    ghost var s, d := pspill.Contents(), src.Contents();
    var at: nat, i: nat := pspill.ids[0], 0;
    y := at;
    pspill.ids[0] := ID_MAX;
    while i < src.ids[0].mid
      invariant i <= |d|
      invariant MarkedFrom(d, s, pspill.ids[..], at, y, if i == 0 then 0 else 2 * d[i - 1].mid)
    {
      i := i + 1;
      var pn := 2 * src.ids[i].mid;
      assert src.ids[i] == d[i - 1];
      ghost var at0, t := at, pspill.ids[..];
      at := SkipSmaller(pspill, pn, at, s);
      MarkOne(d, s, t, at0, y, i - 1, at);
      if pn == pspill.ids[at] {
        pspill.ids[at] := 1;
        assert pspill.ids[..] == t[at := 1];
        at := at - 1;
        y := at;
      }
    }
    x := at;
  }

  method SkipSmaller(pspill: Idl, pn: nat, x0: nat, ghost s: seq<nat>) returns (x: nat)
    requires x0 <= |s| && x0 < pspill.ids.Length && pspill.ids[0] == ID_MAX > pn
    requires forall k :: 0 < k <= x0 ==> pspill.ids[k] == s[k - 1]
    ensures x <= x0 && pspill.ids[x] >= pn && forall k :: x <= k < x0 ==> s[k] < pn
  {
    x := x0;
    while pn > pspill.ids[x]
      invariant x <= x0 && forall k :: x <= k < x0 ==> s[k] < pn
      decreases x
    {
      x := x - 1;
    }
  }

  // "Squash deleted pagenums if we deleted any."
  method Squash(pspill: Idl, y0: nat, n: nat)
    requires y0 <= n < pspill.ids.Length
    modifies pspill.ids
    ensures pspill.Valid()
    ensures pspill.Contents() == old(pspill.ids[1..y0 + 1]) + Live(old(pspill.ids[y0 + 1..n + 1]))
  {
    ghost var a := pspill.ids[..];
    var y := SquashFrom(pspill, y0, n);
    ghost var t := pspill.ids[..];
    pspill.ids[0] := y;
    assert pspill.ids[1..y + 1] == t[1..y + 1];
    assert a[1..y0 + 1] == old(pspill.ids[1..y0 + 1]) && a[y0 + 1..n + 1] == old(pspill.ids[y0 + 1..n + 1]);
  }

  method SquashFrom(pspill: Idl, y0: nat, n: nat) returns (y: nat)
    requires y0 <= n < pspill.ids.Length
    modifies pspill.ids
    ensures Squashed(old(pspill.ids[..]), pspill.ids[..], y0, n + 1, y)
  {
    ghost var a := pspill.ids[..];
    var x: nat := y0 + 1;
    y := y0;
    assert a[y0 + 1..x] == [];
    while x <= n
      invariant x <= n + 1 && Squashed(a, pspill.ids[..], y0, x, y)
    {
      SquashStep(a, pspill.ids[..], y0, x, y);
      if pspill.ids[x] % 2 == 0 {
        y := y + 1;
        ghost var t := pspill.ids[..];
        pspill.ids[y] := pspill.ids[x];
        assert pspill.ids[..] == t[y := a[x]];
      }
      x := x + 1;
    }
  }

  // Entries up to x are dealt with, those from x on are untouched.
  ghost predicate Squashed(a: seq<nat>, t: seq<nat>, y0: nat, x: nat, y: nat) {
    && y0 <= y < x <= |a| == |t| && t[1..y + 1] == a[1..y0 + 1] + Live(a[y0 + 1..x])
    && forall k :: x <= k < |a| ==> t[k] == a[k]
  }

  lemma SquashStep(a: seq<nat>, t: seq<nat>, y0: nat, x: nat, y: nat)
    requires Squashed(a, t, y0, x, y) && x < |a|
    ensures t[x] == a[x]
    ensures a[x] % 2 == 0 ==> Squashed(a, t[y + 1 := a[x]], y0, x + 1, y + 1)
    ensures a[x] % 2 == 1 ==> Squashed(a, t, y0, x + 1, y)
  {
    assert a[y0 + 1..x + 1][..x - y0 - 1] == a[y0 + 1..x];
    assert t[y + 1 := a[x]][1..y + 2] == t[1..y + 1] + [a[x]];
  }

  // "Remove anything in our dirty list from parent's spill list."
  method PurgeSpill<P(0)>(pspill: Idl, src: Id2l<P>)
    requires pspill.Valid() && src.Valid() && Purgeable(src.Contents(), pspill.Contents())
    modifies pspill.ids
    ensures pspill.Valid() && SpillOrder(pspill.Contents()) && |pspill.Contents()| <= |old(pspill.Contents())|
    ensures Live(pspill.Contents()) == Live(Marked(src.Contents(), old(pspill.Contents())))
  {
    ghost var s, m := pspill.Contents(), Marked(src.Contents(), pspill.Contents());
    var n := pspill.ids[0];
    if n == 0 {
      assert m == s;
      return;
    }
    var y := MarkDirty(pspill, src);
    ghost var t := pspill.ids[..];
    Squash(pspill, y, n);
    Purged(m, t, y);
    Halves(m, t, y);
    PurgedOrder(src.Contents(), s, y);
  }

  lemma SpillPrefix(s: seq<nat>, x: nat, y: nat)
    requires SpillOrder(s) && x <= y <= |s|
    ensures SpillOrder(s[x..y])
  {
    var r := s[x..y];
    forall i, j | 0 <= i < j < |r| ensures r[i] >= r[j] && (r[i] == r[j] ==> r[i] % 2 == 1) {
      assert r[i] == s[x + i] && r[j] == s[x + j];
    }
  }

  lemma SpillAppend(r: seq<nat>, v: nat)
    requires SpillOrder(r) && forall i :: 0 <= i < |r| ==> r[i] > v
    ensures SpillOrder(r + [v])
  {
  }

  lemma MarkedMember<P>(src: seq<Id2<P>>, s: seq<nat>, v: nat)
    requires v in Live(Marked(src, s))
    ensures v % 2 == 0 && exists k :: 0 <= k < |s| && s[k] == v
  {
    MarkedLive(src, s, v);
    LiveHas(s, v);
  }

  lemma {:induction false} LiveMarks<P>(src: seq<Id2<P>>, s: seq<nat>)
    requires SpillOrder(s)
    ensures |Live(Marked(src, s))| <= |s| && SpillOrder(Live(Marked(src, s)))
    decreases |s|
  {
    if s != [] {
      var n := |s| - 1;
      SpillPrefix(s, 0, n);
      LiveMarks(src, s[..n]);
      assert Marked(src, s)[..n] == Marked(src, s[..n]);
      var r := Live(Marked(src, s[..n]));
      if s[n] % 2 == 0 {
        forall i | 0 <= i < |r| ensures r[i] > s[n] {
          MarkedMember(src, s[..n], r[i]);
          var k :| 0 <= k < n && s[..n][k] == r[i];
          assert s[k] == r[i];
        }
        SpillAppend(r, s[n]);
      }
    }
  }

  // What is left is in order: the entries before the first mark, and the live
  // ones after it.
  lemma PurgedOrder<P>(src: seq<Id2<P>>, s: seq<nat>, y: nat)
    requires SpillOrder(s) && y <= |s| && Marked(src, s)[..y] == s[..y]
    ensures var r := Marked(src, s)[..y] + Live(Marked(src, s)[y..]); SpillOrder(r) && |r| <= |s|
  {
    assert Marked(src, s)[y..] == Marked(src, s[y..]);
    SpillPrefix(s, 0, y);
    SpillPrefix(s, y, |s|);
    LiveMarks(src, s[y..]);
    forall i, j | 0 <= i < y && 0 <= j < |Live(Marked(src, s[y..]))|
      ensures AboveEven(s[i], Live(Marked(src, s[y..]))[j])
    {
      AfterMark(src, s, y, i, j);
    }
    SpillConcat(s[..y], Live(Marked(src, s[y..])));
  }

  predicate AboveEven(u: nat, v: nat) { u > v || (u == v && u % 2 == 1) }

  lemma AfterMark<P>(src: seq<Id2<P>>, s: seq<nat>, y: nat, i: nat, j: nat)
    requires SpillOrder(s) && i < y <= |s| && j < |Live(Marked(src, s[y..]))|
    ensures AboveEven(s[i], Live(Marked(src, s[y..]))[j])
  {
    var v := Live(Marked(src, s[y..]))[j];
    MarkedMember(src, s[y..], v);
    var k :| 0 <= k < |s| - y && s[y..][k] == v;
    assert s[y + k] == v;
  }

  lemma SpillConcat(a: seq<nat>, b: seq<nat>)
    requires SpillOrder(a) && SpillOrder(b)
    requires forall i, j :: 0 <= i < |a| && 0 <= j < |b| ==> AboveEven(a[i], b[j])
    ensures SpillOrder(a + b)
  {
    var r := a + b;
    forall x, y | 0 <= x < y < |r| ensures r[x] >= r[y] && (r[x] == r[y] ==> r[x] % 2 == 1) {
      if x < |a| <= y { assert AboveEven(a[x], b[y - |a|]); }
    }
  }

  lemma Halves(m: seq<nat>, t: seq<nat>, y: nat)
    requires y <= |m| < |t| && t[1..|m| + 1] == m
    ensures t[1..y + 1] == m[..y] && t[y + 1..|m| + 1] == m[y..]
  {
    assert t[1..y + 1] == t[1..|m| + 1][..y] && t[y + 1..|m| + 1] == t[1..|m| + 1][y..];
  }

  lemma Purged(m: seq<nat>, t: seq<nat>, y: nat)
    requires y <= |m| < |t| && t[1..|m| + 1] == m
    ensures Live(t[1..y + 1] + Live(t[y + 1..|m| + 1])) == Live(m)
  {
    Halves(m, t, y);
    var a, b := m[..y], m[y..];
    LiveConcat(a, Live(b));
    LiveIdempotent(b);
    LiveConcat(a, b);
    assert m == a + b;
  }

  // --- The parent's dirty list ------------------------------------------

  // The parent's entries that the child has not spilled.
  function Unspilled<P>(d: seq<Id2<P>>, spill: seq<nat>): (r: seq<Id2<P>>)
    decreases |d|
  {
    if d == [] then []
    else Unspilled(d[..|d| - 1], spill) + if 2 * d[|d| - 1].mid in spill then [] else [d[|d| - 1]]
  }

  lemma {:induction false} UnspilledHas<P>(d: seq<Id2<P>>, spill: seq<nat>, e: Id2<P>)
    ensures e in Unspilled(d, spill) <==> e in d && 2 * e.mid !in spill
    decreases |d|
  {
    if d != [] {
      UnspilledHas(d[..|d| - 1], spill, e);
      assert d == d[..|d| - 1] + [d[|d| - 1]];
    }
  }

  lemma {:induction false} UnspilledAscends<P>(d: seq<Id2<P>>, spill: seq<nat>, id: nat)
    requires Ascending(d) && Below(d, id)
    ensures Ascending(Unspilled(d, spill)) && Below(Unspilled(d, spill), id)
    decreases |d|
  {
    if d != [] {
      AscendingInit(d);
      UnspilledAscends(d[..|d| - 1], spill, d[|d| - 1].mid);
    }
  }

  // One more spilled page takes out one entry, if it is there.
  lemma {:induction false} UnspillOne<P>(d: seq<Id2<P>>, spill: seq<nat>, pn: nat)
    ensures Unspilled(d, spill + [pn]) == Unspilled(Unspilled(d, spill), [pn])
    decreases |d|
  {
    if d != [] {
      var d', e := d[..|d| - 1], d[|d| - 1];
      UnspillOne(d', spill, pn);
      var u, u' := Unspilled(d, spill), Unspilled(d', spill);
      assert 2 * e.mid in spill + [pn] <==> 2 * e.mid in spill || 2 * e.mid in [pn];
      if 2 * e.mid in spill {
        assert u == u';
      } else {
        assert u == u' + [e] && u[..|u| - 1] == u';
      }
    }
  }

  lemma {:induction false} NothingOut<P>(d: seq<Id2<P>>, pn: nat)
    requires forall k :: 0 <= k < |d| ==> 2 * d[k].mid != pn
    ensures Unspilled(d, [pn]) == d
    decreases |d|
  {
    if d != [] { NothingOut(d[..|d| - 1], pn); }
  }

  lemma {:induction false} NothingSpilled<P>(d: seq<Id2<P>>)
    ensures Unspilled(d, []) == d
    decreases |d|
  {
    if d != [] { NothingSpilled(d[..|d| - 1]); }
  }

  lemma {:induction false} OneOut<P>(d: seq<Id2<P>>, pn: nat, y: nat)
    requires Ascending(d) && y < |d| && 2 * d[y].mid == pn
    ensures Unspilled(d, [pn]) == d[..y] + d[y + 1..]
    decreases |d|
  {
    var d', e := d[..|d| - 1], d[|d| - 1];
    if y == |d| - 1 {
      NothingOut(d', pn);
    } else {
      OneOut(d', pn, y);
      assert d[y + 1..] == d'[y + 1..] + [e];
    }
  }

  // Take the entry at place y out of the list.
  method RemoveAt<P(0)>(dst: Id2l<P>, y0: nat)
    requires dst.Valid() && 1 <= y0 <= dst.ids[0].mid
    modifies dst.ids
    ensures dst.Valid() && dst.Contents() == old(dst.Contents())[..y0 - 1] + old(dst.Contents())[y0..]
  {
    ghost var d := dst.Contents();
    var y := y0;
    while y < dst.ids[0].mid
      invariant y0 <= y <= |d| == dst.ids[0].mid < dst.ids.Length
      invariant forall k :: 1 <= k < y0 ==> dst.ids[k] == d[k - 1]
      invariant forall k :: y0 <= k < y ==> dst.ids[k] == d[k]
      invariant forall k :: y < k <= |d| ==> dst.ids[k] == d[k - 1]
    {
      dst.ids[y] := dst.ids[y + 1];
      y := y + 1;
    }
    dst.ids[0] := dst.ids[0].(mid := dst.ids[0].mid - 1);
    ghost var t := d[..y0 - 1] + d[y0..];
    forall k | 0 <= k < |t| ensures t[k] == dst.Contents()[k] {
      assert dst.Contents()[k] == dst.ids[k + 1];
    }
    assert dst.Contents() == t;
  }

  // "Remove anything in our spill list from parent's dirty list."
  method HideSpilled<P(0)>(dst: Id2l<P>, spill: Idl)
    requires dst.Valid() && spill.Valid() && Ascending(dst.Contents())
    modifies dst.ids
    ensures dst.Valid() && Ascending(dst.Contents())
    ensures dst.Contents() == Unspilled(old(dst.Contents()), Live(spill.Contents()))
  {
    ghost var d, s := dst.Contents(), spill.Contents();
    var i, sl := 1, spill.ids;
    HideStart(d, s);
    while i <= sl[0]
      invariant 1 <= i <= |s| + 1 && sl[..] == old(spill.ids[..])
      invariant dst.Valid() && Ascending(dst.Contents()) && Hidden(d, s, i - 1, dst.Contents())
    {
      HidePage(dst, sl[i], d, s, i);
      i := i + 1;
    }
    assert s[..i - 1] == s;
  }

  method HidePage<P(0)>(dst: Id2l<P>, pn: nat, ghost d: seq<Id2<P>>, ghost s: seq<nat>, ghost i: nat)
    requires 0 < i <= |s| && pn == s[i - 1]
    requires dst.Valid() && Ascending(dst.Contents()) && Hidden(d, s, i - 1, dst.Contents())
    modifies dst.ids
    ensures dst.Valid() && Ascending(dst.Contents()) && Hidden(d, s, i, dst.Contents())
  {
    HideStep(d, s, i);
    if pn % 2 == 0 {
      HideOne(dst, pn);
    }
  }

  // The first n spilled pages are taken out of d.
  ghost predicate Hidden<P>(d: seq<Id2<P>>, s: seq<nat>, n: nat, t: seq<Id2<P>>)
    requires n <= |s|
  {
    t == Unspilled(d, Live(s[..n]))
  }

  lemma HideStart<P>(d: seq<Id2<P>>, s: seq<nat>)
    ensures Hidden(d, s, 0, d)
  {
    NothingSpilled(d);
    assert Live(s[..0]) == [];
  }

  lemma HideStep<P>(d: seq<Id2<P>>, s: seq<nat>, i: nat)
    requires 0 < i <= |s|
    ensures Unspilled(d, Live(s[..i])) ==
      if s[i - 1] % 2 == 0 then Unspilled(Unspilled(d, Live(s[..i - 1])), [s[i - 1]]) else Unspilled(d, Live(s[..i - 1]))
  {
    assert s[..i][..i - 1] == s[..i - 1];
    var r := Live(s[..i - 1]);
    if s[i - 1] % 2 == 0 {
      assert Live(s[..i]) == r + [s[i - 1]];
      UnspillOne(d, r, s[i - 1]);
    } else {
      assert Live(s[..i]) == r;
    }
  }

  method HideOne<P(0)>(dst: Id2l<P>, pn: nat)
    requires dst.Valid() && Ascending(dst.Contents()) && pn % 2 == 0
    modifies dst.ids
    ensures dst.Valid() && Ascending(dst.Contents())
    ensures dst.Contents() == Unspilled(old(dst.Contents()), [pn])
  {
    ghost var d := dst.Contents();
    var y := dst.Search(pn / 2);
    if y <= dst.ids[0].mid && dst.ids[y].mid == pn / 2 {
      assert d[y - 1] == dst.ids[y];
      OneOut(d, pn, y - 1);
      UnspilledAscends(d, [pn], Top(d, []));
      RemoveAt(dst, y);
    } else {
      assert !HasId(d, pn / 2) by { assert y <= |d| ==> dst.ids[y] == d[y - 1]; }
      NothingOut(d, pn);
    }
  }

  // --- A page that is no longer spilled ---------------------------------

  // The list after its x-th entry, pn, is cut off or marked as deleted.
  lemma DroppedLive(s: seq<nat>, x: nat, pn: nat, t: seq<nat>)
    requires SpillOrder(s) && 1 <= x <= |s| && s[x - 1] == pn && pn % 2 == 0
    requires t == if x == |s| then s[..x - 1] else s[x - 1 := pn + 1]
    ensures forall v :: v in Live(t) <==> v in Live(s) && v != pn
  {
    forall v ensures v in Live(t) <==> v in Live(s) && v != pn {
      LiveHas(s, v);
      LiveHas(t, v);
      if v % 2 == 0 { DroppedHas(s, x, pn, t, v); }
    }
  }

  lemma DroppedOrder(s: seq<nat>, x: nat, pn: nat, t: seq<nat>)
    requires SpillOrder(s) && 1 <= x <= |s| && s[x - 1] == pn && pn % 2 == 0
    requires t == if x == |s| then s[..x - 1] else s[x - 1 := pn + 1]
    ensures SpillOrder(t)
  {
    forall k | 0 <= k < x - 1 ensures s[k] > pn { assert s[k] >= s[x - 1]; }
  }

  lemma DroppedHas(s: seq<nat>, x: nat, pn: nat, t: seq<nat>, v: nat)
    requires SpillOrder(s) && 1 <= x <= |s| && s[x - 1] == pn && pn % 2 == 0 && v % 2 == 0
    requires t == if x == |s| then s[..x - 1] else s[x - 1 := pn + 1]
    ensures v in t <==> v in s && v != pn
  {
    if v in s && v != pn {
      var k :| 0 <= k < |s| && s[k] == v;
      assert k != x - 1 && t[k] == v;
    }
    if v in t {
      var k :| 0 <= k < |t| && t[k] == v;
      assert k != x - 1 && s[k] == v;
    }
  }

  // "This page is no longer spilled": mdb_page_unspill and mdb_ovpage_free
  // truncate the list after a last entry, and mark any other one.
  method DropSpilled(sl: Idl, pn: nat) returns (found: bool)
    requires sl.Valid() && SpillOrder(sl.Contents()) && pn % 2 == 0
    modifies sl.ids
    ensures sl.Valid() && SpillOrder(sl.Contents())
    ensures found <==> pn in old(Live(sl.Contents()))
    ensures forall v :: v in Live(sl.Contents()) <==> v in old(Live(sl.Contents())) && v != pn
  {
    ghost var s := sl.Contents();
    LiveHas(s, pn);
    var x := sl.Search(pn);
    found := x <= sl.ids[0] && sl.ids[x] == pn;
    assert x <= |s| ==> sl.ids[x] == s[x - 1];
    if found {
      if x == sl.ids[0] {
        sl.ids[0] := x - 1;
        assert sl.Contents() == s[..x - 1];
      } else {
        sl.ids[x] := pn + 1;
        assert sl.Contents() == s[x - 1 := pn + 1];
      }
      DroppedOrder(s, x, pn, sl.Contents());
      DroppedLive(s, x, pn, sl.Contents());
    }
  }

  // --- Two spill lists in one -------------------------------------------

  lemma {:induction false} EvenOnce(s: seq<nat>, v: nat)
    requires SpillOrder(s) && v % 2 == 0
    ensures multiset(s)[v] <= 1
    decreases |s|
  {
    if s != [] {
      var n := |s| - 1;
      EvenOnce(s[..n], v);
      assert s == s[..n] + [s[n]];
      if v in s[..n] {
        var k :| 0 <= k < n && s[k] == v;
      }
    }
  }

  lemma EvenTwice(s: seq<nat>, x: nat, y: nat)
    requires x < y < |s| && s[x] == s[y]
    ensures multiset(s)[s[x]] >= 2
  {
    assert s == s[..y] + s[y..];
    assert s[x] in multiset(s[..y]) && s[y..][0] in multiset(s[y..]);
  }

  // Sorting the two lists together keeps their live entries apart.
  lemma JoinedOrder(a: seq<nat>, b: seq<nat>, r: seq<nat>)
    requires SpillOrder(a) && SpillOrder(b) && forall v :: v in Live(a) ==> v !in Live(b)
    requires IsDescending(r) && multiset(r) == multiset(a + b)
    ensures SpillOrder(r) && forall v :: v in Live(r) <==> v in Live(a) || v in Live(b)
  {
    assert multiset(r) == multiset(a) + multiset(b);
    forall v ensures v in Live(r) <==> v in Live(a) || v in Live(b) {
      LiveHas(r, v);
      LiveHas(a, v);
      LiveHas(b, v);
      assert v in r <==> v in multiset(r);
    }
    forall x, y | 0 <= x < y < |r| && r[x] == r[y] ensures r[x] % 2 == 1 {
      if r[x] % 2 == 0 {
        EvenTwice(r, x, y);
        EvenOnce(a, r[x]);
        EvenOnce(b, r[x]);
        LiveHas(a, r[x]);
        LiveHas(b, r[x]);
      }
    }
  }
}
