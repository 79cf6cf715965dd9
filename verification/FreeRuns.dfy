// The list of reusable page numbers me_pghead (liblmdb/src/mdb.c): the search
// for a run of consecutive pages in mdb_page_alloc, the return of such a run
// in mdb_ovpage_free, and its distribution over records in mdb_freelist_save.

module FreeRuns {
  import opened Idls

  ghost predicate Strict(s: seq<nat>) {
    forall x, y :: 0 <= x < y < |s| ==> s[x] > s[y]
  }

  // The n pages from pg on are all listed.
  ghost predicate HasRun(s: seq<nat>, pg: nat, n: nat) {
    forall p: nat :: pg <= p < pg + n ==> p in s
  }

  // The n IDs before place i (counting from 1) are the run that ends at s[i-1].
  ghost predicate RunAt(s: seq<nat>, i: nat, n: nat) {
    n <= i <= |s| && n > 0 && s[i - n..i] == RangeDown(s[i - 1], n)
  }

  // In a strictly descending list, n IDs span at least n numbers.
  lemma {:induction false} Spread(s: seq<nat>, x: nat, y: nat)
    requires Strict(s) && x <= y < |s|
    ensures s[x] >= s[y] + (y - x)
    decreases y - x
  {
    if x < y { Spread(s, x, y - 1); }
  }

  // The single comparison of the search recognizes a run.
  lemma RunByEnds(s: seq<nat>, i: nat, n: nat)
    requires Strict(s) && 0 < n <= i <= |s|
    ensures s[i - n] == s[i - 1] + (n - 1) <==> RunAt(s, i, n)
  {
    if s[i - n] == s[i - 1] + (n - 1) {
      var r, d := s[i - n..i], RangeDown(s[i - 1], n);
      forall k | 0 <= k < n ensures r[k] == d[k] {
        Spread(s, i - n, i - n + k);
        Spread(s, i - n + k, i - 1);
      }
    }
    if RunAt(s, i, n) {
      var r, d := s[i - n..i], RangeDown(s[i - 1], n);
      assert r[0] == d[0];
    }
  }

  lemma RunAtHas(s: seq<nat>, i: nat, n: nat)
    requires RunAt(s, i, n)
    ensures HasRun(s, s[i - 1], n)
  {
    forall p: nat | s[i - 1] <= p < s[i - 1] + n ensures p in s {
      assert RangeDown(s[i - 1], n)[s[i - 1] + n - 1 - p] == p;
      assert s[i - n..i][s[i - 1] + n - 1 - p] == p;
    }
  }

  // Every run lies in consecutive places.
  lemma HasRunAt(s: seq<nat>, pg: nat, n: nat) returns (i: nat)
    requires Strict(s) && HasRun(s, pg, n) && n > 0
    ensures RunAt(s, i, n) && s[i - 1] == pg
  {
    assert pg in s && pg + n - 1 in s;
    var x :| 0 <= x < |s| && s[x] == pg;
    var y :| 0 <= y < |s| && s[y] == pg + n - 1;
    PlaceOf(s, pg, n, x, y);
    i := x + 1;
    RunByEnds(s, i, n);
  }

  // The top of a run of n lies exactly n - 1 places before its bottom.
  lemma {:induction false} PlaceOf(s: seq<nat>, pg: nat, n: nat, x: nat, y: nat)
    requires Strict(s) && HasRun(s, pg, n) && n > 0 && x < |s| && y < |s| && s[x] == pg && s[y] == pg + n - 1
    ensures y <= x && x - y == n - 1
    decreases n
  {
    if n > 1 {
      assert pg + n - 2 in s;
      var z :| 0 <= z < |s| && s[z] == pg + n - 2;
      PlaceOf(s, pg, n - 1, x, z);
      assert y < z;
      Spread(s, y, z);
    }
  }

  // --- The search -------------------------------------------------------

  // mdb_page_alloc: place of the lowest run of num pages, or 0.
  method FindRun(mop: Idl, num: nat) returns (i: nat)
    requires mop.Valid() && num > 0 && Strict(mop.Contents())
    ensures i == 0 <==> !exists pg :: HasRun(mop.Contents(), pg, num)
    ensures i > 0 ==> RunAt(mop.Contents(), i, num)
    ensures i > 0 ==> forall pg :: HasRun(mop.Contents(), pg, num) ==> mop.Contents()[i - 1] <= pg
  {
    ghost var s := mop.Contents();
    var len, n2 := mop.ids[0], num - 1;
    i := 0;
    if len > n2 {
      i := len;
      while i > n2 && mop.ids[i - n2] != mop.ids[i] + n2
        invariant n2 <= i <= len
        invariant forall k: nat :: i < k <= len ==> !RunAt(s, k, num)
      {
        assert mop.ids[i] == s[i - 1] && mop.ids[i - n2] == s[i - num];
        RunByEnds(s, i, num);
        i := i - 1;
      }
      if i > n2 {
        assert mop.ids[i] == s[i - 1] && mop.ids[i - n2] == s[i - num];
        RunByEnds(s, i, num);
        RunAtHas(s, i, num);
        LowestRun(s, i, num);
        assert HasRun(mop.Contents(), s[i - 1], num);
        return i;
      }
    }
    NoRun(s, num);
    i := 0;
  }

  lemma LowestRun(s: seq<nat>, i: nat, num: nat)
    requires Strict(s) && RunAt(s, i, num) && forall k: nat :: i < k <= |s| ==> !RunAt(s, k, num)
    ensures forall pg :: HasRun(s, pg, num) ==> s[i - 1] <= pg
  {
    forall pg | HasRun(s, pg, num) ensures s[i - 1] <= pg {
      var k := HasRunAt(s, pg, num);
    }
  }

  lemma NoRun(s: seq<nat>, num: nat)
    requires Strict(s) && num > 0 && forall k: nat :: num <= k <= |s| ==> !RunAt(s, k, num)
    ensures !exists pg :: HasRun(s, pg, num)
  {
    forall pg | HasRun(s, pg, num) ensures false {
      var k := HasRunAt(s, pg, num);
    }
  }

  // --- Taking and returning a run ---------------------------------------

  function Pages(s: seq<nat>): set<nat> {
    set p <- s
  }

  function RunSet(pg: nat, n: nat): set<nat> {
    Pages(RangeDown(pg, n))
  }

  lemma InRunSet(pg: nat, n: nat, p: nat)
    ensures p in RunSet(pg, n) <==> pg <= p < pg + n
  {
    if pg <= p < pg + n { assert RangeDown(pg, n)[pg + n - 1 - p] == p; }
  }

  lemma Parts<T>(a: seq<T>, b: seq<T>, c: seq<T>)
    ensures (a + b + c)[..|a|] == a && (a + b + c)[|a|..|a| + |b|] == b && (a + b + c)[|a| + |b|..] == c
  {
  }

  // The list without the run that ends at place i.
  function Without(s: seq<nat>, i: nat, n: nat): seq<nat>
    requires n <= i <= |s|
  {
    s[..i - n] + s[i..]
  }

  // How many IDs are above pg.
  function Above(s: seq<nat>, pg: nat): (x: nat)
    ensures x <= |s|
    ensures x > 0 ==> s[x - 1] >= pg
    ensures forall k :: x <= k < |s| ==> s[k] < pg
  {
    if s == [] || s[|s| - 1] >= pg then |s| else Above(s[..|s| - 1], pg)
  }

  // The list with the n pages from pg on in their place.
  function With(s: seq<nat>, pg: nat, n: nat): seq<nat> {
    s[..Above(s, pg)] + RangeDown(pg, n) + s[Above(s, pg)..]
  }

  lemma InParts<T(!new)>(a: seq<T>, b: seq<T>, c: seq<T>, x: T)
    ensures x in a + b + c <==> x in a || x in b || x in c
  {
  }

  // IDs before a run are above it, those after it are below.
  lemma RunApart(s: seq<nat>, i: nat, n: nat, p: nat)
    requires Strict(s) && RunAt(s, i, n) && (p in s[..i - n] || p in s[i..])
    ensures p !in RunSet(s[i - 1], n)
  {
    InRunSet(s[i - 1], n, p);
    var r, d := s[i - n..i], RangeDown(s[i - 1], n);
    assert r[0] == d[0] == s[i - n];
    if p in s[..i - n] {
      var k :| 0 <= k < i - n && s[..i - n][k] == p;
      assert s[k] > s[i - n];
    } else {
      var k :| 0 <= k < |s| - i && s[i..][k] == p;
      assert s[i - 1] > s[i + k];
    }
  }

  lemma WithoutStrict(s: seq<nat>, i: nat, n: nat)
    requires Strict(s) && n <= i <= |s|
    ensures Strict(Without(s, i, n))
  {
    var t := Without(s, i, n);
    forall x, y | 0 <= x < y < |t| ensures t[x] > t[y] {
      var x', y' := if x < i - n then x else x + n, if y < i - n then y else y + n;
      assert s[x'] > s[y'];
    }
  }

  // Exactly the run's pages are gone.
  lemma WithoutPages(s: seq<nat>, i: nat, n: nat)
    requires Strict(s) && RunAt(s, i, n)
    ensures Strict(Without(s, i, n)) && Pages(Without(s, i, n)) == Pages(s) - RunSet(s[i - 1], n)
  {
    WithoutStrict(s, i, n);
    var a, r, b := s[..i - n], RangeDown(s[i - 1], n), s[i..];
    forall p: nat ensures p in a + b <==> p in s && p !in RunSet(s[i - 1], n) {
      assert s == a + r + b && a + b == a + [] + b;
      InParts(a, r, b, p);
      InParts(a, [], b, p);
      if p in a || p in b { RunApart(s, i, n, p); }
    }
  }

  // The pages before the place of a run that is not listed are above it.
  lemma AboveRun(s: seq<nat>, pg: nat, n: nat)
    requires Strict(s) && Pages(s) !! RunSet(pg, n)
    ensures forall k :: 0 <= k < Above(s, pg) ==> s[k] >= pg + n
  {
    forall k | 0 <= k < Above(s, pg) ensures s[k] >= pg + n {
      assert s[k] >= s[Above(s, pg) - 1] >= pg;
      assert s[k] in Pages(s);
      InRunSet(pg, n, s[k]);
    }
  }

  lemma WithStrict(s: seq<nat>, pg: nat, n: nat)
    requires Strict(s) && Pages(s) !! RunSet(pg, n)
    ensures Strict(With(s, pg, n))
  {
    var x, r, t := Above(s, pg), RangeDown(pg, n), With(s, pg, n);
    AboveRun(s, pg, n);
    assert forall k :: 0 <= k < x ==> t[k] == s[k] && t[k] >= pg + n;
    assert forall k :: x <= k < x + n ==> t[k] == r[k - x] && pg <= t[k] < pg + n;
    assert forall k :: x + n <= k < |t| ==> t[k] == s[k - n] && t[k] < pg;
  }

  // Exactly the run's pages are added, and the list stays strictly descending.
  lemma WithPages(s: seq<nat>, pg: nat, n: nat)
    requires Strict(s) && Pages(s) !! RunSet(pg, n)
    ensures Strict(With(s, pg, n)) && Pages(With(s, pg, n)) == Pages(s) + RunSet(pg, n)
  {
    var x, r := Above(s, pg), RangeDown(pg, n);
    WithStrict(s, pg, n);
    forall p: nat ensures p in With(s, pg, n) <==> p in s || p in r {
      InParts(s[..x], r, s[x..], p);
      InParts(s[..x], [], s[x..], p);
      assert s == s[..x] + [] + s[x..];
    }
  }

  // Returning a run that was taken restores the list.
  lemma TakeThenReturn(s: seq<nat>, i: nat, n: nat)
    requires Strict(s) && RunAt(s, i, n)
    ensures With(Without(s, i, n), s[i - 1], n) == s
  {
    var a, r, b, pg := s[..i - n], RangeDown(s[i - 1], n), s[i..], s[i - 1];
    assert s == a + r + b;
    AboveParts(a, r, b, pg);
    Parts(a, [], b);
    assert a + b == a + [] + b;
  }

  lemma AboveParts(a: seq<nat>, r: seq<nat>, b: seq<nat>, pg: nat)
    requires Strict(a + r + b) && r != [] && r[|r| - 1] == pg
    ensures Above(a + b, pg) == |a|
  {
    var s := a + r + b;
    assert s[|a| + |r| - 1] == pg;
    forall k | |a| <= k < |a + b| ensures (a + b)[k] < pg { assert (a + b)[k] == s[k + |r|]; }
    if a != [] { assert (a + b)[|a| - 1] == s[|a| - 1]; }
    AboveIs(a + b, pg, |a|);
  }

  // Taking a run that was returned restores the list.
  lemma ReturnThenTake(s: seq<nat>, pg: nat, n: nat)
    ensures Without(With(s, pg, n), Above(s, pg) + n, n) == s
  {
    var x := Above(s, pg);
    Parts(s[..x], RangeDown(pg, n), s[x..]);
    assert s == s[..x] + s[x..];
  }

  // mdb_page_alloc: take the run that ends at place i; "move any stragglers
  // down".
  method TakeRun(mop: Idl, i: nat, num: nat)
    requires mop.Valid() && num > 0 && Strict(mop.Contents()) && RunAt(mop.Contents(), i, num)
    modifies mop.ids
    ensures mop.Valid() && mop.Contents() == Without(old(mop.Contents()), i, num)
  {
    ghost var s := mop.Contents();
    var len := mop.ids[0] - num;
    mop.ids[0] := len;
    var j, k := i - num, i;
    while j < len
      invariant i - num <= j <= len && k == j + num && mop.ids[0] == len && len + num == |s| < mop.ids.Length
      invariant forall x :: 1 <= x <= j ==> mop.ids[x] == Without(s, i, num)[x - 1]
      invariant forall x :: j < x <= |s| && k < x ==> mop.ids[x] == s[x - 1]
    {
      j, k := j + 1, k + 1;
      mop.ids[j] := mop.ids[k];
    }
  }

  // mdb_ovpage_free: insert the pages pg .. pg + n - 1 in me_pghead.
  method ReturnRun(mop: Idl, pg: nat, n: nat)
    requires mop.Valid() && NeedRoom(mop.ids[0], n, mop.AllocLen()) >= mop.ids[0] + n
    modifies mop, mop.ids
    ensures mop.Valid() && mop.Contents() == With(old(mop.Contents()), pg, n)
  {
    ghost var s := mop.Contents();
    mop.Need(n);
    InsertRun(mop, pg, n);
  }

  method InsertRun(mop: Idl, pg: nat, n: nat)
    requires mop.Valid() && mop.ids[0] + n <= mop.AllocLen()
    modifies mop.ids
    ensures mop.Valid() && mop.Contents() == With(old(mop.Contents()), pg, n)
  {
    ghost var s := mop.Contents();
    var i := MoveBelow(mop, pg, n);
    AboveIs(s, pg, i);
    WriteRun(mop, pg, n, i);
    mop.ids[0] := mop.ids[0] + n;
    ghost var t := With(s, pg, n);
    forall k | 0 <= k < |t| ensures t[k] == mop.Contents()[k] {
      assert mop.Contents()[k] == mop.ids[k + 1];
    }
    assert mop.Contents() == t;
  }

  // The pages from pg on, in the n places after i.
  method WriteRun(mop: Idl, pg: nat, n: nat, i: nat)
    requires i + n < mop.ids.Length
    modifies mop.ids
    ensures forall x :: 0 <= x < mop.ids.Length && !(i < x <= i + n) ==> mop.ids[x] == old(mop.ids[x])
    ensures forall x :: i < x <= i + n ==> mop.ids[x] == pg + (i + n - x)
  {
    var j, next := i + n, pg;
    while j > i
      invariant i <= j <= i + n && next == pg + (i + n - j)
      invariant forall x :: 0 <= x < mop.ids.Length && !(i < x <= i + n) ==> mop.ids[x] == old(mop.ids[x])
      invariant forall x :: j < x <= i + n ==> mop.ids[x] == pg + (i + n - x)
    {
      mop.ids[j] := next;
      j, next := j - 1, next + 1;
    }
  }

  // The IDs below pg move n places up.
  method MoveBelow(mop: Idl, pg: nat, n: nat) returns (i: nat)
    requires mop.Valid() && mop.ids[0] + n <= mop.AllocLen()
    modifies mop.ids
    ensures mop.ids[0] == old(mop.ids[0]) && i <= mop.ids[0]
    ensures forall x :: 1 <= x <= i ==> mop.ids[x] == old(mop.Contents())[x - 1]
    ensures forall x :: i + n < x <= mop.ids[0] + n ==> mop.ids[x] == old(mop.Contents())[x - 1 - n]
    ensures i > 0 ==> old(mop.Contents())[i - 1] >= pg
    ensures forall k :: i <= k < |old(mop.Contents())| ==> old(mop.Contents())[k] < pg
  {
    ghost var s := mop.Contents();
    var j := mop.ids[0] + n;
    i := mop.ids[0];
    while i > 0 && mop.ids[i] < pg
      invariant 0 <= i <= |s| && j == i + n && mop.ids[0] == |s|
      invariant forall x :: 1 <= x <= i ==> mop.ids[x] == s[x - 1]
      invariant forall x :: j < x <= |s| + n ==> mop.ids[x] == s[x - 1 - n]
      invariant forall k :: i <= k < |s| ==> s[k] < pg
    {
      mop.ids[j] := mop.ids[i];
      j, i := j - 1, i - 1;
    }
  }

  lemma {:induction false} AboveIs(s: seq<nat>, pg: nat, i: nat)
    requires i <= |s| && (i > 0 ==> s[i - 1] >= pg) && forall k :: i <= k < |s| ==> s[k] < pg
    ensures Above(s, pg) == i
    decreases |s|
  {
    if i < |s| { AboveIs(s[..|s| - 1], pg, i); }
  }

  // --- Saving the list --------------------------------------------------

  // What goes into the records, of which the k-th has room for lens[k] IDs.
  function Slices(s: seq<nat>, lens: seq<nat>): (r: seq<seq<nat>>)
    ensures |r| <= |lens|
    decreases |lens|
  {
    if s == [] || lens == [] then []
    else
      var len := if lens[0] > |s| then |s| else lens[0];
      [s[|s| - len..]] + Slices(s[..|s| - len], lens[1..])
  }

  function Room(lens: seq<nat>): nat {
    if lens == [] then 0 else lens[0] + Room(lens[1..])
  }

  // The slices one before the other.
  function Rejoin(r: seq<seq<nat>>): seq<nat> {
    if r == [] then [] else Rejoin(r[1..]) + r[0]
  }

  lemma {:induction false} SlicesLength(s: seq<nat>, lens: seq<nat>)
    ensures |Rejoin(Slices(s, lens))| == if Room(lens) >= |s| then |s| else Room(lens)
    decreases |lens|
  {
    if s != [] && lens != [] {
      var len := if lens[0] > |s| then |s| else lens[0];
      SlicesLength(s[..|s| - len], lens[1..]);
      assert Slices(s, lens)[1..] == Slices(s[..|s| - len], lens[1..]);
    }
  }

  lemma {:induction false} SlicesFit(s: seq<nat>, lens: seq<nat>)
    ensures forall k :: 0 <= k < |Slices(s, lens)| ==> |Slices(s, lens)[k]| <= lens[k]
    decreases |lens|
  {
    if s != [] && lens != [] {
      var len := if lens[0] > |s| then |s| else lens[0];
      var r, r' := Slices(s, lens), Slices(s[..|s| - len], lens[1..]);
      SlicesFit(s[..|s| - len], lens[1..]);
      forall k | 0 <= k < |r| ensures |r[k]| <= lens[k] {
        if k > 0 { assert r[k] == r'[k - 1] && lens[k] == lens[1..][k - 1]; }
      }
    }
  }

  lemma {:induction false} SlicesRejoin(s: seq<nat>, lens: seq<nat>)
    requires Room(lens) >= |s|
    ensures Rejoin(Slices(s, lens)) == s
    decreases |lens|
  {
    if s != [] {
      var len := if lens[0] > |s| then |s| else lens[0];
      var rest, slice := s[..|s| - len], s[|s| - len..];
      SlicesRejoin(rest, lens[1..]);
      RejoinCons(slice, Slices(rest, lens[1..]));
      assert s == rest + slice;
    }
  }

  lemma RejoinCons(slice: seq<nat>, r: seq<seq<nat>>)
    ensures Rejoin([slice] + r) == Rejoin(r) + slice
  {
    assert ([slice] + r)[1..] == r;
  }

  // The records hold the whole list, in consecutive slices, exactly when there
  // is room enough for it.
  lemma SlicesCover(s: seq<nat>, lens: seq<nat>)
    ensures Rejoin(Slices(s, lens)) == s <==> Room(lens) >= |s|
    ensures forall k :: 0 <= k < |Slices(s, lens)| ==> |Slices(s, lens)[k]| <= lens[k]
  {
    SlicesLength(s, lens);
    SlicesFit(s, lens);
    if Room(lens) >= |s| { SlicesRejoin(s, lens); }
  }

  // A record is its length and that many IDs.
  function Record(ids: seq<nat>): seq<nat> { [|ids|] + ids }

  function Records(r: seq<seq<nat>>): (d: seq<seq<nat>>)
    ensures |d| == |r| && forall k :: 0 <= k < |r| ==> d[k] == Record(r[k])
  {
    seq(|r|, k requires 0 <= k < |r| => Record(r[k]))
  }

  // mdb_freelist_save: fill in the reserved records. The word before each
  // slice is borrowed for the slice's length and put back.
  method FillRecords(mop: Idl, lens: seq<nat>) returns (data: seq<seq<nat>>)
    requires mop.Valid()
    modifies mop.ids
    ensures mop.ids[..] == old(mop.ids[..])
    ensures data == Records(Slices(mop.Contents(), lens))
  {
    ghost var was, s := mop.ids[..], mop.Contents();
    data := [];
    var left := mop.ids[0];
    if left == 0 { return; }
    var p, k := left, 0;
    FillStart(s, lens);
    while k < |lens| && left > 0
      invariant 0 <= k && 0 <= p == left && mop.ids[..] == was && Filling(s, lens, data, left, k)
    {
      var len := lens[k];
      if len > left { len := left; }
      p := p - len;
      var record := TakeSlice(mop, p, len);
      FillStep(s, lens, data, left, k);
      data := data + [record];
      left, k := left - len, k + 1;
    }
    FillEnd(s, lens, data, left, k);
  }

  // The records of the first k lengths are written, `left` IDs remain.
  ghost predicate Filling(s: seq<nat>, lens: seq<nat>, data: seq<seq<nat>>, left: nat, k: nat) {
    && left <= |s| && k <= |lens|
    && Records(Slices(s, lens)) == data + Records(Slices(s[..left], lens[k..]))
  }

  lemma FillStart(s: seq<nat>, lens: seq<nat>)
    ensures Filling(s, lens, [], |s|, 0)
  {
    assert s[..|s|] == s && lens[0..] == lens;
  }

  lemma FillStep(s: seq<nat>, lens: seq<nat>, data: seq<seq<nat>>, left: nat, k: nat)
    requires Filling(s, lens, data, left, k) && left > 0 && k < |lens|
    ensures var len := if lens[k] > left then left else lens[k];
      Filling(s, lens, data + [Record(s[..left][left - len..])], left - len, k + 1)
  {
    var len := if lens[k] > left then left else lens[k];
    SliceStep(s[..left], lens[k..]);
    assert s[..left][..left - len] == s[..left - len] && lens[k..][1..] == lens[k + 1..];
    Append3(data, [Record(s[..left][left - len..])], Records(Slices(s[..left - len], lens[k + 1..])));
  }

  lemma Append3<T>(a: seq<T>, b: seq<T>, c: seq<T>)
    ensures a + (b + c) == a + b + c
  {
  }

  lemma FillEnd(s: seq<nat>, lens: seq<nat>, data: seq<seq<nat>>, left: nat, k: nat)
    requires Filling(s, lens, data, left, k) && (left == 0 || k == |lens|)
    ensures data == Records(Slices(s, lens))
  {
    assert s[..left] == [] || lens[k..] == [];
  }

  // The record of the len IDs after place p.
  method TakeSlice(mop: Idl, p: nat, len: nat) returns (record: seq<nat>)
    requires mop.Valid() && p + len <= mop.ids[0]
    modifies mop.ids
    ensures mop.ids[..] == old(mop.ids[..])
    ensures record == Record(mop.Contents()[..p + len][p..])
  {
    ghost var was := mop.ids[..];
    var save := mop.ids[p];
    mop.ids[p] := len;
    record := mop.ids[p..p + len + 1];
    assert record == [len] + was[p + 1..p + len + 1];
    mop.ids[p] := save;
    assert mop.ids[..] == was;
    assert mop.Contents()[..p + len][p..] == was[p + 1..p + len + 1];
  }

  lemma SliceStep(s: seq<nat>, lens: seq<nat>)
    requires s != [] && lens != []
    ensures var len := if lens[0] > |s| then |s| else lens[0];
      Records(Slices(s, lens)) == [Record(s[|s| - len..])] + Records(Slices(s[..|s| - len], lens[1..]))
  {
    var len := if lens[0] > |s| then |s| else lens[0];
    RecordsCons(s[|s| - len..], Slices(s[..|s| - len], lens[1..]));
  }

  lemma RecordsCons(a: seq<nat>, r: seq<seq<nat>>)
    ensures Records([a] + r) == [Record(a)] + Records(r)
  {
  }

  // --- Reading the records back -----------------------------------------

  // mdb_page_alloc merges one record after the other into me_pghead.
  function ReadBack(s: seq<nat>, r: seq<seq<nat>>): seq<nat>
    decreases |r|
  {
    if r == [] then s else ReadBack(MergeDown(s, r[0]), r[1..])
  }

  // In any order, merging slices of a descending list gives the list.
  lemma {:induction false} ReadBackIds(s: seq<nat>, r: seq<seq<nat>>)
    requires IsDescending(s) && forall k :: 0 <= k < |r| ==> IsDescending(r[k])
    ensures IsDescending(ReadBack(s, r)) && multiset(ReadBack(s, r)) == multiset(s) + multiset(Rejoin(r))
    decreases |r|
  {
    if r != [] {
      MergeIsUnion(s, r[0]);
      MergeDescends(s, r[0]);
      ReadBackIds(MergeDown(s, r[0]), r[1..]);
      assert multiset(Rejoin(r)) == multiset(Rejoin(r[1..])) + multiset(r[0]);
    }
  }

  lemma FirstIsLargest(s: seq<nat>, x: nat)
    requires IsDescending(s) && x in multiset(s)
    ensures s != [] && x <= s[0]
  {
    assert x in s;
  }

  lemma TailIds(s: seq<nat>, x: nat)
    requires s != []
    ensures multiset(s[1..])[x] == multiset(s)[x] - (if s[0] == x then 1 else 0)
  {
    assert s == [s[0]] + s[1..];
  }

  lemma TailsAgree(s: seq<nat>, t: seq<nat>)
    requires s != [] && t != [] && s[0] == t[0] && multiset(s) == multiset(t)
    ensures multiset(s[1..]) == multiset(t[1..])
  {
    forall x ensures multiset(s[1..])[x] == multiset(t[1..])[x] {
      TailIds(s, x);
      TailIds(t, x);
    }
  }

  lemma {:induction false} SameIds(s: seq<nat>, t: seq<nat>)
    requires IsDescending(s) && IsDescending(t) && multiset(s) == multiset(t)
    ensures s == t
    decreases |s|
  {
    assert |multiset(s)| == |s| && |multiset(t)| == |t|;
    if s != [] {
      FirstIsLargest(t, s[0]);
      FirstIsLargest(s, t[0]);
      TailsAgree(s, t);
      SameIds(s[1..], t[1..]);
      assert s == [s[0]] + s[1..] && t == [t[0]] + t[1..];
    }
  }

  lemma {:induction false} SlicesDescend(s: seq<nat>, lens: seq<nat>)
    requires IsDescending(s)
    ensures forall k :: 0 <= k < |Slices(s, lens)| ==> IsDescending(Slices(s, lens)[k])
    decreases |lens|
  {
    if s != [] && lens != [] {
      var len := if lens[0] > |s| then |s| else lens[0];
      SlicesDescend(s[..|s| - len], lens[1..]);
    }
  }

  // What is saved and later read back is the list.
  lemma SaveThenRead(s: seq<nat>, lens: seq<nat>)
    requires IsDescending(s) && Room(lens) >= |s|
    ensures ReadBack([], Slices(s, lens)) == s
  {
    SlicesCover(s, lens);
    SlicesDescend(s, lens);
    ReadBackIds([], Slices(s, lens));
    SameIds(ReadBack([], Slices(s, lens)), s);
  }

  // --- The dirty list ---------------------------------------------------

  // mdb_ovpage_free: remove a page from the dirty list, walking down from its
  // end. When it is missing, the list is left out of order.
  method RemoveDirty<P(==, 0)>(dl: Id2l<P>, mp: P) returns (ok: bool)
    requires dl.Valid() && dl.ids[0].mid > 0
    modifies dl.ids
    ensures dl.Valid()
    ensures ok <==> exists e :: e in old(dl.Contents()) && e.mptr == mp
    ensures ok ==> RemovedLast(old(dl.Contents()), dl.Contents(), mp)
    ensures !ok ==> dl.Contents() == old(dl.Contents())[1..] + [old(dl.Contents())[0]]
  {
    ghost var s := dl.Contents();
    var x := dl.ids[0].mid;
    dl.ids[0] := dl.ids[0].(mid := x - 1);
    var ix;
    ix, x := ShiftDown(dl, mp, x, s);
    if ix.mptr != mp {
      var j := dl.ids[0].mid + 1;
      dl.ids[0] := dl.ids[0].(mid := j);
      dl.ids[j] := ix;
      Rotated(s, dl.ids[..]);
      return false;
    }
    assert s[x - 1] in s && LastWith(s, mp, x - 1);
    TakenOutAt(s, dl.ids[..], x);
    ok := true;
  }

  // Move entries down one place until the page's own entry ix turns up, or
  // there are no more.
  method ShiftDown<P(==, 0)>(dl: Id2l<P>, mp: P, x0: nat, ghost s: seq<Id2<P>>) returns (ix: Id2<P>, x: nat)
    requires x0 == |s| > 0 && |s| < dl.ids.Length && forall k :: 1 <= k <= |s| ==> dl.ids[k] == s[k - 1]
    modifies dl.ids
    ensures dl.ids[0] == old(dl.ids[0]) && 1 <= x <= |s| && ix == s[x - 1]
    ensures forall k :: 1 <= k < x ==> dl.ids[k] == s[k - 1]
    ensures forall k :: x <= k < |s| ==> dl.ids[k] == s[k] && s[k].mptr != mp
    ensures ix.mptr != mp ==> x == 1
  {
    x, ix := x0, dl.ids[x0];
    while ix.mptr != mp && x > 1
      invariant 1 <= x <= |s| && ix == s[x - 1] && dl.ids[0] == old(dl.ids[0])
      invariant forall k :: 1 <= k < x ==> dl.ids[k] == s[k - 1]
      invariant forall k :: x <= k < |s| ==> dl.ids[k] == s[k] && s[k].mptr != mp
    {
      x := x - 1;
      var iy := dl.ids[x];
      dl.ids[x] := ix;
      ix := iy;
    }
  }

  lemma Rotated<P>(s: seq<Id2<P>>, t: seq<Id2<P>>)
    requires 0 < |s| < |t| && (forall k :: 1 <= k < |s| ==> t[k] == s[k]) && t[|s|] == s[0]
    ensures t[1..|s| + 1] == s[1..] + [s[0]]
  {
  }

  lemma TakenOutAt<P>(s: seq<Id2<P>>, t: seq<Id2<P>>, x: nat)
    requires 1 <= x <= |s| < |t|
    requires (forall k :: 1 <= k < x ==> t[k] == s[k - 1]) && forall k :: x <= k < |s| ==> t[k] == s[k]
    ensures t[1..|s|] == s[..x - 1] + s[x..]
  {
  }

  ghost predicate RemovedLast<P>(s: seq<Id2<P>>, t: seq<Id2<P>>, mp: P) {
    exists x :: LastWith(s, mp, x) && t == s[..x] + s[x + 1..]
  }

  ghost predicate LastWith<P>(s: seq<Id2<P>>, mp: P, x: int) {
    0 <= x < |s| && s[x].mptr == mp && forall k :: x < k < |s| ==> s[k].mptr != mp
  }
}
