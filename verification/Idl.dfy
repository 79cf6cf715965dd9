// Lists of page and transaction IDs (liblmdb/src/midl.c): element 0 of the
// array counts the IDs that follow it. An IDL is kept in descending order, an
// ID2L in ascending order of its IDs.

module Idls {
  import opened IdlSort

  const ID_MAX: nat := 0xffff_ffff_ffff_ffff
  const UINT: nat := 0x1_0000_0000

  // --- Growth -----------------------------------------------------------

  // The words mdb_midl_need asks realloc for, computed on 32 bits.
  function NeedWords(total: nat): nat {
    (total + total / 4 + 258) % UINT / 256 * 256
  }

  // The room a list of `count` IDs has after mdb_midl_need, whose 32-bit sum of
  // num and count may wrap around too.
  function NeedRoom(count: nat, num: nat, alloc: int): int {
    var total := (num + count) % UINT;
    if total > alloc then NeedWords(total) - 2 else alloc
  }

  // It suffices exactly when there was room anyway, or neither computation
  // wraps around.
  lemma NeedSuffices(count: nat, num: nat, alloc: int)
    ensures NeedRoom(count, num, alloc) >= count + num <==>
      alloc >= count + num || count + num + (count + num) / 4 + 258 < UINT
  {
    var t := count + num;
    var total := t % UINT;
    var sum := total + total / 4 + 258;
    if t < UINT {
      assert total == t;
    }
    if sum < UINT {
      assert sum % UINT == sum;
    } else {
      assert sum % UINT == sum - UINT;
    }
  }

  // The sum wraps around to 0, and the list is left with room for one ID.
  lemma SumWraps()
    ensures NeedRoom(1, UINT - 1, 1) == 1 < 1 + (UINT - 1)
  {
  }

  // The sum does not wrap around, but with a quarter and 258 more it does.
  lemma SizeWraps()
    ensures 0xcccc_cd00 < UINT && NeedRoom(0, 0xcccc_cd00, 0) == 0xfe < 0xcccc_cd00
  {
  }

  // When neither wraps around, a list that is too short is left with room for
  // a quarter more, as little as makes its words a multiple of 256.
  lemma NeedIsLeast(count: nat, num: nat, alloc: int)
    requires count + num + (count + num) / 4 + 258 < UINT
    ensures var total, room := count + num, NeedRoom(count, num, alloc);
      if total <= alloc then room == alloc
      else (room + 2) % 256 == 0 && total + total / 4 < room <= total + total / 4 + 256
  {
    var total := count + num;
    assert total % UINT == total;
    RoundedDown(total + total / 4 + 258);
  }

  lemma RoundedDown(words: nat)
    requires words < UINT
    ensures var w := words % UINT / 256 * 256; w % 256 == 0 && words - 256 < w <= words
  {
  }

  // n | m
  function BitOr(n: nat, m: nat): (r: nat)
    ensures n <= r && m <= r
  {
    if n == 0 then m else if m == 0 then n
    else 2 * BitOr(n / 2, m / 2) + if n % 2 == 1 || m % 2 == 1 then 1 else 0
  }

  // The k-th bit.
  predicate Bit(n: nat, k: nat) {
    if k == 0 then n % 2 == 1 else Bit(n / 2, k - 1)
  }

  lemma {:induction false} NoBits(k: nat)
    ensures !Bit(0, k)
  {
    if k > 0 { NoBits(k - 1); }
  }

  lemma HalfOr(n: nat, m: nat)
    requires n > 0 && m > 0
    ensures BitOr(n, m) / 2 == BitOr(n / 2, m / 2)
    ensures BitOr(n, m) % 2 == 1 <==> n % 2 == 1 || m % 2 == 1
  {
  }

  lemma {:induction false} BitOrBits(n: nat, m: nat, k: nat)
    ensures Bit(BitOr(n, m), k) <==> Bit(n, k) || Bit(m, k)
    decreases k
  {
    if n == 0 || m == 0 {
      NoBits(k);
    } else {
      HalfOr(n, m);
      if k > 0 { BitOrBits(n / 2, m / 2, k - 1); }
    }
  }

  // The n IDs from id + n - 1 down to id.
  function RangeDown(id: nat, n: nat): (r: seq<nat>)
    ensures |r| == n && forall k :: 0 <= k < n ==> r[k] == id + (n - 1 - k)
  {
    seq(n, k requires 0 <= k < n => id + (n - 1 - k))
  }

  ghost predicate IsDescending(s: seq<nat>) {
    forall x, y :: 0 <= x < y < |s| ==> s[x] >= s[y]
  }

  // Where an ID belongs in a descending list, counting from 1.
  ghost predicate PlaceDown(s: seq<nat>, id: nat, x: nat) {
    && 1 <= x <= |s| + 1
    && (id in s ==> x <= |s| && s[x - 1] == id)
    && (id !in s ==> (forall k :: 0 <= k < x - 1 ==> s[k] > id) && forall k :: x - 1 <= k < |s| ==> s[k] < id)
  }

  lemma Appended(t: seq<nat>, s: seq<nat>, b: seq<nat>)
    requires |s| + |b| < |t| && forall k :: 1 <= k <= |s| ==> t[k] == s[k - 1]
    requires forall k :: |s| < k <= |s| + |b| ==> t[k] == b[k - |s| - 1]
    ensures t[1..|s| + |b| + 1] == s + b
  {
  }

  class Idl {
    var ids: array<nat>

    // The allocated length, kept before element 0 in the original.
    function AllocLen(): int
      reads this
    {
      ids.Length - 1
    }

    ghost predicate Valid()
      reads this, ids
    {
      ids.Length > 0 && ids[0] < ids.Length
    }

    ghost function Contents(): (s: seq<nat>)
      requires Valid()
      reads this, ids
      ensures |s| == ids[0]
    {
      ids[1..ids[0] + 1]
    }

    // mdb_midl_alloc
    constructor (num: nat)
      ensures Valid() && Contents() == [] && AllocLen() == num && fresh(ids)
    {
      ids := new nat[num + 1](_ => 0);
    }

    // Room for `len` IDs in a new place, as realloc gives it.
    method Realloc(len: nat)
      requires Valid() && ids[0] <= len
      modifies this
      ensures Valid() && Contents() == old(Contents()) && AllocLen() == len && fresh(ids)
    {
      var to := new nat[len + 1];
      forall k | 0 <= k <= ids[0] { to[k] := ids[k]; }
      ids := to;
    }

    // mdb_midl_need
    method Need(num: nat)
      requires Valid() && NeedRoom(ids[0], num, AllocLen()) >= ids[0] + num
      modifies this
      ensures Valid() && Contents() == old(Contents()) && ids[0] == old(ids[0])
      ensures AllocLen() == NeedRoom(ids[0], num, old(AllocLen())) >= ids[0] + num
      ensures fresh(ids) || ids == old(ids)
    {
      var total := (num + ids[0]) % UINT;
      if total > AllocLen() {
        Realloc(NeedWords(total) - 2);
      }
    }

    // mdb_midl_append; a full list grows by `um` IDs.
    method Append(um: nat, id: nat)
      requires Valid() && um > 0
      modifies this, ids
      ensures Valid() && Contents() == old(Contents()) + [id]
      ensures AllocLen() == old(AllocLen()) + if |old(Contents())| < old(AllocLen()) then 0 else um
      ensures fresh(ids) || ids == old(ids)
    {
      if ids[0] >= AllocLen() {
        Realloc(AllocLen() + um);
      }
      ghost var s := Contents();
      ids[0] := ids[0] + 1;
      ids[ids[0]] := id;
      assert Contents()[..|s|] == s;
    }

    // mdb_midl_append_list
    method AppendList(app: Idl)
      requires Valid() && app.Valid() && app.ids != ids
      modifies this, ids
      ensures Valid() && Contents() == old(Contents()) + old(app.Contents())
      ensures AllocLen() == old(AllocLen()) + if |Contents()| < old(AllocLen()) then 0 else |old(app.Contents())|
      ensures fresh(ids) || ids == old(ids)
    {
      var from := app.ids;
      if ids[0] + from[0] >= AllocLen() {
        Realloc(AllocLen() + from[0]);
      }
      CopyFrom(from);
    }

    // memcpy of the other list's IDs
    method CopyFrom(from: array<nat>)
      requires Valid() && from != ids && from.Length > 0 && from[0] < from.Length && ids[0] + from[0] <= AllocLen()
      modifies ids
      ensures Valid() && Contents() == old(Contents()) + from[1..from[0] + 1]
    {
      ghost var s, b := Contents(), from[1..from[0] + 1];
      var len, count := ids[0], from[0];
      forall k | 1 <= k <= count { ids[len + k] := from[k]; }
      ids[0] := len + count;
      assert forall k :: len < k <= len + count ==> ids[k] == b[k - len - 1];
      ghost var t := ids[..];
      assert forall k :: 1 <= k <= len ==> t[k] == s[k - 1];
      assert forall k :: len < k <= len + count ==> t[k] == b[k - len - 1];
      Appended(t, s, b);
      assert ids[1..ids[0] + 1] == t[1..len + count + 1];
      assert from[1..from[0] + 1] == b;
    }

    // mdb_midl_append_range; a full list grows by at least `um` IDs.
    method AppendRange(um: nat, id: nat, n: nat)
      requires Valid()
      modifies this, ids
      ensures Valid() && Contents() == old(Contents()) + RangeDown(id, n)
      ensures AllocLen() == old(AllocLen()) + if |Contents()| <= old(AllocLen()) then 0 else BitOr(n, um)
      ensures fresh(ids) || ids == old(ids)
    {
      var len := ids[0];
      if len + n > AllocLen() {
        Realloc(AllocLen() + BitOr(n, um));
      }
      ghost var s, room := Contents(), AllocLen();
      ids[0] := len + n;
      var left, next := n, id;
      while left > 0
        invariant AllocLen() == room
        invariant 0 <= left <= n && next == id + (n - left) && len + n < ids.Length && ids[0] == len + n
        invariant ids == old(ids) || fresh(ids)
        invariant forall k :: 1 <= k <= len ==> ids[k] == s[k - 1]
        invariant forall k :: len + left < k <= len + n ==> ids[k] == id + (len + n - k)
      {
        ids[len + left] := next;
        left, next := left - 1, next + 1;
      }
      Appended(ids[..], s, RangeDown(id, n));
    }

    // mdb_midl_search: binary search of a descending list.
    method Search(id: nat) returns (x: nat)
      requires Valid() && IsDescending(Contents())
      ensures PlaceDown(Contents(), id, x)
    {
      ghost var s := Contents();
      var base, cursor, val, n := 0, 1, 0, ids[0];
      while n > 0
        invariant 0 <= base && 0 <= n && base + n <= |s| && 1 <= cursor <= |s| + 1
        invariant val == 0 ==> cursor == base + 1 && n == |s|
        invariant val < 0 ==> cursor == base + n + 1
        invariant val > 0 ==> cursor == base
        invariant forall k :: 0 <= k < base ==> s[k] > id
        invariant forall k :: base + n <= k < |s| ==> s[k] < id
      {
        var pivot := n / 2;
        cursor := base + pivot + 1;
        assert ids[cursor] == s[cursor - 1];
        val := if ids[cursor] < id then -1 else if ids[cursor] > id then 1 else 0;
        if val < 0 {
          n := pivot;
        } else if val > 0 {
          base, n := cursor, n - (pivot + 1);
        } else {
          return cursor;
        }
      }
      if val > 0 {
        cursor := cursor + 1;
      }
      x := cursor;
    }

    // mdb_midl_sort
    method SortIds()
      requires Valid() && ids[0] <= INT_MAX
      modifies ids
      ensures Valid() && IsDescending(Contents()) && multiset(Contents()) == multiset(old(Contents()))
    {
      ghost var s, n := ids[..], ids[0];
      Sort(ids, 1, ids[0]);
      SegmentIds(s, ids[..], 1, 1 + n);
    }
  }

  // --- Merging ----------------------------------------------------------

  // Elements 1..n of a counted array.
  function Listed(a: seq<nat>, n: nat): seq<nat>
    requires n < |a|
  {
    a[1..n + 1]
  }

  // The descending merge, built from the small ends of both lists.
  function MergeDown(s: seq<nat>, m: seq<nat>): (r: seq<nat>)
    ensures |r| == |s| + |m|
    decreases |s| + |m|
  {
    if m == [] then s
    else if s != [] && s[|s| - 1] < m[|m| - 1] then MergeDown(s[..|s| - 1], m) + [s[|s| - 1]]
    else MergeDown(s, m[..|m| - 1]) + [m[|m| - 1]]
  }

  // It is the multiset union of the two.
  lemma {:induction false} MergeIsUnion(s: seq<nat>, m: seq<nat>)
    ensures multiset(MergeDown(s, m)) == multiset(s) + multiset(m)
    decreases |s| + |m|
  {
    if m != [] {
      var s', m' := s[..|s| - (if s == [] then 0 else 1)], m[..|m| - 1];
      assert m == m' + [m[|m| - 1]];
      if s != [] && s[|s| - 1] < m[|m| - 1] {
        assert s == s' + [s[|s| - 1]];
        MergeIsUnion(s', m);
      } else {
        MergeIsUnion(s, m');
      }
    }
  }

  lemma DescendingInit(s: seq<nat>, n: nat)
    requires IsDescending(s) && n <= |s|
    ensures IsDescending(s[..n])
  {
  }

  // Adding an ID that is in neither list's rest but below all of both.
  lemma DescendingAppend(r: seq<nat>, s: seq<nat>, m: seq<nat>, id: nat)
    requires IsDescending(r) && multiset(r) == multiset(s) + multiset(m)
    requires (forall x :: 0 <= x < |s| ==> s[x] >= id) && (forall x :: 0 <= x < |m| ==> m[x] >= id)
    ensures IsDescending(r + [id])
  {
    forall x | 0 <= x < |r| ensures r[x] >= id {
      assert r[x] in multiset(r);
      assert r[x] in multiset(s) || r[x] in multiset(m);
    }
  }

  lemma {:induction false} MergeDescends(s: seq<nat>, m: seq<nat>)
    requires IsDescending(s) && IsDescending(m)
    ensures IsDescending(MergeDown(s, m))
    decreases |s| + |m|
  {
    if m != [] {
      DescendingInit(m, |m| - 1);
      if s != [] && s[|s| - 1] < m[|m| - 1] {
        DescendingInit(s, |s| - 1);
        MergeDescends(s[..|s| - 1], m);
        MergeIsUnion(s[..|s| - 1], m);
        DescendingAppend(MergeDown(s[..|s| - 1], m), s[..|s| - 1], m, s[|s| - 1]);
      } else {
        MergeDescends(s, m[..|m| - 1]);
        MergeIsUnion(s, m[..|m| - 1]);
        DescendingAppend(MergeDown(s, m[..|m| - 1]), s, m[..|m| - 1], m[|m| - 1]);
      }
    }
  }

  // The first j elements of s are in place, the end of the merge is done.
  ghost predicate MergeAt(s: seq<nat>, m: seq<nat>, t: seq<nat>, i: nat, j: nat) {
    && i <= |m| && j <= |s| && |t| > |s| + |m|
    && t[0] == ID_MAX && (forall x :: 0 < x <= j ==> t[x] == s[x - 1])
    && MergeDown(s, m) == MergeDown(s[..j], m[..i]) + t[i + j + 1..|s| + |m| + 1]
  }

  // The ID read at position j.
  lemma AtDelimiter(s: seq<nat>, m: seq<nat>, t: seq<nat>, i: nat, j: nat)
    requires MergeAt(s, m, t, i, j)
    ensures t[j] == if j == 0 then ID_MAX else s[j - 1]
  {
  }

  lemma MoveOld(s: seq<nat>, m: seq<nat>, t: seq<nat>, i: nat, j: nat)
    requires MergeAt(s, m, t, i, j) && i > 0 && j > 0 && s[j - 1] < m[i - 1]
    ensures MergeAt(s, m, t[i + j := s[j - 1]], i, j - 1)
  {
    var t' := t[i + j := s[j - 1]];
    assert t'[i + j..|s| + |m| + 1] == [s[j - 1]] + t[i + j + 1..|s| + |m| + 1];
    assert s[..j][..j - 1] == s[..j - 1];
  }

  lemma MoveNew(s: seq<nat>, m: seq<nat>, t: seq<nat>, i: nat, j: nat)
    requires MergeAt(s, m, t, i, j) && i > 0 && (j > 0 ==> s[j - 1] >= m[i - 1])
    ensures MergeAt(s, m, t[i + j := m[i - 1]], i - 1, j)
  {
    var t' := t[i + j := m[i - 1]];
    assert t'[i + j..|s| + |m| + 1] == [m[i - 1]] + t[i + j + 1..|s| + |m| + 1];
    assert m[..i][..i - 1] == m[..i - 1];
  }

  lemma MergeStarts(s: seq<nat>, m: seq<nat>, t: seq<nat>)
    requires |t| > |s| + |m| && Listed(t, |s|) == s
    ensures MergeAt(s, m, t[0 := ID_MAX], |m|, |s|)
  {
    assert s[..|s|] == s && m[..|m|] == m;
    assert forall x :: 0 < x <= |s| ==> t[x] == Listed(t, |s|)[x - 1];
  }

  lemma MergeEnds(s: seq<nat>, m: seq<nat>, t: seq<nat>, j: nat)
    requires MergeAt(s, m, t, 0, j)
    ensures Listed(t, |s| + |m|) == MergeDown(s, m)
  {
    var n := |s| + |m| + 1;
    NothingToMerge(s[..j], m[..0]);
    InPlace(s, t, j);
    SplitAt(t, 1, j + 1, n);
    assert Listed(t, |s| + |m|) == t[1..n];
  }

  lemma NothingToMerge(s: seq<nat>, m: seq<nat>)
    requires m == []
    ensures MergeDown(s, m) == s
  {
  }

  lemma InPlace(s: seq<nat>, t: seq<nat>, j: nat)
    requires j <= |s| && j < |t| && forall x :: 0 < x <= j ==> t[x] == s[x - 1]
    ensures t[1..j + 1] == s[..j]
  {
  }

  lemma SplitAt(t: seq<nat>, a: nat, b: nat, c: nat)
    requires a <= b <= c <= |t|
    ensures t[a..c] == t[a..b] + t[b..c]
  {
  }

  // mdb_midl_xmerge of the list at merge[mo..] into idl, which has room for
  // both. The two may share an array when the other list lies beyond the room
  // needed for the result.
  method XMerge(idl: array<nat>, merge: array<nat>, mo: nat)
    requires mo < merge.Length && mo + merge[mo] < merge.Length && idl.Length > 0 && idl[0] + merge[mo] < idl.Length
    requires idl == merge ==> idl[0] + merge[mo] <= mo
    requires forall x :: mo < x <= mo + merge[mo] ==> merge[x] <= ID_MAX
    modifies idl
    ensures idl[0] == old(idl[0] + merge[mo])
    ensures Listed(idl[..], idl[0]) == MergeDown(old(Listed(idl[..], idl[0])), old(merge[mo + 1..mo + 1 + merge[mo]]))
    ensures forall x :: idl[0] < x < idl.Length ==> idl[x] == old(idl[x])
  {
    ghost var s, m := Listed(idl[..], idl[0]), merge[mo + 1..mo + 1 + merge[mo]];
    var total := idl[0] + merge[mo];
    assert forall x :: mo < x <= mo + |m| ==> merge[x] == m[x - mo - 1];
    MergeStarts(s, m, idl[..]);
    MergeBackward(idl, merge, mo, s, m);
    ghost var t := idl[..];
    idl[0] := total;
    assert Listed(idl[..], total) == Listed(t, total);
  }

  // The delimiter and the scan from the ends of both lists.
  method MergeBackward(idl: array<nat>, merge: array<nat>, mo: nat, ghost s: seq<nat>, ghost m: seq<nat>)
    requires mo + |m| < merge.Length && merge[mo] == |m| && |s| + |m| < idl.Length && idl[0] == |s|
    requires idl == merge ==> |s| + |m| <= mo
    requires forall x :: mo < x <= mo + |m| ==> merge[x] == m[x - mo - 1] && merge[x] <= ID_MAX
    requires MergeAt(s, m, idl[..][0 := ID_MAX], |m|, |s|)
    modifies idl
    ensures Listed(idl[..], |s| + |m|) == MergeDown(s, m)
    ensures forall x :: |s| + |m| < x < idl.Length ==> idl[x] == old(idl[x])
  {
    var i, j := merge[mo], idl[0];
    var k := i + j;
    ghost var t := idl[..];
    idl[0] := ID_MAX;
    assert idl[..] == t[0 := ID_MAX];
    var id := idl[j];
    while i > 0
      invariant 0 <= i <= |m| && 0 <= j <= |s| && k == i + j && id == idl[j]
      invariant MergeAt(s, m, idl[..], i, j)
      invariant forall x :: mo < x <= mo + |m| ==> merge[x] == m[x - mo - 1]
      invariant forall x :: |s| + |m| < x < idl.Length ==> idl[x] == t[x]
    {
      var mergeId := merge[mo + i];
      j, k, id := PlaceOne(idl, s, m, i, j, mergeId);
      i := i - 1;
    }
    MergeEnds(s, m, idl[..], j);
  }

  // One ID of the other list: the smaller IDs move up, then it is placed.
  method PlaceOne(idl: array<nat>, ghost s: seq<nat>, ghost m: seq<nat>, i: nat, j0: nat, mergeId: nat)
    returns (j: nat, k: nat, id: nat)
    requires MergeAt(s, m, idl[..], i, j0) && 0 < i && mergeId == m[i - 1] <= ID_MAX
    modifies idl
    ensures j <= j0 && k == i - 1 + j && id == idl[j] && MergeAt(s, m, idl[..], i - 1, j)
    ensures forall x :: i + j0 < x < idl.Length ==> idl[x] == old(idl[x])
  {
    j, k, id := ShiftOld(idl, s, m, i, j0, mergeId);
    MoveNew(s, m, idl[..], i, j);
    ghost var t := idl[..];
    idl[k] := mergeId;
    assert idl[..] == t[k := mergeId];
    k := k - 1;
  }

  method ShiftOld(idl: array<nat>, ghost s: seq<nat>, ghost m: seq<nat>, i: nat, j0: nat, mergeId: nat)
    returns (j: nat, k: nat, id: nat)
    requires MergeAt(s, m, idl[..], i, j0) && 0 < i && mergeId == m[i - 1] <= ID_MAX
    modifies idl
    ensures j <= j0 && k == i + j && id == idl[j] && MergeAt(s, m, idl[..], i, j)
    ensures j > 0 ==> s[j - 1] >= mergeId
    ensures forall x :: i + j0 < x < idl.Length ==> idl[x] == old(idl[x])
  {
    j, k, id := j0, i + j0, idl[j0];
    while id < mergeId
      invariant j <= j0 && k == i + j && id == idl[j] && MergeAt(s, m, idl[..], i, j)
      invariant forall x :: i + j0 < x < idl.Length ==> idl[x] == old(idl[x])
      decreases j
    {
      AtDelimiter(s, m, idl[..], i, j);
      MoveOld(s, m, idl[..], i, j);
      ghost var t := idl[..];
      idl[k] := id;
      assert idl[..] == t[k := id];
      j, k := j - 1, k - 1;
      id := idl[j];
    }
    AtDelimiter(s, m, idl[..], i, j);
  }

  // --- Loose pages at commit --------------------------------------------

  // Return the loose page numbers to me_pghead: they are gathered in a second
  // list at the end of the same array, sorted there and merged.
  method MergeLoose(mop: Idl, loose: seq<nat>)
    requires mop.Valid() && IsDescending(mop.Contents()) && |loose| <= INT_MAX
    requires NeedRoom(mop.ids[0], 2 * |loose| + 1, mop.AllocLen()) >= mop.ids[0] + 2 * |loose| + 1
    requires forall x :: 0 <= x < |loose| ==> loose[x] <= ID_MAX
    modifies mop, mop.ids
    ensures mop.Valid() && IsDescending(mop.Contents())
    ensures multiset(mop.Contents()) == multiset(old(mop.Contents())) + multiset(loose)
  {
    mop.Need(2 * |loose| + 1);
    ghost var s := Listed(mop.ids[..], mop.ids[0]);
    assert s == old(mop.Contents());
    MergeLooseAt(mop.ids, mop.AllocLen() - |loose|, loose);
    assert mop.Contents() == Listed(mop.ids[..], mop.ids[0]);
  }

  method MergeLooseAt(ids: array<nat>, at: nat, loose: seq<nat>)
    requires at + |loose| < ids.Length && ids[0] + |loose| < at && |loose| <= INT_MAX
    requires IsDescending(Listed(ids[..], ids[0])) && forall x :: 0 <= x < |loose| ==> loose[x] <= ID_MAX
    modifies ids
    ensures ids[0] == old(ids[0]) + |loose| && ids[0] < ids.Length && IsDescending(Listed(ids[..], ids[0]))
    ensures multiset(Listed(ids[..], ids[0])) == multiset(old(Listed(ids[..], ids[0]))) + multiset(loose)
  {
    ghost var s := Listed(ids[..], ids[0]);
    GatherAt(ids, at, loose);
    SortTail(ids, at, loose);
    assert Listed(ids[..], ids[0]) == s;
    ghost var m := ids[at + 1..at + 1 + ids[at]];
    assert multiset(m) == multiset(loose);
    MergeTail(ids, at);
  }

  method GatherAt(ids: array<nat>, at: nat, loose: seq<nat>)
    requires at + |loose| < ids.Length
    modifies ids
    ensures forall k :: 0 <= k < at ==> ids[k] == old(ids[k])
    ensures ids[at] == |loose| && ids[at + 1..at + 1 + |loose|] == loose
  {
    forall k | 0 <= k < |loose| { ids[at + 1 + k] := loose[k]; }
    ids[at] := |loose|;
  }

  method SortTail(ids: array<nat>, at: nat, ghost loose: seq<nat>)
    requires at + |loose| < ids.Length && ids[at] == |loose| <= INT_MAX && ids[at + 1..at + 1 + |loose|] == loose
    requires forall x :: 0 <= x < |loose| ==> loose[x] <= ID_MAX
    modifies ids
    ensures forall k :: 0 <= k <= at ==> ids[k] == old(ids[k])
    ensures multiset(ids[at + 1..at + 1 + |loose|]) == multiset(loose)
    ensures IsDescending(ids[at + 1..at + 1 + |loose|])
    ensures forall x :: at < x <= at + |loose| ==> ids[x] <= ID_MAX
  {
    ghost var was := ids[..];
    Sort(ids, at + 1, ids[at]);
    SortedTail(was, ids[..], at, loose);
  }

  method MergeTail(ids: array<nat>, at: nat)
    requires at < ids.Length && at + ids[at] < ids.Length && ids[0] + ids[at] <= at
    requires IsDescending(Listed(ids[..], ids[0])) && IsDescending(ids[at + 1..at + 1 + ids[at]])
    requires forall x :: at < x <= at + ids[at] ==> ids[x] <= ID_MAX
    modifies ids
    ensures ids[0] == old(ids[0] + ids[at]) && IsDescending(Listed(ids[..], ids[0]))
    ensures multiset(Listed(ids[..], ids[0])) ==
      multiset(old(Listed(ids[..], ids[0]))) + multiset(old(ids[at + 1..at + 1 + ids[at]]))
  {
    ghost var s, m := Listed(ids[..], ids[0]), ids[at + 1..at + 1 + ids[at]];
    XMerge(ids, ids, at);
    MergeIsUnion(s, m);
    MergeDescends(s, m);
  }

  lemma SortedTail(was: seq<nat>, now: seq<nat>, at: nat, loose: seq<nat>)
    requires at + 1 + |loose| <= |was| && was[at + 1..at + 1 + |loose|] == loose
    requires Permuted(was, now, at + 1, at + 1 + |loose|) && Descending(now, at + 1, at + |loose|)
    requires forall x :: 0 <= x < |loose| ==> loose[x] <= ID_MAX
    ensures multiset(now[at + 1..at + 1 + |loose|]) == multiset(loose)
    ensures IsDescending(now[at + 1..at + 1 + |loose|])
    ensures forall x :: at < x <= at + |loose| ==> now[x] <= ID_MAX
  {
    var m := now[at + 1..at + 1 + |loose|];
    SegmentIds(was, now, at + 1, at + 1 + |loose|);
    forall x | at < x <= at + |loose| ensures now[x] <= ID_MAX {
      assert m[x - at - 1] in multiset(loose);
    }
  }

  // --- Ascending lists with pointers ------------------------------------

  // ID2: an ID and a pointer.
  datatype Id2<P> = Id2(mid: nat, mptr: P)

  ghost predicate Ascending<P>(s: seq<Id2<P>>) {
    forall x, y :: 0 <= x < y < |s| ==> s[x].mid < s[y].mid
  }

  ghost predicate HasId<P>(s: seq<Id2<P>>, id: nat) {
    exists x :: 0 <= x < |s| && s[x].mid == id
  }

  // Where an ID belongs in an ascending list, counting from 1.
  ghost predicate PlaceUp<P>(s: seq<Id2<P>>, id: nat, x: nat) {
    && 1 <= x <= |s| + 1
    && (HasId(s, id) ==> x <= |s| && s[x - 1].mid == id)
    && (!HasId(s, id) ==> (forall k :: 0 <= k < x - 1 ==> s[k].mid < id) && forall k :: x - 1 <= k < |s| ==> s[k].mid > id)
  }

  ghost predicate InsertedIn<P>(s: seq<Id2<P>>, t: seq<Id2<P>>, id: Id2<P>) {
    exists x :: 0 <= x <= |s| && t == s[..x] + [id] + s[x..]
  }

  lemma InsertedOrder<P>(s: seq<Id2<P>>, id: Id2<P>, x: nat)
    requires Ascending(s) && PlaceUp(s, id.mid, x) && !HasId(s, id.mid)
    ensures var t := s[..x - 1] + [id] + s[x - 1..]; Ascending(t) && InsertedIn(s, t, id)
  {
  }

  // An ID2L, whose room is fixed; element 0 counts the others.
  class Id2l<P(0)> {
    const ids: array<Id2<P>>

    ghost predicate Valid()
      reads this, ids
    {
      ids.Length > 0 && ids[0].mid < ids.Length
    }

    ghost function Contents(): (s: seq<Id2<P>>)
      requires Valid()
      reads this, ids
      ensures |s| == ids[0].mid
    {
      ids[1..ids[0].mid + 1]
    }

    constructor (max: nat, none: P)
      ensures Valid() && Contents() == [] && ids.Length == max + 1 && fresh(ids)
    {
      ids := new Id2<P>[max + 1](_ => Id2(0, none));
    }

    // mdb_mid2l_search: binary search of an ascending list.
    method Search(id: nat) returns (x: nat)
      requires Valid() && Ascending(Contents())
      ensures PlaceUp(Contents(), id, x)
    {
      ghost var s := Contents();
      var base, cursor, val, n := 0, 1, 0, ids[0].mid;
      while n > 0
        invariant 0 <= base && 0 <= n && base + n <= |s| && 1 <= cursor <= |s| + 1
        invariant val == 0 ==> cursor == base + 1 && n == |s|
        invariant val < 0 ==> cursor == base + n + 1
        invariant val > 0 ==> cursor == base
        invariant forall k :: 0 <= k < base ==> s[k].mid < id
        invariant forall k :: base + n <= k < |s| ==> s[k].mid > id
      {
        var pivot := n / 2;
        cursor := base + pivot + 1;
        assert ids[cursor] == s[cursor - 1];
        val := if id < ids[cursor].mid then -1 else if id > ids[cursor].mid then 1 else 0;
        if val < 0 {
          n := pivot;
        } else if val > 0 {
          base, n := cursor, n - (pivot + 1);
        } else {
          return cursor;
        }
      }
      if val > 0 {
        cursor := cursor + 1;
      }
      x := cursor;
    }

    // mdb_mid2l_insert: -1 for a duplicate, -2 when the list is full, both
    // without a change.
    method Insert(id: Id2<P>) returns (rc: int)
      requires Valid() && Ascending(Contents())
      modifies ids
      ensures Valid() && Ascending(Contents())
      ensures rc == if HasId(old(Contents()), id.mid) then -1 else if |old(Contents())| >= ids.Length - 1 then -2 else 0
      ensures rc != 0 ==> Contents() == old(Contents())
      ensures rc == 0 ==> InsertedIn(old(Contents()), Contents(), id)
    {
      ghost var s := Contents();
      var x := Search(id.mid);
      if x <= ids[0].mid && ids[x].mid == id.mid {
        assert s[x - 1].mid == id.mid;
        return -1;
      }
      assert !HasId(s, id.mid) by { assert x <= |s| ==> ids[x] == s[x - 1]; }
      if ids[0].mid >= ids.Length - 1 {
        return -2;
      }
      InsertAt(x, id);
      InsertedOrder(s, id, x);
      rc := 0;
    }

    method InsertAt(x: nat, id: Id2<P>)
      requires Valid() && 1 <= x <= ids[0].mid + 1 < ids.Length
      modifies ids
      ensures Valid() && Contents() == old(Contents())[..x - 1] + [id] + old(Contents())[x - 1..]
    {
      ghost var s := Contents();
      OpenAt(x);
      ids[x] := id;
      ghost var t := s[..x - 1] + [id] + s[x - 1..];
      forall k | 0 <= k < |t| ensures t[k] == Contents()[k] {
        assert Contents()[k] == ids[k + 1];
      }
      assert Contents() == t;
    }

    // Count one more and move the elements from x on up one place.
    method OpenAt(x: nat)
      requires Valid() && 1 <= x <= ids[0].mid + 1 < ids.Length
      modifies ids
      ensures ids[0].mid == old(ids[0].mid) + 1 && Valid()
      ensures forall k :: 1 <= k < x ==> ids[k] == old(Contents())[k - 1]
      ensures forall k :: x < k <= ids[0].mid ==> ids[k] == old(Contents())[k - 2]
    {
      ghost var s := Contents();
      ids[0] := ids[0].(mid := ids[0].mid + 1);
      var i := ids[0].mid;
      while i > x
        invariant x <= i <= ids[0].mid == |s| + 1
        invariant forall k :: 1 <= k <= i && k <= |s| ==> ids[k] == s[k - 1]
        invariant forall k :: i < k <= |s| + 1 ==> ids[k] == s[k - 2]
      {
        ids[i] := ids[i - 1];
        i := i - 1;
      }
    }
  }
}
