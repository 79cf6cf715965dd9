// mdb_freelist_save in liblmdb/src/mdb.c. Saving the free list changes it:
// every put into the freeDB may take pages from me_pghead, consume further
// records into it, and retire pages. The loop therefore goes on until the room
// it has reserved in records of the freeDB suffices.

module FreelistSave {
  import opened Lifecycle
  import FreeRuns
  import Idls

  // The variables of the loop, and the freeDB below the records not consumed:
  // consumed records up to `gone` have been deleted, and rooms are the sizes
  // of the records reserved since, with keys up to and including `gone`.
  datatype Save = Save(
    gone: Txnid, rooms: seq<nat>,
    pglast: Txnid, headId: Txnid, headRoom: int, totalRoom: int,
    freeCnt: nat, stored: set<Pgno>, more: int)

  const Start := Save(0, [], 0, 0, 0, 0, 0, {}, 1)

  // Key of the lowest reserved record.
  function Low(v: Save): int { v.gone - |v.rooms| + 1 }

  // me_pghead and the loose pages.
  function MopLen(t: Txn): nat { |t.pghead| + |t.loose| }

  // --- The freeDB meanwhile ---------------------------------------------

  predicate RoomKey(v: Save, k: Txnid) { Low(v) <= k <= v.gone }

  ghost predicate InFreeDb(v: Save, t: Txn, n: Txnid, k: Txnid) {
    || RoomKey(v, k)
    || (v.gone < k && k in t.recs)
    || (k == n && 0 < v.freeCnt)
  }

  // mdb_cursor_first
  ghost predicate FirstKey(v: Save, t: Txn, n: Txnid, k: Txnid) {
    InFreeDb(v, t, n, k) && forall q :: InFreeDb(v, t, n, q) ==> k <= q
  }

  // --- One turn of the loop ---------------------------------------------

  datatype Turn =
    | Delete(key: Txnid)   // of a consumed record, or of what was reserved before it was consumed
    | PutFree              // mt_free_pgs as the record of this transaction
    | Reserve              // (re)write the record with key headId

  ghost predicate Caught(v: Save, t: Txn) { t.pglast <= v.pglast && |t.freePgs| <= v.freeCnt }

  // The two ways out: the room is exact, or it has been too large twice.
  predicate Enough(v: Save, t: Txn) {
    v.totalRoom == MopLen(t) || (v.totalRoom > MopLen(t) && v.more <= 0)
  }

  ghost predicate CanTurn(v: Save, t: Txn, n: Txnid, turn: Turn) {
    match turn
    case Delete(k) => v.pglast < t.pglast && FirstKey(v, t, n, k)
    case PutFree => t.pglast <= v.pglast && v.freeCnt < |t.freePgs|
    case Reserve => Caught(v, t) && !Enough(v, t)
  }

  // A full head record is kept, and a new one goes below it.
  predicate NewHead(v: Save, mopLen: nat, maxfree: nat) {
    v.totalRoom < mopLen && v.headRoom >= maxfree && v.headId > 1
  }

  // Room for the record `id`, when `need` IDs are still without.
  function HeadRoom(need: int, id: Txnid, maxfree: nat): (room: nat)
    ensures need <= maxfree || id <= 1 ==> room >= need
    ensures need > maxfree && id > 1 ==> room >= maxfree
  {
    if need > maxfree && id > 1 then
      var part := need / id;
      part + maxfree - part % (maxfree + 1)
    else if need < 0 then 0
    else need
  }

  lemma FilledPages(part: nat, m: nat)
    requires 0 < m
    ensures part + (m - 1) - part % m + 1 == (part / m + 1) * m
  {
    assert part == part / m * m + part % m;
  }

  // The room of a record: just what is needed, or, of what takes more than a
  // page and has `id` keys to go to, an equal share, rounded up to whole pages.
  lemma HeadRoomIs(need: int, id: Txnid, maxfree: nat)
    ensures var room := HeadRoom(need, id, maxfree);
      if need <= maxfree || id <= 1 then room == if need < 0 then 0 else need
      else need / id <= room && room + 1 == (need / id / (maxfree + 1) + 1) * (maxfree + 1)
  {
    if need > maxfree && id > 1 { FilledPages(need / id, maxfree + 1); }
  }

  function Reserved(v: Save, mopLen: nat, maxfree: nat): Save
  {
    var down := NewHead(v, mopLen, maxfree);
    var id, was := if down then v.headId - 1 else v.headId, if down then 0 else v.headRoom;
    var kept := v.totalRoom - was;
    var room := HeadRoom(mopLen - kept, id, maxfree);
    v.(headId := id, headRoom := room, totalRoom := kept + room,
       rooms := if v.rooms == [] || down then [room] + v.rooms else v.rooms[0 := room],
       more := if v.totalRoom > mopLen then v.more - 1 else v.more)
  }

  function AfterTurn(v: Save, t: Txn, maxfree: nat, turn: Turn): Save
  {
    match turn
    case Delete(k) =>
      v.(pglast := k, headId := k, headRoom := 0, totalRoom := 0,
         rooms := if v.rooms == [] then [] else v.rooms[1..], gone := if v.rooms == [] then k else v.gone)
    case PutFree => v.(freeCnt := |t.freePgs|, stored := t.freePgs)
    case Reserve => Reserved(v, MopLen(t), maxfree)
  }

  // --- What every turn keeps --------------------------------------------

  // The loop's idea of the room agrees with the records.
  ghost predicate Settled(v: Save) {
    && v.pglast == v.gone && v.headId == (if v.rooms == [] then v.gone else Low(v))
    && v.totalRoom == FreeRuns.Room(v.rooms) && v.headRoom == (if v.rooms == [] then 0 else v.rooms[0])
  }

  // In the middle of deleting what was reserved.
  ghost predicate Deleting(v: Save) {
    v.pglast == Low(v) - 1 < v.gone
  }

  ghost predicate SaveInv(v: Save, t: Txn) {
    && (t.pglast == 0 || t.pglast in t.recs) && (t.pglast == 0 ==> t.pghead == {} && t.loose == {})
    && v.gone <= t.pglast && |v.rooms| <= v.gone && 0 !in t.recs
    && (Settled(v) || Deleting(v))
    && v.stored <= t.freePgs && |v.stored| == v.freeCnt
  }

  lemma StartInv(t: Txn)
    requires (t.pglast == 0 || t.pglast in t.recs) && (t.pglast == 0 ==> t.pghead == {} && t.loose == {}) && 0 !in t.recs
    ensures SaveInv(Start, t)
  {
  }

  // The assertion after mdb_cursor_first: what is deleted had been consumed.
  lemma DeletesConsumed(v: Save, t: Txn, n: Txnid, k: Txnid)
    requires SaveInv(v, t) && CanTurn(v, t, n, Delete(k)) && t.pglast < n
    ensures k <= t.pglast
    ensures if v.rooms == [] then v.gone < k && k in t.recs else k == Low(v)
  {
    assert InFreeDb(v, t, n, t.pglast);
    if v.rooms != [] { assert InFreeDb(v, t, n, Low(v)); }
  }

  // No record is ever reserved with the key 0.
  lemma HeadPositive(v: Save, t: Txn)
    requires SaveInv(v, t) && Caught(v, t) && !Enough(v, t)
    ensures Settled(v) && v.gone == t.pglast && 0 < v.headId
  {
  }

  lemma DeleteKeeps(v: Save, t: Txn, n: Txnid, k: Txnid, maxfree: nat)
    requires SaveInv(v, t) && CanTurn(v, t, n, Delete(k)) && n !in t.recs && t.pglast < n
    ensures SaveInv(AfterTurn(v, t, maxfree, Delete(k)), t)
  {
    DeletesConsumed(v, t, n, k);
  }

  lemma RoomHead(lens: seq<nat>, room: nat)
    ensures FreeRuns.Room([room] + lens) == room + FreeRuns.Room(lens)
    ensures lens != [] ==> FreeRuns.Room(lens[0 := room]) == FreeRuns.Room(lens) - lens[0] + room
  {
    assert ([room] + lens)[1..] == lens;
    if lens != [] { assert lens[0 := room][1..] == lens[1..]; }
  }

  lemma ReserveKeeps(v: Save, t: Txn, maxfree: nat)
    requires SaveInv(v, t) && Caught(v, t) && !Enough(v, t) && 0 < maxfree
    ensures 0 < v.headId && SaveInv(Reserved(v, MopLen(t), maxfree), t)
  {
    HeadPositive(v, t);
    RoomHead(v.rooms, Reserved(v, MopLen(t), maxfree).headRoom);
  }

  lemma TurnKeeps(v: Save, t: Txn, n: Txnid, maxfree: nat, turn: Turn)
    requires SaveInv(v, t) && CanTurn(v, t, n, turn) && n !in t.recs && t.pglast < n && 0 < maxfree
    ensures SaveInv(AfterTurn(v, t, maxfree, turn), t)
  {
    match turn
    case Delete(k) => DeleteKeeps(v, t, n, k, maxfree);
    case PutFree =>
    case Reserve => ReserveKeeps(v, t, maxfree);
  }

  // The allocations and frees of the puts and deletes. On the freeDB nothing
  // becomes loose.
  lemma MoveKeeps(v: Save, t: Txn, step: Step)
    requires SaveInv(v, t) && Enabled(t, step) && !step.Loosen?
    ensures SaveInv(v, Apply(t, step))
  {
  }

  // --- The end of the loop ----------------------------------------------

  lemma SubsetAll(a: set<Pgno>, b: set<Pgno>)
    requires a <= b && |b| <= |a|
    ensures a == b
  {
    var rest := b - a;
    assert b == a + rest;
    assert |b| == |a| + |rest|;
  }

  // When the loop ends, everything consumed has been deleted, mt_free_pgs is
  // stored whole, and the reserved records have room for me_pghead and the
  // loose pages.
  lemma RoomSuffices(v: Save, t: Txn)
    requires SaveInv(v, t) && Caught(v, t) && Enough(v, t)
    ensures v.gone == t.pglast && v.stored == t.freePgs && FreeRuns.Room(v.rooms) >= MopLen(t)
  {
    SubsetAll(v.stored, t.freePgs);
  }

  // The records other than the one a turn writes. It begins a new one if they are
  // too small together, the lowest of them fills a page, and a key is left below.
  ghost function Others(v: Save, t: Txn, maxfree: nat): seq<nat> {
    if v.rooms == [] || (FreeRuns.Room(v.rooms) < MopLen(t) && maxfree <= v.rooms[0] && |v.rooms| < t.pglast)
    then v.rooms else v.rooms[1..]
  }

  // A turn that reserves leaves all records but the lowest alone, and gives that
  // one what the others lack.
  lemma ReserveFits(v: Save, t: Txn, maxfree: nat)
    requires SaveInv(v, t) && Caught(v, t) && !Enough(v, t) && 0 < maxfree
    ensures var u, others := Reserved(v, MopLen(t), maxfree), Others(v, t, maxfree);
      var lacking, low := MopLen(t) - FreeRuns.Room(others), t.pglast - |others|;
      && 0 < low && u.rooms == [HeadRoom(lacking, low, maxfree)] + others && Low(u) == low
      && (lacking <= maxfree || low == 1 ==> u.totalRoom == if lacking < 0 then FreeRuns.Room(others) else MopLen(t))
  {
    HeadPositive(v, t);
    ReserveKeeps(v, t, maxfree);
    var others := Others(v, t, maxfree);
    HeadRoomIs(MopLen(t) - FreeRuns.Room(others), t.pglast - |others|, maxfree);
    if v.rooms != [] {
      RoomHead(v.rooms[1..], v.rooms[0]);
      assert v.rooms == [v.rooms[0]] + v.rooms[1..];
    }
  }

  // The first time the room is too large the lowest record is made smaller; if
  // the room is then not too small, that is the end of it.
  lemma TooLargeOnce(v: Save, t: Txn, n: Txnid, maxfree: nat)
    requires SaveInv(v, t) && Caught(v, t) && v.totalRoom > MopLen(t) && v.more == 1 && 0 < maxfree
    ensures CanTurn(v, t, n, Reserve)
    ensures var u := AfterTurn(v, t, maxfree, Reserve); u.headId == v.headId && (u.totalRoom >= MopLen(t) ==> Enough(u, t))
  {
    HeadPositive(v, t);
  }

  // Turns of the loop in which nothing else moves.
  function Quiet(v: Save, mopLen: nat, maxfree: nat, turns: nat): Save
    decreases turns
  {
    if turns == 0 then v else Quiet(Reserved(v, mopLen, maxfree), mopLen, maxfree, turns - 1)
  }

  // One reservation is enough, or it fills its record and leaves the rest to a
  // record with a smaller key.
  lemma ReserveReaches(v: Save, t: Txn, maxfree: nat)
    requires SaveInv(v, t) && Caught(v, t) && !Enough(v, t) && 0 < maxfree
    ensures var u, mopLen := Reserved(v, MopLen(t), maxfree), MopLen(t);
      u.totalRoom >= mopLen || (NewHead(u, mopLen, maxfree) && (v.totalRoom < mopLen && v.headRoom >= maxfree ==> u.headId < v.headId))
  {
    HeadPositive(v, t);
  }

  // Once the puts move no more pages, the loop ends.
  lemma {:induction false} QuietEnds(v: Save, t: Txn, maxfree: nat)
    returns (turns: nat)
    requires SaveInv(v, t) && Caught(v, t) && 0 < maxfree
    ensures Enough(Quiet(v, MopLen(t), maxfree, turns), t)
    decreases if v.more < 0 then 0 else v.more, v.totalRoom < MopLen(t), v.headId + (if v.headRoom < maxfree then 1 else 0)
  {
    if Enough(v, t) {
      turns := 0;
    } else {
      ReserveReaches(v, t, maxfree);
      ReserveKeeps(v, t, maxfree);
      HeadPositive(v, t);
      turns := QuietEnds(Reserved(v, MopLen(t), maxfree), t, maxfree);
      turns := turns + 1;
    }
  }

  // A run of the loop: what it knew and what the transaction had before each
  // turn. Between turns anything may have happened to the transaction.
  ghost predicate LoopRun(vs: seq<Save>, ts: seq<Txn>, turns: seq<Turn>, n: Txnid, maxfree: nat) {
    && |vs| == |turns| + 1 && |ts| == |turns| && vs[0] == Start
    && forall i :: 0 <= i < |turns| ==> LoopTurn(vs, ts, turns, n, maxfree, i)
  }

  ghost predicate LoopTurn(vs: seq<Save>, ts: seq<Txn>, turns: seq<Turn>, n: Txnid, maxfree: nat, i: nat)
    requires |vs| == |turns| + 1 && |ts| == |turns| && i < |turns|
  {
    CanTurn(vs[i], ts[i], n, turns[i]) && vs[i + 1] == AfterTurn(vs[i], ts[i], maxfree, turns[i])
  }

  // The i-th turn rewrites a record because the room was too large.
  ghost predicate Shrinks(vs: seq<Save>, ts: seq<Txn>, turns: seq<Turn>, i: nat) {
    i < |turns| && i < |vs| && i < |ts| && turns[i].Reserve? && vs[i].totalRoom > MopLen(ts[i])
  }

  lemma {:induction false} MoreIsLeft(vs: seq<Save>, ts: seq<Txn>, turns: seq<Turn>, n: Txnid, maxfree: nat, k: nat)
    requires LoopRun(vs, ts, turns, n, maxfree) && k < |vs|
    ensures vs[k].more <= 1 && (vs[k].more == 1 <==> forall i :: 0 <= i < k ==> !Shrinks(vs, ts, turns, i))
    decreases k
  {
    if k > 0 {
      MoreIsLeft(vs, ts, turns, n, maxfree, k - 1);
      assert LoopTurn(vs, ts, turns, n, maxfree, k - 1);
      assert vs[k].more == vs[k - 1].more - if Shrinks(vs, ts, turns, k - 1) then 1 else 0;
    }
  }

  // Room that is too large ends the loop if and only if a record has been
  // rewritten before because of too much room.
  lemma EndsTooLarge(vs: seq<Save>, ts: seq<Txn>, turns: seq<Turn>, n: Txnid, maxfree: nat, t: Txn)
    requires LoopRun(vs, ts, turns, n, maxfree)
    requires vs[|turns|].totalRoom > MopLen(t)
    ensures Enough(vs[|turns|], t) <==> exists i :: Shrinks(vs, ts, turns, i)
  {
    MoreIsLeft(vs, ts, turns, n, maxfree, |turns|);
  }

  // --- The loop ends from wherever it is --------------------------------

  // The turns lead to the end of the loop when the puts move no pages.
  ghost predicate Ends(v: Save, t: Txn, n: Txnid, maxfree: nat, turns: seq<Turn>)
    decreases turns
  {
    if turns == [] then Caught(v, t) && Enough(v, t)
    else CanTurn(v, t, n, turns[0]) && Ends(AfterTurn(v, t, maxfree, turns[0]), t, n, maxfree, turns[1..])
  }

  lemma EndsCons(v: Save, t: Txn, n: Txnid, maxfree: nat, turn: Turn, turns: seq<Turn>)
    requires CanTurn(v, t, n, turn) && Ends(AfterTurn(v, t, maxfree, turn), t, n, maxfree, turns)
    ensures Ends(v, t, n, maxfree, [turn] + turns)
  {
    assert ([turn] + turns)[1..] == turns;
  }

  lemma {:induction false} QuietTurns(v: Save, t: Txn, n: Txnid, maxfree: nat, count: nat) returns (turns: seq<Turn>)
    requires Caught(v, t) && Enough(Quiet(v, MopLen(t), maxfree, count), t)
    ensures Ends(v, t, n, maxfree, turns)
    decreases count
  {
    turns := [];
    if !Enough(v, t) {
      turns := QuietTurns(Reserved(v, MopLen(t), maxfree), t, n, maxfree, count - 1);
      EndsCons(v, t, n, maxfree, Reserve, turns);
      turns := [Reserve] + turns;
    }
  }

  lemma {:induction false} LeastKey(v: Save, t: Txn, n: Txnid, k: Txnid) returns (first: Txnid)
    requires InFreeDb(v, t, n, k)
    ensures FirstKey(v, t, n, first)
    decreases k
  {
    first := k;
    if q: Txnid :| q < k && InFreeDb(v, t, n, q) { first := LeastKey(v, t, n, q); }
  }

  // From any point the loop has a way to its end: it deletes what has been
  // consumed, stores mt_free_pgs, and reserves.
  lemma {:induction false} SaveFinishes(v: Save, t: Txn, n: Txnid, maxfree: nat) returns (turns: seq<Turn>)
    requires SaveInv(v, t) && 0 < maxfree && t.pglast < n && n !in t.recs
    ensures Ends(v, t, n, maxfree, turns)
    decreases |v.rooms| + t.pglast - v.gone, |t.freePgs| - v.freeCnt
  {
    if v.pglast < t.pglast {
      assert InFreeDb(v, t, n, t.pglast);
      var k := LeastKey(v, t, n, t.pglast);
      DeletesConsumed(v, t, n, k);
      DeleteKeeps(v, t, n, k, maxfree);
      turns := SaveFinishes(AfterTurn(v, t, maxfree, Delete(k)), t, n, maxfree);
      EndsCons(v, t, n, maxfree, Delete(k), turns);
      turns := [Delete(k)] + turns;
    } else if v.freeCnt < |t.freePgs| {
      turns := SaveFinishes(AfterTurn(v, t, maxfree, PutFree), t, n, maxfree);
      EndsCons(v, t, n, maxfree, PutFree, turns);
      turns := [PutFree] + turns;
    } else {
      var count := QuietEnds(v, t, maxfree);
      turns := QuietTurns(v, t, n, maxfree, count);
    }
  }

  // --- Filling the records ----------------------------------------------

  // mop is me_pghead with the loose pages merged in.
  ghost predicate Lists(mop: seq<Pgno>, t: Txn) {
    FreeRuns.Strict(mop) && |mop| == MopLen(t) && forall p :: p in mop <==> p in Back(t)
  }

  lemma TwiceListed(s: seq<nat>, x: nat, y: nat)
    requires x < y < |s| && s[x] == s[y]
    ensures multiset(s)[s[x]] >= 2
  {
    assert s == s[..y] + s[y..];
    assert s[x] in multiset(s[..y]) && s[y..][0] in multiset(s[y..]);
  }

  // What MergeLoose makes of me_pghead and the loose pages is such a list.
  lemma MergeLists(pghead: seq<Pgno>, loose: seq<Pgno>, mop: seq<Pgno>, t: Txn)
    requires multiset(pghead) == multiset(t.pghead) && multiset(loose) == multiset(t.loose) && t.pghead !! t.loose
    requires Idls.IsDescending(mop) && multiset(mop) == multiset(pghead) + multiset(loose)
    ensures Lists(mop, t)
  {
    assert multiset(mop) == multiset(Back(t));
    assert |mop| == |multiset(mop)|;
    forall p ensures p in mop <==> p in Back(t) { assert p in mop <==> p in multiset(mop); }
    forall x, y | 0 <= x < y < |mop| ensures mop[x] > mop[y] {
      if mop[x] == mop[y] { TwiceListed(mop, x, y); }
    }
  }

  // The IDs of the i-th reserved record, from the lowest key up; the records
  // after the last slice stay empty.
  ghost function Slice(mop: seq<Pgno>, rooms: seq<nat>, i: nat): set<Pgno> {
    var r := FreeRuns.Slices(mop, rooms);
    if i < |r| then set p | p in r[i] else {}
  }

  ghost function RoomKeys(v: Save): set<Txnid> {
    set k: Txnid | k <= v.gone && RoomKey(v, k)
  }

  ghost function UnreadKeys(t: Txn): set<Txnid> {
    set r | r in t.recs && t.pglast < r
  }

  // The freeDB after mdb_freelist_save.
  ghost function Filled(v: Save, t: Txn, n: Txnid, mop: seq<Pgno>): map<Txnid, set<Pgno>>
  {
    map k | k in RoomKeys(v) + UnreadKeys(t) + (if 0 < v.freeCnt then {n} else {}) ::
      if RoomKey(v, k) then Slice(mop, v.rooms, k - Low(v)) else if k == n then v.stored else t.recs[k]
  }

  ghost predicate InSlice(r: seq<seq<nat>>, k: int, p: nat) {
    0 <= k < |r| && p in r[k]
  }

  // The first slice is the end of the list; the others are slices of the rest.
  lemma SlicesCons(s: seq<nat>, lens: seq<nat>) returns (rest: seq<nat>, slice: seq<nat>)
    requires FreeRuns.Strict(s) && s != [] && FreeRuns.Room(lens) >= |s|
    ensures lens != [] && s == rest + slice && FreeRuns.Strict(rest) && FreeRuns.Room(lens[1..]) >= |rest|
    ensures FreeRuns.Slices(s, lens) == [slice] + FreeRuns.Slices(rest, lens[1..])
    ensures forall p :: p in rest ==> p !in slice
  {
    var len := if lens[0] > |s| then |s| else lens[0];
    rest, slice := s[..|s| - len], s[|s| - len..];
  }

  // Slices of a list without duplicates: every ID is in one of them ...
  lemma {:induction false} SlicesHold(s: seq<nat>, lens: seq<nat>, p: nat)
    requires FreeRuns.Strict(s) && FreeRuns.Room(lens) >= |s|
    ensures p in s <==> exists k :: InSlice(FreeRuns.Slices(s, lens), k, p)
    decreases |lens|
  {
    if s != [] {
      var rest, slice := SlicesCons(s, lens);
      var r, r' := FreeRuns.Slices(s, lens), FreeRuns.Slices(rest, lens[1..]);
      SlicesHold(rest, lens[1..], p);
      forall k | InSlice(r, k, p) ensures p in s {
        if k > 0 { assert InSlice(r', k - 1, p); }
      }
      if p in slice {
        assert InSlice(r, 0, p);
      } else if p in rest {
        var k :| InSlice(r', k, p);
        assert InSlice(r, k + 1, p);
      }
    }
  }

  lemma InTail(slice: seq<nat>, r: seq<seq<nat>>, k: nat, p: nat)
    requires InSlice([slice] + r, k, p)
    ensures if k == 0 then p in slice else InSlice(r, k - 1, p)
  {
  }

  // ... and in one only, the lower IDs in the earlier slices.
  lemma {:induction false} SlicesAscend(s: seq<nat>, lens: seq<nat>, j: nat, p: nat, k: nat, q: nat)
    requires FreeRuns.Strict(s) && FreeRuns.Room(lens) >= |s| && j < k
    requires InSlice(FreeRuns.Slices(s, lens), j, p) && InSlice(FreeRuns.Slices(s, lens), k, q)
    ensures p < q
    decreases |lens|
  {
    var rest, slice := SlicesCons(s, lens);
    var r' := FreeRuns.Slices(rest, lens[1..]);
    InTail(slice, r', k, q);
    InTail(slice, r', j, p);
    if j > 0 {
      SlicesAscend(rest, lens[1..], j - 1, p, k - 1, q);
    } else {
      SlicesHold(rest, lens[1..], q);
      LaterIsLess(rest, slice, q, p);
    }
  }

  lemma LaterIsLess(a: seq<nat>, b: seq<nat>, q: nat, p: nat)
    requires FreeRuns.Strict(a + b) && q in a && p in b
    ensures p < q
  {
    var x :| 0 <= x < |a| && a[x] == q;
    var y :| 0 <= y < |b| && b[y] == p;
    assert (a + b)[x] == q && (a + b)[|a| + y] == p;
  }

  // What is filled into a record.
  lemma FilledAt(v: Save, t: Txn, n: Txnid, mop: seq<Pgno>, k: Txnid, p: Pgno)
    requires |v.rooms| <= v.gone == t.pglast < n
    ensures k in Filled(v, t, n, mop) && k <= t.pglast <==> RoomKey(v, k)
    ensures RoomKey(v, k) ==> (p in Filled(v, t, n, mop)[k] <==> InSlice(FreeRuns.Slices(mop, v.rooms), k - Low(v), p))
  {
  }

  lemma SavedBack(v: Save, t: Txn, n: Txnid, mop: seq<Pgno>, p: Pgno)
    requires |v.rooms| <= v.gone == t.pglast < n && FreeRuns.Room(v.rooms) >= |mop| && Lists(mop, t) && p in Back(t)
    ensures exists k :: k in Filled(v, t, n, mop) && k <= t.pglast && p in Filled(v, t, n, mop)[k]
  {
    SlicesHold(mop, v.rooms, p);
    var i :| InSlice(FreeRuns.Slices(mop, v.rooms), i, p);
    FilledAt(v, t, n, mop, Low(v) + i, p);
  }

  lemma SavedFrom(v: Save, t: Txn, n: Txnid, mop: seq<Pgno>, k: Txnid, p: Pgno)
    requires |v.rooms| <= v.gone == t.pglast < n && FreeRuns.Room(v.rooms) >= |mop| && Lists(mop, t)
    requires k in Filled(v, t, n, mop) && k <= t.pglast && p in Filled(v, t, n, mop)[k]
    ensures p in Back(t)
  {
    FilledAt(v, t, n, mop, k, p);
    SlicesHold(mop, v.rooms, p);
  }

  lemma SavedApart(v: Save, t: Txn, n: Txnid, mop: seq<Pgno>, k1: Txnid, k2: Txnid, p: Pgno)
    requires |v.rooms| <= v.gone == t.pglast < n && FreeRuns.Room(v.rooms) >= |mop| && Lists(mop, t)
    requires k1 in Filled(v, t, n, mop) && k2 in Filled(v, t, n, mop) && k1 < k2 <= t.pglast
    ensures p !in Filled(v, t, n, mop)[k1] || p !in Filled(v, t, n, mop)[k2]
  {
    FilledAt(v, t, n, mop, k1, p);
    FilledAt(v, t, n, mop, k2, p);
    var r := FreeRuns.Slices(mop, v.rooms);
    if InSlice(r, k1 - Low(v), p) && InSlice(r, k2 - Low(v), p) {
      SlicesAscend(mop, v.rooms, k1 - Low(v), p, k2 - Low(v), p);
    }
  }

  lemma FilledRecords(v: Save, t: Txn, n: Txnid, mop: seq<Pgno>)
    requires |v.rooms| <= v.gone == t.pglast < n && n !in t.recs && 0 !in t.recs
    ensures var out := Filled(v, t, n, mop);
      && 0 !in out
      && (forall r :: r in out && t.pglast < r && r != n ==> r in t.recs && out[r] == t.recs[r])
      && (forall r :: r in t.recs && t.pglast < r && r != n ==> r in out)
      && (n in out <==> 0 < v.freeCnt) && (n in out ==> out[n] == v.stored)
  {
  }

  // The loop ends with the freeDB that mdb_txn_commit needs.
  lemma SaveEnds(v: Save, t: Txn, n: Txnid, mop: seq<Pgno>)
    requires SaveInv(v, t) && Caught(v, t) && Enough(v, t) && Lists(mop, t) && t.pglast < n && n !in t.recs
    ensures Saved(t, n, Filled(v, t, n, mop))
  {
    RoomSuffices(v, t);
    FilledRecords(v, t, n, mop);
    SavedOverRecords(v, t, n, mop);
  }

  lemma SavedOverRecords(v: Save, t: Txn, n: Txnid, mop: seq<Pgno>)
    requires |v.rooms| <= v.gone == t.pglast < n && FreeRuns.Room(v.rooms) >= |mop| && Lists(mop, t)
    ensures var out := Filled(v, t, n, mop);
      && (forall r :: r in out && r <= t.pglast ==> out[r] <= Back(t))
      && (forall p :: p in Back(t) ==> exists r :: r in out && r <= t.pglast && p in out[r])
      && forall r1, r2 :: r1 in out && r2 in out && r1 < r2 <= t.pglast ==> out[r1] !! out[r2]
  {
    var out := Filled(v, t, n, mop);
    forall r, p | r in out && r <= t.pglast && p in out[r] ensures p in Back(t) { SavedFrom(v, t, n, mop, r, p); }
    forall p | p in Back(t) ensures exists r :: r in out && r <= t.pglast && p in out[r] { SavedBack(v, t, n, mop, p); }
    forall r1, r2, p | r1 in out && r2 in out && r1 < r2 <= t.pglast && p in out[r1] ensures p !in out[r2] {
      SavedApart(v, t, n, mop, r1, r2, p);
    }
  }
}
