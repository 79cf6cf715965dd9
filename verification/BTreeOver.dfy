// md_overflow_pages, the counter of a database's overflow pages
// (liblmdb/src/mdb.c): mdb_page_new adds a run's pages, mdb_ovpage_free takes
// off what the run's own header says, and a put that overwrites a dirty run in
// place leaves the counter alone, however many pages the new data needs.

module BTreeOver {
  import opened PageFormat
  import opened BTree
  import opened BTreePut
  import opened BTreeDel

  // The counter, and mp_pages of the run of every key that has one.
  datatype Over = Over(pages: int, runs: map<real, int>)

  // OVPAGES
  function OvPages(psize: PageSize, size: nat): int { (PAGEHDRSZ - 1 + size) / psize + 1 }

  // F_BIGDATA
  predicate Big(psize: PageSize, e: Entry) { NODESIZE + e.key.len + |e.val| > NodeMax(psize) }

  // A value has a run exactly if two nodes with it would not fit one page.
  lemma BigIsLarge(psize: PageSize, e: Entry)
    ensures Big(psize, e) <==> 2 * (2 + Even(NODESIZE + e.key.len + |e.val|)) > psize - PAGEHDRSZ
  {
    TwoNodesFit(psize, NODESIZE + e.key.len + |e.val|);
  }

  function RunOf(psize: PageSize, e: Entry, runs: map<real, int>): int {
    if Big(psize, e) && e.key.rank in runs then runs[e.key.rank] else 0
  }

  // Pages of the runs of all entries.
  function RunPages(psize: PageSize, es: seq<Entry>, runs: map<real, int>): int {
    if es == [] then 0 else RunOf(psize, es[0], runs) + RunPages(psize, es[1..], runs)
  }

  // A big value has a run whose pages hold one page header and the value.
  ghost predicate HasRun(psize: PageSize, e: Entry, runs: map<real, int>) {
    Big(psize, e) ==> e.key.rank in runs && PAGEHDRSZ + |e.val| <= runs[e.key.rank] * psize
  }

  lemma QuotientBounds(n: nat, p: nat)
    requires 0 < p
    ensures n / p * p <= n < (n / p + 1) * p
  {
    assert n == n / p * p + n % p;
  }

  lemma TimesMonotone(a: int, b: int, p: nat)
    requires a <= b
    ensures a * p <= b * p
  {
  }

  // A run made for `size` bytes is the shortest that holds them.
  lemma OvPagesShortest(psize: PageSize, size: nat, pages: int)
    ensures PAGEHDRSZ + size <= pages * psize <==> OvPages(psize, size) <= pages
  {
    var q := (PAGEHDRSZ - 1 + size) / psize;
    QuotientBounds(PAGEHDRSZ - 1 + size, psize);
    if pages <= q {
      TimesMonotone(pages, q, psize);
    } else {
      TimesMonotone(q + 1, pages, psize);
    }
  }

  // Its last page is needed.
  lemma OvPagesBytes(psize: PageSize, size: nat)
    ensures (OvPages(psize, size) - 1) * psize < PAGEHDRSZ + size <= OvPages(psize, size) * psize
  {
    QuotientBounds(PAGEHDRSZ - 1 + size, psize);
  }

  // The counter is right, and every run is long enough for its data.
  ghost predicate OverRight(psize: PageSize, o: Over, es: seq<Entry>) {
    o.pages == RunPages(psize, es, o.runs) && forall e :: e in es ==> HasRun(psize, e, o.runs)
  }

  lemma {:induction false} RunPagesConcat(psize: PageSize, a: seq<Entry>, b: seq<Entry>, runs: map<real, int>)
    ensures RunPages(psize, a + b, runs) == RunPages(psize, a, runs) + RunPages(psize, b, runs)
  {
    if a == [] {
      assert a + b == b;
    } else {
      assert (a + b)[1..] == a[1..] + b;
      RunPagesConcat(psize, a[1..], b, runs);
    }
  }

  // Runs of other keys are as they were.
  ghost predicate SameBut(runs: map<real, int>, runs': map<real, int>, r: real) {
    forall k :: k != r ==> (k in runs' <==> k in runs) && (k in runs ==> runs'[k] == runs[k])
  }

  // A change of another key's run changes nothing for these entries.
  lemma {:induction false} OtherRun(psize: PageSize, es: seq<Entry>, runs: map<real, int>, runs': map<real, int>, r: real)
    requires SameBut(runs, runs', r) && forall e :: e in es ==> e.key.rank != r
    ensures RunPages(psize, es, runs') == RunPages(psize, es, runs)
    ensures forall e :: e in es && HasRun(psize, e, runs) ==> HasRun(psize, e, runs')
  {
    if es != [] {
      assert es[0] in es && forall e :: e in es[1..] ==> e in es;
      OtherRun(psize, es[1..], runs, runs', r);
    }
  }

  lemma RunPagesAround(psize: PageSize, a: seq<Entry>, e: Entry, b: seq<Entry>, runs: map<real, int>)
    ensures RunPages(psize, a + [e] + b, runs) == RunPages(psize, a, runs) + RunOf(psize, e, runs) + RunPages(psize, b, runs)
  {
    RunPagesConcat(psize, a + [e], b, runs);
    RunPagesConcat(psize, a, [e], runs);
    assert [e][1..] == [];
  }

  // --- What the operations do to the counter ----------------------------

  // mdb_page_new for the run of a big node.
  function WithRun(psize: PageSize, o: Over, e: Entry): Over {
    if Big(psize, e) then
      Over(o.pages + OvPages(psize, |e.val|), o.runs[e.key.rank := OvPages(psize, |e.val|)])
    else o
  }

  // mdb_ovpage_free, by mp_pages.
  function WithoutRun(psize: PageSize, o: Over, was: Entry): Over {
    o.(pages := o.pages - RunOf(psize, was, o.runs))
  }

  // A dirty run with room enough is overwritten in place.
  predicate KeepsRun(psize: PageSize, o: Over, was: Entry, e: Entry, dirty: bool) {
    dirty && Big(psize, was) && Big(psize, e) && OvPages(psize, |e.val|) <= RunOf(psize, was, o.runs)
  }

  function PutOver(psize: PageSize, o: Over, es: seq<Entry>, e: Entry, dirty: bool): Over {
    if !Hits(es, e) then WithRun(psize, o, e)
    else
      var was := es[LowerBound(es, e.key.rank)];
      if InPlace(psize, was, e) || KeepsRun(psize, o, was, e, dirty) then o
      else WithRun(psize, WithoutRun(psize, o, was), e)
  }

  function DelOver(psize: PageSize, o: Over, es: seq<Entry>, r: real): Over {
    var i := LowerBound(es, r);
    if i < |es| && es[i].key.rank == r then WithoutRun(psize, o, es[i]) else o
  }

  // --- The counter stays right ------------------------------------------

  // The entries around place i have other keys.
  lemma OtherKeys(es: seq<Entry>, i: nat, j: nat, r: real)
    requires Sorted(es) && i == LowerBound(es, r) && i <= j <= |es|
    requires j == i + 1 ==> es[i].key.rank == r
    requires j == i || j == i + 1
    requires j == i ==> (i < |es| ==> es[i].key.rank != r)
    ensures forall e :: e in es[..i] ==> e.key.rank != r
    ensures forall e :: e in es[j..] ==> e.key.rank != r
  {
  }

  // One entry takes the place of what was between a and b.
  lemma PutBetween(psize: PageSize, o: Over, o': Over, a: seq<Entry>, b: seq<Entry>, e: Entry)
    requires forall x :: x in a || x in b ==> x.key.rank != e.key.rank && HasRun(psize, x, o.runs)
    requires SameBut(o.runs, o'.runs, e.key.rank)
    requires HasRun(psize, e, o'.runs)
    requires o'.pages == RunPages(psize, a, o.runs) + RunOf(psize, e, o'.runs) + RunPages(psize, b, o.runs)
    ensures OverRight(psize, o', a + [e] + b)
  {
    OtherRun(psize, a, o.runs, o'.runs, e.key.rank);
    OtherRun(psize, b, o.runs, o'.runs, e.key.rank);
    RunPagesAround(psize, a, e, b, o'.runs);
    forall x | x in a + [e] + b ensures HasRun(psize, x, o'.runs) {
      assert x == e || x in a || x in b;
    }
  }

  lemma MadeRun(psize: PageSize, o: Over, e: Entry)
    ensures HasRun(psize, e, WithRun(psize, o, e).runs)
    ensures WithRun(psize, o, e).pages == o.pages + RunOf(psize, e, WithRun(psize, o, e).runs) || !Big(psize, e)
    ensures !Big(psize, e) ==> WithRun(psize, o, e) == o
  {
    OvPagesBytes(psize, |e.val|);
  }

  lemma InsertOver(psize: PageSize, o: Over, es: seq<Entry>, e: Entry)
    requires OverRight(psize, o, es) && Sorted(es) && !Hits(es, e)
    ensures OverRight(psize, WithRun(psize, o, e), Upsert(psize, es, e))
  {
    var i := LowerBound(es, e.key.rank);
    OtherKeys(es, i, i, e.key.rank);
    assert es == es[..i] + es[i..];
    RunPagesConcat(psize, es[..i], es[i..], o.runs);
    MadeRun(psize, o, e);
    PutBetween(psize, o, WithRun(psize, o, e), es[..i], es[i..], e);
  }

  lemma ReplaceOver(psize: PageSize, o: Over, es: seq<Entry>, e: Entry, dirty: bool)
    requires OverRight(psize, o, es) && Sorted(es) && Hits(es, e)
    ensures OverRight(psize, PutOver(psize, o, es, e, dirty), Upsert(psize, es, e))
  {
    var i := LowerBound(es, e.key.rank);
    var was, now, o' := es[i], Stored(psize, es[i], e), PutOver(psize, o, es, e, dirty);
    OtherKeys(es, i, i + 1, e.key.rank);
    assert es == es[..i] + [was] + es[i + 1..];
    RunPagesAround(psize, es[..i], was, es[i + 1..], o.runs);
    assert was in es;
    ReplacedRun(psize, o, was, e, dirty);
    PutBetween(psize, o, o', es[..i], es[i + 1..], now);
  }

  // What a put over the entry `was` makes of the counter and of its run.
  lemma ReplacedRun(psize: PageSize, o: Over, was: Entry, e: Entry, dirty: bool)
    requires HasRun(psize, was, o.runs) && was.key.rank == e.key.rank
    ensures var now := Stored(psize, was, e);
      var o' := if InPlace(psize, was, e) || KeepsRun(psize, o, was, e, dirty) then o
                else WithRun(psize, WithoutRun(psize, o, was), e);
      && now.key.rank == e.key.rank && HasRun(psize, now, o'.runs)
      && SameBut(o.runs, o'.runs, now.key.rank)
      && o'.pages == o.pages - RunOf(psize, was, o.runs) + RunOf(psize, now, o'.runs)
  {
    MadeRun(psize, WithoutRun(psize, o, was), e);
    OvPagesShortest(psize, |e.val|, RunOf(psize, was, o.runs));
  }

  lemma DeleteOver(psize: PageSize, o: Over, es: seq<Entry>, r: real)
    requires OverRight(psize, o, es) && Present(es, r)
    ensures OverRight(psize, DelOver(psize, o, es, r), Remove(es, r))
  {
    var i := LowerBound(es, r);
    assert es == es[..i] + [es[i]] + es[i + 1..];
    RunPagesAround(psize, es[..i], es[i], es[i + 1..], o.runs);
    RunPagesConcat(psize, es[..i], es[i + 1..], o.runs);
    forall x | x in Remove(es, r) ensures HasRun(psize, x, o.runs) { assert x in es; }
  }

  // The run of a value after it has been put: the old one, if that is dirty and
  // holds the value, and otherwise a new one, no longer than it has to be.
  lemma PutRun(psize: PageSize, o: Over, es: seq<Entry>, e: Entry, dirty: bool)
    requires OverRight(psize, o, es) && Sorted(es)
    requires Big(psize, if Hits(es, e) then Stored(psize, es[LowerBound(es, e.key.rank)], e) else e)
    ensures e.key.rank in PutOver(psize, o, es, e, dirty).runs
    ensures var n, was := PutOver(psize, o, es, e, dirty).runs[e.key.rank], OldRun(psize, o, es, e);
      if dirty && 0 < was && PAGEHDRSZ + |e.val| <= was * psize then n == was
      else (n - 1) * psize < PAGEHDRSZ + |e.val| <= n * psize
  {
    OvPagesBytes(psize, |e.val|);
    if Hits(es, e) {
      var was := es[LowerBound(es, e.key.rank)];
      assert was in es && HasRun(psize, was, o.runs);
      OvPagesShortest(psize, |e.val|, RunOf(psize, was, o.runs));
    }
  }

  // Pages of the run the key has had so far; 0 if there is none.
  function OldRun(psize: PageSize, o: Over, es: seq<Entry>, e: Entry): int {
    if Hits(es, e) then RunOf(psize, es[LowerBound(es, e.key.rank)], o.runs) else 0
  }

  // The counter describes the database after mdb_put ...
  lemma PutKeepsOver(psize: PageSize, o: Over, db: Db, e: Entry, append: bool, dirty: bool)
    requires ValidDb(psize, db) && e.key.len <= MAXKEYSIZE && OverRight(psize, o, Items(db))
    requires append ==> LowerBound(Items(db), e.key.rank) == |Items(db)|
    ensures var r := DbPut(psize, db, e, append);
      r.Put? ==> OverRight(psize, PutOver(psize, o, Items(db), e, dirty), Items(r.db))
  {
    PutCorrect(psize, db, e, append);
    if db.Root? { ContentsSorted(psize, db.tree, db.depth, None, None, false); }
    if Hits(Items(db), e) { ReplaceOver(psize, o, Items(db), e, dirty); } else { InsertOver(psize, o, Items(db), e); }
  }

  // ... and after mdb_del.
  lemma DelKeepsOver(psize: PageSize, o: Over, db: Db, r: real)
    requires ValidDb(psize, db) && Present(Items(db), r) && OverRight(psize, o, Items(db))
    ensures DbDel(psize, db, r).Deleted?
    ensures var res := DbDel(psize, db, r).result;
      res.Put? ==> OverRight(psize, DelOver(psize, o, Items(db), r), Items(res.db))
  {
    DelCorrect(psize, db, r);
    DeleteOver(psize, o, Items(db), r);
  }
}
