/** Page compaction (services/node-agent/src/storage/compaction.rs) and its accounting. */
module Compaction {
  import opened Prelude
  import opened LogFormat
  import opened Pages
  import opened Recovery

  datatype CompactionStats = CompactionStats(
    pagesScanned: nat, pagesReclaimed: nat, recordsCompacted: nat, bytesReclaimed: nat)

  function DataPages(lib: Lib, ps: PageState): seq<nat> {
    IdsOfType(lib, ps.bytes, ps.next, Data)
  }

  function FreeAll(lib: Lib, ps: PageState, ids: seq<nat>): PageState {
    if ids == [] then ps else Freed(lib, FreeAll(lib, ps, ids[..|ids| - 1]), ids[|ids| - 1])
  }

  predicate ValueFits(lib: Lib, v: RecordValue) {
    |Entry(lib, v.key, v.value)| <= PAYLOAD_SIZE
  }

  function CountFitting(lib: Lib, values: seq<RecordValue>): nat {
    if values == [] then 0
    else CountFitting(lib, values[..|values| - 1]) + if ValueFits(lib, values[|values| - 1]) then 1 else 0
  }

  /** The page after the records are written to it one over another, each at offset 0. */
  function FilledPage(lib: Lib, page: Page, values: seq<RecordValue>): (p: Page)
    ensures p.header.pageId == page.header.pageId && p.header.pageType == page.header.pageType
  {
    if values == [] then page
    else
      var p, v := FilledPage(lib, page, values[..|values| - 1]), values[|values| - 1];
      if ValueFits(lib, v) then WithEntry(p, Entry(lib, v.key, v.value), v.lsn).Sealed(lib) else p
  }

  /** The store after each of those writes reached the file. */
  function Filled(lib: Lib, ps: PageState, page: Page, values: seq<RecordValue>): PageState {
    if values == [] then ps
    else
      var front, v := values[..|values| - 1], values[|values| - 1];
      var before := Filled(lib, ps, page, front);
      if ValueFits(lib, v)
      then Stored(lib, before, WithEntry(FilledPage(lib, page, front), Entry(lib, v.key, v.value), v.lsn))
      else before
  }

  function Compacted(lib: Lib, ps: PageState, values: seq<RecordValue>): PageState {
    var freed := FreeAll(lib, ps, DataPages(lib, ps));
    Filled(lib, Allocated(lib, freed, Data, 0), NewPage(NextId(freed), Data, 0).Sealed(lib), values)
  }

  /** How many more free pages there are after than before; never negative. */
  function Reclaimed(before: PageState, after: PageState): nat {
    if |after.free| > |before.free| then |after.free| - |before.free| else 0
  }

  /** `values` lists the live records in the order the map happens to iterate. */
  method Compact(pages: PageManager, values: seq<RecordValue>) returns (stats: CompactionStats)
    modifies pages
    ensures pages.State() == Compacted(pages.lib, old(pages.State()), values)
    ensures var d, reclaimed := DataPages(pages.lib, old(pages.State())), Reclaimed(old(pages.State()), pages.State());
      stats == CompactionStats(|d|, reclaimed, CountFitting(pages.lib, values), reclaimed * PAGE_SIZE)
  {
    hide PageAt, Written, Entry;
    ghost var start := pages.State();
    var pagesBefore, freeBefore := pages.nextPageId, |pages.freePages|;
    var dataPages := [];
    for pid := 0 to pagesBefore
      invariant pages.State() == start
      invariant dataPages == IdsOfType(pages.lib, pages.bytes, pid, Data)
    {
      var page := pages.ReadPage(pid);
      if page.Some? && page.value.header.pageType == Data {
        dataPages := dataPages + [pid];
      }
    }
    for i := 0 to |dataPages|
      invariant pages.State() == FreeAll(pages.lib, start, dataPages[..i])
    {
      pages.FreePage(dataPages[i]);
      assert dataPages[..i + 1][..i] == dataPages[..i];
    }
    assert dataPages[..|dataPages|] == dataPages;
    ghost var freed := pages.State();
    var newPage := pages.AllocatePage(Data, 0);
    ghost var blank, handed := newPage, pages.State();
    var compacted := 0;
    for i := 0 to |values|
      invariant newPage == FilledPage(pages.lib, blank, values[..i])
      invariant pages.State() == Filled(pages.lib, handed, blank, values[..i])
      invariant compacted == CountFitting(pages.lib, values[..i])
    {
      assert values[..i + 1][..i] == values[..i];
      var entry := Entry(pages.lib, values[i].key, values[i].value);
      if |entry| <= PAYLOAD_SIZE {
        newPage := pages.WritePage(WithEntry(newPage, entry, values[i].lsn));
        compacted := compacted + 1;
      }
    }
    assert values[..|values|] == values;
    var freeAfter := |pages.freePages|;
    var reclaimed := if freeAfter > freeBefore then freeAfter - freeBefore else 0;
    stats := CompactionStats(|dataPages|, reclaimed, compacted, reclaimed * PAGE_SIZE);
  }

  // ---- Accounting ----

  lemma {:induction false} FreeAllEffect(lib: Lib, ps: PageState, ids: seq<nat>)
    requires AllocatorInv(lib, ps) && ps.next <= 0x1_0000_0000_0000_0000
    requires Increasing(ids) && forall i :: i in ids ==> i < ps.next && i !in ps.free
    ensures var after := FreeAll(lib, ps, ids);
      && AllocatorInv(lib, after) && after.next == ps.next && after.free == ps.free + ids
      && (Undamaged(lib, ps) ==> Undamaged(lib, after))
      && forall j: nat {:trigger PageAt(lib, after.bytes, j)} ::
           PageAt(lib, after.bytes, j) ==
             if j in ids then Some(NewPage(j, Free, 0).Sealed(lib)) else PageAt(lib, ps.bytes, j)
  {
    hide AllocatorInv, Undamaged, PageAt, Written;
    if ids == [] {
      assert ps.free + ids == ps.free;
    } else {
      var front, last := ids[..|ids| - 1], ids[|ids| - 1];
      assert last in ids && forall i :: i in ids <==> i in front || i == last;
      FreeAllEffect(lib, ps, front);
      var before := FreeAll(lib, ps, front);
      assert last !in front;
      FreeKeepsInv(lib, before, last);
      assert PAGE_SIZE * last <= |before.bytes| by { InvLength(lib, before); }
      TypesAfterWrite(lib, before.bytes, NewPage(last, Free, 0));
      assert ps.free + front + [last] == ps.free + ids;
    }
  }

  lemma InvLength(lib: Lib, ps: PageState)
    requires AllocatorInv(lib, ps)
    ensures PAGE_SIZE * ps.next <= |ps.bytes| < PAGE_SIZE * ps.next + PAGE_SIZE
  {
  }

  /** Filling writes one page and no other, and that page then reads as `FilledPage`. */
  lemma {:induction false} FilledEffect(lib: Lib, ps: PageState, page: Page, values: seq<RecordValue>)
    requires AllocatorInv(lib, ps) && page.header.pageId < ps.next <= 0x1_0000_0000_0000_0000
    requires page.header.pageType == Data && PageAt(lib, ps.bytes, page.header.pageId) == Some(page)
    ensures var after := Filled(lib, ps, page, values);
      && AllocatorInv(lib, after) && after.next == ps.next && after.free == ps.free
      && (Undamaged(lib, ps) ==> Undamaged(lib, after))
      && PageAt(lib, after.bytes, page.header.pageId) == Some(FilledPage(lib, page, values))
      && forall j: nat {:trigger PageAt(lib, after.bytes, j)} ::
           j != page.header.pageId ==> PageAt(lib, after.bytes, j) == PageAt(lib, ps.bytes, j)
  {
    hide AllocatorInv, Undamaged, PageAt, Written, ValueFits, Entry;
    if values != [] {
      var front, v := values[..|values| - 1], values[|values| - 1];
      FilledEffect(lib, ps, page, front);
      var before, p := Filled(lib, ps, page, front), FilledPage(lib, page, front);
      if ValueFits(lib, v) {
        FilledOne(lib, before, p, v);
      }
    }
  }

  lemma FilledOne(lib: Lib, ps: PageState, p: Page, v: RecordValue)
    requires AllocatorInv(lib, ps) && p.header.pageId < ps.next <= 0x1_0000_0000_0000_0000
    requires p.header.pageType == Data && HasType(lib, ps.bytes, p.header.pageId, Data) && ValueFits(lib, v)
    ensures var q := WithEntry(p, Entry(lib, v.key, v.value), v.lsn); var after := Stored(lib, ps, q);
      && AllocatorInv(lib, after) && (Undamaged(lib, ps) ==> Undamaged(lib, after))
      && PageAt(lib, after.bytes, p.header.pageId) == Some(q.Sealed(lib))
      && forall j: nat {:trigger PageAt(lib, after.bytes, j)} ::
           j != p.header.pageId ==> PageAt(lib, after.bytes, j) == PageAt(lib, ps.bytes, j)
  {
    hide PageAt, Written, Entry, Undamaged;
    var q := WithEntry(p, Entry(lib, v.key, v.value), v.lsn);
    WriteKeepsInv(lib, ps, q);
    TypesAfterWrite(lib, ps.bytes, q);
  }

  /** The last of the values that fits a page. */
  function LastFitting(lib: Lib, values: seq<RecordValue>): (v: Option<RecordValue>)
    ensures v.Some? ==> v.value in values && ValueFits(lib, v.value)
  {
    if values == [] then None
    else if ValueFits(lib, values[|values| - 1]) then Some(values[|values| - 1])
    else LastFitting(lib, values[..|values| - 1])
  }

  /** The page ends up with the last fitting record's LSN and entry, and counts every record written over it. */
  lemma {:induction false} FilledPageIs(lib: Lib, page: Page, values: seq<RecordValue>)
    ensures var p, last := FilledPage(lib, page, values), LastFitting(lib, values);
      && p.header.numRecords == (page.header.numRecords + CountFitting(lib, values)) % 0x1_0000
      && (last.None? ==> p == page && CountFitting(lib, values) == 0)
      && (last.Some? ==>
            var entry := Entry(lib, last.value.key, last.value.value);
            p.header.lsn == last.value.lsn && p.data[..|entry|] == entry)
  {
    hide Entry, Page.ComputeChecksum;
    if values != [] {
      var front, v := values[..|values| - 1], values[|values| - 1];
      FilledPageIs(lib, page, front);
    }
  }

  lemma NoDataAfterFreeing(lib: Lib, ps: PageState)
    requires AllocatorInv(lib, ps) && ps.next <= 0x1_0000_0000_0000_0000
    ensures var ids, after := DataPages(lib, ps), FreeAll(lib, ps, DataPages(lib, ps));
      && AllocatorInv(lib, after) && after.next == ps.next && after.free == ps.free + ids
      && (Undamaged(lib, ps) ==> Undamaged(lib, after))
      && forall j: nat {:trigger PageAt(lib, after.bytes, j)} :: j < ps.next ==>
           && !HasType(lib, after.bytes, j, Data)
           && (!HasType(lib, ps.bytes, j, Data) ==> PageAt(lib, after.bytes, j) == PageAt(lib, ps.bytes, j))
  {
    hide PageAt, Written, FreeAll, Undamaged;
    IdsOfTypeAre(lib, ps.bytes, ps.next, Data);
    var ids := DataPages(lib, ps);
    FreeAllEffect(lib, ps, ids);
    var after := FreeAll(lib, ps, ids);
    forall j: nat | j < ps.next
      ensures !HasType(lib, after.bytes, j, Data)
      ensures !HasType(lib, ps.bytes, j, Data) ==> PageAt(lib, after.bytes, j) == PageAt(lib, ps.bytes, j)
    {
      assert j in ids <==> HasType(lib, ps.bytes, j, Data);
    }
  }

  lemma AllocateEffect(lib: Lib, ps: PageState)
    requires AllocatorInv(lib, ps) && ps.next < 0x1_0000_0000_0000_0000
    ensures var id, after := NextId(ps), Allocated(lib, ps, Data, 0);
      && AllocatorInv(lib, after) && (Undamaged(lib, ps) ==> Undamaged(lib, after))
      && PageAt(lib, after.bytes, id) == Some(NewPage(id, Data, 0).Sealed(lib)) && id < after.next
      && (if id < ps.next then HasType(lib, ps.bytes, id, Free) else !HasSlot(ps.bytes, id))
      && forall j: nat {:trigger PageAt(lib, after.bytes, j)} ::
           j != id ==> PageAt(lib, after.bytes, j) == PageAt(lib, ps.bytes, j)
  {
    hide PageAt, Written, Undamaged;
    AllocateKeepsInv(lib, ps, Data, 0);
    TypesAfterWrite(lib, ps.bytes, NewPage(NextId(ps), Data, 0));
  }

  /** The page compaction writes the live records to: the Data page of the highest id, freed last, if there was one. */
  function CompactionPage(lib: Lib, ps: PageState): nat {
    var ids := DataPages(lib, ps);
    if ids == [] then NextId(ps) else ids[|ids| - 1]
  }

  /** What compaction does to the pages: every Data page is gone but the one it fills; free pages apart, no other
      changes. */
  lemma CompactionEffect(lib: Lib, ps: PageState, values: seq<RecordValue>)
    requires AllocatorInv(lib, ps) && ps.next < 0x1_0000_0000_0000_0000
    ensures var after, ids, id := Compacted(lib, ps, values), DataPages(lib, ps), CompactionPage(lib, ps);
      && AllocatorInv(lib, after) && (Undamaged(lib, ps) ==> Undamaged(lib, after))
      && id < after.next
      && PageAt(lib, after.bytes, id) == Some(FilledPage(lib, NewPage(id, Data, 0).Sealed(lib), values))
      && (forall j: nat :: j < after.next && j != id ==> !HasType(lib, after.bytes, j, Data))
      && after.next == (if ids == [] && ps.free == [] then ps.next + 1 else ps.next)
      && |after.free| == (if ids == [] && ps.free == [] then 0 else |ps.free| + |ids| - 1)
      && forall j: nat :: j < ps.next && !HasType(lib, ps.bytes, j, Data) && !HasType(lib, ps.bytes, j, Free) ==>
           PageAt(lib, after.bytes, j) == PageAt(lib, ps.bytes, j)
  {
    hide AllocatorInv, Undamaged, PageAt, Written, DataPages, FreeAll, Filled;
    var ids := DataPages(lib, ps);
    var freed := FreeAll(lib, ps, ids);
    NoDataAfterFreeing(lib, ps);
    var id, handed := NextId(freed), Allocated(lib, freed, Data, 0);
    assert id == CompactionPage(lib, ps);
    AllocateEffect(lib, freed);
    FilledEffect(lib, handed, NewPage(id, Data, 0).Sealed(lib), values);
    var after := Compacted(lib, ps, values);
    forall j: nat | j < after.next && j != id ensures !HasType(lib, after.bytes, j, Data) {
    }
  }

  /** With d readable Data pages before: exactly one Data page remains, d - 1 pages are reclaimed (none when d is 0),
      pages that are neither Data nor Free are untouched, torn ones included, and the file grows only if it had no Data
      and no Free page. */
  lemma CompactionAccounting(lib: Lib, ps: PageState, values: seq<RecordValue>)
    requires AllocatorInv(lib, ps) && ps.next < 0x1_0000_0000_0000_0000
    ensures var after, d := Compacted(lib, ps, values), |DataPages(lib, ps)|;
      && AllocatorInv(lib, after) && (Undamaged(lib, ps) ==> Undamaged(lib, after))
      && |DataPages(lib, after)| == 1
      && Reclaimed(ps, after) == (if d > 0 then d - 1 else 0)
      && after.next == (if d == 0 && ps.free == [] then ps.next + 1 else ps.next)
      && forall id: nat :: id < ps.next && !HasType(lib, ps.bytes, id, Data) && !HasType(lib, ps.bytes, id, Free) ==>
           PageAt(lib, after.bytes, id) == PageAt(lib, ps.bytes, id)
  {
    hide AllocatorInv, Undamaged, PageAt, DataPages, Compacted;
    CompactionEffect(lib, ps, values);
    OnlyOne(lib, Compacted(lib, ps, values), CompactionPage(lib, ps));
  }

  lemma OnlyOne(lib: Lib, ps: PageState, id: nat)
    requires id < ps.next && HasType(lib, ps.bytes, id, Data)
    requires forall j :: 0 <= j < ps.next && j != id ==> !HasType(lib, ps.bytes, j, Data)
    ensures DataPages(lib, ps) == [id]
  {
    hide HasType;
    IdsOfTypeAre(lib, ps.bytes, ps.next, Data);
    var ids := DataPages(lib, ps);
    assert id in ids;
    assert ids[0] in ids && ids[|ids| - 1] in ids;
    assert ids[0] == id == ids[|ids| - 1];
  }
}
