/** The 4 KB page store (services/node-agent/src/storage/page.rs): page codec, page manager and its free list. */
module Pages {
  import opened Prelude
  import opened Bytes
  import opened LogFormat

  const PAGE_SIZE := 4096
  const HEADER_SIZE := 32
  const PAYLOAD_SIZE := 4064

  datatype PageType = Free | Data | Index | Header {
    function Code(): byte {
      match this
      case Free => 0
      case Data => 1
      case Index => 2
      case Header => 3
    }
  }

  /** Unknown codes read as `Free`. */
  function TypeFromCode(b: byte): PageType {
    match b
    case 1 => Data
    case 2 => Index
    case 3 => Header
    case _ => Free
  }

  datatype PageHeader = PageHeader(pageId: nat, pageType: PageType, lsn: u64, checksum: u32, numRecords: u16)

  type Payload = s: seq<byte> | |s| == 4064 witness Zeros(4064)

  datatype Page = Page(header: PageHeader, data: Payload) {
    /** Computed with the checksum field zeroed. */
    function ComputeChecksum(lib: Lib): u32 {
      lib.crc(HeaderBytes(header.(checksum := 0)) + data)
    }

    /** The page as `write_page` leaves it: with its checksum brought up to date. */
    function Sealed(lib: Lib): Page {
      this.(header := header.(checksum := ComputeChecksum(lib)))
    }
  }

  function NewPage(id: nat, pageType: PageType, lsn: u64): Page {
    Page(PageHeader(id, pageType, lsn, 0, 0), Zeros(4064))
  }

  function HeaderBytes(h: PageHeader): (s: seq<byte>)
    ensures |s| == HEADER_SIZE
  {
    BigEndian(h.pageId, 8) + [h.pageType.Code()] + BigEndian(h.lsn, 8) + BigEndian(h.checksum, 4) +
    BigEndian(h.numRecords, 2) + Zeros(9)
  }

  function ParseHeader(s: seq<byte>): PageHeader
    requires |s| == HEADER_SIZE
  {
    Pow256Values();
    FromBigEndianBound(s[9..17]); FromBigEndianBound(s[17..21]); FromBigEndianBound(s[21..23]);
    PageHeader(FromBigEndian(s[..8]), TypeFromCode(s[8]), FromBigEndian(s[9..17]),
               FromBigEndian(s[17..21]), FromBigEndian(s[21..23]))
  }

  function SerializePage(lib: Lib, p: Page): (s: seq<byte>)
    ensures |s| == PAGE_SIZE
  {
    HeaderBytes(p.Sealed(lib).header) + p.data
  }

  /** `None` on a checksum mismatch. */
  function DeserializePage(lib: Lib, s: seq<byte>): Option<Page>
    requires |s| == PAGE_SIZE
  {
    var p := Page(ParseHeader(s[..HEADER_SIZE]), s[HEADER_SIZE..]);
    if p.header.checksum == p.ComputeChecksum(lib) then Some(p) else None
  }

  lemma HeaderRoundTrip(h: PageHeader)
    requires h.pageId < 0x1_0000_0000_0000_0000
    ensures ParseHeader(HeaderBytes(h)) == h
  {
    hide BigEndian, FromBigEndian, Pow256;
    var s := HeaderBytes(h);
    Pow256Values();
    DecodeEncoded(h.pageId, 8);
    DecodeEncoded(h.lsn, 8);
    DecodeEncoded(h.checksum, 4);
    DecodeEncoded(h.numRecords, 2);
    assert s[..8] == BigEndian(h.pageId, 8);
    assert s[9..17] == BigEndian(h.lsn, 8);
    assert s[17..21] == BigEndian(h.checksum, 4);
    assert s[21..23] == BigEndian(h.numRecords, 2);
  }

  /** A written page reads back with its checksum filled in. */
  lemma PageRoundTrip(lib: Lib, p: Page)
    requires p.header.pageId < 0x1_0000_0000_0000_0000
    ensures DeserializePage(lib, SerializePage(lib, p)) == Some(p.Sealed(lib))
  {
    hide HeaderBytes, ParseHeader;
    var h := p.Sealed(lib).header;
    HeaderRoundTrip(h);
    var s := SerializePage(lib, p);
    assert s[..HEADER_SIZE] == HeaderBytes(h) && s[HEADER_SIZE..] == p.data;
    assert h.(checksum := 0) == p.header.(checksum := 0);
  }

  /** What is read as a page, exactly: 4096 bytes whose checksum field is the CRC of the others, taken with that field
      and the nine reserved bytes zero and an unknown type code as 0. Its fields are at fixed places. */
  lemma DeserializePageExactly(lib: Lib, s: seq<byte>)
    requires |s| == 4096
    ensures var code := if s[8] <= 3 then s[8] else 0;
      DeserializePage(lib, s).Some? <==>
        FromBigEndian(s[17..21]) ==
          lib.crc(s[..8] + [code] + s[9..17] + [0, 0, 0, 0] + s[21..23] + Zeros(9) + s[32..])
    ensures DeserializePage(lib, s).Some? ==>
      var h := DeserializePage(lib, s).value.header;
      && h.pageId == FromBigEndian(s[..8]) && h.lsn == FromBigEndian(s[9..17])
      && h.numRecords == FromBigEndian(s[21..23])
      && h.pageType == (if s[8] == 1 then Data else if s[8] == 2 then Index else if s[8] == 3 then Header else Free)
      && DeserializePage(lib, s).value.data == s[32..]
  {
    hide FromBigEndian, BigEndian, Zeros;
    var head := s[..HEADER_SIZE];
    assert head[..8] == s[..8] && head[9..17] == s[9..17] && head[17..21] == s[17..21] && head[21..23] == s[21..23];
    assert head[8] == s[8];
    EncodeDecoded(s[..8]);
    EncodeDecoded(s[9..17]);
    EncodeDecoded(s[21..23]);
    ZeroWord();
  }

  lemma ZeroWord()
    ensures BigEndian(0, 4) == [0, 0, 0, 0]
  {
    assert BigEndian(0, 1) == BigEndian(0, 0) + [0];
    assert BigEndian(0, 2) == BigEndian(0, 1) + [0];
    assert BigEndian(0, 3) == BigEndian(0, 2) + [0];
    assert BigEndian(0, 4) == BigEndian(0, 3) + [0];
  }

  // ---- Page files ----

  predicate HasSlot(bytes: seq<byte>, id: nat) {
    PAGE_SIZE * id + PAGE_SIZE <= |bytes|
  }

  function Slot(bytes: seq<byte>, id: nat): (s: seq<byte>)
    requires HasSlot(bytes, id)
    ensures |s| == PAGE_SIZE
  {
    bytes[PAGE_SIZE * id..PAGE_SIZE * id + PAGE_SIZE]
  }

  function PageAt(lib: Lib, bytes: seq<byte>, id: nat): (p: Option<Page>)
    ensures p.Some? ==> HasSlot(bytes, id) && p.value.header.pageId < 0x1_0000_0000_0000_0000
  {
    if HasSlot(bytes, id) then
      Pow256Values(); FromBigEndianBound(Slot(bytes, id)[..HEADER_SIZE][..8]);
      DeserializePage(lib, Slot(bytes, id))
    else None
  }

  function Written(lib: Lib, bytes: seq<byte>, p: Page): seq<byte> {
    Overwrite(bytes, PAGE_SIZE * p.header.pageId, SerializePage(lib, p))
  }

  predicate HasType(lib: Lib, bytes: seq<byte>, id: nat, t: PageType) {
    var p := PageAt(lib, bytes, id);
    p.Some? && p.value.header.pageType == t
  }

  /** A write fills its own slot, and keeps every other slot the file had; without a gap it adds no other slot either.
      */
  lemma WriteSlots(lib: Lib, bytes: seq<byte>, p: Page, id: nat)
    ensures var after, own := Written(lib, bytes, p), p.header.pageId; var end := PAGE_SIZE * own + PAGE_SIZE;
      && |after| == (if end <= |bytes| then |bytes| else end)
      && HasSlot(after, own) && Slot(after, own) == SerializePage(lib, p)
      && (id != own && HasSlot(bytes, id) ==> HasSlot(after, id) && Slot(after, id) == Slot(bytes, id))
      && (id != own && !HasSlot(bytes, id) && PAGE_SIZE * own <= |bytes| ==> !HasSlot(after, id))
  {
    hide SerializePage;
    var after, own := Written(lib, bytes, p), p.header.pageId;
    if id != own && HasSlot(bytes, id) {
      assert forall i :: PAGE_SIZE * id <= i < PAGE_SIZE * id + PAGE_SIZE ==> after[i] == bytes[i];
    }
  }

  lemma ReadAfterWrite(lib: Lib, bytes: seq<byte>, p: Page, id: nat)
    requires p.header.pageId < 0x1_0000_0000_0000_0000
    requires id == p.header.pageId || HasSlot(bytes, id) || PAGE_SIZE * p.header.pageId <= |bytes|
    ensures PageAt(lib, Written(lib, bytes, p), id) ==
            if id == p.header.pageId then Some(p.Sealed(lib)) else PageAt(lib, bytes, id)
  {
    hide SerializePage, DeserializePage, Written;
    WriteSlots(lib, bytes, p, id);
    PageRoundTrip(lib, p);
  }

  // ---- The page manager ----

  datatype PageState = PageState(bytes: seq<byte>, free: seq<nat>, next: nat)

  /** The ids below `n` of readable pages of type `t`, in increasing order. */
  function IdsOfType(lib: Lib, bytes: seq<byte>, n: nat, t: PageType): seq<nat> {
    if n == 0 then []
    else IdsOfType(lib, bytes, n - 1, t) + if HasType(lib, bytes, n - 1, t) then [n - 1] else []
  }

  ghost predicate Increasing(s: seq<nat>) {
    forall i, j :: 0 <= i < j < |s| ==> s[i] < s[j]
  }

  ghost predicate NoDuplicates(s: seq<nat>) {
    forall i, j :: 0 <= i < j < |s| ==> s[i] != s[j]
  }

  lemma {:induction false} IdsOfTypeAre(lib: Lib, bytes: seq<byte>, n: nat, t: PageType)
    ensures var ids := IdsOfType(lib, bytes, n, t);
      Increasing(ids) && forall i :: i in ids <==> 0 <= i < n && HasType(lib, bytes, i, t)
  {
    hide HasType;
    if n > 0 {
      IdsOfTypeAre(lib, bytes, n - 1, t);
      var before := IdsOfType(lib, bytes, n - 1, t);
      assert forall k :: 0 <= k < |before| ==> before[k] in before;
    }
  }

  function OpenedPages(lib: Lib, bytes: seq<byte>): PageState {
    var total := |bytes| / PAGE_SIZE;
    PageState(bytes, IdsOfType(lib, bytes, total, Free), total)
  }

  /** The most recently freed page, or a new one at the end of the file. */
  function NextId(ps: PageState): nat {
    if ps.free == [] then ps.next else ps.free[|ps.free| - 1]
  }

  function Allocated(lib: Lib, ps: PageState, t: PageType, lsn: u64): PageState {
    PageState(Written(lib, ps.bytes, NewPage(NextId(ps), t, lsn)),
              if ps.free == [] then [] else ps.free[..|ps.free| - 1],
              if ps.free == [] then ps.next + 1 else ps.next)
  }

  function Freed(lib: Lib, ps: PageState, id: nat): PageState {
    ps.(bytes := Written(lib, ps.bytes, NewPage(id, Free, 0)),
        free := if id in ps.free then ps.free else ps.free + [id])
  }

  function Stored(lib: Lib, ps: PageState, p: Page): PageState {
    ps.(bytes := Written(lib, ps.bytes, p))
  }

  class PageManager {
    const lib: Lib
    var bytes: seq<byte>
    var freePages: seq<nat>
    var nextPageId: nat

    function State(): PageState
      reads this
    {
      PageState(bytes, freePages, nextPageId)
    }

    constructor Open(lib: Lib, disk: seq<byte>)
      ensures this.lib == lib
      ensures State() == OpenedPages(lib, disk)
    {
      hide PageAt;
      this.lib := lib;
      bytes := disk;
      freePages := [];
      nextPageId := |disk| / PAGE_SIZE;
      new;
      for pid := 0 to nextPageId
        invariant bytes == disk && nextPageId == |disk| / PAGE_SIZE
        invariant freePages == IdsOfType(lib, disk, pid, Free)
      {
        var page := ReadPage(pid);
        if page.Some? && page.value.header.pageType == Free {
          freePages := freePages + [pid];
        }
      }
    }

    method ReadPage(id: nat) returns (page: Option<Page>)
      ensures page == PageAt(lib, bytes, id)
    {
      var offset := id * PAGE_SIZE;
      if offset + PAGE_SIZE > |bytes| {
        return None;
      }
      page := DeserializePage(lib, bytes[offset..offset + PAGE_SIZE]);
    }

    method WritePage(page: Page) returns (written: Page)
      modifies this`bytes
      ensures State() == Stored(lib, old(State()), page) && written == page.Sealed(lib)
    {
      written := page.Sealed(lib);
      bytes := Overwrite(bytes, page.header.pageId * PAGE_SIZE, SerializePage(lib, page));
    }

    method AllocatePage(pageType: PageType, lsn: u64) returns (page: Page)
      modifies this
      ensures State() == Allocated(lib, old(State()), pageType, lsn)
      ensures page == NewPage(NextId(old(State())), pageType, lsn).Sealed(lib)
    {
      var id;
      if freePages != [] {
        id := freePages[|freePages| - 1];
        freePages := freePages[..|freePages| - 1];
      } else {
        id := nextPageId;
        nextPageId := nextPageId + 1;
      }
      page := WritePage(NewPage(id, pageType, lsn));
    }

    method FreePage(id: nat)
      modifies this
      ensures State() == Freed(lib, old(State()), id)
    {
      var _ := WritePage(NewPage(id, Free, 0));
      if id !in freePages {
        freePages := freePages + [id];
      }
    }
  }

  // ---- The allocator invariant ----

  /** Readable pages carry their own ids. A slot torn by a crash is unreadable, and the file may end in part of a page.
      */
  ghost predicate OwnIds(lib: Lib, bytes: seq<byte>) {
    forall id: nat :: PageAt(lib, bytes, id).Some? ==> PageAt(lib, bytes, id).value.header.pageId == id
  }

  /** The next id is the file's length in whole pages, readable pages carry their own ids, and the free list is exactly
      the set of readable pages marked Free on disk, each once. */
  ghost predicate AllocatorInv(lib: Lib, ps: PageState) {
    && PAGE_SIZE * ps.next <= |ps.bytes| < PAGE_SIZE * ps.next + PAGE_SIZE
    && NoDuplicates(ps.free)
    && OwnIds(lib, ps.bytes)
    && (forall id :: id in ps.free <==> 0 <= id < ps.next && HasType(lib, ps.bytes, id, Free))
  }

  /** No page was ever torn: the file is whole pages, all readable. */
  ghost predicate Undamaged(lib: Lib, ps: PageState) {
    |ps.bytes| == PAGE_SIZE * ps.next && forall id :: 0 <= id < ps.next ==> PageAt(lib, ps.bytes, id).Some?
  }

  /** What page-store clients do: allocate a non-Free page, free or rewrite an existing one, or reopen the file. */
  datatype PageEvent =
    | AllocateEv(pageType: PageType, lsn: u64)
    | FreeEv(id: nat)
    | WriteEv(page: Page)
    | ReopenEv

  ghost predicate PageEnabled(lib: Lib, ps: PageState, e: PageEvent) {
    match e
    case AllocateEv(t, _) => t != Free && ps.next < 0x1_0000_0000_0000_0000
    case FreeEv(id) => id < ps.next <= 0x1_0000_0000_0000_0000
    case WriteEv(p) =>
      && p.header.pageId < ps.next <= 0x1_0000_0000_0000_0000
      && !HasType(lib, ps.bytes, p.header.pageId, Free)
      && p.header.pageType != Free
    case ReopenEv => true
  }

  function PageStep(lib: Lib, ps: PageState, e: PageEvent): PageState {
    match e
    case AllocateEv(t, lsn) => Allocated(lib, ps, t, lsn)
    case FreeEv(id) => Freed(lib, ps, id)
    case WriteEv(p) => Stored(lib, ps, p)
    case ReopenEv => OpenedPages(lib, ps.bytes)
  }

  ghost predicate PageRun(lib: Lib, ps: PageState, events: seq<PageEvent>, end: PageState)
    decreases |events|
  {
    if events == [] then ps == end
    else PageEnabled(lib, ps, events[0]) && PageRun(lib, PageStep(lib, ps, events[0]), events[1..], end)
  }

  /** Writing page `p` in a slot of the file, or just past its end. */
  lemma TypesAfterWrite(lib: Lib, bytes: seq<byte>, p: Page)
    requires p.header.pageId < 0x1_0000_0000_0000_0000 && PAGE_SIZE * p.header.pageId <= |bytes|
    ensures var after := Written(lib, bytes, p);
      forall id: nat {:trigger PageAt(lib, after, id)} ::
        PageAt(lib, after, id) == if id == p.header.pageId then Some(p.Sealed(lib)) else PageAt(lib, bytes, id)
  {
    forall id: nat ensures PageAt(lib, Written(lib, bytes, p), id) ==
      if id == p.header.pageId then Some(p.Sealed(lib)) else PageAt(lib, bytes, id)
    {
      ReadAfterWrite(lib, bytes, p, id);
    }
  }

  /** The page an allocation hands out was not in use: it was free, or past the end of the file. */
  lemma AllocateKeepsInv(lib: Lib, ps: PageState, t: PageType, lsn: u64)
    requires AllocatorInv(lib, ps) && t != Free && ps.next < 0x1_0000_0000_0000_0000
    ensures AllocatorInv(lib, Allocated(lib, ps, t, lsn))
    ensures Undamaged(lib, ps) ==> Undamaged(lib, Allocated(lib, ps, t, lsn))
    ensures var id := NextId(ps); if id < ps.next then HasType(lib, ps.bytes, id, Free) else !HasSlot(ps.bytes, id)
    ensures HasType(lib, Allocated(lib, ps, t, lsn).bytes, NextId(ps), t)
  {
    hide PageAt, Written;
    var id, after := NextId(ps), Allocated(lib, ps, t, lsn);
    if ps.free != [] {
      assert id in ps.free;
      assert forall i :: i in ps.free <==> i in after.free || i == id;
      assert id !in after.free;
    }
    TypesAfterWrite(lib, ps.bytes, NewPage(id, t, lsn));
    WriteSlots(lib, ps.bytes, NewPage(id, t, lsn), id);
  }

  lemma FreeKeepsInv(lib: Lib, ps: PageState, id: nat)
    requires AllocatorInv(lib, ps) && id < ps.next <= 0x1_0000_0000_0000_0000
    ensures AllocatorInv(lib, Freed(lib, ps, id))
    ensures Undamaged(lib, ps) ==> Undamaged(lib, Freed(lib, ps, id))
  {
    hide PageAt, Written;
    TypesAfterWrite(lib, ps.bytes, NewPage(id, Free, 0));
    WriteSlots(lib, ps.bytes, NewPage(id, Free, 0), id);
  }

  lemma WriteKeepsInv(lib: Lib, ps: PageState, p: Page)
    requires AllocatorInv(lib, ps) && PageEnabled(lib, ps, WriteEv(p))
    ensures AllocatorInv(lib, Stored(lib, ps, p))
    ensures Undamaged(lib, ps) ==> Undamaged(lib, Stored(lib, ps, p))
  {
    hide PageAt, Written;
    TypesAfterWrite(lib, ps.bytes, p);
    WriteSlots(lib, ps.bytes, p, p.header.pageId);
  }

  /** Opening any file whose readable pages carry their own ids, torn pages included. */
  lemma OpenedInv(lib: Lib, bytes: seq<byte>)
    requires OwnIds(lib, bytes)
    ensures AllocatorInv(lib, OpenedPages(lib, bytes))
  {
    hide PageAt;
    IdsOfTypeAre(lib, bytes, |bytes| / PAGE_SIZE, Free);
  }

  /** Reopening rebuilds the same next id and the same free set. */
  lemma ReopenKeepsInv(lib: Lib, ps: PageState)
    requires AllocatorInv(lib, ps)
    ensures var after := OpenedPages(lib, ps.bytes);
      && AllocatorInv(lib, after)
      && after.next == ps.next
      && multiset(after.free) == multiset(ps.free)
      && (Undamaged(lib, ps) ==> Undamaged(lib, after))
  {
    hide PageAt;
    OpenedInv(lib, ps.bytes);
    SameElements(OpenedPages(lib, ps.bytes).free, ps.free);
  }

  lemma {:induction false} CountInNoDuplicates(s: seq<nat>, x: nat)
    requires NoDuplicates(s)
    ensures multiset(s)[x] == if x in s then 1 else 0
  {
    if s != [] {
      assert s == [s[0]] + s[1..];
      CountInNoDuplicates(s[1..], x);
      assert NoDuplicates(s[1..]);
    }
  }

  lemma SameElements(a: seq<nat>, b: seq<nat>)
    requires NoDuplicates(a) && NoDuplicates(b)
    requires forall x :: x in a <==> x in b
    ensures multiset(a) == multiset(b)
  {
    forall x: nat ensures multiset(a)[x] == multiset(b)[x] {
      CountInNoDuplicates(a, x);
      CountInNoDuplicates(b, x);
    }
  }

  /** Any run of clients and reopens keeps the allocator invariant, and damages no page. */
  lemma {:induction false} AllocatorSafety(lib: Lib, start: PageState, events: seq<PageEvent>, end: PageState)
    requires AllocatorInv(lib, start) && PageRun(lib, start, events, end)
    ensures AllocatorInv(lib, end) && (Undamaged(lib, start) ==> Undamaged(lib, end))
    decreases |events|
  {
    hide AllocatorInv, Undamaged, OpenedPages, Allocated, Freed, Stored, HasType;
    if events != [] {
      var e := events[0];
      match e {
        case AllocateEv(t, lsn) => AllocateKeepsInv(lib, start, t, lsn);
        case FreeEv(id) => FreeKeepsInv(lib, start, id);
        case WriteEv(p) => WriteKeepsInv(lib, start, p);
        case ReopenEv => ReopenKeepsInv(lib, start);
      }
      AllocatorSafety(lib, PageStep(lib, start, e), events[1..], end);
    }
  }

  lemma AllocatorSafetyFromEmpty(lib: Lib, events: seq<PageEvent>, end: PageState)
    requires PageRun(lib, OpenedPages(lib, []), events, end)
    ensures AllocatorInv(lib, end) && Undamaged(lib, end)
  {
    OpenedInv(lib, []);
    AllocatorSafety(lib, OpenedPages(lib, []), events, end);
  }
}
