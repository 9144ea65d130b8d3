/**
  Where the kernel image lies in memory, which first page the boot scan computes from it, and when the pages
  the allocator manages stay clear of the page records and page tables inside the image.
 */
module ImageModel {
  import opened BuddyModel

  const LOAD: nat := 0x10_0000       // the image starts here, and so does the memory the scan looks at
  const LOW_MAPPED: nat := 0x80_0000 // the end of what the entry code maps
  const MAXSIZE: nat := 0x2000_0000
  const RECORD: nat := 24            // bytes of one page record; its first word is the reference count
  const RECORDS: nat := 0x30_0000    // bytes of MAX_PG_NUM records
  const TABLES: nat := 0x8_0000      // bytes of the 128 tables of the direct map

  /**
    The image as linked: the entry code with its data (`init` bytes), then from `kern_start` on text, data and bss
    (`data` bytes) and the debugging sections (`stab` bytes) up to `kern_end`.  `records` and `tables` are the
    physical addresses of the page records and of the direct map's tables.
   */
  datatype Image = Image(init: nat, data: nat, stab: nat, records: nat, tables: nat) {
    function BssEnd(): nat {
      LOAD + init + data
    }

    function End(): nat {
      BssEnd() + stab
    }

    /** Sections fill whole pages, there is entry code, and records and tables lie apart in text, data or bss. */
    predicate Linked() {
      && 0 < init && init % 4096 == data % 4096 == stab % 4096 == 0 && records % 4 == tables % 4096 == 0
      && LOAD + init <= records && records + RECORDS <= BssEnd()
      && LOAD + init <= tables && tables + TABLES <= BssEnd()
      && (records + RECORDS <= tables || tables + TABLES <= records)
    }

    /** The page starting at `p` holds the reference count of record `i`. */
    predicate CountInside(p: nat, i: nat) {
      i < MAX_PG_NUM && p <= records + RECORD * i < p + 4096
    }
  }

  /** `kern_end - kern_start`, two arrays of `uint`: what is written counts words, what is meant bytes. */
  function Difference(r: Reading, image: Image): nat {
    match r
    case AsWritten => (image.data + image.stab) / 4
    case Intended => image.data + image.stab
  }

  function PageUp(a: nat): nat {
    if a % 4096 != 0 then a / 4096 * 4096 + 4096 else a
  }

  /** The first page the boot scan takes. */
  function ScanBase(r: Reading, image: Image): nat {
    PageUp(LOAD + Difference(r, image))
  }

  /** How many pages the scan takes when the memory ends at `end`. */
  function ScanTotal(base: nat, end: nat): nat {
    if base >= end || base > MAXSIZE then 0
    else 1 + ((if end <= MAXSIZE then end - 1 else MAXSIZE) - base) / 4096
  }

  /** The pages taken are those that start below `end`, the one at 512 MB included. */
  lemma ScanTakes(base: nat, end: nat, k: nat)
    ensures k < ScanTotal(base, end) <==> base + 4096 * k < end && base + 4096 * k <= MAXSIZE
  {
  }

  /**
    The first page against the end of the image.  It never lies behind all of it, since the entry code is not
    counted.  It lies behind text, data and bss, counting bytes, iff the debugging sections are as large as the
    entry code; counting words, iff they are several times as large as everything else.
   */
  lemma BaseClearsExactly(image: Image)
    requires image.Linked()
    ensures forall r :: ScanBase(r, image) < image.End()
    ensures ScanBase(Intended, image) >= image.BssEnd() <==> image.stab >= image.init
    ensures ScanBase(AsWritten, image) >= image.BssEnd() <==>
              image.init + image.data <= PageUp((image.data + image.stab) / 4)
    ensures ScanBase(AsWritten, image) >= image.BssEnd() ==> image.End() > LOW_MAPPED
  {
    BasesAre(image);
    hide PageUp, ScanBase;
    var words := (image.data + image.stab) / 4;
    assert 4 * words <= image.data + image.stab;
  }

  lemma BasesAre(image: Image)
    requires image.Linked()
    ensures var words := (image.data + image.stab) / 4;
            && ScanBase(AsWritten, image) == LOAD + PageUp(words)
            && words <= PageUp(words) < words + 4096 && PageUp(words) <= image.data + image.stab
    ensures ScanBase(Intended, image) == LOAD + image.data + image.stab
  {
    PageUpAfter(LOAD, (image.data + image.stab) / 4);
    PageUpAfter(LOAD, image.data + image.stab);
    PageUpBounds((image.data + image.stab) / 4);
  }

  lemma PageUpAfter(a: nat, b: nat)
    requires a % 4096 == 0
    ensures PageUp(a + b) == a + PageUp(b)
  {
  }

  lemma PageUpBounds(a: nat)
    ensures a <= PageUp(a) < a + 4096 && PageUp(a) % 4096 == 0
  {
  }

  /** Two stretches of memory have a byte in common. */
  predicate Overlap(a: nat, n: nat, b: nat, k: nat) {
    a < b + k && b < a + n
  }

  /** Behind text, data and bss, no page holds a byte of the records or of the direct map's tables. */
  lemma ClearOfRecords(image: Image, p: nat, i: nat)
    requires image.Linked() && p >= image.BssEnd()
    ensures !Overlap(p, 4096, image.records, RECORDS) && !Overlap(p, 4096, image.tables, TABLES)
    ensures !image.CountInside(p, i)
  {
  }

  /**
    As written, the pages taken reach into the page records of every image within the 8 MB mapped at entry: a
    reference count lies in a page taken iff it lies from the first page on and memory reaches that page, and the last
    count does lie from the first page on.
   */
  lemma RecordsAmongPages(image: Image, end: nat, i: nat)
    requires image.Linked() && image.End() <= LOW_MAPPED && i < MAX_PG_NUM
    ensures var base, a := ScanBase(AsWritten, image), image.records + RECORD * i;
            && ((exists k :: 0 <= k < ScanTotal(base, end) && image.CountInside(Addr(base, k), i))
                <==> base <= a && a - (a - base) % 4096 < end)
            && base <= image.records + RECORD * (MAX_PG_NUM - 1)
  {
    var base, a := ScanBase(AsWritten, image), image.records + RECORD * i;
    if base <= a {
      var k := (a - base) / 4096;
      assert Addr(base, k) == a - (a - base) % 4096;
      ScanTakes(base, end, k);
      assert image.CountInside(Addr(base, k), i);
    }
    forall k | 0 <= k < ScanTotal(base, end) && image.CountInside(Addr(base, k), i)
      ensures base <= a && a - (a - base) % 4096 < end
    {
      ScanTakes(base, end, k);
      assert k == (a - base) / 4096;
    }
  }
}
