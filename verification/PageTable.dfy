/**
 The page table of a 64-bit machine (byterun/memory.c): a hash table with linear
 probing from pages to sets of flags. It refines a map, and every probe ends because
 at most half of the entries are in use.
 */
module PageTable {
  const HASH_FACTOR := 11400714819323198486
  const TWO64 := 0x1_0000_0000_0000_0000

  /** The number of a page and its flags, in one word; the word 0 is an empty entry. */
  datatype Entry = Entry(page: nat, flags: bv8)

  const EMPTY := Entry(0, 0)

  // ----- Hashing -----

  function Pow2(n: nat): (p: nat)
    ensures p > 0
  {
    if n == 0 then 1 else 2 * Pow2(n - 1)
  }

  lemma {:induction false} Pow2Sum(m: nat, n: nat)
    ensures Pow2(m + n) == Pow2(m) * Pow2(n)
  {
    if m > 0 {
      Pow2Sum(m - 1, n);
    }
  }

  lemma Pow64()
    ensures Pow2(64) == TWO64
  {
    assert Pow2(8) == 0x100;
    Pow2Sum(8, 8);
    Pow2Sum(16, 16);
    Pow2Sum(32, 32);
  }

  lemma DoubleSize(size: nat, shift: nat)
    requires size * Pow2(shift) == TWO64 && size < TWO64
    ensures shift > 0 && 2 * size * Pow2(shift - 1) == TWO64
  {
    if shift > 0 {
      assert 2 * size * Pow2(shift - 1) == size * (2 * Pow2(shift - 1));
    }
  }

  function Scrambled(page: nat): nat { page * HASH_FACTOR % TWO64 }

  function Quotient(x: nat, p: nat): nat
    requires p > 0
  {
    x / p
  }

  /** `Hash`. */
  function Hash(page: nat, shift: nat): nat { Quotient(Scrambled(page), Pow2(shift)) }

  lemma Monotone(m: nat, n: nat, p: nat)
    ensures m <= n ==> m * p <= n * p
  {
  }

  lemma QuotientBelow(x: nat, p: nat, n: nat)
    requires p > 0 && x < n * p
    ensures x / p < n
  {
    assert x / p * p <= x;
    Monotone(n, x / p, p);
  }

  lemma HashBelow(page: nat, shift: nat, size: nat)
    requires size * Pow2(shift) == TWO64
    ensures Hash(page, shift) < size
  {
    QuotientBelow(Scrambled(page), Pow2(shift), size);
  }

  // ----- Probing -----

  /** The slot `k` places after `h`, around the table. */
  function At(h: nat, k: nat, size: nat): nat
    requires h < size && k < size
  {
    if h + k < size then h + k else h + k - size
  }

  /** How far slot `j` is after slot `h`. */
  function Distance(h: nat, j: nat, size: nat): nat
    requires h < size && j < size
  {
    if j >= h then j - h else j + size - h
  }

  lemma AtDistance(h: nat, j: nat, size: nat)
    requires h < size && j < size
    ensures Distance(h, j, size) < size && At(h, Distance(h, j, size), size) == j
  {
  }

  function Next(h: nat, size: nat): nat
    requires h < size
  {
    if h + 1 == size then 0 else h + 1
  }

  /** The `n` slots from `h` on are in use, by other pages than `page`. */
  ghost predicate Passed(es: seq<Entry>, h: nat, n: nat, page: nat)
    requires h < |es| && n <= |es|
  {
    forall k :: 0 <= k < n ==> es[At(h, k, |es|)] != EMPTY && es[At(h, k, |es|)].page != page
  }

  ghost predicate InUse(es: seq<Entry>, h: nat, n: nat)
    requires h < |es| && n <= |es|
  {
    forall k :: 0 <= k < n ==> es[At(h, k, |es|)] != EMPTY
  }

  // ----- Tables -----

  /** The entry in slot `j` can be reached from the slot that its page hashes to. */
  ghost predicate Reached(es: seq<Entry>, shift: nat, j: nat) {
    j < |es| && es[j] != EMPTY ==>
      var h := Hash(es[j].page, shift);
      es[j].page != 0 && h < |es| && InUse(es, h, Distance(h, j, |es|))
  }

  ghost predicate Distinct(es: seq<Entry>, i: nat, j: nat) {
    i < j < |es| && es[i] != EMPTY && es[j] != EMPTY ==> es[i].page != es[j].page
  }

  ghost predicate TableOk(es: seq<Entry>, shift: nat) {
    && |es| * Pow2(shift) == TWO64
    && (forall j: nat {:trigger Reached(es, shift, j)} :: Reached(es, shift, j))
    && (forall i: nat, j: nat {:trigger Distinct(es, i, j)} :: Distinct(es, i, j))
  }

  function Used(es: seq<Entry>): nat {
    if es == [] then 0 else (if es[0] != EMPTY then 1 else 0) + Used(es[1..])
  }

  lemma {:induction false} UsedUpdate(es: seq<Entry>, j: nat, e: Entry)
    requires j < |es| && e != EMPTY
    ensures Used(es[j := e]) == Used(es) + (if es[j] == EMPTY then 1 else 0)
  {
    if j == 0 {
      assert es[j := e][1..] == es[1..];
    } else {
      assert es[j := e][1..] == es[1..][j - 1 := e];
      UsedUpdate(es[1..], j - 1, e);
    }
  }

  lemma {:induction false} FindEmpty(es: seq<Entry>) returns (z: nat)
    requires Used(es) < |es|
    ensures z < |es| && es[z] == EMPTY
  {
    if es[0] == EMPTY {
      z := 0;
    } else {
      z := FindEmpty(es[1..]);
      z := z + 1;
    }
  }

  // ----- The map -----

  ghost predicate Stores(es: seq<Entry>, j: nat, pages: map<nat, bv8>) {
    j < |es| && es[j] != EMPTY ==> es[j].page in pages && pages[es[j].page] == es[j].flags
  }

  ghost predicate Finds(es: seq<Entry>, page: nat, pages: map<nat, bv8>) {
    page in pages ==> exists j: nat :: j < |es| && es[j] != EMPTY && es[j].page == page
  }

  /** The table holds the map `pages`. */
  ghost predicate Represents(es: seq<Entry>, pages: map<nat, bv8>) {
    && (forall j: nat {:trigger Stores(es, j, pages)} :: Stores(es, j, pages))
    && (forall page: nat {:trigger Finds(es, page, pages)} :: Finds(es, page, pages))
  }

  function Flags(pages: map<nat, bv8>, page: nat): bv8 {
    if page in pages then pages[page] else 0
  }

  /** A probe that comes to an empty slot has shown that the page is not there. */
  lemma NotThere(es: seq<Entry>, shift: nat, page: nat, k: nat, pages: map<nat, bv8>)
    requires TableOk(es, shift) && Represents(es, pages) && k < |es| && Hash(page, shift) < |es|
    requires Passed(es, Hash(page, shift), k, page) && es[At(Hash(page, shift), k, |es|)] == EMPTY
    ensures page !in pages
  {
    var h := Hash(page, shift);
    forall j: nat | j < |es| && es[j] != EMPTY ensures es[j].page != page {
      assert Reached(es, shift, j);
      AtDistance(h, j, |es|);
    }
    assert Finds(es, page, pages);
  }

  /** A new entry at the end of its probe. */
  lemma InsertOk(es: seq<Entry>, shift: nat, e: Entry, k: nat, pages: map<nat, bv8>)
    requires TableOk(es, shift) && Represents(es, pages) && k < |es| && Hash(e.page, shift) < |es| && e.page != 0
    requires Passed(es, Hash(e.page, shift), k, e.page) && es[At(Hash(e.page, shift), k, |es|)] == EMPTY
    ensures var es' := es[At(Hash(e.page, shift), k, |es|) := e];
            TableOk(es', shift) && Represents(es', pages[e.page := e.flags]) && Used(es') == Used(es) + 1
    ensures e.page !in pages
  {
    NotThere(es, shift, e.page, k, pages);
    var h := Hash(e.page, shift);
    var z := At(h, k, |es|);
    var es', pages' := es[z := e], pages[e.page := e.flags];
    forall j: nat ensures Reached(es', shift, j) {
      assert Reached(es, shift, j);
      assert j == z ==> Distance(h, j, |es|) == k;
    }
    forall i: nat, j: nat ensures Distinct(es', i, j) {
      assert Distinct(es, i, j) && Stores(es, i, pages) && Stores(es, j, pages);
    }
    forall j: nat ensures Stores(es', j, pages') {
      assert Stores(es, j, pages);
    }
    forall page: nat ensures Finds(es', page, pages') {
      assert Finds(es, page, pages);
      if page == e.page {
        assert es'[z] != EMPTY && es'[z].page == page;
      } else if page in pages {
        var j: nat :| j < |es| && es[j] != EMPTY && es[j].page == page;
        assert es'[j] == es[j];
      }
    }
    UsedUpdate(es, z, e);
  }

  /** New flags for the entry of a page. */
  lemma ReplaceOk(es: seq<Entry>, shift: nat, j: nat, flags: bv8, pages: map<nat, bv8>)
    requires TableOk(es, shift) && Represents(es, pages) && j < |es| && es[j] != EMPTY
    ensures var es' := es[j := es[j].(flags := flags)];
            TableOk(es', shift) && Represents(es', pages[es[j].page := flags]) && Used(es') == Used(es)
    ensures es[j].page in pages && pages[es[j].page] == es[j].flags
  {
    var page := es[j].page;
    var es', pages' := es[j := Entry(page, flags)], pages[page := flags];
    assert Reached(es, shift, j) && Stores(es, j, pages);
    forall i: nat ensures Reached(es', shift, i) {
      assert Reached(es, shift, i);
    }
    forall i: nat, i': nat ensures Distinct(es', i, i') {
      assert Distinct(es, i, i');
    }
    forall i: nat ensures Stores(es', i, pages') {
      assert Stores(es, i, pages) && Distinct(es, i, j) && Distinct(es, j, i);
    }
    forall p: nat ensures Finds(es', p, pages') {
      assert Finds(es, p, pages);
      if p in pages {
        var i: nat :| i < |es| && es[i] != EMPTY && es[i].page == p;
        assert es'[i].page == p && es'[i] != EMPTY;
      }
    }
    UsedUpdate(es, j, Entry(page, flags));
  }

  /** A table without entries. */
  lemma EmptyOk(es: seq<Entry>, shift: nat)
    requires |es| * Pow2(shift) == TWO64 && forall j :: 0 <= j < |es| ==> es[j] == EMPTY
    ensures TableOk(es, shift) && Represents(es, map[]) && Used(es) == 0
  {
    NothingUsed(es);
  }

  lemma {:induction false} NothingUsed(es: seq<Entry>)
    requires forall j :: 0 <= j < |es| ==> es[j] == EMPTY
    ensures Used(es) == 0
  {
    if es != [] {
      NothingUsed(es[1..]);
    }
  }

  // ----- Growing -----

  lemma SubMap(es: seq<Entry>, pages: map<nat, bv8>, pages': map<nat, bv8>)
    requires Represents(es, pages) && Represents(es, pages')
    ensures forall page :: page in pages ==> page in pages' && pages[page] == pages'[page]
  {
    forall page: nat | page in pages ensures page in pages' && pages[page] == pages'[page] {
      assert Finds(es, page, pages);
      var j: nat :| j < |es| && es[j] != EMPTY && es[j].page == page;
      assert Stores(es, j, pages) && Stores(es, j, pages');
    }
  }

  lemma SameMap(es: seq<Entry>, pages: map<nat, bv8>, pages': map<nat, bv8>)
    requires Represents(es, pages) && Represents(es, pages')
    ensures pages == pages'
  {
    SubMap(es, pages, pages');
    SubMap(es, pages', pages);
  }

  /** One more entry of a table that is copied. */
  lemma OneMore(es: seq<Entry>, i: nat, pages: map<nat, bv8>)
    requires i < |es| && Represents(es[..i], pages) && es[i] != EMPTY
    requires forall j: nat {:trigger Distinct(es, j, i)} :: Distinct(es, j, i)
    ensures es[i].page !in pages
    ensures Represents(es[..i + 1], pages[es[i].page := es[i].flags]) && Used(es[..i + 1]) == Used(es[..i]) + 1
  {
    var before, after := es[..i], es[..i + 1];
    var page := es[i].page;
    var pages' := pages[page := es[i].flags];
    forall j: nat | j < i && before[j] != EMPTY ensures before[j].page != page {
      assert Distinct(es, j, i);
    }
    assert Finds(before, page, pages);
    forall j: nat ensures Stores(after, j, pages') {
      assert Stores(before, j, pages);
    }
    forall p: nat ensures Finds(after, p, pages') {
      assert Finds(before, p, pages);
      if p == page {
        assert after[i] == es[i];
      } else if p in pages {
        var j: nat :| j < i && before[j] != EMPTY && before[j].page == p;
        assert after[j] == before[j];
      }
    }
    assert after == before + [es[i]];
    UsedSnoc(before, es[i]);
  }

  /** An empty entry is not copied. */
  lemma NoMore(es: seq<Entry>, i: nat, pages: map<nat, bv8>)
    requires i < |es| && Represents(es[..i], pages) && es[i] == EMPTY
    ensures Represents(es[..i + 1], pages) && Used(es[..i + 1]) == Used(es[..i])
  {
    var before, after := es[..i], es[..i + 1];
    assert after == before + [es[i]];
    forall j: nat ensures Stores(after, j, pages) {
      assert Stores(before, j, pages);
    }
    forall p: nat ensures Finds(after, p, pages) {
      assert Finds(before, p, pages);
      if p in pages {
        var j: nat :| j < i && before[j] != EMPTY && before[j].page == p;
        assert after[j] == before[j];
      }
    }
    UsedSnoc(before, es[i]);
  }

  lemma {:induction false} UsedSnoc(es: seq<Entry>, e: Entry)
    ensures Used(es + [e]) == Used(es) + (if e == EMPTY then 0 else 1)
    ensures Used(es) <= |es|
  {
    if es != [] {
      assert (es + [e])[1..] == es[1..] + [e];
      UsedSnoc(es[1..], e);
    }
  }

  /** Pages that are not in the map are passed over. */
  lemma OthersPassed(es: seq<Entry>, h: nat, n: nat, page: nat, pages: map<nat, bv8>)
    requires h < |es| && n <= |es| && InUse(es, h, n) && Represents(es, pages) && page !in pages
    ensures Passed(es, h, n, page)
  {
    forall k: nat | k < n ensures es[At(h, k, |es|)].page != page {
      assert Stores(es, At(h, k, |es|), pages);
    }
  }

  // ----- The table in place -----

  const PAGE_SIZE := 4096

  class Table {
    var entries: array<Entry>
    var shift: nat
    var occupancy: nat
    /** The map that the table holds. */
    ghost var pages: map<nat, bv8>

    ghost predicate Valid()
      reads this, entries
    {
      && TableOk(entries[..], shift) && Represents(entries[..], pages) && occupancy == Used(entries[..])
      && entries.Length % 2 == 0 && 2 * occupancy <= entries.Length && 0 < entries.Length
    }

    /** `caml_page_table_initialize_r`: the table is made for `bytesize` bytes, at least one
        page, and holds nothing. */
    constructor (bytesize: nat)
      requires PAGE_SIZE <= bytesize < TWO64 / 2
      ensures Valid() && fresh(entries) && pages == map[]
      ensures var n := bytesize / PAGE_SIZE; 2 * n <= entries.Length < 4 * n
    {
      var pagesize := bytesize / PAGE_SIZE;
      var size: nat, sh: nat := 1, 64;
      Pow64();
      while size < 2 * pagesize
        invariant size * Pow2(sh) == TWO64 && 0 < size < 4 * pagesize && (size % 2 == 0 || size == 1)
      {
        DoubleSize(size, sh);
        size, sh := 2 * size, sh - 1;
      }
      var es := new Entry[size](_ => EMPTY);
      EmptyOk(es[..], sh);
      entries, shift, occupancy := es, sh, 0;
      pages := map[];
    }

    /** `caml_page_table_lookup_r`: the flags of a page, none when it is not in the table. */
    method Lookup(page: nat) returns (flags: bv8)
      requires Valid()
      ensures flags == Flags(pages, page)
    {
      ghost var es := entries[..];
      HashBelow(page, shift, |es|);
      ghost var z := FindEmpty(es);
      ghost var h0, k: nat := Hash(page, shift), 0;
      AtDistance(h0, z, |es|);
      var h := Hash(page, shift);
      while entries[h].page != page
        invariant k <= Distance(h0, z, |es|) && h == At(h0, k, |es|) && Passed(es, h0, k, page)
        decreases Distance(h0, z, |es|) - k
      {
        if entries[h] == EMPTY {
          NotThere(es, shift, page, k, pages);
          return 0;
        }
        h := Next(h, entries.Length);
        k := k + 1;
      }
      flags := entries[h].flags;
      FoundFlags(es, shift, h, pages);
    }

    /** `caml_page_table_resize_r`: the entries go into a table of twice the size. */
    method Resize() returns (ok: bool)
      requires Valid()
      modifies this`entries, this`shift
      ensures Valid() && (ok ==> fresh(entries) && entries.Length == 2 * old(entries.Length))
      ensures !ok ==> entries == old(entries) && shift == old(shift)
    {
      var memory: bool := *;
      if !memory || shift == 0 {
        return false;
      }
      var old', sh := entries, shift - 1;
      var q := new Entry[2 * old'.Length](_ => EMPTY);
      assert Pow2(sh + 1) == 2 * Pow2(sh);
      EmptyOk(q[..], sh);
      ghost var m: map<nat, bv8> := map[];
      ghost var es := old'[..];
      for i := 0 to old'.Length
        invariant unchanged(this) && unchanged(old')
        invariant TableOk(q[..], sh) && Represents(q[..], m) && Represents(es[..i], m) && Used(q[..]) == Used(es[..i])
      {
        var e := old'[i];
        if e == EMPTY {
          NoMore(es, i, m);
        } else {
          assert Reached(es, sh + 1, i);
          OneMore(es, i, m);
          UsedSnoc(es[..i], e);
          Reinsert(q, sh, e, m);
          m := m[e.page := e.flags];
        }
      }
      assert es[..old'.Length] == es;
      SameMap(es, m, pages);
      entries, shift := q, sh;
      return true;
    }

    /** Put an entry whose page is not in the table `q` into the first free slot. */
    static method Reinsert(q: array<Entry>, sh: nat, e: Entry, ghost m: map<nat, bv8>)
      requires TableOk(q[..], sh) && Represents(q[..], m) && Used(q[..]) < q.Length && e.page != 0 && e.page !in m
      modifies q
      ensures TableOk(q[..], sh) && Represents(q[..], m[e.page := e.flags]) && Used(q[..]) == old(Used(q[..])) + 1
    {
      ghost var es := q[..];
      HashBelow(e.page, sh, |es|);
      ghost var z := FindEmpty(es);
      ghost var h0, k: nat := Hash(e.page, sh), 0;
      AtDistance(h0, z, |es|);
      var h := Hash(e.page, sh);
      while q[h] != EMPTY
        invariant k <= Distance(h0, z, |es|) && h == At(h0, k, |es|) && InUse(es, h0, k)
        decreases Distance(h0, z, |es|) - k
      {
        h := Next(h, q.Length);
        k := k + 1;
      }
      OthersPassed(es, h0, k, e.page, m);
      InsertOk(es, sh, e, k, m);
      q[h] := e;
      assert q[..] == es[h := e];
    }

    /** The first slot from the one that the page hashes to that is free or has the page. */
    method Probe(page: nat) returns (h: nat, ghost k: nat)
      requires Valid() && page != 0
      ensures h < entries.Length && k < entries.Length && Hash(page, shift) < entries.Length
      ensures h == At(Hash(page, shift), k, entries.Length) && Passed(entries[..], Hash(page, shift), k, page)
      ensures entries[h] == EMPTY || entries[h].page == page
    {
      ghost var es := entries[..];
      HashBelow(page, shift, |es|);
      ghost var z := FindEmpty(es);
      ghost var h0 := Hash(page, shift);
      AtDistance(h0, z, |es|);
      h, k := Hash(page, shift), 0;
      while entries[h] != EMPTY && entries[h].page != page
        invariant k <= Distance(h0, z, |es|) && h == At(h0, k, |es|) && Passed(es, h0, k, page)
        decreases Distance(h0, z, |es|) - k
      {
        h := Next(h, entries.Length);
        k := k + 1;
      }
    }

    /** A new entry, at the end of the probe of its page. */
    method Insert(h: nat, ghost k: nat, e: Entry)
      requires Valid() && 2 * occupancy < entries.Length && e.page != 0
      requires h < entries.Length && k < entries.Length && Hash(e.page, shift) < entries.Length
      requires h == At(Hash(e.page, shift), k, entries.Length) && Passed(entries[..], Hash(e.page, shift), k, e.page)
      requires entries[h] == EMPTY
      modifies this`occupancy, this`pages, entries
      ensures Valid() && e.page !in old(pages) && pages == old(pages)[e.page := e.flags]
    {
      ghost var es := entries[..];
      InsertOk(es, shift, e, k, pages);
      entries[h] := e;
      assert entries[..] == es[h := e];
      occupancy := occupancy + 1;
      pages := pages[e.page := e.flags];
    }

    /** New flags for the entry in slot `h`. */
    method Replace(h: nat, flags: bv8)
      requires Valid() && h < entries.Length && entries[h] != EMPTY
      modifies this`pages, entries
      ensures Valid() && old(entries[h]).page in old(pages) && old(pages[entries[h].page]) == old(entries[h].flags)
      ensures pages == old(pages)[old(entries[h]).page := flags]
    {
      ghost var es := entries[..];
      ReplaceOk(es, shift, h, flags, pages);
      pages := pages[entries[h].page := flags];
      entries[h] := entries[h].(flags := flags);
      assert entries[..] == es[h := es[h].(flags := flags)];
    }

    /** `caml_page_table_modify_r`: flags of one page are cleared and set; it fails only when
        the table cannot grow. */
    method Modify(page: nat, toClear: bv8, toSet: bv8) returns (ok: bool)
      requires Valid() && page != 0
      modifies this, entries
      ensures Valid() && (entries == old(entries) || fresh(entries))
      ensures pages == if ok then old(pages)[page := Changed(Flags(old(pages), page), toClear, toSet)] else old(pages)
    {
      if 2 * occupancy >= entries.Length {
        ok := Resize();
        if !ok {
          return;
        }
      }
      ok := true;
      ghost var k;
      var h;
      h, k := Probe(page);
      if entries[h] == EMPTY {
        NothingCleared(toClear, toSet);
        Insert(h, k, Entry(page, toSet));
      } else {
        Replace(h, Changed(entries[h].flags, toClear, toSet));
      }
    }

    /** `caml_page_table_add_r`: the pages from that of `start` to that of the last byte before
        `end` get the flags `kind`; when it fails only some of them have. */
    method AddRange(kind: bv8, start: nat, end: nat) returns (ok: bool, ghost done: nat)
      requires Valid() && PAGE_SIZE <= start && 0 < end
      modifies this, entries
      ensures Valid() && (entries == old(entries) || fresh(entries))
      ensures ok ==> done == Upto(start, end)
      ensures forall p: nat :: Flags(pages, p) == if start / PAGE_SIZE <= p < done then Flags(old(pages), p) | kind
              else Flags(old(pages), p)
    {
      ok, done := ChangeRange(0, kind, start, end);
      forall p: nat ensures Changed(Flags(old(pages), p), 0, kind) == Flags(old(pages), p) | kind {
        OnlySet(Flags(old(pages), p), kind);
      }
    }

    /** `caml_page_table_remove_r`. */
    method RemoveRange(kind: bv8, start: nat, end: nat) returns (ok: bool, ghost done: nat)
      requires Valid() && PAGE_SIZE <= start && 0 < end
      modifies this, entries
      ensures Valid() && (entries == old(entries) || fresh(entries))
      ensures ok ==> done == Upto(start, end)
      ensures forall p: nat :: Flags(pages, p) == if start / PAGE_SIZE <= p < done then Flags(old(pages), p) & !kind
              else Flags(old(pages), p)
    {
      ok, done := ChangeRange(kind, 0, start, end);
      forall p: nat ensures Changed(Flags(old(pages), p), kind, 0) == Flags(old(pages), p) & !kind {
        OnlyClear(Flags(old(pages), p), kind);
      }
    }

    /** The loop over the pages of a range. */
    method ChangeRange(toClear: bv8, toSet: bv8, start: nat, end: nat) returns (ok: bool, ghost done: nat)
      requires Valid() && PAGE_SIZE <= start && 0 < end
      modifies this, entries
      ensures Valid() && (entries == old(entries) || fresh(entries))
      ensures ok ==> done == Upto(start, end)
      ensures forall p: nat :: Flags(pages, p) == if start / PAGE_SIZE <= p < done
              then Changed(Flags(old(pages), p), toClear, toSet) else Flags(old(pages), p)
    {
      var first, last := start / PAGE_SIZE, (end - 1) / PAGE_SIZE;
      var p: nat := first;
      done := first;
      while p <= last
        invariant Valid() && (entries == old(entries) || fresh(entries)) && done == p && (p == first || p <= last + 1)
        invariant forall q: nat :: Flags(pages, q) == if first <= q < p
                  then Changed(Flags(old(pages), q), toClear, toSet) else Flags(old(pages), q)
        decreases last + 1 - p
      {
        ok := Modify(p, toClear, toSet);
        if !ok {
          return;
        }
        p := p + 1;
        done := p;
      }
      ok := true;
    }
  }

  function Changed(flags: bv8, toClear: bv8, toSet: bv8): bv8 { (flags & !toClear) | toSet }

  /** One past the last page of a range, which may be empty. */
  function Upto(start: nat, end: nat): nat
    requires end > 0
  {
    var first, last := start / PAGE_SIZE, (end - 1) / PAGE_SIZE;
    if last < first then first else last + 1
  }

  lemma NothingCleared(toClear: bv8, toSet: bv8)
    ensures Changed(0, toClear, toSet) == toSet
  {
  }

  lemma OnlySet(flags: bv8, kind: bv8)
    ensures Changed(flags, 0, kind) == flags | kind
  {
  }

  lemma OnlyClear(flags: bv8, kind: bv8)
    ensures Changed(flags, kind, 0) == flags & !kind
  {
  }

  lemma FoundFlags(es: seq<Entry>, shift: nat, h: nat, pages: map<nat, bv8>)
    requires TableOk(es, shift) && Represents(es, pages) && h < |es|
    ensures es[h].flags == Flags(pages, es[h].page)
  {
    assert Stores(es, h, pages) && Finds(es, 0, pages);
    forall j: nat | j < |es| && es[j] != EMPTY ensures es[j].page != 0 {
      assert Reached(es, shift, j);
    }
  }
}
