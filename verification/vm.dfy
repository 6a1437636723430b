/** User address spaces of kernel/vm.c over the page allocator of kernel/kalloc.c. Virtual addresses are counted in
    pages, physical memory in frames. A page table that is absent from the directory has no entries. */
module Vm {
  import opened Bytes

  const PGSIZE := 4096
  const NPTENTRIES := 512
  const NPDENTRIES := 512
  const USERPAGES := 0x3fa00   // the user part of a directory, in pages

  type Page = p: seq<byte> | |p| == 4096 witness seq(4096, _ => 0)

  function Filled(b: byte): (r: Page)
    ensures forall i :: 0 <= i < |r| ==> r[i] == b
  {
    seq(4096, _ => b)
  }

  datatype Pte = Pte(frame: nat, flags: nat)

  /** Directory entries that are present, with the frame of the page table, and page table entries that are present. */
  datatype Dir = Dir(tables: map<nat, nat>, ptes: map<nat, Pte>)

  function PDX(v: nat): nat {
    v / NPTENTRIES
  }

  predicate Distinct(s: seq<nat>) {
    forall i, j :: 0 <= i < j < |s| ==> s[i] != s[j]
  }

  predicate InDir(d: Dir, f: nat) {
    (exists t :: t in d.tables && d.tables[t] == f) || (exists v :: v in d.ptes && d.ptes[v].frame == f)
  }

  /** Every frame is free, in the directory in one place, or somewhere else. */
  predicate Sound(d: Dir, free: seq<nat>, frames: set<nat>, others: set<nat>) {
    && Distinct(free) && (forall f :: f in free ==> f in frames && f !in others)
    && (forall v :: v in d.ptes ==>
          PDX(v) in d.tables && d.ptes[v].frame in frames && d.ptes[v].frame !in free && d.ptes[v].frame !in others)
    && (forall t :: t in d.tables ==> d.tables[t] in frames && d.tables[t] !in free && d.tables[t] !in others)
    && (forall v, w :: v in d.ptes && w in d.ptes && v != w ==> d.ptes[v].frame != d.ptes[w].frame)
    && (forall t, u :: t in d.tables && u in d.tables && t != u ==> d.tables[t] != d.tables[u])
    && (forall t, v :: t in d.tables && v in d.ptes ==> d.tables[t] != d.ptes[v].frame)
    && Covered(d, free, frames, others)
  }

  predicate Covered(d: Dir, free: seq<nat>, frames: set<nat>, others: set<nat>) {
    forall f :: f in frames ==> f in free || f in others || InDir(d, f)
  }

  // ----- the four changes -----

  /** kalloc: the first free frame is now somewhere else. */
  lemma {:induction false} SoundAlloc(d: Dir, free: seq<nat>, frames: set<nat>, others: set<nat>)
    requires Sound(d, free, frames, others) && free != []
    ensures Sound(d, free[1..], frames, others + {free[0]}) && free[0] in frames && free[0] !in others
    ensures !InDir(d, free[0])
  {
    assert forall f :: f in free <==> f == free[0] || f in free[1..];
  }

  /** A frame from somewhere else becomes a page table. */
  lemma {:induction false} SoundTable(d: Dir, free: seq<nat>, frames: set<nat>, others: set<nat>, t: nat, f: nat)
    requires Sound(d, free, frames, others + {f}) && f !in others && f in frames && f !in free && !InDir(d, f)
    requires t !in d.tables
    ensures Sound(d.(tables := d.tables[t := f]), free, frames, others)
  {
    var e := d.(tables := d.tables[t := f]);
    assert e.tables[t] == f;
    forall g | g in frames
      ensures g in free || g in others || InDir(e, g)
    {
      if InDir(d, g) && exists u :: u in d.tables && d.tables[u] == g {
        var u :| u in d.tables && d.tables[u] == g;
        assert e.tables[u] == g;
      }
    }
  }

  /** A frame from somewhere else becomes the page at v. */
  lemma {:induction false} SoundMap(d: Dir, free: seq<nat>, frames: set<nat>, others: set<nat>, v: nat, p: Pte)
    requires Sound(d, free, frames, others + {p.frame}) && p.frame !in others && p.frame in frames && p.frame !in free
    requires !InDir(d, p.frame)
    requires PDX(v) in d.tables && v !in d.ptes
    ensures Sound(d.(ptes := d.ptes[v := p]), free, frames, others)
  {
    MapCovers(d, free, frames, others, v, p);
    assert forall t :: t in d.tables ==> d.tables[t] != p.frame;
    assert forall w :: w in d.ptes ==> d.ptes[w].frame != p.frame;
    hide Covered, InDir;
  }

  lemma {:induction false} MapCovers(d: Dir, free: seq<nat>, frames: set<nat>, others: set<nat>, v: nat, p: Pte)
    requires Covered(d, free, frames, others + {p.frame}) && v !in d.ptes
    ensures Covered(d.(ptes := d.ptes[v := p]), free, frames, others)
  {
    var e := d.(ptes := d.ptes[v := p]);
    assert e.ptes[v] == p;
    forall g | g in frames
      ensures g in free || g in others || InDir(e, g)
    {
      if InDir(d, g) && exists w :: w in d.ptes && d.ptes[w].frame == g {
        var w :| w in d.ptes && d.ptes[w].frame == g;
        assert e.ptes[w].frame == g;
      }
    }
  }

  /** The page at v is freed. */
  lemma {:induction false} SoundUnmap(d: Dir, free: seq<nat>, frames: set<nat>, others: set<nat>, v: nat)
    requires Sound(d, free, frames, others) && v in d.ptes
    ensures Sound(d.(ptes := d.ptes - {v}), [d.ptes[v].frame] + free, frames, others)
  {
    var e, f := d.(ptes := d.ptes - {v}), d.ptes[v].frame;
    var g := [f] + free;
    assert forall x :: x in g <==> x == f || x in free;
    forall x | x in frames
      ensures x in g || x in others || InDir(e, x)
    {
      if InDir(d, x) && x != f && exists w :: w in d.ptes && d.ptes[w].frame == x {
        var w :| w in d.ptes && d.ptes[w].frame == x;
        assert w in e.ptes;
      }
    }
  }

  // ----- kernel/kalloc.c -----

  const NULL := -1
  const NFRAMES := 0xE000                 // PHYSTOP, in frames
  const KERNBASE := 0xFFFF_FFFF_8000_0000

  /** x as n bytes, the lowest first. */
  function Le(x: nat, n: nat): (r: seq<byte>)
    ensures |r| == n
  {
    if n == 0 then [] else [x % 256] + Le(x / 256, n - 1)
  }

  function OfLe(s: seq<byte>): nat {
    if s == [] then 0 else s[0] + 256 * OfLe(s[1..])
  }

  function Pow256(n: nat): nat {
    if n == 0 then 1 else 256 * Pow256(n - 1)
  }

  lemma {:induction false} LeRoundTrip(x: nat, n: nat)
    requires x < Pow256(n)
    ensures OfLe(Le(x, n)) == x
  {
    if n > 0 {
      LeRoundTrip(x / 256, n - 1);
      assert Le(x, n)[1..] == Le(x / 256, n - 1);
    }
  }

  /** The kernel's address of a frame, p2v. */
  function Address(f: int): nat
    requires NULL <= f < NFRAMES
  {
    if f == NULL then 0 else KERNBASE + PGSIZE * f
  }

  /** `r->next = next` on a page. */
  function PutLink(p: Page, next: int): Page
    requires NULL <= next < NFRAMES
  {
    Le(Address(next), 8) + p[8..]
  }

  /** `r->next`, as a frame. */
  function Next(p: Page): int {
    var a := OfLe(p[..8]);
    if a == 0 then NULL else (a - KERNBASE) / PGSIZE
  }

  lemma {:induction false} LinkRoundTrip(p: Page, next: int)
    requires NULL <= next < NFRAMES
    ensures Next(PutLink(p, next)) == next
  {
    assert Pow256(8) == 0x1_0000_0000_0000_0000 by {
      assert Pow256(4) == 0x1_0000_0000;
    }
    LeRoundTrip(Address(next), 8);
    assert PutLink(p, next)[..8] == Le(Address(next), 8);
  }

  /** From head the links in the pages themselves lead through the given frames. */
  ghost predicate Chain(head: int, free: seq<nat>, mem: map<nat, Page>)
    decreases |free|
  {
    if free == [] then head == NULL
    else head == free[0] && free[0] in mem && Chain(Next(mem[free[0]]), free[1..], mem)
  }

  /** Pages that are not free can be written. */
  lemma {:induction false} ChainFrame(head: int, free: seq<nat>, mem: map<nat, Page>, f: nat, page: Page)
    requires Chain(head, free, mem) && f !in free
    ensures Chain(head, free, mem[f := page])
    decreases |free|
  {
    hide Next;
    if free != [] {
      ChainFrame(Next(mem[free[0]]), free[1..], mem, f, page);
    }
  }

  lemma {:induction false} ChainPush(head: int, free: seq<nat>, mem: map<nat, Page>, f: nat, page: Page)
    requires Chain(head, free, mem) && f !in free && Next(page) == head
    ensures Chain(f, [f] + free, mem[f := page])
  {
    hide Next;
    ChainFrame(head, free, mem, f, page);
    assert ([f] + free)[1..] == free;
  }

  /** kmem: the free list is threaded through the free pages, its head a frame or null. */
  class Kmem {
    var head: int
    var mem: map<nat, Page>
    ghost var freelist: seq<nat>

    ghost predicate Valid()
      reads this
    {
      NULL <= head < NFRAMES && Chain(head, freelist, mem) && forall f :: f in mem ==> f < NFRAMES
    }

    constructor (frames: map<nat, Page>)
      requires forall f :: f in frames ==> f < NFRAMES
      ensures Valid() && freelist == [] && mem == frames
    {
      head, mem, freelist := NULL, frames, [];
    }

    method Kalloc() returns (f: int)
      requires Valid()
      modifies this`head, this`freelist
      ensures Valid()
      ensures old(freelist) == [] ==> f == NULL && freelist == []
      ensures old(freelist) != [] ==> f == old(freelist)[0] && f in mem && freelist == old(freelist)[1..]
    {
      hide Next;
      f := head;
      if f != NULL {
        NextInRange(Next(mem[f]), freelist[1..], mem);
        head := Next(mem[f]);
        freelist := freelist[1..];
      }
    }

    /** kfree; false is the panic on an address that is no page of the allocator's. */
    method Kfree(f: nat) returns (ok: bool)
      requires Valid() && f !in freelist
      modifies this
      ensures Valid() && (ok <==> f in old(mem))
      ensures ok ==> freelist == [f] + old(freelist) && mem == old(mem)[f := PutLink(Filled(1), old(head))]
      ensures !ok ==> freelist == old(freelist) && mem == old(mem) && head == old(head)
    {
      hide Next, PutLink;
      if f !in mem { return false; }
      LinkRoundTrip(Filled(1), head);
      ChainPush(head, freelist, mem, f, PutLink(Filled(1), head));
      mem := mem[f := PutLink(Filled(1), head)];
      head := f;
      freelist := [f] + freelist;
      return true;
    }

    /** A page that is not free is written. */
    method Store(f: nat, page: Page)
      requires Valid() && f in mem && f !in freelist
      modifies this`mem
      ensures Valid() && mem == old(mem)[f := page]
    {
      ChainFrame(head, freelist, mem, f, page);
      mem := mem[f := page];
    }
  }

  lemma {:induction false} NextInRange(head: int, free: seq<nat>, mem: map<nat, Page>)
    requires Chain(head, free, mem) && forall f :: f in mem ==> f < NFRAMES
    ensures NULL <= head < NFRAMES
  {
  }

  // ----- kernel/vm.c -----

  class Pgdir {
    var d: Dir

    constructor ()
      ensures d == Dir(map[], map[])
    {
      d := Dir(map[], map[]);
    }
  }

  /** The pages of so many bytes. */
  function Up(sz: nat): nat {
    (sz + PGSIZE - 1) / PGSIZE
  }

  ghost predicate MappedExactly(d: Dir, n: nat) {
    forall v: nat :: v in d.ptes <==> v < n
  }

  /** The frames not on the old free list have their old contents. */
  predicate Kept(mem0: map<nat, Page>, mem1: map<nat, Page>, free: seq<nat>) {
    mem1.Keys == mem0.Keys && forall f :: f in mem0 && f !in free ==> mem1[f] == mem0[f]
  }

  /** The page table page for v, made if need be. */
  method Walkpgdir(k: Kmem, pg: Pgdir, v: nat, alloc: bool, ghost others: set<nat>) returns (ok: bool)
    requires Sound(pg.d, k.freelist, k.mem.Keys, others) && k.Valid()
    modifies k, pg
    ensures k.Valid()
    ensures Sound(pg.d, k.freelist, k.mem.Keys, others) && pg.d.ptes == old(pg.d.ptes)
    ensures Kept(old(k.mem), k.mem, old(k.freelist))
    ensures ok <==> PDX(v) in old(pg.d.tables) || (alloc && old(k.freelist) != [])
    ensures !alloc || !ok || PDX(v) in old(pg.d.tables) ==>
      pg.d == old(pg.d) && k.freelist == old(k.freelist) && k.mem == old(k.mem)
    ensures alloc && ok && PDX(v) !in old(pg.d.tables) ==>
              k.freelist == old(k.freelist)[1..] && pg.d.tables == old(pg.d.tables)[PDX(v) := old(k.freelist)[0]]
  {
    if PDX(v) in pg.d.tables {
      return true;
    }
    if !alloc {
      return false;
    }
    var f := k.Kalloc();
    if f == NULL {
      return false;
    }
    SoundAlloc(pg.d, old(k.freelist), k.mem.Keys, others);
    SoundTable(pg.d, k.freelist, k.mem.Keys, others, PDX(v), f);
    assert f !in k.freelist;
    hide Sound, Chain;
    k.Store(f, Filled(0));
    assert k.mem.Keys == old(k.mem).Keys;
    pg.d := pg.d.(tables := pg.d.tables[PDX(v) := f]);
    return true;
  }

  /** mappages for one page; the frame is not free, not in the directory and not among the others. */
  method Mappages(k: Kmem, pg: Pgdir, v: nat, f: nat, flags: nat, ghost others: set<nat>) returns (ok: bool)
    requires Sound(pg.d, k.freelist, k.mem.Keys, others + {f}) && f in k.mem && f !in others && !InDir(pg.d, f)
    requires v !in pg.d.ptes
    requires k.Valid()
    modifies k, pg
    ensures k.Valid()
    ensures Kept(old(k.mem), k.mem, old(k.freelist))
    ensures ok <==> PDX(v) in old(pg.d.tables) || old(k.freelist) != []
    ensures forall x :: x in k.freelist ==> x in old(k.freelist)
    ensures !ok ==> pg.d == old(pg.d) && k.freelist == [] && k.mem == old(k.mem)
    ensures ok ==> Sound(pg.d, k.freelist, k.mem.Keys, others) && pg.d.ptes == old(pg.d.ptes)[v := Pte(f, flags)]
    ensures ok ==> pg.d.tables.Keys == old(pg.d.tables).Keys + {PDX(v)}
    ensures ok ==> |k.freelist| == |old(k.freelist)| - (if PDX(v) in old(pg.d.tables) then 0 else 1)
  {
    assert f !in k.freelist;
    ok := Walkpgdir(k, pg, v, true, others + {f});
    if ok {
      TableNew(pg.d, old(pg.d), k.freelist, old(k.freelist), k.mem.Keys, others, f, PDX(v));
      SoundMap(pg.d, k.freelist, k.mem.Keys, others, v, Pte(f, flags));
      pg.d := pg.d.(ptes := pg.d.ptes[v := Pte(f, flags)]);
    }
  }

  /** A page table made on the way is not the frame to be mapped. */
  lemma {:induction false} TableNew(d: Dir, d0: Dir, free: seq<nat>, free0: seq<nat>, frames: set<nat>,
                                    others: set<nat>, f: nat, t: nat)
    requires Sound(d0, free0, frames, others + {f}) && !InDir(d0, f) && d.ptes == d0.ptes
    requires (d == d0 && free == free0 && t in d0.tables)
             || (free0 != [] && free == free0[1..] && d.tables == d0.tables[t := free0[0]])
    ensures !InDir(d, f) && f !in free && t in d.tables && d.tables.Keys == d0.tables.Keys + {t}
  {
  }

  // ----- deallocuvm -----

  /** Where deallocuvm's walk goes from page a: past an absent page table it jumps by a whole table. */
  function Onward(tables: set<nat>, a: nat): nat {
    if PDX(a) in tables then a + 1 else a + NPTENTRIES
  }

  predicate Visited(tables: set<nat>, a: nat, v: nat)
    decreases if a <= v then v - a + 1 else 0
  {
    a == v || (a < v && Visited(tables, Onward(tables, a), v))
  }

  /** The walk from page a comes to page v. */
  predicate Hit(tables: set<nat>, a: nat, v: nat) {
    PDX(a) in tables || a % NPTENTRIES <= v % NPTENTRIES || exists t :: t in tables && PDX(a) < t < PDX(v)
  }

  /** It comes to a page that has a page table exactly if the first page has one too, or is no further into its table
      than that page, or there is a table in between: past an absent table the walk keeps its place in the next one. */
  lemma {:induction false} VisitedExactly(tables: set<nat>, a: nat, v: nat)
    requires PDX(v) in tables
    ensures Visited(tables, a, v) <==> a <= v && Hit(tables, a, v)
    decreases if a <= v then v - a + 1 else 0
  {
    if a < v {
      var b := Onward(tables, a);
      VisitedExactly(tables, b, v);
      if PDX(a) !in tables {
        assert PDX(b) == PDX(a) + 1 && b % NPTENTRIES == a % NPTENTRIES;
      } else {
        assert PDX(b) == PDX(a) || (PDX(b) == PDX(a) + 1 && b % NPTENTRIES == 0);
      }
    }
  }

  /** Any page is unmapped that the walk comes to, and no other. */
  method Deallocuvm(k: Kmem, pg: Pgdir, oldsz: nat, newsz: nat, ghost others: set<nat>) returns (r: nat)
    requires Sound(pg.d, k.freelist, k.mem.Keys, others) && k.Valid()
    modifies k, pg
    ensures k.Valid() && r == if newsz >= oldsz then oldsz else newsz
    ensures Sound(pg.d, k.freelist, k.mem.Keys, others) && pg.d.tables == old(pg.d.tables)
    ensures k.mem.Keys == old(k.mem).Keys
    ensures forall v :: v in pg.d.ptes <==>
              v in old(pg.d.ptes) && !(Up(newsz) <= v < Up(oldsz) && Hit(old(pg.d.tables).Keys, Up(newsz), v))
    ensures forall v :: v in pg.d.ptes ==> pg.d.ptes[v] == old(pg.d.ptes)[v]
    ensures forall f :: f in k.mem && f !in k.freelist ==> k.mem[f] == old(k.mem)[f]
  {
    hide Sound, Chain, Visited, Reached, Freed, Hit, Up;
    if newsz >= oldsz {
      UpOrder(oldsz, newsz);
      return oldsz;
    }
    ghost var lo, hi, tables, was := Up(newsz), Up(oldsz), pg.d.tables.Keys, pg.d.ptes;
    HitsFor(pg.d, k.freelist, k.mem.Keys, others, lo);
    var a := Up(newsz);
    FreedStart(was, tables, lo, hi);
    while a * PGSIZE < oldsz
      invariant lo <= a && pg.d.tables == old(pg.d.tables) && k.mem.Keys == old(k.mem).Keys && k.Valid()
      invariant Sound(pg.d, k.freelist, k.mem.Keys, others)
      invariant Reached(tables, lo, a) && Freed(was, pg.d.ptes, tables, lo, a, hi)
      invariant forall f :: f in k.mem && f !in k.freelist ==> k.mem[f] == old(k.mem)[f]
      decreases oldsz - a * PGSIZE
    {
      UpFacts(oldsz, a);
      FreedNext(was, pg.d.ptes, tables, lo, a, hi);
      if PDX(a) !in pg.d.tables {
        TableFirst(pg.d, k.freelist, k.mem.Keys, others, a);
        a := a + (NPTENTRIES - 1);
      } else if a in pg.d.ptes {
        Unmap(k, pg, a, others);
      }
      a := a + 1;
    }
    UpFacts(oldsz, a);
    FreedEnd(was, pg.d.ptes, tables, lo, a, hi);
    return newsz;
  }

  lemma {:induction false} HitsFor(d: Dir, free: seq<nat>, frames: set<nat>, others: set<nat>, a: nat)
    requires Sound(d, free, frames, others)
    ensures forall v :: v in d.ptes ==> (Visited(d.tables.Keys, a, v) <==> a <= v && Hit(d.tables.Keys, a, v))
  {
    hide Hit, Visited;
    forall v | v in d.ptes ensures Visited(d.tables.Keys, a, v) <==> a <= v && Hit(d.tables.Keys, a, v) {
      VisitedExactly(d.tables.Keys, a, v);
    }
  }

  /** The walk from lo has come to a. */
  ghost predicate Reached(tables: set<nat>, lo: nat, a: nat) {
    forall v :: a <= v ==> (Visited(tables, lo, v) <==> Visited(tables, a, v))
  }

  /** Up to page a the visited pages below hi are gone, and nothing else has changed. */
  ghost predicate Freed(was: map<nat, Pte>, ptes: map<nat, Pte>, tables: set<nat>, lo: nat, a: nat, hi: nat) {
    && (forall v :: v in ptes <==> v in was && !(v < a && v < hi && Visited(tables, lo, v)))
    && (forall v :: v in ptes ==> ptes[v] == was[v])
  }

  lemma {:induction false} FreedStart(was: map<nat, Pte>, tables: set<nat>, lo: nat, hi: nat)
    ensures Reached(tables, lo, lo) && Freed(was, was, tables, lo, lo, hi)
  {
  }

  lemma {:induction false} FreedNext(was: map<nat, Pte>, ptes: map<nat, Pte>, tables: set<nat>, lo: nat, a: nat,
                                     hi: nat)
    requires Reached(tables, lo, a) && Freed(was, ptes, tables, lo, a, hi) && a < hi
    ensures Reached(tables, lo, Onward(tables, a)) && Freed(was, ptes - {a}, tables, lo, Onward(tables, a), hi)
    ensures a !in ptes ==> ptes - {a} == ptes
  {
    var b := Onward(tables, a);
    assert Visited(tables, a, a);
    assert forall v :: a < v ==> (Visited(tables, a, v) <==> Visited(tables, b, v));
    assert forall v :: a < v < b ==> !Visited(tables, b, v);
  }

  lemma {:induction false} FreedEnd(was: map<nat, Pte>, ptes: map<nat, Pte>, tables: set<nat>, lo: nat, a: nat, hi: nat)
    requires Freed(was, ptes, tables, lo, a, hi) && hi <= a
    ensures forall v :: v in ptes <==> v in was && !(v < hi && Visited(tables, lo, v))
    ensures forall v :: v in ptes ==> ptes[v] == was[v]
  {
  }

  lemma {:induction false} TableFirst(d: Dir, free: seq<nat>, frames: set<nat>, others: set<nat>, v: nat)
    requires Sound(d, free, frames, others) && PDX(v) !in d.tables
    ensures v !in d.ptes
  {
  }

  /** deallocuvm's freeing of the page at v. */
  method Unmap(k: Kmem, pg: Pgdir, v: nat, ghost others: set<nat>)
    requires Sound(pg.d, k.freelist, k.mem.Keys, others) && v in pg.d.ptes && k.Valid()
    modifies k, pg
    ensures k.Valid()
    ensures Sound(pg.d, k.freelist, k.mem.Keys, others) && pg.d == old(pg.d).(ptes := old(pg.d.ptes) - {v})
    ensures k.mem.Keys == old(k.mem).Keys
    ensures forall f :: f in k.mem && f !in k.freelist ==> f !in old(k.freelist) && k.mem[f] == old(k.mem)[f]
  {
    SoundUnmap(pg.d, k.freelist, k.mem.Keys, others, v);
    var f := pg.d.ptes[v].frame;
    assert f in k.mem && f !in k.freelist;
    hide Sound, Chain, PutLink;
    var _ := k.Kfree(f);
    assert k.mem.Keys == old(k.mem).Keys;
    pg.d := pg.d.(ptes := pg.d.ptes - {v});
  }

  /** When the pages from 0 on are mapped without a hole, the walk comes to all of them. */
  lemma {:induction false} VisitsAll(d: Dir, free: seq<nat>, frames: set<nat>, others: set<nat>, n: nat, a: nat, v: nat)
    requires Sound(d, free, frames, others) && MappedExactly(d, n) && a <= v < n
    ensures Visited(d.tables.Keys, a, v) && Hit(d.tables.Keys, a, v)
  {
    assert a in d.ptes && v in d.ptes;
    VisitedExactly(d.tables.Keys, a, v);
  }

  /** A directory with a hole: page 512 is mapped, page 1 has no page table. */
  const HOLEY := Dir(map[1 := 10], map[512 := Pte(11, PTE_P + PTE_W + PTE_U)])

  /** There the walk need not come to every mapped page: from page 1 it jumps to page 513 and leaves page 512 mapped. */
  method JumpsOver() returns (k: Kmem, pg: Pgdir)
    ensures k.Valid() && Sound(pg.d, k.freelist, k.mem.Keys, {})
    ensures Up(1 * PGSIZE) <= 512 < Up(513 * PGSIZE) && 512 in pg.d.ptes
  {
    hide Sound, Hit, Chain, Filled;
    var page := Filled(0);
    k := new Kmem(map[10 := page, 11 := page]);
    pg := new Pgdir();
    pg.d := HOLEY;
    HoleySound();
    assert k.mem.Keys == {10, 11};
    var _ := Deallocuvm(k, pg, 513 * PGSIZE, 1 * PGSIZE, {});
  }

  lemma {:induction false} HoleySound()
    ensures Sound(HOLEY, [], {10, 11}, {}) && 512 in HOLEY.ptes && !Hit(HOLEY.tables.Keys, 1, 512)
  {
    assert HOLEY.tables[1] == 10 && HOLEY.ptes[512].frame == 11;
    assert InDir(HOLEY, 10) && InDir(HOLEY, 11);
    assert PDX(1) == 0 && PDX(512) == 1;
  }

  // ----- allocuvm -----

  const PTE_P := 1
  const PTE_W := 2
  const PTE_U := 4

  /** Frames to map the pages from a up to n: one each, and one for each page table that is absent. */
  function Need(tables: set<nat>, a: nat, n: nat): nat
    decreases n - a
  {
    if a >= n then 0 else 1 + (if PDX(a) in tables then 0 else 1) + Need(tables + {PDX(a)}, a + 1, n)
  }

  datatype Outcome = Done | NoFrame | NoTable

  /** kalloc, filling the page and mappages, as allocuvm and copyuvm do for each page. */
  method NewPage(k: Kmem, pg: Pgdir, v: nat, flags: nat, content: Page, ghost others: set<nat>)
    returns (r: Outcome, ghost f: nat)
    requires Sound(pg.d, k.freelist, k.mem.Keys, others) && v !in pg.d.ptes && k.Valid()
    modifies k, pg
    ensures k.Valid()
    ensures Kept(old(k.mem), k.mem, old(k.freelist))
    ensures r == if old(k.freelist) == [] then NoFrame
                 else if |old(k.freelist)| == 1 && PDX(v) !in old(pg.d.tables) then NoTable else Done
    ensures forall x :: x in k.freelist ==> x in old(k.freelist)
    ensures r.NoFrame? ==> pg.d == old(pg.d) && k.freelist == [] && Sound(pg.d, k.freelist, k.mem.Keys, others)
    ensures r.NoTable? ==> pg.d == old(pg.d) && k.freelist == [] && Sound(pg.d, [], k.mem.Keys, others + {f})
    ensures r.Done? ==> Sound(pg.d, k.freelist, k.mem.Keys, others) && pg.d.ptes == old(pg.d.ptes)[v := Pte(f, flags)]
    ensures r.Done? ==>
      f in k.mem && f in old(k.freelist) && k.mem[f] == content && pg.d.tables.Keys == old(pg.d.tables).Keys + {PDX(v)}
    ensures r.Done? ==> |k.freelist| == |old(k.freelist)| - (if PDX(v) in old(pg.d.tables) then 1 else 2)
  {
    f := 0;
    var g := k.Kalloc();
    if g == NULL {
      return NoFrame, f;
    }
    f := g;
    SoundAlloc(pg.d, old(k.freelist), k.mem.Keys, others);
    assert g !in k.freelist;
    hide Sound, InDir, Chain;
    k.Store(g, content);
    assert k.mem.Keys == old(k.mem).Keys;
    var ok := Mappages(k, pg, v, g, flags, others);
    if !ok {
      return NoTable, f;
    }
    return Done, f;
  }

  /** From page lo the directory has grown to the first m pages, the new ones zeroed and writable. */
  ghost predicate Grown(was: Dir, now: Dir, mem: map<nat, Page>, lo: nat, m: nat) {
    && lo <= m && MappedExactly(now, m)
    && (forall v :: v < lo && v in was.ptes && v in now.ptes ==> now.ptes[v] == was.ptes[v])
    && (forall v :: lo <= v && v in now.ptes ==>
          now.ptes[v].flags == PTE_P + PTE_W + PTE_U && now.ptes[v].frame in mem && mem[now.ptes[v].frame] == Filled(0))
  }

  lemma {:induction false} GrownStep(was: Dir, d0: Dir, d1: Dir, mem0: map<nat, Page>, mem1: map<nat, Page>,
                                     free0: seq<nat>, others: set<nat>, lo: nat, m: nat, f: nat)
    requires Grown(was, d0, mem0, lo, m) && Sound(d0, free0, mem0.Keys, others) && Kept(mem0, mem1, free0)
    requires d1.ptes == d0.ptes[m := Pte(f, PTE_P + PTE_W + PTE_U)] && f in mem1 && mem1[f] == Filled(0)
    ensures Grown(was, d1, mem1, lo, m + 1)
  {
  }

  lemma {:induction false} GrownKept(was: Dir, d: Dir, mem0: map<nat, Page>, mem1: map<nat, Page>, free0: seq<nat>,
                                     others: set<nat>, lo: nat, m: nat)
    requires Grown(was, d, mem0, lo, m) && Sound(d, free0, mem0.Keys, others) && Kept(mem0, mem1, free0)
    ensures Grown(was, d, mem1, lo, m)
  {
  }

  lemma {:induction false} KeptTrans(a: map<nat, Page>, b: map<nat, Page>, c: map<nat, Page>, free0: seq<nat>,
                                     free1: seq<nat>)
    requires Kept(a, b, free0) && Kept(b, c, free1) && forall x :: x in free1 ==> x in free0
    ensures Kept(a, c, free0)
  {
  }

  /** The pages that both directories have are the same frames with the same bytes. */
  predicate SamePages(was: Dir, now: Dir, mem0: map<nat, Page>, mem1: map<nat, Page>) {
    forall v :: v in was.ptes && v in now.ptes ==>
      var f := was.ptes[v].frame; now.ptes[v].frame == f && f in mem0 && f in mem1 && mem1[f] == mem0[f]
  }

  lemma {:induction false} GrownSame(was: Dir, now: Dir, free0: seq<nat>, others: set<nat>, mem0: map<nat, Page>,
                                     mem1: map<nat, Page>, lo: nat, m: nat)
    requires Sound(was, free0, mem0.Keys, others) && MappedExactly(was, lo) && Grown(was, now, mem1, lo, m)
    requires Kept(mem0, mem1, free0)
    ensures SamePages(was, now, mem0, mem1)
  {
  }

  lemma {:induction false} LeftMapped(was: Dir, now: Dir, mem: map<nat, Page>, free: seq<nat>, others: set<nat>,
                                      lo: nat, m: nat, hi: nat, v: nat)
    requires MappedExactly(was, lo) && Grown(was, now, mem, lo, m) && m <= hi && Sound(now, free, mem.Keys, others)
    ensures v in now.ptes && !(lo <= v < hi && Hit(now.tables.Keys, lo, v)) <==> v < lo
    ensures v < lo ==> v in was.ptes && now.ptes[v] == was.ptes[v]
  {
    if lo <= v < m { VisitsAll(now, free, mem.Keys, others, m, lo, v); }
  }

  /** allocuvm's undoing of a growth that failed with the first m pages mapped. */
  method Rollback(k: Kmem, pg: Pgdir, newsz: nat, oldsz: nat, ghost others: set<nat>, ghost was: Dir, ghost m: nat)
    requires Sound(pg.d, k.freelist, k.mem.Keys, others) && MappedExactly(was, Up(oldsz)) && oldsz < newsz
    requires Grown(was, pg.d, k.mem, Up(oldsz), m) && m <= Up(newsz) && k.Valid()
    modifies k, pg
    ensures k.Valid() && Sound(pg.d, k.freelist, k.mem.Keys, others) && pg.d.ptes == was.ptes
    ensures SamePages(was, pg.d, old(k.mem), k.mem)
  {
    hide Sound, Hit, Chain, Grown, SamePages, Up;
    ghost var now, mem0, free0 := pg.d, k.mem, k.freelist;
    var _ := Deallocuvm(k, pg, newsz, oldsz, others);
    forall v: nat
      ensures v in pg.d.ptes <==> v < Up(oldsz)
      ensures v < Up(oldsz) ==> v in was.ptes && v in pg.d.ptes && pg.d.ptes[v] == was.ptes[v]
    {
      LeftMapped(was, now, mem0, free0, others, Up(oldsz), m, Up(newsz), v);
    }
    assert pg.d.ptes == was.ptes;
    UsedSame(was, pg.d, k.freelist, others, mem0, k.mem);
  }

  lemma {:induction false} UsedSame(was: Dir, d: Dir, free: seq<nat>, others: set<nat>, mem0: map<nat, Page>,
                                    mem: map<nat, Page>)
    requires Sound(d, free, mem.Keys, others) && d.ptes == was.ptes && mem.Keys == mem0.Keys
    requires forall f :: f in mem && f !in free ==> mem[f] == mem0[f]
    ensures SamePages(was, d, mem0, mem)
  {
  }

  lemma {:induction false} SameTrans(was: Dir, now: Dir, last: Dir, a: map<nat, Page>, b: map<nat, Page>, c: map<nat,
                                     Page>)
    requires SamePages(was, now, a, b) && SamePages(was, last, b, c) && last.ptes == was.ptes
    requires forall v :: v in was.ptes ==> v in now.ptes
    ensures SamePages(was, last, a, c)
  {
  }

  /** Growth is complete exactly when there are frames enough for pages and page tables; a growth that returns 0 leaves
      the user pages as they were; one that returns newsz without being complete lacks just the last page, because the
      result of mappages is ignored. */
  method Allocuvm(k: Kmem, pg: Pgdir, oldsz: nat, newsz: nat, ghost others: set<nat>)
    returns (r: nat, ghost lost: set<nat>)
    requires Sound(pg.d, k.freelist, k.mem.Keys, others) && MappedExactly(pg.d, Up(oldsz))
    requires newsz <= USERPAGES * PGSIZE
    requires k.Valid()
    modifies k, pg
    ensures k.Valid() && Sound(pg.d, k.freelist, k.mem.Keys, others + lost)
    ensures newsz < oldsz ==> r == oldsz && pg.d == old(pg.d) && k.mem == old(k.mem) && k.freelist == old(k.freelist)
    ensures newsz >= oldsz ==>
      (r == newsz && lost == {} <==> |old(k.freelist)| >= Need(old(pg.d.tables).Keys, Up(oldsz), Up(newsz)))
    ensures newsz >= oldsz && r == newsz && lost == {} ==> Grown(old(pg.d), pg.d, k.mem, Up(oldsz), Up(newsz))
    ensures newsz >= oldsz && r == newsz && lost != {} ==>
      Up(newsz) > 0 && Grown(old(pg.d), pg.d, k.mem, Up(oldsz), Up(newsz) - 1)
    ensures newsz >= oldsz ==> (r == newsz && lost != {} <==>
              && |old(k.freelist)| + 1 == Need(old(pg.d.tables).Keys, Up(oldsz), Up(newsz))
              && LastTable(old(pg.d.tables).Keys, Up(oldsz), Up(newsz)))
    ensures newsz >= oldsz && r != newsz ==> r == 0 && pg.d.ptes == old(pg.d.ptes)
    ensures SamePages(old(pg.d), pg.d, old(k.mem), k.mem)
  {
    hide Sound, Chain, Grown, SamePages, Growing, MappedExactly, Need, LastTable;
    if newsz < oldsz {
      assert others + {} == others;
      SamePagesSelf(pg.d, k.freelist, k.mem, others);
      return oldsz, {};
    }
    ghost var was, mem0, free0 := pg.d, k.mem, k.freelist;
    var full;
    ghost var m;
    full, m, lost := GrowLoop(k, pg, oldsz, newsz, others);
    if full {
      GrowingSame(was, pg.d, mem0, k.mem, free0, k.freelist, others, others + lost, Up(oldsz), m);
      return newsz, lost;
    }
    Undo(k, pg, newsz, oldsz, others, others + lost, was, mem0, free0, m);
    return 0, lost;
  }

  lemma {:induction false} SamePagesSelf(d: Dir, free: seq<nat>, mem: map<nat, Page>, others: set<nat>)
    requires Sound(d, free, mem.Keys, others)
    ensures SamePages(d, d, mem, mem)
  {
  }

  /** allocuvm's loop; false if a page cannot be had. */
  method GrowLoop(k: Kmem, pg: Pgdir, oldsz: nat, newsz: nat, ghost others: set<nat>)
    returns (full: bool, ghost m: nat, ghost lost: set<nat>)
    requires Sound(pg.d, k.freelist, k.mem.Keys, others) && MappedExactly(pg.d, Up(oldsz)) && oldsz <= newsz
    requires k.Valid()
    modifies k, pg
    ensures k.Valid()
    ensures Growing(old(pg.d), pg.d, old(k.mem), k.mem, old(k.freelist), k.freelist, others + lost, Up(oldsz), m)
    ensures m <= Up(newsz)
    ensures full && lost == {} <==> |old(k.freelist)| >= Need(old(pg.d.tables).Keys, Up(oldsz), Up(newsz))
    ensures full ==> m + (if lost == {} then 0 else 1) == Up(newsz)
    ensures full && lost != {} <==>
      && |old(k.freelist)| + 1 == Need(old(pg.d.tables).Keys, Up(oldsz), Up(newsz))
      && LastTable(old(pg.d.tables).Keys, Up(oldsz), Up(newsz))
    ensures !full ==> oldsz < newsz
  {
    hide Sound, Chain, Growing, Need, MappedExactly, PDX, Kept, Up, Made;
    var a := Up(oldsz);
    ghost var n := Up(newsz);
    MadeStart(pg.d.tables.Keys, a);
    UpOrder(oldsz, newsz);
    m, lost := a, {};
    ghost var all, short, seen := others, false, pg.d.tables.Keys;
    ghost var was, mem0, free0 := pg.d, k.mem, k.freelist;
    ghost var lo, need := Up(oldsz), Need(was.tables.Keys, Up(oldsz), Up(newsz));
    assert others + {} == others;
    GrowingStart(was, mem0, free0, others, lo);
    while a * PGSIZE < newsz
      invariant lo <= m <= a <= n && a == m + (if short then 1 else 0) && all == others + lost
      invariant (short <==> lost != {})
      invariant Growing(was, pg.d, mem0, k.mem, free0, k.freelist, all, lo, m) && k.Valid()
      invariant !short ==> |k.freelist| - Need(pg.d.tables.Keys, a, n) == |free0| - need
      invariant short ==> k.freelist == [] && |free0| + 1 + Need(seen, a, n) == need && PDX(m) !in pg.d.tables
      invariant pg.d.tables.Keys == Made(was.tables.Keys, lo, m)
      decreases n - a
    {
      UpFacts(newsz, a);
      NeedStep(pg.d.tables.Keys, a, n);
      NeedStep(seen, a, n);
      MadeStep(was.tables.Keys, lo, a);
      var o;
      ghost var f;
      o, f := GrowOne(k, pg, a, all, was, mem0, free0, lo, m);
      if o == NoFrame {
        NeedStep(pg.d.tables.Keys + {PDX(a)}, a + 1, n);
        MoreSize(oldsz, newsz, a);
        return false, m, lost;
      }
      if o == NoTable {
        all, lost, short := all + {f}, {f}, true;
        seen := pg.d.tables.Keys + {PDX(a)};
      } else {
        m := a + 1;
      }
      a := a + 1;
    }
    UpFacts(newsz, a);
    NeedStep(pg.d.tables.Keys, a, n);
    NeedStep(seen, a, n);
    return true, m, lost;
  }

  /** The page tables there are once the pages from lo up to m are mapped. */
  function Made(tables: set<nat>, lo: nat, m: nat): set<nat>
    decreases m
  {
    if m <= lo then tables else Made(tables, lo, m - 1) + {PDX(m - 1)}
  }

  /** The last page needs a page table that the pages before it do not. */
  predicate LastTable(tables: set<nat>, lo: nat, n: nat) {
    lo < n && PDX(n - 1) !in Made(tables, lo, n - 1)
  }

  /** With one free frame, growing from nothing to one page returns success and maps nothing. */
  lemma {:induction false} OneFrameShort()
    ensures Up(1) == 1 && Need({}, Up(0), Up(1)) == 2 && LastTable({}, Up(0), Up(1))
  {
    NeedStep({}, 0, 1);
    NeedStep({PDX(0)}, 1, 1);
    assert {} + {PDX(0)} == {PDX(0)};
  }

  /** So it is on a machine with one frame to give. */
  method ShortGrowth() returns (k: Kmem, pg: Pgdir, r: nat)
    ensures r == 1 && pg.d.ptes == map[] && k.Valid()
  {
    hide Sound, Grown, SamePages, Need, LastTable, Filled, Chain, PutLink, Next;
    k := new Kmem(map[5 := Filled(0)]);
    assert 5 in k.mem;
    var _ := k.Kfree(5);
    pg := new Pgdir();
    assert k.freelist == [5] && k.mem.Keys == {5};
    OneFrameSound();
    OneFrameShort();
    ghost var lost;
    assert pg.d.tables.Keys == {};
    r, lost := Allocuvm(k, pg, 0, 1, {});
    GrownNothing(Dir(map[], map[]), pg.d, k.mem);
  }

  lemma {:induction false} OneFrameSound()
    ensures Sound(Dir(map[], map[]), [5], {5}, {}) && MappedExactly(Dir(map[], map[]), Up(0))
  {
    assert 5 in [5];
  }

  lemma {:induction false} GrownNothing(was: Dir, d: Dir, mem: map<nat, Page>)
    requires Grown(was, d, mem, Up(0), Up(1) - 1)
    ensures d.ptes == map[]
  {
  }

  lemma {:induction false} MadeStart(tables: set<nat>, lo: nat)
    ensures Made(tables, lo, lo) == tables
  {
  }

  lemma {:induction false} MadeStep(tables: set<nat>, lo: nat, m: nat)
    requires lo <= m
    ensures Made(tables, lo, m + 1) == Made(tables, lo, m) + {PDX(m)}
  {
  }

  lemma {:induction false} UpOrder(a: nat, b: nat)
    requires a <= b
    ensures Up(a) <= Up(b)
  {
  }

  lemma {:induction false} UpFacts(sz: nat, a: nat)
    ensures a * PGSIZE < sz <==> a < Up(sz)
  {
  }

  lemma {:induction false} MoreSize(oldsz: nat, newsz: nat, a: nat)
    requires Up(oldsz) <= a && a * PGSIZE < newsz
    ensures oldsz < newsz
  {
  }

  lemma {:induction false} NeedStep(tables: set<nat>, a: nat, n: nat)
    ensures Need(tables, a, n) ==
      if a >= n then 0 else (if PDX(a) in tables then 1 else 2) + Need(tables + {PDX(a)}, a + 1, n)
  {
  }

  /** One turn of the loop. */
  method GrowOne(k: Kmem, pg: Pgdir, a: nat, ghost others: set<nat>, ghost was: Dir, ghost mem0: map<nat, Page>,
                 ghost free0: seq<nat>, ghost lo: nat, ghost m: nat)
    returns (o: Outcome, ghost f: nat)
    requires Growing(was, pg.d, mem0, k.mem, free0, k.freelist, others, lo, m) && m <= a && (k.freelist == [] || m == a)
    requires k.Valid()
    modifies k, pg
    ensures k.Valid()
    ensures o == if old(k.freelist) == [] then NoFrame
                 else if |old(k.freelist)| == 1 && PDX(a) !in old(pg.d.tables) then NoTable else Done
    ensures o.NoFrame? ==>
      Growing(was, pg.d, mem0, k.mem, free0, k.freelist, others, lo, m) && k.freelist == [] && pg.d == old(pg.d)
    ensures o.NoTable? ==>
      Growing(was, pg.d, mem0, k.mem, free0, k.freelist, others + {f}, lo, m) && k.freelist == [] && pg.d == old(pg.d)
    ensures o.Done? ==>
      && Growing(was, pg.d, mem0, k.mem, free0, k.freelist, others, lo, a + 1)
      && pg.d.tables.Keys == old(pg.d.tables).Keys + {PDX(a)}
    ensures o.Done? ==> |k.freelist| == |old(k.freelist)| - (if PDX(a) in old(pg.d.tables) then 1 else 2)
  {
    hide Sound, Chain, Grown, Kept, Growing;
    ghost var d1, mem1, free1 := pg.d, k.mem, k.freelist;
    GrowingFacts(was, d1, mem0, mem1, free0, free1, others, lo, m, a);
    o, f := NewPage(k, pg, a, PTE_P + PTE_W + PTE_U, Filled(0), others);
    if o == NoFrame {
      GrowingAgain(was, d1, mem0, mem1, k.mem, free0, free1, k.freelist, others, others, lo, m);
    } else if o == NoTable {
      GrowingAgain(was, d1, mem0, mem1, k.mem, free0, free1, k.freelist, others, others + {f}, lo, m);
    } else {
      GrowingOn(was, d1, pg.d, mem0, mem1, k.mem, free0, free1, k.freelist, others, lo, a, f);
    }
  }

  /** The loop runs out of memory. */
  method Undo(k: Kmem, pg: Pgdir, newsz: nat, oldsz: nat, ghost others: set<nat>, ghost all: set<nat>, ghost was: Dir,
              ghost mem0: map<nat, Page>, ghost free0: seq<nat>, ghost m: nat)
    requires Growing(was, pg.d, mem0, k.mem, free0, k.freelist, all, Up(oldsz), m) && oldsz < newsz && m <= Up(newsz)
    requires Sound(was, free0, mem0.Keys, others) && MappedExactly(was, Up(oldsz)) && k.Valid()
    modifies k, pg
    ensures k.Valid() && Sound(pg.d, k.freelist, k.mem.Keys, all) && pg.d.ptes == was.ptes
    ensures SamePages(was, pg.d, mem0, k.mem)
  {
    GrowingSame(was, pg.d, mem0, k.mem, free0, k.freelist, others, all, Up(oldsz), m);
    hide Sound, Chain, Grown, Kept, SamePages, Growing;
    ghost var now, mem2 := pg.d, k.mem;
    Rollback(k, pg, newsz, oldsz, all, was, m);
    SameTrans(was, now, pg.d, mem0, mem2, k.mem);
  }

  /** The state of allocuvm's loop with the first m pages mapped. */
  ghost predicate Growing(was: Dir, d: Dir, mem0: map<nat, Page>, mem: map<nat, Page>, free0: seq<nat>, free: seq<nat>,
                          others: set<nat>, lo: nat, m: nat)
  {
    && Sound(d, free, mem.Keys, others) && Kept(mem0, mem, free0) && (forall x :: x in free ==> x in free0)
    && Grown(was, d, mem, lo, m)
  }

  lemma {:induction false} GrowingStart(was: Dir, mem: map<nat, Page>, free: seq<nat>, others: set<nat>, lo: nat)
    requires Sound(was, free, mem.Keys, others) && MappedExactly(was, lo)
    ensures Growing(was, was, mem, mem, free, free, others, lo, lo)
  {
    hide Sound;
  }

  lemma {:induction false} GrowingFacts(was: Dir, d: Dir, mem0: map<nat, Page>, mem: map<nat, Page>, free0: seq<nat>,
                                        free: seq<nat>, others: set<nat>, lo: nat, m: nat, a: nat)
    requires Growing(was, d, mem0, mem, free0, free, others, lo, m) && m <= a
    ensures Sound(d, free, mem.Keys, others) && a !in d.ptes
  {
  }

  /** Nothing is mapped, but memory may have changed. */
  lemma {:induction false} GrowingAgain(was: Dir, d: Dir, mem0: map<nat, Page>, mem1: map<nat, Page>, mem2: map<nat,
                                        Page>, free0: seq<nat>, free1: seq<nat>, free2: seq<nat>, others: set<nat>,
                                        more: set<nat>, lo: nat, m: nat)
    requires Growing(was, d, mem0, mem1, free0, free1, others, lo, m) && Kept(mem1, mem2, free1)
    requires Sound(d, free2, mem2.Keys, more) && forall x :: x in free2 ==> x in free1
    ensures Growing(was, d, mem0, mem2, free0, free2, more, lo, m)
  {
    KeptTrans(mem0, mem1, mem2, free0, free1);
    GrownKept(was, d, mem1, mem2, free1, others, lo, m);
    hide Sound, Kept, Grown;
  }

  /** One more page. */
  lemma {:induction false} GrowingOn(was: Dir, d1: Dir, d2: Dir, mem0: map<nat, Page>, mem1: map<nat, Page>,
                                     mem2: map<nat, Page>, free0: seq<nat>, free1: seq<nat>, free2: seq<nat>,
                                     others: set<nat>, lo: nat, m: nat, f: nat)
    requires Growing(was, d1, mem0, mem1, free0, free1, others, lo, m) && Kept(mem1, mem2, free1)
    requires Sound(d2, free2, mem2.Keys, others) && forall x :: x in free2 ==> x in free1
    requires d2.ptes == d1.ptes[m := Pte(f, PTE_P + PTE_W + PTE_U)] && f in mem2 && mem2[f] == Filled(0)
    ensures Growing(was, d2, mem0, mem2, free0, free2, others, lo, m + 1)
  {
    KeptTrans(mem0, mem1, mem2, free0, free1);
    GrownStep(was, d1, d2, mem1, mem2, free1, others, lo, m, f);
    hide Sound, Kept, Grown;
  }

  lemma {:induction false} GrowingSame(was: Dir, d: Dir, mem0: map<nat, Page>, mem: map<nat, Page>, free0: seq<nat>,
                                       free: seq<nat>, others: set<nat>, all: set<nat>, lo: nat, m: nat)
    requires Growing(was, d, mem0, mem, free0, free, all, lo, m) && Sound(was, free0, mem0.Keys, others)
    requires MappedExactly(was, lo)
    ensures Grown(was, d, mem, lo, m) && Sound(d, free, mem.Keys, all)
    ensures SamePages(was, d, mem0, mem) && forall v :: v in was.ptes ==> v in d.ptes
  {
    GrownSame(was, d, free0, others, mem0, mem, lo, m);
    GrownHas(was, d, mem, lo, m);
  }

  lemma {:induction false} GrownHas(was: Dir, now: Dir, mem: map<nat, Page>, lo: nat, m: nat)
    requires MappedExactly(was, lo) && Grown(was, now, mem, lo, m)
    ensures forall v :: v in was.ptes ==> v in now.ptes
  {
  }

  // ----- freevm -----

  /** An unused page table is freed. */
  lemma {:induction false} SoundUntable(d: Dir, free: seq<nat>, frames: set<nat>, others: set<nat>, t: nat)
    requires Sound(d, free, frames, others) && t in d.tables && d.ptes == map[]
    ensures Sound(d.(tables := d.tables - {t}), [d.tables[t]] + free, frames, others)
  {
    var e, f := d.(tables := d.tables - {t}), d.tables[t];
    var g := [f] + free;
    assert forall x :: x in g <==> x == f || x in free;
    forall x | x in frames
      ensures x in g || x in others || InDir(e, x)
    {
      if InDir(d, x) && x != f {
        var u :| u in d.tables && d.tables[u] == x;
        assert u in e.tables;
      }
    }
  }

  /** A frame from somewhere else is freed. */
  lemma {:induction false} SoundFree(d: Dir, free: seq<nat>, frames: set<nat>, others: set<nat>, f: nat)
    requires Sound(d, free, frames, others) && f in others && f in frames
    ensures f !in free && Sound(d, [f] + free, frames, others - {f})
  {
    var g := [f] + free;
    assert forall x :: x in g <==> x == f || x in free;
  }

  /** From page 0 the walk comes to every mapped page, hole or not. */
  lemma {:induction false} HitsFromZero(tables: set<nat>, v: nat)
    ensures Hit(tables, 0, v)
  {
  }

  /** freevm's loop over the directory. */
  method FreeTables(k: Kmem, pg: Pgdir, ghost others: set<nat>)
    requires Sound(pg.d, k.freelist, k.mem.Keys, others) && k.Valid() && pg.d.ptes == map[]
    requires forall t :: t in pg.d.tables ==> t < NPDENTRIES - 2
    modifies k, pg
    ensures k.Valid() && pg.d == Dir(map[], map[]) && Sound(pg.d, k.freelist, k.mem.Keys, others)
    ensures k.mem.Keys == old(k.mem).Keys
    ensures forall f :: f in k.mem && f !in k.freelist ==> f !in old(k.freelist) && k.mem[f] == old(k.mem)[f]
  {
    hide Chain, Next, PutLink, Sound;
    var i := 0;
    while i < NPDENTRIES - 2
      invariant 0 <= i <= NPDENTRIES - 2 && k.Valid() && pg.d.ptes == map[] && k.mem.Keys == old(k.mem).Keys
      invariant Sound(pg.d, k.freelist, k.mem.Keys, others) && forall t :: t in pg.d.tables ==> i <= t < NPDENTRIES - 2
      invariant forall f :: f in k.mem && f !in k.freelist ==> f !in old(k.freelist) && k.mem[f] == old(k.mem)[f]
    {
      if i in pg.d.tables {
        SoundUntable(pg.d, k.freelist, k.mem.Keys, others, i);
        TableUsed(pg.d, k.freelist, k.mem.Keys, others, i);
        var _ := k.Kfree(pg.d.tables[i]);
        assert k.mem.Keys == old(k.mem).Keys;
        pg.d := pg.d.(tables := pg.d.tables - {i});
      }
      i := i + 1;
    }
    assert pg.d.tables == map[];
  }

  lemma {:induction false} TableUsed(d: Dir, free: seq<nat>, frames: set<nat>, others: set<nat>, t: nat)
    requires Sound(d, free, frames, others) && t in d.tables
    ensures d.tables[t] in frames && d.tables[t] !in free
  {
  }

  /** freevm: every page, every page table and the directory's own page `root` are free again. */
  method Freevm(k: Kmem, pg: Pgdir, root: nat, ghost others: set<nat>)
    requires Sound(pg.d, k.freelist, k.mem.Keys, others) && k.Valid() && root in others && root in k.mem
    requires (forall v :: v in pg.d.ptes ==> v < USERPAGES) && forall t :: t in pg.d.tables ==> t < NPDENTRIES - 2
    modifies k, pg
    ensures k.Valid() && pg.d == Dir(map[], map[]) && Sound(pg.d, k.freelist, k.mem.Keys, others - {root})
    ensures k.mem.Keys == old(k.mem).Keys && forall f :: f in k.mem && f !in k.freelist ==> k.mem[f] == old(k.mem)[f]
  {
    hide Chain, Next, PutLink, Sound, Hit;
    forall v | v in pg.d.ptes ensures Hit(pg.d.tables.Keys, 0, v) {
      HitsFromZero(pg.d.tables.Keys, v);
    }
    var _ := Deallocuvm(k, pg, USERPAGES * PGSIZE, 0, others);
    assert pg.d.ptes == map[];
    FreeTables(k, pg, others);
    SoundFree(pg.d, k.freelist, k.mem.Keys, others, root);
    var _ := k.Kfree(root);
    assert k.mem.Keys == old(k.mem).Keys;
  }

  // ----- copyuvm -----

  /** The first n pages of the child have the flags and bytes of the parent's, in frames of their own. */
  ghost predicate Copied(parent: Dir, child: Dir, mem: map<nat, Page>, others: set<nat>, n: nat) {
    && MappedExactly(child, n)
    && (forall v :: v in child.ptes ==>
          && v in parent.ptes && child.ptes[v].flags == parent.ptes[v].flags
          && child.ptes[v].frame in mem && parent.ptes[v].frame in mem && child.ptes[v].frame !in others
          && mem[child.ptes[v].frame] == mem[parent.ptes[v].frame])
  }

  /** The parent's frames are somewhere else than the child's and the free ones. */
  predicate Elsewhere(parent: Dir, frames: set<nat>, others: set<nat>) {
    forall v :: v in parent.ptes ==> parent.ptes[v].frame in others && parent.ptes[v].frame in frames
  }

  /** The state of copyuvm's loop. */
  ghost predicate Copying(parent: Dir, d: Dir, mem0: map<nat, Page>, mem: map<nat, Page>, free0: seq<nat>,
                          free: seq<nat>, others: set<nat>, n: nat)
  {
    && Sound(d, free, mem.Keys, others) && Kept(mem0, mem, free0) && (forall x :: x in free ==> x in free0)
    && Copied(parent, d, mem, others, n)
  }

  lemma {:induction false} CopyingStart(parent: Dir, d: Dir, mem: map<nat, Page>, free: seq<nat>, others: set<nat>)
    requires Sound(d, free, mem.Keys, others) && d.ptes == map[]
    ensures Copying(parent, d, mem, mem, free, free, others, 0)
  {
  }

  lemma {:induction false} CopyingFacts(parent: Dir, d: Dir, mem0: map<nat, Page>, mem: map<nat, Page>, free0: seq<nat>,
                                        free: seq<nat>, others: set<nat>, n: nat)
    requires Copying(parent, d, mem0, mem, free0, free, others, n)
    ensures Sound(d, free, mem.Keys, others) && n !in d.ptes && Kept(mem0, mem, free0)
    ensures Copied(parent, d, mem, others, n)
    ensures forall x :: x in free ==> x in free0
  {
  }

  lemma {:induction false} CopiedOn(parent: Dir, d1: Dir, d2: Dir, mem1: map<nat, Page>, mem2: map<nat, Page>,
                                    free1: seq<nat>, others: set<nat>, n: nat, f: nat)
    requires Sound(d1, free1, mem1.Keys, others) && Elsewhere(parent, mem1.Keys, others)
    requires Copied(parent, d1, mem1, others, n) && Kept(mem1, mem2, free1)
    requires n in parent.ptes && f in free1 && f in mem2 && mem2[f] == mem1[parent.ptes[n].frame]
    requires d2.ptes == d1.ptes[n := Pte(f, parent.ptes[n].flags)]
    ensures Copied(parent, d2, mem2, others, n + 1)
  {
  }

  lemma {:induction false} CopyingOn(parent: Dir, d1: Dir, d2: Dir, mem0: map<nat, Page>, mem1: map<nat, Page>,
                                     mem2: map<nat, Page>, free0: seq<nat>, free1: seq<nat>, free2: seq<nat>,
                                     others: set<nat>, n: nat, f: nat)
    requires Copying(parent, d1, mem0, mem1, free0, free1, others, n) && Kept(mem1, mem2, free1)
    requires Elsewhere(parent, mem1.Keys, others)
    requires Sound(d2, free2, mem2.Keys, others) && forall x :: x in free2 ==> x in free1
    requires n in parent.ptes && f in free1 && f in mem2 && mem2[f] == mem1[parent.ptes[n].frame]
    requires d2.ptes == d1.ptes[n := Pte(f, parent.ptes[n].flags)]
    ensures Copying(parent, d2, mem0, mem2, free0, free2, others, n + 1)
  {
    hide Sound, Kept, Copied, Elsewhere;
    KeptTrans(mem0, mem1, mem2, free0, free1);
    CopiedOn(parent, d1, d2, mem1, mem2, free1, others, n, f);
  }

  lemma {:induction false} ElsewhereKeys(parent: Dir, mem0: map<nat, Page>, mem1: map<nat, Page>, free0: seq<nat>,
                                         others: set<nat>, v: nat)
    requires Elsewhere(parent, mem0.Keys, others) && Kept(mem0, mem1, free0)
    ensures Elsewhere(parent, mem1.Keys, others) && (v in parent.ptes ==> parent.ptes[v].frame in mem1)
  {
  }

  function FirstFrames(d: Dir, n: nat): (r: set<nat>)
    requires forall v: nat :: v < n ==> v in d.ptes
  {
    if n == 0 then {} else FirstFrames(d, n - 1) + {d.ptes[n - 1].frame}
  }

  lemma {:induction false} FramesApart(d: Dir, n: nat)
    requires forall v: nat :: v < n ==> v in d.ptes
    requires forall v: nat, w: nat :: v < w < n ==> d.ptes[v].frame != d.ptes[w].frame
    ensures |FirstFrames(d, n)| == n && forall f :: f in FirstFrames(d, n) ==>
      exists v: nat :: v < n && d.ptes[v].frame == f
  {
    if n > 0 {
      FramesApart(d, n - 1);
      assert d.ptes[n - 1].frame !in FirstFrames(d, n - 1);
    }
  }

  lemma {:induction false} Below(s: set<nat>, n: nat)
    requires forall x :: x in s ==> x < n
    ensures |s| <= n
  {
    if n > 0 {
      Below(s - {n - 1}, n - 1);
      assert s <= s - {n - 1} + {n - 1};
    } else {
      assert s == {};
    }
  }

  /** No address space has more pages than there are frames, so all of it lies in the user part. */
  lemma {:induction false} PagesFit(d: Dir, free: seq<nat>, frames: set<nat>, others: set<nat>, n: nat)
    requires Sound(d, free, frames, others) && MappedExactly(d, n) && forall f :: f in frames ==> f < NFRAMES
    ensures n <= NFRAMES && PDX(n) < NPDENTRIES - 2 && forall v :: v in d.ptes ==> v < USERPAGES
  {
    FramesApart(d, n);
    Below(FirstFrames(d, n), NFRAMES);
  }

  /** copyuvm into a new directory whose own page is `root`: complete exactly when there are frames enough. If not, the
      child is freed again, but for the one frame whose mapping failed. The parent's bytes and all other memory that is
      not free stay as they were. */
  method Copyuvm(k: Kmem, parent: Pgdir, child: Pgdir, root: nat, sz: nat, ghost others: set<nat>)
    returns (ok: bool, ghost lost: set<nat>)
    requires parent != child && child.d.ptes == map[] && Sound(child.d, k.freelist, k.mem.Keys, others)
    requires forall t :: t in child.d.tables ==> t < NPDENTRIES - 2
    requires MappedExactly(parent.d, Up(sz)) && Elsewhere(parent.d, k.mem.Keys, others) && k.Valid()
    requires root in others && root in k.mem
    modifies k, child
    ensures k.Valid() && k.mem.Keys == old(k.mem).Keys
    ensures forall f :: f in k.mem && f !in old(k.freelist) && f !in k.freelist ==> k.mem[f] == old(k.mem)[f]
    ensures ok <==> |old(k.freelist)| >= Need(old(child.d.tables).Keys, 0, Up(sz))
    ensures ok ==> Sound(child.d, k.freelist, k.mem.Keys, others) && Copied(parent.d, child.d, k.mem, others, Up(sz))
    ensures !ok ==>
      child.d == Dir(map[], map[]) && |lost| <= 1 && Sound(child.d, k.freelist, k.mem.Keys, others + lost - {root})
  {
    hide Sound, Chain, Copying, Copied, Need, PDX, Kept, Up, Elsewhere;
    ghost var mem0, free0, n := k.mem, k.freelist, Up(sz);
    ghost var need := Need(child.d.tables.Keys, 0, n);
    CopyingStart(parent.d, child.d, mem0, free0, others);
    KeptStart(mem0, free0);
    UpFacts(sz, 0);
    lost := {};
    var i := 0;
    while i * PGSIZE < sz
      invariant i <= n && Copying(parent.d, child.d, mem0, k.mem, free0, k.freelist, others, i)
      invariant Kept(mem0, k.mem, free0)
      invariant k.Valid() && forall t :: t in child.d.tables ==> t < NPDENTRIES - 2
      invariant |k.freelist| - Need(child.d.tables.Keys, i, n) == |free0| - need
      decreases n - i
    {
      UpFacts(sz, i);
      NeedStep(child.d.tables.Keys, i, n);
      ghost var d1, mem1, free1 := child.d, k.mem, k.freelist;
      CopyingFacts(parent.d, d1, mem0, mem1, free0, free1, others, i);
      CopyingFits(parent.d, d1, mem0, mem1, free0, free1, others, i);
      ElsewhereKeys(parent.d, mem0, mem1, free0, others, i);
      assert i in parent.d.ptes;
      var pte := parent.d.ptes[i];
      var o;
      ghost var f;
      o, f := NewPage(k, child, i, pte.flags, k.mem[pte.frame], others);
      KeptTrans(mem0, mem1, k.mem, free0, free1);
      KeptMeans(mem0, k.mem, free0);
      if o != Done {
        lost := if o == NoTable then {f} else {};
        ghost var mem2 := k.mem;
        LostToo(child.d, k.mem.Keys, others, lost);
        Freevm(k, child, root, others + lost);
        return false, lost;
      }
      CopyingOn(parent.d, d1, child.d, mem0, mem1, k.mem, free0, free1, k.freelist, others, i, f);
      i := i + 1;
    }
    UpFacts(sz, i);
    NeedStep(child.d.tables.Keys, i, n);
    CopyingFacts(parent.d, child.d, mem0, k.mem, free0, k.freelist, others, i);
    KeptMeans(mem0, k.mem, free0);
    return true, {};
  }

  lemma {:induction false} CopyingFits(parent: Dir, d: Dir, mem0: map<nat, Page>, mem: map<nat, Page>, free0: seq<nat>,
                                       free: seq<nat>, others: set<nat>, n: nat)
    requires Copying(parent, d, mem0, mem, free0, free, others, n) && forall f :: f in mem ==> f < NFRAMES
    ensures PDX(n) < NPDENTRIES - 2 && forall v :: v in d.ptes ==> v < USERPAGES
  {
    PagesFit(d, free, mem.Keys, others, n);
  }

  lemma {:induction false} KeptMeans(mem0: map<nat, Page>, mem: map<nat, Page>, free: seq<nat>)
    requires Kept(mem0, mem, free)
    ensures mem.Keys == mem0.Keys && forall f :: f in mem && f !in free ==> mem[f] == mem0[f]
  {
  }

  lemma {:induction false} LostToo(d: Dir, frames: set<nat>, others: set<nat>, lost: set<nat>)
    ensures lost == {} ==> others + lost == others
  {
  }

  lemma {:induction false} KeptStart(mem: map<nat, Page>, free: seq<nat>)
    ensures Kept(mem, mem, free)
  {
  }
}
