/** Directories of kernel/fs.c: a file of 16-byte entries seen as a finite map from names to
    inode numbers. */
module Directories {
  import opened Bytes
  import opened Names
  import opened FsLayout
  import opened FsContent
  import opened FileSystem

  // ----- entries -----

  function Count(c: seq<byte>): nat { |c| / DIRENT }

  function Inum(c: seq<byte>, i: nat): (v: nat)
    requires i < Count(c)
    ensures v < 65536
  {
    var lo: int, hi: int := c[DIRENT * i], c[DIRENT * i + 1];
    lo + 256 * hi
  }

  predicate Live(c: seq<byte>, i: nat)
    requires i < Count(c)
  {
    Inum(c, i) != 0
  }

  function EntryKey(c: seq<byte>, i: nat): seq<byte>
    requires i < Count(c)
  {
    Key(c[DIRENT * i + 2..DIRENT * i + DIRENT])
  }

  /** The names bound by the first n entries, an earlier entry hiding a later one. */
  function Bindings(c: seq<byte>, n: nat): map<seq<byte>, nat>
    requires n <= Count(c)
  {
    if n == 0 then map[]
    else
      var m := Bindings(c, n - 1);
      if Live(c, n - 1) && EntryKey(c, n - 1) !in m then m[EntryKey(c, n - 1) := Inum(c, n - 1)] else m
  }

  /** The map a directory stands for. */
  function DirMap(c: seq<byte>): map<seq<byte>, nat> {
    Bindings(c, Count(c))
  }

  /** No two live entries have the same name. */
  ghost predicate NamesUnique(c: seq<byte>) {
    forall i: nat, j: nat :: i < j < Count(c) && Live(c, i) && Live(c, j) ==> EntryKey(c, i) != EntryKey(c, j)
  }

  lemma {:induction false} BoundEarlier(c: seq<byte>, m: nat, n: nat, key: seq<byte>)
    requires m <= n <= Count(c) && key in Bindings(c, m)
    ensures key in Bindings(c, n) && Bindings(c, n)[key] == Bindings(c, m)[key]
  {
    hide EntryKey, Inum;
    if m < n {
      BoundEarlier(c, m, n - 1, key);
    }
  }

  /** A live entry binds its name. */
  lemma {:induction false} LiveIsBound(c: seq<byte>, i: nat, n: nat)
    requires i < n <= Count(c) && Live(c, i)
    ensures EntryKey(c, i) in Bindings(c, n)
  {
    hide EntryKey, Inum;
    assert EntryKey(c, i) in Bindings(c, i + 1);
    BoundEarlier(c, i + 1, n, EntryKey(c, i));
  }

  /** A bound name is that of a live entry with that number. */
  lemma {:induction false} BoundIsLive(c: seq<byte>, n: nat, key: seq<byte>) returns (i: nat)
    requires n <= Count(c) && key in Bindings(c, n)
    ensures i < n && Live(c, i) && EntryKey(c, i) == key && Inum(c, i) == Bindings(c, n)[key]
  {
    hide EntryKey, Inum;
    if key in Bindings(c, n - 1) {
      i := BoundIsLive(c, n - 1, key);
    } else {
      i := n - 1;
    }
  }

  // ----- adding an entry -----

  /** The bytes of struct dirent. */
  function Dirent(inum: nat, name: seq<byte>): (e: seq<byte>)
    requires inum < 65536 && |name| == DIRSIZ
    ensures |e| == DIRENT
  {
    [inum % 256, inum / 256] + name
  }

  /** Slot i0 of c2 holds the new entry, every other entry is as in c. */
  ghost predicate Added(c: seq<byte>, c2: seq<byte>, i0: nat, key: seq<byte>, v: nat) {
    && i0 <= Count(c) && Count(c2) == (if i0 == Count(c) then i0 + 1 else Count(c))
    && Inum(c2, i0) == v && EntryKey(c2, i0) == key
    && forall i: nat :: i < Count(c) && i != i0 ==> Inum(c2, i) == Inum(c, i) && EntryKey(c2, i) == EntryKey(c, i)
  }

  lemma {:induction false} SpliceAdds(c: seq<byte>, i0: nat, v: nat, name: seq<byte>)
    requires |c| % DIRENT == 0 && i0 <= Count(c) && v < 65536 && |name| == DIRSIZ
    ensures DIRENT * i0 <= |c| && |Splice(c, DIRENT * i0, Dirent(v, name))| % DIRENT == 0
    ensures Added(c, Splice(c, DIRENT * i0, Dirent(v, name)), i0, Key(name), v)
  {
    hide Key;
    var e := Dirent(v, name);
    var c2 := Splice(c, DIRENT * i0, e);
    assert c2[DIRENT * i0..DIRENT * i0 + DIRENT] == e;
    assert c2[DIRENT * i0] == e[0] && c2[DIRENT * i0 + 1] == e[1];
    assert c2[DIRENT * i0 + 2..DIRENT * i0 + DIRENT] == name;
    forall i: nat | i < Count(c) && i != i0 ensures Inum(c2, i) == Inum(c, i) && EntryKey(c2, i) == EntryKey(c, i) {
      OtherEntry(c, i0, e, i);
    }
  }

  lemma {:induction false} OtherEntry(c: seq<byte>, i0: nat, e: seq<byte>, i: nat)
    requires |e| == DIRENT && DIRENT * i0 <= |c| && i < Count(c) && i != i0
    ensures var c2 := Splice(c, DIRENT * i0, e);
            |c2| >= |c| && c2[DIRENT * i..DIRENT * i + DIRENT] == c[DIRENT * i..DIRENT * i + DIRENT]
    ensures var c2 := Splice(c, DIRENT * i0, e); Inum(c2, i) == Inum(c, i) && EntryKey(c2, i) == EntryKey(c, i)
  {
    hide Key;
    var c2 := Splice(c, DIRENT * i0, e);
    forall k | DIRENT * i <= k < DIRENT * i + DIRENT ensures c2[k] == c[k] {
    }
    assert c2[DIRENT * i + 2..DIRENT * i + DIRENT] == c[DIRENT * i + 2..DIRENT * i + DIRENT];
  }

  /** The map gains exactly the new binding. */
  lemma {:induction false} AddedBindings(c: seq<byte>, c2: seq<byte>, i0: nat, key: seq<byte>, v: nat, n: nat)
    requires Added(c, c2, i0, key, v) && v != 0 && key !in DirMap(c) && n <= Count(c2)
    requires i0 < Count(c) ==> !Live(c, i0)
    ensures Bindings(c2, n) ==
      if n <= i0 then Bindings(c, n) else Bindings(c, if n <= Count(c) then n else Count(c))[key := v]
  {
    hide EntryKey, Inum;
    if n > 0 {
      AddedBindings(c, c2, i0, key, v, n - 1);
      if n - 1 == i0 {
        if key in Bindings(c, i0) { BoundEarlier(c, i0, Count(c), key); }
      } else {
        assert n <= Count(c);
        if Live(c, n - 1) { LiveIsBound(c, n - 1, Count(c)); }
      }
    }
  }

  /** A dead entry, for a number that does not fit 16 bits, binds nothing. */
  lemma {:induction false} DeadAdded(c: seq<byte>, c2: seq<byte>, i0: nat, key: seq<byte>, n: nat)
    requires Added(c, c2, i0, key, 0) && n <= Count(c2) && (i0 < Count(c) ==> !Live(c, i0))
    ensures Bindings(c2, n) == Bindings(c, if n <= Count(c) then n else Count(c))
  {
    hide EntryKey, Inum;
    if n > 0 {
      DeadAdded(c, c2, i0, key, n - 1);
    }
  }

  lemma {:induction false} AddedUnique(c: seq<byte>, c2: seq<byte>, i0: nat, key: seq<byte>, v: nat)
    requires Added(c, c2, i0, key, v) && key !in DirMap(c) && NamesUnique(c)
    ensures NamesUnique(c2)
  {
    hide EntryKey, Inum, Bindings;
    forall i: nat, j: nat | i < j < Count(c2) && Live(c2, i) && Live(c2, j) ensures EntryKey(c2, i) != EntryKey(c2, j) {
      if i == i0 {
        LiveIsBound(c, j, Count(c));
      } else if j == i0 {
        LiveIsBound(c, i, Count(c));
      } else {
        assert Live(c, i) && Live(c, j);
      }
    }
  }

  // ----- dirlookup and dirlink -----

  datatype LookupResult = Found(inum: nat, off: nat) | Absent | LookupPanic
  datatype LinkResult = Linked | Exists | LinkPanic

  /** The file system is exactly as it was. */
  twostate predicate Unchanged(fs: Fs, dp: Inode)
    reads fs, dp
  {
    && fs.disk == old(fs.disk) && fs.inodes == old(fs.inodes) && fs.ext == old(fs.ext) && fs.owner == old(fs.owner)
    && fs.logged == old(fs.logged) && dp.d == old(dp.d) && fs.Logging(true)
  }

  /** One entry read with readi. */
  method ReadEntry(fs: Fs, dp: Inode, off: uint32) returns (r: Option<seq<byte>>)
    requires fs.Settled() && fs.Current(dp) && dp.d.kind == T_DIR && off < dp.d.size && off % DIRENT == 0
    modifies fs, dp
    ensures Unchanged(fs, dp) && fs.Settled() && fs.Current(dp)
    ensures r.None? <==> off + DIRENT > dp.d.size
    ensures r.Some? ==> off + DIRENT <= dp.d.size && r.value == File(fs.disk, dp.d)[off..off + DIRENT]
  {
    hide File, SettledDisk, Recorded, OutsideLog, NoneFree;
    var e := fs.Readi(dp, off, DIRENT);
    if e.Bytes? && |e.data| == DIRENT {
      return Some(e.data);
    }
    return None;
  }

  lemma {:induction false} EntryAt(c: seq<byte>, off: nat)
    requires off % DIRENT == 0 && off + DIRENT <= |c|
    ensures off / DIRENT < Count(c) && DIRENT * (off / DIRENT) == off
    ensures Inum(c, off / DIRENT) == Inum(c[off..off + DIRENT], 0)
    ensures EntryKey(c, off / DIRENT) == Key(c[off..off + DIRENT][2..])
  {
    hide Key;
    assert c[off..off + DIRENT][2..] == c[off + 2..off + DIRENT];
  }

  /** dirlookup agrees with the map. It panics exactly on what is no directory, and on one with a part of an entry at
      its end if the name is not bound. */
  method Dirlookup(fs: Fs, dp: Inode, name: seq<byte>) returns (r: LookupResult)
    requires fs.Settled() && fs.Current(dp)
    modifies fs, dp
    ensures Unchanged(fs, dp) && fs.Settled() && fs.Current(dp)
    ensures var c := File(fs.disk, dp.d);
            && (r.LookupPanic? <==> dp.d.kind != T_DIR || (dp.d.size % DIRENT != 0 && Key(name) !in DirMap(c)))
            && (r.Found? ==>
                  && Key(name) in DirMap(c) && DirMap(c)[Key(name)] == r.inum
                  && r.off % DIRENT == 0 && r.off / DIRENT < Count(c) && EntryKey(c, r.off / DIRENT) == Key(name)
                  && Live(c, r.off / DIRENT))
            && (r.Absent? ==> Key(name) !in DirMap(c) && |c| % DIRENT == 0)
  {
    hide File, SettledDisk, Recorded, OutsideLog, NoneFree, Inum, EntryKey, Bindings, Chars;
    if dp.d.kind != T_DIR { return LookupPanic; }
    ghost var c, key := File(fs.disk, dp.d), Key(name);
    NoneBound(c);
    var off := 0;
    while off < dp.d.size
      invariant Unchanged(fs, dp) && fs.Settled() && fs.Current(dp)
      invariant off % DIRENT == 0 && off <= dp.d.size && off / DIRENT <= Count(c)
      invariant off < dp.d.size || off / DIRENT == Count(c)
      invariant key !in Bindings(c, off / DIRENT)
    {
      var de := ReadEntry(fs, dp, off);
      if de.None? {
        PartAtEnd(c, off);
        return LookupPanic;
      }
      ghost var i := off / DIRENT;
      EntryAt(c, off);
      BindingsStep(c, i);
      if Inum(de.value, 0) != 0 {
        var same := Strncmp(name, de.value[2..], DIRSIZ);
        if same == 0 {
          BoundEarlier(c, i + 1, Count(c), key);
          return Found(Inum(de.value, 0), off);
        }
      }
      NextEntry(c, off);
      off := off + DIRENT;
    }
    return Absent;
  }

  lemma {:induction false} NoneBound(c: seq<byte>)
    ensures Bindings(c, 0) == map[] && (|c| == 0 ==> Count(c) == 0)
  {
  }

  lemma {:induction false} BindingsStep(c: seq<byte>, i: nat)
    requires i < Count(c)
    ensures Bindings(c, i + 1) == (var m := Bindings(c, i);
      if Live(c, i) && EntryKey(c, i) !in m then m[EntryKey(c, i) := Inum(c, i)] else m)
  {
  }

  lemma {:induction false} PartAtEnd(c: seq<byte>, off: nat)
    requires off % DIRENT == 0 && off < |c| < off + DIRENT
    ensures off / DIRENT == Count(c) && |c| % DIRENT != 0
  {
  }

  lemma {:induction false} NextEntry(c: seq<byte>, off: nat)
    requires off % DIRENT == 0 && off + DIRENT <= |c|
    ensures (off + DIRENT) / DIRENT == off / DIRENT + 1 && (off + DIRENT) % DIRENT == 0
    ensures off + DIRENT < |c| || off / DIRENT + 1 == Count(c)
  {
  }

  /** dirlink's search for a free entry: the first one, or the end. It panics on a part of an entry behind live ones. */
  method FindFree(fs: Fs, dp: Inode) returns (r: Option<uint32>)
    requires fs.Settled() && fs.Current(dp) && dp.d.kind == T_DIR
    modifies fs, dp
    ensures Unchanged(fs, dp) && fs.Settled() && fs.Current(dp)
    ensures r.None? ==>
      && dp.d.size % DIRENT != 0
      && var c := File(fs.disk, dp.d); forall k: nat :: k < Count(c) ==> Live(c, k)
    ensures r.Some? ==>
      && r.value % DIRENT == 0
      && var c, i := File(fs.disk, dp.d), r.value / DIRENT;
         && i <= Count(c) && (i == Count(c) || !Live(c, i)) && (r.value >= dp.d.size ==> i == Count(c))
         && forall k: nat :: k < i ==> Live(c, k)
  {
    hide File, SettledDisk, Recorded, OutsideLog, NoneFree, Inum, EntryKey;
    ghost var c := File(fs.disk, dp.d);
    NoneBound(c);
    var off := 0;
    while off < dp.d.size
      invariant Unchanged(fs, dp) && fs.Settled() && fs.Current(dp)
      invariant off % DIRENT == 0 && off / DIRENT <= Count(c)
      invariant off < dp.d.size || off / DIRENT == Count(c)
      invariant forall k: nat :: k < off / DIRENT ==> Live(c, k)
    {
      var de := ReadEntry(fs, dp, off);
      if de.None? {
        PartAtEnd(c, off);
        return None;
      }
      EntryAt(c, off);
      if Inum(de.value, 0) == 0 { return Some(off); }
      NextEntry(c, off);
      off := off + DIRENT;
    }
    return Some(off);
  }

  /** The map after linking: one binding more, unless the number is zero in 16 bits. */
  function WithLink(m: map<seq<byte>, nat>, key: seq<byte>, inum: nat): map<seq<byte>, nat> {
    if inum % 65536 == 0 then m else m[key := inum % 65536]
  }

  lemma {:induction false} LinkSpliced(c: seq<byte>, off: nat, inum: nat, name: seq<byte>)
    requires |c| % DIRENT == 0 && off % DIRENT == 0 && off / DIRENT <= Count(c) && |name| == DIRSIZ
    requires off / DIRENT == Count(c) || !Live(c, off / DIRENT)
    requires Key(name) !in DirMap(c)
    ensures off <= |c|
    ensures var c2 := Splice(c, off, Dirent(inum % 65536, name));
            && |c2| % DIRENT == 0 && DirMap(c2) == WithLink(DirMap(c), Key(name), inum)
            && (NamesUnique(c) ==> NamesUnique(c2))
            && forall n: nat :: NumbersBelow(c, n) && inum % 65536 < n ==> NumbersBelow(c2, n)
  {
    hide Inum, EntryKey, Bindings, Chars, Splice, Dirent, NumbersBelow;
    var i0, v := off / DIRENT, inum % 65536;
    SpliceAdds(c, i0, v, name);
    var c2 := Splice(c, off, Dirent(v, name));
    if v != 0 {
      AddedBindings(c, c2, i0, Key(name), v, Count(c2));
      WholeCount(c, c2, i0, Key(name), v);
    } else {
      DeadAdded(c, c2, i0, Key(name), Count(c2));
      WholeCount(c, c2, i0, Key(name), v);
    }
    if NamesUnique(c) {
      AddedUnique(c, c2, i0, Key(name), v);
    }
    forall n: nat | NumbersBelow(c, n) && v < n ensures NumbersBelow(c2, n) {
      AddedNumbers(c, c2, i0, Key(name), v, n);
    }
  }

  lemma {:induction false} WholeCount(c: seq<byte>, c2: seq<byte>, i0: nat, key: seq<byte>, v: nat)
    requires Added(c, c2, i0, key, v)
    ensures Count(c2) > i0 && (if Count(c2) <= Count(c) then Count(c2) else Count(c)) == Count(c)
  {
    hide Inum, EntryKey;
  }

  // ----- directories name inodes of the table -----

  /** Directories are whole entries, and those in use name inodes of the table. */
  ghost predicate DirsOk(disk: seq<Block>, inodes: seq<Dinode>) {
    forall i: nat :: i < |inodes| && inodes[i].kind == T_DIR ==>
      inodes[i].size % DIRENT == 0 && EntriesOk(disk, inodes, i)
  }

  ghost predicate EntriesOk(disk: seq<Block>, inodes: seq<Dinode>, i: nat)
    requires i < |inodes|
  {
    NumbersBelow(File(disk, inodes[i]), |inodes|)
  }

  ghost predicate NumbersBelow(c: seq<byte>, n: nat) {
    forall k: nat :: k < Count(c) && Live(c, k) ==> Inum(c, k) < n
  }

  /** So the map of such a directory has inodes of the table only. */
  lemma {:induction false} NamesInTable(c: seq<byte>, n: nat, key: seq<byte>)
    requires NumbersBelow(c, n) && key in DirMap(c)
    ensures DirMap(c)[key] < n
  {
    hide EntryKey, Inum, Bindings;
    var i := BoundIsLive(c, Count(c), key);
  }

  /** A written entry names an inode of the table if its number does. */
  lemma {:induction false} AddedNumbers(c: seq<byte>, c2: seq<byte>, i0: nat, key: seq<byte>, v: nat, n: nat)
    requires Added(c, c2, i0, key, v) && NumbersBelow(c, n) && (v != 0 ==> v < n)
    ensures NumbersBelow(c2, n)
  {
    hide EntryKey, Inum;
    forall k: nat | k < Count(c2) && Live(c2, k) ensures Inum(c2, k) < n {
      assert k != i0 ==> Live(c, k);
    }
  }

  /** Whatever happens to one inode, if it is no directory afterwards or again a good one. */
  lemma {:induction false} DirsKept(disk: seq<Block>, inodes: seq<Dinode>, d: seq<Block>, xs: seq<Dinode>, i: nat)
    requires DirsOk(disk, inodes) && i < |inodes| == |xs|
    requires forall j :: 0 <= j < |xs| && j != i ==> xs[j] == inodes[j] && File(d, xs[j]) == File(disk, inodes[j])
    requires xs[i].kind == T_DIR ==> xs[i].size % DIRENT == 0 && EntriesOk(d, xs, i)
    ensures DirsOk(d, xs)
  {
    hide File, NumbersBelow;
    forall j: nat | j < |xs| && xs[j].kind == T_DIR ensures xs[j].size % DIRENT == 0 && EntriesOk(d, xs, j) {
      if j != i {
        assert EntriesOk(disk, inodes, j);
      }
    }
  }

  /** An empty directory names nothing. */
  lemma {:induction false} EmptyDir(d: seq<Block>, xs: seq<Dinode>, i: nat)
    requires i < |xs| && xs[i].size == 0
    ensures EntriesOk(d, xs, i) && DirMap(File(d, xs[i])) == map[]
  {
    hide File;
  }

  /** How many blocks it takes to add an entry: none if one is free. */
  ghost function LinkGrows(c: seq<byte>): int {
    if exists k: nat :: k < Count(c) && !Live(c, k) then 0 else Grows(|c|, |c|, DIRENT)
  }

  lemma {:induction false} LinkGrowsAt(c: seq<byte>, off: nat)
    requires |c| % DIRENT == 0 && off % DIRENT == 0 && off / DIRENT <= Count(c)
    requires off / DIRENT == Count(c) || !Live(c, off / DIRENT)
    requires forall k: nat :: k < off / DIRENT ==> Live(c, k)
    ensures Grows(|c|, off, DIRENT) == LinkGrows(c)
  {
    hide Live;
    if off / DIRENT < Count(c) {
      assert off + DIRENT <= |c|;
    }
  }

  /** dirlink adds one binding, or refuses a name the directory has. It panics on what dirlookup panics on, on a full
      directory, for want of blocks if no entry is free, and with log_write. Linking an inode of the table keeps all
      directories good. */
  method Dirlink(fs: Fs, dp: Inode, name: seq<byte>, inum: uint32) returns (r: LinkResult)
    requires fs.Settled() && fs.Current(dp)
    modifies fs, dp
    ensures fs.Logging(!r.LinkPanic?)
    ensures var c := old(File(fs.disk, dp.d));
            && (r.Exists? ==> Unchanged(fs, dp) && Key(name) in DirMap(c))
            && (r.LinkPanic? ==>
                  || old(dp.d.kind) != T_DIR || old(dp.d.size) % DIRENT != 0
                  || (DIRENT * Count(c) + DIRENT > MAXFILE * BSIZE && forall k: nat :: k < Count(c) ==> Live(c, k))
                  || (fs.DiskFull() && |old(fs.owner)| + LinkGrows(c) > DataCount(fs.sb)) || fs.LogPanics())
            && (r.Linked? ==>
                  && fs.Settled() && fs.Current(dp) && fs.OthersUntouched(dp)
                  && Key(name) !in DirMap(c) && |fs.owner| == |old(fs.owner)| + LinkGrows(c) <= DataCount(fs.sb)
                  && var c2 := File(fs.disk, dp.d);
                     && DirMap(c2) == WithLink(DirMap(c), Key(name), inum)
                     && |c2| % DIRENT == 0 && (NamesUnique(c) ==> NamesUnique(c2)))
    ensures old(dp.d.kind) == T_DIR && Key(name) in old(DirMap(File(fs.disk, dp.d))) ==> r.Exists?
    ensures r.Linked? && old(DirsOk(fs.disk, fs.inodes)) && inum % 65536 < fs.sb.ninodes ==> DirsOk(fs.disk, fs.inodes)
  {
    hide File, SettledDisk, Recorded, OutsideLog, NoneFree, HeaderFull, WriteLogged, DirMap, Chars, Splice, Dirent,
         NamesUnique, DirsOk, Live, Grows, LinkGrows;
    var found := Dirlookup(fs, dp, name);
    match found {
      case LookupPanic => return LinkPanic;
      case Found(_, _) => return Exists;
      case Absent =>
    }
    var off := FindFree(fs, dp);
    if off.None? { return LinkPanic; }
    var stored := Strncpy(name, DIRSIZ);
    ghost var c := File(fs.disk, dp.d);
    SizeFits(fs.sb, fs.disk, fs.inodes, fs.ext, fs.owner, dp.inum);
    FreeFits(c, off.value);
    LinkGrowsAt(c, off.value);
    var w; ghost var t, K;
    w, t, K := fs.Writei(dp, Dirent(inum % 65536, stored), off.value);
    if !w.Wrote? { return LinkPanic; }
    LinkSpliced(c, off.value, inum, stored);
    if old(DirsOk(fs.disk, fs.inodes)) && inum % 65536 < fs.sb.ninodes {
      SettledSizes(fs.sb, fs.disk, fs.inodes, fs.ext, fs.owner);
      EntriesKept(old(fs.disk), old(fs.inodes), fs.disk, fs.inodes, dp.inum);
    }
    return Linked;
  }

  lemma {:induction false} SizeFits(sb: Superblock, disk: seq<Block>, inodes: seq<Dinode>, ext: seq<Extent>,
                                    owner: map<nat, Ref>, i: nat)
    requires SettledDisk(sb, disk, inodes, ext, owner) && i < sb.ninodes
    ensures i < |inodes| && inodes[i].size <= MAXFILE * BSIZE
  {
    hide BitsOk, RefOk;
    assert FileOk(disk, inodes[i], i, ext[i], owner);
  }

  lemma {:induction false} SettledSizes(sb: Superblock, disk: seq<Block>, inodes: seq<Dinode>, ext: seq<Extent>,
                                        owner: map<nat, Ref>)
    requires SettledDisk(sb, disk, inodes, ext, owner)
    ensures |inodes| == sb.ninodes
  {
  }

  /** A free entry does not fit exactly if the directory is full. */
  lemma {:induction false} FreeFits(c: seq<byte>, off: nat)
    requires |c| % DIRENT == 0 && off % DIRENT == 0 && off / DIRENT <= Count(c) && |c| <= MAXFILE * BSIZE
    ensures off <= |c| && (off + DIRENT > MAXFILE * BSIZE ==> off / DIRENT == Count(c) && off == DIRENT * Count(c))
  {
  }

  /** A directory whose entries still name inodes of the table. */
  lemma {:induction false} EntriesKept(disk: seq<Block>, inodes: seq<Dinode>, d: seq<Block>, xs: seq<Dinode>, i: nat)
    requires DirsOk(disk, inodes) && i < |inodes| == |xs| && inodes[i].kind == xs[i].kind == T_DIR
    requires forall j :: 0 <= j < |xs| && j != i ==> xs[j] == inodes[j] && File(d, xs[j]) == File(disk, inodes[j])
    requires xs[i].size % DIRENT == 0
    requires NumbersBelow(File(disk, inodes[i]), |xs|) ==> NumbersBelow(File(d, xs[i]), |xs|)
    ensures DirsOk(d, xs)
  {
    hide File, NumbersBelow;
    assert EntriesOk(disk, inodes, i);
    DirsKept(disk, inodes, d, xs, i);
  }

  // ----- unlinking -----

  const NO_ENTRY: seq<byte> := [0, 0, 0, 0, 0, 0, 0, 0, 0, 0, 0, 0, 0, 0, 0, 0]

  /** Clearing an entry in use takes exactly its name out of the map, names being unique. */
  lemma {:induction false} ErasedBindings(c: seq<byte>, c2: seq<byte>, i0: nat, key: seq<byte>, n: nat)
    requires i0 < Count(c) && Added(c, c2, i0, key, 0) && Live(c, i0) && NamesUnique(c) && n <= Count(c)
    ensures Bindings(c2, n) == Bindings(c, n) - {EntryKey(c, i0)}
  {
    hide EntryKey, Inum;
    if n > 0 {
      ErasedBindings(c, c2, i0, key, n - 1);
    }
  }

  lemma {:induction false} ErasedUnique(c: seq<byte>, c2: seq<byte>, i0: nat, key: seq<byte>)
    requires i0 < Count(c) && Added(c, c2, i0, key, 0) && NamesUnique(c)
    ensures NamesUnique(c2)
  {
    hide EntryKey, Inum;
    forall i: nat, j: nat | i < j < Count(c2) && Live(c2, i) && Live(c2, j) ensures EntryKey(c2, i) != EntryKey(c2, j) {
      assert Live(c, i) && Live(c, j);
    }
  }

  /** The bytes unlink writes over an entry. */
  lemma {:induction false} EraseSpliced(c: seq<byte>, off: nat)
    requires |c| % DIRENT == 0 && off % DIRENT == 0 && off / DIRENT < Count(c) && Live(c, off / DIRENT)
    ensures off + DIRENT <= |c|
    ensures var c2 := Splice(c, off, NO_ENTRY);
            && |c2| == |c|
            && (NamesUnique(c) ==> DirMap(c2) == DirMap(c) - {EntryKey(c, off / DIRENT)} && NamesUnique(c2))
            && forall n: nat :: NumbersBelow(c, n) ==> NumbersBelow(c2, n)
  {
    hide Inum, EntryKey, Bindings, Chars, Splice, NumbersBelow, NamesUnique, Dirent;
    var i0, name := off / DIRENT, NO_ENTRY[2..];
    NoEntryIs(name);
    SpliceAdds(c, i0, 0, name);
    var c2 := Splice(c, off, NO_ENTRY);
    SpliceLength(c, off, NO_ENTRY);
    if NamesUnique(c) {
      ErasedBindings(c, c2, i0, Key(name), Count(c));
      ErasedUnique(c, c2, i0, Key(name));
    }
    forall n: nat | NumbersBelow(c, n) ensures NumbersBelow(c2, n) {
      AddedNumbers(c, c2, i0, Key(name), 0, n);
    }
  }

  lemma {:induction false} SpliceLength(c: seq<byte>, off: nat, src: seq<byte>)
    requires off + |src| <= |c|
    ensures |Splice(c, off, src)| == |c|
  {
  }

  lemma {:induction false} NoEntryIs(name: seq<byte>)
    requires name == NO_ENTRY[2..]
    ensures |name| == DIRSIZ && Dirent(0, name) == NO_ENTRY
  {
  }

  /** unlink after dirlink: the map is the one before. */
  lemma {:induction false} UnlinkUndoesLink(c: seq<byte>, off: nat, inum: nat, name: seq<byte>)
    requires |c| % DIRENT == 0 && off % DIRENT == 0 && off / DIRENT <= Count(c) && |name| == DIRSIZ
    requires off / DIRENT == Count(c) || !Live(c, off / DIRENT)
    requires Key(name) !in DirMap(c) && NamesUnique(c) && inum % 65536 != 0
    ensures off <= |c|
    ensures var c2 := Splice(c, off, Dirent(inum % 65536, name));
            off <= |c2| && DirMap(Splice(c2, off, NO_ENTRY)) == DirMap(c)
  {
    hide Inum, EntryKey, Bindings, Chars, Splice, NumbersBelow, NamesUnique, Dirent;
    LinkSpliced(c, off, inum, name);
    SpliceAdds(c, off / DIRENT, inum % 65536, name);
    EraseSpliced(Splice(c, off, Dirent(inum % 65536, name)), off);
  }

  datatype UnlinkResult = Unlinked(inum: nat) | NoSuch | UnlinkPanic

  /** unlink's lookup and the clearing of the entry: the name goes out of the map, and nothing else changes. No block is
      needed, so the panics are those of dirlookup and log_write. */
  method Unlink(fs: Fs, dp: Inode, name: seq<byte>) returns (r: UnlinkResult)
    requires fs.Settled() && fs.Current(dp)
    modifies fs, dp
    ensures fs.Logging(!r.UnlinkPanic?)
    ensures var c := old(File(fs.disk, dp.d));
            && (r.NoSuch? ==> Unchanged(fs, dp) && Key(name) !in DirMap(c))
            && (r.UnlinkPanic? ==> old(dp.d.kind) != T_DIR || old(dp.d.size) % DIRENT != 0 || fs.LogPanics())
            && (r.Unlinked? ==>
                  && fs.Settled() && fs.Current(dp) && fs.OthersUntouched(dp) && |fs.owner| == |old(fs.owner)|
                  && Key(name) in DirMap(c) && DirMap(c)[Key(name)] == r.inum
                  && (NamesUnique(c) && old(dp.d.size) % DIRENT == 0 ==>
                        && DirMap(File(fs.disk, dp.d)) == DirMap(c) - {Key(name)}
                        && NamesUnique(File(fs.disk, dp.d))))
    ensures r.Unlinked? && old(DirsOk(fs.disk, fs.inodes)) ==> DirsOk(fs.disk, fs.inodes)
  {
    hide File, SettledDisk, Recorded, OutsideLog, NoneFree, HeaderFull, WriteLogged, DirMap, Chars, Splice, NamesUnique,
         DirsOk, Live, Grows, NumbersBelow, EntryKey;
    var found := Dirlookup(fs, dp, name);
    match found {
      case LookupPanic => return UnlinkPanic;
      case Absent => return NoSuch;
      case Found(_, _) =>
    }
    ghost var c := File(fs.disk, dp.d);
    SizeFits(fs.sb, fs.disk, fs.inodes, fs.ext, fs.owner, dp.inum);
    EntryInside(fs.sb, fs.disk, fs.inodes, fs.ext, fs.owner, c, found.off);
    var w; ghost var t, K;
    w, t, K := fs.Writei(dp, NO_ENTRY, found.off);
    if !w.Wrote? { return UnlinkPanic; }
    if dp.d.size % DIRENT == 0 {
      EraseSpliced(c, found.off);
      if old(DirsOk(fs.disk, fs.inodes)) {
        SettledSizes(fs.sb, fs.disk, fs.inodes, fs.ext, fs.owner);
        EntriesKept(old(fs.disk), old(fs.inodes), fs.disk, fs.inodes, dp.inum);
      }
    } else {
      DirsWhole(old(fs.disk), old(fs.inodes), dp.inum);
    }
    return Unlinked(found.inum);
  }

  lemma {:induction false} DirsWhole(disk: seq<Block>, inodes: seq<Dinode>, i: nat)
    requires i < |inodes| && inodes[i].kind == T_DIR
    ensures DirsOk(disk, inodes) ==> inodes[i].size % DIRENT == 0
  {
    hide EntriesOk;
  }

  /** Writing over an entry takes no block. */
  lemma {:induction false} EntryInside(sb: Superblock, disk: seq<Block>, inodes: seq<Dinode>, ext: seq<Extent>,
                                       owner: map<nat, Ref>, c: seq<byte>, off: nat)
    requires SettledDisk(sb, disk, inodes, ext, owner) && off % DIRENT == 0 && off / DIRENT < Count(c)
    ensures off + DIRENT <= |c| && Max(|c|, off + DIRENT) == |c| && Grows(|c|, off, DIRENT) == 0
    ensures |owner| <= DataCount(sb)
  {
    hide FsInv;
    OwnedCount(sb, disk, inodes, ext, owner);
  }

  // ----- the other operations keep the directories good -----

  /** ialloc. */
  method MakeInode(fs: Fs, kind: uint16) returns (r: Option<nat>)
    requires fs.Settled() && kind != 0 && DirsOk(fs.disk, fs.inodes)
    modifies fs
    ensures fs.Logging(true) && fs.Settled() && DirsOk(fs.disk, fs.inodes)
  {
    hide File, SettledDisk, Recorded, OutsideLog, HeaderFull, DirsOk;
    r := fs.Ialloc(kind);
    if r.Some? {
      SettledSizes(fs.sb, fs.disk, fs.inodes, fs.ext, fs.owner);
      EmptyDir(fs.disk, fs.inodes, r.value);
      DirsKept(old(fs.disk), old(fs.inodes), fs.disk, fs.inodes, r.value);
    }
  }

  /** itrunc. */
  method Truncate(fs: Fs, ip: Inode) returns (ok: bool)
    requires fs.Settled() && fs.Current(ip) && DirsOk(fs.disk, fs.inodes)
    modifies fs, ip
    ensures fs.Logging(true) && (ok ==> fs.Settled() && fs.Current(ip) && DirsOk(fs.disk, fs.inodes))
  {
    hide File, SettledDisk, Recorded, OutsideLog, HeaderFull, DirsOk, MapBlocks;
    ok := fs.Itrunc(ip);
    if ok {
      EmptyDir(fs.disk, fs.inodes, ip.inum);
      SettledSizes(fs.sb, fs.disk, fs.inodes, fs.ext, fs.owner);
      DirsKept(old(fs.disk), old(fs.inodes), fs.disk, fs.inodes, ip.inum);
    }
  }

  /** iput: a directory that is freed is one no more. */
  method DropInode(fs: Fs, ip: Inode, ref: nat, valid: bool, busy: bool) returns (r: PutResult)
    requires fs.Settled() && fs.Current(ip) && ref >= 1 && DirsOk(fs.disk, fs.inodes)
    modifies fs, ip
    ensures r.Put? ==> fs.Settled() && fs.Current(ip) && DirsOk(fs.disk, fs.inodes)
  {
    hide File, SettledDisk, Recorded, OutsideLog, HeaderFull, DirsOk, MapBlocks;
    r := fs.Iput(ip, ref, valid, busy);
    if r.Put? && ref == 1 && valid && old(ip.d.nlink) == 0 {
      SettledSizes(fs.sb, fs.disk, fs.inodes, fs.ext, fs.owner);
      DirsKept(old(fs.disk), old(fs.inodes), fs.disk, fs.inodes, ip.inum);
    }
  }

  /** writei on what is no directory. */
  method WriteFile(fs: Fs, ip: Inode, src: seq<byte>, off: uint32) returns (r: WriteResult)
    requires fs.Settled() && fs.Current(ip) && ip.d.kind != 0 && ip.d.kind != T_DIR && |src| < 0x1_0000_0000
    requires DirsOk(fs.disk, fs.inodes)
    modifies fs, ip
    ensures fs.Logging(!r.Panicked?)
    ensures !r.Panicked? ==> fs.Settled() && fs.Current(ip) && DirsOk(fs.disk, fs.inodes)
  {
    hide File, Splice, SettledDisk, Recorded, OutsideLog, NoneFree, HeaderFull, DirsOk, WriteLogged, Grows;
    ghost var t, K;
    r, t, K := fs.Writei(ip, src, off);
    if r.Wrote? {
      SettledSizes(fs.sb, fs.disk, fs.inodes, fs.ext, fs.owner);
      DirsKept(old(fs.disk), old(fs.inodes), fs.disk, fs.inodes, ip.inum);
    }
  }
}
