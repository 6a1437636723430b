/** Path names: skipelem and namex of kernel/fs.c as a walk along the components of a path. */
module Paths {
  import opened Bytes
  import opened Names
  import opened FsLayout
  import opened FsContent
  import opened FileSystem
  import opened Directories

  const ROOTINO := 1

  // ----- components -----

  function SkipSlashes(s: seq<byte>, i: nat): (j: nat)
    requires i <= |s|
    ensures i <= j <= |s| && (j < |s| ==> s[j] != SLASH) && forall k :: i <= k < j ==> s[k] == SLASH
    decreases |s| - i
  {
    if i < |s| && s[i] == SLASH then SkipSlashes(s, i + 1) else i
  }

  function WordEnd(s: seq<byte>, i: nat): (j: nat)
    requires i <= |s|
    ensures i <= j <= |s| && (j < |s| ==> s[j] == SLASH) && forall k :: i <= k < j ==> s[k] != SLASH
    decreases |s| - i
  {
    if i < |s| && s[i] != SLASH then WordEnd(s, i + 1) else i
  }

  function Trunc(w: seq<byte>): seq<byte> {
    if |w| > DIRSIZ then w[..DIRSIZ] else w
  }

  /** The non-empty elements of a path from position i on, cut to 14 bytes. */
  function Components(s: seq<byte>, i: nat): seq<seq<byte>>
    requires i <= |s|
    decreases |s| - i
  {
    var a := SkipSlashes(s, i);
    if a == |s| then [] else [Trunc(s[a..WordEnd(s, a)])] + Components(s, WordEnd(s, a))
  }

  /** A word without slashes is one component. */
  lemma {:induction false} OneComponent(w: seq<byte>)
    requires w != [] && SLASH !in w
    ensures Components(w, 0) == [Trunc(w)]
  {
    assert w[0] != SLASH;
    var e := WordEnd(w, 0);
    assert forall k :: 0 <= k < |w| ==> w[k] in w;
    assert e == |w|;
    assert w[0..e] == w;
    assert Components(w, e) == [];
  }

  /** Positions in a suffix. */
  lemma {:induction false} ComponentsSuffix(s: seq<byte>, t: seq<byte>, i: nat)
    requires i <= |t|
    ensures Components(s + t, |s| + i) == Components(t, i)
    decreases |t| - i
  {
    hide Components, SkipSlashes, WordEnd;
    var u := s + t;
    SlashesSuffix(s, t, i);
    FirstComponent(u, |s| + i);
    FirstComponent(t, i);
    var a := SkipSlashes(t, i);
    if a < |t| {
      WordSuffix(s, t, a);
      assert u[|s| + a..|s| + WordEnd(t, a)] == t[a..WordEnd(t, a)];
      ComponentsSuffix(s, t, WordEnd(t, a));
    }
  }

  lemma {:induction false} SlashesSuffix(s: seq<byte>, t: seq<byte>, i: nat)
    requires i <= |t|
    ensures SkipSlashes(s + t, |s| + i) == |s| + SkipSlashes(t, i)
    decreases |t| - i
  {
    if i < |t| && t[i] == SLASH { SlashesSuffix(s, t, i + 1); }
  }

  lemma {:induction false} WordSuffix(s: seq<byte>, t: seq<byte>, i: nat)
    requires i <= |t|
    ensures WordEnd(s + t, |s| + i) == |s| + WordEnd(t, i)
    decreases |t| - i
  {
    if i < |t| && t[i] != SLASH { WordSuffix(s, t, i + 1); }
  }

  /** A slash joins two paths: the components of the first, then those of the second. */
  lemma {:induction false} ComponentsJoin(s: seq<byte>, t: seq<byte>, i: nat)
    requires i <= |s|
    ensures Components(s + [SLASH] + t, i) == Components(s, i) + Components(t, 0)
    decreases |s| - i
  {
    hide Components, SkipSlashes, WordEnd;
    var u := s + [SLASH] + t;
    var a := SkipSlashes(s, i);
    FirstComponent(s, i);
    FirstComponent(u, i);
    if a == |s| {
      SlashesThrough(s, t, i);
      ComponentsSuffix(s + [SLASH], t, 0);
      FirstComponent(u, |s| + 1);
    } else {
      SlashesPrefix(s, t, i);
      WordPrefix(s, t, a);
      var e := WordEnd(s, a);
      assert u[a..e] == s[a..e];
      ComponentsJoin(s, t, e);
      assert [Trunc(s[a..e])] + (Components(s, e) + Components(t, 0)) ==
             ([Trunc(s[a..e])] + Components(s, e)) + Components(t, 0);
    }
  }

  lemma {:induction false} FirstComponent(s: seq<byte>, i: nat)
    requires i <= |s|
    ensures var a := SkipSlashes(s, i);
            Components(s, i) ==
              (if a == |s| then [] else [Trunc(s[a..WordEnd(s, a)])] + Components(s, WordEnd(s, a))) &&
            (a < |s| ==> WordEnd(s, a) > i)
  {
  }

  lemma {:induction false} SkipTwice(u: seq<byte>, i: nat)
    requires i <= |u|
    ensures SkipSlashes(u, SkipSlashes(u, i)) == SkipSlashes(u, i)
  {
  }

  lemma {:induction false} SlashesThrough(s: seq<byte>, t: seq<byte>, i: nat)
    requires i <= |s| && SkipSlashes(s, i) == |s|
    ensures SkipSlashes(s + [SLASH] + t, i) == SkipSlashes(s + [SLASH] + t, |s| + 1)
    decreases |s| - i
  {
    if i < |s| { SlashesThrough(s, t, i + 1); }
  }

  lemma {:induction false} SlashesPrefix(s: seq<byte>, t: seq<byte>, i: nat)
    requires i <= |s| && SkipSlashes(s, i) < |s|
    ensures SkipSlashes(s + [SLASH] + t, i) == SkipSlashes(s, i)
    decreases |s| - i
  {
    if s[i] == SLASH { SlashesPrefix(s, t, i + 1); }
  }

  lemma {:induction false} WordPrefix(s: seq<byte>, t: seq<byte>, i: nat)
    requires i <= |s|
    ensures WordEnd(s + [SLASH] + t, i) == WordEnd(s, i)
    decreases |s| - i
  {
    if i < |s| && s[i] != SLASH { WordPrefix(s, t, i + 1); }
  }

  // ----- skipelem -----

  /** skipelem: the next component and the position behind it and its slashes. */
  method Skipelem(path: seq<byte>, i: nat) returns (r: Option<(nat, seq<byte>)>)
    requires i <= |path|
    ensures r.None? <==> Components(path, i) == []
    ensures r.Some? ==>
      && i < r.value.0 <= |path|
      && Components(path, i) == [r.value.1] + Components(path, r.value.0)
      && (r.value.0 == |path| <==> Components(path, r.value.0) == [])
  {
    var p := i;
    while p < |path| && path[p] == SLASH
      invariant i <= p <= |path| && SkipSlashes(path, p) == SkipSlashes(path, i)
    {
      p := p + 1;
    }
    if p == |path| { return None; }
    var s := p;
    while p < |path| && path[p] != SLASH
      invariant s <= p <= |path| && WordEnd(path, p) == WordEnd(path, s)
    {
      p := p + 1;
    }
    ghost var e := p;
    var len := p - s;
    var name := if len >= DIRSIZ then path[s..s + DIRSIZ] else path[s..p];
    assert name == Trunc(path[s..e]);
    while p < |path| && path[p] == SLASH
      invariant e <= p <= |path| && SkipSlashes(path, p) == SkipSlashes(path, e)
    {
      p := p + 1;
    }
    SkipTwice(path, e);
    return Some((p, name));
  }

  // ----- namex -----

  /** Where a walk ends: at an inode, nowhere, in a panic (ilock of a free inode, or dirlookup of a name that is not
      bound in a directory with a part of an entry at its end), or at a number beyond the inode table. */
  datatype Walk = Ends(inum: nat) | Nowhere | Stops | Beyond

  /** Looking up the components one after the other, each in the directory reached so far. */
  ghost function Follow(disk: seq<Block>, inodes: seq<Dinode>, i: nat, names: seq<seq<byte>>): Walk
    decreases |names|
  {
    if names == [] then Ends(i)
    else if i >= |inodes| then Beyond
    else if inodes[i].kind == 0 then Stops
    else if inodes[i].kind != T_DIR then Nowhere
    else
      var m := DirMap(File(disk, inodes[i]));
      if Key(names[0]) in m then Follow(disk, inodes, m[Key(names[0])], names[1..])
      else if inodes[i].size % DIRENT == 0 then Nowhere
      else Stops
  }

  /** Where directories are whole entries naming inodes of the table, a walk stays in the table. */
  lemma {:induction false} FollowStays(disk: seq<Block>, inodes: seq<Dinode>, i: nat, names: seq<seq<byte>>)
    requires DirsOk(disk, inodes) && i < |inodes|
    ensures var w := Follow(disk, inodes, i, names); !w.Beyond? && (w.Ends? ==> w.inum < |inodes|)
    decreases |names|
  {
    hide File, DirMap, Chars;
    if names != [] && inodes[i].kind == T_DIR {
      var m := DirMap(File(disk, inodes[i]));
      assert EntriesOk(disk, inodes, i);
      if Key(names[0]) in m {
        NamesInTable(File(disk, inodes[i]), |inodes|, Key(names[0]));
        FollowStays(disk, inodes, m[Key(names[0])], names[1..]);
      }
    }
  }

  /** What nameiparent and namei return; OffTable is where ilock would read past the inode table. */
  datatype NamexResult = Node(inum: nat) | Parent(inum: nat, name: seq<byte>) | Null | NamexPanic | OffTable

  /** What the walk comes to, for namei and for nameiparent. */
  ghost function Target(disk: seq<Block>, inodes: seq<Dinode>, i: nat, names: seq<seq<byte>>, parent: bool)
    : NamexResult
  {
    if !parent then
      match Follow(disk, inodes, i, names)
      case Ends(j) => Node(j)
      case Nowhere => Null
      case Stops => NamexPanic
      case Beyond => OffTable
    else if names == [] then Null
    else
      match Follow(disk, inodes, i, names[..|names| - 1])
      case Nowhere => Null
      case Stops => NamexPanic
      case Beyond => OffTable
      case Ends(j) =>
        if j >= |inodes| then OffTable
        else if inodes[j].kind == 0 then NamexPanic
        else if inodes[j].kind != T_DIR then Null
        else Parent(j, names[|names| - 1])
  }

  // ----- directories freed on the way -----

  /** Does namex's iput of inode i free it? It does if the inode has no link and no other reference; next is the one
      namex goes on to. */
  predicate Drops(inodes: seq<Dinode>, held: set<nat>, i: nat, next: Option<nat>) {
    i < |inodes| && inodes[i].nlink == 0 && i !in held && next != Some(i)
  }

  /** Every inode without links is referenced elsewhere too. */
  ghost predicate NoneLoose(inodes: seq<Dinode>, held: set<nat>) {
    forall j :: 0 <= j < |inodes| && inodes[j].nlink == 0 ==> j in held
  }

  ghost predicate AllDrop(inodes: seq<Dinode>, held: set<nat>, freed: set<nat>) {
    forall j :: j in freed ==> Drops(inodes, held, j, None)
  }

  lemma {:induction false} OneMoreDrops(inodes: seq<Dinode>, held: set<nat>, freed: set<nat>, i: nat)
    requires AllDrop(inodes, held, freed) && Drops(inodes, held, i, None)
    ensures AllDrop(inodes, held, freed + {i})
  {
    hide Drops;
  }

  /** What namex comes to if the inodes in `freed` are gone, and others go as it passes them. */
  ghost function Passing(disk: seq<Block>, inodes: seq<Dinode>, held: set<nat>, freed: set<nat>, i: nat,
                         names: seq<seq<byte>>, parent: bool): NamexResult
    decreases |names|
  {
    if names == [] then if parent then Null else Node(i)
    else if i >= |inodes| then OffTable
    else if i in freed || inodes[i].kind == 0 then NamexPanic
    else if inodes[i].kind != T_DIR then Null
    else if parent && |names| == 1 then Parent(i, names[0])
    else
      var m := DirMap(File(disk, inodes[i]));
      if Key(names[0]) !in m then if inodes[i].size % DIRENT == 0 then Null else NamexPanic
      else
        var next := m[Key(names[0])];
        var gone := if Drops(inodes, held, i, Some(next)) then freed + {i} else freed;
        Passing(disk, inodes, held, gone, next, names[1..], parent)
  }

  /** Namex's next step. */
  lemma {:induction false} PassingStep(disk: seq<Block>, inodes: seq<Dinode>, held: set<nat>, freed: set<nat>, i: nat,
                                       name: seq<byte>, rest: seq<seq<byte>>, parent: bool)
    ensures var p := Passing(disk, inodes, held, freed, i, [name] + rest, parent);
            if i >= |inodes| then p == OffTable
            else if i in freed || inodes[i].kind == 0 then p == NamexPanic
            else if inodes[i].kind != T_DIR then p == Null
            else if parent && rest == [] then p == Parent(i, name)
            else
              var m := DirMap(File(disk, inodes[i]));
              if Key(name) !in m then p == if inodes[i].size % DIRENT == 0 then Null else NamexPanic
              else
                var gone := if Drops(inodes, held, i, Some(m[Key(name)])) then freed + {i} else freed;
                p == Passing(disk, inodes, held, gone, m[Key(name)], rest, parent)
    ensures Passing(disk, inodes, held, freed, i, [], parent) == if parent then Null else Node(i)
  {
    hide File, DirMap, Chars;
    assert ([name] + rest)[1..] == rest;
  }

  /** If every inode without links is referenced elsewhere too, nothing goes, and namex is the walk. */
  lemma {:induction false} PassingIsTarget(disk: seq<Block>, inodes: seq<Dinode>, held: set<nat>, i: nat,
                                           names: seq<seq<byte>>, parent: bool)
    requires NoneLoose(inodes, held)
    ensures Passing(disk, inodes, held, {}, i, names, parent) == Target(disk, inodes, i, names, parent)
    decreases |names|
  {
    hide File, DirMap, Chars;
    if names != [] && i < |inodes| {
      OneStep(disk, inodes, i, names[0], names[1..], parent);
      assert [names[0]] + names[1..] == names;
      var m := DirMap(File(disk, inodes[i]));
      if Key(names[0]) in m {
        PassingIsTarget(disk, inodes, held, m[Key(names[0])], names[1..], parent);
      }
    } else if names != [] {
      StepBeyond(disk, inodes, i, names[0], names[1..], parent);
      assert [names[0]] + names[1..] == names;
    }
  }

  /** Of the files, exactly those in `freed` are gone. */
  ghost predicate GoneAre(disk: seq<Block>, inodes: seq<Dinode>, d: seq<Block>, xs: seq<Dinode>, freed: set<nat>) {
    && |xs| == |inodes|
    && forall j :: 0 <= j < |xs| ==>
         if j in freed then xs[j] == inodes[j].(kind := 0, size := 0, addrs := NO_ADDRS)
         else xs[j] == inodes[j] && File(d, xs[j]) == File(disk, inodes[j])
  }

  lemma {:induction false} OneMoreGone(disk: seq<Block>, inodes: seq<Dinode>, d: seq<Block>, xs: seq<Dinode>,
                                       freed: set<nat>, e: seq<Block>, ys: seq<Dinode>, i: nat)
    requires GoneAre(disk, inodes, d, xs, freed) && i < |xs| == |ys| && i !in freed
    requires forall j :: 0 <= j < |xs| && j != i ==> ys[j] == xs[j] && File(e, ys[j]) == File(d, xs[j])
    requires ys[i] == xs[i].(kind := 0, size := 0, addrs := NO_ADDRS)
    ensures GoneAre(disk, inodes, e, ys, freed + {i})
  {
    hide File;
  }

  /** ilock's reading of an inode from the table. */
  method Ilock(fs: Fs, inum: nat) returns (ip: Inode)
    requires fs.Settled() && inum < fs.sb.ninodes
    ensures fresh(ip) && ip.inum == inum && fs.Current(ip)
  {
    hide FsInv, ReadInode;
    Dimensions(fs.sb, fs.disk, fs.inodes, fs.ext, fs.owner);
    ip := new Inode(inum, ReadInode(fs.disk[InodeBlock(inum)], inum % IPB));
    assert InodeOnDisk(fs.sb, fs.disk, inum) == fs.inodes[inum];
  }

  twostate predicate SameFs(fs: Fs)
    reads fs
  {
    && fs.disk == old(fs.disk) && fs.inodes == old(fs.inodes) && fs.ext == old(fs.ext) && fs.owner == old(fs.owner)
    && fs.logged == old(fs.logged)
  }

  /** The walk takes one step. */
  lemma {:induction false} OneStep(disk: seq<Block>, inodes: seq<Dinode>, i: nat, name: seq<byte>, rest: seq<seq<byte>>,
                                   parent: bool)
    requires i < |inodes|
    ensures var names := [name] + rest; var m := DirMap(File(disk, inodes[i]));
            Target(disk, inodes, i, names, parent) ==
              if inodes[i].kind == 0 then NamexPanic
              else if inodes[i].kind != T_DIR then Null
              else if parent && rest == [] then Parent(i, name)
              else if Key(name) in m then Target(disk, inodes, m[Key(name)], rest, parent)
              else if inodes[i].size % DIRENT == 0 then Null
              else NamexPanic
  {
    hide File, DirMap, Chars;
    var names := [name] + rest;
    assert names[1..] == rest;
    if parent {
      if rest == [] {
        assert names[..|names| - 1] == [];
      } else {
        assert names[..|names| - 1] == [name] + rest[..|rest| - 1];
        assert ([name] + rest[..|rest| - 1])[1..] == rest[..|rest| - 1];
      }
    }
  }

  lemma {:induction false} StepBeyond(disk: seq<Block>, inodes: seq<Dinode>, i: nat, name: seq<byte>,
                                      rest: seq<seq<byte>>, parent: bool)
    requires i >= |inodes|
    ensures Target(disk, inodes, i, [name] + rest, parent) == OffTable
  {
    assert rest == [] ==> ([name] + rest)[..|[name] + rest| - 1] == [];
  }

  /** iunlockput as namex uses it, on its own reference to an inode it has locked; false is log_write's panic. */
  method PutPassed(fs: Fs, ip: Inode, held: set<nat>, next: Option<nat>) returns (ok: bool)
    requires fs.Settled() && fs.Current(ip)
    modifies fs, ip
    ensures fs.Logging(true) && (!ok ==> fs.LogPanics() && old(Drops(fs.inodes, held, ip.inum, next)))
    ensures ok ==>
      && fs.Settled() && |fs.inodes| == |old(fs.inodes)|
      && if old(Drops(fs.inodes, held, ip.inum, next)) then
           && fs.OthersUntouched(ip)
           && fs.inodes[ip.inum] == old(fs.inodes)[ip.inum].(kind := 0, size := 0, addrs := NO_ADDRS)
         else SameFs(fs)
  {
    hide SettledDisk, File, Recorded, OutsideLog, HeaderFull;
    SettledSizes(fs.sb, fs.disk, fs.inodes, fs.ext, fs.owner);
    var more := if ip.inum in held || next == Some(ip.inum) then 1 else 0;
    var r := fs.Iput(ip, 1 + more, true, false);
    ok := r.Put?;
  }

  /** namex goes along the path's components from the root or the current directory, as the walk does, giving up each
      directory as it passes it. The directories that go by this are exactly those without links or other references,
      and there are none if every inode without links is referenced elsewhere too. */
  method Namex(fs: Fs, path: seq<byte>, cwd: nat, parent: bool, held: set<nat>)
    returns (r: NamexResult, ghost freed: set<nat>)
    requires fs.Settled()
    modifies fs
    ensures var start := if path != [] && path[0] == SLASH then ROOTINO else cwd;
            && (r == Passing(old(fs.disk), old(fs.inodes), held, {}, start, Components(path, 0), parent)
                || (r.NamexPanic? && fs.LogPanics()))
            && (NoneLoose(old(fs.inodes), held) ==>
                  r == Target(fs.disk, fs.inodes, start, Components(path, 0), parent) && SameFs(fs))
    ensures fs.Logging(true) && AllDrop(old(fs.inodes), held, freed)
    ensures !r.NamexPanic? ==> fs.Settled() && GoneAre(old(fs.disk), old(fs.inodes), fs.disk, fs.inodes, freed)
  {
    hide SettledDisk, File, DirMap, Components, Chars, Target, Recorded, OutsideLog, NoneFree, HeaderFull, Follow,
         GoneAre, Passing, Drops, AllDrop, NoneLoose;
    var cur: nat := if path != [] && path[0] == SLASH then ROOTINO else cwd;
    ghost var d0, xs0 := fs.disk, fs.inodes;
    ghost var goal := Passing(d0, xs0, held, {}, cur, Components(path, 0), parent);
    if NoneLoose(xs0, held) {
      PassingIsTarget(d0, xs0, held, cur, Components(path, 0), parent);
      NoneDrops(xs0, held);
    }
    SettledSizes(fs.sb, fs.disk, fs.inodes, fs.ext, fs.owner);
    freed := {};
    NoneGone(d0, xs0, held);
    var pos := 0;
    while true
      invariant 0 <= pos <= |path| && fs.Settled() && fs.Logging(true)
      invariant |fs.inodes| == |xs0| == fs.sb.ninodes && GoneAre(d0, xs0, fs.disk, fs.inodes, freed)
      invariant AllDrop(xs0, held, freed)
      invariant (freed == {} ==> SameFs(fs)) && (NoneLoose(xs0, held) ==> freed == {})
      invariant goal == Passing(d0, xs0, held, freed, cur, Components(path, pos), parent)
      decreases |path| - pos
    {
      var e := Skipelem(path, pos);
      if e.None? { break; }
      var next, name := e.value.0, e.value.1;
      PassingStep(d0, xs0, held, freed, cur, name, Components(path, next), parent);
      if cur >= fs.sb.ninodes { return OffTable, freed; }
      var out, after;
      out, after, freed := PassOne(fs, cur, name, parent && next == |path|, held, d0, xs0, freed);
      if out.Some? { return out.value, freed; }
      pos, cur := next, after;
    }
    PassingStep(d0, xs0, held, freed, cur, [], [], parent);
    return if parent then Null else Node(cur), freed;
  }

  /** One turn of namex's loop, at inode cur: the result, or the inode to go on to. */
  method PassOne(fs: Fs, cur: nat, name: seq<byte>, last: bool, held: set<nat>, ghost d0: seq<Block>,
                 ghost xs0: seq<Dinode>, ghost freed: set<nat>)
    returns (r: Option<NamexResult>, next: nat, ghost gone: set<nat>)
    requires fs.Settled() && cur < |fs.inodes| == |xs0| == fs.sb.ninodes
    requires GoneAre(d0, xs0, fs.disk, fs.inodes, freed) && AllDrop(xs0, held, freed)
    modifies fs
    ensures fs.Logging(true) && AllDrop(xs0, held, gone)
    ensures !Drops(xs0, held, cur, None) ==> SameFs(fs) && gone == freed
    ensures r.None? && gone == freed ==> SameFs(fs)
    ensures r != Some(NamexPanic) ==>
      fs.Settled() && |fs.inodes| == |xs0| && GoneAre(d0, xs0, fs.disk, fs.inodes, gone)
    ensures || (r == Some(NamexPanic) && fs.LogPanics() && Drops(xs0, held, cur, None))
            || var m := DirMap(File(d0, xs0[cur]));
               if cur in freed || xs0[cur].kind == 0 then r == Some(NamexPanic)
               else if xs0[cur].kind != T_DIR then r == Some(Null)
               else if last then r == Some(Parent(cur, name))
               else if Key(name) !in m then r == Some(if xs0[cur].size % DIRENT == 0 then Null else NamexPanic)
               else
                 && r == None && next == m[Key(name)]
                 && gone == if Drops(xs0, held, cur, Some(next)) then freed + {cur} else freed
  {
    hide SettledDisk, File, DirMap, Chars, Recorded, OutsideLog, NoneFree, HeaderFull, GoneAre, Drops, AllDrop;
    gone, next := freed, 0;
    GoneAt(d0, xs0, fs.disk, fs.inodes, freed, cur);
    var ip := Ilock(fs, cur);
    if ip.d.kind == 0 { return Some(NamexPanic), next, gone; }
    if ip.d.kind != T_DIR {
      var out;
      out, gone := GiveUp(fs, ip, held, Null, d0, xs0, freed);
      return Some(out), next, gone;
    }
    if last { return Some(Parent(cur, name)), next, gone; }
    var found := Dirlookup(fs, ip, name);
    match found {
      case LookupPanic => return Some(NamexPanic), next, gone;
      case Absent =>
        var out;
        out, gone := GiveUp(fs, ip, held, Null, d0, xs0, freed);
        return Some(out), next, gone;
      case Found(inum, _) =>
        ghost var d1, xs1 := fs.disk, fs.inodes;
        DropsMeans(xs0, xs1, held, cur, Some(inum));
        var ok := PutPassed(fs, ip, held, Some(inum));
        if !ok { return Some(NamexPanic), next, gone; }
        if Drops(xs0, held, cur, Some(inum)) {
          OneMoreGone(d0, xs0, d1, xs1, freed, fs.disk, fs.inodes, cur);
          OneMoreDrops(xs0, held, freed, cur);
          gone := freed + {cur};
        }
        return None, inum, gone;
    }
  }

  /** namex ends at ip without a result. */
  method GiveUp(fs: Fs, ip: Inode, held: set<nat>, r0: NamexResult, ghost d0: seq<Block>, ghost xs0: seq<Dinode>,
                ghost freed: set<nat>)
    returns (r: NamexResult, ghost gone: set<nat>)
    requires fs.Settled() && fs.Current(ip) && |fs.inodes| == |xs0| && !r0.NamexPanic?
    requires GoneAre(d0, xs0, fs.disk, fs.inodes, freed) && ip.inum !in freed
    requires AllDrop(xs0, held, freed)
    modifies fs, ip
    ensures fs.Logging(true) && (r == r0 || (r.NamexPanic? && fs.LogPanics()))
    ensures AllDrop(xs0, held, gone)
    ensures !Drops(xs0, held, ip.inum, None) ==> r == r0 && gone == freed && SameFs(fs)
    ensures r == r0 ==> fs.Settled() && |fs.inodes| == |xs0| && GoneAre(d0, xs0, fs.disk, fs.inodes, gone)
  {
    hide SettledDisk, File, Recorded, OutsideLog, HeaderFull, GoneAre, AllDrop;
    GoneAt(d0, xs0, fs.disk, fs.inodes, freed, ip.inum);
    DropsMeans(xs0, fs.inodes, held, ip.inum, None);
    ghost var d1, xs1 := fs.disk, fs.inodes;
    var ok := PutPassed(fs, ip, held, None);
    gone := freed;
    if !ok { return NamexPanic, gone; }
    if Drops(xs0, held, ip.inum, None) {
      OneMoreGone(d0, xs0, d1, xs1, freed, fs.disk, fs.inodes, ip.inum);
      OneMoreDrops(xs0, held, freed, ip.inum);
      gone := freed + {ip.inum};
    }
    r := r0;
  }

  lemma {:induction false} DropsMeans(xs: seq<Dinode>, ys: seq<Dinode>, held: set<nat>, i: nat, next: Option<nat>)
    requires i < |xs| == |ys| && xs[i] == ys[i]
    ensures Drops(xs, held, i, next) == Drops(ys, held, i, next)
    ensures Drops(xs, held, i, next) ==> Drops(xs, held, i, None)
  {
  }

  lemma {:induction false} NoneDrops(xs: seq<Dinode>, held: set<nat>)
    requires NoneLoose(xs, held)
    ensures forall j: nat, next: Option<nat> :: !Drops(xs, held, j, next)
  {
  }

  lemma {:induction false} NoneGone(d: seq<Block>, xs: seq<Dinode>, held: set<nat>)
    ensures GoneAre(d, xs, d, xs, {}) && AllDrop(xs, held, {})
  {
  }

  lemma {:induction false} GoneAt(disk: seq<Block>, inodes: seq<Dinode>, d: seq<Block>, xs: seq<Dinode>,
                                  freed: set<nat>, i: nat)
    requires GoneAre(disk, inodes, d, xs, freed) && i < |xs|
    ensures |xs| == |inodes| && (i in freed ==> xs[i].kind == 0)
    ensures i !in freed ==> xs[i] == inodes[i] && File(d, xs[i]) == File(disk, inodes[i])
  {
    hide File;
  }
}
