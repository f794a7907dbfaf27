/** The repository mirror as an object whose methods change the destination one file operation at a time;
  * any operation may fail, which ends the sync there.
  */
module Mirroring {
  import opened Schema
  import opened Mirror

  /** The fate of each file operation, in order: whether it succeeds, whether a hard link can be made
    * (otherwise the file is copied), and how many bytes a failing copy leaves. */
  datatype IO = IO(ok: nat -> bool, link: nat -> bool, short: nat -> nat)

  /** No file operation fails. */
  ghost predicate Fine(io: IO) {
    forall n :: io.ok(n)
  }

  /** A step of the destination that keeps every immutable name as it is, and puts under a new immutable
    * name only what the source has there. */
  ghost predicate Careful(a: Store, b: Store, truth: map<Name, Content>) {
    forall p :: IsImmutable(p) ==>
      && (p in a ==> At(b, p) == At(a, p))
      && (p !in a && p in b ==> p in truth && b[p] == FileItem(truth[p]))
  }

  ghost predicate CarefulPath(h: seq<Store>, truth: map<Name, Content>) {
    forall i :: 0 < i < |h| ==> Careful(h[i - 1], h[i], truth)
  }

  /** `truth` holds the immutable files of the source, and no source directory has an immutable name. */
  ghost predicate Truthful(entries: seq<Entry>, rel: Name, truth: map<Name, Content>) {
    forall i :: 0 <= i < |entries| ==>
      var p := rel + [entries[i].name];
      && (entries[i].node.FileNode? && IsImmutable(p) ==> p in truth && truth[p] == entries[i].node.content)
      && (entries[i].node.DirNode? ==> !IsImmutable(p) && Truthful(entries[i].node.entries, p, truth))
  }

  /** The number of files among the first `n` entries and below them. */
  function FileCount(entries: seq<Entry>, n: nat): nat
    requires n <= |entries|
    decreases entries, n
  {
    if n == 0 then 0
    else
      FileCount(entries, n - 1)
      + match entries[n - 1].node
        case FileNode(_) => 1
        case DirNode(sub) => FileCount(sub, |sub|)
        case _ => 0
  }

  function Parent(p: Name): Name {
    if p == [] then [] else p[..|p| - 1]
  }

  /** Whatever changed between `a` and `b` is in a directory marked dirty. */
  ghost predicate Marked(a: Store, b: Store, dirty: set<Name>) {
    forall p :: At(a, p) != At(b, p) ==> Parent(p) in dirty
  }

  /** A file that has to be copied changes the destination, and only in its own directory. */
  lemma CopyChanges(f: Store, p: Name, c: Content, dirty: set<Name>)
    requires p != [] && Parent(p) in dirty
    requires !(if IsImmutable(p) then p in f else p in f && f[p] == FileItem(c))
    ensures var g := DropFile(f, Temp(p))[p := FileItem(c)];
            SyncedFile(f, p, c) == g != f && Marked(f, g, dirty)
  {
    hide IsImmutable;
    var g := DropFile(f, Temp(p))[p := FileItem(c)];
    assert At(f, p) != At(g, p);
  }

  /** What is left of `f` when the extra files among `seen` are gone. */
  ghost predicate Left(f: Store, g: Store, entries: seq<Entry>, rel: Name, seen: set<Name>) {
    g == map p | p in f && !(p in seen && Extra(f, entries, rel, p)) :: f[p]
  }

  lemma MarkedNothing(f: Store, dirty: set<Name>)
    ensures Marked(f, f, dirty)
  {
  }

  lemma MarkedTwice(a: Store, b: Store, c: Store, earlier: set<Name>, dirty: set<Name>)
    requires Marked(a, b, earlier) && earlier <= dirty && Marked(b, c, dirty)
    ensures Marked(a, c, dirty)
  {
  }

  lemma MarkedDrop(f: Store, p: Name, dirty: set<Name>)
    requires Parent(p) in dirty
    ensures Marked(f, f - {p}, dirty)
  {
  }

  lemma MarkedEnter(f: Store, rel: Name, dirty: set<Name>)
    requires Parent(rel) in dirty
    ensures Marked(f, f[rel := DirItem], dirty)
  {
  }

  lemma LeftStep(f: Store, g: Store, entries: seq<Entry>, rel: Name, seen: set<Name>, p: Name)
    requires Left(f, g, entries, rel, seen) && p in f && p !in seen
    ensures p in g && g[p] == f[p]
    ensures Left(f, if Extra(f, entries, rel, p) then g - {p} else g, entries, rel, seen + {p})
  {
    hide Extra;
  }

  lemma LeftAll(f: Store, g: Store, entries: seq<Entry>, rel: Name, seen: set<Name>)
    requires Left(f, g, entries, rel, seen)
    requires forall p :: p in f && |p| == |rel| + 1 && p[..|rel|] == rel ==> p in seen
    ensures g == Swept(f, entries, rel)
  {
    hide IsImmutable, Named;
  }

  lemma NotNamed(entries: seq<Entry>, rel: Name, p: Name, names: set<string>)
    requires |p| == |rel| + 1 && p[|rel|] !in names
    requires names == set i | 0 <= i < |entries| :: entries[i].name
    ensures !Named(entries, p[|rel|])
  {
  }

  lemma NotExtra(f: Store, entries: seq<Entry>, rel: Name, p: Name, names: set<string>)
    requires |p| == |rel| + 1 && p in f && (p[|rel|] in names || !f[p].FileItem? || IsImmutable(p))
    requires names == set i | 0 <= i < |entries| :: entries[i].name
    ensures !Extra(f, entries, rel, p)
  {
    hide IsImmutable;
  }

  lemma LeftNone(f: Store, entries: seq<Entry>, rel: Name)
    ensures Left(f, f, entries, rel, {})
  {
  }

  lemma RootInPlace(f: Store, entries: seq<Entry>, rel: Name)
    requires InPlace(f, entries, rel)
    ensures rel in f
  {
  }

  lemma KeptFile(f: Store, p: Name, c: Content, dirty: set<Name>)
    requires p != [] && (if IsImmutable(p) then p in f else p in f && f[p] == FileItem(c))
    ensures SyncedFile(f, p, c) == f && Marked(f, f, dirty)
  {
  }

  /** Entry `i` can be synced into `g`. */
  ghost predicate EntrySyncable(g: Store, entries: seq<Entry>, i: nat, rel: Name)
    requires i < |entries|
  {
    var p := rel + [entries[i].name];
    match entries[i].node
    case FileNode(c) => FileSyncable(g, p, c)
    case DirNode(sub) => DirSyncable(g, sub, p)
    case LinkNode => false
    case SpecialNode => true
  }

  lemma NextSyncable(f: Store, entries: seq<Entry>, i: nat, rel: Name)
    requires i < |entries| && EntriesSyncable(f, entries, i, rel)
    ensures EntriesSyncable(f, entries, i + 1, rel) <==> EntrySyncable(SyncedEntries(f, entries, i, rel), entries, i, rel)
  {
    hide FileSyncable, SyncedEntries, IsImmutable;
  }

  lemma FirstSyncable(f: Store, entries: seq<Entry>, rel: Name)
    ensures EntriesSyncable(f, entries, 0, rel)
  {
  }

  lemma {:induction false} EarlierSyncable(f: Store, entries: seq<Entry>, i: nat, n: nat, rel: Name)
    requires i <= n <= |entries|
    ensures EntriesSyncable(f, entries, n, rel) ==> EntriesSyncable(f, entries, i, rel)
    decreases n
  {
    hide FileSyncable, SyncedEntries, IsImmutable;
    if i < n {
      EarlierSyncable(f, entries, i, n - 1, rel);
    }
  }

  datatype Stats = Stats(linked: nat, copied: nat, replaced: nat, reused: nat, removed: nat, bytesCopied: nat)

  function Handled(s: Stats): nat {
    s.linked + s.copied + s.replaced + s.reused
  }

  class Destination {
    var store: Store
    var stats: Stats
    var dirty: set<Name>
    var clock: nat
    /** Every content of the destination so far. */
    ghost var hist: seq<Store>

    ghost predicate Valid(truth: map<Name, Content>)
      reads this`store, this`hist
    {
      hist != [] && hist[|hist| - 1] == store && CarefulPath(hist, truth)
    }

    constructor (store: Store)
      ensures this.store == store && hist == [store] && stats == Stats(0, 0, 0, 0, 0, 0) && dirty == {}
    {
      this.store, stats, dirty, clock, hist := store, Stats(0, 0, 0, 0, 0, 0), {}, 0, [store];
    }

    method Become(next: Store, ghost truth: map<Name, Content>)
      requires Valid(truth) && Careful(store, next, truth)
      modifies this`store, this`hist
      ensures Valid(truth) && store == next && hist == old(hist) + [next]
    {
      store, hist := next, hist + [next];
    }

    method Attempt(io: IO) returns (ok: bool)
      modifies this`clock
      ensures ok == io.ok(old(clock))
    {
      ok := io.ok(clock);
      clock := clock + 1;
    }

    /** `remove_temporary`: a missing file is no error, a directory in its place is. */
    method RemoveTemporary(p: Name, io: IO, ghost truth: map<Name, Content>) returns (ok: bool)
      requires Valid(truth) && !IsImmutable(p)
      modifies this`store, this`hist, this`clock
      ensures Valid(truth) && old(hist) <= hist
      ensures ok ==> store == DropFile(old(store), p) && p !in store && At(old(store), p) != Some(DirItem)
      ensures Fine(io) && At(old(store), p) != Some(DirItem) ==> ok
    {
      ok := Attempt(io);
      if ok && p in store {
        if store[p].DirItem? {
          return false;
        }
        Become(store - {p}, truth);
      }
    }

    /** Fills the temporary at `t`; a copy that fails leaves a part. */
    method Copy(c: Content, t: Name, io: IO, ghost truth: map<Name, Content>) returns (ok: bool)
      requires Valid(truth) && !IsImmutable(t) && t !in store
      modifies this`store, this`hist, this`clock
      ensures Valid(truth) && old(hist) <= hist
      ensures ok ==> store == old(store)[t := FileItem(c)]
      ensures Fine(io) ==> ok
    {
      var short := io.short(clock);
      ok := Attempt(io);
      if ok {
        Become(store[t := FileItem(c)], truth);
        ok := Attempt(io);
      } else {
        Become(store[t := FileItem(c[..if short < |c| then short else |c|])], truth);
      }
    }

    /** Hard-links the source file as the temporary at `t`. */
    method Link(c: Content, t: Name, ghost truth: map<Name, Content>)
      requires Valid(truth) && !IsImmutable(t) && t !in store
      modifies this`store, this`hist
      ensures Valid(truth) && old(hist) <= hist
      ensures store == old(store)[t := FileItem(c)]
    {
      Become(store[t := FileItem(c)], truth);
    }

    /** Renames the temporary into place; this fails if a directory is there. */
    method Rename(t: Name, p: Name, c: Content, io: IO, ghost truth: map<Name, Content>) returns (ok: bool)
      requires Valid(truth) && !IsImmutable(t) && t != p && At(store, t) == Some(FileItem(c))
      requires IsImmutable(p) ==> p !in store && p in truth && truth[p] == c
      modifies this`store, this`hist, this`clock
      ensures Valid(truth) && old(hist) <= hist
      ensures ok ==> store == (old(store) - {t})[p := FileItem(c)]
      ensures old(p in store && store[p].DirItem?) ==> !ok
      ensures Fine(io) && At(old(store), p) != Some(DirItem) ==> ok
    {
      ok := Attempt(io);
      if ok {
        if p in store && store[p].DirItem? {
          return false;
        }
        Become((store - {t})[p := FileItem(c)], truth);
      }
    }

    /** `sync_repository_file`. */
    method SyncFile(p: Name, c: Content, io: IO, ghost truth: map<Name, Content>) returns (ok: bool)
      requires Valid(truth) && p != []
      requires IsImmutable(p) ==> p in truth && truth[p] == c
      modifies this
      ensures Valid(truth) && old(hist) <= hist && old(dirty) <= dirty
      ensures ok ==> store == SyncedFile(old(store), p, c) && Marked(old(store), store, dirty)
      ensures ok ==> Handled(stats) == old(Handled(stats)) + 1
      ensures ok && store == old(store) ==> stats == old(stats).(reused := old(stats).reused + 1)
      ensures ok ==> FileSyncable(old(store), p, c)
      ensures Fine(io) && FileSyncable(old(store), p, c) ==> ok
      ensures ok && IsImmutable(p) && p !in old(store) && (forall n :: io.link(n))
              ==> stats == old(stats).(linked := old(stats).linked + 1)
      ensures ok && IsImmutable(p) && p !in old(store) && (forall n :: !io.link(n))
              ==> stats == old(stats).(copied := old(stats).copied + 1, bytesCopied := old(stats).bytesCopied + |c|)
      ensures ok && !IsImmutable(p) && At(old(store), p) != Some(FileItem(c))
              ==> stats == (if p in old(store) then old(stats).(replaced := old(stats).replaced + 1)
                            else old(stats).(copied := old(stats).copied + 1))
                           .(bytesCopied := old(stats).bytesCopied + |c|)
    {
      hide IsImmutable;
      TempNeverImmutable(p);
      assert Temp(p)[|p| - 1] != p[|p| - 1];
      if IsImmutable(p) {
        ok := SyncImmutable(p, c, io, truth);
      } else {
        ok := SyncMutable(p, c, io, truth);
      }
    }

    method SyncImmutable(p: Name, c: Content, io: IO, ghost truth: map<Name, Content>) returns (ok: bool)
      requires Valid(truth) && p != [] && IsImmutable(p) && !IsImmutable(Temp(p)) && Temp(p) != p
      requires p in truth && truth[p] == c
      modifies this
      ensures Valid(truth) && old(hist) <= hist && old(dirty) <= dirty
      ensures ok ==> store == SyncedFile(old(store), p, c) && Marked(old(store), store, dirty)
      ensures ok ==> Handled(stats) == old(Handled(stats)) + 1
      ensures ok && store == old(store) ==> stats == old(stats).(reused := old(stats).reused + 1)
      ensures ok ==> FileSyncable(old(store), p, c)
      ensures Fine(io) && FileSyncable(old(store), p, c) ==> ok
      ensures ok && IsImmutable(p) && p !in old(store) && (forall n :: io.link(n))
              ==> stats == old(stats).(linked := old(stats).linked + 1)
      ensures ok && IsImmutable(p) && p !in old(store) && (forall n :: !io.link(n))
              ==> stats == old(stats).(copied := old(stats).copied + 1, bytesCopied := old(stats).bytesCopied + |c|)
    {
      hide IsImmutable, Valid, SyncedFile, Marked;
      if p in store {
        KeptFile(store, p, c, dirty);
        stats := stats.(reused := stats.reused + 1);
        return true;
      }
      var t := Temp(p);
      ok := RemoveTemporary(t, io, truth);
      if !ok {
        return;
      }
      if io.link(clock) {
        Link(c, t, truth);
        stats := stats.(linked := stats.linked + 1);
      } else {
        ok := Copy(c, t, io, truth);
        if !ok {
          return;
        }
        stats := stats.(copied := stats.copied + 1, bytesCopied := stats.bytesCopied + |c|);
      }
      ok := Rename(t, p, c, io, truth);
      if ok {
        dirty := dirty + {Parent(p)};
        CopyChanges(old(store), p, c, dirty);
        assert store == DropFile(old(store), t)[p := FileItem(c)];
      }
    }

    method SyncMutable(p: Name, c: Content, io: IO, ghost truth: map<Name, Content>) returns (ok: bool)
      requires Valid(truth) && p != [] && !IsImmutable(p) && !IsImmutable(Temp(p)) && Temp(p) != p
      modifies this
      ensures Valid(truth) && old(hist) <= hist && old(dirty) <= dirty
      ensures ok ==> store == SyncedFile(old(store), p, c) && Marked(old(store), store, dirty)
      ensures ok ==> Handled(stats) == old(Handled(stats)) + 1
      ensures ok && store == old(store) ==> stats == old(stats).(reused := old(stats).reused + 1)
      ensures ok ==> FileSyncable(old(store), p, c)
      ensures Fine(io) && FileSyncable(old(store), p, c) ==> ok
      ensures ok && !IsImmutable(p) && At(old(store), p) != Some(FileItem(c))
              ==> stats == (if p in old(store) then old(stats).(replaced := old(stats).replaced + 1)
                            else old(stats).(copied := old(stats).copied + 1))
                           .(bytesCopied := old(stats).bytesCopied + |c|)
    {
      hide IsImmutable, Valid, SyncedFile, Marked;
      if p in store && store[p] == FileItem(c) {
        KeptFile(store, p, c, dirty);
        stats := stats.(reused := stats.reused + 1);
        return true;
      }
      var replacing := p in store;
      var t := Temp(p);
      ok := RemoveTemporary(t, io, truth);
      if ok {
        ok := Copy(c, t, io, truth);
      }
      if ok {
        ok := Rename(t, p, c, io, truth);
      }
      if ok {
        stats := if replacing then stats.(replaced := stats.replaced + 1, bytesCopied := stats.bytesCopied + |c|)
        else stats.(copied := stats.copied + 1, bytesCopied := stats.bytesCopied + |c|);
        dirty := dirty + {Parent(p)};
        CopyChanges(old(store), p, c, dirty);
        assert store == DropFile(old(store), t)[p := FileItem(c)];
      }
    }

    /** `sync_repository_tree`: success leaves exactly `SyncedDir`; success or not, every step was careful. */
    method SyncTree(entries: seq<Entry>, rel: Name, io: IO, ghost truth: map<Name, Content>) returns (ok: bool)
      requires Valid(truth) && Truthful(entries, rel, truth) && !IsImmutable(rel)
      modifies this
      ensures Valid(truth) && old(hist) <= hist && old(dirty) <= dirty
      ensures ok ==> store == SyncedDir(old(store), entries, rel) && Marked(old(store), store, dirty)
      ensures ok ==> DirSyncable(old(store), entries, rel)
      ensures Fine(io) && DirSyncable(old(store), entries, rel) ==> ok
      ensures ok ==> Handled(stats) == old(Handled(stats)) + FileCount(entries, |entries|)
      ensures ok && InPlace(old(store), entries, rel)
              ==> stats == old(stats).(reused := old(stats).reused + FileCount(entries, |entries|))
      decreases entries, |entries| + 1
    {
      hide IsImmutable, Valid, Marked, InPlace, SyncedEntries, Swept, Truthful, FileCount, EntriesSyncable, Fine;
      ok := Enter(rel, io, truth);
      if !ok {
        return;
      }
      ghost var entered, marked0 := store, dirty;
      ghost var inPlace := InPlace(old(store), entries, rel);
      if inPlace {
        RootInPlace(old(store), entries, rel);
      }
      ok := SyncEntries(entries, rel, io, truth);
      if !ok {
        return;
      }
      ghost var filled, marked1 := store, dirty;
      ok := Sweep(entries, rel, io, truth);
      if ok {
        MarkedTwice(old(store), entered, filled, marked0, marked1);
        MarkedTwice(old(store), filled, store, marked1, dirty);
        if inPlace {
          NothingToDo(old(store), entries, |entries|, rel);
          NothingToSweep(old(store), entries, rel);
        }
      }
    }

    /** Creates the destination directory unless it exists; a file in its place fails the sync. */
    method Enter(rel: Name, io: IO, ghost truth: map<Name, Content>) returns (ok: bool)
      requires Valid(truth) && !IsImmutable(rel)
      modifies this
      ensures Valid(truth) && old(hist) <= hist && old(dirty) <= dirty && stats == old(stats)
      ensures ok ==> store == (if rel in old(store) then old(store) else old(store)[rel := DirItem])
      ensures ok ==> Marked(old(store), store, dirty) && !FileOnly(At(old(store), rel))
      ensures Fine(io) && !FileOnly(At(old(store), rel)) ==> ok
    {
      MarkedNothing(store, dirty);
      if rel in store {
        return store[rel].DirItem?;
      }
      ok := Attempt(io);
      if ok {
        dirty := dirty + {rel, Parent(rel)};
        MarkedEnter(store, rel, dirty);
        Become(store[rel := DirItem], truth);
      }
    }

    method SyncEntries(entries: seq<Entry>, rel: Name, io: IO, ghost truth: map<Name, Content>) returns (ok: bool)
      requires Valid(truth) && Truthful(entries, rel, truth)
      modifies this
      ensures Valid(truth) && old(hist) <= hist && old(dirty) <= dirty
      ensures ok ==> store == SyncedEntries(old(store), entries, |entries|, rel) && Marked(old(store), store, dirty)
      ensures ok ==> EntriesSyncable(old(store), entries, |entries|, rel)
      ensures Fine(io) && EntriesSyncable(old(store), entries, |entries|, rel) ==> ok
      ensures ok ==> Handled(stats) == old(Handled(stats)) + FileCount(entries, |entries|)
      ensures ok && InPlace(old(store), entries, rel)
              ==> stats == old(stats).(reused := old(stats).reused + FileCount(entries, |entries|))
      decreases entries, |entries|
    {
      hide IsImmutable, Valid, Marked, SyncedFile, SyncedDir, InPlace, EntrySyncable, EntriesSyncable, DirSyncable, FileSyncable;
      FirstSyncable(store, entries, rel);
      ghost var inPlace := InPlace(store, entries, rel);
      MarkedNothing(store, dirty);
      ok := Attempt(io);
      if !ok {
        return;
      }
      for i := 0 to |entries|
        invariant Valid(truth) && old(hist) <= hist && old(dirty) <= dirty
        invariant store == SyncedEntries(old(store), entries, i, rel) && Marked(old(store), store, dirty)
        invariant Handled(stats) == old(Handled(stats)) + FileCount(entries, i)
        invariant EntriesSyncable(old(store), entries, i, rel)
        invariant inPlace ==> stats == old(stats).(reused := old(stats).reused + FileCount(entries, i))
      {
        ghost var before, marked := store, dirty;
        if inPlace {
          NothingToDo(old(store), entries, i, rel);
          NothingToDo(old(store), entries, i + 1, rel);
        }
        NextSyncable(old(store), entries, i, rel);
        ok := SyncEntry(entries, i, rel, io, truth);
        if !ok {
          EarlierSyncable(old(store), entries, i + 1, |entries|, rel);
          return;
        }
        MarkedTwice(old(store), before, store, marked, dirty);
      }
      ok := true;
    }

    method SyncEntry(entries: seq<Entry>, i: nat, rel: Name, io: IO, ghost truth: map<Name, Content>) returns (ok: bool)
      requires i < |entries| && Valid(truth) && Truthful(entries, rel, truth)
      modifies this
      ensures Valid(truth) && old(hist) <= hist && old(dirty) <= dirty
      ensures var p := rel + [entries[i].name];
              ok ==> store == match entries[i].node {
                       case FileNode(c) => SyncedFile(old(store), p, c)
                       case DirNode(sub) => SyncedDir(old(store), sub, p)
                       case _ => old(store)
                     } && Marked(old(store), store, dirty)
      ensures ok ==> EntrySyncable(old(store), entries, i, rel)
      ensures Fine(io) && EntrySyncable(old(store), entries, i, rel) ==> ok
      ensures ok ==> Handled(stats) == old(Handled(stats)) + FileCount(entries, i + 1) - FileCount(entries, i)
      ensures ok && InPlace(old(store), entries, rel) && store == old(store)
              ==> stats == old(stats).(reused := old(stats).reused + FileCount(entries, i + 1) - FileCount(entries, i))
      decreases entries, i
    {
      hide IsImmutable, Valid, SyncedFile, SyncedDir, Marked, FileSyncable, DirSyncable, Fine;
      var p := rel + [entries[i].name];
      match entries[i].node {
        case FileNode(c) => ok := SyncFile(p, c, io, truth);
        case DirNode(sub) => ok := SyncTree(sub, p, io, truth);
        case LinkNode => ok := false;
        case SpecialNode =>
          MarkedNothing(store, dirty);
          ok := true;
      }
    }

    /** Removes the files of the destination directory that the source directory does not have, except
      * those with immutable names. */
    method Sweep(entries: seq<Entry>, rel: Name, io: IO, ghost truth: map<Name, Content>) returns (ok: bool)
      requires Valid(truth)
      modifies this
      ensures Valid(truth) && old(hist) <= hist && old(dirty) <= dirty
      ensures ok ==> store == Swept(old(store), entries, rel) && Marked(old(store), store, dirty)
      ensures Fine(io) ==> ok
      ensures stats == old(stats).(removed := stats.removed)
      ensures ok && store == old(store) ==> stats == old(stats)
    {
      hide IsImmutable, Valid, Marked, Left, Named, Swept;
      var names := set i | 0 <= i < |entries| :: entries[i].name;
      var listing := set p | p in store && |p| == |rel| + 1 && p[..|rel|] == rel;
      var todo := listing;
      MarkedNothing(store, dirty);
      LeftNone(store, entries, rel);
      assert listing - todo == {};
      while todo != {}
        invariant Valid(truth) && old(hist) <= hist && old(dirty) <= dirty
        invariant todo <= listing
        invariant Left(old(store), store, entries, rel, listing - todo)
        invariant Marked(old(store), store, dirty)
        invariant stats == old(stats).(removed := stats.removed)
        invariant stats.removed == old(stats).removed + |old(store)| - |store|
        decreases todo
      {
        var p :| p in todo;
        assert listing - (todo - {p}) == listing - todo + {p};
        ok := SweepOne(entries, rel, p, names, io, truth, old(store), listing - todo);
        if !ok {
          return;
        }
        todo := todo - {p};
      }
      assert listing - todo == listing;
      LeftAll(old(store), store, entries, rel, listing);
      ok := true;
    }

    method SweepOne(entries: seq<Entry>, rel: Name, p: Name, names: set<string>, io: IO,
                    ghost truth: map<Name, Content>, ghost f: Store, ghost seen: set<Name>) returns (ok: bool)
      requires Valid(truth) && p in f && p !in seen && |p| == |rel| + 1 && p[..|rel|] == rel
      requires names == set i | 0 <= i < |entries| :: entries[i].name
      requires Left(f, store, entries, rel, seen) && Marked(f, store, dirty)
      modifies this
      ensures Valid(truth) && old(hist) <= hist && old(dirty) <= dirty
      ensures ok ==> Left(f, store, entries, rel, seen + {p}) && Marked(f, store, dirty)
      ensures Fine(io) ==> ok
      ensures stats == old(stats).(removed := stats.removed)
      ensures stats.removed - old(stats).removed == |old(store)| - |store|
    {
      hide IsImmutable, Valid, Marked, Left, Named, Swept;
      LeftStep(f, store, entries, rel, seen, p);
      if p[|rel|] !in names && store[p].FileItem? && !IsImmutable(p) {
        NotNamed(entries, rel, p, names);
        assert Extra(f, entries, rel, p);
        ok := Remove(p, io, truth);
      } else {
        NotExtra(f, entries, rel, p, names);
        ok := true;
      }
    }

    /** Removes one leftover file. */
    method Remove(p: Name, io: IO, ghost truth: map<Name, Content>) returns (ok: bool)
      requires Valid(truth) && p in store && !IsImmutable(p)
      modifies this
      ensures Valid(truth) && old(hist) <= hist && old(dirty) <= dirty
      ensures ok ==> store == old(store) - {p} && stats == old(stats).(removed := old(stats).removed + 1)
      ensures !ok ==> store == old(store) && stats == old(stats)
      ensures Fine(io) ==> ok
      ensures forall a :: Marked(a, old(store), old(dirty)) && ok ==> Marked(a, store, dirty)
    {
      hide IsImmutable, Valid, Marked;
      ok := Attempt(io);
      if ok {
        forall a | Marked(a, store, dirty) ensures Marked(a, store - {p}, dirty + {Parent(p)}) {
          MarkedDrop(store, p, dirty + {Parent(p)});
          MarkedTwice(a, store, store - {p}, dirty, dirty + {Parent(p)});
        }
        dirty := dirty + {Parent(p)};
        stats := stats.(removed := stats.removed + 1);
        Become(store - {p}, truth);
      }
    }
  }
}
