/** The repository mirror: copying a directory tree of repository state into the session directory
  * (`sync_repository_tree` and `sync_repository_file`).
  */
module Mirror {
  import opened Schema

  type Content = seq<Byte>

  /** A path relative to the repository root, by components. */
  type Name = seq<string>

  // ---------------------------------------------------------------- immutable names

  predicate HexDigit(c: char) {
    '0' <= c <= '9' || 'a' <= c <= 'f' || 'A' <= c <= 'F'
  }

  predicate IsHex(s: string) {
    s != "" && forall i :: 0 <= i < |s| ==> HexDigit(s[i])
  }

  /** The position of the last dot. */
  function LastDot(s: string): (r: Option<nat>)
    ensures r.Some? ==> r.value < |s| && s[r.value] == '.' && '.' !in s[r.value + 1..]
    ensures r.None? ==> '.' !in s
  {
    if s == "" then None
    else if s[|s| - 1] == '.' then Some(|s| - 1)
    else LastDot(s[..|s| - 1])
  }

  const PACK_EXTENSIONS: set<string> := {"pack", "idx", "rev", "bitmap", "promisor", "mtimes"}

  predicate IsPackFile(name: string) {
    var dot := LastDot(name);
    && dot.Some?
    && "pack-" <= name[..dot.value]
    && (dot.value - 5 == 40 || dot.value - 5 == 64)
    && IsHex(name[5..dot.value])
    && name[dot.value + 1..] in PACK_EXTENSIONS
  }

  /** Files whose name is the hash of their content. */
  predicate IsImmutable(p: Name) {
    || (|p| == 3 && p[0] == "op_store" && (p[1] == "operations" || p[1] == "views") && IsHex(p[2]))
    || (|p| == 3 && p[0] == "index" && (p[1] == "segments" || p[1] == "changed_paths") && IsHex(p[2]))
    || (|p| == 5 && p[0] == "store" && p[1] == "git" && p[2] == "objects"
        && ((|p[3]| == 2 && (|p[4]| == 38 || |p[4]| == 62) && IsHex(p[3]) && IsHex(p[4]))
            || (p[3] == "pack" && IsPackFile(p[4]))))
  }

  const SUFFIX: string := ".rrjj-sync-tmp"

  /** The temporary a file is built under before it is renamed into place. */
  function Temp(p: Name): Name
    requires p != []
  {
    p[..|p| - 1] + [p[|p| - 1] + SUFFIX]
  }

  /** No temporary has an immutable name, so a leftover one is never mistaken for an object. */
  lemma TempNeverImmutable(p: Name)
    requires p != []
    ensures !IsImmutable(Temp(p))
  {
    var name := p[|p| - 1];
    var t := name + SUFFIX;
    assert t[|name|] == '.';
    assert !IsHex(t);
    TempNeverPack(name);
  }

  lemma TempNeverPack(name: string)
    ensures !IsPackFile(name + SUFFIX)
  {
    var t := name + SUFFIX;
    var dot := LastDot(t).value;
    assert t[|name|] == '.';
    assert dot >= |name|;
    assert t[dot] == SUFFIX[dot - |name|];
    assert t[dot + 1..] == "rrjj-sync-tmp";
  }

  // ---------------------------------------------------------------- source and destination

  /** A source directory, in the order its entries are listed. */
  datatype Node = FileNode(content: Content) | DirNode(entries: seq<Entry>) | LinkNode | SpecialNode
  datatype Entry = Entry(name: string, node: Node)

  datatype Item = FileItem(content: Content) | DirItem

  /** The destination: what each path holds. */
  type Store = map<Name, Item>

  function At(f: Store, p: Name): Option<Item> {
    if p in f then Some(f[p]) else None
  }

  predicate FileOnly(item: Option<Item>) {
    item.Some? && item.value.FileItem?
  }

  function DropFile(f: Store, p: Name): Store {
    if p in f && f[p].FileItem? then f - {p} else f
  }

  /** What a successful `sync_repository_file` leaves. */
  function SyncedFile(f: Store, p: Name, c: Content): Store
    requires p != []
  {
    if (if IsImmutable(p) then p in f else p in f && f[p] == FileItem(c)) then f
    else DropFile(f, Temp(p))[p := FileItem(c)]
  }

  ghost predicate Named(entries: seq<Entry>, name: string) {
    exists i :: 0 <= i < |entries| && entries[i].name == name
  }

  /** The file at `p` is left over in directory `rel`: the source directory has no entry of that name. */
  ghost predicate Extra(f: Store, entries: seq<Entry>, rel: Name, p: Name) {
    && p in f && f[p].FileItem? && |p| == |rel| + 1 && p[..|rel|] == rel
    && !Named(entries, p[|rel|]) && !IsImmutable(p)
  }

  ghost function Swept(f: Store, entries: seq<Entry>, rel: Name): Store {
    map p | p in f && !Extra(f, entries, rel, p) :: f[p]
  }

  /** The destination after the first `n` entries of the source directory. */
  ghost function SyncedEntries(f: Store, entries: seq<Entry>, n: nat, rel: Name): Store
    requires n <= |entries|
    decreases entries, n
  {
    if n == 0 then f
    else
      var g := SyncedEntries(f, entries, n - 1, rel);
      var p := rel + [entries[n - 1].name];
      match entries[n - 1].node
      case FileNode(c) => SyncedFile(g, p, c)
      case DirNode(sub) => SyncedDir(g, sub, p)
      case _ => g
  }

  /** What a successful `sync_repository_tree` leaves. */
  ghost function SyncedDir(f: Store, entries: seq<Entry>, rel: Name): Store
    decreases entries, |entries| + 1
  {
    Swept(SyncedEntries(if rel in f then f else f[rel := DirItem], entries, |entries|, rel), entries, rel)
  }

  // ---------------------------------------------------------------- when a sync can succeed

  /** The file is in place already, or no directory stands in its place or in that of its temporary. */
  predicate FileSyncable(f: Store, p: Name, c: Content)
    requires p != []
  {
    || (if IsImmutable(p) then p in f else At(f, p) == Some(FileItem(c)))
    || (At(f, p) != Some(DirItem) && At(f, Temp(p)) != Some(DirItem))
  }

  /** Each entry can be synced when its turn comes; a link never can. */
  ghost predicate EntriesSyncable(f: Store, entries: seq<Entry>, n: nat, rel: Name)
    requires n <= |entries|
    decreases entries, n
  {
    n == 0
    || (EntriesSyncable(f, entries, n - 1, rel)
        && var g, p := SyncedEntries(f, entries, n - 1, rel), rel + [entries[n - 1].name];
           match entries[n - 1].node
           case FileNode(c) => FileSyncable(g, p, c)
           case DirNode(sub) => DirSyncable(g, sub, p)
           case LinkNode => false
           case SpecialNode => true)
  }

  /** No file stands in the place of a directory, and the entries can be synced. */
  ghost predicate DirSyncable(f: Store, entries: seq<Entry>, rel: Name)
    decreases entries, |entries| + 1
  {
    && !FileOnly(At(f, rel))
    && EntriesSyncable(if rel in f then f else f[rel := DirItem], entries, |entries|, rel)
  }

  // ---------------------------------------------------------------- the result, path by path

  /** A directory lists each name once. */
  ghost predicate Listing(entries: seq<Entry>) {
    && (forall i, j :: 0 <= i < j < |entries| ==> entries[i].name != entries[j].name)
    && (forall i :: 0 <= i < |entries| && entries[i].node.DirNode? ==> Listing(entries[i].node.entries))
  }

  /** `name` is what the file at `k` uses as its temporary. */
  ghost predicate TempOf(entries: seq<Entry>, k: nat, name: string)
    requires k < |entries|
  {
    entries[k].node.FileNode? && name == entries[k].name + SUFFIX
  }

  /** The file at `j` does not yet have its place in the destination, or holds something else there. */
  ghost predicate Copied(f0: Store, entries: seq<Entry>, rel: Name, j: nat)
    requires j < |entries|
    decreases j, 1
  {
    && entries[j].node.FileNode?
    && var p := rel + [entries[j].name];
       if IsImmutable(p) then p !in f0
       else At(f0, p) != Some(FileItem(entries[j].node.content)) || Clobbered(f0, entries, rel, entries[j].name, 0, j)
  }

  /** Copying one of the files at `lo..hi` removed the file `name`, taking it for a stale temporary. */
  ghost predicate Clobbered(f0: Store, entries: seq<Entry>, rel: Name, name: string, lo: nat, hi: nat)
    requires hi <= |entries|
    decreases hi, 0
  {
    exists k :: lo <= k < hi && TempOf(entries, k, name) && Copied(f0, entries, rel, k)
  }

  function IndexOf(entries: seq<Entry>, name: string, n: nat): (r: Option<nat>)
    requires n <= |entries|
    ensures r.Some? ==> r.value < n && entries[r.value].name == name
    ensures r.None? ==> forall i :: 0 <= i < n ==> entries[i].name != name
  {
    if n == 0 then None
    else if entries[n - 1].name == name then Some(n - 1)
    else IndexOf(entries, name, n - 1)
  }

  /** A file that is taken for a stale temporary is gone; a directory is not. */
  function Dropped(item: Option<Item>, gone: bool): Option<Item> {
    if FileOnly(item) && gone then None else item
  }

  /** What entry `i` itself leaves in its place. */
  ghost function Placed(f0: Store, entries: seq<Entry>, i: nat, rel: Name): Option<Item>
    requires i < |entries|
  {
    var p := rel + [entries[i].name];
    var found := Dropped(At(f0, p), Clobbered(f0, entries, rel, entries[i].name, 0, i));
    match entries[i].node
    case FileNode(c) => if IsImmutable(p) && p in f0 then At(f0, p) else Some(FileItem(c))
    case DirNode(_) => if found.None? then Some(DirItem) else found
    case _ => found
  }

  /** A direct child of `rel`, after the first `n` entries. */
  ghost function ChildAfter(f0: Store, entries: seq<Entry>, n: nat, rel: Name, name: string): Option<Item>
    requires n <= |entries|
  {
    var i := IndexOf(entries, name, n);
    if i.None? then Dropped(At(f0, rel + [name]), Clobbered(f0, entries, rel, name, 0, n))
    else Dropped(Placed(f0, entries, i.value, rel), Clobbered(f0, entries, rel, name, i.value + 1, n))
  }

  ghost function EntriesAfter(f0: Store, entries: seq<Entry>, n: nat, rel: Name, p: Name): Option<Item>
    requires n <= |entries| && rel < p
    decreases entries, 0
  {
    if |p| == |rel| + 1 then ChildAfter(f0, entries, n, rel, p[|rel|])
    else
      var i := IndexOf(entries, p[|rel|], n);
      if i.Some? && entries[i.value].node.DirNode? then DirAfter(f0, entries[i.value].node.entries, p[..|rel| + 1], p)
      else At(f0, p)
  }

  /** What path `p` below `rel` holds after a successful sync of directory `rel`. */
  ghost function DirAfter(f0: Store, entries: seq<Entry>, rel: Name, p: Name): Option<Item>
    requires rel < p
    decreases entries, 1
  {
    if |p| == |rel| + 1 && IndexOf(entries, p[|rel|], |entries|).None? then
      Dropped(At(f0, p), !IsImmutable(p))
    else EntriesAfter(f0, entries, |entries|, rel, p)
  }

  ghost predicate Agree(f: Store, f0: Store, rel: Name) {
    forall q :: rel < q ==> At(f, q) == At(f0, q)
  }

  ghost function Expected(f: Store, f0: Store, entries: seq<Entry>, n: nat, rel: Name, p: Name): Option<Item>
    requires n <= |entries|
  {
    if rel < p then EntriesAfter(f0, entries, n, rel, p) else At(f, p)
  }

  /** The index of a name is found once, wherever the search stops after it. */
  lemma {:induction false} IndexIs(entries: seq<Entry>, name: string, n: nat, i: nat)
    requires Listing(entries) && i < n <= |entries| && entries[i].name == name
    ensures IndexOf(entries, name, n) == Some(i)
  {
    if i < n - 1 {
      IndexIs(entries, name, n - 1, i);
    }
  }

  lemma IndexStep(entries: seq<Entry>, name: string, n: nat)
    requires n < |entries|
    ensures IndexOf(entries, name, n + 1)
         == if entries[n].name == name then Some(n) else IndexOf(entries, name, n)
  {
  }

  lemma ClobberStep(f0: Store, entries: seq<Entry>, rel: Name, name: string, lo: nat, n: nat)
    requires lo <= n < |entries|
    ensures Clobbered(f0, entries, rel, name, lo, n + 1)
        <==> Clobbered(f0, entries, rel, name, lo, n) || (TempOf(entries, n, name) && Copied(f0, entries, rel, n))
  {
    if Clobbered(f0, entries, rel, name, lo, n + 1) {
      var k :| lo <= k < n + 1 && TempOf(entries, k, name) && Copied(f0, entries, rel, k);
    }
  }

  lemma SyncedFileAt(g: Store, p: Name, c: Content, q: Name)
    requires p != []
    ensures var kept := if IsImmutable(p) then p in g else At(g, p) == Some(FileItem(c));
            At(SyncedFile(g, p, c), q)
            == (if kept then At(g, q)
                else if q == p then Some(FileItem(c))
                else if q == Temp(p) && FileOnly(At(g, q)) then None
                else At(g, q))
  {
  }

  /** The immutable file `name` is never taken for a temporary. */
  lemma ImmutableNotClobbered(f0: Store, entries: seq<Entry>, rel: Name, name: string, lo: nat, hi: nat)
    requires hi <= |entries| && IsImmutable(rel + [name])
    ensures !Clobbered(f0, entries, rel, name, lo, hi)
  {
    hide IsImmutable, Copied;
    forall k | lo <= k < hi ensures !TempOf(entries, k, name) {
      var x := rel + [entries[k].name];
      TempNeverImmutable(x);
      assert Temp(x) == rel + [entries[k].name + SUFFIX];
    }
  }

  /** Whether the file at `n` is copied, told from the destination just before it. */
  lemma CopiedHere(g: Store, f0: Store, entries: seq<Entry>, n: nat, rel: Name)
    requires n < |entries| && entries[n].node.FileNode? && Listing(entries)
    requires var x := rel + [entries[n].name];
             At(g, x) == ChildAfter(f0, entries, n, rel, entries[n].name)
    ensures var x := rel + [entries[n].name];
            Copied(f0, entries, rel, n)
            <==> !(if IsImmutable(x) then x in g else At(g, x) == Some(FileItem(entries[n].node.content)))
    ensures var x := rel + [entries[n].name];
            IsImmutable(x) ==> At(g, x) == At(f0, x)
  {
    hide Clobbered, IsImmutable, Listing;
    var name := entries[n].name;
    var x := rel + [name];
    NotYet(entries, n);
    if IsImmutable(x) {
      ImmutableNotClobbered(f0, entries, rel, name, 0, n);
    }
  }

  lemma NotYet(entries: seq<Entry>, n: nat)
    requires n < |entries| && Listing(entries)
    ensures IndexOf(entries, entries[n].name, n).None?
  {
  }

  lemma NoneBetween(f0: Store, entries: seq<Entry>, rel: Name, m: string, n: nat)
    requires n <= |entries|
    ensures !Clobbered(f0, entries, rel, m, n, n)
  {
  }

  /** Another entry touches a child only by taking it for its temporary. */
  lemma OtherName(f0: Store, entries: seq<Entry>, n: nat, rel: Name, m: string)
    requires n < |entries| && entries[n].name != m
    ensures ChildAfter(f0, entries, n + 1, rel, m)
            == Dropped(ChildAfter(f0, entries, n, rel, m), TempOf(entries, n, m) && Copied(f0, entries, rel, n))
  {
    hide Copied, Clobbered, Placed, IndexOf;
    IndexStep(entries, m, n);
    ClobberStep(f0, entries, rel, m, 0, n);
    var i := IndexOf(entries, m, n);
    if i.Some? {
      ClobberStep(f0, entries, rel, m, i.value + 1, n);
    }
  }

  /** An entry finds its place as the entries before it left it, and leaves what it puts there. */
  lemma OwnName(f0: Store, entries: seq<Entry>, n: nat, rel: Name)
    requires n < |entries| && Listing(entries)
    ensures ChildAfter(f0, entries, n + 1, rel, entries[n].name) == Placed(f0, entries, n, rel)
    ensures ChildAfter(f0, entries, n, rel, entries[n].name)
            == Dropped(At(f0, rel + [entries[n].name]), Clobbered(f0, entries, rel, entries[n].name, 0, n))
  {
    hide Copied, Clobbered, Placed, IndexOf, Listing;
    NotYet(entries, n);
    IndexStep(entries, entries[n].name, n);
    NoneBetween(f0, entries, rel, entries[n].name, n + 1);
  }

  /** One more file, seen from a child of its directory. */
  lemma FileStepChild(g: Store, f0: Store, entries: seq<Entry>, n: nat, rel: Name, m: string)
    requires n < |entries| && entries[n].node.FileNode? && Listing(entries)
    requires At(g, rel + [m]) == ChildAfter(f0, entries, n, rel, m)
    requires At(g, rel + [entries[n].name]) == ChildAfter(f0, entries, n, rel, entries[n].name)
    ensures var h := SyncedFile(g, rel + [entries[n].name], entries[n].node.content);
            At(h, rel + [m]) == ChildAfter(f0, entries, n + 1, rel, m)
  {
    hide Copied, Clobbered, IsImmutable, SyncedFile, Listing, IndexOf, ChildAfter;
    var name := entries[n].name;
    var x, p, c := rel + [name], rel + [m], entries[n].node.content;
    SyncedFileAt(g, x, c, p);
    CopiedHere(g, f0, entries, n, rel);
    assert Temp(x) == rel + [name + SUFFIX];
    assert p[|rel|] == m && Temp(x)[|rel|] == name + SUFFIX && x[|rel|] == name;
    if m == name {
      OwnName(f0, entries, n, rel);
    } else {
      OtherName(f0, entries, n, rel, m);
    }
  }

  /** One more file. */
  lemma FileStep(g: Store, f: Store, f0: Store, entries: seq<Entry>, n: nat, rel: Name, p: Name)
    requires n < |entries| && entries[n].node.FileNode? && Listing(entries)
    requires forall q :: At(g, q) == Expected(f, f0, entries, n, rel, q)
    ensures At(SyncedFile(g, rel + [entries[n].name], entries[n].node.content), p)
         == Expected(f, f0, entries, n + 1, rel, p)
  {
    hide ChildAfter, IsImmutable, SyncedFile, DirAfter, Listing, IndexOf;
    var name := entries[n].name;
    var x, c := rel + [name], entries[n].node.content;
    SyncedFileAt(g, x, c, p);
    assert Temp(x) == rel + [name + SUFFIX];
    if rel < p && |p| == |rel| + 1 {
      var m := p[|rel|];
      assert p == rel + [m];
      assert At(g, x) == Expected(f, f0, entries, n, rel, x);
      FileStepChild(g, f0, entries, n, rel, m);
    } else {
      assert p != x && p != Temp(x);
      if rel < p {
        IndexStep(entries, p[|rel|], n);
        NotYet(entries, n);
      }
    }
  }

  /** One more directory: nothing below it has changed so far. */
  lemma BelowUntouched(g: Store, f: Store, f0: Store, entries: seq<Entry>, n: nat, rel: Name)
    requires n < |entries| && Listing(entries)
    requires forall q :: At(g, q) == Expected(f, f0, entries, n, rel, q)
    ensures Agree(g, f0, rel + [entries[n].name])
  {
    hide IsImmutable, Copied, IndexOf, DirAfter, ChildAfter;
    var d := rel + [entries[n].name];
    NotYet(entries, n);
    forall q | d < q ensures At(g, q) == At(f0, q) {
      assert rel < q && q[|rel|] == d[|rel|];
      assert At(g, q) == Expected(f, f0, entries, n, rel, q);
    }
  }

  lemma DirStep(h: Store, g: Store, f: Store, f0: Store, entries: seq<Entry>, n: nat, rel: Name, p: Name)
    requires n < |entries| && entries[n].node.DirNode? && Listing(entries)
    requires At(g, p) == Expected(f, f0, entries, n, rel, p)
    requires At(h, p) == SyncedAt(g, f0, entries[n].node.entries, rel + [entries[n].name], p)
    ensures At(h, p) == Expected(f, f0, entries, n + 1, rel, p)
  {
    hide IsImmutable, Copied, IndexOf, Listing, Clobbered, ChildAfter;
    var name := entries[n].name;
    var d := rel + [name];
    NotYet(entries, n);
    if rel < p {
      var m := p[|rel|];
      IndexStep(entries, m, n);
      assert d[|rel|] == name;
      if m == name {
        assert p[..|rel| + 1] == d;
      }
      if |p| == |rel| + 1 {
        assert p == rel + [m];
        if m == name {
          OwnName(f0, entries, n, rel);
        } else {
          OtherName(f0, entries, n, rel, m);
        }
      }
    } else {
      assert !(d <= p);
    }
  }

  /** Neither a link (which fails the sync) nor a special file is copied. */
  lemma OtherStep(f: Store, f0: Store, entries: seq<Entry>, n: nat, rel: Name, p: Name)
    requires n < |entries| && !entries[n].node.DirNode? && !entries[n].node.FileNode? && Listing(entries)
    ensures Expected(f, f0, entries, n, rel, p) == Expected(f, f0, entries, n + 1, rel, p)
  {
    hide IsImmutable, Copied, IndexOf, Listing, Clobbered, DirAfter, ChildAfter;
    NotYet(entries, n);
    if rel < p {
      var m := p[|rel|];
      IndexStep(entries, m, n);
      if m == entries[n].name {
        OwnName(f0, entries, n, rel);
      } else {
        OtherName(f0, entries, n, rel, m);
      }
    }
  }

  /** The destination after some entries, path by path.  Paths outside the directory keep what they held. */
  lemma {:induction false} EntriesAt(f: Store, f0: Store, entries: seq<Entry>, n: nat, rel: Name, p: Name)
    requires n <= |entries| && Listing(entries) && Agree(f, f0, rel)
    ensures At(SyncedEntries(f, entries, n, rel), p) == Expected(f, f0, entries, n, rel, p)
    decreases entries, n
  {
    hide SyncedFile, SyncedDir, Expected, IsImmutable, Copied, Clobbered, Listing, Agree, DirAfter, SyncedAt;
    if n == 0 {
      NothingYet(f, f0, entries, rel, p);
    } else {
      var g := SyncedEntries(f, entries, n - 1, rel);
      forall q ensures At(g, q) == Expected(f, f0, entries, n - 1, rel, q) {
        EntriesAt(f, f0, entries, n - 1, rel, q);
      }
      match entries[n - 1].node
      case FileNode(c) => FileStep(g, f, f0, entries, n - 1, rel, p);
      case DirNode(sub) =>
        BelowUntouched(g, f, f0, entries, n - 1, rel);
        Below(entries, n - 1);
        DirAt(g, f0, sub, rel + [entries[n - 1].name], p);
        DirStep(SyncedDir(g, sub, rel + [entries[n - 1].name]), g, f, f0, entries, n - 1, rel, p);
      case _ => OtherStep(f, f0, entries, n - 1, rel, p);
    }
  }

  lemma Below(entries: seq<Entry>, n: nat)
    requires n < |entries| && entries[n].node.DirNode? && Listing(entries)
    ensures Listing(entries[n].node.entries)
  {
  }

  lemma NothingYet(f: Store, f0: Store, entries: seq<Entry>, rel: Name, p: Name)
    requires Agree(f, f0, rel)
    ensures At(f, p) == Expected(f, f0, entries, 0, rel, p)
  {
    hide IsImmutable, Copied, DirAfter, Clobbered;
    if rel < p {
      NoneBetween(f0, entries, rel, p[|rel|], 0);
      if |p| == |rel| + 1 {
        assert p == rel + [p[|rel|]];
      }
    }
  }

  /** Path `p` after directory `rel` of `f` has been synced, where `f` and `f0` agree below `rel`. */
  ghost function SyncedAt(f: Store, f0: Store, entries: seq<Entry>, rel: Name, p: Name): Option<Item> {
    if rel < p then DirAfter(f0, entries, rel, p)
    else if p == rel && p !in f then Some(DirItem)
    else At(f, p)
  }

  lemma SweptAt(f: Store, entries: seq<Entry>, rel: Name, p: Name)
    ensures At(Swept(f, entries, rel), p) == if Extra(f, entries, rel, p) then None else At(f, p)
  {
    hide Extra;
  }

  lemma ExtraIs(f: Store, entries: seq<Entry>, rel: Name, p: Name)
    ensures Extra(f, entries, rel, p)
            <==> |p| == |rel| + 1 && rel < p && IndexOf(entries, p[|rel|], |entries|).None?
                 && FileOnly(At(f, p)) && !IsImmutable(p)
  {
    hide IsImmutable, Named, IndexOf;
    if |p| == |rel| + 1 {
      NamedIs(entries, p[|rel|]);
    }
  }

  lemma NamedIs(entries: seq<Entry>, name: string)
    ensures Named(entries, name) <==> IndexOf(entries, name, |entries|).Some?
  {
  }

  /** The destination after a directory, path by path. */
  lemma {:induction false} DirAt(f: Store, f0: Store, entries: seq<Entry>, rel: Name, p: Name)
    requires Listing(entries) && Agree(f, f0, rel)
    ensures At(SyncedDir(f, entries, rel), p) == SyncedAt(f, f0, entries, rel, p)
    decreases entries, |entries| + 1
  {
    hide IsImmutable, Copied, Clobbered, Listing, SyncedEntries, Swept, Extra, IndexOf, Placed;
    var f1 := if rel in f then f else f[rel := DirItem];
    assert Agree(f1, f0, rel) by {
      forall q | rel < q ensures At(f1, q) == At(f0, q) {
        assert At(f, q) == At(f0, q);
      }
    }
    EntriesAt(f1, f0, entries, |entries|, rel, p);
    var g := SyncedEntries(f1, entries, |entries|, rel);
    SweptAt(g, entries, rel, p);
    ExtraIs(g, entries, rel, p);
    if |p| == |rel| + 1 && rel < p {
      assert p == rel + [p[|rel|]];
      if IsImmutable(p) {
        ImmutableNotClobbered(f0, entries, rel, p[|rel|], 0, |entries|);
      }
    }
  }

  // ---------------------------------------------------------------- what a sync achieves

  /** Every source file is in the destination with the source's content. */
  ghost predicate Equal(g: Store, entries: seq<Entry>, rel: Name) {
    forall i :: 0 <= i < |entries| ==>
      var p := rel + [entries[i].name];
      && (entries[i].node.FileNode? ==> At(g, p) == Some(FileItem(entries[i].node.content)))
      && (entries[i].node.DirNode? ==> Equal(g, entries[i].node.entries, p))
  }

  /** What the destination already holds under an immutable source name is that source file. */
  ghost predicate Agrees(f: Store, entries: seq<Entry>, rel: Name) {
    forall i :: 0 <= i < |entries| ==>
      var p := rel + [entries[i].name];
      && (entries[i].node.FileNode? && IsImmutable(p) && p in f ==> f[p] == FileItem(entries[i].node.content))
      && (entries[i].node.DirNode? ==> Agrees(f, entries[i].node.entries, p))
  }

  /** No source file is named like the temporary of a file that is listed after it and has to be copied. */
  ghost predicate NoClobber(f: Store, entries: seq<Entry>, rel: Name) {
    forall i :: 0 <= i < |entries| ==>
      && (entries[i].node.FileNode? ==> !Clobbered(f, entries, rel, entries[i].name, i + 1, |entries|))
      && (entries[i].node.DirNode? ==> NoClobber(f, entries[i].node.entries, rel + [entries[i].name]))
  }

  /** `g` is, below `rel`, what a sync of `entries` over `f` leaves. */
  ghost predicate Leaves(f: Store, entries: seq<Entry>, rel: Name, g: Store) {
    forall p :: rel < p ==> At(g, p) == DirAfter(f, entries, rel, p)
  }

  lemma LeavesBelow(f: Store, entries: seq<Entry>, rel: Name, g: Store, i: nat)
    requires Listing(entries) && Leaves(f, entries, rel, g)
    requires i < |entries| && entries[i].node.DirNode?
    ensures Leaves(f, entries[i].node.entries, rel + [entries[i].name], g)
  {
    hide IsImmutable, Copied, Clobbered, Listing, IndexOf;
    var d := rel + [entries[i].name];
    IndexIs(entries, entries[i].name, |entries|, i);
    forall p | d < p ensures At(g, p) == DirAfter(f, entries[i].node.entries, d, p) {
      assert rel < p && p[|rel|] == d[|rel|] == entries[i].name && p[..|rel| + 1] == d;
      assert At(g, p) == DirAfter(f, entries, rel, p);
      assert DirAfter(f, entries, rel, p) == EntriesAfter(f, entries, |entries|, rel, p);
    }
  }

  lemma FileLeft(f: Store, entries: seq<Entry>, rel: Name, g: Store, i: nat)
    requires Listing(entries) && Leaves(f, entries, rel, g)
    requires i < |entries| && entries[i].node.FileNode?
    ensures var p := rel + [entries[i].name];
            At(g, p) == (if Clobbered(f, entries, rel, entries[i].name, i + 1, |entries|) then None
                         else if IsImmutable(p) && p in f then At(f, p)
                         else Some(FileItem(entries[i].node.content)))
  {
    hide IsImmutable, Copied, Clobbered, Listing, IndexOf;
    var p := rel + [entries[i].name];
    IndexIs(entries, entries[i].name, |entries|, i);
    if IsImmutable(p) {
      ImmutableNotClobbered(f, entries, rel, entries[i].name, i + 1, |entries|);
    }
    assert p[|rel|] == entries[i].name && rel < p;
    assert At(g, p) == DirAfter(f, entries, rel, p);
    assert DirAfter(f, entries, rel, p) == EntriesAfter(f, entries, |entries|, rel, p);
    assert EntriesAfter(f, entries, |entries|, rel, p) == ChildAfter(f, entries, |entries|, rel, entries[i].name);
  }

  lemma {:induction false} EqualExactly(f: Store, entries: seq<Entry>, rel: Name, g: Store)
    requires Listing(entries) && Leaves(f, entries, rel, g)
    ensures Equal(g, entries, rel) <==> Agrees(f, entries, rel) && NoClobber(f, entries, rel)
  {
    hide IsImmutable, Copied, Clobbered, Leaves, DirAfter;
    forall i | 0 <= i < |entries|
      ensures var p := rel + [entries[i].name];
              entries[i].node.FileNode? ==>
                (At(g, p) == Some(FileItem(entries[i].node.content))
                 <==> !Clobbered(f, entries, rel, entries[i].name, i + 1, |entries|)
                      && (IsImmutable(p) && p in f ==> f[p] == FileItem(entries[i].node.content)))
      ensures var p := rel + [entries[i].name];
              entries[i].node.DirNode? ==>
                (Equal(g, entries[i].node.entries, p)
                 <==> Agrees(f, entries[i].node.entries, p) && NoClobber(f, entries[i].node.entries, p))
    {
      if entries[i].node.FileNode? {
        FileLeft(f, entries, rel, g, i);
      } else if entries[i].node.DirNode? {
        LeavesBelow(f, entries, rel, g, i);
        EqualExactly(f, entries[i].node.entries, rel + [entries[i].name], g);
      }
    }
  }

  lemma SyncLeaves(f: Store, entries: seq<Entry>, rel: Name)
    requires Listing(entries)
    ensures Leaves(f, entries, rel, SyncedDir(f, entries, rel))
  {
    hide DirAfter, SyncedDir;
    forall p | rel < p ensures At(SyncedDir(f, entries, rel), p) == DirAfter(f, entries, rel, p) {
      DirAt(f, f, entries, rel, p);
    }
  }

  /** A successful sync leaves the destination equal to the source at every source file if and only if what
    * it already held under immutable source names agrees, and no source file is named like the temporary of
    * a file that is listed after it and has to be copied. */
  lemma MirrorsExactly(f: Store, entries: seq<Entry>, rel: Name)
    requires Listing(entries)
    ensures Equal(SyncedDir(f, entries, rel), entries, rel) <==> Agrees(f, entries, rel) && NoClobber(f, entries, rel)
  {
    SyncLeaves(f, entries, rel);
    EqualExactly(f, entries, rel, SyncedDir(f, entries, rel));
  }

  /** No directory has a file `x` and another entry `x.rrjj-sync-tmp`. */
  ghost predicate NoTemporaries(entries: seq<Entry>) {
    && (forall i, k :: 0 <= i < |entries| && 0 <= k < |entries| ==> !TempOf(entries, k, entries[i].name))
    && (forall i :: 0 <= i < |entries| && entries[i].node.DirNode? ==> NoTemporaries(entries[i].node.entries))
  }

  lemma {:induction false} NoTemporariesSuffices(f: Store, entries: seq<Entry>, rel: Name)
    requires NoTemporaries(entries)
    ensures NoClobber(f, entries, rel)
  {
    hide Copied;
    forall i | 0 <= i < |entries| && entries[i].node.DirNode?
      ensures NoClobber(f, entries[i].node.entries, rel + [entries[i].name])
    {
      NoTemporariesSuffices(f, entries[i].node.entries, rel + [entries[i].name]);
    }
  }

  /** A source where the mirror is not exact: the second file's copy removes the first one. */
  lemma TemporaryNameLost()
    ensures var entries := [Entry("b" + SUFFIX, FileNode([])), Entry("b", FileNode([]))];
            && Listing(entries)
            && At(SyncedDir(map[], entries, []), ["b" + SUFFIX]) == None
  {
    var t := "b" + SUFFIX;
    var entries := [Entry(t, FileNode([])), Entry("b", FileNode([]))];
    assert |t| == 15;
    assert forall i, k :: 0 <= i < 2 && 0 <= k < 2 && TempOf(entries, k, entries[i].name) ==> i == 0;
    SyncLeaves(map[], entries, []);
    FileLeft(map[], entries, [], SyncedDir(map[], entries, []), 0);
    assert TempOf(entries, 1, t);
    assert [] + ["b"] == ["b"];
    assert !IsImmutable(["b"]);
    assert Copied(map[], entries, [], 1);
    assert Clobbered(map[], entries, [], t, 1, 2);
    assert [] + [t] == [t];
  }

  /** In no directory of the source does the destination hold a file that the source directory does not have,
    * except under an immutable name. */
  ghost predicate NoExtras(g: Store, entries: seq<Entry>, rel: Name) {
    && (forall p :: !Extra(g, entries, rel, p))
    && (forall i :: 0 <= i < |entries| && entries[i].node.DirNode?
                    ==> NoExtras(g, entries[i].node.entries, rel + [entries[i].name]))
  }

  lemma {:induction false} NoExtrasLeft(f: Store, entries: seq<Entry>, rel: Name, g: Store)
    requires Listing(entries) && Leaves(f, entries, rel, g)
    ensures NoExtras(g, entries, rel)
  {
    hide IsImmutable, Leaves, Extra;
    forall p ensures !Extra(g, entries, rel, p) {
      NoExtraLeft(f, entries, rel, g, p);
    }
    forall i | 0 <= i < |entries| && entries[i].node.DirNode?
      ensures NoExtras(g, entries[i].node.entries, rel + [entries[i].name])
    {
      LeavesBelow(f, entries, rel, g, i);
      NoExtrasLeft(f, entries[i].node.entries, rel + [entries[i].name], g);
    }
  }

  /** After a successful sync, in every directory the source has, at any depth, a file the source directory
    * does not have survives only under an immutable name; and no temporary of a source file is left over as a
    * file, unless the source itself has an entry of that name. */
  lemma OnlyImmutableExtras(f: Store, entries: seq<Entry>, rel: Name)
    requires Listing(entries)
    ensures var g := SyncedDir(f, entries, rel);
            && NoExtras(g, entries, rel)
            && forall i :: 0 <= i < |entries| && !Named(entries, entries[i].name + SUFFIX)
                           ==> !FileOnly(At(g, Temp(rel + [entries[i].name])))
  {
    hide SyncedDir, Leaves, IsImmutable, Named;
    var g := SyncedDir(f, entries, rel);
    SyncLeaves(f, entries, rel);
    NoExtrasLeft(f, entries, rel, g);
    forall i | 0 <= i < |entries| && !Named(entries, entries[i].name + SUFFIX)
      ensures !FileOnly(At(g, Temp(rel + [entries[i].name])))
    {
      var x := rel + [entries[i].name];
      TempNeverImmutable(x);
      assert Temp(x) == rel + [entries[i].name + SUFFIX];
      assert !Extra(g, entries, rel, Temp(x));
    }
  }

  /** Whatever the source and the listing order, an immutable name keeps what it held, and what appears
    * under a new immutable name comes from the source. */
  lemma {:induction false} ImmutableStays(f: Store, entries: seq<Entry>, n: nat, rel: Name, p: Name)
    requires n <= |entries| && IsImmutable(p) && p in f
    ensures At(SyncedEntries(f, entries, n, rel), p) == At(f, p)
    decreases entries, n
  {
    if n > 0 {
      hide IsImmutable, SyncedDir;
      ImmutableStays(f, entries, n - 1, rel, p);
      var g := SyncedEntries(f, entries, n - 1, rel);
      var x := rel + [entries[n - 1].name];
      if entries[n - 1].node.FileNode? {
        TempNeverImmutable(x);
      } else if entries[n - 1].node.DirNode? {
        ImmutableStaysInDir(g, entries[n - 1].node.entries, x, p);
      }
    }
  }

  lemma {:induction false} ImmutableStaysInDir(f: Store, entries: seq<Entry>, rel: Name, p: Name)
    requires IsImmutable(p) && p in f
    ensures At(SyncedDir(f, entries, rel), p) == At(f, p)
    decreases entries, |entries| + 1
  {
    hide IsImmutable, SyncedEntries;
    var f1 := if rel in f then f else f[rel := DirItem];
    ImmutableStays(f1, entries, |entries|, rel, p);
  }

  // ---------------------------------------------------------------- a second sync

  /** Nothing is left to do. */
  ghost predicate InPlace(g: Store, entries: seq<Entry>, rel: Name) {
    && rel in g
    && (forall p :: !Extra(g, entries, rel, p))
    && (forall i :: 0 <= i < |entries| ==>
          var p := rel + [entries[i].name];
          && (entries[i].node.FileNode? ==>
                if IsImmutable(p) then p in g else At(g, p) == Some(FileItem(entries[i].node.content)))
          && (entries[i].node.DirNode? ==> InPlace(g, entries[i].node.entries, p)))
  }

  lemma {:induction false} NothingToDo(g: Store, entries: seq<Entry>, n: nat, rel: Name)
    requires n <= |entries| && InPlace(g, entries, rel)
    ensures SyncedEntries(g, entries, n, rel) == g
    decreases entries, n
  {
    if n > 0 {
      hide IsImmutable, Extra;
      NothingToDo(g, entries, n - 1, rel);
      var i := n - 1;
      if entries[i].node.DirNode? {
        var sub, d := entries[i].node.entries, rel + [entries[i].name];
        assert InPlace(g, sub, d);
        NothingToDo(g, sub, |sub|, d);
        NothingToSweep(g, sub, d);
      }
    }
  }

  lemma NothingToSweep(g: Store, entries: seq<Entry>, rel: Name)
    requires InPlace(g, entries, rel)
    ensures Swept(g, entries, rel) == g
  {
    hide Extra;
  }

  /** Every source file and every source directory has something in its place. */
  ghost predicate AllPresent(g: Store, entries: seq<Entry>, rel: Name) {
    forall i :: 0 <= i < |entries| ==>
      var p := rel + [entries[i].name];
      && (entries[i].node.FileNode? ==> p in g)
      && (entries[i].node.DirNode? ==> p in g && AllPresent(g, entries[i].node.entries, p))
  }

  lemma {:induction false} NowInPlace(f: Store, entries: seq<Entry>, rel: Name, g: Store)
    requires Listing(entries) && Leaves(f, entries, rel, g) && rel in g && AllPresent(g, entries, rel)
    ensures InPlace(g, entries, rel)
  {
    hide IsImmutable, Copied, Clobbered, Leaves;
    forall p ensures !Extra(g, entries, rel, p) {
      NoExtraLeft(f, entries, rel, g, p);
    }
    forall i | 0 <= i < |entries|
      ensures var p := rel + [entries[i].name];
              && (entries[i].node.FileNode? ==>
                    if IsImmutable(p) then p in g else At(g, p) == Some(FileItem(entries[i].node.content)))
              && (entries[i].node.DirNode? ==> InPlace(g, entries[i].node.entries, p))
    {
      if entries[i].node.FileNode? {
        FileLeft(f, entries, rel, g, i);
      } else if entries[i].node.DirNode? {
        LeavesBelow(f, entries, rel, g, i);
        NowInPlace(f, entries[i].node.entries, rel + [entries[i].name], g);
      }
    }
  }

  lemma DirLeft(f: Store, entries: seq<Entry>, rel: Name, g: Store, i: nat)
    requires Listing(entries) && Leaves(f, entries, rel, g)
    requires i < |entries| && entries[i].node.DirNode?
    ensures rel + [entries[i].name] !in g ==> Clobbered(f, entries, rel, entries[i].name, i + 1, |entries|)
  {
    hide IsImmutable, Copied, Clobbered, Listing, IndexOf;
    var p := rel + [entries[i].name];
    IndexIs(entries, entries[i].name, |entries|, i);
    assert p[|rel|] == entries[i].name && rel < p;
    assert At(g, p) == DirAfter(f, entries, rel, p);
    assert DirAfter(f, entries, rel, p) == EntriesAfter(f, entries, |entries|, rel, p);
    assert EntriesAfter(f, entries, |entries|, rel, p) == ChildAfter(f, entries, |entries|, rel, entries[i].name);
  }

  /** Without sibling files `x` and entries `x.rrjj-sync-tmp`, a sync leaves everything in place, whatever the
    * listing order. */
  lemma {:induction false} PresentWithoutTemporaries(f: Store, entries: seq<Entry>, rel: Name, g: Store)
    requires Listing(entries) && Leaves(f, entries, rel, g) && NoTemporaries(entries)
    ensures AllPresent(g, entries, rel)
  {
    hide IsImmutable, Copied, Leaves;
    forall i | 0 <= i < |entries|
      ensures var p := rel + [entries[i].name];
              && (entries[i].node.FileNode? ==> p in g)
              && (entries[i].node.DirNode? ==> p in g && AllPresent(g, entries[i].node.entries, p))
    {
      assert !Clobbered(f, entries, rel, entries[i].name, i + 1, |entries|);
      if entries[i].node.FileNode? {
        FileLeft(f, entries, rel, g, i);
      } else if entries[i].node.DirNode? {
        DirLeft(f, entries, rel, g, i);
        LeavesBelow(f, entries, rel, g, i);
        PresentWithoutTemporaries(f, entries[i].node.entries, rel + [entries[i].name], g);
      }
    }
  }

  lemma NoExtraLeft(f: Store, entries: seq<Entry>, rel: Name, g: Store, p: Name)
    requires Leaves(f, entries, rel, g)
    ensures !Extra(g, entries, rel, p)
  {
    hide IsImmutable, EntriesAfter, Extra;
    ExtraIs(g, entries, rel, p);
    if rel < p {
      assert At(g, p) == DirAfter(f, entries, rel, p);
    }
  }

  /** Right after a sync that left every source file and directory in place, a second sync of the same source
    * changes nothing. */
  lemma SecondSyncChangesNothing(f: Store, entries: seq<Entry>, rel: Name)
    requires Listing(entries) && AllPresent(SyncedDir(f, entries, rel), entries, rel)
    ensures var g := SyncedDir(f, entries, rel);
            InPlace(g, entries, rel) && SyncedDir(g, entries, rel) == g
  {
    hide InPlace, Swept, SyncedEntries, AllPresent, Leaves, Listing, DirAfter;
    var g := SyncedDir(f, entries, rel);
    SyncLeaves(f, entries, rel);
    DirAt(f, f, entries, rel, rel);
    NowInPlace(f, entries, rel, g);
    NothingToDo(g, entries, |entries|, rel);
    NothingToSweep(g, entries, rel);
  }
}
