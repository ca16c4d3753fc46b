/** Targets that overlap the source, with every call allowed: a single file and any target, a directory
    and itself, a directory and a target above it that runs back into it. */
module PlacementOverlap {
  import opened Options
  import opened FileSystem
  import opened FolderWalk
  import opened HardLinking
  import opened Placement
  import opened PlacementCorners
  import opened PlacementSuccess

  // ---- a single file, any target ----

  lemma {:induction false} MkdirBelowFile(k: Kernel, w: World, src: Path, p: Path)
    requires Valid(w) && IsFile(w, src) && src <= p
    ensures MkdirAll(k, w, p).st.Err? && MkdirAll(k, w, p).w == w
    decreases |p|
  {
    if p != src {
      if p in w.names { FileHasNothingBelow(w, src, p); }
      assert src <= Parent(p);
      MkdirBelowFile(k, w, src, Parent(p));
    }
  }

  /** With every call allowed only a directory in the place of the link makes the links fail. */
  lemma LinkFailsOnDir(k: Kernel, w: World, src: Path, dst: Path)
    requires Valid(w) && IsFile(w, src) && AllowsAll(k) && Separate(w, src, TargetRoot(w, src, dst))
    requires HardLinkFolder(k, w, src, dst).st.Err?
    ensures !IsFile(HardLinkFolder(k, w, src, dst).w, dst + [Base(src)])
  {
    var tgt := dst + [Base(src)];
    assert Parent(tgt) == dst;
    var stat := Stat(k, w, src);
    MkdirAllAdds(k, stat.w, dst);
    var made := MkdirAll(k, stat.w, dst);
    if made.st.Ok? {
      assert src != tgt && IsFile(made.w, src);
      assert MkdirAll(k, made.w, dst) == Result(made.w, Ok);
      var removed := Remove(k, made.w, tgt);
      RemoveEffect(k, made.w, tgt);
      if removed.st.Ok? || removed.st == Err(ENOENT) {
        assert false;
      }
    } else if IsFile(made.w, tgt) {
      MkdirOfDir(k, stat.w, made.w, dst, tgt);
    }
  }

  lemma MkdirOfDir(k: Kernel, w: World, made: World, dst: Path, tgt: Path)
    requires Valid(w) && made == MkdirAll(k, w, dst).w && tgt in made.names && Parent(tgt) == dst && tgt != []
    ensures MkdirAll(k, w, dst).st.Ok?
  {
    MkdirAllAdds(k, w, dst);
    assert !(tgt <= dst);
    assert tgt in w.names;
  }

  lemma SeparateFileSurvives(k: Kernel, w: World, src: Path, dst: Path)
    requires Valid(w) && ListsAll(k) && IsFile(w, src) && AllowsAll(k) && Separate(w, src, TargetRoot(w, src, dst))
    ensures SourceKept(w, Finalize(k, w, src, dst).w, src)
  {
    var linked := HardLinkFolder(k, w, src, dst);
    HardLinkFolderSafe(k, w, src, dst, []);
    if linked.st.Err? {
      LinkFailsOnDir(k, w, src, dst);
      NothingOpened(linked.w, src, dst);
    }
    hide HardLinkFolder, SourceKept;
    FinalizeSafe(k, w, src, dst);
  }

  lemma NothingOpened(w: World, src: Path, dst: Path)
    requires Valid(w) && !IsFile(w, dst + [Base(src)])
    ensures IsFile(w, src) ==> forall i :: !Opens(w, src, dst + [Base(src)], i)
  {
    if IsFile(w, src) {
      forall q | src <= q && IsFile(w, q) ensures q == src && Twin(src, dst + [Base(src)], q) == dst + [Base(src)] {
        FileHasNothingBelow(w, src, q);
      }
    }
  }

  lemma BelowFileSurvives(k: Kernel, w: World, src: Path, dst: Path)
    requires Valid(w) && IsFile(w, src) && AllowsAll(k) && src <= dst
    ensures SourceKept(w, Finalize(k, w, src, dst).w, src)
  {
    MkdirBelowFile(k, Tick(w), src, dst);
    MkdirBelowFile(k, Tick(Tick(w)), src, dst);
  }

  /** With every call allowed a single file survives every target but its own directory. */
  lemma SingleFileSurvivesIff(k: Kernel, w: World, src: Path, dst: Path)
    requires Valid(w) && ListsAll(k) && IsFile(w, src) && AllowsAll(k)
    ensures SourceKept(w, Finalize(k, w, src, dst).w, src) <==> dst != Parent(src)
  {
    hide Finalize;
    assert src <= src && src != [];
    if dst == Parent(src) {
      SelfTargetLosesSource(k, w, src);
    } else if src <= dst {
      BelowFileSurvives(k, w, src, dst);
    } else {
      assert src == Parent(src) + [Base(src)];
      FileIsSeparate(w, src, dst);
      SeparateFileSurvives(k, w, src, dst);
    }
  }

  // ---- a directory onto itself ----

  /** No file at or below p. */
  ghost predicate NoFiles(w: World, p: Path) {
    forall q :: p <= q ==> !IsFile(w, q)
  }

  /** File f below p is gone and nothing else has changed. */
  ghost predicate LostOne(w: World, w': World, p: Path, f: Path) {
    p <= f && IsFile(w, f) && w'.names == w.names - {f} && w'.inodes == w.inodes && w'.next == w.next
  }

  ghost predicate SameFiles(w: World, w': World) {
    w'.names == w.names && w'.inodes == w.inodes && w'.next == w.next
  }

  lemma LinkOntoItself(k: Kernel, w: World, p: Path, mode: nat)
    requires Valid(w) && AllowsAll(k) && IsFile(w, p)
    ensures var r := HardlinkFile(k, w, p, p, mode); r.st == Err(ENOENT) && LostOne(w, r.w, p, p)
  {
    assert p != [] && IsDir(w, Parent(p));
    assert MkdirAll(k, w, Parent(p)) == Result(w, Ok);
  }

  lemma ListedBelow(k: Kernel, w: World, p: Path, q: Path) returns (i: nat)
    requires Valid(w) && ListsAll(k) && IsDir(w, p) && p <= q && q in w.names && q != p
    ensures i < |Entries(k, w, p)| && p + [Entries(k, w, p)[i].name] <= q
  {
    var n := q[|p|];
    assert p + [n] == q[..|p| + 1];
    if p + [n] != q { AncestorsAreDirs(w, q, p + [n]); }
    i := EntryListed(k, w, p, n);
  }

  lemma SameEntriesOf(k: Kernel, w: World, w': World, p: Path)
    requires w'.names == w.names
    ensures Entries(k, w', p) == Entries(k, w, p)
  {
    assert SameSource(w, w', []);
    SameEntries(k, w, w', [], p);
  }

  /** What the walk does at an existing path when every call is allowed and the target is the source. */
  lemma EntryUnfolds(k: Kernel, w: World, src: Path, rel: Path, action: Action, depth: nat)
    requires AllowsAll(k) && src + rel in w.names && depth > 0
    ensures IsDir(w, src + rel) ==>
      WalkEntry(k, w, src, src, rel, true, action, depth)
      == WalkEntries(k, Tick(Tick(w)), src, src, rel, Entries(k, w, src + rel), action, depth - 1)
    ensures !IsDir(w, src + rel) ==>
      WalkEntry(k, w, src, src, rel, false, action, depth) == Act(k, Tick(w), action, src + rel, src + rel, Mode(w, src + rel))
  {
    hide WalkEntries, HardlinkFile, CopyFile, Entries;
    if IsDir(w, src + rel) {
      SameEntriesOf(k, w, Tick(Tick(w)), src + rel);
      assert MkdirAll(k, Tick(w), src + rel) == Result(Tick(w), Ok);
    }
  }

  lemma EntriesUnfold(k: Kernel, w: World, src: Path, rel: Path, entries: seq<DirEntry>, action: Action, depth: nat)
    requires entries != []
    ensures var first := WalkEntry(k, w, src, src, rel + [entries[0].name], entries[0].isDir, action, depth);
      WalkEntries(k, w, src, src, rel, entries, action, depth)
      == if first.st.Err? then first else WalkEntries(k, first.w, src, src, rel, entries[1..], action, depth)
  {
  }

  lemma TicksKeep(w: World)
    ensures SameFiles(w, Tick(w)) && SameFiles(w, Tick(Tick(w))) && (Valid(w) ==> Valid(Tick(w)) && Valid(Tick(Tick(w))))
  {
  }

  /** A directory none of whose entries holds a file holds none. */
  lemma NoFilesInside(k: Kernel, w: World, p: Path)
    requires Valid(w) && ListsAll(k) && IsDir(w, p)
    requires forall e :: e in Entries(k, w, p) ==> NoFiles(w, p + [e.name])
    ensures NoFiles(w, p)
  {
    hide Entries;
    forall q | p <= q ensures !IsFile(w, q) {
      if q in w.names && q != p {
        var i := ListedBelow(k, w, p, q);
        var e := Entries(k, w, p)[i];
        assert e in Entries(k, w, p);
        assert NoFiles(w, p + [e.name]);
      }
    }
  }

  /** The link walk of a directory into itself stops at the first file, which it has removed. */
  lemma {:induction false} SelfLinkEntry(k: Kernel, w: World, src: Path, rel: Path, depth: nat) returns (f: Path)
    requires Valid(w) && ListsAll(k) && AllowsAll(k) && src + rel in w.names && Shallow(w, src, |rel| + depth)
    ensures var r := WalkEntry(k, w, src, src, rel, IsDir(w, src + rel), HardLink, depth);
      if r.st.Ok? then SameFiles(w, r.w) && NoFiles(w, src + rel) else LostOne(w, r.w, src + rel, f)
    decreases depth, 0
  {
    hide WalkEntry, WalkEntries, HardlinkFile, Entries, Valid, LostOne;
    f := src + rel;
    assert src <= src + rel;
    TicksKeep(w);
    EntryUnfolds(k, w, src, rel, HardLink, depth);
    if IsDir(w, src + rel) {
      var listed := Tick(Tick(w));
      var entries := Entries(k, w, src + rel);
      SameEntriesOf(k, w, listed, src + rel);
      f := SelfLinkEntries(k, listed, src, rel, entries, depth - 1);
      var r := WalkEntries(k, listed, src, src, rel, entries, HardLink, depth - 1);
      if r.st.Ok? {
        NoFilesInside(k, listed, src + rel);
        NoFilesStay(w, listed, src + rel);
      } else {
        LostStays(w, listed, r.w, src + rel, src + rel, f);
      }
    } else {
      LinkOntoItself(k, Tick(w), src + rel, Mode(w, src + rel));
      LostStays(w, Tick(w), HardlinkFile(k, Tick(w), src + rel, src + rel, Mode(w, src + rel)).w, src + rel, src + rel, f);
    }
  }

  lemma NoFilesStay(w: World, w': World, p: Path)
    requires SameFiles(w, w')
    ensures NoFiles(w, p) <==> NoFiles(w', p)
  {
    assert forall q :: IsFile(w, q) == IsFile(w', q);
  }

  lemma LostStays(w: World, w1: World, w2: World, p: Path, q: Path, f: Path)
    requires SameFiles(w, w1) && LostOne(w1, w2, q, f) && p <= q
    ensures LostOne(w, w2, p, f)
  {
  }

  lemma {:induction false} SelfLinkEntries(k: Kernel, w: World, src: Path, rel: Path, entries: seq<DirEntry>, depth: nat) returns (f: Path)
    requires Valid(w) && ListsAll(k) && AllowsAll(k) && Shallow(w, src, |rel| + 1 + depth)
    requires forall e :: e in entries ==> e in Entries(k, w, src + rel)
    ensures var r := WalkEntries(k, w, src, src, rel, entries, HardLink, depth);
      if r.st.Ok? then SameFiles(w, r.w) && forall e :: e in entries ==> NoFiles(w, src + rel + [e.name])
      else LostOne(w, r.w, src + rel, f)
    decreases depth, |entries|
  {
    hide WalkEntry, WalkEntries, HardlinkFile, Entries, Valid, LostOne;
    f := [];
    if entries == [] {
      assert WalkEntries(k, w, src, src, rel, entries, HardLink, depth) == Result(w, Ok) by { NoEntries(k, w, src, rel, HardLink, depth); }
    } else {
      var e := entries[0];
      var at := rel + [e.name];
      EntryExists(k, w, src + rel, e);
      assert src + rel + [e.name] == src + at && src + rel <= src + at;
      f := SelfLinkEntry(k, w, src, at, depth);
      EntriesUnfold(k, w, src, rel, entries, HardLink, depth);
      var first := WalkEntry(k, w, src, src, at, e.isDir, HardLink, depth);
      if first.st.Ok? {
        SameEntriesOf(k, w, first.w, src + rel);
        ValidStays(w, first.w);
        f := SelfLinkEntries(k, first.w, src, rel, entries[1..], depth);
        var r := WalkEntries(k, first.w, src, src, rel, entries[1..], HardLink, depth);
        if r.st.Err? {
          LostStays(w, first.w, r.w, src + rel, src + rel, f);
        } else {
          forall d | d in entries ensures NoFiles(w, src + rel + [d.name]) {
            NoFilesStay(w, first.w, src + rel + [d.name]);
            assert d == e || d in entries[1..];
          }
        }
      } else {
        LostStays(w, w, first.w, src + rel, src + at, f);
      }
    }
  }

  lemma NoEntries(k: Kernel, w: World, src: Path, rel: Path, action: Action, depth: nat)
    ensures WalkEntries(k, w, src, src, rel, [], action, depth) == Result(w, Ok)
  {
  }

  lemma ValidStays(w: World, w': World)
    requires Valid(w) && SameFiles(w, w')
    ensures Valid(w')
  {
  }

  /** Every file at or below p has been emptied, and no file has got new bytes. */
  ghost predicate Emptied(w: World, w': World, p: Path) {
    && w'.names == w.names && w'.next == w.next && Valid(w')
    && (forall i :: Content(w', i) in [Content(w, i), []])
    && (forall q :: p <= q && IsFile(w, q) ==> Content(w', w.names[q].ino) == [])
  }

  lemma CopyOntoItself(k: Kernel, w: World, p: Path)
    requires Valid(w) && AllowsAll(k) && IsFile(w, p)
    ensures var r := CopyFile(k, w, p, p); r.st.Ok? && Emptied(w, r.w, p)
  {
    var i := w.names[p].ino;
    var stat := Stat(k, OpenRead(k, w, p).w, p);
    var created := OpenTrunc(k, stat.w, p, Mode(stat.w, p));
    assert created.st.Ok? && created.w.names == w.names && Content(created.w, i) == [];
    var copied := CopyBytes(k, created.w, i, i);
    assert copied.st.Ok?;
    forall q | p <= q && IsFile(w, q) ensures q == p {
      FileHasNothingBelow(w, p, q);
    }
  }

  /** The copy walk of a directory into itself succeeds and empties every file on its way. */
  lemma {:induction false} SelfCopyEntry(k: Kernel, w: World, src: Path, rel: Path, depth: nat)
    requires Valid(w) && ListsAll(k) && AllowsAll(k) && src + rel in w.names && Shallow(w, src, |rel| + depth)
    ensures var r := WalkEntry(k, w, src, src, rel, IsDir(w, src + rel), Copy, depth); r.st.Ok? && Emptied(w, r.w, src + rel)
    decreases depth, 0
  {
    hide WalkEntry, WalkEntries, CopyFile, Entries;
    assert src <= src + rel;
    EntryUnfolds(k, w, src, rel, Copy, depth);
    if IsDir(w, src + rel) {
      var listed := Tick(Tick(w));
      SameEntriesOf(k, w, listed, src + rel);
      var entries := Entries(k, w, src + rel);
      SelfCopyEntries(k, listed, src, rel, entries, depth - 1);
      var r := WalkEntries(k, listed, src, src, rel, entries, Copy, depth - 1);
      forall q | src + rel <= q && IsFile(w, q) ensures Content(r.w, w.names[q].ino) == [] {
        var i := ListedBelow(k, w, src + rel, q);
        assert entries[i] in entries;
      }
    } else {
      CopyOntoItself(k, Tick(w), src + rel);
    }
  }

  lemma {:induction false} SelfCopyEntries(k: Kernel, w: World, src: Path, rel: Path, entries: seq<DirEntry>, depth: nat)
    requires Valid(w) && ListsAll(k) && AllowsAll(k) && Shallow(w, src, |rel| + 1 + depth)
    requires forall e :: e in entries ==> e in Entries(k, w, src + rel)
    ensures var r := WalkEntries(k, w, src, src, rel, entries, Copy, depth);
      && r.st.Ok? && r.w.names == w.names && r.w.next == w.next && Valid(r.w)
      && (forall i :: Content(r.w, i) in [Content(w, i), []])
      && (forall e, q :: e in entries && src + rel + [e.name] <= q && IsFile(w, q) ==> Content(r.w, w.names[q].ino) == [])
    decreases depth, |entries|
  {
    if entries != [] {
      var e := entries[0];
      var at := rel + [e.name];
      EntryExists(k, w, src + rel, e);
      assert src + rel + [e.name] == src + at;
      SelfCopyEntry(k, w, src, at, depth);
      var first := WalkEntry(k, w, src, src, at, e.isDir, Copy, depth).w;
      SameEntriesOf(k, w, first, src + rel);
      SelfCopyEntries(k, first, src, rel, entries[1..], depth);
    }
  }

  /** A directory placed onto itself, every call allowed: success is reported, and the source survives if
      and only if there is no file in it. Otherwise one file is gone and all others are empty. */
  lemma DirectoryOntoItself(k: Kernel, w: World, src: Path) returns (lost: Path)
    requires Valid(w) && ListsAll(k) && AllowsAll(k) && IsDir(w, src) && Shallow(w, src, k.maxDepth)
    ensures var r := Finalize(k, w, src, src);
      && r.st.Ok?
      && (SourceKept(w, r.w, src) <==> NoFiles(w, src))
      && (!NoFiles(w, src) ==> src <= lost && IsFile(w, lost) && r.w.names == w.names - {lost}
                               && forall q :: src <= q && IsFile(r.w, q) ==> Content(r.w, r.w.names[q].ino) == [])
  {
    hide WalkEntry, CopyFile, HardlinkFile, Valid;
    var start := Tick(w);
    assert src + [] == src && src <= src;
    TicksKeep(w);
    lost := SelfLinkEntry(k, start, src, [], k.maxDepth);
    var linked := HardLinkFolder(k, w, src, src);
    NoFilesStay(w, start, src);
    if linked.st.Ok? {
      assert forall i :: !SourceInode(w, src, i);
    } else {
      LostKeepsValid(start, linked.w, src, lost);
      TicksKeep(linked.w);
      SelfCopyEntry(k, Tick(linked.w), src, [], k.maxDepth);
    }
  }

  lemma LostKeepsValid(w: World, w': World, src: Path, f: Path)
    requires Valid(w) && LostOne(w, w', src, f) && IsDir(w, src)
    ensures Valid(w') && IsDir(w', src)
  {
    forall q {:trigger Parent(q)} | q in w'.names && q != [] ensures Parent(q) in w'.names && w'.names[Parent(q)] == Dir {
      assert w.names[Parent(q)] == Dir;
    }
  }

  // ---- a target above the source ----

  lemma LinkOk(k: Kernel, w: World, src: Path, dest: Path, mode: nat)
    requires Valid(w) && AllowsAll(k) && IsFile(w, src) && src != dest && dest != [] && IsDir(w, Parent(dest)) && !IsDir(w, dest)
    requires mode == Mode(w, src)
    ensures var r := HardlinkFile(k, w, src, dest, mode);
      r.st.Ok? && Valid(r.w) && r.w.names == w.names[dest := w.names[src]] && r.w.inodes == w.inodes
  {
    HardlinkFileEffect(k, w, src, dest, mode);
    assert MkdirAll(k, w, Parent(dest)) == Result(w, Ok);
    var removed := Remove(k, w, dest).w;
    assert Link(k, removed, src, dest).st.Ok?;
    assert Link(k, removed, src, dest).w.names == w.names[dest := w.names[src]];
  }

  /** One visit of the walk, with every call allowed: a directory whose place is a directory, or a file. */
  lemma VisitUnfolds(k: Kernel, w: World, src: Path, dst: Path, rel: Path, depth: nat)
    requires AllowsAll(k) && src + rel in w.names && depth > 0
    ensures IsDir(w, src + rel) && IsDir(w, dst + rel) ==>
      WalkEntry(k, w, src, dst, rel, true, HardLink, depth)
      == WalkEntries(k, Tick(Tick(w)), src, dst, rel, Entries(k, w, src + rel), HardLink, depth - 1)
    ensures !IsDir(w, src + rel) ==>
      WalkEntry(k, w, src, dst, rel, false, HardLink, depth)
      == HardlinkFile(k, Tick(w), src + rel, dst + rel, Mode(w, src + rel))
  {
    hide WalkEntries, HardlinkFile, Entries;
    if IsDir(w, src + rel) && IsDir(w, dst + rel) {
      SameEntriesOf(k, w, Tick(Tick(w)), src + rel);
      assert MkdirAll(k, Tick(w), dst + rel) == Result(Tick(w), Ok);
    }
  }

  lemma OneEntry(k: Kernel, w: World, src: Path, dst: Path, rel: Path, e: DirEntry, rest: seq<DirEntry>, depth: nat)
    ensures var first := WalkEntry(k, w, src, dst, rel + [e.name], e.isDir, HardLink, depth);
      WalkEntries(k, w, src, dst, rel, [e] + rest, HardLink, depth)
      == if first.st.Err? then first else WalkEntries(k, first.w, src, dst, rel, rest, HardLink, depth)
    ensures WalkEntries(k, w, src, dst, rel, [], HardLink, depth) == Result(w, Ok)
  {
    hide WalkEntry;
    assert ([e] + rest)[0] == e && ([e] + rest)[1..] == rest;
  }

  /** src = dst/n holds a file f and a directory n with another file f. Names only; both inodes differ. */
  ghost predicate RunsBack(k: Kernel, w: World, dst: Path, n: Name, f: Name) {
    var src := dst + [n];
    && Valid(w) && n != f && IsDir(w, src) && IsDir(w, src + [n])
    && IsFile(w, src + [f]) && IsFile(w, src + [n] + [f]) && w.names[src + [f]] != w.names[src + [n] + [f]]
    && dst + [f] !in w.names
    && Entries(k, w, src) == [DirEntry(n, true), DirEntry(f, false)] && Entries(k, w, src + [n]) == [DirEntry(f, false)]
  }

  /** The directory n of the source is linked first, into the source itself. */
  lemma InnerReplacesFile(k: Kernel, w: World, dst: Path, n: Name, f: Name, depth: nat)
    requires AllowsAll(k) && RunsBack(k, w, dst, n, f) && depth >= 2
    ensures var src := dst + [n]; var r := WalkEntry(k, w, src, dst, [n], true, HardLink, depth);
      r.st.Ok? && Valid(r.w) && r.w.inodes == w.inodes && r.w.names == w.names[src + [f] := w.names[src + [n] + [f]]]
  {
    hide WalkEntry, WalkEntries, HardlinkFile, Entries, Mode;
    var src := dst + [n];
    VisitUnfolds(k, w, src, dst, [n], depth);
    var w1 := Tick(Tick(w));
    TicksKeep(w);
    OneEntry(k, w1, src, dst, [n], DirEntry(f, false), [], depth - 1);
    assert [DirEntry(f, false)] + [] == [DirEntry(f, false)];
    assert [n] + [f] == [n, f] && src + [n, f] == src + [n] + [f] && dst + [n, f] == src + [f];
    VisitUnfolds(k, w1, src, dst, [n, f], depth - 1);
    TicksKeep(w1);
    SameMode(w1, Tick(w1), src + [n, f]);
    assert Parent(src + [f]) == src;
    assert src + [n, f] != src + [f] by { assert |src + [n, f]| != |src + [f]|; }
    LinkOk(k, Tick(w1), src + [n, f], src + [f], Mode(Tick(w1), src + [n, f]));
    var r := HardlinkFile(k, Tick(w1), src + [n, f], src + [f], Mode(Tick(w1), src + [n, f]));
    OneEntry(k, r.w, src, dst, [n], DirEntry(f, false), [], depth - 1);
  }

  lemma SameMode(w: World, w': World, p: Path)
    requires SameFiles(w, w')
    ensures Mode(w, p) == Mode(w', p)
  {
  }

  /** A target above the source that runs back into it: the links go through, success is reported, and
      the source's own f has become another name of n/f; if it had no second name its bytes are gone. */
  lemma TargetAboveReplacesFile(k: Kernel, w: World, dst: Path, n: Name, f: Name)
    requires AllowsAll(k) && RunsBack(k, w, dst, n, f) && k.maxDepth >= 3
    ensures var src := dst + [n]; var r := Finalize(k, w, src, dst);
      && r.st.Ok? && Lookup(r.w, src + [f]) == Some(w.names[src + [n] + [f]]) && !SourceKept(w, r.w, src)
      && ((forall q :: q in w.names && w.names[q] == w.names[src + [f]] ==> q == src + [f])
          ==> forall q :: q in r.w.names ==> r.w.names[q] != w.names[src + [f]])
  {
    hide WalkEntry, WalkEntries, HardlinkFile, Entries, Mode;
    var src := dst + [n];
    assert src + [] == src && dst + [] == dst && Parent(src) == dst && IsDir(w, dst);
    assert [] + [n] == [n] && [] + [f] == [f];
    var w1 := Tick(w);
    TicksKeep(w);
    VisitUnfolds(k, w1, src, dst, [], k.maxDepth);
    SameEntriesOf(k, w, w1, src);
    var w2 := Tick(Tick(w1));
    TicksKeep(w1);
    SameEntriesOf(k, w, w2, src);
    SameEntriesOf(k, w, w2, src + [n]);
    OneEntry(k, w2, src, dst, [], DirEntry(n, true), [DirEntry(f, false)], k.maxDepth - 1);
    assert [DirEntry(n, true)] + [DirEntry(f, false)] == Entries(k, w, src);
    InnerReplacesFile(k, w2, dst, n, f, k.maxDepth - 1);
    var w3 := WalkEntry(k, w2, src, dst, [n], true, HardLink, k.maxDepth - 1).w;
    OneEntry(k, w3, src, dst, [], DirEntry(f, false), [], k.maxDepth - 1);
    assert [DirEntry(f, false)] + [] == [DirEntry(f, false)];
    VisitUnfolds(k, w3, src, dst, [f], k.maxDepth - 1);
    TicksKeep(w3);
    SameMode(w3, Tick(w3), src + [f]);
    assert Parent(dst + [f]) == dst && |src + [f]| != |dst + [f]|;
    LinkOk(k, Tick(w3), src + [f], dst + [f], Mode(Tick(w3), src + [f]));
    var r := HardlinkFile(k, Tick(w3), src + [f], dst + [f], Mode(Tick(w3), src + [f]));
    OneEntry(k, r.w, src, dst, [], DirEntry(f, false), [], k.maxDepth - 1);
    assert src <= src + [f];
  }
}
