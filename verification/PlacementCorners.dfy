/** When finalizeDownload delivers, and why each hypothesis of Placement is there: a refused chmod,
    a target that is the source, a target inside the source. */
module PlacementCorners {
  import opened FileSystem
  import opened FolderWalk
  import opened HardLinking
  import opened Placement

  /** A reported success means every source file's bytes are at its target, provided the copy, if
      there was one, started from targets that shared no source inode and agreed among themselves. */
  lemma FinalizeDelivers(k: Kernel, w: World, src: Path, dst: Path, rel: Path)
    requires Valid(w) && ListsAll(k) && Separate(w, src, TargetRoot(w, src, dst)) && IsFile(w, src + rel) && Finalize(k, w, src, dst).st.Ok?
    requires var linked := HardLinkFolder(k, w, src, dst); var tgt := TargetRoot(w, src, dst);
      linked.st.Ok? || (AliasFree(linked.w, src, tgt) && TargetsAgree(linked.w, src, tgt))
    ensures Copied(w, Finalize(k, w, src, dst).w, src, TargetRoot(w, src, dst), rel)
  {
    HardLinkFolderSafe(k, w, src, dst, rel);
    var linked := HardLinkFolder(k, w, src, dst);
    if linked.st.Err? {
      assert src <= src && src <= src + rel;
      assert TargetRoot(linked.w, src, dst) == TargetRoot(w, src, dst);
      CopiesWhenTargetsAgree(k, linked.w, src, dst, rel);
    }
  }

  // ---- the case the fallback is for: a target on another device ----

  ghost predicate LinksRefused(k: Kernel) {
    forall n :: k.verdict(n, LinkCall).Refuse?
  }

  ghost predicate NoNewFiles(w: World, w': World) {
    forall q :: IsFile(w', q) ==> IsFile(w, q) && w'.names[q] == w.names[q]
  }

  lemma RefusedLinkAddsNoFile(k: Kernel, w: World, src: Path, dest: Path, mode: nat)
    requires Valid(w) && LinksRefused(k)
    ensures NoNewFiles(w, HardlinkFile(k, w, src, dest, mode).w)
    ensures Valid(HardlinkFile(k, w, src, dest, mode).w)
  {
    MakeRoomEffect(k, w, dest);
  }

  lemma {:induction false} RefusedRunAddsNoFile(k: Kernel, w0: World, w: World, src: Path, dst: Path, script: seq<Visit>)
    requires Valid(w) && LinksRefused(k) && NoNewFiles(w0, w)
    ensures NoNewFiles(w0, Run(k, w, src, dst, script, HardLink).w)
    decreases |script|
  {
    hide HardlinkFile, MkdirAll;
    if script != [] {
      var v := script[0];
      var first := RunVisit(k, w, src, dst, v, HardLink);
      var info := w.(calls := w.calls + 1);
      if v.Visit? {
        MkdirAllAdds(k, info, dst + v.rel);
        RefusedLinkAddsNoFile(k, info, src + v.rel, dst + v.rel, Mode(info, src + v.rel));
      }
      if first.st.Ok? {
        RefusedRunAddsNoFile(k, w0, first.w, src, dst, script[1..]);
      }
    }
  }

  lemma RefusedFolderAddsNoFile(k: Kernel, w: World, src: Path, dst: Path)
    requires Valid(w) && ListsAll(k) && Separate(w, src, TargetRoot(w, src, dst)) && LinksRefused(k)
    ensures NoNewFiles(w, HardLinkFolder(k, w, src, dst).w)
  {
    var stat := Stat(k, w, src);
    if stat.st.Ok? {
      MkdirAllAdds(k, stat.w, dst);
      var made := MkdirAll(k, stat.w, dst);
      if made.st.Ok? {
        if IsFile(w, src) {
          RefusedLinkAddsNoFile(k, made.w, src, dst + [Base(src)], Mode(w, src));
        } else {
          StartsPartlyLinked(k, w, made.w, src, dst);
          PartlyLinkedKeepsSource(w, made.w, src, dst);
          assert src + [] == src;
          WalkFollowsScript(k, w, made.w, src, dst, [], true, HardLink, k.maxDepth);
          RefusedRunAddsNoFile(k, w, made.w, src, dst, Script(k, w, src, [], true, k.maxDepth));
        }
      }
    }
  }

  /** When no link can be made at all, the source survives every further failure, and a reported
      success has copied every file. */
  lemma CrossDevice(k: Kernel, w: World, src: Path, dst: Path)
    requires Valid(w) && ListsAll(k) && Separate(w, src, TargetRoot(w, src, dst)) && LinksRefused(k)
    requires AliasFree(w, src, TargetRoot(w, src, dst)) && TargetsAgree(w, src, TargetRoot(w, src, dst))
    ensures var r := Finalize(k, w, src, dst);
      && SourceKept(w, r.w, src)
      && (r.st.Ok? ==> forall rel :: IsFile(w, src + rel) ==> Copied(w, r.w, src, TargetRoot(w, src, dst), rel))
  {
    var tgt := TargetRoot(w, src, dst);
    var linked := HardLinkFolder(k, w, src, dst);
    HardLinkFolderSafe(k, w, src, dst, []);
    RefusedFolderAddsNoFile(k, w, src, dst);
    forall i | Opens(linked.w, src, tgt, i) ensures !SourceInode(linked.w, src, i) {
      assert Opens(w, src, tgt, i);
    }
    assert TargetsAgree(linked.w, src, tgt) by {
      forall a: Path | IsFile(linked.w, src + a) ensures IsFile(w, src + a) && w.names[src + a] == linked.w.names[src + a] {
        assert src <= src + a;
      }
    }
    FinalizeSafe(k, w, src, dst);
    var r := Finalize(k, w, src, dst);
    if r.st.Ok? {
      forall rel | IsFile(w, src + rel) ensures Copied(w, r.w, src, tgt, rel) {
        FinalizeDelivers(k, w, src, dst, rel);
      }
    }
  }

  // ---- where the source is lost ----

  ghost predicate RefusesOnly(k: Kernel, c: Call) {
    forall n, d :: k.verdict(n, d).Refuse? <==> d == c
  }

  /** A single file is separate from every target that is not itself and not below it. */
  lemma FileIsSeparate(w: World, src: Path, dst: Path)
    requires Valid(w) && IsFile(w, src)
    ensures Separate(w, src, TargetRoot(w, src, dst)) <==> !(src <= dst) && src != dst + [Base(src)]
  {
    var tgt := dst + [Base(src)];
    assert src <= tgt && src != tgt ==> src <= dst by {
      if src <= tgt && src != tgt { assert src == tgt[..|src|] == dst[..|src|]; }
    }
    if !(src <= dst) && src != tgt {
      forall rel | src + rel in w.names ensures !(src <= tgt + rel) {
        FileHasNothingBelow(w, src, src + rel);
        assert rel == [] && tgt + [] == tgt;
      }
    }
  }

  lemma RefusedChmodLinksAndFails(k: Kernel, w: World, src: Path, dst: Path)
    requires Valid(w) && RefusesOnly(k, ChmodCall)
    requires IsFile(w, src) && IsDir(w, dst) && dst + [Base(src)] !in w.names
    ensures var r := HardLinkFolder(k, w, src, dst);
      r.st.Err? && r.w.names == w.names[dst + [Base(src)] := w.names[src]] && r.w.inodes == w.inodes
  {
    var tgt := dst + [Base(src)];
    assert Parent(tgt) == dst;
    var stat := Stat(k, w, src);
    assert MkdirAll(k, stat.w, dst) == Result(stat.w, Ok);
    var removed := Remove(k, stat.w, tgt);
    assert removed.st == Err(ENOENT) && removed.w.names == w.names;
    assert Link(k, removed.w, src, tgt).st.Ok?;
  }

  lemma CopyOntoOwnLink(k: Kernel, w: World, src: Path, dest: Path)
    requires Valid(w) && RefusesOnly(k, ChmodCall) && IsFile(w, src) && IsFile(w, dest) && w.names[src] == w.names[dest] && src != dest
    ensures var r := CopyFile(k, w, src, dest); r.st.Ok? && Content(r.w, w.names[src].ino) == []
  {
    CopyFileEffect(k, w, src, dest);
    var stat := Stat(k, OpenRead(k, w, src).w, src);
    var created := OpenTrunc(k, stat.w, dest, Mode(stat.w, src));
    assert created.st.Ok?;
    assert CopyBytes(k, created.w, InoAt(stat.w, src), InoAt(created.w, dest)).st.Ok?;
  }

  /** Any non-empty single-file download into an existing directory: a chmod refused after the link
      was made sends the copy over the link. finalizeDownload reports success and the bytes are gone,
      so the alias hypothesis cannot be dropped. */
  lemma RefusedChmodEmptiesSource(k: Kernel, w: World, src: Path, dst: Path)
    requires Valid(w) && ListsAll(k) && RefusesOnly(k, ChmodCall)
    requires IsFile(w, src) && IsDir(w, dst) && dst + [Base(src)] !in w.names
    requires Content(w, w.names[src].ino) != []
    ensures var r := Finalize(k, w, src, dst);
      r.st.Ok? && Content(r.w, w.names[src].ino) == [] && !SourceKept(w, r.w, src)
  {
    hide CopyFile;
    RefusedChmodLinksAndFails(k, w, src, dst);
    if src <= dst { AncestorsAreDirs(w, dst, src); }
    FileIsSeparate(w, src, dst);
    HardLinkFolderSafe(k, w, src, dst, []);
    var linked := HardLinkFolder(k, w, src, dst).w;
    var tgt := dst + [Base(src)];
    var stat := Stat(k, linked, src);
    assert MkdirAll(k, stat.w, dst) == Result(stat.w, Ok);
    CopyOntoOwnLink(k, stat.w, src, tgt);
    assert CopyFolder(k, linked, src, dst) == CopyFile(k, stat.w, src, tgt);
    assert src <= src && SourceInode(w, src, w.names[src].ino);
  }

  /** A file moved onto itself: the link step removes the destination, which is the source. */
  lemma SelfTargetLosesSource(k: Kernel, w: World, src: Path)
    requires Valid(w) && IsFile(w, src) && (forall n, c :: k.verdict(n, c).Allow?)
    ensures var r := Finalize(k, w, src, Parent(src));
      r.st.Err? && src in w.names && src !in r.w.names
  {
    assert src != [] && Parent(src) + [Base(src)] == src;
    assert IsDir(w, Parent(src));
    var linked := HardLinkFolder(k, w, src, Parent(src));
    assert linked.st.Err? && linked.w.names == w.names - {src};
  }

  // ---- a target inside its own source ----

  ghost predicate KeepsDir(w: World, w': World, p: Path) {
    Valid(w') && (IsDir(w, p) ==> IsDir(w', p))
  }

  lemma HardlinkFileKeepsDir(k: Kernel, w: World, src: Path, dest: Path, mode: nat, p: Path)
    requires Valid(w) && p != dest
    ensures KeepsDir(w, HardlinkFile(k, w, src, dest, mode).w, p)
  {
    hide MakeRoom;
    MakeRoomEffect(k, w, dest);
    var room := MakeRoom(k, w, dest);
    LinkEffect(k, room.w, src, dest);
    ChmodEffect(k, Link(k, room.w, src, dest).w, dest, mode);
  }

  lemma CopyFileKeepsDir(k: Kernel, w: World, src: Path, dest: Path, p: Path)
    requires Valid(w)
    ensures KeepsDir(w, CopyFile(k, w, src, dest).w, p)
  {
    hide OpenTrunc, CopyBytes;
    var stat := Stat(k, OpenRead(k, w, src).w, src);
    OpenTruncEffect(k, stat.w, dest, Mode(stat.w, src));
    var created := OpenTrunc(k, stat.w, dest, Mode(stat.w, src));
    if created.st.Ok? {
      CopyBytesEffect(k, created.w, InoAt(stat.w, src), InoAt(created.w, dest));
    }
  }

  lemma {:induction false} WalkKeepsDir(k: Kernel, w: World, src: Path, dst: Path, rel: Path, isDir: bool, action: Action, depth: nat, p: Path)
    requires Valid(w) && !(dst <= p)
    ensures KeepsDir(w, WalkEntry(k, w, src, dst, rel, isDir, action, depth).w, p)
    decreases depth, 0
  {
    if depth != 0 {
      var info := Stat(k, w, src + rel);
      assert KeepsDir(w, info.w, p);
      if isDir {
        MkdirAllAdds(k, info.w, dst + rel);
        var listed := ReadDir(k, MkdirAll(k, info.w, dst + rel).w, src + rel);
        WalkEntriesKeepDir(k, listed.w, src, dst, rel, Entries(k, listed.w, src + rel), action, depth - 1, p);
      } else {
        assert dst <= dst + rel;
        HardlinkFileKeepsDir(k, info.w, src + rel, dst + rel, Mode(info.w, src + rel), p);
        CopyFileKeepsDir(k, info.w, src + rel, dst + rel, p);
      }
    }
  }

  lemma {:induction false} WalkEntriesKeepDir(k: Kernel, w: World, src: Path, dst: Path, rel: Path, entries: seq<DirEntry>, action: Action, depth: nat, p: Path)
    requires Valid(w) && !(dst <= p)
    ensures KeepsDir(w, WalkEntries(k, w, src, dst, rel, entries, action, depth).w, p)
    decreases depth, |entries|
  {
    if entries != [] {
      WalkKeepsDir(k, w, src, dst, rel + [entries[0].name], entries[0].isDir, action, depth, p);
      var first := WalkEntry(k, w, src, dst, rel + [entries[0].name], entries[0].isDir, action, depth);
      WalkEntriesKeepDir(k, first.w, src, dst, rel, entries[1..], action, depth, p);
    }
  }

  /** The walk of src into src + d follows d + d + d + ... : each directory it enters there already
      holds the next one, which it has just made. */
  lemma {:induction false} InsideNeverDone(k: Kernel, w: World, src: Path, d: Path, rel: Path, action: Action, depth: nat)
    requires Valid(w) && ListsAll(k) && d != [] && rel <= d + rel
    ensures WalkEntry(k, w, src, src + d, rel, true, action, depth).st.Err?
    decreases depth, 0
  {
    hide Act, MkdirAll;
    var info := Stat(k, w, src + rel);
    var made := MkdirAll(k, info.w, src + d + rel);
    MkdirAllAdds(k, info.w, src + d + rel);
    var listed := ReadDir(k, made.w, src + rel);
    if depth != 0 && made.st.Ok? && listed.st.Ok? {
      var c := (d + rel)[|rel|];
      var next := src + rel + [c];
      assert rel + [c] == (d + rel)[..|rel| + 1];
      assert src + d + rel == src + (d + rel) && next == (src + d + rel)[..|next|];
      if next != src + d + rel { AncestorsAreDirs(made.w, src + d + rel, next); }
      assert IsDir(listed.w, next);
      var entries := Entries(k, listed.w, src + rel);
      var i := EntryListed(k, listed.w, src + rel, c);
      InsideEntriesNeverDone(k, listed.w, src, d, rel, entries, action, depth - 1, i);
    }
  }

  lemma {:induction false} InsideEntriesNeverDone(k: Kernel, w: World, src: Path, d: Path, rel: Path, entries: seq<DirEntry>, action: Action, depth: nat, i: nat)
    requires Valid(w) && ListsAll(k) && d != [] && rel <= d + rel
    requires i < |entries| && entries[i] == DirEntry((d + rel)[|rel|], true)
    ensures WalkEntries(k, w, src, src + d, rel, entries, action, depth).st.Err?
    decreases depth, |entries|
  {
    var at := rel + [entries[0].name];
    if i == 0 {
      assert at == (d + rel)[..|rel| + 1];
      assert (d + at)[..|at|] == at;
      InsideNeverDone(k, w, src, d, at, action, depth);
    } else {
      WalkKeepsDir(k, w, src, src + d, at, entries[0].isDir, action, depth, src);
      var first := WalkEntry(k, w, src, src + d, at, entries[0].isDir, action, depth);
      InsideEntriesNeverDone(k, first.w, src, d, rel, entries[1..], action, depth, i - 1);
    }
  }

  /** Placing a directory strictly inside itself never succeeds, however deep paths may go. */
  lemma TargetInsideSourceFails(k: Kernel, w: World, src: Path, dst: Path)
    requires Valid(w) && ListsAll(k) && IsDir(w, src) && src <= dst && src != dst
    ensures Finalize(k, w, src, dst).st.Err?
  {
    FolderInsideFails(k, w, src, dst, HardLink);
    HardLinkInsideKeeps(k, w, src, dst);
    FolderInsideFails(k, HardLinkFolder(k, w, src, dst).w, src, dst, Copy);
  }

  lemma HardLinkInsideKeeps(k: Kernel, w: World, src: Path, dst: Path)
    requires Valid(w) && IsDir(w, src) && !(dst <= src)
    ensures Valid(HardLinkFolder(k, w, src, dst).w) && IsDir(HardLinkFolder(k, w, src, dst).w, src)
  {
    MkdirAllAdds(k, Tick(w), dst);
    WalkKeepsDir(k, MkdirAll(k, Tick(w), dst).w, src, dst, [], true, HardLink, k.maxDepth, src);
  }

  lemma FolderInsideFails(k: Kernel, w: World, src: Path, dst: Path, action: Action)
    requires Valid(w) && ListsAll(k) && !IsFile(w, src) && src <= dst && src != dst
    ensures WalkFolder(k, w, src, dst, action).st.Err?
  {
    var d := dst[|src|..];
    assert dst == src + d;
    MkdirAllAdds(k, Tick(w), dst);
    InsideNeverDone(k, MkdirAll(k, Tick(w), dst).w, src, d, [], action, k.maxDepth);
  }
}
