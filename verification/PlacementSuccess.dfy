/** When placing a download succeeds: nothing is refused, and no target path is taken by the other kind
    of node. With only the links refused, the copy steps in and succeeds. */
module PlacementSuccess {
  import opened FileSystem
  import opened FolderWalk
  import opened HardLinking
  import opened Placement

  ghost predicate AllowsAllBut(k: Kernel, c: Call) {
    forall n, d :: k.verdict(n, d).Refuse? ==> d == c
  }

  ghost predicate AllowsAll(k: Kernel) {
    forall n, d :: k.verdict(n, d).Allow?
  }

  /** What exists on the way to the target is a directory, and what exists in it has the kind the source
      will put there. */
  ghost predicate NoConflict(w: World, src: Path, tgt: Path) {
    && (forall q :: q in w.names && q <= tgt && q != tgt ==> w.names[q] == Dir)
    && (forall rel :: src + rel in w.names && tgt + rel in w.names ==> (IsDir(w, src + rel) <==> IsDir(w, tgt + rel)))
  }

  ghost predicate ClearWay(w: World, p: Path) {
    forall q :: q in w.names && q <= p ==> w.names[q] == Dir
  }

  lemma {:induction false} MkdirAllSucceeds(k: Kernel, w: World, p: Path, c: Call)
    requires Valid(w) && ClearWay(w, p) && AllowsAllBut(k, c) && c != MkdirCall
    ensures MkdirAll(k, w, p).st.Ok?
    decreases |p|
  {
    if p !in w.names {
      assert Parent(p) <= p;
      MkdirAllSucceeds(k, w, Parent(p), c);
      MkdirAllAdds(k, w, Parent(p));
      assert p !in MkdirAll(k, w, Parent(p)).w.names;
    }
  }

  // ---- hard links ----

  lemma WayStaysClear(w0: World, w: World, src: Path, tgt: Path, rel: Path)
    requires Valid(w0) && PartlyLinked(w0, w, src, tgt) && NoConflict(w0, src, tgt) && IsDir(w0, src + rel)
    ensures ClearWay(w, tgt + rel)
  {
    forall q | q in w.names && q <= tgt + rel ensures w.names[q] == Dir {
      if tgt <= q {
        NewDirMirrors(w0, src, tgt, rel, q);
        assert q == tgt + q[|tgt|..] && Mirror(src, tgt, q) == src + q[|tgt|..];
      }
    }
  }

  lemma ParentWayStaysClear(w0: World, w: World, src: Path, tgt: Path, rel: Path)
    requires Valid(w0) && PartlyLinked(w0, w, src, tgt) && NoConflict(w0, src, tgt) && IsFile(w0, src + rel)
    ensures ClearWay(w, Parent(tgt + rel))
  {
    forall q | q in w.names && q <= Parent(tgt + rel) ensures w.names[q] == Dir {
      if tgt + rel != [] {
        assert Parent(tgt + rel) <= tgt + rel;
        assert q != tgt + rel;
        if tgt <= q {
          NewDirMirrors(w0, src, tgt, rel, q);
          assert q == tgt + q[|tgt|..] && Mirror(src, tgt, q) == src + q[|tgt|..];
        }
      } else {
        assert q == [];
      }
    }
  }

  lemma LinkSucceeds(k: Kernel, w0: World, w: World, src: Path, tgt: Path, rel: Path)
    requires Valid(w0) && PartlyLinked(w0, w, src, tgt) && Separate(w0, src, tgt) && NoConflict(w0, src, tgt) && AllowsAll(k)
    requires IsFile(w0, src + rel)
    ensures HardlinkFile(k, w, src + rel, tgt + rel, Mode(w, src + rel)).st.Ok?
  {
    var dest := tgt + rel;
    ParentWayStaysClear(w0, w, src, tgt, rel);
    MkdirAllSucceeds(k, w, Parent(dest), SyncCall);
    MkdirAllAdds(k, w, Parent(dest));
    var made := MkdirAll(k, w, Parent(dest)).w;
    assert dest in w.names ==> IsFile(w, dest) by {
      assert Mirror(src, tgt, dest) == src + rel && tgt <= dest;
    }
    PartlyLinkedKeepsSource(w0, w, src, tgt);
    assert src <= src + rel;
    MakeRoomEffect(k, w, dest);
    var room := MakeRoom(k, w, dest);
    assert room.st.Ok? && dest !in room.w.names;
    assert dest != [];
    assert IsDir(room.w, Parent(dest));
    var linked := Link(k, room.w, src + rel, dest);
    assert linked.st.Ok?;
  }

  lemma LinkedKeepsValidSource(w: World, made: World, src: Path, dst: Path)
    requires PartlyLinked(w, made, src, dst) && Separate(w, src, dst)
    ensures Valid(made) && SameSource(w, made, src)
  {
    PartlyLinkedKeepsSource(w, made, src, dst);
  }

  lemma LinkDirSucceeds(k: Kernel, w0: World, w: World, src: Path, tgt: Path, rel: Path)
    requires Valid(w0) && PartlyLinked(w0, w, src, tgt) && NoConflict(w0, src, tgt) && AllowsAll(k)
    requires Valid(w) && IsDir(w0, src + rel) && IsDir(w, src + rel)
    ensures var r := MkdirAll(k, w, tgt + rel); r.st.Ok? && ReadDir(k, r.w, src + rel).st.Ok?
  {
    hide PartlyLinked, NoConflict;
    WayStaysClear(w0, w, src, tgt, rel);
    MkdirAllSucceeds(k, w, tgt + rel, SyncCall);
    MkdirAllAdds(k, w, tgt + rel);
  }

  lemma LinkVisitSucceeds(k: Kernel, w0: World, w: World, src: Path, tgt: Path, v: Visit)
    requires Valid(w0) && PartlyLinked(w0, w, src, tgt) && Separate(w0, src, tgt) && NoConflict(w0, src, tgt) && AllowsAll(k)
    requires v.Visit? && Sound(w0, src, v)
    ensures RunVisit(k, w, src, tgt, v, HardLink).st.Ok?
  {
    hide HardlinkFile, MkdirAll, PartlyLinked, NoConflict, Valid, Separate;
    var info := w.(calls := w.calls + 1);
    CallsKeepPartlyLinked(w0, w, info.calls, src, tgt);
    LinkedKeepsValidSource(w0, info, src, tgt);
    assert src <= src + v.rel;
    if v.isDir {
      LinkDirSucceeds(k, w0, info, src, tgt, v.rel);
    } else {
      LinkSucceeds(k, w0, info, src, tgt, v.rel);
    }
  }

  lemma {:induction false} LinkRunSucceeds(k: Kernel, w0: World, w: World, src: Path, tgt: Path, script: seq<Visit>)
    requires Valid(w0) && PartlyLinked(w0, w, src, tgt) && Separate(w0, src, tgt) && NoConflict(w0, src, tgt) && AllowsAll(k)
    requires forall v :: v in script ==> v.Visit? && Sound(w0, src, v)
    requires src in w0.names
    ensures Run(k, w, src, tgt, script, HardLink).st.Ok?
    decreases |script|
  {
    hide PartlyLinked, NoConflict, RunVisit;
    if script != [] {
      var v := script[0];
      assert v in script && src + [] == src;
      LinkVisitSucceeds(k, w0, w, src, tgt, v);
      if v.isDir {
        VisitDirKeepsPartlyLinked(k, w0, w, src, tgt, v.rel, []);
      } else {
        VisitFileKeepsPartlyLinked(k, w0, w, src, tgt, v.rel, []);
      }
      LinkRunSucceeds(k, w0, RunVisit(k, w, src, tgt, v, HardLink).w, src, tgt, script[1..]);
    }
  }

  lemma ClearToTarget(w: World, src: Path, dst: Path)
    requires Valid(w) && src in w.names && NoConflict(w, src, TargetRoot(w, src, dst))
    ensures ClearWay(w, dst)
  {
    var tgt := TargetRoot(w, src, dst);
    assert dst <= tgt && src + [] == src && tgt + [] == tgt;
  }

  /** The script of a source within the depth limit: every visit is a source path. */
  lemma WholeScript(k: Kernel, w: World, src: Path)
    requires ListsAll(k) && IsDir(w, src) && Shallow(w, src, k.maxDepth)
    ensures forall v :: v in Script(k, w, src, [], true, k.maxDepth) ==> v.Visit? && Sound(w, src, v)
  {
    assert src + [] == src;
    ScriptEnds(k, w, src, [], k.maxDepth);
    forall v | v in Script(k, w, src, [], true, k.maxDepth) ensures v.Visit? && Sound(w, src, v) {
      ScriptSound(k, w, src, [], k.maxDepth, v);
    }
  }

  lemma LinkTreeSucceeds(k: Kernel, w: World, made: World, src: Path, dst: Path)
    requires Valid(w) && ListsAll(k) && Separate(w, src, dst) && IsDir(w, src) && Shallow(w, src, k.maxDepth)
    requires AllowsAll(k) && NoConflict(w, src, dst) && PartlyLinked(w, made, src, dst)
    ensures WalkEntry(k, made, src, dst, [], true, HardLink, k.maxDepth).st.Ok?
  {
    hide *;
    WholeScript(k, w, src);
    LinkedKeepsValidSource(w, made, src, dst);
    SeparateStays(w, made, src, dst);
    assert src + [] == src;
    WalkFollowsScript(k, w, made, src, dst, [], true, HardLink, k.maxDepth);
    NamedDir(w, src);
    LinkRunSucceeds(k, w, made, src, dst, Script(k, w, src, [], true, k.maxDepth));
  }

  lemma NamedDir(w: World, p: Path)
    requires IsDir(w, p)
    ensures p in w.names && IsDir(w, p + [])
  {
    assert p + [] == p;
  }

  /** With nothing refused and nothing in the way, the download is placed by hard links. */
  lemma HardLinkFolderSucceeds(k: Kernel, w: World, src: Path, dst: Path)
    requires Valid(w) && ListsAll(k) && Separate(w, src, TargetRoot(w, src, dst)) && src in w.names && Shallow(w, src, k.maxDepth)
    requires AllowsAll(k) && NoConflict(w, src, TargetRoot(w, src, dst))
    ensures HardLinkFolder(k, w, src, dst).st.Ok? && Finalize(k, w, src, dst).st.Ok?
  {
    hide NoConflict, HardlinkFile, WalkEntry, PartlyLinked, CopyFolder;
    var tgt := TargetRoot(w, src, dst);
    var stat := Stat(k, w, src);
    ClearToTarget(w, src, dst);
    MkdirAllSucceeds(k, stat.w, dst, SyncCall);
    MkdirAllAdds(k, stat.w, dst);
    var made := MkdirAll(k, stat.w, dst).w;
    StartsPartlyLinked(k, w, made, src, dst);
    if IsFile(w, src) {
      PartlyLinkedKeepsSource(w, made, src, tgt);
      assert src + [] == src && tgt + [] == tgt && src <= src;
      LinkSucceeds(k, w, made, src, tgt, []);
      assert Mode(w, src) == Mode(made, src);
    } else {
      LinkTreeSucceeds(k, w, made, src, dst);
    }
  }

  // ---- copies ----

  lemma {:induction false} CopyRunKeepsName(k: Kernel, w: World, src: Path, tgt: Path, script: seq<Visit>, q: Path)
    requires Valid(w) && Separate(w, src, tgt) && q in w.names
    ensures Lookup(Run(k, w, src, tgt, script, Copy).w, q) == Lookup(w, q)
    decreases |script|
  {
    hide RunVisit;
    if script != [] {
      var first := RunVisit(k, w, src, tgt, script[0], Copy);
      CopyVisitKeepsName(k, w, src, tgt, script[0], q);
      VisitKeepsSource(k, w, src, tgt, script[0], Copy);
      if first.st.Ok? {
        CopyRunKeepsName(k, first.w, src, tgt, script[1..], q);
      }
    }
  }

  lemma CopyWayStaysClear(w0: World, w: World, src: Path, tgt: Path, rel: Path)
    requires Valid(w0) && PartlyCopied(w0, w, src, tgt) && NoConflict(w0, src, tgt) && IsDir(w0, src + rel)
    ensures ClearWay(w, tgt + rel)
  {
    forall q | q in w.names && q <= tgt + rel ensures w.names[q] == Dir {
      if tgt <= q {
        NewDirMirrors(w0, src, tgt, rel, q);
        assert q == tgt + q[|tgt|..] && Mirror(src, tgt, q) == src + q[|tgt|..];
      }
      assert q !in w0.names ==> NewName(w0, w, src, tgt, q);
    }
  }

  lemma CopySucceeds(k: Kernel, w0: World, w: World, src: Path, tgt: Path, rel: Path)
    requires Valid(w0) && PartlyCopied(w0, w, src, tgt) && Separate(w0, src, tgt) && NoConflict(w0, src, tgt) && AllowsAllBut(k, LinkCall)
    requires IsFile(w0, src + rel) && IsDir(w, Parent(tgt + rel))
    ensures CopyFile(k, w, src + rel, tgt + rel).st.Ok?
  {
    var dest := tgt + rel;
    PartlyCopiedKeepsSource(w0, w, src, tgt);
    assert src <= src + rel && tgt <= dest && Mirror(src, tgt, dest) == src + rel;
    assert !IsDir(w, dest) by {
      assert dest in w.names && dest !in w0.names ==> NewName(w0, w, src, tgt, dest);
    }
    var stat := Stat(k, OpenRead(k, w, src + rel).w, src + rel);
    var created := OpenTrunc(k, stat.w, dest, Mode(stat.w, src + rel));
    assert created.st.Ok?;
    assert CopyBytes(k, created.w, InoAt(stat.w, src + rel), InoAt(created.w, dest)).st.Ok?;
  }

  lemma CopyDirSucceeds(k: Kernel, w0: World, w: World, src: Path, tgt: Path, rel: Path)
    requires Valid(w0) && PartlyCopied(w0, w, src, tgt) && Valid(w) && NoConflict(w0, src, tgt) && AllowsAllBut(k, LinkCall)
    requires IsDir(w0, src + rel) && IsDir(w, src + rel)
    ensures var r := MkdirAll(k, w, tgt + rel); r.st.Ok? && IsDir(r.w, tgt + rel) && ReadDir(k, r.w, src + rel).st.Ok?
  {
    hide PartlyCopied, NoConflict;
    CopyWayStaysClear(w0, w, src, tgt, rel);
    MkdirAllSucceeds(k, w, tgt + rel, LinkCall);
    MkdirAllAdds(k, w, tgt + rel);
  }

  lemma CopyVisitSucceeds(k: Kernel, w0: World, w: World, src: Path, tgt: Path, v: Visit)
    requires Valid(w0) && PartlyCopied(w0, w, src, tgt) && Separate(w0, src, tgt) && NoConflict(w0, src, tgt) && AllowsAllBut(k, LinkCall)
    requires v.Visit? && src + v.rel in w0.names && Sound(w0, src, v) && (!v.isDir ==> IsDir(w, Parent(tgt + v.rel)))
    ensures var r := RunVisit(k, w, src, tgt, v, Copy); r.st.Ok? && (v.isDir ==> IsDir(r.w, tgt + v.rel))
  {
    hide CopyFile, MkdirAll, PartlyCopied, NoConflict, Valid, Separate;
    var info := w.(calls := w.calls + 1);
    CallsKeepPartlyCopied(w0, w, info.calls, src, tgt);
    PartlyCopiedKeepsSource(w0, info, src, tgt);
    assert src <= src + v.rel;
    if v.isDir {
      CopyDirSucceeds(k, w0, info, src, tgt, v.rel);
    } else {
      CopySucceeds(k, w0, info, src, tgt, v.rel);
    }
  }

  /** The script reaches every directory before what is in it, so each copy finds its directory. */
  lemma {:induction false} CopyScriptSucceeds(k: Kernel, w0: World, w: World, src: Path, tgt: Path, rel: Path, depth: nat)
    requires Valid(w0) && ListsAll(k) && PartlyCopied(w0, w, src, tgt) && Separate(w0, src, tgt) && NoConflict(w0, src, tgt) && AllowsAllBut(k, LinkCall)
    requires src + rel in w0.names && Shallow(w0, src, |rel| + depth)
    requires IsFile(w0, src + rel) ==> IsDir(w, Parent(tgt + rel))
    ensures Run(k, w, src, tgt, Script(k, w0, src, rel, IsDir(w0, src + rel), depth), Copy).st.Ok?
    decreases depth, 0
  {
    hide PartlyCopied, NoConflict, RunVisit;
    assert src <= src + rel;
    var v := Visit(rel, IsDir(w0, src + rel));
    CopyVisitSucceeds(k, w0, w, src, tgt, v);
    VisitKeepsPartlyCopied(k, w0, w, src, tgt, v);
    var after := RunVisit(k, w, src, tgt, v, Copy).w;
    if v.isDir {
      var rest := ScriptEntries(k, w0, src, rel, Entries(k, w0, src + rel), depth - 1);
      CopyEntriesSucceed(k, w0, after, src, tgt, rel, Entries(k, w0, src + rel), depth - 1);
      assert ([v] + rest)[0] == v && ([v] + rest)[1..] == rest;
    } else {
      assert [v][1..] == [];
    }
  }

  lemma {:induction false} CopyEntriesSucceed(k: Kernel, w0: World, w: World, src: Path, tgt: Path, rel: Path, entries: seq<DirEntry>, depth: nat)
    requires Valid(w0) && ListsAll(k) && PartlyCopied(w0, w, src, tgt) && Separate(w0, src, tgt) && NoConflict(w0, src, tgt) && AllowsAllBut(k, LinkCall)
    requires forall e :: e in entries ==> e in Entries(k, w0, src + rel)
    requires Shallow(w0, src, |rel| + 1 + depth) && IsDir(w, tgt + rel)
    ensures Run(k, w, src, tgt, ScriptEntries(k, w0, src, rel, entries, depth), Copy).st.Ok?
    decreases depth, |entries|
  {
    assert Valid(w);
    PartlyCopiedKeepsSource(w0, w, src, tgt);
    SeparateStays(w0, w, src, tgt);
    hide PartlyCopied, NoConflict, RunVisit, Separate, Valid, SameSource;
    if entries != [] {
      var e := entries[0];
      var at := rel + [e.name];
      EntryExists(k, w0, src + rel, e);
      assert src + rel + [e.name] == src + at && Parent(tgt + at) == tgt + rel;
      var first := Script(k, w0, src, at, e.isDir, depth);
      var rest := ScriptEntries(k, w0, src, rel, entries[1..], depth);
      CopyScriptSucceeds(k, w0, w, src, tgt, at, depth);
      forall v | v in first ensures Sound(w0, src, v) {
        ScriptSound(k, w0, src, at, depth, v);
      }
      RunKeepsPartlyCopied(k, w0, w, src, tgt, first);
      CopyRunKeepsName(k, w, src, tgt, first, tgt + rel);
      CopyEntriesSucceed(k, w0, Run(k, w, src, tgt, first, Copy).w, src, tgt, rel, entries[1..], depth);
      RunAppend(k, w, src, tgt, first, rest, Copy);
    }
  }

  lemma CopyFolderSucceeds(k: Kernel, w: World, src: Path, dst: Path)
    requires Valid(w) && ListsAll(k) && Separate(w, src, TargetRoot(w, src, dst)) && src in w.names && Shallow(w, src, k.maxDepth)
    requires AllowsAllBut(k, LinkCall) && NoConflict(w, src, TargetRoot(w, src, dst))
    ensures CopyFolder(k, w, src, dst).st.Ok?
  {
    hide NoConflict, PartlyCopied, CopyFile, WalkEntry;
    var tgt := TargetRoot(w, src, dst);
    var stat := Stat(k, w, src);
    ClearToTarget(w, src, dst);
    MkdirAllSucceeds(k, stat.w, dst, LinkCall);
    MkdirAllAdds(k, stat.w, dst);
    var made := MkdirAll(k, stat.w, dst).w;
    StartsPartlyCopied(w, made, src, dst);
    PartlyCopiedKeepsSource(w, made, src, tgt);
    assert src + [] == src && tgt + [] == tgt;
    if IsFile(w, src) {
      assert Parent(tgt) == dst;
      CopySucceeds(k, w, made, src, tgt, []);
    } else {
      WalkFollowsScript(k, w, made, src, dst, [], true, Copy, k.maxDepth);
      CopyScriptSucceeds(k, w, made, src, tgt, [], k.maxDepth);
    }
  }

  /** The fallback does its job: whichever links are refused, with every other call allowed and nothing
      in the way, the download is placed. */
  lemma FallbackSucceeds(k: Kernel, w: World, src: Path, dst: Path)
    requires Valid(w) && ListsAll(k) && Separate(w, src, TargetRoot(w, src, dst)) && src in w.names && Shallow(w, src, k.maxDepth)
    requires AllowsAllBut(k, LinkCall) && NoConflict(w, src, TargetRoot(w, src, dst))
    ensures Finalize(k, w, src, dst).st.Ok?
  {
    var tgt := TargetRoot(w, src, dst);
    HardLinkFolderSafe(k, w, src, dst, []);
    var linked := HardLinkFolder(k, w, src, dst);
    if linked.st.Err? {
      assert src <= src;
      assert TargetRoot(linked.w, src, dst) == tgt;
      assert Shallow(linked.w, src, k.maxDepth);
      CopyFolderSucceeds(k, linked.w, src, dst);
    }
  }
}
