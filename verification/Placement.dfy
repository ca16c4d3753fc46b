/** CopyFolder and finalizeDownload (core/internal/downloads/service.go): hard-link the finished
    download into place and, if that fails anywhere, copy it over whatever the links left there.
    The copy opens its targets with O_TRUNC, so it is safe exactly as far as no target it opens is
    still another name of a non-empty source file. */
module Placement {
  import opened Options
  import opened FileSystem
  import opened FolderWalk
  import opened HardLinking

  /** finalizeDownload without the path building and the chown. */
  function Finalize(k: Kernel, w: World, src: Path, dst: Path): Result {
    var linked := HardLinkFolder(k, w, src, dst);
    if linked.st.Ok? then linked else CopyFolder(k, linked.w, src, dst)
  }

  ghost predicate SourceInode(w: World, src: Path, i: Ino) {
    exists q :: src <= q && IsFile(w, q) && w.names[q].ino == i
  }

  /** The copy walk would open inode i, through an existing target path, for writing. */
  ghost predicate Opens(w: World, src: Path, tgt: Path, i: Ino) {
    exists q :: src <= q && IsFile(w, q) && IsFile(w, Twin(src, tgt, q)) && w.names[Twin(src, tgt, q)].ino == i
  }

  ghost predicate AliasFree(w: World, src: Path, tgt: Path) {
    forall i :: Opens(w, src, tgt, i) ==> !SourceInode(w, src, i)
  }

  /** A target path shares a source inode only by being the link of its own source path. */
  ghost predicate OnlyOwnLinks(w: World, src: Path, tgt: Path) {
    forall q :: src <= q && IsFile(w, q) && IsFile(w, Twin(src, tgt, q)) && SourceInode(w, src, w.names[Twin(src, tgt, q)].ino)
      ==> w.names[Twin(src, tgt, q)] == w.names[q]
  }

  ghost predicate SourceKept(w: World, w': World, src: Path) {
    SameSource(w, w', src) && forall i :: SourceInode(w, src, i) ==> Content(w', i) == Content(w, i)
  }

  // ---- the copy walk ----

  /** A name the walk adds: inside the target the counterpart of a source path, else a directory above. */
  ghost predicate NewName(w0: World, w: World, src: Path, tgt: Path, q: Path) {
    q in w.names
    && if tgt <= q then Mirror(src, tgt, q) in w0.names && (w.names[q].Dir? <==> w0.names[Mirror(src, tgt, q)].Dir?)
       else q <= tgt && w.names[q] == Dir
  }

  /** w is a world the copy walk from w0 can be in. */
  ghost predicate PartlyCopied(w0: World, w: World, src: Path, tgt: Path) {
    && Valid(w) && w0.next <= w.next
    && (forall q :: q in w0.names ==> q in w.names && w.names[q] == w0.names[q])
    && (forall q :: q in w.names && q !in w0.names ==> NewName(w0, w, src, tgt, q))
    && (forall q :: q in w.names && q !in w0.names && w.names[q].File? ==> w0.next <= w.names[q].ino < w.next)
    && (forall i :: i in w0.inodes && !Opens(w0, src, tgt, i) ==> i in w.inodes && w.inodes[i] == w0.inodes[i])
  }

  lemma PartlyCopiedKeepsSource(w0: World, w: World, src: Path, tgt: Path)
    requires PartlyCopied(w0, w, src, tgt) && Separate(w0, src, tgt)
    ensures SameSource(w0, w, src)
  {
    forall q | src <= q && q in w.names ensures q in w0.names {
      assert q !in w0.names ==> NewName(w0, w, src, tgt, q);
    }
  }

  lemma DirsKeepPartlyCopied(w0: World, w: World, w': World, src: Path, tgt: Path, rel: Path)
    requires Valid(w0) && PartlyCopied(w0, w, src, tgt) && Valid(w') && OnlyAddsDirs(w, w', tgt + rel) && IsDir(w0, src + rel)
    ensures PartlyCopied(w0, w', src, tgt)
  {
    forall q | q in w'.names && q !in w0.names ensures NewName(w0, w', src, tgt, q) {
      if q in w.names {
        assert NewName(w0, w, src, tgt, q);
      } else {
        NewDirMirrors(w0, src, tgt, rel, q);
      }
    }
  }

  lemma CopyKeepsPartlyCopied(k: Kernel, w0: World, w: World, src: Path, tgt: Path, rel: Path)
    requires Valid(w0) && PartlyCopied(w0, w, src, tgt) && Separate(w0, src, tgt) && IsFile(w0, src + rel)
    ensures PartlyCopied(w0, CopyFile(k, w, src + rel, tgt + rel).w, src, tgt)
  {
    var r := CopyFile(k, w, src + rel, tgt + rel);
    CopyFileEffect(k, w, src + rel, tgt + rel);
    assert src <= src + rel && tgt <= tgt + rel && Twin(src, tgt, src + rel) == tgt + rel;
    assert Mirror(src, tgt, tgt + rel) == src + rel;
    forall q | q in r.w.names && q !in w0.names ensures NewName(w0, r.w, src, tgt, q) {
      assert q in w.names ==> NewName(w0, w, src, tgt, q);
    }
    forall i | i in w0.inodes && !Opens(w0, src, tgt, i) ensures i in r.w.inodes && r.w.inodes[i] == w0.inodes[i] {
      assert IsFile(w0, tgt + rel) ==> w0.names[tgt + rel].ino != i;
      assert i < w0.next;
    }
  }

  lemma CallsKeepPartlyCopied(w0: World, w: World, calls: nat, src: Path, tgt: Path)
    requires PartlyCopied(w0, w, src, tgt)
    ensures PartlyCopied(w0, w.(calls := calls), src, tgt)
  {
    forall q | q in w.names && q !in w0.names ensures NewName(w0, w.(calls := calls), src, tgt, q) {
      assert NewName(w0, w, src, tgt, q);
    }
  }

  lemma VisitKeepsPartlyCopied(k: Kernel, w0: World, w: World, src: Path, tgt: Path, v: Visit)
    requires Valid(w0) && PartlyCopied(w0, w, src, tgt) && Separate(w0, src, tgt) && Sound(w0, src, v)
    ensures PartlyCopied(w0, RunVisit(k, w, src, tgt, v, Copy).w, src, tgt)
  {
    hide PartlyCopied, CopyFile;
    if v.Visit? {
      var info := Stat(k, w, src + v.rel);
      CallsKeepPartlyCopied(w0, w, w.calls + 1, src, tgt);
      if info.st.Ok? {
        if v.isDir {
          MkdirAllAdds(k, info.w, tgt + v.rel);
          var made := MkdirAll(k, info.w, tgt + v.rel);
          DirsKeepPartlyCopied(w0, info.w, made.w, src, tgt, v.rel);
          CallsKeepPartlyCopied(w0, made.w, made.w.calls + 1, src, tgt);
        } else {
          CopyKeepsPartlyCopied(k, w0, info.w, src, tgt, v.rel);
        }
      }
    }
  }

  lemma {:induction false} RunKeepsPartlyCopied(k: Kernel, w0: World, w: World, src: Path, tgt: Path, script: seq<Visit>)
    requires Valid(w0) && PartlyCopied(w0, w, src, tgt) && Separate(w0, src, tgt)
    requires forall v :: v in script ==> Sound(w0, src, v)
    ensures PartlyCopied(w0, Run(k, w, src, tgt, script, Copy).w, src, tgt)
    decreases |script|
  {
    if script != [] {
      VisitKeepsPartlyCopied(k, w0, w, src, tgt, script[0]);
      RunKeepsPartlyCopied(k, w0, RunVisit(k, w, src, tgt, script[0], Copy).w, src, tgt, script[1..]);
    }
  }

  // ---- what one source file's copy holds ----

  /** No other path leads to the file the walk created at the place of src + rel. */
  ghost predicate Sole(w0: World, w: World, t: Path) {
    IsFile(w, t) && t !in w0.names ==> forall q :: q in w.names && q != t ==> w.names[q] != w.names[t]
  }

  /** The copy of src + rel is in place. */
  ghost predicate Copied(w0: World, w: World, src: Path, tgt: Path, rel: Path) {
    && IsFile(w0, src + rel) && IsFile(w, tgt + rel)
    && Content(w, w.names[tgt + rel].ino) == Content(w0, w0.names[src + rel].ino)
  }

  /** Existing target paths that share an inode are to receive the same bytes. */
  ghost predicate TargetsAgree(w: World, src: Path, tgt: Path) {
    forall a: Path, b: Path :: IsFile(w, src + a) && IsFile(w, src + b) && IsFile(w, tgt + a) && IsFile(w, tgt + b)
      && w.names[tgt + a] == w.names[tgt + b]
      ==> Content(w, w.names[src + a].ino) == Content(w, w.names[src + b].ino)
  }

  lemma CopyKeepsCopied(k: Kernel, w0: World, w: World, src: Path, tgt: Path, rel: Path, at: Path)
    requires Valid(w0) && PartlyCopied(w0, w, src, tgt) && Separate(w0, src, tgt) && AliasFree(w0, src, tgt) && TargetsAgree(w0, src, tgt)
    requires IsFile(w0, src + rel) && IsFile(w0, src + at) && Sole(w0, w, tgt + rel)
    ensures var r := CopyFile(k, w, src + at, tgt + at);
      && Sole(w0, r.w, tgt + rel)
      && (r.st.Ok? && (Copied(w0, w, src, tgt, rel) || at == rel) ==> Copied(w0, r.w, src, tgt, rel))
  {
    hide CopyFile;
    CopyFileEffect(k, w, src + at, tgt + at);
    var r := CopyFile(k, w, src + at, tgt + at);
    assert tgt + at == tgt + rel ==> at == (tgt + at)[|tgt|..] == rel;
    assert Sole(w0, r.w, tgt + rel);
    if r.st.Ok? {
      assert src <= src + at && Twin(src, tgt, src + at) == tgt + at;
      assert IsFile(w0, tgt + at) ==> Opens(w0, src, tgt, w0.names[tgt + at].ino);
      assert SourceInode(w0, src, w0.names[src + at].ino) && w0.names[src + at].ino < w0.next;
      assert Content(r.w, r.w.names[tgt + at].ino) == Content(w0, w0.names[src + at].ino);
      if at != rel && Copied(w0, w, src, tgt, rel) && r.w.names[tgt + at] == w.names[tgt + rel] {
        assert IsFile(w, tgt + at);
        assert tgt + rel in w0.names && tgt + at in w0.names;
      }
    }
  }

  lemma DirsKeepCopied(w0: World, w: World, w': World, src: Path, tgt: Path, rel: Path, t: Path)
    requires Sole(w0, w, tgt + rel) && OnlyAddsDirs(w, w', t)
    ensures Sole(w0, w', tgt + rel)
    ensures Copied(w0, w, src, tgt, rel) ==> Copied(w0, w', src, tgt, rel)
  {
  }

  lemma VisitCopies(k: Kernel, w0: World, w: World, src: Path, tgt: Path, v: Visit, rel: Path, r: Result)
    requires Valid(w0) && PartlyCopied(w0, w, src, tgt) && Separate(w0, src, tgt) && AliasFree(w0, src, tgt) && TargetsAgree(w0, src, tgt)
    requires Sound(w0, src, v) && IsFile(w0, src + rel) && Sole(w0, w, tgt + rel)
    requires r == RunVisit(k, w, src, tgt, v, Copy) && r.st.Ok?
    ensures Sole(w0, r.w, tgt + rel)
    ensures Copied(w0, w, src, tgt, rel) || v == Visit(rel, false) ==> Copied(w0, r.w, src, tgt, rel)
  {
    VisitIsCall(k, w, src, tgt, v, Copy);
    var info := w.(calls := w.calls + 1);
    CallsKeepPartlyCopied(w0, w, w.calls + 1, src, tgt);
    DirsKeepCopied(w0, w, info, src, tgt, rel, []);
    if v.isDir {
      var made := MkdirAll(k, info, tgt + v.rel).w;
      MkdirAllAdds(k, info, tgt + v.rel);
      DirsKeepCopied(w0, info, made, src, tgt, rel, tgt + v.rel);
      DirsKeepCopied(w0, made, r.w, src, tgt, rel, []);
    } else {
      CopyKeepsCopied(k, w0, info, src, tgt, rel, v.rel);
    }
  }

  lemma {:induction false} RunCopies(k: Kernel, w0: World, w: World, src: Path, tgt: Path, script: seq<Visit>, rel: Path)
    requires Valid(w0) && PartlyCopied(w0, w, src, tgt) && Separate(w0, src, tgt) && AliasFree(w0, src, tgt) && TargetsAgree(w0, src, tgt)
    requires forall v :: v in script ==> Sound(w0, src, v)
    requires IsFile(w0, src + rel) && Sole(w0, w, tgt + rel)
    ensures var r := Run(k, w, src, tgt, script, Copy);
      r.st.Ok? && (Copied(w0, w, src, tgt, rel) || Visit(rel, false) in script) ==> Copied(w0, r.w, src, tgt, rel)
    decreases |script|
  {
    if script != [] {
      var first := RunVisit(k, w, src, tgt, script[0], Copy);
      VisitKeepsPartlyCopied(k, w0, w, src, tgt, script[0]);
      if first.st.Ok? {
        VisitCopies(k, w0, w, src, tgt, script[0], rel, first);
        RunCopies(k, w0, first.w, src, tgt, script[1..], rel);
      }
    }
  }

  // ---- the shape of a copied tree ----

  predicate SameKind(a: Option<Node>, b: Option<Node>) {
    if a.None? then b.None? else b.Some? && (a.value.Dir? <==> b.value.Dir?)
  }

  lemma CopyVisitKeepsName(k: Kernel, w: World, src: Path, tgt: Path, v: Visit, q: Path)
    requires Valid(w) && Separate(w, src, tgt) && q in w.names
    ensures Lookup(RunVisit(k, w, src, tgt, v, Copy).w, q) == Lookup(w, q)
  {
    hide CopyFile;
    if v.Visit? {
      var info := w.(calls := w.calls + 1);
      MkdirAllAdds(k, info, tgt + v.rel);
      if src + v.rel in w.names {
        CopyFileEffect(k, info, src + v.rel, tgt + v.rel);
      }
    }
  }

  lemma CopyVisitMakes(k: Kernel, w: World, src: Path, tgt: Path, v: Visit)
    requires Valid(w) && Separate(w, src, tgt) && RunVisit(k, w, src, tgt, v, Copy).st.Ok?
    ensures v.Visit? && tgt + v.rel in RunVisit(k, w, src, tgt, v, Copy).w.names
    ensures RunVisit(k, w, src, tgt, v, Copy).w.names[tgt + v.rel].Dir? == v.isDir
  {
    hide CopyFile;
    var info := w.(calls := w.calls + 1);
    MkdirAllAdds(k, info, tgt + v.rel);
    CopyFileEffect(k, info, src + v.rel, tgt + v.rel);
  }

  lemma {:induction false} RunMakes(k: Kernel, w: World, src: Path, tgt: Path, script: seq<Visit>, v: Visit)
    requires Valid(w) && Separate(w, src, tgt) && v.Visit? && Run(k, w, src, tgt, script, Copy).st.Ok?
    requires v in script || (tgt + v.rel in w.names && w.names[tgt + v.rel].Dir? == v.isDir)
    ensures var r := Run(k, w, src, tgt, script, Copy).w; tgt + v.rel in r.names && r.names[tgt + v.rel].Dir? == v.isDir
    decreases |script|
  {
    hide RunVisit;
    if script != [] {
      var first := RunVisit(k, w, src, tgt, script[0], Copy).w;
      VisitKeepsSource(k, w, src, tgt, script[0], Copy);
      if script[0] == v {
        CopyVisitMakes(k, w, src, tgt, v);
      } else if v !in script {
        CopyVisitKeepsName(k, w, src, tgt, script[0], tgt + v.rel);
      } else {
        assert v in script[1..];
      }
      RunMakes(k, first, src, tgt, script[1..], v);
    }
  }

  // ---- what happens to a source inode whose own link is opened ----

  lemma CopyOverLink(k: Kernel, w0: World, w: World, src: Path, tgt: Path, at: Path, i: Ino)
    requires Valid(w0) && PartlyCopied(w0, w, src, tgt) && Separate(w0, src, tgt) && OnlyOwnLinks(w0, src, tgt)
    requires IsFile(w0, src + at) && SourceInode(w0, src, i)
    ensures var r := CopyFile(k, w, src + at, tgt + at);
      && Content(r.w, i) in [Content(w, i), []]
      && (r.st.Ok? && IsFile(w0, tgt + at) && w0.names[tgt + at].ino == i ==> Content(r.w, i) == [])
  {
    PartlyCopiedKeepsSource(w0, w, src, tgt);
    assert src <= src + at && Twin(src, tgt, src + at) == tgt + at;
    CopyFileEffect(k, w, src + at, tgt + at);
    assert i < w0.next && i in w.inodes;
  }

  lemma {:induction false} RunOverLinks(k: Kernel, w0: World, w: World, src: Path, tgt: Path, script: seq<Visit>, i: Ino, rel: Path)
    requires Valid(w0) && PartlyCopied(w0, w, src, tgt) && Separate(w0, src, tgt) && OnlyOwnLinks(w0, src, tgt)
    requires forall v :: v in script ==> Sound(w0, src, v)
    requires SourceInode(w0, src, i)
    ensures var r := Run(k, w, src, tgt, script, Copy);
      && Content(r.w, i) in [Content(w, i), []]
      && (r.st.Ok? && Visit(rel, false) in script && IsFile(w0, tgt + rel) && w0.names[tgt + rel].ino == i ==> Content(r.w, i) == [])
    decreases |script|
  {
    hide PartlyCopied, CopyFile, OnlyOwnLinks, MkdirAll;
    if script != [] {
      var v := script[0];
      var first := RunVisit(k, w, src, tgt, v, Copy);
      VisitKeepsPartlyCopied(k, w0, w, src, tgt, v);
      if v.Visit? {
        var info := Stat(k, w, src + v.rel);
        CallsKeepPartlyCopied(w0, w, info.w.calls, src, tgt);
        if info.st.Ok? {
          if v.isDir {
            MkdirAllAdds(k, info.w, tgt + v.rel);
          } else {
            CopyOverLink(k, w0, info.w, src, tgt, v.rel, i);
          }
        }
      }
      if first.st.Ok? {
        RunOverLinks(k, w0, first.w, src, tgt, script[1..], i, rel);
      }
    }
  }

  // ---- CopyFolder ----

  lemma StartsPartlyCopied(w: World, w1: World, src: Path, dst: Path)
    requires Valid(w) && Valid(w1) && src in w.names && OnlyAddsDirs(w, w1, dst)
    ensures PartlyCopied(w, w1, src, TargetRoot(w, src, dst))
  {
    var tgt := TargetRoot(w, src, dst);
    assert dst <= tgt && src + [] == src;
    forall q | q in w1.names && q !in w.names ensures NewName(w, w1, src, tgt, q) {
      assert tgt <= q ==> q == tgt == dst && Mirror(src, tgt, q) == src;
    }
  }

  /** The script a copy of src is, and the world it starts in once the target directory is there. */
  lemma CopyFolderIsScript(k: Kernel, w: World, src: Path, dst: Path) returns (start: World, script: seq<Visit>)
    requires Valid(w) && ListsAll(k) && Separate(w, src, dst) && IsDir(w, src)
    ensures var r := CopyFolder(k, w, src, dst); var tgt := TargetRoot(w, src, dst);
      && PartlyCopied(w, start, src, tgt) && OnlyAddsDirs(w, start, dst)
      && (forall v :: v in script ==> Sound(w, src, v))
      && r.w == Run(k, start, src, tgt, script, Copy).w
      && (r.st.Ok? ==> Run(k, start, src, tgt, script, Copy).st.Ok?)
      && (r.st.Ok? ==> forall q :: q in w.names && src <= q ==> Visit(q[|src|..], IsDir(w, q)) in script)
  {
    var stat := Stat(k, w, src);
    start, script := stat.w, [];
    StartsPartlyCopied(w, stat.w, src, dst);
    if stat.st.Ok? {
      MkdirAllAdds(k, stat.w, dst);
      var made := MkdirAll(k, stat.w, dst);
      start := made.w;
      StartsPartlyCopied(w, made.w, src, dst);
      if made.st.Ok? {
        script := Script(k, w, src, [], true, k.maxDepth);
        assert src + [] == src;
        PartlyCopiedKeepsSource(w, made.w, src, dst);
        WalkFollowsScript(k, w, made.w, src, dst, [], true, Copy, k.maxDepth);
        forall v | v in script ensures Sound(w, src, v) {
          ScriptSound(k, w, src, [], k.maxDepth, v);
        }
        if CopyFolder(k, w, src, dst).st.Ok? {
          RunOkVisitsAll(k, made.w, src, dst, script, Copy);
          forall q | q in w.names && src <= q ensures Visit(q[|src|..], IsDir(w, q)) in script {
            ScriptComplete(k, w, src, [], k.maxDepth, q);
          }
        }
      }
    }
  }

  lemma FileHasNothingBelow(w: World, src: Path, q: Path)
    requires Valid(w) && IsFile(w, src) && q in w.names && src <= q
    ensures q == src
  {
    if q != src { AncestorsAreDirs(w, q, src); }
  }

  lemma CopiedPath(k: Kernel, w: World, src: Path, dst: Path, rel: Path)
    requires Valid(w) && ListsAll(k) && Separate(w, src, TargetRoot(w, src, dst)) && CopyFolder(k, w, src, dst).st.Ok? && src + rel in w.names
    ensures var r := CopyFolder(k, w, src, dst).w; var tgt := TargetRoot(w, src, dst);
      PartlyCopied(w, r, src, tgt) && tgt + rel in r.names && r.names[tgt + rel].Dir? == IsDir(w, src + rel)
  {
    hide PartlyCopied, Run, CopyFile;
    var tgt := TargetRoot(w, src, dst);
    assert src <= src + rel && (src + rel)[|src|..] == rel;
    if src != src + rel { AncestorsAreDirs(w, src + rel, src); }
    if IsDir(w, src) {
      var start, script := CopyFolderIsScript(k, w, src, dst);
      assert Valid(start) by { MkdirAllAdds(k, Stat(k, w, src).w, dst); }
      RunMakes(k, start, src, tgt, script, Visit(rel, IsDir(w, src + rel)));
      RunKeepsPartlyCopied(k, w, start, src, tgt, script);
    } else {
      assert rel == [] && src + [] == src && tgt + [] == tgt;
      CopiedFile(k, w, src, dst);
    }
  }

  lemma CopiedFile(k: Kernel, w: World, src: Path, dst: Path)
    requires Valid(w) && Separate(w, src, TargetRoot(w, src, dst)) && CopyFolder(k, w, src, dst).st.Ok? && IsFile(w, src)
    ensures var r := CopyFolder(k, w, src, dst).w; var tgt := TargetRoot(w, src, dst);
      PartlyCopied(w, r, src, tgt) && IsFile(r, tgt)
  {
    hide PartlyCopied, CopyFile;
    var tgt := TargetRoot(w, src, dst);
    var stat := Stat(k, w, src);
    MkdirAllAdds(k, stat.w, dst);
    var made := MkdirAll(k, stat.w, dst);
    StartsPartlyCopied(w, made.w, src, dst);
    assert src + [] == src && tgt + [] == tgt;
    CopyKeepsPartlyCopied(k, w, made.w, src, tgt, []);
    CopyFileEffect(k, made.w, src, tgt);
  }

  /** A successful CopyFolder: the target has the shape of the source, empty directories included, and
      nothing else has been named. */
  lemma CopyFolderShape(k: Kernel, w: World, src: Path, dst: Path, q: Path)
    requires Valid(w) && ListsAll(k) && Separate(w, src, TargetRoot(w, src, dst)) && CopyFolder(k, w, src, dst).st.Ok?
    ensures SameKind(Lookup(CopyFolder(k, w, src, dst).w, q), Placed(w, src, TargetRoot(w, src, dst), q))
  {
    var tgt := TargetRoot(w, src, dst);
    var rel := if tgt <= q && Mirror(src, tgt, q) in w.names then q[|tgt|..] else [];
    assert Stat(k, w, src).st.Ok?;
    hide CopyFolder, PartlyCopied;
    assert src + [] == src && tgt + [] == tgt;
    CopiedPath(k, w, src, dst, []);
    CopiedPath(k, w, src, dst, rel);
    ShapeOf(w, CopyFolder(k, w, src, dst).w, src, tgt, q, rel);
  }

  lemma ShapeOf(w: World, r: World, src: Path, tgt: Path, q: Path, rel: Path)
    requires Valid(w) && PartlyCopied(w, r, src, tgt) && tgt in r.names
    requires rel == if tgt <= q && Mirror(src, tgt, q) in w.names then q[|tgt|..] else []
    requires src + rel in w.names && tgt + rel in r.names && r.names[tgt + rel].Dir? == IsDir(w, src + rel)
    ensures SameKind(Lookup(r, q), Placed(w, src, tgt, q))
  {
    if tgt <= q && Mirror(src, tgt, q) in w.names {
      assert tgt + rel == q && src + rel == Mirror(src, tgt, q);
    } else if q !in w.names {
      if q <= tgt && q != tgt { AncestorsAreDirs(r, tgt, q); }
      assert q in r.names ==> NewName(w, r, src, tgt, q);
    }
  }

  /** At whatever call CopyFolder fails, every existing name stays where it was and only inodes it
      opened through existing target paths can have changed. */
  lemma CopyFolderFrame(k: Kernel, w: World, src: Path, dst: Path)
    requires Valid(w) && ListsAll(k) && Separate(w, src, TargetRoot(w, src, dst))
    ensures var r := CopyFolder(k, w, src, dst);
      && Valid(r.w) && SameSource(w, r.w, src)
      && (forall q :: q in w.names ==> q in r.w.names && r.w.names[q] == w.names[q])
      && (forall i :: i in w.inodes && !Opens(w, src, TargetRoot(w, src, dst), i) ==> i in r.w.inodes && r.w.inodes[i] == w.inodes[i])
  {
    var tgt := TargetRoot(w, src, dst);
    var r := CopyFolder(k, w, src, dst);
    if IsDir(w, src) {
      var start, script := CopyFolderIsScript(k, w, src, dst);
      RunKeepsPartlyCopied(k, w, start, src, tgt, script);
      PartlyCopiedKeepsSource(w, r.w, src, tgt);
    } else if IsFile(w, src) && Stat(k, w, src).st.Ok? {
      var stat := Stat(k, w, src);
      MkdirAllAdds(k, stat.w, dst);
      var made := MkdirAll(k, stat.w, dst);
      StartsPartlyCopied(w, made.w, src, dst);
      PartlyCopiedKeepsSource(w, made.w, src, tgt);
      if made.st.Ok? {
        assert src + [] == src && tgt + [] == tgt;
        CopyKeepsPartlyCopied(k, w, made.w, src, tgt, []);
        PartlyCopiedKeepsSource(w, r.w, src, tgt);
      }
    }
  }

  /** Alias freedom makes the copy harmless at every point of failure. */
  lemma CopyFolderSafe(k: Kernel, w: World, src: Path, dst: Path)
    requires Valid(w) && ListsAll(k) && Separate(w, src, TargetRoot(w, src, dst)) && AliasFree(w, src, TargetRoot(w, src, dst))
    ensures SourceKept(w, CopyFolder(k, w, src, dst).w, src)
  {
    CopyFolderFrame(k, w, src, dst);
  }

  lemma CopiesWhenTargetsAgree(k: Kernel, w: World, src: Path, dst: Path, rel: Path)
    requires Valid(w) && ListsAll(k) && Separate(w, src, TargetRoot(w, src, dst)) && CopyFolder(k, w, src, dst).st.Ok?
    requires var tgt := TargetRoot(w, src, dst); AliasFree(w, src, tgt) && TargetsAgree(w, src, tgt)
    requires IsFile(w, src + rel)
    ensures Copied(w, CopyFolder(k, w, src, dst).w, src, TargetRoot(w, src, dst), rel)
  {
    var tgt := TargetRoot(w, src, dst);
    assert src <= src + rel;
    if IsDir(w, src) {
      var start, script := CopyFolderIsScript(k, w, src, dst);
      assert (src + rel)[|src|..] == rel;
      RunCopies(k, w, start, src, tgt, script, rel);
    } else {
      var stat := Stat(k, w, src);
      MkdirAllAdds(k, stat.w, dst);
      var made := MkdirAll(k, stat.w, dst);
      StartsPartlyCopied(w, made.w, src, dst);
      PartlyCopiedKeepsSource(w, made.w, src, tgt);
      FileHasNothingBelow(w, src, src + rel);
      assert rel == [] && src + [] == src && tgt + [] == tgt;
      CopyKeepsCopied(k, w, made.w, src, tgt, [], []);
    }
  }

  /** A successful CopyFolder into a target sharing no inode with the source: every file's copy holds
      the source's bytes if and only if no two existing targets were one file due different bytes. */
  lemma CopyFolderExact(k: Kernel, w: World, src: Path, dst: Path)
    requires Valid(w) && ListsAll(k) && Separate(w, src, TargetRoot(w, src, dst)) && CopyFolder(k, w, src, dst).st.Ok?
    requires AliasFree(w, src, TargetRoot(w, src, dst))
    ensures var tgt := TargetRoot(w, src, dst); var r := CopyFolder(k, w, src, dst).w;
      (forall rel :: IsFile(w, src + rel) ==> Copied(w, r, src, tgt, rel)) <==> TargetsAgree(w, src, tgt)
  {
    var tgt := TargetRoot(w, src, dst);
    var r := CopyFolder(k, w, src, dst).w;
    if TargetsAgree(w, src, tgt) {
      forall rel | IsFile(w, src + rel) ensures Copied(w, r, src, tgt, rel) {
        CopiesWhenTargetsAgree(k, w, src, dst, rel);
      }
    } else {
      var a: Path, b: Path :| IsFile(w, src + a) && IsFile(w, src + b) && IsFile(w, tgt + a) && IsFile(w, tgt + b)
        && w.names[tgt + a] == w.names[tgt + b] && Content(w, w.names[src + a].ino) != Content(w, w.names[src + b].ino);
      CopyFolderFrame(k, w, src, dst);
      assert !(Copied(w, r, src, tgt, a) && Copied(w, r, src, tgt, b));
    }
  }

  /** Copying over links of one's own: each source file either keeps its bytes or is emptied, and
      once the copy has succeeded the emptied ones are exactly those whose link was there. */
  lemma CopyOverOwnLinks(k: Kernel, w: World, src: Path, dst: Path, i: Ino)
    requires Valid(w) && ListsAll(k) && Separate(w, src, TargetRoot(w, src, dst)) && OnlyOwnLinks(w, src, TargetRoot(w, src, dst)) && SourceInode(w, src, i)
    ensures var r := CopyFolder(k, w, src, dst);
      && Content(r.w, i) in [Content(w, i), []]
      && (r.st.Ok? ==> Content(r.w, i) == if Opens(w, src, TargetRoot(w, src, dst), i) then [] else Content(w, i))
  {
    var tgt := TargetRoot(w, src, dst);
    var r := CopyFolder(k, w, src, dst);
    CopyFolderFrame(k, w, src, dst);
    assert i in w.inodes;
    if Opens(w, src, tgt, i) {
      var q :| src <= q && IsFile(w, q) && IsFile(w, Twin(src, tgt, q)) && w.names[Twin(src, tgt, q)].ino == i;
      var rel := q[|src|..];
      assert src + rel == q && tgt + rel == Twin(src, tgt, q);
      if IsDir(w, src) {
        var start, script := CopyFolderIsScript(k, w, src, dst);
        RunOverLinks(k, w, start, src, tgt, script, i, rel);
      } else if Stat(k, w, src).st.Ok? {
        FileHasNothingBelow(w, src, q);
        var stat := Stat(k, w, src);
        MkdirAllAdds(k, stat.w, dst);
        var made := MkdirAll(k, stat.w, dst);
        StartsPartlyCopied(w, made.w, src, dst);
        if made.st.Ok? {
          assert src + [] == src && tgt + [] == tgt;
          CopyOverLink(k, w, made.w, src, tgt, [], i);
        }
      }
    }
  }

  // ---- finalizeDownload ----

  /** The hard-link walk had linked source path q when it stopped in w1. */
  predicate WasLinked(w0: World, w1: World, src: Path, tgt: Path, q: Path)
    requires src <= q
  {
    IsFile(w0, q) && Lookup(w1, Twin(src, tgt, q)) == Lookup(w0, q)
  }

  lemma LinkingLeavesOwnLinks(w0: World, w1: World, src: Path, tgt: Path)
    requires Valid(w0) && PartlyLinked(w0, w1, src, tgt) && SameSource(w0, w1, src) && AliasFree(w0, src, tgt)
    ensures OnlyOwnLinks(w1, src, tgt)
    ensures forall i :: SourceInode(w0, src, i) <==> SourceInode(w1, src, i)
  {
    forall q | src <= q && IsFile(w1, q) && IsFile(w1, Twin(src, tgt, q)) && SourceInode(w1, src, w1.names[Twin(src, tgt, q)].ino)
      ensures w1.names[Twin(src, tgt, q)] == w1.names[q]
    {
      var t := Twin(src, tgt, q);
      assert Mirror(src, tgt, t) == q;
      assert SourceInode(w0, src, w1.names[t].ino);
      assert IsFile(w0, t) ==> Opens(w0, src, tgt, w0.names[t].ino);
    }
  }

  /** The intent of the fallback (readme.md): the original stays untouched. It does at every point of
      failure, provided no target path aliases a source inode when the copy walk starts. */
  lemma FinalizeSafe(k: Kernel, w: World, src: Path, dst: Path)
    requires Valid(w) && ListsAll(k) && Separate(w, src, TargetRoot(w, src, dst))
    requires var linked := HardLinkFolder(k, w, src, dst);
      linked.st.Ok? || AliasFree(linked.w, src, TargetRoot(w, src, dst))
    ensures SourceKept(w, Finalize(k, w, src, dst).w, src)
  {
    HardLinkFolderSafe(k, w, src, dst, []);
    var linked := HardLinkFolder(k, w, src, dst);
    if linked.st.Err? {
      assert src <= src;
      assert TargetRoot(linked.w, src, dst) == TargetRoot(w, src, dst);
      CopyFolderSafe(k, linked.w, src, dst);
      forall i | SourceInode(w, src, i) ensures SourceInode(linked.w, src, i) { }
    }
  }

  /** How much the hypothesis of FinalizeSafe is worth. From a target that aliased nothing, when the
      walk failed and the copy then reported success, the source is intact if and only if every file
      that had been linked by then was empty. Whatever happens, a file is intact or emptied. */
  lemma FinalizeExact(k: Kernel, w: World, src: Path, dst: Path)
    requires Valid(w) && ListsAll(k) && Separate(w, src, TargetRoot(w, src, dst)) && AliasFree(w, src, TargetRoot(w, src, dst))
    ensures var linked := HardLinkFolder(k, w, src, dst); var r := Finalize(k, w, src, dst);
      && SameSource(w, r.w, src)
      && (forall i :: SourceInode(w, src, i) ==> Content(r.w, i) in [Content(w, i), []])
      && (linked.st.Err? && r.st.Ok? ==>
           (SourceKept(w, r.w, src) <==>
            forall q :: src <= q && WasLinked(w, linked.w, src, TargetRoot(w, src, dst), q) ==> Content(w, w.names[q].ino) == []))
  {
    var tgt := TargetRoot(w, src, dst);
    HardLinkFolderSafe(k, w, src, dst, []);
    var linked := HardLinkFolder(k, w, src, dst);
    var r := Finalize(k, w, src, dst);
    assert src <= src;
    if linked.st.Err? && src in w.names {
      assert TargetRoot(linked.w, src, dst) == tgt;
      LinkingLeavesOwnLinks(w, linked.w, src, tgt);
      CopyFolderFrame(k, linked.w, src, dst);
      forall i | SourceInode(w, src, i)
        ensures Content(r.w, i) in [Content(w, i), []]
        ensures r.st.Ok? ==> Content(r.w, i) == if Opens(linked.w, src, tgt, i) then [] else Content(w, i)
      {
        CopyOverOwnLinks(k, linked.w, src, dst, i);
      }
      if r.st.Ok? {
        LinkedIsOpened(w, linked.w, src, tgt);
        if SourceKept(w, r.w, src) {
          forall q | src <= q && WasLinked(w, linked.w, src, tgt, q) ensures Content(w, w.names[q].ino) == [] {
            assert SourceInode(w, src, w.names[q].ino);
          }
        }
      }
    } else if linked.st.Err? {
      assert linked.w.inodes == w.inodes;
      CopyFolderFrame(k, linked.w, src, dst);
      assert forall i :: !SourceInode(w, src, i) by {
        forall q | src <= q && q in w.names ensures false {
          if q != src { AncestorsAreDirs(w, q, src); }
        }
      }
    }
  }

  /** Among source inodes, the ones the copy would open are the ones that were linked. */
  lemma LinkedIsOpened(w0: World, w1: World, src: Path, tgt: Path)
    requires Valid(w0) && SameSource(w0, w1, src) && OnlyOwnLinks(w1, src, tgt)
    ensures forall i :: SourceInode(w0, src, i) ==>
      (Opens(w1, src, tgt, i) <==> exists q :: src <= q && WasLinked(w0, w1, src, tgt, q) && w0.names[q].ino == i)
  {
    forall i | SourceInode(w0, src, i)
      ensures Opens(w1, src, tgt, i) <==> exists q :: src <= q && WasLinked(w0, w1, src, tgt, q) && w0.names[q].ino == i
    {
      assert SourceInode(w1, src, i);
      if Opens(w1, src, tgt, i) {
        var q :| src <= q && IsFile(w1, q) && IsFile(w1, Twin(src, tgt, q)) && w1.names[Twin(src, tgt, q)].ino == i;
        assert WasLinked(w0, w1, src, tgt, q);
      }
      if q :| src <= q && WasLinked(w0, w1, src, tgt, q) && w0.names[q].ino == i {
        assert IsFile(w1, Twin(src, tgt, q));
      }
    }
  }
}
