/** What HardLinkFolder leaves behind: after success the target tree is exactly the source tree
    over the same inodes; after a failure at any point no byte of any file has changed. */
module HardLinking {
  import opened Options
  import opened FileSystem
  import opened FolderWalk

  function Lookup(w: World, p: Path): Option<Node> {
    if p in w.names then Some(w.names[p]) else None
  }

  /** The source path whose copy or link belongs at target path q. */
  function Mirror(src: Path, tgt: Path, q: Path): Path
    requires tgt <= q
  {
    src + q[|tgt|..]
  }

  function Twin(src: Path, tgt: Path, p: Path): Path
    requires src <= p
  {
    tgt + p[|src|..]
  }

  // ---- scripts list exactly the source tree ----

  ghost predicate Sound(w: World, src: Path, v: Visit) {
    v.Visit? ==> src + v.rel in w.names && v.isDir == IsDir(w, src + v.rel)
  }

  lemma {:induction false} ScriptSound(k: Kernel, w: World, src: Path, rel: Path, depth: nat, v: Visit)
    requires ListsAll(k) && src + rel in w.names
    requires v in Script(k, w, src, rel, IsDir(w, src + rel), depth)
    ensures Sound(w, src, v)
    decreases depth, 0
  {
    if depth != 0 && IsDir(w, src + rel) && v != Visit(rel, true) {
      ScriptEntriesSound(k, w, src, rel, Entries(k, w, src + rel), depth - 1, v);
    }
  }

  lemma {:induction false} ScriptEntriesSound(k: Kernel, w: World, src: Path, rel: Path, entries: seq<DirEntry>, depth: nat, v: Visit)
    requires ListsAll(k)
    requires forall e :: e in entries ==> e in Entries(k, w, src + rel)
    requires v in ScriptEntries(k, w, src, rel, entries, depth)
    ensures Sound(w, src, v)
    decreases depth, |entries|
  {
    var e := entries[0];
    assert src + rel + [e.name] == src + (rel + [e.name]);
    EntryExists(k, w, src + rel, e);
    if v in Script(k, w, src, rel + [e.name], e.isDir, depth) {
      ScriptSound(k, w, src, rel + [e.name], depth, v);
    } else {
      ScriptEntriesSound(k, w, src, rel, entries[1..], depth, v);
    }
  }

  lemma EntryExists(k: Kernel, w: World, p: Path, e: DirEntry)
    requires ListsAll(k) && e in Entries(k, w, p)
    ensures p + [e.name] in w.names && e.isDir == IsDir(w, p + [e.name])
  {
    var names := k.order(Children(w, p));
    var i :| 0 <= i < |Entries(k, w, p)| && Entries(k, w, p)[i] == e;
    assert e.name == names[i] && e.name in Children(w, p);
    var q :| q in w.names && |q| == |p| + 1 && q[..|p|] == p && q[|p|] == e.name;
    assert q == p + [e.name];
  }

  lemma EntryListed(k: Kernel, w: World, p: Path, n: Name) returns (i: nat)
    requires ListsAll(k) && p + [n] in w.names
    ensures i < |Entries(k, w, p)| && Entries(k, w, p)[i] == DirEntry(n, IsDir(w, p + [n]))
  {
    assert (p + [n])[..|p|] == p && (p + [n])[|p|] == n;
    assert n in Children(w, p);
    var names := k.order(Children(w, p));
    i :| 0 <= i < |names| && names[i] == n;
  }

  lemma {:induction false} ScriptComplete(k: Kernel, w: World, src: Path, rel: Path, depth: nat, q: Path)
    requires ListsAll(k) && Valid(w) && q in w.names && src + rel <= q
    ensures var s := Script(k, w, src, rel, IsDir(w, src + rel), depth);
      TooDeep in s || Visit(q[|src|..], IsDir(w, q)) in s
    decreases depth, 0
  {
    if depth != 0 {
      if q == src + rel {
        assert q[|src|..] == rel;
      } else {
        AncestorsAreDirs(w, q, src + rel);
        var n := q[|src + rel|];
        var child := src + rel + [n];
        assert child <= q;
        if child != q { AncestorsAreDirs(w, q, child); }
        var i := EntryListed(k, w, src + rel, n);
        ScriptEntriesComplete(k, w, src, rel, Entries(k, w, src + rel), depth - 1, i, q);
      }
    }
  }

  lemma {:induction false} ScriptEntriesComplete(k: Kernel, w: World, src: Path, rel: Path, entries: seq<DirEntry>, depth: nat, i: nat, q: Path)
    requires ListsAll(k) && Valid(w) && q in w.names
    requires i < |entries| && src + rel + [entries[i].name] <= q
    requires entries[i].isDir == IsDir(w, src + rel + [entries[i].name])
    ensures var s := ScriptEntries(k, w, src, rel, entries, depth);
      TooDeep in s || Visit(q[|src|..], IsDir(w, q)) in s
    decreases depth, |entries|
  {
    if i == 0 {
      assert src + rel + [entries[0].name] == src + (rel + [entries[0].name]);
      ScriptComplete(k, w, src, rel + [entries[0].name], depth, q);
    } else {
      ScriptEntriesComplete(k, w, src, rel, entries[1..], depth, i - 1, q);
    }
  }

  ghost predicate Shallow(w: World, src: Path, depth: nat) {
    forall q :: q in w.names && src <= q ==> |q| < |src| + depth
  }

  /** A walk that stays apart from its source ends: only a source deeper than the limit is cut. */
  lemma {:induction false} ScriptEnds(k: Kernel, w: World, src: Path, rel: Path, depth: nat)
    requires ListsAll(k) && src + rel in w.names
    requires Shallow(w, src, |rel| + depth)
    ensures TooDeep !in Script(k, w, src, rel, IsDir(w, src + rel), depth)
    decreases depth, 0
  {
    assert src <= src + rel;
    if IsDir(w, src + rel) {
      ScriptEntriesEnd(k, w, src, rel, Entries(k, w, src + rel), depth - 1);
    }
  }

  lemma {:induction false} ScriptEntriesEnd(k: Kernel, w: World, src: Path, rel: Path, entries: seq<DirEntry>, depth: nat)
    requires ListsAll(k)
    requires forall e :: e in entries ==> e in Entries(k, w, src + rel)
    requires Shallow(w, src, |rel| + 1 + depth)
    ensures TooDeep !in ScriptEntries(k, w, src, rel, entries, depth)
    decreases depth, |entries|
  {
    if entries != [] {
      var e := entries[0];
      EntryExists(k, w, src + rel, e);
      assert src + rel + [e.name] == src + (rel + [e.name]);
      ScriptEnds(k, w, src, rel + [e.name], depth);
      ScriptEntriesEnd(k, w, src, rel, entries[1..], depth);
    }
  }

  lemma {:induction false} RunOkVisitsAll(k: Kernel, w: World, src: Path, dst: Path, script: seq<Visit>, action: Action)
    requires Run(k, w, src, dst, script, action).st.Ok?
    ensures TooDeep !in script
    decreases |script|
  {
    hide Act, MkdirAll, Stat, ReadDir;
    if script != [] {
      RunOkVisitsAll(k, RunVisit(k, w, src, dst, script[0], action).w, src, dst, script[1..], action);
      assert script == [script[0]] + script[1..];
    }
  }

  // ---- what a hard-link walk keeps, wherever it stops ----

  /** w is a world the hard-link walk from w0 can be in. */
  ghost predicate PartlyLinked(w0: World, w: World, src: Path, tgt: Path) {
    && Valid(w)
    && w.inodes == w0.inodes && w.next == w0.next
    && (forall q :: q in w0.names && !(tgt <= q) ==> q in w.names && w.names[q] == w0.names[q])
    && (forall q :: q in w.names && q !in w0.names && !(tgt <= q) ==> q <= tgt && w.names[q] == Dir)
    && (forall q :: q in w.names && tgt <= q ==>
         (q in w0.names && w.names[q] == w0.names[q])
         || (Mirror(src, tgt, q) in w0.names && w.names[q] == w0.names[Mirror(src, tgt, q)]))
    && (forall q :: q in w0.names && q !in w.names && tgt <= q ==> IsFile(w0, Mirror(src, tgt, q)))
  }

  lemma PartlyLinkedKeepsSource(w0: World, w: World, src: Path, tgt: Path)
    requires PartlyLinked(w0, w, src, tgt) && Separate(w0, src, tgt)
    ensures SameSource(w0, w, src)
  {
    forall q | src <= q
      ensures (q in w0.names <==> q in w.names) && (q in w0.names ==> w.names[q] == w0.names[q])
    {
    }
  }

  /** A directory made on the way to the place of src + rel mirrors a source directory, or is above tgt. */
  lemma NewDirMirrors(w0: World, src: Path, tgt: Path, rel: Path, q: Path)
    requires Valid(w0) && src + rel in w0.names && q <= tgt + rel
    requires q != tgt + rel || IsDir(w0, src + rel)
    ensures !(tgt <= q) ==> q <= tgt
    ensures tgt <= q ==> IsDir(w0, Mirror(src, tgt, q))
  {
    assert tgt <= tgt + rel;
    if tgt <= q {
      assert q == (tgt + rel)[..|q|];
      assert q[|tgt|..] == rel[..|q| - |tgt|];
      assert Mirror(src, tgt, q) == (src + rel)[..|src| + |q| - |tgt|];
      if Mirror(src, tgt, q) != src + rel {
        AncestorsAreDirs(w0, src + rel, Mirror(src, tgt, q));
      }
    }
  }

  lemma DirsKeepPartlyLinked(w0: World, w: World, w': World, src: Path, tgt: Path, rel: Path)
    requires Valid(w0) && Valid(w') && PartlyLinked(w0, w, src, tgt)
    requires OnlyAddsDirs(w, w', tgt + rel) && IsDir(w0, src + rel)
    ensures PartlyLinked(w0, w', src, tgt)
  {
    forall q | q in w'.names && q !in w.names
      ensures !(tgt <= q) ==> q <= tgt
      ensures tgt <= q ==> IsDir(w0, Mirror(src, tgt, q))
    {
      NewDirMirrors(w0, src, tgt, rel, q);
    }
  }

  lemma LinkKeepsPartlyLinked(k: Kernel, w0: World, w: World, src: Path, tgt: Path, rel: Path)
    requires Valid(w0) && PartlyLinked(w0, w, src, tgt) && Separate(w0, src, tgt) && IsFile(w0, src + rel)
    ensures var r := HardlinkFile(k, w, src + rel, tgt + rel, Mode(w, src + rel));
      && PartlyLinked(w0, r.w, src, tgt)
      && (r.st.Ok? ==> Lookup(r.w, tgt + rel) == Lookup(w0, src + rel))
  {
    hide HardlinkFile;
    PartlyLinkedKeepsSource(w0, w, src, tgt);
    assert src <= src + rel && tgt <= tgt + rel;
    var r := HardlinkFile(k, w, src + rel, tgt + rel, Mode(w, src + rel));
    HardlinkFileEffect(k, w, src + rel, tgt + rel, Mode(w, src + rel));
    assert Mirror(src, tgt, tgt + rel) == src + rel;
    forall q | q in r.w.names && q !in w.names && q != tgt + rel
      ensures !(tgt <= q) ==> q <= tgt
      ensures tgt <= q ==> IsDir(w0, Mirror(src, tgt, q))
    {
      NewDirMirrors(w0, src, tgt, rel, q);
    }
  }

  ghost predicate Mirrored(w0: World, w: World, src: Path, tgt: Path, rel: Path) {
    Lookup(w, tgt + rel) == Lookup(w0, src + rel)
  }

  lemma CallsKeepPartlyLinked(w0: World, w: World, calls: nat, src: Path, tgt: Path)
    requires PartlyLinked(w0, w, src, tgt)
    ensures PartlyLinked(w0, w.(calls := calls), src, tgt)
  {
  }

  lemma LinkKeepsMirrored(k: Kernel, w0: World, w: World, src: Path, tgt: Path, at: Path, rel: Path)
    requires Valid(w0) && PartlyLinked(w0, w, src, tgt) && Separate(w0, src, tgt) && IsFile(w0, src + at) && src + rel in w0.names
    ensures var r := HardlinkFile(k, w, src + at, tgt + at, Mode(w, src + at));
      r.st.Ok? && (Mirrored(w0, w, src, tgt, rel) || at == rel) ==> Mirrored(w0, r.w, src, tgt, rel)
  {
    PartlyLinkedKeepsSource(w0, w, src, tgt);
    assert src <= src + at;
    LinkKeepsPartlyLinked(k, w0, w, src, tgt, at);
    HardlinkFileEffect(k, w, src + at, tgt + at, Mode(w, src + at));
    assert tgt + at == tgt + rel ==> at == (tgt + at)[|tgt|..] == rel;
  }

  lemma VisitDirKeepsPartlyLinked(k: Kernel, w0: World, w: World, src: Path, tgt: Path, at: Path, rel: Path)
    requires Valid(w0) && PartlyLinked(w0, w, src, tgt) && IsDir(w0, src + at) && src + rel in w0.names
    ensures var r := RunVisit(k, w, src, tgt, Visit(at, true), HardLink);
      && PartlyLinked(w0, r.w, src, tgt)
      && (r.st.Ok? && (Mirrored(w0, w, src, tgt, rel) || at == rel) ==> Mirrored(w0, r.w, src, tgt, rel))
  {
    hide PartlyLinked, MkdirAll;
    var info := w.(calls := w.calls + 1);
    var made := MkdirAll(k, info, tgt + at).w;
    CallsKeepPartlyLinked(w0, w, info.calls, src, tgt);
    MkdirAllAdds(k, info, tgt + at);
    DirsKeepPartlyLinked(w0, info, made, src, tgt, at);
    CallsKeepPartlyLinked(w0, made, made.calls + 1, src, tgt);
  }

  lemma VisitFileKeepsPartlyLinked(k: Kernel, w0: World, w: World, src: Path, tgt: Path, at: Path, rel: Path)
    requires Valid(w0) && PartlyLinked(w0, w, src, tgt) && Separate(w0, src, tgt) && IsFile(w0, src + at) && src + rel in w0.names
    ensures var r := RunVisit(k, w, src, tgt, Visit(at, false), HardLink);
      && PartlyLinked(w0, r.w, src, tgt)
      && (r.st.Ok? && (Mirrored(w0, w, src, tgt, rel) || at == rel) ==> Mirrored(w0, r.w, src, tgt, rel))
  {
    hide PartlyLinked, HardlinkFile;
    var info := w.(calls := w.calls + 1);
    CallsKeepPartlyLinked(w0, w, info.calls, src, tgt);
    LinkKeepsPartlyLinked(k, w0, info, src, tgt, at);
    LinkKeepsMirrored(k, w0, info, src, tgt, at, rel);
  }

  lemma {:induction false} RunKeepsPartlyLinked(k: Kernel, w0: World, w: World, src: Path, tgt: Path, script: seq<Visit>, rel: Path)
    requires Valid(w0) && PartlyLinked(w0, w, src, tgt) && Separate(w0, src, tgt)
    requires forall v :: v in script ==> Sound(w0, src, v)
    requires src + rel in w0.names
    ensures var r := Run(k, w, src, tgt, script, HardLink);
      && PartlyLinked(w0, r.w, src, tgt)
      && (r.st.Ok? && (Mirrored(w0, w, src, tgt, rel) || exists d :: Visit(rel, d) in script) ==> Mirrored(w0, r.w, src, tgt, rel))
    decreases |script|
  {
    if script != [] {
      assert Sound(w0, src, script[0]);
      if script[0].Visit? {
        if script[0].isDir {
          VisitDirKeepsPartlyLinked(k, w0, w, src, tgt, script[0].rel, rel);
        } else {
          VisitFileKeepsPartlyLinked(k, w0, w, src, tgt, script[0].rel, rel);
        }
      }
      var first := RunVisit(k, w, src, tgt, script[0], HardLink);
      if first.st.Ok? {
        RunKeepsPartlyLinked(k, w0, first.w, src, tgt, script[1..], rel);
      }
    }
  }

  // ---- main results ----

  lemma StartsPartlyLinked(k: Kernel, w: World, w1: World, src: Path, dst: Path)
    requires Valid(w) && src in w.names && OnlyAddsDirs(w, w1, dst) && Valid(w1)
    ensures PartlyLinked(w, w1, src, TargetRoot(w, src, dst))
  {
    var tgt := TargetRoot(w, src, dst);
    assert src + [] == src && dst + [] == dst;
    if IsFile(w, src) {
      assert dst <= tgt;
      forall q | q in w1.names && q !in w.names ensures q <= tgt && !(tgt <= q) { }
    } else {
      forall q | q in w1.names && q !in w.names && tgt <= q ensures Mirror(src, tgt, q) == src { }
    }
  }

  /** At whatever call the walk fails, no inode has changed and no name outside the target is lost;
      inside, every name leads where it did before or where its source does. */
  lemma HardLinkFolderSafe(k: Kernel, w: World, src: Path, dst: Path, rel: Path)
    requires Valid(w) && ListsAll(k) && Separate(w, src, TargetRoot(w, src, dst))
    ensures var r := HardLinkFolder(k, w, src, dst); var tgt := TargetRoot(w, src, dst);
      && Valid(r.w) && SameSource(w, r.w, src) && r.w.inodes == w.inodes
      && (src in w.names ==> PartlyLinked(w, r.w, src, tgt))
      && (r.st.Ok? ==> src in w.names)
      && (r.st.Ok? && src + rel in w.names ==> Mirrored(w, r.w, src, tgt, rel))
  {
    var r := HardLinkFolder(k, w, src, dst);
    var tgt := TargetRoot(w, src, dst);
    var stat := Stat(k, w, src);
    if stat.st.Ok? {
      var made := MkdirAll(k, stat.w, dst);
      MkdirAllAdds(k, stat.w, dst);
      StartsPartlyLinked(k, w, made.w, src, dst);
      PartlyLinkedKeepsSource(w, made.w, src, tgt);
      assert src + [] == src && tgt + [] == tgt;
      if made.st.Ok? {
        var there := if src + rel in w.names then rel else [];
        if IsFile(w, src) {
          LinkKeepsPartlyLinked(k, w, made.w, src, tgt, []);
          assert Mode(w, src) == Mode(made.w, src);
          if src + rel in w.names && rel != [] {
            AncestorsAreDirs(w, src + rel, src);
          }
        } else {
          var script := Script(k, w, src, [], true, k.maxDepth);
          WalkFollowsScript(k, w, made.w, src, dst, [], true, HardLink, k.maxDepth);
          forall v | v in script ensures Sound(w, src, v) {
            ScriptSound(k, w, src, [], k.maxDepth, v);
          }
          RunKeepsPartlyLinked(k, w, made.w, src, tgt, script, there);
          if r.st.Ok? && src + rel in w.names {
            RunOkVisitsAll(k, made.w, src, dst, script, HardLink);
            assert src + [] <= src + rel && (src + rel)[|src|..] == rel;
            ScriptComplete(k, w, src, [], k.maxDepth, src + rel);
          }
        }
      }
      PartlyLinkedKeepsSource(w, r.w, src, tgt);
    }
  }

  /** Where every path leads once src has been placed at tgt. */
  function Placed(w: World, src: Path, tgt: Path, q: Path): Option<Node> {
    if tgt <= q && Mirror(src, tgt, q) in w.names then Some(w.names[Mirror(src, tgt, q)])
    else if q in w.names then Some(w.names[q])
    else if q <= tgt then Some(Dir)
    else None
  }

  /** A successful HardLinkFolder: every source path, empty directories included, has its place in
      the target over the same inode, and nothing else in the world has changed. */
  lemma HardLinkFolderExact(k: Kernel, w: World, src: Path, dst: Path)
    requires Valid(w) && ListsAll(k) && Separate(w, src, TargetRoot(w, src, dst))
    ensures var r := HardLinkFolder(k, w, src, dst); r.st.Ok? ==>
      r.w.inodes == w.inodes && forall q :: Lookup(r.w, q) == Placed(w, src, TargetRoot(w, src, dst), q)
  {
    var r := HardLinkFolder(k, w, src, dst);
    var tgt := TargetRoot(w, src, dst);
    HardLinkFolderSafe(k, w, src, dst, []);
    if r.st.Ok? {
      assert src + [] == src && tgt + [] == tgt;
      forall q ensures Lookup(r.w, q) == Placed(w, src, tgt, q) {
        if tgt <= q {
          HardLinkFolderSafe(k, w, src, dst, q[|tgt|..]);
          assert tgt + q[|tgt|..] == q;
        } else if q !in w.names && q <= tgt {
          AncestorsAreDirs(r.w, tgt, q);
        }
      }
    }
  }

  /** With the source apart from the target the walk ends by itself: a source within the depth limit
      never runs into it. */
  lemma WalkFolderEnds(k: Kernel, w: World, src: Path, dst: Path, action: Action)
    requires Valid(w) && ListsAll(k) && Separate(w, src, TargetRoot(w, src, dst)) && Shallow(w, src, k.maxDepth)
    ensures WalkFolder(k, w, src, dst, action).st != Err(ENAMETOOLONG)
  {
    var stat := Stat(k, w, src);
    if stat.st.Ok? {
      MkdirAllAdds(k, stat.w, dst);
      var made := MkdirAll(k, stat.w, dst);
      MkdirAllNotTooLong(k, stat.w, dst);
      assert src + [] == src;
      if made.st.Ok? {
        if IsFile(w, src) {
          ActNotTooLong(k, made.w, action, src, dst + [Base(src)], Mode(w, src));
        } else {
          assert SameSource(w, made.w, src) by {
            forall q | src <= q ensures q in made.w.names && q !in w.names ==> false {
            }
          }
          WalkFollowsScript(k, w, made.w, src, dst, [], true, action, k.maxDepth);
          ScriptEnds(k, w, src, [], k.maxDepth);
          RunNotTooLong(k, made.w, src, dst, Script(k, w, src, [], true, k.maxDepth), action);
        }
      }
    }
  }

  lemma {:induction false} MkdirAllNotTooLong(k: Kernel, w: World, p: Path)
    ensures MkdirAll(k, w, p).st != Err(ENAMETOOLONG)
    decreases |p|
  {
    if p !in w.names && p != [] {
      MkdirAllNotTooLong(k, w, Parent(p));
    }
  }

  lemma ActNotTooLong(k: Kernel, w: World, action: Action, src: Path, dest: Path, mode: nat)
    ensures Act(k, w, action, src, dest, mode).st != Err(ENAMETOOLONG)
  {
    MkdirAllNotTooLong(k, w, Parent(dest));
  }

  lemma {:induction false} RunNotTooLong(k: Kernel, w: World, src: Path, dst: Path, script: seq<Visit>, action: Action)
    requires TooDeep !in script
    ensures Run(k, w, src, dst, script, action).st != Err(ENAMETOOLONG)
    decreases |script|
  {
    if script != [] {
      var v := script[0];
      var info := Stat(k, w, src + v.rel);
      MkdirAllNotTooLong(k, info.w, dst + v.rel);
      ActNotTooLong(k, info.w, action, src + v.rel, dst + v.rel, Mode(info.w, src + v.rel));
      var first := RunVisit(k, w, src, dst, v, action);
      if first.st.Ok? {
        RunNotTooLong(k, first.w, src, dst, script[1..], action);
      }
    }
  }
}
