/** The two folder operations of core/pkg/file_utils/hardlink.go: one recursive walk, run either
    with the hard-link action or with the copy action. The walk reads the source directories as it
    goes. On a source apart from the target it does the same as a script fixed before it starts. */
module FolderWalk {
  import opened FileSystem

  datatype Action = HardLink | Copy

  datatype DirEntry = DirEntry(name: Name, isDir: bool)

  /** The parent directory is there and nothing is at dest any more. */
  function MakeRoom(k: Kernel, w: World, dest: Path): Result {
    var made := MkdirAll(k, w, Parent(dest));
    if made.st.Err? then made
    else
      var removed := Remove(k, made.w, dest);
      if removed.st.Err? && removed.st.errno != ENOENT then removed else Result(removed.w, Ok)
  }

  function HardlinkFile(k: Kernel, w: World, src: Path, dest: Path, mode: nat): Result {
    var room := MakeRoom(k, w, dest);
    if room.st.Err? then room
    else
      var linked := Link(k, room.w, src, dest);
      if linked.st.Err? then linked else Chmod(k, linked.w, dest, mode)
  }

  function CopyFile(k: Kernel, w: World, src: Path, dest: Path): Result {
    var opening := OpenRead(k, w, src);
    if opening.st.Err? then opening
    else
      var stat := Stat(k, opening.w, src);
      if stat.st.Err? then stat
      else
        var created := OpenTrunc(k, stat.w, dest, Mode(stat.w, src));
        if created.st.Err? then created
        else
          var copied := CopyBytes(k, created.w, InoAt(stat.w, src), InoAt(created.w, dest));
          if copied.st.Err? then copied else Sync(k, copied.w)
  }

  function InoAt(w: World, p: Path): Ino {
    if IsFile(w, p) then w.names[p].ino else 0
  }

  function Act(k: Kernel, w: World, action: Action, src: Path, dest: Path, mode: nat): Result {
    match action
    case HardLink => HardlinkFile(k, w, src, dest, mode)
    case Copy => CopyFile(k, w, src, dest)
  }

  function Entries(k: Kernel, w: World, p: Path): seq<DirEntry> {
    var names := k.order(Children(w, p));
    seq(|names|, i requires 0 <= i < |names| => DirEntry(names[i], IsDir(w, p + [names[i]])))
  }

  /** The callback of filepath.WalkDir at src + rel, then its descent. */
  function WalkEntry(k: Kernel, w: World, src: Path, dst: Path, rel: Path, isDir: bool,
                     action: Action, depth: nat): Result
    decreases depth, 0
  {
    if depth == 0 then Result(w, Err(ENAMETOOLONG))
    else
      var info := Stat(k, w, src + rel);
      if info.st.Err? then info
      else if !isDir then Act(k, info.w, action, src + rel, dst + rel, Mode(info.w, src + rel))
      else
        var made := MkdirAll(k, info.w, dst + rel);
        if made.st.Err? then made
        else
          var listed := ReadDir(k, made.w, src + rel);
          if listed.st.Err? then listed
          else WalkEntries(k, listed.w, src, dst, rel, Entries(k, listed.w, src + rel), action, depth - 1)
  }

  function WalkEntries(k: Kernel, w: World, src: Path, dst: Path, rel: Path, entries: seq<DirEntry>,
                       action: Action, depth: nat): Result
    decreases depth, |entries|
  {
    if entries == [] then Result(w, Ok)
    else
      var first := WalkEntry(k, w, src, dst, rel + [entries[0].name], entries[0].isDir, action, depth);
      if first.st.Err? then first
      else WalkEntries(k, first.w, src, dst, rel, entries[1..], action, depth)
  }

  function WalkFolder(k: Kernel, w: World, src: Path, dst: Path, action: Action): Result {
    var stat := Stat(k, w, src);
    if stat.st.Err? then stat
    else
      var made := MkdirAll(k, stat.w, dst);
      if made.st.Err? then made
      else if IsFile(stat.w, src) then Act(k, made.w, action, src, dst + [Base(src)], Mode(stat.w, src))
      else WalkEntry(k, made.w, src, dst, [], true, action, k.maxDepth)
  }

  function HardLinkFolder(k: Kernel, w: World, src: Path, dst: Path): Result {
    WalkFolder(k, w, src, dst, HardLink)
  }

  function CopyFolder(k: Kernel, w: World, src: Path, dst: Path): Result {
    WalkFolder(k, w, src, dst, Copy)
  }

  /** Where the walk puts the source root: a single file goes inside the target directory. */
  function TargetRoot(w: World, src: Path, dst: Path): Path {
    if IsFile(w, src) then dst + [Base(src)] else dst
  }

  // ---- the script ----

  datatype Visit = Visit(rel: Path, isDir: bool) | TooDeep

  function Script(k: Kernel, w: World, src: Path, rel: Path, isDir: bool, depth: nat): seq<Visit>
    decreases depth, 0
  {
    if depth == 0 then [TooDeep]
    else if !isDir then [Visit(rel, false)]
    else [Visit(rel, true)] + ScriptEntries(k, w, src, rel, Entries(k, w, src + rel), depth - 1)
  }

  function ScriptEntries(k: Kernel, w: World, src: Path, rel: Path, entries: seq<DirEntry>, depth: nat): seq<Visit>
    decreases depth, |entries|
  {
    if entries == [] then []
    else Script(k, w, src, rel + [entries[0].name], entries[0].isDir, depth)
         + ScriptEntries(k, w, src, rel, entries[1..], depth)
  }

  function RunVisit(k: Kernel, w: World, src: Path, dst: Path, v: Visit, action: Action): Result {
    match v
    case TooDeep => Result(w, Err(ENAMETOOLONG))
    case Visit(rel, isDir) =>
      var info := Stat(k, w, src + rel);
      if info.st.Err? then info
      else if !isDir then Act(k, info.w, action, src + rel, dst + rel, Mode(info.w, src + rel))
      else
        var made := MkdirAll(k, info.w, dst + rel);
        if made.st.Err? then made else ReadDir(k, made.w, src + rel)
  }

  function Run(k: Kernel, w: World, src: Path, dst: Path, script: seq<Visit>, action: Action): Result
    decreases |script|
  {
    if script == [] then Result(w, Ok)
    else
      var first := RunVisit(k, w, src, dst, script[0], action);
      if first.st.Err? then first else Run(k, first.w, src, dst, script[1..], action)
  }

  lemma VisitIsCall(k: Kernel, w: World, src: Path, tgt: Path, v: Visit, action: Action)
    requires v.Visit?
    ensures var r := RunVisit(k, w, src, tgt, v, action); var info := w.(calls := w.calls + 1);
      r.st.Ok? ==> if v.isDir
        then MkdirAll(k, info, tgt + v.rel).st.Ok? && r.w == Tick(MkdirAll(k, info, tgt + v.rel).w)
        else r == Act(k, info, action, src + v.rel, tgt + v.rel, Mode(info, src + v.rel))
  {
  }

  lemma {:induction false} RunAppend(k: Kernel, w: World, src: Path, dst: Path, a: seq<Visit>, b: seq<Visit>, action: Action)
    ensures Run(k, w, src, dst, a + b, action)
            == var r := Run(k, w, src, dst, a, action); if r.st.Err? then r else Run(k, r.w, src, dst, b, action)
    decreases |a|
  {
    if a == [] {
      assert a + b == b;
    } else {
      assert (a + b)[1..] == a[1..] + b;
      var first := RunVisit(k, w, src, dst, a[0], action);
      if first.st.Ok? {
        RunAppend(k, first.w, src, dst, a[1..], b, action);
      }
    }
  }

  // ---- source and target apart ----

  /** No target path of a source path lies in the source. The target may be above the source. */
  ghost predicate Separate(w: World, src: Path, dst: Path) {
    !(src <= dst) && forall rel :: src + rel in w.names ==> !(src <= dst + rel)
  }

  /** The names at and below src are the same in both worlds. */
  ghost predicate SameSource(w: World, w': World, src: Path) {
    forall q :: src <= q ==> (q in w.names <==> q in w'.names) && (q in w.names ==> w'.names[q] == w.names[q])
  }

  lemma SameEntries(k: Kernel, w: World, w': World, src: Path, p: Path)
    requires SameSource(w, w', src) && src <= p
    ensures Entries(k, w, p) == Entries(k, w', p)
  {
    assert Children(w, p) == Children(w', p) by {
      forall n ensures n in Children(w, p) <==> n in Children(w', p) {
        assert n in Children(w, p) ==> src <= p + [n] && (exists q :: q in w.names && |q| == |p| + 1 && q[..|p|] == p && q[|p|] == n && q == p + [n]);
        assert n in Children(w', p) ==> src <= p + [n] && (exists q :: q in w'.names && |q| == |p| + 1 && q[..|p|] == p && q[|p|] == n && q == p + [n]);
        assert p + [n] in w.names ==> (p + [n])[..|p|] == p && (p + [n])[|p|] == n;
        assert p + [n] in w'.names ==> (p + [n])[..|p|] == p && (p + [n])[|p|] == n;
      }
    }
    forall i | 0 <= i < |Entries(k, w, p)| ensures Entries(k, w, p)[i] == Entries(k, w', p)[i] {
      assert src <= p + [Entries(k, w, p)[i].name];
    }
  }

  /** Names can only change at dest, and new ones are directories above dest. */
  ghost predicate ChangesOnly(w: World, w': World, dest: Path) {
    && (forall q :: q in w.names && q != dest ==> q in w'.names && w'.names[q] == w.names[q])
    && (forall q :: q in w'.names && q !in w.names && q != dest ==> q <= dest && w'.names[q] == Dir)
  }

  lemma LinkEffect(k: Kernel, w: World, src: Path, dest: Path)
    requires Valid(w)
    ensures var r := Link(k, w, src, dest);
      && Valid(r.w) && r.w.inodes == w.inodes && r.w.next == w.next
      && (r.st.Ok? ==> IsFile(w, src) && dest !in w.names)
      && r.w.names == if r.st.Ok? then w.names[dest := w.names[src]] else w.names
  {
  }

  lemma ChmodEffect(k: Kernel, w: World, p: Path, mode: nat)
    requires Valid(w)
    ensures var r := Chmod(k, w, p, mode);
      && Valid(r.w) && r.w.names == w.names && r.w.next == w.next
      && (mode == Mode(w, p) ==> r.w.inodes == w.inodes)
      && (r.st.Ok? ==> p in w.names && (IsFile(w, p) ==> Mode(r.w, p) == mode))
      && (forall i :: Content(r.w, i) == Content(w, i))
  {
  }

  lemma MakeRoomEffect(k: Kernel, w: World, dest: Path)
    requires Valid(w)
    ensures var r := MakeRoom(k, w, dest);
      && Valid(r.w) && ChangesOnly(w, r.w, dest) && r.w.inodes == w.inodes && r.w.next == w.next
      && (dest in r.w.names ==> dest in w.names && r.w.names[dest] == w.names[dest])
      && (r.st.Ok? ==> dest !in r.w.names)
  {
    MkdirAllAdds(k, w, Parent(dest));
    RemoveEffect(k, MkdirAll(k, w, Parent(dest)).w, dest);
  }

  lemma HardlinkFileEffect(k: Kernel, w: World, src: Path, dest: Path, mode: nat)
    requires Valid(w) && src in w.names && src != dest
    ensures var r := HardlinkFile(k, w, src, dest, mode);
      && Valid(r.w) && ChangesOnly(w, r.w, dest)
      && r.w.next == w.next
      && (mode == Mode(w, src) ==> r.w.inodes == w.inodes)
      && (dest in r.w.names ==>
           ((dest in w.names && r.w.names[dest] == w.names[dest]) || (IsFile(w, src) && r.w.names[dest] == w.names[src])))
      && (r.st.Ok? ==> (IsFile(w, src) && dest in r.w.names && r.w.names[dest] == w.names[src]))
  {
    hide MakeRoom, Link, Chmod, Valid;
    MakeRoomEffect(k, w, dest);
    var room := MakeRoom(k, w, dest);
    LinkEffect(k, room.w, src, dest);
    var linked := Link(k, room.w, src, dest);
    ChmodEffect(k, linked.w, dest, mode);
  }

  lemma OpenTruncEffect(k: Kernel, w: World, p: Path, mode: nat)
    requires Valid(w)
    ensures var r := OpenTrunc(k, w, p, mode);
      && Valid(r.w) && w.next <= r.w.next
      && r.w.names == (if r.st.Ok? && p !in w.names then w.names[p := File(w.next)] else w.names)
      && (r.st.Err? ==> r.w.inodes == w.inodes)
      && (r.st.Ok? ==> (IsFile(r.w, p)
           && Content(r.w, r.w.names[p].ino) == []
           && r.w.names[p].ino in r.w.inodes
           && r.w.inodes[r.w.names[p].ino].mode == (if p in w.names then w.inodes[w.names[p].ino].mode else mode)
           && forall i :: i in w.inodes && r.w.names[p].ino != i ==> i in r.w.inodes && r.w.inodes[i] == w.inodes[i]))
  {
    var r := OpenTrunc(k, w, p, mode);
    if r.st.Ok? && p !in w.names {
      forall q {:trigger Parent(q)} | q in r.w.names && q != []
        ensures Parent(q) in r.w.names && r.w.names[Parent(q)] == Dir
      {
      }
    }
  }

  lemma CopyBytesEffect(k: Kernel, w: World, from: Ino, to: Ino)
    requires Valid(w) && to in w.inodes
    ensures var r := CopyBytes(k, w, from, to);
      && Valid(r.w) && r.w.names == w.names && r.w.next == w.next
      && (forall i :: i in w.inodes && i != to ==> i in r.w.inodes && r.w.inodes[i] == w.inodes[i])
      && to in r.w.inodes && r.w.inodes[to].mode == w.inodes[to].mode
      && (r.st.Ok? ==> Content(r.w, to) == Content(w, from))
      && (Content(w, from) == [] ==> Content(r.w, to) == [])
  {
  }

  lemma CopyFileEffect(k: Kernel, w: World, src: Path, dest: Path)
    requires Valid(w) && src != dest
    ensures var r := CopyFile(k, w, src, dest);
      && Valid(r.w) && w.next <= r.w.next
      && (r.w.names == w.names || (dest !in w.names && r.w.names == w.names[dest := File(w.next)]))
      && (forall i :: i in w.inodes && !(IsFile(w, dest) && w.names[dest].ino == i) ==> i in r.w.inodes && r.w.inodes[i] == w.inodes[i])
      && (dest in r.w.names ==> Mode(r.w, dest) == if dest in w.names then Mode(w, dest) else Mode(w, src))
      && (IsFile(w, src) && IsFile(w, dest) && w.names[src] == w.names[dest] ==>
           Content(r.w, w.names[src].ino) in [Content(w, w.names[src].ino), []])
      && (r.st.Ok? ==> (IsFile(w, src) && IsFile(r.w, dest)
           && Content(r.w, r.w.names[dest].ino)
              == if IsFile(w, dest) && w.names[dest].ino == w.names[src].ino then [] else Content(w, w.names[src].ino)))
  {
    hide OpenTrunc, CopyBytes;
    var reading := OpenRead(k, w, src);
    if reading.st.Ok? {
      var stat := Stat(k, reading.w, src);
      if stat.st.Ok? {
        OpenTruncEffect(k, stat.w, dest, Mode(stat.w, src));
        var created := OpenTrunc(k, stat.w, dest, Mode(stat.w, src));
        if created.st.Ok? {
          CopyBytesEffect(k, created.w, InoAt(stat.w, src), InoAt(created.w, dest));
        }
      }
    }
  }

  lemma ActKeepsSource(k: Kernel, w: World, action: Action, root: Path, src: Path, dest: Path)
    requires Valid(w) && src in w.names && !(root <= dest) && src != dest
    ensures var r := Act(k, w, action, src, dest, Mode(w, src)); Valid(r.w) && SameSource(w, r.w, root)
  {
    match action
    case HardLink => HardlinkFileEffect(k, w, src, dest, Mode(w, src));
    case Copy => CopyFileEffect(k, w, src, dest);
  }

  lemma SeparateStays(w: World, w': World, src: Path, dst: Path)
    requires Separate(w, src, dst) && SameSource(w, w', src)
    ensures Separate(w', src, dst)
  {
    forall rel | src + rel in w'.names ensures !(src <= dst + rel) {
      assert src <= src + rel && src + rel in w.names;
    }
  }

  /** What to look at to know: the target is not in the source, and if it is above the source, the
      source does not hold its own path from there once more. */
  lemma SeparateIff(w: World, src: Path, dst: Path)
    requires Valid(w) && src in w.names
    ensures Separate(w, src, dst) <==> !(src <= dst) && (dst <= src ==> src + src[|dst|..] !in w.names)
  {
    if Separate(w, src, dst) {
      if dst <= src { assert dst + src[|dst|..] == src; }
    } else if !(src <= dst) {
      var rel :| src + rel in w.names && src <= dst + rel;
      assert dst <= dst + rel;
      var above := src[|dst|..];
      assert dst + above == src && above <= rel by { assert above == (dst + rel)[..|src|][|dst|..]; }
      assert src + above == (src + rel)[..|src + above|];
      if above != rel { AncestorsAreDirs(w, src + rel, src + above); }
    }
  }

  lemma VisitKeepsSource(k: Kernel, w: World, src: Path, dst: Path, v: Visit, action: Action)
    requires Valid(w) && Separate(w, src, dst)
    ensures var r := RunVisit(k, w, src, dst, v, action); Valid(r.w) && SameSource(w, r.w, src)
  {
    if v.Visit? {
      var rel := v.rel;
      var info := Stat(k, w, src + rel);
      if info.st.Ok? {
        if v.isDir {
          MkdirAllAdds(k, info.w, dst + rel);
        } else {
          ActKeepsSource(k, info.w, action, src, src + rel, dst + rel);
        }
      }
    }
  }

  lemma {:induction false} RunKeepsSource(k: Kernel, w: World, src: Path, dst: Path, script: seq<Visit>, action: Action)
    requires Valid(w) && Separate(w, src, dst)
    ensures var r := Run(k, w, src, dst, script, action); Valid(r.w) && SameSource(w, r.w, src)
    decreases |script|
  {
    if script != [] {
      VisitKeepsSource(k, w, src, dst, script[0], action);
      var first := RunVisit(k, w, src, dst, script[0], action);
      if first.st.Ok? {
        RunKeepsSource(k, first.w, src, dst, script[1..], action);
      }
    }
  }

  /** The walk, which lists each source directory when it gets there, does what the script written
      down from an earlier world w0 says, as long as nothing touched the source since. */
  lemma {:induction false} WalkFollowsScript(k: Kernel, w0: World, w: World, src: Path, dst: Path, rel: Path, isDir: bool,
                                             action: Action, depth: nat)
    requires Valid(w) && Separate(w, src, dst) && SameSource(w0, w, src)
    requires isDir ==> IsDir(w0, src + rel)
    ensures WalkEntry(k, w, src, dst, rel, isDir, action, depth)
         == Run(k, w, src, dst, Script(k, w0, src, rel, isDir, depth), action)
    decreases depth, 0
  {
    hide Act, MkdirAll;
    if depth != 0 {
      var v := Visit(rel, isDir);
      var step := RunVisit(k, w, src, dst, v, action);
      VisitKeepsSource(k, w, src, dst, v, action);
      if !isDir {
        assert Script(k, w0, src, rel, isDir, depth) == [v];
        assert [v][1..] == [];
      } else {
        var entries := Entries(k, w0, src + rel);
        var rest := ScriptEntries(k, w0, src, rel, entries, depth - 1);
        assert ([v] + rest)[0] == v && ([v] + rest)[1..] == rest;
        if step.st.Ok? {
          assert src <= src + rel;
          SameEntries(k, w0, step.w, src, src + rel);
          EntriesFollowScript(k, w0, step.w, src, dst, rel, entries, action, depth - 1);
        }
      }
    }
  }

  lemma {:induction false} EntriesFollowScript(k: Kernel, w0: World, w: World, src: Path, dst: Path, rel: Path,
                                               entries: seq<DirEntry>, action: Action, depth: nat)
    requires Valid(w) && Separate(w, src, dst) && SameSource(w0, w, src)
    requires forall e :: e in entries && e.isDir ==> IsDir(w0, src + rel + [e.name])
    ensures WalkEntries(k, w, src, dst, rel, entries, action, depth)
         == Run(k, w, src, dst, ScriptEntries(k, w0, src, rel, entries, depth), action)
    decreases depth, |entries|
  {
    if entries != [] {
      var e := entries[0];
      assert src + rel + [e.name] == src + (rel + [e.name]);
      var first := Script(k, w0, src, rel + [e.name], e.isDir, depth);
      var rest := ScriptEntries(k, w0, src, rel, entries[1..], depth);
      WalkFollowsScript(k, w0, w, src, dst, rel + [e.name], e.isDir, action, depth);
      RunAppend(k, w, src, dst, first, rest, action);
      RunKeepsSource(k, w, src, dst, first, action);
      var r := Run(k, w, src, dst, first, action);
      if r.st.Ok? {
        EntriesFollowScript(k, w0, r.w, src, dst, rel, entries[1..], action, depth);
      }
    }
  }
}
