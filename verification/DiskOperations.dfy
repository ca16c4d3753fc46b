/** hardlink.go as it is written: procedures that change one disk in place, with a loop over the
    entries of each directory. Every method does to the disk what the function of the same name in
    FileSystem, FolderWalk or Placement does to a world, call by call, so their theorems hold here. */
module DiskOperations {
  import opened FileSystem
  import opened FolderWalk
  import Placement

  class Disk {
    const kernel: Kernel
    var names: map<Path, Node>
    var inodes: map<Ino, Inode>
    var next: Ino
    var calls: nat

    function State(): World
      reads this
    {
      World(names, inodes, next, calls)
    }

    constructor (kernel: Kernel, w: World)
      ensures State() == w && this.kernel == kernel
    {
      this.kernel := kernel;
      names, inodes, next, calls := w.names, w.inodes, w.next, w.calls;
    }

    method NextVerdict(c: Call) returns (v: Verdict)
      modifies this`calls
      ensures v == kernel.verdict(old(calls), c) && calls == old(calls) + 1
    {
      v := kernel.verdict(calls, c);
      calls := calls + 1;
    }

    method Stat(p: Path) returns (st: Status)
      modifies this`calls
      ensures Result(State(), st) == FileSystem.Stat(kernel, old(State()), p)
    {
      var v := NextVerdict(StatCall);
      if v.Refuse? { return Err(Refused); }
      st := if p in names then Ok else Err(ENOENT);
    }

    method MkdirAll(p: Path) returns (st: Status)
      modifies this`calls, this`names
      ensures Result(State(), st) == FileSystem.MkdirAll(kernel, old(State()), p)
      decreases |p|
    {
      if p in names {
        return if names[p].Dir? then Ok else Err(ENOTDIR);
      }
      if p == [] { return Err(ENOENT); }
      st := MkdirAll(Parent(p));
      if st.Err? { return; }
      var v := NextVerdict(MkdirCall);
      if v.Refuse? { return Err(Refused); }
      if p in names { return Err(EEXIST); }
      if Parent(p) !in names || !names[Parent(p)].Dir? { return Err(ENOENT); }
      names := names[p := Dir];
    }

    method Remove(p: Path) returns (st: Status)
      modifies this`calls, this`names
      ensures Result(State(), st) == FileSystem.Remove(kernel, old(State()), p)
    {
      var v := NextVerdict(RemoveCall);
      if v.Refuse? { return Err(Refused); }
      if p !in names { return Err(ENOENT); }
      if names[p].Dir? && (p == [] || Children(State(), p) != {}) { return Err(ENOTEMPTY); }
      names := names - {p};
      st := Ok;
    }

    method Link(src: Path, dest: Path) returns (st: Status)
      modifies this`calls, this`names
      ensures Result(State(), st) == FileSystem.Link(kernel, old(State()), src, dest)
    {
      var v := NextVerdict(LinkCall);
      if v.Refuse? { return Err(Refused); }
      if src !in names || names[src].Dir? { return Err(ENOENT); }
      if dest in names { return Err(EEXIST); }
      if Parent(dest) !in names || !names[Parent(dest)].Dir? { return Err(ENOENT); }
      names := names[dest := names[src]];
      st := Ok;
    }

    method Chmod(p: Path, mode: nat) returns (st: Status)
      modifies this`calls, this`inodes
      ensures Result(State(), st) == FileSystem.Chmod(kernel, old(State()), p, mode)
    {
      var v := NextVerdict(ChmodCall);
      if v.Refuse? { return Err(Refused); }
      if p !in names { return Err(ENOENT); }
      if names[p].File? && names[p].ino in inodes {
        var i := names[p].ino;
        inodes := inodes[i := inodes[i].(mode := mode)];
      }
      st := Ok;
    }

    /** The entries of a directory, read when the walk gets there. */
    method ReadDir(p: Path) returns (st: Status, entries: seq<DirEntry>)
      modifies this`calls
      ensures Result(State(), st) == FileSystem.ReadDir(kernel, old(State()), p)
      ensures st.Ok? ==> entries == Entries(kernel, State(), p)
    {
      entries := [];
      var v := NextVerdict(ReadDirCall);
      if v.Refuse? { return Err(Refused), []; }
      if p !in names || !names[p].Dir? { return Err(ENOTDIR), []; }
      st := Ok;
      entries := Entries(kernel, State(), p);
    }

    method HardlinkFile(src: Path, dest: Path, mode: nat) returns (st: Status)
      modifies this
      ensures Result(State(), st) == FolderWalk.HardlinkFile(kernel, old(State()), src, dest, mode)
    {
      st := MkdirAll(Parent(dest));
      if st.Err? { return; }
      st := Remove(dest);
      if st.Err? && st.errno != ENOENT { return; }
      st := Link(src, dest);
      if st.Err? { return; }
      st := Chmod(dest, mode);
    }

    method OpenRead(p: Path) returns (st: Status, file: Ino)
      modifies this`calls
      ensures Result(State(), st) == FileSystem.OpenRead(kernel, old(State()), p)
      ensures st.Ok? ==> file == InoAt(State(), p)
    {
      file := 0;
      var v := NextVerdict(OpenCall);
      if v.Refuse? { return Err(Refused), 0; }
      if p !in names { return Err(ENOENT), 0; }
      if names[p].Dir? { return Err(EISDIR), 0; }
      st, file := Ok, names[p].ino;
    }

    method OpenTrunc(p: Path, mode: nat) returns (st: Status, file: Ino)
      modifies this
      ensures Result(State(), st) == FileSystem.OpenTrunc(kernel, old(State()), p, mode)
      ensures st.Ok? ==> file == InoAt(State(), p)
    {
      file := 0;
      var v := NextVerdict(CreateCall);
      if v.Refuse? { return Err(Refused), 0; }
      if p in names && names[p].Dir? { return Err(EISDIR), 0; }
      if p in names {
        file := names[p].ino;
        inodes := inodes[file := Inode([], if file in inodes then inodes[file].mode else mode)];
      } else {
        if Parent(p) !in names || !names[Parent(p)].Dir? { return Err(ENOENT), 0; }
        file := next;
        next := next + 1;
        inodes := inodes[file := Inode([], mode)];
        names := names[p := File(file)];
      }
      st := Ok;
    }

    method CopyBytes(from: Ino, to: Ino) returns (st: Status)
      modifies this`calls, this`inodes
      ensures Result(State(), st) == FileSystem.CopyBytes(kernel, old(State()), from, to)
    {
      var data := if from in inodes then inodes[from].content else [];
      var mode := if to in inodes then inodes[to].mode else 0;
      var v := NextVerdict(WriteCall);
      match v {
        case Refuse(n) =>
          data := if n < |data| then data[..n] else data;
          st := Err(Refused);
        case Allow =>
          st := Ok;
      }
      inodes := inodes[to := Inode(data, mode)];
    }

    method CopyFile(src: Path, dest: Path) returns (st: Status)
      modifies this
      ensures Result(State(), st) == FolderWalk.CopyFile(kernel, old(State()), src, dest)
    {
      var from, to;
      st, from := OpenRead(src);
      if st.Err? { return; }
      st := Stat(src);
      if st.Err? { return; }
      st, to := OpenTrunc(dest, Mode(State(), src));
      if st.Err? { return; }
      st := CopyBytes(from, to);
      if st.Err? { return; }
      var v := NextVerdict(SyncCall);
      st := if v.Refuse? then Err(Refused) else Ok;
    }

    method Act(action: Action, src: Path, dest: Path, mode: nat) returns (st: Status)
      modifies this
      ensures Result(State(), st) == FolderWalk.Act(kernel, old(State()), action, src, dest, mode)
    {
      match action {
        case HardLink => st := HardlinkFile(src, dest, mode);
        case Copy => st := CopyFile(src, dest);
      }
    }

    method WalkEntry(src: Path, dst: Path, rel: Path, isDir: bool, action: Action, depth: nat) returns (st: Status)
      modifies this
      ensures Result(State(), st) == FolderWalk.WalkEntry(kernel, old(State()), src, dst, rel, isDir, action, depth)
      decreases depth, 0
    {
      if depth == 0 { return Err(ENAMETOOLONG); }
      st := Stat(src + rel);
      if st.Err? { return; }
      if !isDir {
        st := Act(action, src + rel, dst + rel, Mode(State(), src + rel));
        return;
      }
      st := MkdirAll(dst + rel);
      if st.Err? { return; }
      var entries;
      st, entries := ReadDir(src + rel);
      if st.Err? { return; }
      st := WalkEntries(src, dst, rel, entries, action, depth - 1);
    }

    method WalkEntries(src: Path, dst: Path, rel: Path, entries: seq<DirEntry>, action: Action, depth: nat) returns (st: Status)
      modifies this
      ensures Result(State(), st) == FolderWalk.WalkEntries(kernel, old(State()), src, dst, rel, entries, action, depth)
      decreases depth, 1
    {
      for i := 0 to |entries|
        invariant FolderWalk.WalkEntries(kernel, old(State()), src, dst, rel, entries, action, depth)
               == FolderWalk.WalkEntries(kernel, State(), src, dst, rel, entries[i..], action, depth)
      {
        assert entries[i..][1..] == entries[i + 1..];
        st := WalkEntry(src, dst, rel + [entries[i].name], entries[i].isDir, action, depth);
        if st.Err? { return; }
      }
      st := Ok;
    }

    method WalkFolder(src: Path, dst: Path, action: Action) returns (st: Status)
      modifies this
      ensures Result(State(), st) == FolderWalk.WalkFolder(kernel, old(State()), src, dst, action)
    {
      st := Stat(src);
      if st.Err? { return; }
      var isFile := names[src].File?;
      var mode := Mode(State(), src);
      st := MkdirAll(dst);
      if st.Err? { return; }
      if isFile {
        st := Act(action, src, dst + [Base(src)], mode);
      } else {
        st := WalkEntry(src, dst, [], true, action, kernel.maxDepth);
      }
    }

    /** finalizeDownload: link, and on any error copy over the same target. The whole intent of the
        fallback is in the last two clauses. */
    method Finalize(src: Path, dst: Path) returns (st: Status)
      modifies this
      ensures Result(State(), st) == Placement.Finalize(kernel, old(State()), src, dst)
      ensures Valid(old(State())) && ListsAll(kernel) && Separate(old(State()), src, TargetRoot(old(State()), src, dst))
        && Placement.AliasFree(old(State()), src, TargetRoot(old(State()), src, dst))
        ==> SameSource(old(State()), State(), src)
      ensures Valid(old(State())) && ListsAll(kernel) && Separate(old(State()), src, TargetRoot(old(State()), src, dst))
        && Placement.AliasFree(old(State()), src, TargetRoot(old(State()), src, dst))
        ==> forall i :: Placement.SourceInode(old(State()), src, i) ==> Content(State(), i) in [Content(old(State()), i), []]
    {
      ghost var w := State();
      if Valid(w) && ListsAll(kernel) && Separate(w, src, TargetRoot(w, src, dst)) && Placement.AliasFree(w, src, TargetRoot(w, src, dst)) {
        Placement.FinalizeExact(kernel, w, src, dst);
      }
      st := WalkFolder(src, dst, HardLink);
      if st.Err? {
        st := WalkFolder(src, dst, Copy);
      }
    }
  }
}
