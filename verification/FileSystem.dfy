/** A POSIX-like file system: names lead to inodes, inodes hold the bytes, so two names can share
    one file. System calls are functions from one world to the next; a kernel decides which calls
    it refuses, so a statement about every kernel is a statement about every point of failure. */
module FileSystem {

  import opened ByteStrings

  type Name = string
  /** A cleaned absolute path, as its components; the root is []. */
  type Path = seq<Name>
  type Ino = nat

  datatype Node = Dir | File(ino: Ino)
  datatype Inode = Inode(content: Bytes, mode: nat)

  /** next is an inode number never used so far; calls numbers the system calls made so far. */
  datatype World = World(names: map<Path, Node>, inodes: map<Ino, Inode>, next: Ino, calls: nat)

  datatype Errno = ENOENT | EEXIST | ENOTDIR | EISDIR | ENOTEMPTY | ENAMETOOLONG | Refused
  datatype Status = Ok | Err(errno: Errno)
  datatype Result = Result(w: World, st: Status)

  datatype Call =
    StatCall | MkdirCall | RemoveCall | LinkCall | ChmodCall | ReadDirCall |
    OpenCall | CreateCall | WriteCall | SyncCall

  /** A refused write may have transferred some bytes first. */
  datatype Verdict = Allow | Refuse(written: nat)

  /** verdict: what happens to the n-th call; order: the order in which a directory's entries are
      listed; maxDepth: how deep below its root a walk can go before a path is too long. */
  datatype Kernel = Kernel(verdict: (nat, Call) -> Verdict, order: set<Name> -> seq<Name>, maxDepth: nat)

  ghost predicate ListsAll(k: Kernel) {
    forall s, n :: n in k.order(s) <==> n in s
  }

  function Parent(p: Path): Path {
    if p == [] then [] else p[..|p| - 1]
  }

  function Base(p: Path): Name {
    if p == [] then "/" else p[|p| - 1]
  }

  ghost predicate Valid(w: World) {
    && [] in w.names && w.names[[]] == Dir
    && (forall p {:trigger Parent(p)} :: p in w.names && p != [] ==> Parent(p) in w.names && w.names[Parent(p)] == Dir)
    && (forall p {:trigger w.names[p]} :: p in w.names && w.names[p].File? ==> w.names[p].ino in w.inodes)
    && (forall i :: i in w.inodes ==> i < w.next)
  }

  function Content(w: World, i: Ino): Bytes {
    if i in w.inodes then w.inodes[i].content else []
  }

  function Mode(w: World, p: Path): nat {
    if p in w.names && w.names[p].File? && w.names[p].ino in w.inodes
    then w.inodes[w.names[p].ino].mode else 0
  }

  predicate IsDir(w: World, p: Path) {
    p in w.names && w.names[p].Dir?
  }

  predicate IsFile(w: World, p: Path) {
    p in w.names && w.names[p].File?
  }

  function Children(w: World, p: Path): set<Name> {
    set q | q in w.names && |q| == |p| + 1 && q[..|p|] == p :: q[|p|]
  }

  // ---- system calls ----

  function Tick(w: World): World {
    w.(calls := w.calls + 1)
  }

  predicate Refuses(k: Kernel, w: World, c: Call) {
    k.verdict(w.calls, c).Refuse?
  }

  function Stat(k: Kernel, w: World, p: Path): Result {
    if Refuses(k, w, StatCall) then Result(Tick(w), Err(Refused))
    else Result(Tick(w), if p in w.names then Ok else Err(ENOENT))
  }

  function Mkdir(k: Kernel, w: World, p: Path): Result {
    if Refuses(k, w, MkdirCall) then Result(Tick(w), Err(Refused))
    else if p in w.names then Result(Tick(w), Err(EEXIST))
    else if !IsDir(w, Parent(p)) then Result(Tick(w), Err(ENOENT))
    else Result(Tick(w).(names := w.names[p := Dir]), Ok)
  }

  /** os.MkdirAll: an existing directory is fine, an existing file is not, missing ancestors are
      made first. */
  function MkdirAll(k: Kernel, w: World, p: Path): Result
    decreases |p|
  {
    if p in w.names then Result(w, if w.names[p].Dir? then Ok else Err(ENOTDIR))
    else if p == [] then Result(w, Err(ENOENT))
    else
      var up := MkdirAll(k, w, Parent(p));
      if up.st.Err? then up else Mkdir(k, up.w, p)
  }

  /** os.Remove: unlinks a file or an empty directory. The inode stays as long as it has a name. */
  function Remove(k: Kernel, w: World, p: Path): Result {
    if Refuses(k, w, RemoveCall) then Result(Tick(w), Err(Refused))
    else if p !in w.names then Result(Tick(w), Err(ENOENT))
    else if w.names[p].Dir? && (p == [] || Children(w, p) != {}) then Result(Tick(w), Err(ENOTEMPTY))
    else Result(Tick(w).(names := w.names - {p}), Ok)
  }

  function Link(k: Kernel, w: World, src: Path, dest: Path): Result {
    if Refuses(k, w, LinkCall) then Result(Tick(w), Err(Refused))
    else if !IsFile(w, src) then Result(Tick(w), Err(ENOENT))
    else if dest in w.names then Result(Tick(w), Err(EEXIST))
    else if !IsDir(w, Parent(dest)) then Result(Tick(w), Err(ENOENT))
    else Result(Tick(w).(names := w.names[dest := w.names[src]]), Ok)
  }

  function Chmod(k: Kernel, w: World, p: Path, mode: nat): Result {
    if Refuses(k, w, ChmodCall) then Result(Tick(w), Err(Refused))
    else if p !in w.names then Result(Tick(w), Err(ENOENT))
    else if IsFile(w, p) && w.names[p].ino in w.inodes then
      var i := w.names[p].ino;
      Result(Tick(w).(inodes := w.inodes[i := w.inodes[i].(mode := mode)]), Ok)
    else Result(Tick(w), Ok)
  }

  function ReadDir(k: Kernel, w: World, p: Path): Result {
    if Refuses(k, w, ReadDirCall) then Result(Tick(w), Err(Refused))
    else Result(Tick(w), if IsDir(w, p) then Ok else Err(ENOTDIR))
  }

  function OpenRead(k: Kernel, w: World, p: Path): Result {
    if Refuses(k, w, OpenCall) then Result(Tick(w), Err(Refused))
    else Result(Tick(w), if p !in w.names then Err(ENOENT) else if w.names[p].Dir? then Err(EISDIR) else Ok)
  }

  /** Open with O_RDWR|O_CREATE|O_TRUNC: an existing file loses its bytes, whoever else names it. */
  function OpenTrunc(k: Kernel, w: World, p: Path, mode: nat): Result {
    if Refuses(k, w, CreateCall) then Result(Tick(w), Err(Refused))
    else if IsDir(w, p) then Result(Tick(w), Err(EISDIR))
    else if IsFile(w, p) then
      var i := w.names[p].ino;
      var node := if i in w.inodes then w.inodes[i] else Inode([], mode);
      Result(Tick(w).(inodes := w.inodes[i := node.(content := [])]), Ok)
    else if !IsDir(w, Parent(p)) then Result(Tick(w), Err(ENOENT))
    else Result(World(w.names[p := File(w.next)], w.inodes[w.next := Inode([], mode)], w.next + 1, w.calls + 1), Ok)
  }

  /** Copies the bytes inode `from` holds now over the empty inode `to`. */
  function CopyBytes(k: Kernel, w: World, from: Ino, to: Ino): Result {
    var data := Content(w, from);
    var node := if to in w.inodes then w.inodes[to] else Inode([], 0);
    match k.verdict(w.calls, WriteCall)
    case Refuse(n) =>
      var part := if n < |data| then data[..n] else data;
      Result(Tick(w).(inodes := w.inodes[to := node.(content := part)]), Err(Refused))
    case Allow => Result(Tick(w).(inodes := w.inodes[to := node.(content := data)]), Ok)
  }

  function Sync(k: Kernel, w: World): Result {
    Result(Tick(w), if Refuses(k, w, SyncCall) then Err(Refused) else Ok)
  }

  // ---- what the calls keep ----

  /** Nothing is lost, and every new name is a directory on the way to t. */
  ghost predicate OnlyAddsDirs(w: World, w': World, t: Path) {
    && w'.inodes == w.inodes && w'.next == w.next
    && (forall q :: q in w.names ==> q in w'.names && w'.names[q] == w.names[q])
    && (forall q :: q in w'.names && q !in w.names ==> q <= t && w'.names[q] == Dir)
  }

  lemma {:induction false} MkdirAllAdds(k: Kernel, w: World, p: Path)
    requires Valid(w)
    ensures var r := MkdirAll(k, w, p);
      && Valid(r.w) && OnlyAddsDirs(w, r.w, p)
      && (r.st.Ok? ==> IsDir(r.w, p))
      && w.calls <= r.w.calls
    decreases |p|
  {
    if p !in w.names && p != [] {
      MkdirAllAdds(k, w, Parent(p));
      var up := MkdirAll(k, w, Parent(p));
      assert Parent(p) <= p;
    }
  }

  lemma RemoveEffect(k: Kernel, w: World, p: Path)
    requires Valid(w)
    ensures var r := Remove(k, w, p);
      && Valid(r.w) && r.w.inodes == w.inodes && r.w.next == w.next
      && r.w.names == (if r.st.Ok? then w.names - {p} else w.names)
      && (r.st == Err(ENOENT) ==> p !in w.names)
  {
    var r := Remove(k, w, p).w;
    if r.names != w.names {
      forall q {:trigger Parent(q)} | q in r.names && q != []
        ensures Parent(q) in r.names && r.names[Parent(q)] == Dir
      {
        assert Parent(q) == p ==> q[|p|] in Children(w, p);
      }
    }
  }

  /** In a valid world everything above an existing path is a directory. */
  lemma {:induction false} AncestorsAreDirs(w: World, p: Path, q: Path)
    requires Valid(w) && p in w.names && q <= p && q != p
    ensures IsDir(w, q)
    decreases |p|
  {
    if Parent(p) != q {
      AncestorsAreDirs(w, Parent(p), q);
    }
  }
}
