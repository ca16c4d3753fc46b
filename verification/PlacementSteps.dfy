/** The system calls a successful folder operation has made for every path of the source
    (core/pkg/file_utils/hardlink.go): refusing one kind of them makes the operation fail. */
module PlacementSteps {
  import opened FileSystem
  import opened FolderWalk
  import opened HardLinking

  /** The calls that place one file, in order. */
  function Steps(action: Action): seq<Call> {
    match action
    case HardLink => [RemoveCall, LinkCall, ChmodCall]
    case Copy => [OpenCall, StatCall, CreateCall, WriteCall, SyncCall]
  }

  /** One after another, from the n-th call on, and none refused. */
  predicate MadeFrom(k: Kernel, n: nat, steps: seq<Call>) {
    forall i :: 0 <= i < |steps| ==> k.verdict(n + i, steps[i]).Allow?
  }

  ghost predicate Made(k: Kernel, steps: seq<Call>) {
    exists n :: MadeFrom(k, n, steps)
  }

  /** A file is placed only if every one of its calls was made and allowed. */
  lemma ActMakesSteps(k: Kernel, w: World, action: Action, src: Path, dest: Path, mode: nat)
    requires Act(k, w, action, src, dest, mode).st.Ok?
    ensures Made(k, Steps(action))
  {
    match action {
      case HardLink => HardlinkMakesSteps(k, w, src, dest, mode);
      case Copy => CopyMakesSteps(k, w, src, dest);
    }
  }

  lemma HardlinkMakesSteps(k: Kernel, w: World, src: Path, dest: Path, mode: nat)
    requires HardlinkFile(k, w, src, dest, mode).st.Ok?
    ensures Made(k, Steps(HardLink))
  {
    hide MkdirAll;
    var made := MkdirAll(k, w, Parent(dest)).w;
    var removed := Remove(k, made, dest).w;
    assert removed.calls == made.calls + 1;
    assert Link(k, removed, src, dest).w.calls == made.calls + 2;
    assert MadeFrom(k, made.calls, Steps(HardLink));
  }

  lemma CopyMakesSteps(k: Kernel, w: World, src: Path, dest: Path)
    requires CopyFile(k, w, src, dest).st.Ok?
    ensures MadeFrom(k, w.calls, Steps(Copy))
  {
    var stat := Stat(k, OpenRead(k, w, src).w, src);
    var created := OpenTrunc(k, stat.w, dest, Mode(stat.w, src));
    assert created.w.calls == w.calls + 3;
    var copied := CopyBytes(k, created.w, InoAt(stat.w, src), InoAt(created.w, dest));
    assert copied.w.calls == w.calls + 4;
  }

  /** A copy cut short after n bytes reports the error and leaves those bytes at the target. */
  lemma CutShortCopy(k: Kernel, w: World, src: Path, dest: Path, n: nat)
    requires Valid(w) && IsFile(w, src) && !IsDir(w, dest) && IsDir(w, Parent(dest))
    requires IsFile(w, dest) ==> w.names[dest].ino != w.names[src].ino
    requires MadeFrom(k, w.calls, Steps(Copy)[..3]) && k.verdict(w.calls + 3, WriteCall) == Refuse(n)
    ensures var r := CopyFile(k, w, src, dest); var data := Content(w, w.names[src].ino);
      r.st == Err(Refused) && IsFile(r.w, dest)
      && Content(r.w, r.w.names[dest].ino) == if n < |data| then data[..n] else data
  {
    var first := Steps(Copy)[..3];
    assert first[0] == OpenCall && first[1] == StatCall && first[2] == CreateCall;
    assert k.verdict(w.calls + 0, first[0]).Allow? && k.verdict(w.calls + 1, first[1]).Allow?;
    assert k.verdict(w.calls + 2, first[2]).Allow?;
    var stat := Stat(k, OpenRead(k, w, src).w, src);
    var created := OpenTrunc(k, stat.w, dest, Mode(stat.w, src));
    OpenTruncEffect(k, stat.w, dest, Mode(stat.w, src));
    assert created.w.calls == w.calls + 3;
    assert Content(created.w, w.names[src].ino) == Content(w, w.names[src].ino);
  }

  /** Likewise a visit: the entry's information is read, and a directory is listed. */
  lemma VisitMakesSteps(k: Kernel, w: World, src: Path, dst: Path, v: Visit, action: Action)
    requires v.Visit? && RunVisit(k, w, src, dst, v, action).st.Ok?
    ensures Made(k, [StatCall]) && Made(k, if v.isDir then [ReadDirCall] else Steps(action))
  {
    hide Act, MkdirAll, Made, Steps;
    assert Made(k, [StatCall]) by { MadeOne(k, w.calls, StatCall); }
    var info := Stat(k, w, src + v.rel).w;
    if v.isDir {
      MadeOne(k, MkdirAll(k, info, dst + v.rel).w.calls, ReadDirCall);
    } else {
      ActMakesSteps(k, info, action, src + v.rel, dst + v.rel, Mode(info, src + v.rel));
    }
  }

  lemma MadeOne(k: Kernel, n: nat, c: Call)
    requires k.verdict(n, c).Allow?
    ensures Made(k, [c])
  {
    assert MadeFrom(k, n, [c]);
  }

  lemma {:induction false} RunMakesSteps(k: Kernel, w: World, src: Path, dst: Path, script: seq<Visit>, action: Action, v: Visit)
    requires Run(k, w, src, dst, script, action).st.Ok? && v in script
    ensures v.Visit? && Made(k, [StatCall]) && Made(k, if v.isDir then [ReadDirCall] else Steps(action))
    decreases |script|
  {
    hide Made, Steps, Act, MkdirAll, ReadDir, Stat;
    if v == script[0] {
      VisitMakesSteps(k, w, src, dst, v, action);
    } else {
      assert script == [script[0]] + script[1..];
      RunMakesSteps(k, RunVisit(k, w, src, dst, script[0], action).w, src, dst, script[1..], action, v);
    }
  }

  /** A folder operation that succeeds has made, unrefused, all the calls of every file and the listing
      of every directory of its source. */
  lemma SuccessMakesSteps(k: Kernel, w: World, src: Path, dst: Path, action: Action, rel: Path)
    requires Valid(w) && ListsAll(k) && Separate(w, src, TargetRoot(w, src, dst)) && src + rel in w.names
    requires WalkFolder(k, w, src, dst, action).st.Ok?
    ensures Made(k, [StatCall]) && Made(k, if IsDir(w, src + rel) then [ReadDirCall] else Steps(action))
  {
    hide Made, Steps, Act, MkdirAll;
    assert Made(k, [StatCall]) by { MadeOne(k, w.calls, StatCall); }
    var stat := Stat(k, w, src);
    MkdirAllAdds(k, stat.w, dst);
    var made := MkdirAll(k, stat.w, dst);
    assert src + [] == src;
    assert src <= src + rel && (src + rel)[|src|..] == rel;
    if IsFile(w, src) {
      if rel != [] { AncestorsAreDirs(w, src + rel, src); }
      assert src + rel == src;
      ActMakesSteps(k, made.w, action, src, dst + [Base(src)], Mode(stat.w, src));
    } else {
      var script := Script(k, w, src, [], true, k.maxDepth);
      MkdirKeepsSource(k, w, made.w, src, dst);
      WalkFollowsScript(k, w, made.w, src, dst, [], true, action, k.maxDepth);
      RunOkVisitsAll(k, made.w, src, dst, script, action);
      ScriptComplete(k, w, src, [], k.maxDepth, src + rel);
      RunMakesSteps(k, made.w, src, dst, script, action, Visit(rel, IsDir(w, src + rel)));
    }
  }

  lemma MkdirKeepsSource(k: Kernel, w: World, w': World, src: Path, dst: Path)
    requires Separate(w, src, dst) && w' == MkdirAll(k, Stat(k, w, src).w, dst).w && Valid(w)
    ensures SameSource(w, w', src) && Separate(w', src, dst) && Valid(w')
  {
    var w0 := Stat(k, w, src).w;
    MkdirAllAdds(k, w0, dst);
    assert SameSource(w, w', src) by {
      forall q | src <= q ensures (q in w.names <==> q in w'.names) && (q in w.names ==> w'.names[q] == w.names[q]) { }
    }
    SeparateStays(w, w', src, dst);
  }

  lemma NeverMade(k: Kernel, steps: seq<Call>, c: Call)
    requires c in steps && forall n :: k.verdict(n, c).Refuse?
    ensures !Made(k, steps)
  {
    forall n: nat ensures !MadeFrom(k, n, steps) {
      var i :| 0 <= i < |steps| && steps[i] == c;
      assert k.verdict(n + i, c).Refuse?;
    }
  }

  /** So if one kind of call that places files is refused every time, the operation fails on every
      source with a file in it. */
  lemma RefusedStepFails(k: Kernel, w: World, src: Path, dst: Path, action: Action, c: Call, rel: Path)
    requires Valid(w) && ListsAll(k) && Separate(w, src, TargetRoot(w, src, dst)) && IsFile(w, src + rel)
    requires c in Steps(action) && forall n :: k.verdict(n, c).Refuse?
    ensures WalkFolder(k, w, src, dst, action).st.Err?
  {
    hide WalkFolder, Made;
    NeverMade(k, Steps(action), c);
    if WalkFolder(k, w, src, dst, action).st.Ok? {
      SuccessMakesSteps(k, w, src, dst, action, rel);
    }
  }

  /** A directory at a file's target is replaced exactly if it is empty. */
  lemma LinkOntoDirIff(k: Kernel, w: World, src: Path, dest: Path, mode: nat)
    requires Valid(w) && IsFile(w, src) && IsDir(w, dest) && dest != []
    requires forall n, c :: k.verdict(n, c).Allow?
    ensures var r := HardlinkFile(k, w, src, dest, mode);
      if Children(w, dest) == {} then r.st.Ok? && dest in r.w.names && r.w.names[dest] == w.names[src]
      else r == Result(Tick(w), Err(ENOTEMPTY))
  {
    assert IsDir(w, Parent(dest));
    assert MkdirAll(k, w, Parent(dest)) == Result(w, Ok);
    var removed := Remove(k, w, dest);
    assert Parent(dest) != dest;
  }

  /** A missing source is reported, and not even the target directory is made. */
  lemma MissingSource(k: Kernel, w: World, src: Path, dst: Path, action: Action)
    requires src !in w.names
    ensures var r := WalkFolder(k, w, src, dst, action);
      r.st.Err? && r.w.names == w.names && r.w.inodes == w.inodes
  {
  }
}
