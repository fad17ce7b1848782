/**
 * The file system as the site generator sees it: a read-only source tree (the
 * template directory, walked with `readdir`) and a writable output state of
 * directories and files, where every `mkdir`/`copyFile`/`writeFile` can fail.
 * `copyDir` is a recursive method proved against the functional `CopyDirSpec`.
 */
module FileTree {
  import opened Wrappers

  /** A path as its segments; `path.join(a, b)` is `a + [b]`. */
  type Path = seq<string>

  /** A node of a source tree as `readdir(..., { withFileTypes: true })` reports it. */
  datatype Node = File(content: string) | Dir(entries: seq<Entry>)
  datatype Entry = Entry(name: string, node: Node)

  /** The writable side: which directories and which files (with contents) exist. */
  datatype FsState = FsState(dirs: set<Path>, files: map<Path, string>)

  /** A state after an operation and whether the operation completed without throwing. */
  datatype Outcome = Outcome(st: FsState, ok: bool)

  /** The child named `name` of a directory node (`path.join(dir, name)` followed by a stat). */
  function Child(n: Node, name: string): (r: Option<Node>)
    ensures r.Some? ==> n.Dir? && exists i :: 0 <= i < |n.entries| && n.entries[i] == Entry(name, r.value)
    ensures r.None? ==> !n.Dir? || forall i :: 0 <= i < |n.entries| ==> n.entries[i].name != name
  {
    if n.File? then None else ChildAt(n.entries, name, 0)
  }

  function ChildAt(es: seq<Entry>, name: string, i: nat): (r: Option<Node>)
    requires i <= |es|
    ensures r.Some? ==> exists k :: i <= k < |es| && es[k] == Entry(name, r.value)
    ensures r.None? ==> forall k :: i <= k < |es| ==> es[k].name != name
    decreases |es| - i
  {
    if i == |es| then None
    else if es[i].name == name then Some(es[i].node)
    else ChildAt(es, name, i + 1)
  }

  /** Every proper-or-full non-empty prefix of `p`: what `mkdir(p, { recursive: true })` creates. */
  function Ancestors(p: Path): (r: set<Path>)
    ensures p != [] ==> p in r
    ensures forall q :: q in r ==> q <= p && q != []
  {
    var r := set i | 1 <= i <= |p| :: p[..i];
    assert p[..|p|] == p;
    assert p != [] ==> p[..|p|] in r;
    r
  }

  /** `fs.mkdir(p, { recursive: true })`; it fails exactly on the paths in `faulty`. */
  function MkdirSpec(st: FsState, p: Path, faulty: set<Path>): (r: Outcome)
    ensures r.ok <==> p !in faulty
    ensures r.st.files == st.files
    ensures r.ok ==> r.st.dirs == st.dirs + Ancestors(p)
    ensures !r.ok ==> r.st == st
  {
    if p in faulty then Outcome(st, false) else Outcome(st.(dirs := st.dirs + Ancestors(p)), true)
  }

  /** `fs.writeFile(p, c)` / `fs.copyFile(src, p)`; it fails exactly on the paths in `faulty`. */
  function WriteSpec(st: FsState, p: Path, c: string, faulty: set<Path>): (r: Outcome)
    ensures r.ok <==> p !in faulty
    ensures r.st.dirs == st.dirs
    ensures r.ok ==> r.st.files == st.files[p := c]
    ensures !r.ok ==> r.st == st
  {
    if p in faulty then Outcome(st, false) else Outcome(st.(files := st.files[p := c]), true)
  }

  /** `copyDir(src, dest)`: create `dest`, then copy the entries in `readdir` order, recursing
      into sub-directories and stopping at the first failure. A source that is a plain file
      makes `readdir` throw after `dest` was created. */
  function CopyDirSpec(n: Node, dest: Path, st: FsState, faulty: set<Path>): Outcome
    decreases n, 1
  {
    var made := MkdirSpec(st, dest, faulty);
    if !made.ok then made
    else match n
      case File(_) => Outcome(made.st, false)
      case Dir(es) => CopyEntriesSpec(es, 0, dest, made.st, faulty)
  }

  /** The loop of `copyDir` from entry `i` on. */
  function CopyEntriesSpec(es: seq<Entry>, i: nat, dest: Path, st: FsState, faulty: set<Path>): Outcome
    requires i <= |es|
    decreases Dir(es), 0, |es| - i
  {
    if i == |es| then Outcome(st, true)
    else
      var target := dest + [es[i].name];
      var step := match es[i].node
        case File(c) => WriteSpec(st, target, c, faulty)
        case Dir(_) => CopyDirSpec(es[i].node, target, st, faulty);
      if !step.ok then step else CopyEntriesSpec(es, i + 1, dest, step.st, faulty)
  }

  /** The files a complete copy of directory `n` to `at` leaves, later entries winning. */
  function TreeFiles(n: Node, at: Path): map<Path, string>
    decreases n, 1
  {
    match n
    case File(_) => map[]
    case Dir(es) => EntriesFiles(es, 0, at)
  }

  function EntriesFiles(es: seq<Entry>, i: nat, at: Path): map<Path, string>
    requires i <= |es|
    decreases Dir(es), 0, |es| - i
  {
    if i == |es| then map[]
    else
      var target := at + [es[i].name];
      var here := match es[i].node
        case File(c) => map[target := c]
        case Dir(_) => TreeFiles(es[i].node, target);
      here + EntriesFiles(es, i + 1, at)
  }

  /** Every file of a tree lies under the path the tree is placed at. */
  lemma {:induction false} TreeFilesBelow(n: Node, at: Path)
    ensures forall p :: p in TreeFiles(n, at) ==> at <= p
    decreases n, 1
  {
    if n.Dir? {
      EntriesFilesBelow(n.entries, 0, at);
    }
  }

  lemma {:induction false} EntriesFilesBelow(es: seq<Entry>, i: nat, at: Path)
    requires i <= |es|
    ensures forall p :: p in EntriesFiles(es, i, at) ==> at <= p
    decreases Dir(es), 0, |es| - i
  {
    if i < |es| {
      var target := at + [es[i].name];
      assert es[i] in es;
      if es[i].node.Dir? {
        TreeFilesBelow(es[i].node, target);
      }
      EntriesFilesBelow(es, i + 1, at);
      var here := match es[i].node
        case File(c) => map[target := c]
        case Dir(_) => TreeFiles(es[i].node, target);
      assert EntriesFiles(es, i, at) == here + EntriesFiles(es, i + 1, at);
      forall p | p in here ensures at <= p {
        assert target <= p;
        assert p[..|at|] == target[..|at|];
      }
    }
  }

  /** Map union, where the right operand wins, is associative. */
  lemma UnionAssociative<K, V>(a: map<K, V>, b: map<K, V>, c: map<K, V>)
    ensures (a + b) + c == a + (b + c)
  {
  }

  /** Outside `dest` nothing is removed or rewritten. */
  predicate KeptOutside(before: map<Path, string>, after: map<Path, string>, dest: Path) {
    && (forall p :: p in before ==> p in after)
    && (forall p :: p in after && !(dest <= p) ==> p in before && after[p] == before[p])
  }

  /** A completed copy adds exactly the source tree's files, at the same relative paths and
      with the same contents, on top of what was there. */
  lemma {:induction false} CopyDirComplete(n: Node, dest: Path, st: FsState, faulty: set<Path>)
    ensures CopyDirSpec(n, dest, st, faulty).ok ==>
              CopyDirSpec(n, dest, st, faulty).st.files == st.files + TreeFiles(n, dest)
    decreases n, 1
  {
    var made := MkdirSpec(st, dest, faulty);
    if made.ok && n.Dir? {
      CopyEntriesComplete(n.entries, 0, dest, made.st, faulty);
    }
  }

  lemma {:induction false} CopyEntriesComplete(es: seq<Entry>, i: nat, dest: Path, st: FsState, faulty: set<Path>)
    requires i <= |es|
    ensures CopyEntriesSpec(es, i, dest, st, faulty).ok ==>
              CopyEntriesSpec(es, i, dest, st, faulty).st.files == st.files + EntriesFiles(es, i, dest)
    decreases Dir(es), 0, |es| - i
  {
    if i < |es| {
      var target := dest + [es[i].name];
      var step := match es[i].node
        case File(c) => WriteSpec(st, target, c, faulty)
        case Dir(_) => CopyDirSpec(es[i].node, target, st, faulty);
      var here := match es[i].node
        case File(c) => map[target := c]
        case Dir(_) => TreeFiles(es[i].node, target);
      if step.ok {
        if es[i].node.Dir? {
          CopyDirComplete(es[i].node, target, st, faulty);
        }
        assert step.st.files == st.files + here;
        CopyEntriesComplete(es, i + 1, dest, step.st, faulty);
        var rest := EntriesFiles(es, i + 1, dest);
        UnionAssociative(st.files, here, rest);
      }
    }
  }

  /** Whether it completes or not, a copy to `dest` touches no file outside `dest`. */
  lemma {:induction false} CopyDirStaysInside(n: Node, dest: Path, st: FsState, faulty: set<Path>)
    ensures KeptOutside(st.files, CopyDirSpec(n, dest, st, faulty).st.files, dest)
    decreases n, 1
  {
    var made := MkdirSpec(st, dest, faulty);
    if made.ok && n.Dir? {
      CopyEntriesStayInside(n.entries, 0, dest, made.st, faulty);
    }
  }

  lemma {:induction false} CopyEntriesStayInside(es: seq<Entry>, i: nat, dest: Path, st: FsState, faulty: set<Path>)
    requires i <= |es|
    ensures KeptOutside(st.files, CopyEntriesSpec(es, i, dest, st, faulty).st.files, dest)
    decreases Dir(es), 0, |es| - i
  {
    if i < |es| {
      var target := dest + [es[i].name];
      assert dest <= target;
      var step := match es[i].node
        case File(c) => WriteSpec(st, target, c, faulty)
        case Dir(_) => CopyDirSpec(es[i].node, target, st, faulty);
      if es[i].node.Dir? {
        CopyDirStaysInside(es[i].node, target, st, faulty);
      }
      assert KeptOutside(st.files, step.st.files, dest) by {
        forall p | p in step.st.files && !(dest <= p)
          ensures p in st.files && step.st.files[p] == st.files[p]
        {
          assert !(target <= p);
        }
      }
      if step.ok {
        CopyEntriesStayInside(es, i + 1, dest, step.st, faulty);
      }
    }
  }

  /** No path at or below `dest` fails. */
  predicate NoFaultsBelow(dest: Path, faulty: set<Path>) {
    forall p :: p in faulty ==> !(dest <= p)
  }

  /** Without faults below `dest`, a copy completes exactly when the source is a directory. */
  lemma {:induction false} CopyDirSucceedsWithoutFaults(n: Node, dest: Path, st: FsState, faulty: set<Path>)
    requires NoFaultsBelow(dest, faulty)
    ensures CopyDirSpec(n, dest, st, faulty).ok <==> n.Dir?
    decreases n, 1
  {
    assert dest !in faulty;
    if n.Dir? {
      CopyEntriesSucceedWithoutFaults(n.entries, 0, dest, MkdirSpec(st, dest, faulty).st, faulty);
    }
  }

  lemma {:induction false} CopyEntriesSucceedWithoutFaults(es: seq<Entry>, i: nat, dest: Path, st: FsState, faulty: set<Path>)
    requires i <= |es| && NoFaultsBelow(dest, faulty)
    ensures CopyEntriesSpec(es, i, dest, st, faulty).ok
    decreases Dir(es), 0, |es| - i
  {
    if i < |es| {
      var target := dest + [es[i].name];
      assert dest <= target;
      var step := match es[i].node
        case File(c) => WriteSpec(st, target, c, faulty)
        case Dir(_) => CopyDirSpec(es[i].node, target, st, faulty);
      if es[i].node.Dir? {
        CopyDirSucceedsWithoutFaults(es[i].node, target, st, faulty);
      }
      CopyEntriesSucceedWithoutFaults(es, i + 1, dest, step.st, faulty);
    }
  }

  /** The writable file system the generator works on. */
  class FileSystem {
    var dirs: set<Path>
    var files: map<Path, string>
    /** The paths where a write or a `mkdir` throws (permissions, disk full, a clash). */
    const faulty: set<Path>

    function State(): FsState
      reads this
    {
      FsState(dirs, files)
    }

    constructor (dirs: set<Path>, files: map<Path, string>, faulty: set<Path>)
      ensures State() == FsState(dirs, files) && this.faulty == faulty
    {
      this.dirs := dirs;
      this.files := files;
      this.faulty := faulty;
    }

    method Mkdir(p: Path) returns (ok: bool)
      modifies this
      ensures Outcome(State(), ok) == MkdirSpec(old(State()), p, faulty)
    {
      ok := p !in faulty;
      if ok {
        dirs := dirs + Ancestors(p);
      }
    }

    method WriteFile(p: Path, content: string) returns (ok: bool)
      modifies this
      ensures Outcome(State(), ok) == WriteSpec(old(State()), p, content, faulty)
    {
      ok := p !in faulty;
      if ok {
        files := files[p := content];
      }
    }

    /** `copyDir(src, dest)` */
    method CopyDir(src: Node, dest: Path) returns (ok: bool)
      modifies this
      ensures Outcome(State(), ok) == CopyDirSpec(src, dest, old(State()), faulty)
      decreases src
    {
      ok := Mkdir(dest);
      if !ok {
        return;
      }
      if src.File? {
        return false;  // readdir on a plain file throws
      }
      var es := src.entries;
      ghost var made := State();
      var i := 0;
      while i < |es|
        invariant 0 <= i <= |es|
        invariant CopyEntriesSpec(es, 0, dest, made, faulty) == CopyEntriesSpec(es, i, dest, State(), faulty)
      {
        var target := dest + [es[i].name];
        match es[i].node {
          case File(c) =>
            ok := WriteFile(target, c);
          case Dir(_) =>
            ok := CopyDir(es[i].node, target);
        }
        if !ok {
          return;
        }
        i := i + 1;
      }
      ok := true;
    }
  }
}
