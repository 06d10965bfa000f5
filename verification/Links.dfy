/** A file system of directories, regular files and symbolic links, flat in its paths. Links
    are followed at the last component only. */
module Links {
  import opened Text

  type Path = string

  datatype Node = Dir | File(bytes: string) | Link(target: Path)

  type Files = map<Path, Node>

  /** Where following links from a path ends. */
  datatype End = Found(path: Path) | Missing(path: Path) | Loop

  function EndOf(fs: Files, p: Path, seen: set<Path>): (end: End)
    ensures end.Found? ==> end.path in fs && !fs[end.path].Link?
    ensures end.Missing? ==> end.path !in fs
    decreases fs.Keys - seen
  {
    if p !in fs then Missing(p)
    else if !fs[p].Link? then Found(p)
    else if p in seen then Loop
    else EndOf(fs, fs[p].target, seen + {p})
  }

  /** The paths visited on the way, the end included. */
  function Chain(fs: Files, p: Path, seen: set<Path>): (r: set<Path>)
    ensures p in r
    decreases fs.Keys - seen
  {
    if p in fs && fs[p].Link? && p !in seen then {p} + Chain(fs, fs[p].target, seen + {p}) else {p}
  }

  function Resolve(fs: Files, p: Path): End {
    EndOf(fs, p, {})
  }

  /** `Path::exists`: follows links. */
  predicate Exists(fs: Files, p: Path) {
    Resolve(fs, p).Found?
  }

  /** The two paths lead to the same file (`canonicalize` on both sides). */
  predicate PointsAt(fs: Files, link: Path, target: Option<Path>) {
    target.Some? && Exists(fs, link) && Exists(fs, target.value) && Resolve(fs, link) == Resolve(fs, target.value)
  }

  // ---------------------------------------------------------------- operations

  /** `create_dir_all` on a path whose parents are there. */
  function MakeDir(fs: Files, p: Path, ok: bool): Option<Files> {
    match Resolve(fs, p)
    case Found(q) => if fs[q].Dir? then Some(fs) else None
    case Missing(q) => if ok && q == p then Some(fs[p := Dir]) else None
    case Loop => None
  }

  /** `fs::write`: follows links, creating the file a dangling link leads to. */
  function WriteFile(fs: Files, p: Path, bytes: string, ok: bool): Option<Files> {
    if !ok then None
    else
      match Resolve(fs, p)
      case Found(q) => if fs[q].File? then Some(fs[q := File(bytes)]) else None
      case Missing(q) => Some(fs[q := File(bytes)])
      case Loop => None
  }

  /** `symlink`: refuses a path that is taken, by a dangling link too. */
  function MakeLink(fs: Files, target: Path, link: Path, ok: bool): Option<Files> {
    if ok && link !in fs then Some(fs[link := Link(target)]) else None
  }

  /** `remove_link`: removes a file or link without following it; absent is fine. */
  function RemoveLink(fs: Files, p: Path, ok: bool): Option<Files> {
    if p !in fs then Some(fs)
    else if ok && !fs[p].Dir? then Some(fs - {p})
    else None
  }

  // ---------------------------------------------------------------- what following sees

  lemma {:induction false} FoundOnChain(fs: Files, p: Path, seen: set<Path>)
    ensures EndOf(fs, p, seen).Found? ==> EndOf(fs, p, seen).path in Chain(fs, p, seen)
    ensures EndOf(fs, p, seen).Missing? ==> EndOf(fs, p, seen).path in Chain(fs, p, seen)
    ensures EndOf(fs, p, seen).Found? ==> forall x :: x in Chain(fs, p, seen) ==> x in fs
    decreases fs.Keys - seen
  {
    if p in fs && fs[p].Link? && p !in seen {
      FoundOnChain(fs, fs[p].target, seen + {p});
    }
  }

  /** Only the nodes on the chain matter. */
  lemma {:induction false} ChainFrame(fs: Files, other: Files, p: Path, seen: set<Path>)
    requires forall x :: x in Chain(fs, p, seen) ==> (x in fs <==> x in other) && (x in fs ==> fs[x] == other[x])
    ensures EndOf(other, p, seen) == EndOf(fs, p, seen) && Chain(other, p, seen) == Chain(fs, p, seen)
    decreases fs.Keys - seen
  {
    if p in fs && fs[p].Link? && p !in seen {
      ChainFrame(fs, other, fs[p].target, seen + {p});
    }
  }

  /** Having seen fewer paths can only remove loops. */
  lemma {:induction false} SeenLess(fs: Files, p: Path, few: set<Path>, many: set<Path>)
    requires few <= many && !EndOf(fs, p, many).Loop?
    ensures EndOf(fs, p, few) == EndOf(fs, p, many) && Chain(fs, p, few) == Chain(fs, p, many)
    decreases fs.Keys - many
  {
    if p in fs && fs[p].Link? {
      SeenLess(fs, fs[p].target, few + {p}, many + {p});
    }
  }

  /** Having seen a path that is not on the chain makes no difference. */
  lemma {:induction false} SeenOffChain(fs: Files, p: Path, seen: set<Path>, c: Path)
    requires c !in Chain(fs, p, seen)
    ensures EndOf(fs, p, seen + {c}) == EndOf(fs, p, seen) && Chain(fs, p, seen + {c}) == Chain(fs, p, seen)
    decreases fs.Keys - seen
  {
    if p in fs && fs[p].Link? && p !in seen {
      SeenOffChain(fs, fs[p].target, seen + {p}, c);
      assert seen + {p} + {c} == seen + {c} + {p};
    }
  }

  /** Every path on the way leads to the same end. */
  lemma {:induction false} ChainLeadsOn(fs: Files, p: Path, seen: set<Path>, x: Path)
    requires EndOf(fs, p, seen).Found? && x in Chain(fs, p, seen)
    ensures Resolve(fs, x) == EndOf(fs, p, seen)
    decreases fs.Keys - seen
  {
    if x == p {
      SeenLess(fs, p, {}, seen);
    } else {
      ChainLeadsOn(fs, fs[p].target, seen + {p}, x);
    }
  }

  /** A file appearing where there was nothing changes no chain, and only the ends that were
      missing there. */
  lemma {:induction false} FileAppears(fs: Files, q: Path, node: Node, p: Path, seen: set<Path>)
    requires q !in fs && !node.Link?
    ensures Chain(fs[q := node], p, seen) == Chain(fs, p, seen)
    ensures EndOf(fs[q := node], p, seen) == if EndOf(fs, p, seen) == Missing(q) then Found(q) else EndOf(fs, p, seen)
    decreases fs.Keys - seen
  {
    if p in fs && fs[p].Link? && p !in seen {
      FileAppears(fs, q, node, fs[p].target, seen + {p});
    }
  }

  /** Replacing a node by a file cuts chains short there. */
  lemma {:induction false} FileCutsChain(fs: Files, c: Path, bytes: string, p: Path, seen: set<Path>)
    requires c !in seen
    ensures Chain(fs[c := File(bytes)], p, seen) <= Chain(fs, p, seen)
    ensures c in Chain(fs, p, seen) ==> EndOf(fs[c := File(bytes)], p, seen) == Found(c)
    ensures c !in Chain(fs, p, seen) ==> EndOf(fs[c := File(bytes)], p, seen) == EndOf(fs, p, seen)
    decreases fs.Keys - seen
  {
    var other := fs[c := File(bytes)];
    if p != c && p in fs && fs[p].Link? && p !in seen {
      FileCutsChain(fs, c, bytes, fs[p].target, seen + {p});
    }
  }

  /** A fresh link to an existing file leads there. */
  lemma FreshLink(fs: Files, target: Path, link: Path)
    requires link !in fs && Exists(fs, target)
    ensures var other := fs[link := Link(target)];
            && Chain(other, target, {}) == Chain(fs, target, {}) && Resolve(other, target) == Resolve(fs, target)
            && Resolve(other, link) == Resolve(fs, target)
  {
    var other := fs[link := Link(target)];
    FoundOnChain(fs, target, {});
    ChainFrame(fs, other, target, {});
    SeenOffChain(other, target, {}, link);
    assert {} + {link} == {link};
  }
}
