/** Checkpoint pages in physical memory, as values.

    A page is 512 words; on a leaf they are data, on a table they are addresses of
    lower pages. `At` follows a path of offsets from a root, and because a leaf's words
    are addressed like a table's entries, one more digit reads a stored word.

    `roots` maps every readable checkpoint to its root, and the pseudo timestamp
    `CURRENT` to the newest tree, the one a build is working on. The page lifetimes
    recorded for garbage collection then read the same way for all of them. */
module CheckpointHeap {
  import opened Types
  import opened Radix

  /** Contents plus the lifetime record of kern/sivfs_checkpoints.h. */
  datatype Page = Page(mem: seq<nat>, start: Ts, obs: Ts, level: nat, isZero: bool)

  type Heap = map<nat, Page>

  // Later than every real checkpoint, earlier than the obsoleted_ts of a live page.
  const CURRENT: Ts := 0xFFFF_FFFF_FFFF_FFFE

  /** `zeros` are the shared zero pages by level. `home` is history: the path a page was
      created for. `bound` is the newest timestamp any lifetime mentions. */
  datatype Store = Store(h: Heap, zeros: seq<nat>, home: map<nat, seq<nat>>, roots: map<Ts, nat>, bound: Ts)

  function Child(h: Heap, pa: nat, d: nat): nat {
    if pa in h && d < |h[pa].mem| then h[pa].mem[d] else 0
  }

  function At(h: Heap, root: nat, path: seq<nat>): nat
    decreases |path|
  {
    if path == [] then root else Child(h, At(h, root, path[..|path| - 1]), path[|path| - 1])
  }

  /** What `q` leads to in the tree of checkpoint `v`. */
  function Read(s: Store, v: Ts, q: seq<nat>): nat
    requires v in s.roots
  {
    At(s.h, s.roots[v], q)
  }

  ghost predicate Path(path: seq<nat>, len: nat) {
    |path| <= len && forall i :: 0 <= i < |path| ==> path[i] < CHILDREN
  }

  predicate LiveAt(p: Page, v: Ts) {
    p.start <= v < p.obs
  }

  predicate Real(h: Heap, p: nat) {
    p in h && !h[p].isZero
  }

  /** The entry a fresh table of this level is filled with. */
  function ZeroFill(zeros: seq<nat>, level: nat): nat
    requires |zeros| == FOFFSET_LEVELS
  {
    if 1 <= level <= FOFFSET_LEVELS then zeros[level - 1] else 0
  }

  function ZeroMem(zeros: seq<nat>, level: nat): seq<nat>
    requires |zeros| == FOFFSET_LEVELS
  {
    seq(CHILDREN, _ => ZeroFill(zeros, level))
  }

  ghost predicate ZeroPagesOk(h: Heap, zeros: seq<nat>) {
    && |zeros| == FOFFSET_LEVELS
    && forall l :: 0 <= l < |zeros| ==>
         zeros[l] in h && h[zeros[l]].isZero && h[zeros[l]].level == l && h[zeros[l]].mem == ZeroMem(zeros, l)
  }

  ghost predicate PageOk(s: Store, p: nat)
    requires p in s.h
  {
    && |s.h[p].mem| == CHILDREN && s.h[p].level <= DEPTH
    && (s.h[p].isZero ==> p in s.zeros)
    && (!s.h[p].isZero ==>
          && p in s.home && |s.home[p]| == DEPTH - s.h[p].level && Path(s.home[p], DEPTH)
          && s.h[p].start <= s.bound
          && (s.h[p].obs <= s.bound || s.h[p].obs == INVALID_TS))
  }

  /** A table entry is empty, a shared zero page, or a page that belongs in exactly this
      slot and lives at least as long as the table. */
  ghost predicate ChildOk(s: Store, p: nat, d: nat)
    requires p in s.h && |s.h[p].mem| == CHILDREN && d < CHILDREN && p in s.home
    requires |s.zeros| == FOFFSET_LEVELS && s.h[p].level > 0
  {
    var c := s.h[p].mem[d];
    || c == 0
    || (s.h[p].level <= FOFFSET_LEVELS && c == s.zeros[s.h[p].level - 1])
    || (&& Real(s.h, c) && s.h[c].level == s.h[p].level - 1
        && c in s.home && s.home[c] == s.home[p] + [d]
        && s.h[c].start <= s.h[p].start && s.h[p].obs <= s.h[c].obs)
  }

  ghost predicate Kept(p: Page, versions: set<Ts>) {
    exists v :: v in versions && LiveAt(p, v)
  }

  ghost predicate RootOk(s: Store, v: Ts)
    requires v in s.roots
  {
    var r := s.roots[v];
    || r == 0
    || (Real(s.h, r) && r in s.home && s.home[r] == [] && s.h[r].level == DEPTH && LiveAt(s.h[r], v))
  }

  ghost predicate LinksOk(s: Store, p: nat)
    requires p in s.h && |s.h[p].mem| == CHILDREN && p in s.home
    requires |s.zeros| == FOFFSET_LEVELS
  {
    s.h[p].level > 0 ==> forall d :: 0 <= d < CHILDREN ==> ChildOk(s, p, d)
  }

  ghost predicate Wf(s: Store) {
    && s.bound < CURRENT && CURRENT in s.roots
    && 0 !in s.h && ZeroPagesOk(s.h, s.zeros)
    && (forall p {:trigger PageOk(s, p)} :: p in s.h ==> PageOk(s, p))
    && (forall p {:trigger LinksOk(s, p)} ::
          Real(s.h, p) && Kept(s.h[p], s.roots.Keys) ==> PageOk(s, p) && LinksOk(s, p))
    && (forall v {:trigger RootOk(s, v)} :: v in s.roots ==> (v == CURRENT || v <= s.bound) && RootOk(s, v))
  }

  /** Every page is found at its home in every tree of its lifetime. */
  ghost predicate Placed(s: Store) {
    forall v, p {:trigger Read(s, v, s.home[p])} ::
      v in s.roots && Real(s.h, p) && p in s.home && LiveAt(s.h[p], v) ==> Read(s, v, s.home[p]) == p
  }

  ghost predicate Inv(s: Store) {
    Wf(s) && Placed(s)
  }

  ghost predicate ZeroAt(s: Store, p: nat, level: nat) {
    p in s.zeros && p in s.h && s.h[p].isZero && s.h[p].level == level && level < FOFFSET_LEVELS
  }

  ghost predicate HomeAt(s: Store, p: nat, v: Ts, path: seq<nat>)
    requires |path| <= DEPTH
  {
    Real(s.h, p) && p in s.home && s.home[p] == path && s.h[p].level == DEPTH - |path| && LiveAt(s.h[p], v)
  }

  /** What a path can lead to: nothing, a zero page of the right level, or the one page
      whose home it is, alive at that checkpoint. */
  lemma {:induction false} OnPath(s: Store, v: Ts, path: seq<nat>)
    requires Wf(s) && v in s.roots && Path(path, DEPTH)
    ensures var p := At(s.h, s.roots[v], path);
      p == 0 || ZeroAt(s, p, DEPTH - |path|) || HomeAt(s, p, v, path)
    decreases |path|
  {
    assert RootOk(s, v);
    if path != [] {
      var n := |path| - 1;
      OnPath(s, v, path[..n]);
      var q := At(s.h, s.roots[v], path[..n]);
      var c := At(s.h, s.roots[v], path);
      assert c == Child(s.h, q, path[n]);
      assert path == path[..n] + [path[n]];
      if q == 0 {
        assert c == 0;
      } else if ZeroAt(s, q, DEPTH - n) {
        var l :| 0 <= l < |s.zeros| && s.zeros[l] == q;
        assert PageOk(s, q);
        assert s.h[q].mem == ZeroMem(s.zeros, l);
      } else {
        assert PageOk(s, q);
        assert Kept(s.h[q], s.roots.Keys);
        assert LinksOk(s, q);
        assert ChildOk(s, q, path[n]);
      }
    }
  }

  /** Exact lifetimes: a page is reachable from a checkpoint exactly when its recorded
      lifetime covers that checkpoint. */
  lemma LifetimeIsReachability(s: Store, v: Ts, p: nat)
    requires Inv(s) && v in s.roots && Real(s.h, p)
    ensures LiveAt(s.h[p], v) <==> exists path :: Path(path, DEPTH) && At(s.h, s.roots[v], path) == p
  {
    assert PageOk(s, p);
    if LiveAt(s.h[p], v) {
      assert Path(s.home[p], DEPTH) && Read(s, v, s.home[p]) == p;
    }
    if path :| Path(path, DEPTH) && At(s.h, s.roots[v], path) == p {
      OnPath(s, v, path);
    }
  }

  /** Memory changes that do not touch the pages of a tree leave it as it was. */
  lemma {:induction false} AtFrame(s: Store, h': Heap, v: Ts, path: seq<nat>)
    requires Wf(s) && v in s.roots && Path(path, WORD_DEPTH)
    requires 0 !in h'
    requires forall p :: p in s.h && (s.h[p].isZero || LiveAt(s.h[p], v)) ==> p in h' && h'[p].mem == s.h[p].mem
    ensures At(h', s.roots[v], path) == At(s.h, s.roots[v], path)
    decreases |path|
  {
    if path != [] {
      var n := |path| - 1;
      AtFrame(s, h', v, path[..n]);
      OnPath(s, v, path[..n]);
    }
  }

  // ---------------------------------------------------------------- path copying

  /** The page table whose slot leads to `path`. */
  function ParentAt(s: Store, path: seq<nat>): nat
    requires CURRENT in s.roots && path != []
  {
    At(s.h, s.roots[CURRENT], path[..|path| - 1])
  }

  /** Ready to give the newest tree a private page at `path`: the table above is already
      private to checkpoint `s.bound`, what is there now is not, and `np` is unused. */
  ghost predicate CowReady(s: Store, path: seq<nat>, np: nat) {
    && Inv(s) && Path(path, DEPTH) && np !in s.h && np != 0
    && (forall v :: v in s.roots && v != CURRENT ==> v < s.bound)
    && (path != [] ==> var par := ParentAt(s, path); Real(s.h, par) && s.h[par].start == s.bound)
    && var prev := At(s.h, s.roots[CURRENT], path);
    Real(s.h, prev) ==> s.h[prev].start < s.bound
  }

  /** Copy (or create) the page at `path`, obsolete what it replaces, and hang the copy in
      the newest tree. */
  function Cow(s: Store, path: seq<nat>, np: nat): Store
    requires CURRENT in s.roots && |s.zeros| == FOFFSET_LEVELS && |path| <= DEPTH && np !in s.h
    requires path != [] ==>
      var par := ParentAt(s, path); par in s.h && path[|path| - 1] < |s.h[par].mem|
  {
    var prev := At(s.h, s.roots[CURRENT], path);
    var level := DEPTH - |path|;
    var mem := if prev in s.h then s.h[prev].mem else ZeroMem(s.zeros, level);
    var h1 := s.h[np := Page(mem, s.bound, INVALID_TS, level, false)];
    var h2 := if Real(s.h, prev) then h1[prev := h1[prev].(obs := s.bound)] else h1;
    if path == [] then
      s.(h := h2, home := s.home[np := path], roots := s.roots[CURRENT := np])
    else
      var par := ParentAt(s, path);
      s.(h := h2[par := h2[par].(mem := h2[par].mem[path[|path| - 1] := np])],
         home := s.home[np := path])
  }

  lemma CowReadyFacts(s: Store, path: seq<nat>, np: nat)
    requires CowReady(s, path, np)
    ensures path != [] ==>
      var par := ParentAt(s, path); HomeAt(s, par, CURRENT, path[..|path| - 1]) && |s.h[par].mem| == CHILDREN
    ensures var prev := At(s.h, s.roots[CURRENT], path);
      && (prev == 0 || ZeroAt(s, prev, DEPTH - |path|) || HomeAt(s, prev, CURRENT, path))
      && (Real(s.h, prev) ==> s.h[prev].obs == INVALID_TS)
  {
    OnPath(s, CURRENT, path);
    var prev := At(s.h, s.roots[CURRENT], path);
    if Real(s.h, prev) {
      assert PageOk(s, prev);
    }
    if path != [] {
      OnPath(s, CURRENT, path[..|path| - 1]);
      assert PageOk(s, ParentAt(s, path));
    }
  }

  /** The memory effect of `Cow`, spelled out. */
  ghost predicate CowMemory(s: Store, s': Store, path: seq<nat>, np: nat)
    requires CURRENT in s.roots && CURRENT in s'.roots && |s.zeros| == FOFFSET_LEVELS && |path| <= DEPTH
  {
    var prev := At(s.h, s.roots[CURRENT], path);
    && s'.h.Keys == s.h.Keys + {np}
    && s'.roots[CURRENT] == (if path == [] then np else s.roots[CURRENT])
    && s'.h[np].mem == (if prev in s.h then s.h[prev].mem else ZeroMem(s.zeros, DEPTH - |path|))
    && (forall p :: p in s.h && (path == [] || p != ParentAt(s, path)) ==> s'.h[p].mem == s.h[p].mem)
    && (path != [] ==>
          var par := ParentAt(s, path);
          && par in s.h && path[|path| - 1] < |s.h[par].mem|
          && s'.h[par].mem == s.h[par].mem[path[|path| - 1] := np])
  }

  lemma CowHasMemory(s: Store, path: seq<nat>, np: nat)
    requires CowReady(s, path, np)
    ensures |s.zeros| == FOFFSET_LEVELS
    ensures path != [] ==> |s.h[ParentAt(s, path)].mem| == CHILDREN
    ensures CowMemory(s, Cow(s, path, np), path, np)
  {
    CowReadyFacts(s, path, np);
  }

  /** Older checkpoints do not notice. */
  lemma CowOld(s: Store, s': Store, path: seq<nat>, np: nat, v: Ts, q: seq<nat>)
    requires CowReady(s, path, np) && CURRENT in s'.roots && CowMemory(s, s', path, np)
    requires v in s.roots && v != CURRENT && Path(q, WORD_DEPTH)
    ensures At(s'.h, s.roots[v], q) == At(s.h, s.roots[v], q)
  {
    AtFrame(s, s'.h, v, q);
  }

  /** How the newest tree reads at `q` after the copy: the copy itself at its path, and
      elsewhere, in particular for every stored word, what was there; below an empty slot
      a zero page may now stand for nothing. */
  ghost predicate CowReads(s: Store, s': Store, path: seq<nat>, np: nat, q: seq<nat>)
    requires CURRENT in s.roots && CURRENT in s'.roots
  {
    var was, now := At(s.h, s.roots[CURRENT], q), At(s'.h, s'.roots[CURRENT], q);
    if q == path then now == np
    else now == was || (was == 0 && |q| <= DEPTH && ZeroAt(s, now, DEPTH - |q|))
  }

  lemma {:induction false} CowCurrent(s: Store, s': Store, path: seq<nat>, np: nat, q: seq<nat>)
    requires CowReady(s, path, np) && Path(q, WORD_DEPTH)
    requires CURRENT in s'.roots && CowMemory(s, s', path, np)
    ensures CowReads(s, s', path, np, q)
    decreases |q|
  {
    CowReadyFacts(s, path, np);
    if q != [] {
      var n := |q| - 1;
      CowCurrent(s, s', path, np, q[..n]);
      if q[..n] == path {
        assert CowReads(s, s', path, np, path);
      } else {
        CowBeside(s, s', path, np, q);
      }
    }
  }

  /** A step through a slot the copy did not rewrite. */
  lemma CowSameSlot(s: Store, s': Store, path: seq<nat>, np: nat, x: nat, d: nat)
    requires CURRENT in s.roots && CURRENT in s'.roots && |s.zeros| == FOFFSET_LEVELS && |path| <= DEPTH
    requires CowMemory(s, s', path, np) && 0 !in s.h && np != 0
    requires x == 0 || x in s.h
    requires path != [] && x == ParentAt(s, path) ==> d != path[|path| - 1]
    ensures Child(s'.h, x, d) == Child(s.h, x, d)
  {
  }

  lemma SamePrefix(q: seq<nat>, path: seq<nat>)
    requires q != [] && path != [] && q[..|q| - 1] == path[..|path| - 1] && q[|q| - 1] == path[|path| - 1]
    ensures q == path
  {
    assert q == q[..|q| - 1] + [q[|q| - 1]] && path == path[..|path| - 1] + [path[|path| - 1]];
  }

  /** One step below a page that is not the copied one. */
  lemma CowBeside(s: Store, s': Store, path: seq<nat>, np: nat, q: seq<nat>)
    requires Wf(s) && Path(path, DEPTH) && np != 0
    requires path != [] ==> HomeAt(s, ParentAt(s, path), CURRENT, path[..|path| - 1])
    requires Path(q, WORD_DEPTH) && q != [] && q[..|q| - 1] != path
    requires CURRENT in s'.roots && CowMemory(s, s', path, np)
    requires CowReads(s, s', path, np, q[..|q| - 1])
    ensures CowReads(s, s', path, np, q)
  {
    var n := |q| - 1;
    var x, x' := At(s.h, s.roots[CURRENT], q[..n]), At(s'.h, s'.roots[CURRENT], q[..n]);
    assert At(s.h, s.roots[CURRENT], q) == Child(s.h, x, q[n]);
    assert At(s'.h, s'.roots[CURRENT], q) == Child(s'.h, x', q[n]);
    assert q[n] < CHILDREN;
    if x' != x {
      ZeroChild(s, x', q[n]);
      CowSameSlot(s, s', path, np, x', q[n]);
    } else {
      assert x == 0 || (x in s.h && (Real(s.h, x) ==> s.home[x] == q[..n])) by {
        OnPath(s, CURRENT, q[..n]);
      }
      if path != [] && x == ParentAt(s, path) {
        if q[n] == path[|path| - 1] {
          SamePrefix(q, path);
        } else {
          CowSameSlot(s, s', path, np, x, q[n]);
        }
      } else {
        CowSameSlot(s, s', path, np, x, q[n]);
      }
    }
  }

  lemma ZeroChild(s: Store, p: nat, d: nat)
    requires Wf(s) && d < CHILDREN && p in s.zeros && p in s.h && s.h[p].isZero && s.h[p].level < FOFFSET_LEVELS
    ensures s.h[p].level == 0 ==> Child(s.h, p, d) == 0
    ensures s.h[p].level > 0 ==> ZeroAt(s, Child(s.h, p, d), s.h[p].level - 1)
  {
    var l :| 0 <= l < |s.zeros| && s.zeros[l] == p;
    assert s.h[p].mem == ZeroMem(s.zeros, l);
  }

  /** The bookkeeping effect of `Cow`, spelled out. */
  ghost predicate CowRecords(s: Store, s': Store, path: seq<nat>, np: nat)
    requires CURRENT in s.roots && |path| <= DEPTH && np in s'.h && s.h.Keys <= s'.h.Keys
  {
    var prev := At(s.h, s.roots[CURRENT], path);
    && s'.zeros == s.zeros && s'.bound == s.bound && s'.home == s.home[np := path]
    && s'.roots.Keys == s.roots.Keys
    && (forall v :: v in s.roots && v != CURRENT ==> s'.roots[v] == s.roots[v])
    && s'.h[np].start == s.bound && s'.h[np].obs == INVALID_TS
    && s'.h[np].level == DEPTH - |path| && !s'.h[np].isZero
    && (forall p :: p in s.h ==>
          && s'.h[p].start == s.h[p].start && s'.h[p].level == s.h[p].level && s'.h[p].isZero == s.h[p].isZero
          && s'.h[p].obs == (if p == prev && Real(s.h, p) then s.bound else s.h[p].obs))
  }

  lemma CowHasRecords(s: Store, path: seq<nat>, np: nat)
    requires CowReady(s, path, np)
    ensures |s.zeros| == FOFFSET_LEVELS
    ensures path != [] ==> |s.h[ParentAt(s, path)].mem| == CHILDREN
    ensures CowMemory(s, Cow(s, path, np), path, np)
    ensures CowRecords(s, Cow(s, path, np), path, np)
  {
    CowHasMemory(s, path, np);
  }

  /** The copy's own entries. */
  lemma CowLinksOfCopy(s: Store, s': Store, path: seq<nat>, np: nat, d: nat)
    requires CowReady(s, path, np) && CURRENT in s'.roots
    requires CowMemory(s, s', path, np) && CowRecords(s, s', path, np)
    requires d < CHILDREN && |path| < DEPTH
    ensures |s'.h[np].mem| == CHILDREN && ChildOk(s', np, d)
  {
    CowReadyFacts(s, path, np);
    var prev := At(s.h, s.roots[CURRENT], path);
    if Real(s.h, prev) {
      assert PageOk(s, prev);
      assert Kept(s.h[prev], s.roots.Keys);
      assert LinksOk(s, prev);
      assert ChildOk(s, prev, d);
      var c := s.h[prev].mem[d];
      if Real(s.h, c) {
        assert PageOk(s, c);
      }
    } else if prev in s.h {
      ZeroChild(s, prev, d);
      var l :| 0 <= l < |s.zeros| && s.zeros[l] == prev;
      assert s.h[prev].mem == ZeroMem(s.zeros, l);
    }
  }

  /** A page that pointed to the replaced one is the parent, or has already expired. */
  lemma CowParentUnique(s: Store, path: seq<nat>, np: nat, p: nat, d: nat)
    requires CowReady(s, path, np) && Real(s.h, p) && d < CHILDREN
    requires p in s.home && s.h[p].level > 0 && |s.home[p]| < DEPTH
    requires var prev := At(s.h, s.roots[CURRENT], path);
      Real(s.h, prev) && prev in s.home && s.home[prev] == s.home[p] + [d]
    ensures s.h[p].obs <= s.bound || (path != [] && p == ParentAt(s, path) && d == path[|path| - 1])
  {
    CowReadyFacts(s, path, np);
    assert PageOk(s, p);
    if s.h[p].obs > s.bound {
      assert LiveAt(s.h[p], CURRENT);
      assert Read(s, CURRENT, s.home[p]) == p;
      assert path == s.home[p] + [d];
      assert path[..|path| - 1] == s.home[p];
    }
  }

  /** An entry the copy did not rewrite. */
  lemma CowLinkKept(s: Store, s': Store, path: seq<nat>, np: nat, p: nat, d: nat)
    requires CURRENT in s.roots && CURRENT in s'.roots && |s.zeros| == FOFFSET_LEVELS && |path| <= DEPTH
    requires CowMemory(s, s', path, np) && CowRecords(s, s', path, np) && np !in s.h
    requires Real(s.h, p) && p in s.home && |s.h[p].mem| == CHILDREN && s.h[p].level > 0 && d < CHILDREN
    requires ChildOk(s, p, d)
    requires path != [] && p == ParentAt(s, path) ==> d != path[|path| - 1]
    requires var prev := At(s.h, s.roots[CURRENT], path);
      Real(s.h, prev) ==>
        && s.h[prev].obs >= s.bound
        && (s.h[p].mem[d] == prev && prev in s.home && s.home[prev] == s.home[p] + [d] ==> s.h[p].obs <= s.bound)
    requires s.bound < CURRENT
    ensures |s'.h[p].mem| == CHILDREN && ChildOk(s', p, d)
  {
    assert s'.h[p].mem[d] == s.h[p].mem[d];
  }

  /** The parent's rewritten entry. */
  lemma CowLinkNew(s: Store, s': Store, path: seq<nat>, np: nat)
    requires CURRENT in s.roots && CURRENT in s'.roots && |s.zeros| == FOFFSET_LEVELS && |path| <= DEPTH
    requires CowMemory(s, s', path, np) && CowRecords(s, s', path, np) && np !in s.h
    requires path != [] && HomeAt(s, ParentAt(s, path), CURRENT, path[..|path| - 1])
    requires var par := ParentAt(s, path);
      |s.h[par].mem| == CHILDREN && s.h[par].start == s.bound && s.h[par].obs <= INVALID_TS
    requires path[|path| - 1] < CHILDREN
    ensures var par := ParentAt(s, path);
      |s'.h[par].mem| == CHILDREN && ChildOk(s', par, path[|path| - 1])
  {
    assert path == path[..|path| - 1] + [path[|path| - 1]];
  }

  lemma CowLinks(s: Store, s': Store, path: seq<nat>, np: nat, p: nat)
    requires CowReady(s, path, np) && CURRENT in s'.roots
    requires CowMemory(s, s', path, np) && CowRecords(s, s', path, np)
    requires Real(s.h, p) && Kept(s.h[p], s.roots.Keys)
    ensures p in s'.home && |s'.h[p].mem| == CHILDREN && LinksOk(s', p)
  {
    assert PageOk(s, p);
    assert LinksOk(s, p);
    var prev := At(s.h, s.roots[CURRENT], path);
    assert Real(s.h, prev) ==> s.h[prev].obs == INVALID_TS by {
      CowReadyFacts(s, path, np);
    }
    if s.h[p].level > 0 {
      forall d | 0 <= d < CHILDREN ensures ChildOk(s', p, d) {
        if path != [] && p == ParentAt(s, path) && d == path[|path| - 1] {
          CowReadyFacts(s, path, np);
          CowLinkNew(s, s', path, np);
        } else {
          if Real(s.h, prev) && prev in s.home && s.h[p].mem[d] == prev && s.home[prev] == s.home[p] + [d] {
            CowParentUnique(s, path, np, p, d);
          }
          assert Real(s.h, prev) ==> PageOk(s, prev);
          assert ChildOk(s, p, d);
          CowLinkKept(s, s', path, np, p, d);
        }
      }
    }
  }

  lemma CowPages(s: Store, s': Store, path: seq<nat>, np: nat)
    requires CowReady(s, path, np) && CURRENT in s'.roots
    requires CowMemory(s, s', path, np) && CowRecords(s, s', path, np)
    ensures 0 !in s'.h && ZeroPagesOk(s'.h, s'.zeros)
    ensures forall p :: p in s'.h ==> PageOk(s', p)
  {
    CowReadyFacts(s, path, np);
    var prev := At(s.h, s.roots[CURRENT], path);
    forall p | p in s'.h ensures PageOk(s', p) {
      if p in s.h {
        assert PageOk(s, p);
      } else if prev in s.h {
        assert PageOk(s, prev);
      }
    }
  }

  lemma CowRoots(s: Store, s': Store, path: seq<nat>, np: nat, v: Ts)
    requires CowReady(s, path, np) && CURRENT in s'.roots
    requires CowMemory(s, s', path, np) && CowRecords(s, s', path, np)
    requires v in s'.roots
    ensures (v == CURRENT || v <= s'.bound) && RootOk(s', v)
  {
    CowReadyFacts(s, path, np);
    assert RootOk(s, v);
  }

  lemma CowWf(s: Store, s': Store, path: seq<nat>, np: nat)
    requires CowReady(s, path, np) && CURRENT in s'.roots
    requires CowMemory(s, s', path, np) && CowRecords(s, s', path, np)
    ensures Wf(s')
  {
    CowPages(s, s', path, np);
    CowReadyFacts(s, path, np);
    forall p | Real(s'.h, p) && Kept(s'.h[p], s'.roots.Keys) ensures LinksOk(s', p) {
      if p == np {
        assert PageOk(s', np);
        if |path| < DEPTH {
          forall d | 0 <= d < CHILDREN ensures ChildOk(s', np, d) {
            CowLinksOfCopy(s, s', path, np, d);
          }
        }
      } else {
        var v :| v in s'.roots.Keys && LiveAt(s'.h[p], v);
        assert PageOk(s, p);
        assert LiveAt(s.h[p], v);
        CowLinks(s, s', path, np, p);
      }
    }
    forall v | v in s'.roots ensures (v == CURRENT || v <= s'.bound) && RootOk(s', v) {
      CowRoots(s, s', path, np, v);
    }
  }

  lemma CowPlacedCurrent(s: Store, s': Store, path: seq<nat>, np: nat, p: nat)
    requires CowReady(s, path, np) && CURRENT in s'.roots
    requires CowMemory(s, s', path, np) && CowRecords(s, s', path, np)
    requires Real(s'.h, p) && p in s'.home && LiveAt(s'.h[p], CURRENT)
    ensures At(s'.h, s'.roots[CURRENT], s'.home[p]) == p
  {
    if p == np {
      CowCurrent(s, s', path, np, path);
    } else {
      assert PageOk(s, p);
      assert LiveAt(s.h[p], CURRENT);
      assert Read(s, CURRENT, s.home[p]) == p;
      CowCurrent(s, s', path, np, s.home[p]);
      assert CowReads(s, s', path, np, s.home[p]);
    }
  }

  lemma CowPlacedOld(s: Store, s': Store, path: seq<nat>, np: nat, v: Ts, p: nat)
    requires CowReady(s, path, np) && CURRENT in s'.roots
    requires CowMemory(s, s', path, np) && CowRecords(s, s', path, np)
    requires v in s'.roots && v != CURRENT && Real(s'.h, p) && p in s'.home && LiveAt(s'.h[p], v)
    ensures At(s'.h, s'.roots[v], s'.home[p]) == p
  {
    assert v < s.bound && p != np;
    assert PageOk(s, p);
    assert LiveAt(s.h[p], v) by {
      CowReadyFacts(s, path, np);
    }
    assert Read(s, v, s.home[p]) == p;
    CowOld(s, s', path, np, v, s.home[p]);
  }

  /** Path copying keeps the store in order. */
  lemma CowInv(s: Store, path: seq<nat>, np: nat)
    requires CowReady(s, path, np)
    ensures |s.zeros| == FOFFSET_LEVELS
    ensures path != [] ==> |s.h[ParentAt(s, path)].mem| == CHILDREN
    ensures Inv(Cow(s, path, np))
  {
    CowHasRecords(s, path, np);
    var s' := Cow(s, path, np);
    CowWf(s, s', path, np);
    forall v, p | v in s'.roots && Real(s'.h, p) && p in s'.home && LiveAt(s'.h[p], v)
      ensures Read(s', v, s'.home[p]) == p
    {
      if v == CURRENT {
        CowPlacedCurrent(s, s', path, np, p);
      } else {
        CowPlacedOld(s, s', path, np, v, p);
      }
    }
  }

  /** A table whose record and whose children's records a change leaves alone stays in
      order; children are among the pages that live at least as long. */
  lemma LinksFrame(s: Store, s': Store, p: nat)
    requires |s.zeros| == FOFFSET_LEVELS && s'.zeros == s.zeros
    requires Real(s.h, p) && p in s.home && |s.h[p].mem| == CHILDREN && LinksOk(s, p)
    requires p in s'.h && p in s'.home && s'.home[p] == s.home[p] && |s'.h[p].mem| == CHILDREN
    requires s.h[p].level > 0 ==> s'.h[p] == s.h[p]
    requires s'.h[p].level == s.h[p].level
    requires forall c :: Real(s.h, c) && c in s.home && s.h[c].start <= s.h[p].start && s.h[p].obs <= s.h[c].obs ==>
      && Real(s'.h, c) && c in s'.home && s'.home[c] == s.home[c]
      && s'.h[c].level == s.h[c].level && s'.h[c].start == s.h[c].start && s'.h[c].obs == s.h[c].obs
    ensures LinksOk(s', p)
  {
    if s.h[p].level > 0 {
      forall d | 0 <= d < CHILDREN ensures ChildOk(s', p, d) {
        assert ChildOk(s, p, d);
      }
    }
  }

  // ---------------------------------------------------------------- the leaf write

  ghost predicate LeafReady(s: Store, path: seq<nat>, w: nat) {
    && Inv(s) && Path(path, DEPTH) && |path| == DEPTH && w < CHILDREN
    && (forall v :: v in s.roots && v != CURRENT ==> v < s.bound)
    && var leaf := At(s.h, s.roots[CURRENT], path);
    Real(s.h, leaf) && s.h[leaf].start == s.bound
  }

  function WriteLeaf(s: Store, path: seq<nat>, w: nat, value: nat): Store
    requires CURRENT in s.roots
    requires var leaf := At(s.h, s.roots[CURRENT], path); leaf in s.h && w < |s.h[leaf].mem|
  {
    var leaf := At(s.h, s.roots[CURRENT], path);
    s.(h := s.h[leaf := s.h[leaf].(mem := s.h[leaf].mem[w := value])])
  }

  lemma LeafReadyFacts(s: Store, path: seq<nat>, w: nat)
    requires LeafReady(s, path, w)
    ensures var leaf := At(s.h, s.roots[CURRENT], path);
      HomeAt(s, leaf, CURRENT, path) && |s.h[leaf].mem| == CHILDREN
  {
    OnPath(s, CURRENT, path);
    assert PageOk(s, At(s.h, s.roots[CURRENT], path));
  }

  /** Exactly one word of the newest tree changes. */
  lemma {:induction false} WriteLeafReads(s: Store, path: seq<nat>, w: nat, value: nat, q: seq<nat>)
    requires LeafReady(s, path, w) && Path(q, WORD_DEPTH)
    ensures |s.h[At(s.h, s.roots[CURRENT], path)].mem| == CHILDREN
    ensures var s' := WriteLeaf(s, path, w, value);
      At(s'.h, s'.roots[CURRENT], q) == if q == path + [w] then value else At(s.h, s.roots[CURRENT], q)
    decreases |q|
  {
    LeafReadyFacts(s, path, w);
    if q != [] {
      var n := |q| - 1;
      WriteLeafReads(s, path, w, value, q[..n]);
      OnPath(s, CURRENT, q[..n]);
      assert |q[..n]| < |path + [w]|;
      assert q == q[..n] + [q[n]];
      var x := At(s.h, s.roots[CURRENT], q[..n]);
      if x == At(s.h, s.roots[CURRENT], path) {
        assert q[..n] == path;
        assert q == path + [w] <==> q[n] == w;
      }
    }
  }

  lemma WriteLeafOld(s: Store, path: seq<nat>, w: nat, value: nat, v: Ts, q: seq<nat>)
    requires LeafReady(s, path, w) && v in s.roots && v != CURRENT && Path(q, WORD_DEPTH)
    ensures |s.h[At(s.h, s.roots[CURRENT], path)].mem| == CHILDREN
    ensures At(WriteLeaf(s, path, w, value).h, s.roots[v], q) == At(s.h, s.roots[v], q)
  {
    LeafReadyFacts(s, path, w);
    AtFrame(s, WriteLeaf(s, path, w, value).h, v, q);
  }

  lemma WriteLeafWf(s: Store, path: seq<nat>, w: nat, value: nat)
    requires LeafReady(s, path, w)
    ensures |s.h[At(s.h, s.roots[CURRENT], path)].mem| == CHILDREN
    ensures Wf(WriteLeaf(s, path, w, value))
  {
    LeafReadyFacts(s, path, w);
    var s' := WriteLeaf(s, path, w, value);
    forall p | p in s'.h ensures PageOk(s', p) {
      assert PageOk(s, p);
    }
    forall p | Real(s'.h, p) && Kept(s'.h[p], s'.roots.Keys) ensures LinksOk(s', p) {
      assert PageOk(s, p);
      var v :| v in s'.roots.Keys && LiveAt(s'.h[p], v);
      assert LiveAt(s.h[p], v);
      LinksFrame(s, s', p);
    }
    forall v | v in s'.roots ensures (v == CURRENT || v <= s'.bound) && RootOk(s', v) {
      assert RootOk(s, v);
    }
  }

  lemma WriteLeafInv(s: Store, path: seq<nat>, w: nat, value: nat)
    requires LeafReady(s, path, w)
    ensures |s.h[At(s.h, s.roots[CURRENT], path)].mem| == CHILDREN
    ensures Inv(WriteLeaf(s, path, w, value))
  {
    LeafReadyFacts(s, path, w);
    WriteLeafWf(s, path, w, value);
    var s' := WriteLeaf(s, path, w, value);
    forall v, p | v in s'.roots && Real(s'.h, p) && p in s'.home && LiveAt(s'.h[p], v)
      ensures Read(s', v, s'.home[p]) == p
    {
      assert PageOk(s, p) && LiveAt(s.h[p], v);
      assert Read(s, v, s.home[p]) == p;
      if v == CURRENT {
        WriteLeafReads(s, path, w, value, s.home[p]);
      } else {
        WriteLeafOld(s, path, w, value, v, s.home[p]);
      }
    }
  }

  // ---------------------------------------------------------------- publishing, dropping, freeing

  /** Starting the build of a later checkpoint. */
  lemma RaiseBound(s: Store, bound: Ts)
    requires Inv(s) && s.bound <= bound < CURRENT
    ensures Inv(s.(bound := bound))
  {
    var s' := s.(bound := bound);
    forall p | p in s'.h ensures PageOk(s', p) {
      assert PageOk(s, p);
    }
    forall p | Real(s'.h, p) && Kept(s'.h[p], s'.roots.Keys) ensures LinksOk(s', p) {
      assert PageOk(s, p);
      LinksFrame(s, s', p);
    }
    forall v | v in s'.roots ensures (v == CURRENT || v <= s'.bound) && RootOk(s', v) {
      assert RootOk(s, v);
    }
    forall v, p | v in s'.roots && Real(s'.h, p) && p in s'.home && LiveAt(s'.h[p], v)
      ensures Read(s', v, s'.home[p]) == p
    {
      assert Read(s, v, s.home[p]) == p;
    }
  }

  /** The finished tree becomes checkpoint `s.bound`. */
  lemma PublishInv(s: Store)
    requires Inv(s)
    ensures Inv(s.(roots := s.roots[s.bound := s.roots[CURRENT]]))
  {
    var s' := s.(roots := s.roots[s.bound := s.roots[CURRENT]]);
    forall p | p in s'.h ensures PageOk(s', p) {
      assert PageOk(s, p);
    }
    forall p, v | Real(s.h, p) && v in s'.roots && LiveAt(s.h[p], v)
      ensures if v == s.bound then LiveAt(s.h[p], CURRENT) else v in s.roots
    {
      assert PageOk(s, p);
    }
    forall p | Real(s'.h, p) && Kept(s'.h[p], s'.roots.Keys) ensures LinksOk(s', p) {
      var v :| v in s'.roots.Keys && LiveAt(s.h[p], v);
      assert PageOk(s, p);
      assert LiveAt(s.h[p], if v == s.bound then CURRENT else v);
      assert Kept(s.h[p], s.roots.Keys);
      LinksFrame(s, s', p);
    }
    forall v | v in s'.roots ensures (v == CURRENT || v <= s'.bound) && RootOk(s', v) {
      assert RootOk(s, CURRENT);
      if v != s.bound {
        assert RootOk(s, v);
      } else if s.roots[CURRENT] != 0 {
        assert PageOk(s, s.roots[CURRENT]);
      }
    }
    forall v, p | v in s'.roots && Real(s'.h, p) && p in s'.home && LiveAt(s'.h[p], v)
      ensures Read(s', v, s'.home[p]) == p
    {
      assert Read(s, if v == s.bound then CURRENT else v, s.home[p]) == p;
    }
  }

  /** Giving up checkpoints nobody will read again. */
  lemma DropInv(s: Store, s': Store)
    requires Inv(s) && s' == s.(roots := s'.roots) && CURRENT in s'.roots
    requires forall v :: v in s'.roots ==> v in s.roots && s'.roots[v] == s.roots[v]
    ensures Inv(s')
  {
    forall p | p in s'.h ensures PageOk(s', p) {
      assert PageOk(s, p);
    }
    forall p | Real(s'.h, p) && Kept(s'.h[p], s'.roots.Keys) ensures LinksOk(s', p) {
      var v :| v in s'.roots.Keys && LiveAt(s.h[p], v);
      assert v in s.roots.Keys && PageOk(s, p);
      LinksFrame(s, s', p);
    }
    forall v | v in s'.roots ensures (v == CURRENT || v <= s'.bound) && RootOk(s', v) {
      assert RootOk(s, v);
    }
    forall v, p | v in s'.roots && Real(s'.h, p) && p in s'.home && LiveAt(s'.h[p], v)
      ensures Read(s', v, s'.home[p]) == p
    {
      assert Read(s, v, s.home[p]) == p;
    }
  }

  /** Returning a page to the kernel. */
  function Free(s: Store, p: nat): Store {
    s.(h := s.h - {p}, home := s.home - {p})
  }

  ghost predicate FreeReady(s: Store, p: nat) {
    Inv(s) && Real(s.h, p) && !Kept(s.h[p], s.roots.Keys)
  }

  /** Freeing a page whose lifetime covers no readable checkpoint is invisible. */
  lemma FreeReads(s: Store, p: nat, v: Ts, q: seq<nat>)
    requires FreeReady(s, p) && v in s.roots && Path(q, WORD_DEPTH)
    ensures At(Free(s, p).h, s.roots[v], q) == At(s.h, s.roots[v], q)
  {
    AtFrame(s, Free(s, p).h, v, q);
  }

  lemma FreeLinks(s: Store, p: nat, r: nat)
    requires FreeReady(s, p) && r != p && Real(s.h, r) && Kept(s.h[r], s.roots.Keys)
    ensures r in Free(s, p).home && |s.h[r].mem| == CHILDREN && |s.zeros| == FOFFSET_LEVELS && LinksOk(Free(s, p), r)
  {
    var s' := Free(s, p);
    assert PageOk(s, r);
    var v :| v in s.roots.Keys && LiveAt(s.h[r], v);
    forall c | Real(s.h, c) && s.h[c].start <= s.h[r].start && s.h[r].obs <= s.h[c].obs ensures c != p {
      assert LiveAt(s.h[c], v);
    }
    LinksFrame(s, s', r);
  }

  lemma FreeInv(s: Store, p: nat)
    requires FreeReady(s, p)
    ensures Inv(Free(s, p))
  {
    var s' := Free(s, p);
    forall r | r in s'.h ensures PageOk(s', r) {
      assert PageOk(s, r);
    }
    forall r | Real(s'.h, r) && Kept(s'.h[r], s'.roots.Keys) ensures LinksOk(s', r) {
      FreeLinks(s, p, r);
    }
    forall v | v in s'.roots ensures (v == CURRENT || v <= s'.bound) && RootOk(s', v) {
      assert RootOk(s, v);
      var r := s.roots[v];
      if r != 0 {
        assert Kept(s.h[r], s.roots.Keys);
      }
    }
    forall v, r | v in s'.roots && Real(s'.h, r) && r in s'.home && LiveAt(s'.h[r], v)
      ensures Read(s', v, s'.home[r]) == r
    {
      assert PageOk(s, r);
      assert Read(s, v, s.home[r]) == r;
      FreeReads(s, p, v, s.home[r]);
    }
  }
}
