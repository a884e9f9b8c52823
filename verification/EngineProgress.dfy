/** Whatever else has happened, the maker can finish a build by its own steps: copy the pages on
    the way to each word, write the word, and go on to the next. */
module EngineProgress {
  import opened Types
  import opened Radix
  import opened CheckpointHeap
  import CheckpointStore
  import opened Engine
  import P = CheckpointProtocol

  ghost predicate BuildNext(e: Engine, e': Engine) {
    || (exists path, np, id :: CopyStep(e, e', path, np, id))
    || (exists path, w, ent :: WriteStep(e, e', path, w, ent))
    || SkipStep(e, e')
  }

  ghost predicate Builds(run: seq<Engine>, e: Engine, e': Engine) {
    && |run| > 0 && run[0] == e && run[|run| - 1] == e'
    && forall i :: 0 <= i < |run| - 1 ==> BuildNext(run[i], run[i + 1])
  }

  lemma Join(r1: seq<Engine>, r2: seq<Engine>, e: Engine, e1: Engine, e2: Engine) returns (run: seq<Engine>)
    requires Builds(r1, e, e1) && Builds(r2, e1, e2)
    ensures Builds(run, e, e2)
  {
    run := r1 + r2[1..];
    forall i | 0 <= i < |run| - 1 ensures BuildNext(run[i], run[i + 1]) {
      if i < |r1| - 1 {
        assert BuildNext(r1[i], r1[i + 1]);
      } else {
        var j := i - (|r1| - 1);
        assert run[i] == r2[j] && BuildNext(r2[j], r2[j + 1]);
      }
    }
  }

  /** In the middle of a build. */
  ghost predicate Working(e: Engine) {
    && EngineInv(e) && Located(e) && e.p.maker.Building?
  }

  /** What a build leaves alone. */
  ghost predicate SameTask(e: Engine, e': Engine) {
    && e'.log == e.log && e'.p.maker == e.p.maker && e'.p.master == e.p.master && e'.p.top == e.p.top
    && e'.p.threads == e.p.threads && e'.p.published == e.p.published && e'.p.history == e.p.history
  }

  ghost predicate Private(st: Store, path: seq<nat>) {
    && CURRENT in st.roots && Real(st.h, At(st.h, st.roots[CURRENT], path))
    && st.h[At(st.h, st.roots[CURRENT], path)].start == st.bound
  }

  lemma RootsAreOlder(e: Engine)
    requires Working(e)
    ensures forall v :: v in e.st.roots && v != CURRENT ==> v < e.st.bound
  {
    forall v | v in e.st.roots && v != CURRENT ensures v < e.st.bound {
      assert RootsOk(e, v);
    }
  }

  lemma MayCopy(e: Engine, path: seq<nat>, np: nat)
    requires Working(e) && Path(path, DEPTH) && np !in e.st.h && np != 0 && !Private(e.st, path)
    requires path != [] ==> Private(e.st, path[..|path| - 1])
    ensures CowReady(e.st, path, np)
  {
    RootsAreOlder(e);
    var prev := At(e.st.h, e.st.roots[CURRENT], path);
    if Real(e.st.h, prev) {
      assert PageOk(e.st, prev);
    }
  }

  lemma CopyIsPrivate(st: Store, path: seq<nat>, np: nat)
    requires CowReady(st, path, np)
    ensures |st.zeros| == FOFFSET_LEVELS && (path != [] ==> |st.h[ParentAt(st, path)].mem| == CHILDREN)
    ensures Private(Cow(st, path, np), path)
  {
    CowHasRecords(st, path, np);
    CowCurrent(st, Cow(st, path, np), path, np, path);
    assert CowReads(st, Cow(st, path, np), path, np, path);
  }

  /** One level of the way down. */
  lemma CopyOne(e: Engine, path: seq<nat>) returns (run: seq<Engine>, e': Engine)
    requires Working(e) && Path(path, DEPTH) && (path != [] ==> Private(e.st, path[..|path| - 1]))
    ensures Builds(run, e, e') && Working(e') && SameTask(e, e') && SamePlace(e, e') && Private(e'.st, path)
  {
    if Private(e.st, path) {
      run, e' := [e], e;
    } else {
      CheckpointStore.FreshAddress(e.st.h);
      var np :| np !in e.st.h && np != 0;
      var id := CheckpointStore.UpperBound(e.p.lives.Keys) + 1;
      assert id !in e.p.lives;
      MayCopy(e, path, np);
      e' := CopyEnabled(e, path, np, id);
      CopyKeeps(e, e', path, np, id);
      CopyProtocol(e, e', path, np, id);
      CopyIsPrivate(e.st, path, np);
      run := [e, e'];
      assert BuildNext(e, e');
    }
  }

  lemma {:induction false} OpenWay(e: Engine, leaf: seq<nat>, n: nat) returns (run: seq<Engine>, e': Engine)
    requires Working(e) && Path(leaf, DEPTH) && n <= |leaf|
    ensures Builds(run, e, e') && Working(e') && SameTask(e, e') && SamePlace(e, e') && Private(e'.st, leaf[..n])
    decreases n
  {
    if n == 0 {
      run, e' := CopyOne(e, []);
      assert leaf[..0] == [];
    } else {
      var e1;
      run, e1 := OpenWay(e, leaf, n - 1);
      assert leaf[..n][..n - 1] == leaf[..n - 1];
      var more;
      more, e' := CopyOne(e1, leaf[..n]);
      run := Join(run, more, e, e1, e');
    }
  }

  /** The next write of the log gets into the tree. */
  lemma WriteNext(e: Engine, ent: WsEnt) returns (run: seq<Engine>, e': Engine)
    requires Working(e) && e.k <= e.p.maker.next && NextWrite(e, ent)
    ensures Builds(run, e, e') && Working(e') && SameTask(e, e') && e'.k == e.k && e'.i == e.i + 1
  {
    var path, w := Digits(ent.ino, ent.off / PAGE_SIZE), ent.off % PAGE_SIZE / WORD_SIZE;
    LeafPathOk(ent);
    var e1;
    run, e1 := OpenWay(e, path, DEPTH);
    assert path[..DEPTH] == path;
    RootsAreOlder(e1);
    assert LeafReady(e1.st, path, w);
    LeafReadyFacts(e1.st, path, w);
    e' := e1.(st := WriteLeaf(e1.st, path, w, ent.value), i := e1.i + 1);
    assert WriteStep(e1, e', path, w, ent);
    WriteKeeps(e1, e', path, w, ent);
    assert BuildNext(e1, e');
    assert Builds([e1, e'], e1, e');
    run := Join(run, [e1, e'], e, e1, e');
  }

  lemma LeafPathOk(ent: WsEnt)
    requires Addressable(Addr(ent.ino, ent.off))
    ensures
      var path := Digits(ent.ino, ent.off / PAGE_SIZE);
      Path(path, DEPTH) && |path| == DEPTH && ent.off % PAGE_SIZE / WORD_SIZE < CHILDREN
  {
    var a := Addr(ent.ino, ent.off);
    WordPathShape(a);
    assert WordPath(a)[..DEPTH] == Digits(ent.ino, ent.off / PAGE_SIZE);
  }

  /** Every write the build has to do can be done. */
  ghost predicate InReach(e: LogEntry) {
    e.aborted || forall j :: 0 <= j < |e.ws| ==> Addressable(Addr(e.ws[j].ino, e.ws[j].off))
  }

  ghost predicate RestInReach(e: Engine)
    requires e.p.maker.Building?
  {
    forall k :: 1 <= k <= |e.log| && e.k <= k <= e.p.maker.next ==> InReach(EntryAt(e.log, k))
  }

  lemma {:induction false} EntryAlone(e: Engine) returns (run: seq<Engine>, e': Engine)
    requires Working(e) && e.k <= e.p.maker.next && InReach(EntryAt(e.log, e.k))
    ensures Builds(run, e, e') && Working(e') && SameTask(e, e') && e'.k == e.k + 1
    decreases |EntryAt(e.log, e.k).ws| - e.i
  {
    if EntryDone(e) {
      e' := e.(k := e.k + 1, i := 0);
      SkipKeeps(e, e');
      run := [e, e'];
      assert BuildNext(e, e');
    } else {
      var ent := EntryAt(e.log, e.k).ws[e.i];
      var e1;
      run, e1 := WriteNext(e, ent);
      var more;
      more, e' := EntryAlone(e1);
      run := Join(run, more, e, e1, e');
    }
  }

  /** From every reachable state in the middle of a build, whose remaining entries write only in
      addressable range, the maker alone gets to the end of it. The build is then ready to be
      handed over and published, and has changed nothing the other parties go by. */
  lemma {:induction false} BuildAlone(e: Engine) returns (run: seq<Engine>, e': Engine)
    requires Working(e) && RestInReach(e)
    ensures Builds(run, e, e') && Working(e') && SameTask(e, e') && e'.k == e.p.maker.next + 1
    decreases e.p.maker.next + 1 - e.k
  {
    if e.k == e.p.maker.next + 1 {
      run, e' := [e], e;
    } else {
      var e1;
      run, e1 := EntryAlone(e);
      var more;
      more, e' := BuildAlone(e1);
      run := Join(run, more, e, e1, e');
    }
  }

  /** In every run, then, a build in progress can be finished. */
  lemma BuildCanFinish(run: seq<Engine>, n: nat) returns (more: seq<Engine>, e': Engine, e'': Engine)
    requires Behavior(run) && n < |run| && run[n].p.maker.Building? && RestInReach(run[n])
    ensures Builds(more, run[n], e') && SameTask(run[n], e') && ProtocolStep(e', e'', P.Mark)
  {
    InvAlways(run, n);
    FaithfulAlways(run, n);
    more, e' := BuildAlone(run[n]);
    e'' := e'.(p := P.Do(e'.p, P.Mark));
  }
}
