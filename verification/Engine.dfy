/** The checkpoint protocol, the checkpoint pages and the log as one system: commits extend the
    log, the maker copies real pages and writes the entries' words into them, publication gives
    a root a timestamp, the collector frees real pages, and all of it interleaves with threads
    checking checkpoints out. The lifetimes the protocol goes by are the ones recorded in the
    pages. */
module Engine {
  import opened Types
  import opened Radix
  import opened CheckpointHeap
  import CheckpointStore
  import P = CheckpointProtocol

  /** `ident` names the object a page address stands for; an address may be used again once
      its page is freed, an object is not. `log` holds the published entries. A build has
      applied everything before entry `k` and the first `i` writes of that one. */
  datatype Engine = Engine(p: P.State, st: Store, ident: map<nat, P.Id>, log: seq<LogEntry>, k: Ts, i: nat)

  // ---------------------------------------------------------------- steps

  /** A checkpoint that must stay readable: the published one, any later one, or one held. */
  ghost predicate Wanted(p: P.State, v: Ts) {
    v >= p.published || exists t :: P.Holds(p, t, v)
  }

  /** The store restricted to the checkpoints that must stay readable. */
  ghost function Trimmed(e: Engine): Store {
    e.st.(roots := map v | v in e.st.roots && (v == CURRENT || Wanted(e.p, v)) :: e.st.roots[v])
  }

  ghost function Allocated(p: P.State, id: P.Id): P.State
    requires P.EnabledMaker(p, P.AllocObject(id))
  {
    P.DoMaker(p, P.AllocObject(id))
  }

  ghost predicate SamePlace(e: Engine, e': Engine) {
    e'.log == e.log && e'.k == e.k && e'.i == e.i
  }

  /** The build has dealt with entry `k`: it is aborted or all its writes are in. */
  predicate EntryDone(e: Engine) {
    1 <= e.k <= |e.log| && (EntryAt(e.log, e.k).aborted || e.i == |EntryAt(e.log, e.k).ws|)
  }

  /** The write the build has to do next. */
  ghost predicate NextWrite(e: Engine, ent: WsEnt) {
    && 1 <= e.k <= |e.log| && !EntryAt(e.log, e.k).aborted
    && e.i < |EntryAt(e.log, e.k).ws| && ent == EntryAt(e.log, e.k).ws[e.i] && Addressable(Addr(ent.ino, ent.off))
  }

  ghost predicate SkipStep(e: Engine, e': Engine) {
    && e.p.maker.Building? && e.k <= e.p.maker.next && EntryDone(e)
    && e' == e.(k := e.k + 1, i := 0)
  }

  /** Copy the page at `path` for the checkpoint being built; the copy is object `id`. */
  ghost predicate CopyStep(e: Engine, e': Engine, path: seq<nat>, np: nat, id: P.Id) {
    && e.p.maker.Building? && id !in e.p.lives && CowReady(e.st, path, np)
    && |e.st.zeros| == FOFFSET_LEVELS && |path| <= DEPTH
    && (path != [] ==> ParentAt(e.st, path) in e.st.h && path[|path| - 1] < |e.st.h[ParentAt(e.st, path)].mem|)
    && e'.st == Cow(e.st, path, np) && e'.ident == e.ident[np := id] && SamePlace(e, e')
    && var prev := At(e.st.h, e.st.roots[CURRENT], path);
    var p1 := Allocated(e.p, id);
    if Real(e.st.h, prev) then
      && prev in e.ident && P.EnabledMaker(p1, P.Obsolete(e.ident[prev]))
      && e'.p == P.DoMaker(p1, P.Obsolete(e.ident[prev]))
    else e'.p == p1
  }

  /** Do the next write, in a leaf that is private to the checkpoint being built. */
  ghost predicate WriteStep(e: Engine, e': Engine, path: seq<nat>, w: nat, ent: WsEnt) {
    && e.p.maker.Building? && e.k <= e.p.maker.next && NextWrite(e, ent)
    && path == Digits(ent.ino, ent.off / PAGE_SIZE) && w == ent.off % PAGE_SIZE / WORD_SIZE && LeafReady(e.st, path, w)
    && var leaf := At(e.st.h, e.st.roots[CURRENT], path);
    && w < |e.st.h[leaf].mem|
    && e' == e.(st := WriteLeaf(e.st, path, w, ent.value), i := e.i + 1)
  }

  /** The other steps of the protocol, with what they do to the pages. */
  ghost predicate ProtocolStep(e: Engine, e': Engine, step: P.Step) {
    && P.Enabled(e.p, step) && e'.p == P.Do(e.p, step)
    && (if step.Commit? then |e'.log| == |e.log| + 1 && e.log <= e'.log else e'.log == e.log)
    && (if step.StartBuild? then e'.k == e.p.top + 1 && e'.i == 0 else e'.k == e.k && e'.i == e.i)
    && (step.Mark? ==> e.k == e.p.maker.next + 1)
    && match step
       case AllocObject(_) => false
       case Obsolete(_) => false
       case StartBuild => e.p.master < CURRENT && e'.st == e.st.(bound := e.p.master) && e'.ident == e.ident
       case WriteTs =>
         && CURRENT in e.st.roots && e'.ident == e.ident
         && e'.st == e.st.(roots := e.st.roots[e.st.bound := e.st.roots[CURRENT]])
       case GcFree(id) =>
         exists pg :: pg in e.ident && e.ident[pg] == id
                      && e'.st == Free(Trimmed(e), pg) && e'.ident == e.ident - {pg}
       case _ => e'.st == e.st && e'.ident == e.ident
  }

  ghost predicate Next(e: Engine, e': Engine) {
    || (exists path, np, id :: CopyStep(e, e', path, np, id))
    || (exists path, w, ent :: WriteStep(e, e', path, w, ent))
    || SkipStep(e, e')
    || (exists step :: ProtocolStep(e, e', step))
  }

  /** Nothing but the zero pages; the checkpoint at 0 has no root page. */
  ghost predicate Init(e: Engine) {
    && P.Init(e.p) && e.ident == map[] && e.log == []
    && Inv(e.st) && e.st.bound == 0 && e.st.roots == map[0 := 0, CURRENT := 0]
    && forall pg :: !Real(e.st.h, pg)
  }

  ghost predicate Behavior(run: seq<Engine>) {
    && |run| > 0 && Init(run[0])
    && forall i {:trigger StepAt(run, i)} :: StepAt(run, i)
  }

  ghost predicate StepAt(run: seq<Engine>, i: nat) {
    i + 1 < |run| ==> Next(run[i], run[i + 1])
  }

  // ---------------------------------------------------------------- the coupling

  predicate InBuild(m: P.MakerPc) {
    m.Building? || m.Marked? || m.Dirty? || m.Swapped?
  }

  /** A page is there exactly if it stands for an object, and carries that object's lifetime. */
  ghost predicate PageIs(e: Engine, pg: nat) {
    && (Real(e.st.h, pg) <==> pg in e.ident)
    && (Real(e.st.h, pg) && pg in e.ident ==>
          && e.ident[pg] in e.p.lives && e.ident[pg] !in e.p.freed
          && e.p.lives[e.ident[pg]] == Life(e.st.h[pg].start, e.st.h[pg].obs))
  }

  ghost predicate HasPage(e: Engine, id: P.Id) {
    id in e.p.lives && id !in e.p.freed ==> exists pg :: pg in e.ident && e.ident[pg] == id
  }

  ghost predicate OnePage(e: Engine, a: nat, b: nat) {
    a in e.ident && b in e.ident && e.ident[a] == e.ident[b] ==> a == b
  }

  ghost predicate RootsOk(e: Engine, v: Ts) {
    && (v in e.st.roots && v != CURRENT ==> v in e.p.history)
    && (v in e.p.history && Wanted(e.p, v) ==> v in e.st.roots)
  }

  ghost predicate Coupled(e: Engine) {
    && (forall pg {:trigger PageIs(e, pg)} :: PageIs(e, pg))
    && (forall id {:trigger HasPage(e, id)} :: HasPage(e, id))
    && (forall a, b {:trigger OnePage(e, a, b)} :: OnePage(e, a, b))
  }

  ghost predicate EngineInv(e: Engine) {
    && P.Inv(e.p) && Inv(e.st) && Coupled(e)
    && e.st.bound == (if InBuild(e.p.maker) then e.p.maker.next else e.p.top)
    && (forall v {:trigger RootsOk(e, v)} :: RootsOk(e, v))
  }

  lemma InvInit(e: Engine)
    requires Init(e)
    ensures EngineInv(e)
  {
    P.InvInit(e.p);
    forall pg: nat ensures PageIs(e, pg) {
      assert !Real(e.st.h, pg);
    }
    forall v: Ts ensures RootsOk(e, v) {
    }
  }

  // ---------------------------------------------------------------- preservation

  /** What has to stay readable had to before, unless it is new. */
  lemma WantedBefore(p: P.State, step: P.Step, v: Ts)
    requires P.Inv(p) && P.Enabled(p, step) && v in p.history && Wanted(P.Do(p, step), v)
    ensures Wanted(p, v)
  {
    var p' := P.Do(p, step);
    if v < p'.published {
      var t :| P.Holds(p', t, v);
      if !step.Commit? && !P.EnabledMaker(p, step) && P.EnabledThread(p, step) {
        P.MovedHolds(p, step, t, v);
        assert P.Holds(p, t, v) || v >= p.published;
      } else {
        P.OthersKeepThreads(p, step);
        assert P.Holds(p, t, v);
      }
    } else {
      P.PublishedGrows(p, step);
    }
  }

  predicate IsQuiet(step: P.Step) {
    !step.AllocObject? && !step.Obsolete? && !step.StartBuild? && !step.WriteTs? && !step.GcFree?
  }

  /** What the quiet steps leave alone. */
  ghost predicate SameObjects(p: P.State, p': P.State) {
    p'.lives == p.lives && p'.freed == p.freed && p'.history == p.history && p'.top == p.top
  }

  ghost predicate SameBuild(p: P.State, p': P.State) {
    InBuild(p'.maker) == InBuild(p.maker) && (InBuild(p.maker) ==> p'.maker.next == p.maker.next)
  }

  lemma QuietFrame(p: P.State, step: P.Step)
    requires P.Enabled(p, step) && IsQuiet(step)
    ensures SameObjects(p, P.Do(p, step)) && SameBuild(p, P.Do(p, step))
  {
    if step.Commit? || P.EnabledMaker(p, step) {
    } else if P.EnabledThread(p, step) {
    } else {
      P.CollectorFrames(p, step);
      assert P.DoCollector(p, step).freed == p.freed;
    }
  }

  lemma ProtocolInv(p: P.State, step: P.Step)
    requires P.Inv(p) && P.Enabled(p, step)
    ensures P.Inv(P.Do(p, step))
  {
    assert P.Next(p, P.Do(p, step));
    P.InvNext(p, P.Do(p, step));
  }

  /** Pages, objects and names unchanged. */
  lemma SameCoupling(e: Engine, e': Engine)
    requires Coupled(e) && e'.ident == e.ident && e'.p.lives == e.p.lives && e'.p.freed == e.p.freed
    requires forall pg :: Real(e'.st.h, pg) <==> Real(e.st.h, pg)
    requires forall pg :: Real(e.st.h, pg) && pg in e'.st.h ==>
      e'.st.h[pg].start == e.st.h[pg].start && e'.st.h[pg].obs == e.st.h[pg].obs
    ensures Coupled(e')
  {
    forall pg: nat ensures PageIs(e', pg) {
      assert PageIs(e, pg);
    }
    forall id: P.Id ensures HasPage(e', id) {
      assert HasPage(e, id);
    }
    forall a: nat, b: nat ensures OnePage(e', a, b) {
      assert OnePage(e, a, b);
    }
  }

  lemma RootsKept(e: Engine, e': Engine, step: P.Step)
    requires P.Inv(e.p) && P.Enabled(e.p, step) && e'.p == P.Do(e.p, step)
    requires e'.p.history == e.p.history && e'.st.roots == e.st.roots
    requires forall v {:trigger RootsOk(e, v)} :: RootsOk(e, v)
    ensures forall v {:trigger RootsOk(e', v)} :: RootsOk(e', v)
  {
    forall v: Ts ensures RootsOk(e', v) {
      assert RootsOk(e, v);
      if v in e.p.history && Wanted(e'.p, v) {
        WantedBefore(e.p, step, v);
      }
    }
  }

  lemma QuietKeeps(e: Engine, e': Engine, step: P.Step)
    requires EngineInv(e) && ProtocolStep(e, e', step) && IsQuiet(step)
    ensures EngineInv(e')
  {
    ProtocolInv(e.p, step);
    QuietFrame(e.p, step);
    SameCoupling(e, e');
    RootsKept(e, e', step);
  }

  lemma StartKeeps(e: Engine, e': Engine, step: P.Step)
    requires EngineInv(e) && ProtocolStep(e, e', step) && step.StartBuild?
    ensures EngineInv(e')
  {
    ProtocolInv(e.p, step);
    RaiseBound(e.st, e.p.master);
    SameCoupling(e, e');
    RootsKept(e, e', step);
  }

  lemma PublishKeeps(e: Engine, e': Engine, step: P.Step)
    requires EngineInv(e) && ProtocolStep(e, e', step) && step.WriteTs?
    ensures EngineInv(e')
  {
    ProtocolInv(e.p, step);
    PublishInv(e.st);
    SameCoupling(e, e');
    forall v: Ts ensures RootsOk(e', v) {
      assert RootsOk(e, v);
      if v in e.p.history && Wanted(e'.p, v) {
        WantedBefore(e.p, step, v);
      }
    }
  }

  // ---------------------------------------------------------------- copying

  lemma CopyProtocol(e: Engine, e': Engine, path: seq<nat>, np: nat, id: P.Id)
    requires EngineInv(e) && CopyStep(e, e', path, np, id)
    ensures P.Inv(e'.p) && e'.p == e.p.(lives := e'.p.lives) && id !in e.p.freed
    ensures
      var prev := At(e.st.h, e.st.roots[CURRENT], path);
      && (Real(e.st.h, prev) ==> prev in e.ident)
      && e'.p.lives == (if Real(e.st.h, prev)
                        then e.p.lives[id := Life(e.st.bound, INVALID_TS)][e.ident[prev] := Life(e.st.h[prev].start, e.st.bound)]
                        else e.p.lives[id := Life(e.st.bound, INVALID_TS)])
  {
    var prev := At(e.st.h, e.st.roots[CURRENT], path);
    assert id in e.p.freed ==> P.Given(e.p, id);
    P.MakerKeeps(e.p, P.AllocObject(id));
    if Real(e.st.h, prev) {
      assert PageIs(e, prev);
      P.MakerKeeps(Allocated(e.p, id), P.Obsolete(e.ident[prev]));
    }
  }

  lemma CopyPage(e: Engine, e': Engine, path: seq<nat>, np: nat, id: P.Id, pg: nat)
    requires EngineInv(e) && CopyStep(e, e', path, np, id)
    ensures PageIs(e', pg)
  {
    CopyProtocol(e, e', path, np, id);
    CowHasRecords(e.st, path, np);
    CowReadyFacts(e.st, path, np);
    var prev := At(e.st.h, e.st.roots[CURRENT], path);
    assert PageIs(e, pg) && PageIs(e, prev) && OnePage(e, pg, prev);
  }

  lemma CopyObjects(e: Engine, e': Engine, path: seq<nat>, np: nat, id: P.Id, i: P.Id)
    requires EngineInv(e) && CopyStep(e, e', path, np, id)
    ensures HasPage(e', i)
  {
    CopyProtocol(e, e', path, np, id);
    assert HasPage(e, i) && PageIs(e, np);
    if i == id {
      assert np in e'.ident && e'.ident[np] == i;
    } else if i in e'.p.lives && i !in e'.p.freed {
      var prev := At(e.st.h, e.st.roots[CURRENT], path);
      assert PageIs(e, prev);
      var pg :| pg in e.ident && e.ident[pg] == i;
      assert pg in e'.ident && e'.ident[pg] == i;
    }
  }

  lemma CopyKeeps(e: Engine, e': Engine, path: seq<nat>, np: nat, id: P.Id)
    requires EngineInv(e) && CopyStep(e, e', path, np, id)
    ensures EngineInv(e')
  {
    CopyProtocol(e, e', path, np, id);
    CowHasRecords(e.st, path, np);
    CowInv(e.st, path, np);
    forall pg: nat ensures PageIs(e', pg) { CopyPage(e, e', path, np, id, pg); }
    forall i: P.Id ensures HasPage(e', i) { CopyObjects(e, e', path, np, id, i); }
    forall a: nat, b: nat ensures OnePage(e', a, b) {
      assert OnePage(e, a, b) && PageIs(e, a) && PageIs(e, b);
    }
    forall v: Ts ensures RootsOk(e', v) {
      assert RootsOk(e, v);
      CopyWanted(e, e', path, np, id, v);
    }
  }

  lemma CopyWanted(e: Engine, e': Engine, path: seq<nat>, np: nat, id: P.Id, v: Ts)
    requires EngineInv(e) && CopyStep(e, e', path, np, id)
    ensures Wanted(e'.p, v) ==> Wanted(e.p, v)
  {
    CopyProtocol(e, e', path, np, id);
    if Wanted(e'.p, v) && v < e'.p.published {
      var t :| P.Holds(e'.p, t, v);
      assert P.Holds(e.p, t, v);
    }
  }

  /** The bookkeeping never stands in the way: whenever the build can copy a page, the step with
      its two notes to the protocol exists. */
  lemma CopyEnabled(e: Engine, path: seq<nat>, np: nat, id: P.Id) returns (e': Engine)
    requires EngineInv(e) && e.p.maker.Building? && id !in e.p.lives && CowReady(e.st, path, np)
    ensures CopyStep(e, e', path, np, id)
  {
    CowHasRecords(e.st, path, np);
    CowReadyFacts(e.st, path, np);
    var prev := At(e.st.h, e.st.roots[CURRENT], path);
    assert PageIs(e, prev);
    var p1 := Allocated(e.p, id);
    var p2 := if Real(e.st.h, prev) then P.DoMaker(p1, P.Obsolete(e.ident[prev])) else p1;
    e' := e.(p := p2, st := Cow(e.st, path, np), ident := e.ident[np := id]);
  }

  /** And whenever the collector may free an object, there is a page to free. */
  lemma FreeEnabled(e: Engine, step: P.Step) returns (e': Engine)
    requires EngineInv(e) && step.GcFree? && P.Enabled(e.p, step)
    ensures ProtocolStep(e, e', step)
  {
    assert P.Place(e.p, step.id) && HasPage(e, step.id);
    var pg :| pg in e.ident && e.ident[pg] == step.id;
    e' := e.(p := P.Do(e.p, step), st := Free(Trimmed(e), pg), ident := e.ident - {pg});
  }

  lemma WriteKeeps(e: Engine, e': Engine, path: seq<nat>, w: nat, ent: WsEnt)
    requires EngineInv(e) && WriteStep(e, e', path, w, ent)
    ensures EngineInv(e')
  {
    WriteLeafInv(e.st, path, w, ent.value);
    SameCoupling(e, e');
    forall v: Ts ensures RootsOk(e', v) {
      assert RootsOk(e, v);
    }
  }

  lemma SkipKeeps(e: Engine, e': Engine)
    requires EngineInv(e) && SkipStep(e, e')
    ensures EngineInv(e')
  {
    SameCoupling(e, e');
    forall v: Ts ensures RootsOk(e', v) {
      assert RootsOk(e, v);
    }
  }

  // ---------------------------------------------------------------- freeing

  lemma TrimmedInv(e: Engine)
    requires EngineInv(e)
    ensures Inv(Trimmed(e))
  {
    DropInv(e.st, Trimmed(e));
  }

  /** A page the collector may free is part of no checkpoint that must stay readable. */
  lemma FreeIsReady(e: Engine, step: P.Step, pg: nat)
    requires EngineInv(e) && step.GcFree? && P.Enabled(e.p, step) && pg in e.ident && e.ident[pg] == step.id
    ensures FreeReady(Trimmed(e), pg)
  {
    TrimmedInv(e);
    ProtocolInv(e.p, step);
    var p' := P.Do(e.p, step);
    assert PageIs(e, pg) && PageOk(e.st, pg);
    assert P.FreeOk(p', step.id);
    forall v | v in Trimmed(e).roots ensures !LiveAt(e.st.h[pg], v) {
      if v != CURRENT && v < e.p.published {
        var t :| P.Holds(e.p, t, v);
        assert P.Safe(p', t, v, step.id);
        assert P.Holds(p', t, v);
      }
    }
  }

  lemma FreeKeeps(e: Engine, e': Engine, step: P.Step)
    requires EngineInv(e) && ProtocolStep(e, e', step) && step.GcFree?
    ensures EngineInv(e')
  {
    var pg :| pg in e.ident && e.ident[pg] == step.id
              && e'.st == Free(Trimmed(e), pg) && e'.ident == e.ident - {pg};
    ProtocolInv(e.p, step);
    FreeIsReady(e, step, pg);
    FreeInv(Trimmed(e), pg);
    forall x: nat ensures PageIs(e', x) {
      assert PageIs(e, x) && PageIs(e, pg) && OnePage(e, x, pg);
    }
    forall i: P.Id ensures HasPage(e', i) {
      assert HasPage(e, i);
      if i in e'.p.lives && i !in e'.p.freed {
        var x :| x in e.ident && e.ident[x] == i;
        assert x in e'.ident && e'.ident[x] == i;
      }
    }
    forall a: nat, b: nat ensures OnePage(e', a, b) {
      assert OnePage(e, a, b);
    }
    forall v: Ts ensures RootsOk(e', v) {
      assert RootsOk(e, v);
      if v in e.p.history && Wanted(e'.p, v) {
        WantedBefore(e.p, step, v);
      }
    }
  }

  lemma InvNext(e: Engine, e': Engine)
    requires EngineInv(e) && Next(e, e')
    ensures EngineInv(e')
  {
    if path, np, id :| CopyStep(e, e', path, np, id) {
      CopyKeeps(e, e', path, np, id);
    } else if path, w, ent :| WriteStep(e, e', path, w, ent) {
      WriteKeeps(e, e', path, w, ent);
    } else if SkipStep(e, e') {
      SkipKeeps(e, e');
    } else {
      var step :| ProtocolStep(e, e', step);
      if IsQuiet(step) {
        QuietKeeps(e, e', step);
      } else if step.StartBuild? {
        StartKeeps(e, e', step);
      } else if step.WriteTs? {
        PublishKeeps(e, e', step);
      } else {
        FreeKeeps(e, e', step);
      }
    }
  }

  lemma RunNext(run: seq<Engine>, i: nat)
    requires Behavior(run) && i + 1 < |run|
    ensures Next(run[i], run[i + 1])
  {
    assert StepAt(run, i);
  }

  lemma {:induction false} InvAlways(run: seq<Engine>, n: nat)
    requires Behavior(run) && n < |run|
    ensures EngineInv(run[n])
    decreases n
  {
    if n == 0 {
      InvInit(run[0]);
    } else {
      InvAlways(run, n - 1);
      RunNext(run, n - 1);
      InvNext(run[n - 1], run[n]);
    }
  }

  // ---------------------------------------------------------------- what it gives

  lemma HeldHasRoot(e: Engine, t: Tid, c: Ts)
    requires EngineInv(e) && P.Holds(e.p, t, c)
    ensures c in e.p.history && c in e.st.roots && c != CURRENT
  {
    P.HeldInHistory(e.p, t, c);
    assert Wanted(e.p, c) && RootsOk(e, c);
  }

  /** In every run, every path from the root of a checkpoint somebody holds leads to memory
      that is still there: a zero page, nothing, or a page whose object was not freed. */
  lemma HeldPagesAreThere(run: seq<Engine>, n: nat, t: Tid, c: Ts, q: seq<nat>)
    requires Behavior(run) && n < |run| && P.Holds(run[n].p, t, c) && Path(q, DEPTH)
    ensures c in run[n].st.roots
    ensures
      var e := run[n];
      var pg := Read(e.st, c, q);
      && (pg == 0 || pg in e.st.h)
      && (Real(e.st.h, pg) ==> pg in e.ident && e.ident[pg] in e.p.lives && e.ident[pg] !in e.p.freed)
  {
    InvAlways(run, n);
    HeldHasRoot(run[n], t, c);
    OnPath(run[n].st, c, q);
    assert PageIs(run[n], Read(run[n].st, c, q));
  }

  /** One step changes nothing that can be read from a published checkpoint that is kept. */
  lemma ReadStep(e: Engine, e': Engine, v: Ts, q: seq<nat>)
    requires EngineInv(e) && Next(e, e') && v != CURRENT && Path(q, WORD_DEPTH)
    requires v in e.p.history && v in e'.st.roots
    ensures v in e.st.roots && Read(e'.st, v, q) == Read(e.st, v, q)
  {
    if path, np, id :| CopyStep(e, e', path, np, id) {
      CowHasRecords(e.st, path, np);
      CowOld(e.st, e'.st, path, np, v, q);
    } else if path, w, ent :| WriteStep(e, e', path, w, ent) {
      WriteLeafOld(e.st, path, w, ent.value, v, q);
    } else if !SkipStep(e, e') {
      var step :| ProtocolStep(e, e', step);
      ProtocolReads(e, e', step, v, q);
    }
  }

  lemma ProtocolReads(e: Engine, e': Engine, step: P.Step, v: Ts, q: seq<nat>)
    requires EngineInv(e) && ProtocolStep(e, e', step) && Path(q, WORD_DEPTH)
    requires v in e'.st.roots && (step.WriteTs? ==> v == CURRENT || v in e.p.history)
    ensures v in e.st.roots && Read(e'.st, v, q) == Read(e.st, v, q)
  {
    if step.GcFree? {
      var pg :| pg in e.ident && e.ident[pg] == step.id
                && e'.st == Free(Trimmed(e), pg) && e'.ident == e.ident - {pg};
      FreeIsReady(e, step, pg);
      FreeReads(Trimmed(e), pg, v, q);
    }
  }

  lemma HistoryStep(e: Engine, e': Engine)
    requires EngineInv(e) && Next(e, e')
    ensures e.p.history <= e'.p.history
  {
    if path, np, id :| CopyStep(e, e', path, np, id) {
      CopyProtocol(e, e', path, np, id);
    } else if exists path, w, ent :: WriteStep(e, e', path, w, ent) {
    } else if !SkipStep(e, e') {
      var step :| ProtocolStep(e, e', step);
      assert P.Next(e.p, e'.p);
      P.PublicationStep(e.p, e'.p);
    }
  }

  lemma HistoryAt(run: seq<Engine>, i: nat)
    requires Behavior(run) && i + 1 < |run|
    ensures run[i].p.history <= run[i + 1].p.history
  {
    InvAlways(run, i);
    RunNext(run, i);
    HistoryStep(run[i], run[i + 1]);
  }

  lemma ReadAt(run: seq<Engine>, i: nat, v: Ts, q: seq<nat>)
    requires Behavior(run) && i + 1 < |run| && v != CURRENT && Path(q, WORD_DEPTH)
    requires v in run[i].p.history && v in run[i + 1].st.roots
    ensures v in run[i].st.roots && Read(run[i + 1].st, v, q) == Read(run[i].st, v, q)
  {
    InvAlways(run, i);
    RunNext(run, i);
    ReadStep(run[i], run[i + 1], v, q);
  }

  lemma {:induction false} HistoryGrows(run: seq<Engine>, m: nat, n: nat)
    requires Behavior(run) && m <= n < |run|
    ensures run[m].p.history <= run[n].p.history
    decreases n
  {
    if m < n {
      HistoryGrows(run, m, n - 1);
      HistoryAt(run, n - 1);
    }
  }

  /** So a checkpoint that is still kept reads, page for page and word for word, as it did at
      any moment since it was published. */
  lemma {:induction false} ReadsStable(run: seq<Engine>, m: nat, n: nat, v: Ts, q: seq<nat>)
    requires Behavior(run) && m <= n < |run| && v != CURRENT && Path(q, WORD_DEPTH)
    requires v in run[m].p.history && v in run[n].st.roots
    ensures v in run[m].st.roots && Read(run[n].st, v, q) == Read(run[m].st, v, q)
    decreases n
  {
    if m < n {
      HistoryGrows(run, m, n - 1);
      ReadAt(run, n - 1, v, q);
      ReadsStable(run, m, n - 1, v, q);
    }
  }

  /** In particular for whoever holds it, through every build and every collection since. */
  lemma HeldReadsAreStable(run: seq<Engine>, m: nat, n: nat, t: Tid, c: Ts, q: seq<nat>)
    requires Behavior(run) && m <= n < |run| && Path(q, WORD_DEPTH)
    requires c in run[m].p.history && P.Holds(run[n].p, t, c)
    ensures c in run[m].st.roots && c in run[n].st.roots && Read(run[n].st, c, q) == Read(run[m].st, c, q)
  {
    InvAlways(run, n);
    HeldHasRoot(run[n], t, c);
    ReadsStable(run, m, n, c, q);
  }

  /** Conservation over real pages: in every run each page in memory stands for one object, no
      two for the same, which is in exactly one of the newest tree (or replaced by the build in
      progress), the hand-over list and the collector's hands; and an object has no page
      exactly if it was freed. */
  lemma PagesAreConserved(run: seq<Engine>, n: nat, pg: nat, id: P.Id)
    requires Behavior(run) && n < |run|
    ensures
      var e := run[n];
      && (Real(e.st.h, pg) ==>
            && pg in e.ident
            && var i := e.ident[pg];
            && i in e.p.lives && e.p.lives[i] == Life(e.st.h[pg].start, e.st.h[pg].obs)
            && multiset{!P.Retired(e.p, e.p.lives[i]), i in e.p.handed, i in e.p.drained}[true] == 1
            && forall other :: Real(e.st.h, other) && other in e.ident && e.ident[other] == i ==> other == pg)
      && (id in e.p.lives ==> (id in e.p.freed <==> forall x :: x in e.ident ==> e.ident[x] != id))
  {
    InvAlways(run, n);
    var e := run[n];
    assert PageIs(e, pg) && HasPage(e, id);
    if Real(e.st.h, pg) {
      var i := e.ident[pg];
      assert P.Place(e.p, i);
      forall other | Real(e.st.h, other) && other in e.ident && e.ident[other] == i ensures other == pg {
        assert OnePage(e, other, pg);
      }
    }
    forall x | x in e.ident && e.ident[x] == id ensures id !in e.p.freed {
      assert PageIs(e, x);
    }
  }

  // ---------------------------------------------------------------- what the trees mean

  /** The word at `a` after all entries before `k` and the first `i` writes of entry `k`. */
  ghost function Meaning(log: seq<LogEntry>, k: Ts, i: nat, a: Addr): Word
    requires PlaceOk(log, k, i)
  {
    if k <= |log| then Overlay(EntryAt(log, k).ws[..i], a, Snapshot(log, k - 1, a)) else Snapshot(log, k - 1, a)
  }

  ghost predicate PlaceOk(log: seq<LogEntry>, k: Ts, i: nat) {
    1 <= k <= |log| + 1 && if k <= |log| then i <= |EntryAt(log, k).ws| else i == 0
  }

  /** How far the newest tree has come. */
  ghost function Place(e: Engine): (Ts, nat) {
    if e.p.maker.Building? then (e.k, e.i)
    else if InBuild(e.p.maker) then (e.p.maker.next + 1, 0)
    else (e.p.top + 1, 0)
  }

  ghost predicate Located(e: Engine) {
    && |e.log| == e.p.master && e.p.top <= |e.log|
    && (!e.p.maker.Waiting? ==> e.p.maker.next <= |e.log|)
    && PlaceOk(e.log, Place(e).0, Place(e).1)
    && (e.p.maker.Building? ==>
          && e.k <= e.p.maker.next + 1 && (e.k == e.p.maker.next + 1 ==> e.i == 0)
          && (e.k <= |e.log| && EntryAt(e.log, e.k).aborted ==> e.i == 0))
  }

  /** At address `a`, every published tree holds the snapshot of its timestamp, and the newest
      tree what the build has applied so far. */
  ghost predicate WordOk(e: Engine, a: Addr)
    requires Located(e) && CURRENT in e.st.roots
  {
    Addressable(a) ==>
      && Read(e.st, CURRENT, WordPath(a)) == Meaning(e.log, Place(e).0, Place(e).1, a)
      && forall v :: v in e.st.roots && v != CURRENT ==> PublishedOk(e, v, a)
  }

  ghost predicate PublishedOk(e: Engine, v: Ts, a: Addr)
    requires v in e.st.roots
  {
    v <= |e.log| && Read(e.st, v, WordPath(a)) == Snapshot(e.log, v, a)
  }

  ghost predicate Faithful(e: Engine) {
    && Located(e) && CURRENT in e.st.roots
    && forall a {:trigger WordOk(e, a)} :: WordOk(e, a)
  }

  lemma MeaningGrows(log: seq<LogEntry>, log': seq<LogEntry>, k: Ts, i: nat, a: Addr)
    requires PlaceOk(log, k, i) && log <= log'
    ensures PlaceOk(log', k, i) && Meaning(log', k, i, a) == Meaning(log, k, i, a)
  {
    SnapshotPrefix(log, log', k - 1, a);
  }

  lemma MeaningNext(log: seq<LogEntry>, k: Ts, i: nat, a: Addr)
    requires PlaceOk(log, k, i) && k <= |log|
    requires if EntryAt(log, k).aborted then i == 0 else i == |EntryAt(log, k).ws|
    ensures Meaning(log, k + 1, 0, a) == Meaning(log, k, i, a) == Snapshot(log, k, a)
  {
    var ws := EntryAt(log, k).ws;
    assert ws[..|ws|] == ws;
    assert k + 1 <= |log| ==> EntryAt(log, k + 1).ws[..0] == [];
  }

  /** Nothing that can be read at `a` has changed. */
  ghost predicate SameReads(s: Store, s': Store, a: Addr) {
    forall v {:trigger v in s'.roots} :: v in s'.roots ==>
      v in s.roots && Read(s', v, WordPath(a)) == Read(s, v, WordPath(a))
  }

  lemma WordKept(e: Engine, e': Engine, a: Addr)
    requires Located(e) && Located(e') && CURRENT in e.st.roots && CURRENT in e'.st.roots && WordOk(e, a)
    requires Place(e') == Place(e) && e.log <= e'.log && (Addressable(a) ==> SameReads(e.st, e'.st, a))
    ensures WordOk(e', a)
  {
    MeaningGrows(e.log, e'.log, Place(e).0, Place(e).1, a);
    if Addressable(a) {
      forall v | v in e'.st.roots && v != CURRENT ensures PublishedOk(e', v, a) {
        assert PublishedOk(e, v, a);
        SnapshotPrefix(e.log, e'.log, v, a);
      }
    }
  }

  lemma FaithfulInit(e: Engine)
    requires Init(e)
    ensures Faithful(e)
  {
    forall a ensures WordOk(e, a) {
      CheckpointStore.EmptyTree(e.st.h, WordPath(a));
    }
  }

  lemma CopyReads(st: Store, path: seq<nat>, np: nat)
    requires CowReady(st, path, np) && |path| <= DEPTH
    ensures |st.zeros| == FOFFSET_LEVELS && (path != [] ==> |st.h[ParentAt(st, path)].mem| == CHILDREN)
    ensures CURRENT in Cow(st, path, np).roots && forall a {:trigger WordPath(a)} :: SameReads(st, Cow(st, path, np), a)
  {
    var leaf := path + seq(DEPTH - |path|, _ => 0);
    CheckpointStore.CowCopied(st, path, np, leaf);
    forall a: Addr ensures SameReads(st, Cow(st, path, np), a) {
      WordPathShape(a);
    }
  }

  lemma FaithfulCopy(e: Engine, e': Engine, path: seq<nat>, np: nat, id: P.Id)
    requires EngineInv(e) && Faithful(e) && CopyStep(e, e', path, np, id)
    ensures Faithful(e')
  {
    CopyProtocol(e, e', path, np, id);
    CopyReads(e.st, path, np);
    forall a ensures WordOk(e', a) {
      assert WordOk(e, a);
      WordKept(e, e', a);
    }
  }

  lemma FaithfulSkip(e: Engine, e': Engine)
    requires EngineInv(e) && Faithful(e) && SkipStep(e, e')
    ensures Faithful(e')
  {
    forall a ensures WordOk(e', a) {
      assert WordOk(e, a);
      MeaningNext(e.log, e.k, e.i, a);
      if Addressable(a) {
        forall v | v in e'.st.roots && v != CURRENT ensures PublishedOk(e', v, a) {
          assert PublishedOk(e, v, a);
        }
      }
    }
  }

  lemma MeaningWrite(log: seq<LogEntry>, k: Ts, i: nat, a: Addr)
    requires PlaceOk(log, k, i) && k <= |log| && i < |EntryAt(log, k).ws|
    ensures
      var ent := EntryAt(log, k).ws[i];
      PlaceOk(log, k, i + 1) && Meaning(log, k, i + 1, a) == if Writes(ent, a) then ent.value else Meaning(log, k, i, a)
  {
    var ws := EntryAt(log, k).ws;
    assert ws[..i + 1][..i] == ws[..i] && ws[..i + 1][i] == ws[i];
  }

  lemma WrittenWord(e: Engine, e': Engine, path: seq<nat>, w: nat, ent: WsEnt, a: Addr)
    requires EngineInv(e) && WriteStep(e, e', path, w, ent) && Addressable(a)
    ensures CURRENT in e'.st.roots
    ensures Read(e'.st, CURRENT, WordPath(a)) == if Writes(ent, a) then ent.value else Read(e.st, CURRENT, WordPath(a))
    ensures forall v :: v in e.st.roots && v != CURRENT ==>
      v in e'.st.roots && Read(e'.st, v, WordPath(a)) == Read(e.st, v, WordPath(a))
  {
    WordPathShape(a);
    WriteLeafReads(e.st, path, w, ent.value, WordPath(a));
    assert WordPath(Addr(ent.ino, ent.off)) == path + [w];
    if WordPath(a) == path + [w] {
      WordPathInjective(a, Addr(ent.ino, ent.off));
    }
    forall v | v in e.st.roots && v != CURRENT
      ensures v in e'.st.roots && Read(e'.st, v, WordPath(a)) == Read(e.st, v, WordPath(a))
    {
      WriteLeafOld(e.st, path, w, ent.value, v, WordPath(a));
    }
  }

  lemma FaithfulWrite(e: Engine, e': Engine, path: seq<nat>, w: nat, ent: WsEnt)
    requires EngineInv(e) && Faithful(e) && WriteStep(e, e', path, w, ent)
    ensures Faithful(e')
  {
    forall a ensures WordOk(e', a) {
      assert WordOk(e, a);
      MeaningWrite(e.log, e.k, e.i, a);
      if Addressable(a) {
        WrittenWord(e, e', path, w, ent, a);
        forall v | v in e'.st.roots && v != CURRENT ensures PublishedOk(e', v, a) {
          assert PublishedOk(e, v, a);
        }
      }
    }
  }

  lemma LocatedQuiet(e: Engine, e': Engine, step: P.Step)
    requires P.MakerOk(e.p) && P.MakerOk(e'.p) && Located(e) && ProtocolStep(e, e', step) && IsQuiet(step)
    ensures Located(e') && Place(e') == Place(e)
  {
    QuietFrame(e.p, step);
    MakerMoves(e.p, step);
  }

  /** Only the maker and commits move what a build goes by. */
  lemma MakerMoves(p: P.State, step: P.Step)
    requires P.Enabled(p, step)
    ensures P.Do(p, step).master == (if step.Commit? then p.master + 1 else p.master)
    ensures !P.EnabledMaker(p, step) ==> P.Do(p, step).maker == p.maker
    ensures P.EnabledMaker(p, step) && IsQuiet(step) ==> !P.Do(p, step).maker.Building? && (p.maker.Building? ==> step.Mark?)
  {
    if !step.Commit? && !P.EnabledMaker(p, step) && !P.EnabledThread(p, step) {
      P.CollectorFrames(p, step);
    }
  }

  lemma LocatedStep(e: Engine, e': Engine, step: P.Step)
    requires P.MakerOk(e.p) && P.MakerOk(e'.p) && Located(e) && ProtocolStep(e, e', step)
    ensures Located(e') && Place(e') == Place(e) && e.log <= e'.log
  {
    if IsQuiet(step) {
      LocatedQuiet(e, e', step);
    } else {
      MakerMoves(e.p, step);
    }
  }

  lemma FaithfulKept(e: Engine, e': Engine, step: P.Step, a: Addr)
    requires EngineInv(e) && ProtocolStep(e, e', step) && !step.WriteTs?
    ensures SameReads(e.st, e'.st, a)
  {
    WordPathShape(a);
    forall v | v in e'.st.roots ensures v in e.st.roots && Read(e'.st, v, WordPath(a)) == Read(e.st, v, WordPath(a)) {
      ProtocolReads(e, e', step, v, WordPath(a));
    }
  }

  lemma FaithfulPublish(e: Engine, e': Engine, step: P.Step, a: Addr)
    requires EngineInv(e) && Faithful(e) && Located(e') && ProtocolStep(e, e', step) && step.WriteTs?
    requires Place(e') == Place(e)
    ensures CURRENT in e'.st.roots && WordOk(e', a)
  {
    assert WordOk(e, a);
    if Addressable(a) {
      forall v | v in e'.st.roots && v != CURRENT ensures PublishedOk(e', v, a) {
        assert v != e.st.bound ==> PublishedOk(e, v, a);
      }
    }
  }

  lemma FaithfulProtocol(e: Engine, e': Engine, step: P.Step)
    requires EngineInv(e) && EngineInv(e') && Faithful(e) && ProtocolStep(e, e', step)
    ensures Faithful(e')
  {
    LocatedStep(e, e', step);
    forall a ensures WordOk(e', a) {
      assert WordOk(e, a);
      if step.WriteTs? {
        FaithfulPublish(e, e', step, a);
      } else {
        FaithfulKept(e, e', step, a);
        WordKept(e, e', a);
      }
    }
  }

  lemma FaithfulNext(e: Engine, e': Engine)
    requires EngineInv(e) && EngineInv(e') && Faithful(e) && Next(e, e')
    ensures Faithful(e')
  {
    if path, np, id :| CopyStep(e, e', path, np, id) {
      FaithfulCopy(e, e', path, np, id);
    } else if path, w, ent :| WriteStep(e, e', path, w, ent) {
      FaithfulWrite(e, e', path, w, ent);
    } else if SkipStep(e, e') {
      FaithfulSkip(e, e');
    } else {
      var step :| ProtocolStep(e, e', step);
      FaithfulProtocol(e, e', step);
    }
  }

  lemma FaithfulAt(run: seq<Engine>, i: nat)
    requires Behavior(run) && i + 1 < |run| && Faithful(run[i])
    ensures Faithful(run[i + 1])
  {
    InvAlways(run, i);
    InvAlways(run, i + 1);
    RunNext(run, i);
    FaithfulNext(run[i], run[i + 1]);
  }

  lemma {:induction false} FaithfulAlways(run: seq<Engine>, n: nat)
    requires Behavior(run) && n < |run|
    ensures Faithful(run[n])
    decreases n
  {
    if n == 0 {
      FaithfulInit(run[0]);
    } else {
      FaithfulAlways(run, n - 1);
      FaithfulAt(run, n - 1);
    }
  }

  /** In every run, whatever commits, builds and collections go on beside it, a thread reads
      from the checkpoint it holds exactly the log's snapshot at that checkpoint's timestamp. */
  lemma HeldReadsSnapshot(run: seq<Engine>, n: nat, t: Tid, c: Ts, a: Addr)
    requires Behavior(run) && n < |run| && P.Holds(run[n].p, t, c) && Addressable(a)
    ensures c in run[n].st.roots && c <= |run[n].log| == run[n].p.master
    ensures Read(run[n].st, c, WordPath(a)) == Snapshot(run[n].log, c, a)
  {
    InvAlways(run, n);
    FaithfulAlways(run, n);
    HeldHasRoot(run[n], t, c);
    assert WordOk(run[n], a) && PublishedOk(run[n], c, a);
  }

  function ZeroPage(zeros: seq<nat>, p: nat): Page
    requires |zeros| == FOFFSET_LEVELS && p > 0
  {
    Page(ZeroMem(zeros, p - 1), 0, INVALID_TS, p - 1, true)
  }

  lemma Formatted(zeros: seq<nat>) returns (st: Store)
    requires |zeros| == FOFFSET_LEVELS && forall l :: 0 <= l < |zeros| ==> zeros[l] == l + 1
    ensures Inv(st) && st.bound == 0 && st.roots == map[0 := 0, CURRENT := 0] && forall pg :: !Real(st.h, pg)
  {
    var h: Heap := map p | p in {1, 2, 3, 4} :: ZeroPage(zeros, p);
    forall p: nat ensures CheckpointStore.ZeroPageAt(h, zeros, p) && !Real(h, p) {
    }
    st := Store(h, zeros, map[], map[0 := 0, CURRENT := 0], 0);
    CheckpointStore.EmptyWf(st);
  }

  /** The system has a beginning, with any set of threads. */
  lemma InitExists(threads: set<Tid>) returns (e: Engine)
    ensures Init(e) && e.p.threads.Keys == threads
  {
    var st := Formatted([1, 2, 3, 4]);
    var idle := P.Thread(INVALID_TS, None, INVALID_TS, INVALID_TS, P.Running);
    var p := P.State(0, 0, 0, 0, P.Waiting, map t | t in threads :: idle, map[], {}, None, {}, {}, None, 0, 0, 0, {0});
    e := Engine(p, st, map[], [], 0, 0);
  }
}
