/** What each party of the checkpoint protocol gets done by its own steps, from any reachable
    state and whatever the others were in the middle of, and how fresh a checkout is. */
module CheckpointProgress {
  import opened Types
  import opened CheckpointProtocol

  datatype Party = Maker | Worker(t: Tid) | PageCollector | LogCollector

  predicate By(who: Party, step: Step) {
    match who
    case Maker => step.StartBuild? || step.Mark? || step.WriteDirty? || step.WritePtr? || step.WriteTs? || step.WritePublished?
    case Worker(t) => IsThreadStep(step) && step.t == t
    case PageCollector => step.GcDrain? || step.GcReadLow? || step.GcScan? || step.GcFree? || step.GcEnd?
    case LogCollector => step.LogReadLow? || step.LogScan? || step.LogDelete?
  }

  ghost predicate NextBy(s: State, s': State, who: Party) {
    exists step :: By(who, step) && Enabled(s, step) && s' == Do(s, step)
  }

  /** One party alone takes the system from `s` to `s'`. */
  ghost predicate Alone(run: seq<State>, who: Party, s: State, s': State) {
    |run| > 0 && run[0] == s && Last(run) == s' && forall i :: 0 <= i < |run| - 1 ==> NextBy(run[i], run[i + 1], who)
  }

  lemma One(s: State, step: Step, who: Party) returns (run: seq<State>)
    requires By(who, step) && Enabled(s, step)
    ensures Alone(run, who, s, Do(s, step))
  {
    run := [s, Do(s, step)];
    assert NextBy(s, Do(s, step), who);
  }

  lemma Join(r1: seq<State>, r2: seq<State>, who: Party, s: State, s1: State, s2: State) returns (run: seq<State>)
    requires Alone(r1, who, s, s1) && Alone(r2, who, s1, s2)
    ensures Alone(run, who, s, s2)
  {
    run := r1 + r2[1..];
    forall i | 0 <= i < |run| - 1 ensures NextBy(run[i], run[i + 1], who) {
      if i < |r1| - 1 {
        assert NextBy(r1[i], r1[i + 1], who);
      } else {
        var j := i - (|r1| - 1);
        assert run[i] == r2[j] && NextBy(r2[j], r2[j + 1], who);
      }
    }
  }

  // ---------------------------------------------------------------- checking out

  ghost function WithThread(s: State, t: Tid, th: Thread): State {
    s.(threads := s.threads[t := th])
  }

  lemma OwnMove(s: State, step: Step) returns (run: seq<State>)
    requires EnabledThread(s, step)
    ensures Alone(run, Worker(step.t), s, WithThread(s, step.t, Move(s, step)))
  {
    run := One(s, step, Worker(step.t));
  }

  predicate Choosing(pc: ThreadPc) {
    pc.FirstRead? || pc.ReadPtr? || pc.Announce? || pc.Recheck? || pc.Reread?
  }

  function ChoosingStep(t: Tid, pc: ThreadPc): Step
    requires Choosing(pc)
  {
    match pc
    case FirstRead => ReadLatest(t)
    case ReadPtr(_) => ReadPointer(t)
    case Announce(_) => AnnounceTs(t)
    case Recheck(_) => RecheckTs(t)
    case Reread => RereadTs(t)
  }

  function ChoosingLeft(pc: ThreadPc, latest: Ts): nat {
    match pc
    case FirstRead => 9
    case ReadPtr(c) => if c == latest then 4 else 8
    case Announce(c) => if c == latest then 3 else 7
    case Recheck(c) => if c == latest then 2 else 6
    case Reread => 5
    case _ => 0
  }

  lemma ChoosingMove(s: State, t: Tid)
    requires MakerOk(s) && s.latestTs != INVALID_TS && t in s.threads && ThreadOk(s, s.threads[t]) && Choosing(s.threads[t].pc)
    ensures EnabledThread(s, ChoosingStep(t, s.threads[t].pc))
    ensures
      var th, th' := s.threads[t], Move(s, ChoosingStep(t, s.threads[t].pc));
      && th'.ts == th.ts && th'.priorTs == th.priorTs
      && ChoosingLeft(th'.pc, s.latestTs) < ChoosingLeft(th.pc, s.latestTs)
      && (!Choosing(th'.pc) ==> th' == Thread(th.ts, Some(s.latestTs), s.latestTs, th.priorTs, TakeTs(s.latestTs)))
  {
  }

  /** While nothing is being published, a thread anywhere in the double-read loop gets out of it
      with the latest checkpoint. */
  lemma {:induction false} ChooseAlone(s: State, t: Tid) returns (run: seq<State>)
    requires Inv(s) && s.latestTs != INVALID_TS && t in s.threads && Choosing(s.threads[t].pc)
    ensures
      var th := s.threads[t];
      Alone(run, Worker(t), s, WithThread(s, t, Thread(th.ts, Some(s.latestTs), s.latestTs, th.priorTs, TakeTs(s.latestTs))))
    decreases ChoosingLeft(s.threads[t].pc, s.latestTs)
  {
    var th := s.threads[t];
    assert ThreadOk(s, th);
    ChoosingMove(s, t);
    var step := ChoosingStep(t, th.pc);
    run := OwnMove(s, step);
    var s1 := Moved(s, step);
    if Choosing(s1.threads[t].pc) {
      ThreadKeeps(s, step);
      var more := ChooseAlone(s1, t);
      var done := Thread(th.ts, Some(s.latestTs), s.latestTs, th.priorTs, TakeTs(s.latestTs));
      assert WithThread(s1, t, done) == WithThread(s, t, done);
      run := Join(run, more, Worker(t), s, s1, WithThread(s, t, done));
    }
  }

  /** The log from `ts` to master_ts is no longer all there. */
  predicate Behind(s: State, ts: Ts) {
    ts != INVALID_TS && ts < s.master && ts + 1 < s.deleted
  }

  lemma FinishAlone(s: State, t: Tid, th: Thread) returns (run: seq<State>)
    requires t in s.threads && s.threads[t] == th && th.pc.TakeTs?
    ensures Alone(run, Worker(t), s,
      WithThread(s, t, if Behind(s, th.ts) then th.(pc := Running) else th.(ts := s.master, priorTs := th.pc.c, pc := Running)))
  {
    var c := th.pc.c;
    run := OwnMove(s, ReadMaster(t));
    var th1 := th.(pc := Updating(c, s.master));
    var s1 := WithThread(s, t, th1);
    if Behind(s, th.ts) {
      var more := OwnMove(s1, RefuseUpdate(t));
      assert WithThread(s1, t, th.(pc := Running)) == WithThread(s, t, th.(pc := Running));
      run := Join(run, more, Worker(t), s, s1, WithThread(s, t, th.(pc := Running)));
    } else {
      var th2 := th.(ts := s.master, pc := Release(c));
      var th3 := th.(ts := s.master, priorTs := c, pc := Running);
      var more := OwnMove(s1, FinishUpdate(t));
      assert WithThread(s1, t, th2) == WithThread(s, t, th2);
      run := Join(run, more, Worker(t), s, s1, WithThread(s, t, th2));
      more := OwnMove(WithThread(s, t, th2), ReleasePrior(t));
      assert WithThread(WithThread(s, t, th2), t, th3) == WithThread(s, t, th3);
      run := Join(run, more, Worker(t), s, WithThread(s, t, th2), WithThread(s, t, th3));
    }
  }

  /** A whole checkout while nothing is being published: the thread ends on the latest checkpoint,
      announced in both fields, with master_ts as its snapshot; or, if the log it needs is gone,
      on the latest checkpoint with everything else as it was. */
  lemma CheckoutAlone(s: State, t: Tid) returns (run: seq<State>)
    requires Inv(s) && s.latestTs != INVALID_TS && t in s.threads && s.threads[t].pc.Running?
    ensures
      var th := s.threads[t];
      Alone(run, Worker(t), s,
        WithThread(s, t, if Behind(s, th.ts) then Thread(th.ts, Some(s.latestTs), s.latestTs, th.priorTs, Running)
                         else Thread(s.master, Some(s.latestTs), s.latestTs, s.latestTs, Running)))
  {
    var th, c := s.threads[t], s.latestTs;
    run := OwnMove(s, StartCheckout(t));
    var s1 := Moved(s, StartCheckout(t));
    ThreadKeeps(s, StartCheckout(t));
    var more := ChooseAlone(s1, t);
    var th2 := Thread(th.ts, Some(c), c, th.priorTs, TakeTs(c));
    assert WithThread(s1, t, th2) == WithThread(s, t, th2);
    run := Join(run, more, Worker(t), s, s1, WithThread(s, t, th2));
    more := FinishAlone(WithThread(s, t, th2), t, th2);
    var th3 := if Behind(s, th.ts) then Thread(th.ts, Some(c), c, th.priorTs, Running) else Thread(s.master, Some(c), c, c, Running);
    assert WithThread(WithThread(s, t, th2), t, th3) == WithThread(s, t, th3);
    run := Join(run, more, Worker(t), s, WithThread(s, t, th2), WithThread(s, t, th3));
  }

  /** A pause gives everything up. */
  lemma PauseAlone(s: State, t: Tid) returns (run: seq<State>)
    requires t in s.threads && s.threads[t].pc.Running?
    ensures Alone(run, Worker(t), s, WithThread(s, t, Thread(INVALID_TS, None, INVALID_TS, INVALID_TS, Running)))
  {
    var th := s.threads[t];
    var th1 := th.(ts := INVALID_TS, pc := Pausing(1));
    var th2 := th1.(cpTs := INVALID_TS, pc := Pausing(2));
    var th3 := th2.(priorTs := INVALID_TS, pc := Pausing(3));
    run := OwnMove(s, Pause(t));
    run := AndPause(run, s, t, th1, th2);
    run := AndPause(run, s, t, th2, th3);
    run := AndPause(run, s, t, th3, Thread(INVALID_TS, None, INVALID_TS, INVALID_TS, Running));
  }

  lemma AndPause(before: seq<State>, s: State, t: Tid, th: Thread, th': Thread) returns (run: seq<State>)
    requires Alone(before, Worker(t), s, WithThread(s, t, th)) && th.pc.Pausing?
    requires th' == Move(WithThread(s, t, th), Pause(t))
    ensures Alone(run, Worker(t), s, WithThread(s, t, th'))
  {
    var more := OwnMove(WithThread(s, t, th), Pause(t));
    assert WithThread(WithThread(s, t, th), t, th') == WithThread(s, t, th');
    run := Join(before, more, Worker(t), s, WithThread(s, t, th), WithThread(s, t, th'));
  }

  // ---------------------------------------------------------------- how fresh a checkout is

  /** On the way from a checkout's first read, with nothing taken that is older than `low`. */
  predicate FreshFrom(th: Thread, low: Ts) {
    || Choosing(th.pc) || th.pc.TakeTs?
    || (th.pc.Updating? && low <= th.pc.next) || (th.pc.Release? && low <= th.ts)
  }

  lemma FreshMove(s: State, step: Step, low: Ts)
    requires EnabledThread(s, step) && FreshFrom(s.threads[step.t], low) && low <= s.master
    ensures FreshFrom(Move(s, step), low) || Move(s, step).pc.Running?
  {
  }

  lemma MasterGrows(s: State, step: Step)
    requires Enabled(s, step)
    ensures s.master <= Do(s, step).master
  {
    if !step.Commit? && !EnabledMaker(s, step) && !EnabledThread(s, step) {
      CollectorFrames(s, step);
    }
  }

  lemma FreshStep(s: State, s': State, t: Tid, low: Ts)
    requires Next(s, s') && t in s.threads && t in s'.threads && FreshFrom(s.threads[t], low) && low <= s.master
    ensures low <= s'.master && (FreshFrom(s'.threads[t], low) || s'.threads[t].pc.Running?)
  {
    var step :| Enabled(s, step) && s' == Do(s, step);
    MasterGrows(s, step);
    if EnabledThread(s, step) {
      if step.t == t {
        FreshMove(s, step, low);
      }
    } else {
      OthersKeepThreads(s, step);
    }
  }

  lemma {:induction false} FreshUntil(run: seq<State>, m: nat, n: nat, t: Tid)
    requires Behavior(run) && m <= n < |run| && t in run[n].threads && t in run[m].threads && run[m].threads[t].pc.FirstRead?
    requires forall i :: m <= i <= n && t in run[i].threads ==> !run[i].threads[t].pc.Running?
    ensures run[m].master <= run[n].master && FreshFrom(run[n].threads[t], run[m].master)
    decreases n
  {
    if m < n {
      ThreadsFixed(run, n - 1, t);
      FreshUntil(run, m, n - 1, t);
      RunNext(run, n - 1);
      FreshStep(run[n - 1], run[n], t, run[m].master);
    }
  }

  /** In every interleaving the snapshot a checkout takes is no older than master_ts was when the
      checkout began, so it contains everything committed before, the thread's own commit in
      particular. */
  lemma CheckoutIsFresh(run: seq<State>, m: nat, n: nat, t: Tid)
    requires Behavior(run) && m <= n < |run| && t in run[n].threads && t in run[m].threads && run[m].threads[t].pc.FirstRead?
    requires forall i :: m <= i <= n && t in run[i].threads ==> !run[i].threads[t].pc.Running?
    ensures run[n].threads[t].pc.Updating? ==> run[m].master <= run[n].threads[t].pc.next
    ensures run[n].threads[t].pc.Release? ==> run[m].master <= run[n].threads[t].ts
  {
    FreshUntil(run, m, n, t);
  }

  // ---------------------------------------------------------------- publishing

  /** A build that is done is published by the maker alone. */
  lemma PublishAlone(s: State) returns (run: seq<State>)
    requires s.maker.Building?
    ensures
      var c := s.maker.next;
      Alone(run, Maker, s, s.(maker := Waiting, latestPtr := c, latestTs := c, published := c, top := c,
                              history := s.history + {c}, handed := s.handed + set id | id in s.lives && s.lives[id].obs == c))
  {
    var s1 := Do(s, Mark);
    var s2 := Do(s1, WriteDirty);
    var s3 := Do(s2, WritePtr);
    var s4 := Do(s3, WriteTs);
    var s5 := Do(s4, WritePublished);
    run := [s, s1, s2, s3, s4, s5];
    assert By(Maker, Mark) && By(Maker, WriteDirty) && By(Maker, WritePtr) && By(Maker, WriteTs) && By(Maker, WritePublished);
    assert NextBy(s, s1, Maker) && NextBy(s1, s2, Maker) && NextBy(s2, s3, Maker) && NextBy(s3, s4, Maker) && NextBy(s4, s5, Maker);
  }

  /** Whenever something was committed since the last checkpoint, the maker can publish one of
      the newest state. */
  lemma MakeAlone(s: State) returns (run: seq<State>)
    requires s.maker.Waiting? && s.master != s.latestTs
    ensures
      var c := s.master;
      Alone(run, Maker, s, s.(latestPtr := c, latestTs := c, published := c, top := c,
                              history := s.history + {c}, handed := s.handed + set id | id in s.lives && s.lives[id].obs == c))
  {
    run := One(s, StartBuild, Maker);
    var s1 := Do(s, StartBuild);
    var more := PublishAlone(s1);
    run := Join(run, more, Maker, s, s1, Last(more));
  }

  // ---------------------------------------------------------------- collecting

  /** The versions the threads in `done` announce. */
  ghost function AnnouncedBy(s: State, done: set<Tid>): set<Ts> {
    (set t | t in done && t in s.threads :: s.threads[t].cpTs) + (set t | t in done && t in s.threads :: s.threads[t].priorTs)
  }

  ghost function PutScan(s: State, isLog: bool, scan: Option<Scan>): State {
    if isLog then s.(logGc := scan) else s.(gc := scan)
  }

  function Scanner(isLog: bool): Party {
    if isLog then LogCollector else PageCollector
  }

  function ScanStep(isLog: bool, t: Tid): Step {
    if isLog then LogScan(t) else GcScan(t)
  }

  /** A scan that has read both fields of the threads in `done` and nothing else. */
  ghost function ScanAt(s: State, low: Ts, done: set<Tid>): Scan {
    Scan(low, AnnouncedBy(s, done), map t | t in s.threads :: if t in done then 2 else 0)
  }

  lemma ScanOneThread(s: State, isLog: bool, low: Ts, done: set<Tid>, t: Tid) returns (run: seq<State>)
    requires t in s.threads && t !in done && done <= s.threads.Keys
    ensures Alone(run, Scanner(isLog), PutScan(s, isLog, Some(ScanAt(s, low, done))),
                  PutScan(s, isLog, Some(ScanAt(s, low, done + {t}))))
  {
    var scan := ScanAt(s, low, done);
    var th := s.threads[t];
    var mid := ScanOne(scan, th, t);
    var end := ScanOne(mid, th, t);
    var s0, s1, s2 := PutScan(s, isLog, Some(scan)), PutScan(s, isLog, Some(mid)), PutScan(s, isLog, Some(end));
    run := One(s0, ScanStep(isLog, t), Scanner(isLog));
    var more := One(s1, ScanStep(isLog, t), Scanner(isLog));
    run := Join(run, more, Scanner(isLog), s0, s1, s2);
    assert end.seen == AnnouncedBy(s, done + {t});
    assert end.phase == ScanAt(s, low, done + {t}).phase;
  }

  lemma {:induction false} ScanAlone(s: State, isLog: bool, low: Ts, done: set<Tid>) returns (run: seq<State>)
    requires done <= s.threads.Keys
    ensures Alone(run, Scanner(isLog), PutScan(s, isLog, Some(ScanAt(s, low, done))),
                  PutScan(s, isLog, Some(ScanAt(s, low, s.threads.Keys))))
    decreases s.threads.Keys - done
  {
    if done == s.threads.Keys {
      run := [PutScan(s, isLog, Some(ScanAt(s, low, done)))];
    } else {
      var t :| t in s.threads && t !in done;
      run := ScanOneThread(s, isLog, low, done, t);
      var more := ScanAlone(s, isLog, low, done + {t});
      run := Join(run, more, Scanner(isLog), PutScan(s, isLog, Some(ScanAt(s, low, done))),
                  PutScan(s, isLog, Some(ScanAt(s, low, done + {t}))), PutScan(s, isLog, Some(ScanAt(s, low, s.threads.Keys))));
    }
  }

  ghost function Announced(s: State): set<Ts> {
    AnnouncedBy(s, s.threads.Keys)
  }

  lemma FirstScan(s: State)
    ensures NewScan(s) == ScanAt(s, s.published, {})
  {
    assert NewScan(s).seen == AnnouncedBy(s, {});
    assert NewScan(s).phase == ScanAt(s, s.published, {}).phase;
  }

  /** The log collector alone deletes everything below the published checkpoint and all announced
      versions, and makes that the tested cut. */
  lemma DeleteAlone(s: State) returns (run: seq<State>)
    requires s.logGc.None?
    ensures
      var cut := MinOf(s.published, Announced(s));
      Alone(run, LogCollector, s, s.(stopTs := cut, deleted := if cut > s.deleted then cut else s.deleted))
  {
    FirstScan(s);
    run := One(s, LogReadLow, LogCollector);
    var s1 := PutScan(s, true, Some(ScanAt(s, s.published, {})));
    var s2 := PutScan(s, true, Some(ScanAt(s, s.published, s.threads.Keys)));
    var more := ScanAlone(s, true, s.published, {});
    run := Join(run, more, LogCollector, s, s1, s2);
    more := One(s2, LogDelete, LogCollector);
    run := Join(run, more, LogCollector, s, s2, Do(s2, LogDelete));
  }

  /** Nobody can see the object any more: its life has ended, and no version that is announced
      lies in it. */
  ghost predicate Garbage(s: State, id: Id) {
    && id in s.lives && s.lives[id].obs <= s.published
    && forall v :: v in Announced(s) ==> !Contains(s.lives[id], v)
  }

  lemma OneCollector(s: State, step: Step, who: Party) returns (run: seq<State>)
    requires By(who, step) && EnabledCollector(s, step)
    ensures Alone(run, who, s, DoCollector(s, step))
  {
    run := One(s, step, who);
  }

  lemma ScanPages(s: State) returns (run: seq<State>)
    requires s.gc.None?
    ensures Alone(run, PageCollector, s, s.(gc := Some(ScanAt(s, s.published, s.threads.Keys))))
  {
    FirstScan(s);
    run := OneCollector(s, GcReadLow, PageCollector);
    var more := ScanAlone(s, false, s.published, {});
    run := Join(run, more, PageCollector, s, PutScan(s, false, Some(ScanAt(s, s.published, {}))),
                s.(gc := Some(ScanAt(s, s.published, s.threads.Keys))));
  }

  /** Garbage that was handed over is freed by the collector alone. */
  lemma FreeAlone(s: State, id: Id) returns (run: seq<State>)
    requires s.gc.None? && (id in s.handed || id in s.drained) && Garbage(s, id)
    ensures
      Alone(run, PageCollector, s, s.(drained := s.drained + s.handed - {id}, handed := {}, freed := s.freed + {id}))
  {
    run := OneCollector(s, GcDrain, PageCollector);
    var s1 := s.(drained := s.drained + s.handed, handed := {});
    var more := ScanPages(s1);
    var s2 := s1.(gc := Some(ScanAt(s1, s1.published, s1.threads.Keys)));
    run := Join(run, more, PageCollector, s, s1, s2);
    assert s2.gc.value.seen == Announced(s);
    more := FreeScanned(s2, id);
    run := Join(run, more, PageCollector, s, s2, s2.(freed := s2.freed + {id}, drained := s2.drained - {id}, gc := None));
  }

  lemma FreeScanned(s: State, id: Id) returns (run: seq<State>)
    requires EnabledCollector(s, GcFree(id))
    ensures Alone(run, PageCollector, s, s.(freed := s.freed + {id}, drained := s.drained - {id}, gc := None))
  {
    run := OneCollector(s, GcFree(id), PageCollector);
    var s1 := s.(freed := s.freed + {id}, drained := s.drained - {id});
    var more := OneCollector(s1, GcEnd, PageCollector);
    run := Join(run, more, PageCollector, s, s1, s1.(gc := None));
  }

  /** Conversely what belongs to a checkpoint somebody holds is not garbage and not freed. */
  lemma KeptWhileAnnounced(run: seq<State>, n: nat, t: Tid, c: Ts, id: Id)
    requires Behavior(run) && n < |run| && Holds(run[n], t, c) && id in run[n].lives && Contains(run[n].lives[id], c)
    ensures id !in run[n].freed && !Garbage(run[n], id)
  {
    InvAlways(run, n);
    if id in run[n].freed {
      CollectorIsSafe(run, n, t, c, id);
    }
    assert c in Announced(run[n]) by {
      var th := run[n].threads[t];
      assert th.cpTs in (set u | u in run[n].threads.Keys && u in run[n].threads :: run[n].threads[u].cpTs);
      assert th.priorTs in (set u | u in run[n].threads.Keys && u in run[n].threads :: run[n].threads[u].priorTs);
    }
  }
}
