/** Publishing, checking out and reclaiming checkpoints as one step system over
    sequentially consistent memory: the checkpoint maker, any number of transaction
    threads, the checkpoint collector and the log collector, one atomic access per step.

    Threads take the latest checkpoint with a double-read lock and announce it in
    `checkpoint_ts`; `prior_checkpoint_ts` keeps the previous one announced until the
    working set has moved over. Both collectors read the published timestamp first and
    then every thread's two fields, one at a time, while everything else keeps running.
    A checkpoint inode is identified by its timestamp. */
module CheckpointProtocol {
  import opened Types

  type Id = nat

  datatype MakerPc =
    | Waiting
    | Building(next: Ts)     // allocating pages for checkpoint next, obsoleting old ones
    | Marked(next: Ts)       // obsoleted entries handed to the collector
    | Dirty(next: Ts)        // latest_checkpoint.ts == SIVFS_INVALID_TS
    | Swapped(next: Ts)      // latest_checkpoint.checkpoint set
    | Stamped(next: Ts)      // latest_checkpoint.ts set

  datatype ThreadPc =
    | Running                     // in a transaction, or fresh, or paused
    | FirstRead                   // commit_update: about to read latest_checkpoint.ts
    | ReadPtr(c: Ts)              // read c; about to read the pointer
    | Announce(c: Ts)             // about to write checkpoint_ts := c
    | Recheck(c: Ts)              // about to read latest_checkpoint.ts again
    | Reread                      // dirty read; about to start over
    | TakeTs(c: Ts)               // checkpoint settled; about to read master_ts
    | Updating(c: Ts, next: Ts)   // bringing the working set to next
    | Release(c: Ts)              // about to write prior_checkpoint_ts := c
    | Pausing(n: nat)             // sivfs_ioctl_txn_pause, n writes done

  /** `ptr` is state->checkpoint; the other fields carry the source's names. */
  datatype Thread = Thread(ts: Ts, ptr: Option<Ts>, cpTs: Ts, priorTs: Ts, pc: ThreadPc)

  /** A collector's non-atomic scan: phase 1 once checkpoint_ts has been read, 2 once
      prior_checkpoint_ts has too. */
  datatype Scan = Scan(low: Ts, seen: set<Ts>, phase: map<Tid, nat>)

  /** `top` is the newest timestamp latest_checkpoint.ts has held; `history` all published
      ones; `freed` and `deleted` what the collectors have taken away so far; `stopTs` is
      master_log_deleted_ts, the cut of the last log pass, which lookups are tested against. */
  datatype State = State(
    master: Ts,
    latestPtr: Ts,
    latestTs: Ts,
    published: Ts,
    maker: MakerPc,
    threads: map<Tid, Thread>,
    lives: map<Id, Life>,
    handed: set<Id>,
    gc: Option<Scan>,
    drained: set<Id>,
    freed: set<Id>,
    logGc: Option<Scan>,
    deleted: Ts,
    stopTs: Ts,
    top: Ts,
    history: set<Ts>)

  datatype Step =
    | Commit
    | StartBuild | AllocObject(id: Id) | Obsolete(id: Id) | Mark | WriteDirty | WritePtr | WriteTs | WritePublished
    | StartCheckout(t: Tid) | ReadLatest(t: Tid) | ReadPointer(t: Tid) | AnnounceTs(t: Tid) | RecheckTs(t: Tid)
    | RereadTs(t: Tid) | ReadMaster(t: Tid) | FinishUpdate(t: Tid) | RefuseUpdate(t: Tid) | ReleasePrior(t: Tid) | Pause(t: Tid)
    | GcDrain | GcReadLow | GcScan(t: Tid) | GcFree(id: Id) | GcEnd
    | LogReadLow | LogScan(t: Tid) | LogDelete

  predicate ScanDone(s: State, scan: Scan) {
    forall t :: t in s.threads ==> t in scan.phase && scan.phase[t] == 2
  }

  function MinOf(low: Ts, seen: set<Ts>): (m: Ts)
    ensures m <= low && (m == low || m in seen) && forall v :: v in seen ==> m <= v
  {
    if forall v :: v in seen ==> low <= v then low
    else
      assert exists v :: v in seen && v < low;
      LeastExists(low, seen);
      var m :| m in seen && m < low && forall v :: v in seen ==> m <= v;
      m
  }

  lemma LeastExists(low: Ts, seen: set<Ts>)
    requires exists v :: v in seen && v < low
    ensures exists m :: m in seen && m < low && forall v :: v in seen ==> m <= v
    decreases low
  {
    var x :| x in seen && x < low;
    if exists v :: v in seen && v < x {
      LeastExists(x, seen);
    }
  }

  ghost predicate EnabledMaker(s: State, step: Step) {
    match step
    case StartBuild => s.maker.Waiting? && s.master != s.latestTs
    case AllocObject(id) => s.maker.Building? && id !in s.lives
    case Obsolete(id) =>
      && s.maker.Building? && id in s.lives
      && s.lives[id].obs == INVALID_TS && s.lives[id].start < s.maker.next
    case Mark => s.maker.Building?
    case WriteDirty => s.maker.Marked?
    case WritePtr => s.maker.Dirty?
    case WriteTs => s.maker.Swapped?
    case WritePublished => s.maker.Stamped?
    case _ => false
  }

  ghost function DoMaker(s: State, step: Step): State
    requires EnabledMaker(s, step)
  {
    match step
    case StartBuild => s.(maker := Building(s.master))
    case AllocObject(id) => s.(lives := s.lives[id := Life(s.maker.next, INVALID_TS)])
    case Obsolete(id) => s.(lives := s.lives[id := s.lives[id].(obs := s.maker.next)])
    case Mark =>
      s.(maker := Marked(s.maker.next),
         handed := s.handed + set id | id in s.lives && s.lives[id].obs == s.maker.next)
    case WriteDirty => s.(maker := Dirty(s.maker.next), latestTs := INVALID_TS)
    case WritePtr => s.(maker := Swapped(s.maker.next), latestPtr := s.maker.next)
    case WriteTs =>
      s.(maker := Stamped(s.maker.next), latestTs := s.maker.next, top := s.maker.next,
         history := s.history + {s.maker.next})
    case WritePublished => s.(maker := Waiting, published := s.maker.next)
  }

  predicate IsThreadStep(step: Step) {
    || step.StartCheckout? || step.ReadLatest? || step.ReadPointer? || step.AnnounceTs? || step.RecheckTs?
    || step.RereadTs? || step.ReadMaster? || step.FinishUpdate? || step.RefuseUpdate? || step.ReleasePrior? || step.Pause?
  }

  /** The update needs the entry after `ts`, and it is gone: the lookup is refused, or finds
      nothing where the tested cut has moved back. */
  predicate Refused(s: State, th: Thread)
    requires th.pc.Updating?
  {
    th.ts != INVALID_TS && th.ts < th.pc.next && th.ts + 1 < s.deleted
  }

  ghost predicate EnabledThread(s: State, step: Step) {
    && IsThreadStep(step) && step.t in s.threads
    && var pc := s.threads[step.t].pc;
    match step
    case StartCheckout(_) => pc.Running?
    case ReadLatest(_) => pc.FirstRead?
    case ReadPointer(_) => pc.ReadPtr?
    case AnnounceTs(_) => pc.Announce?
    case RecheckTs(_) => pc.Recheck?
    case RereadTs(_) => pc.Reread?
    case ReadMaster(_) => pc.TakeTs?
    case FinishUpdate(_) => pc.Updating? && !Refused(s, s.threads[step.t])
    case RefuseUpdate(_) => pc.Updating? && Refused(s, s.threads[step.t])
    case ReleasePrior(_) => pc.Release?
    case Pause(_) => pc.Running? || pc.Pausing?
    case _ => false
  }

  /** The thread's next local state. Only AnnounceTs, ReleasePrior and Pause write shared
      fields; the reads see whatever the maker has written so far. */
  ghost function Move(s: State, step: Step): Thread
    requires EnabledThread(s, step)
  {
    var me := s.threads[step.t];
    match step
    case StartCheckout(_) => me.(pc := FirstRead)
    case ReadLatest(_) =>
      // The shortcut compares before it validates.
      if me.cpTs == s.latestTs then me.(pc := TakeTs(s.latestTs)) else me.(pc := ReadPtr(s.latestTs))
    case ReadPointer(_) => me.(ptr := Some(s.latestPtr), pc := Announce(me.pc.c))
    case AnnounceTs(_) => me.(cpTs := me.pc.c, pc := Recheck(me.pc.c))
    case RecheckTs(_) =>
      if s.latestTs == me.pc.c && me.pc.c != INVALID_TS then me.(pc := TakeTs(me.pc.c)) else me.(pc := Reread)
    case RereadTs(_) => me.(pc := ReadPtr(s.latestTs))
    case ReadMaster(_) => me.(pc := Updating(me.pc.c, s.master))
    case FinishUpdate(_) => me.(ts := me.pc.next, pc := Release(me.pc.c))
    case RefuseUpdate(_) =>
      // commit_update fails with the new checkpoint checked out and everything else as before.
      me.(pc := Running)
    case ReleasePrior(_) => me.(priorTs := me.pc.c, pc := Running)
    case Pause(_) =>
      if me.pc.Running? then me.(ts := INVALID_TS, pc := Pausing(1))
      else if me.pc.n == 1 then me.(cpTs := INVALID_TS, pc := Pausing(2))
      else if me.pc.n == 2 then me.(priorTs := INVALID_TS, pc := Pausing(3))
      else me.(ptr := None, pc := Running)
  }

  ghost predicate CanScan(s: State, scan: Scan, t: Tid) {
    t in s.threads && t in scan.phase && scan.phase[t] < 2
  }

  function ScanOne(scan: Scan, th: Thread, t: Tid): Scan
    requires t in scan.phase
  {
    Scan(scan.low,
         scan.seen + {if scan.phase[t] == 0 then th.cpTs else th.priorTs},
         scan.phase[t := scan.phase[t] + 1])
  }

  ghost function NewScan(s: State): Scan {
    Scan(s.published, {}, map t | t in s.threads :: 0)
  }

  ghost predicate EnabledCollector(s: State, step: Step) {
    match step
    case GcDrain => s.gc.None?
    case GcReadLow => s.gc.None?
    case GcScan(t) => s.gc.Some? && CanScan(s, s.gc.value, t)
    case GcFree(id) =>
      // sivfs_gc_or_reassign_entry: not visible in [low, infinity) nor at any seen version.
      && s.gc.Some? && ScanDone(s, s.gc.value)
      && id in s.drained && id in s.lives && s.lives[id].obs <= s.gc.value.low
      && forall v :: v in s.gc.value.seen ==> !Contains(s.lives[id], v)
    case GcEnd => s.gc.Some?
    case LogReadLow => s.logGc.None?
    case LogScan(t) => s.logGc.Some? && CanScan(s, s.logGc.value, t)
    case LogDelete => s.logGc.Some? && ScanDone(s, s.logGc.value)
    case _ => false
  }

  ghost function DoCollector(s: State, step: Step): State
    requires EnabledCollector(s, step)
  {
    match step
    case GcDrain => s.(drained := s.drained + s.handed, handed := {})
    case GcReadLow => s.(gc := Some(NewScan(s)))
    case GcScan(t) => s.(gc := Some(ScanOne(s.gc.value, s.threads[t], t)))
    case GcFree(id) => s.(freed := s.freed + {id}, drained := s.drained - {id})
    case GcEnd => s.(gc := None)
    case LogReadLow => s.(logGc := Some(NewScan(s)))
    case LogScan(t) => s.(logGc := Some(ScanOne(s.logGc.value, s.threads[t], t)))
    case LogDelete =>
      var cut := MinOf(s.logGc.value.low, s.logGc.value.seen);
      s.(logGc := None, stopTs := cut, deleted := if cut > s.deleted then cut else s.deleted)
  }

  ghost predicate Enabled(s: State, step: Step) {
    || (step.Commit? && s.master + 1 < INVALID_TS)
    || EnabledMaker(s, step) || EnabledThread(s, step) || EnabledCollector(s, step)
  }

  ghost function Do(s: State, step: Step): State
    requires Enabled(s, step)
  {
    if step.Commit? then s.(master := s.master + 1)
    else if EnabledMaker(s, step) then DoMaker(s, step)
    else if EnabledThread(s, step) then s.(threads := s.threads[step.t := Move(s, step)])
    else DoCollector(s, step)
  }

  /** The empty checkpoint at time 0 is published; every thread is fresh. */
  ghost predicate Init(s: State) {
    && s.master == 0 && s.latestPtr == 0 && s.latestTs == 0 && s.published == 0 && s.maker == Waiting
    && (forall t :: t in s.threads ==>
          s.threads[t] == Thread(INVALID_TS, None, INVALID_TS, INVALID_TS, Running))
    && s.lives == map[] && s.handed == {} && s.drained == {} && s.freed == {}
    && s.gc == None && s.logGc == None && s.deleted == 0 && s.stopTs == 0 && s.top == 0 && s.history == {0}
  }

  ghost predicate Next(s: State, s': State) {
    exists step :: Enabled(s, step) && s' == Do(s, step)
  }

  ghost predicate Behavior(run: seq<State>) {
    && |run| > 0 && Init(run[0])
    && forall i {:trigger StepAt(run, i)} :: StepAt(run, i)
  }

  ghost predicate StepAt(run: seq<State>, i: nat) {
    i + 1 < |run| ==> Next(run[i], run[i + 1])
  }

  // ---------------------------------------------------------------- what a thread relies on

  /** The checkpoint in cpTs has been validated and may be dereferenced. */
  predicate Settled(pc: ThreadPc) {
    pc.Running? || pc.FirstRead? || pc.TakeTs? || pc.Updating? || pc.Release?
  }

  /** The checkpoints a thread may still read from or have pages mapped of. */
  function Held(th: Thread): set<Ts> {
    if th.pc.Pausing? then {}
    else
      (if Settled(th.pc) && th.cpTs != INVALID_TS then {th.cpTs} else {}) +
      (if th.priorTs != INVALID_TS then {th.priorTs} else {})
  }

  ghost predicate Holds(s: State, t: Tid, c: Ts) {
    t in s.threads && c in Held(s.threads[t])
  }

  // ---------------------------------------------------------------- invariants

  ghost predicate MakerOk(s: State) {
    && s.published <= s.top <= s.master < INVALID_TS
    && (s.latestTs == s.top || s.latestTs == INVALID_TS)
    && (s.latestTs == INVALID_TS <==> s.maker.Dirty? || s.maker.Swapped?)
    && s.latestPtr == (if s.maker.Swapped? then s.maker.next else s.top)
    && (!s.maker.Waiting? ==>
          && s.maker.next <= s.master
          && (if s.maker.Stamped? then s.maker.next == s.top else s.top < s.maker.next))
    && (if s.maker.Stamped? then s.published < s.top else s.published == s.top)
    && s.top in s.history && (forall c :: c in s.history ==> c <= s.top)
  }

  ghost predicate PriorOk(s: State, th: Thread) {
    th.priorTs != INVALID_TS && !th.pc.Pausing? ==>
      && th.priorTs in s.history
      && (th.ts == INVALID_TS || th.priorTs <= th.ts)
      && (th.pc.Updating? ==> th.priorTs <= th.pc.next)
  }

  ghost predicate ThreadOk(s: State, th: Thread) {
    && PriorOk(s, th)
    && (th.ts != INVALID_TS ==> th.ts <= s.master)
    && match th.pc
       case Running => SettledOk(s, th)
       case FirstRead => SettledOk(s, th)
       case ReadPtr(c) => c != INVALID_TS ==> c <= s.top
       case Announce(c) => DoubleReadOk(s, th, c)
       case Recheck(c) => DoubleReadOk(s, th, c) && th.cpTs == c
       case Reread => true
       case TakeTs(c) => TakenOk(s, th, c)
       case Updating(c, next) =>
         && TakenOk(s, th, c) && next <= s.master
         && (c != INVALID_TS ==> c <= next) && (th.ts != INVALID_TS ==> th.ts <= next)
       case Release(c) => TakenOk(s, th, c) && (c != INVALID_TS ==> c <= th.ts) && th.ts != INVALID_TS
       case Pausing(n) =>
         && 1 <= n <= 3 && th.ts == INVALID_TS
         && (n >= 2 ==> th.cpTs == INVALID_TS) && (n >= 3 ==> th.priorTs == INVALID_TS)
  }

  /** Between checkouts: both fields announce the one checkpoint held, unless an update was
      refused. */
  ghost predicate SettledOk(s: State, th: Thread) {
    && (th.cpTs == INVALID_TS ==> th.ptr == None && th.priorTs == INVALID_TS)
    && (th.cpTs != INVALID_TS ==> th.ptr == Some(th.cpTs) && th.cpTs in s.history)
    && (th.priorTs == th.cpTs || LeftBehind(s, th))
  }

  /** An update was refused: the new checkpoint is checked out, the snapshot is older than it,
      and the log between the two is gone, so that the next update will be refused too. */
  predicate LeftBehind(s: State, th: Thread) {
    && th.cpTs != INVALID_TS && th.priorTs == INVALID_TS
    && th.ts != INVALID_TS && th.ts < th.cpTs && th.ts + 1 < s.deleted
  }

  /** After reading the pointer: if latest_checkpoint.ts still reads `c`, the pointer is
      checkpoint `c`'s, because published timestamps never come back. */
  ghost predicate DoubleReadOk(s: State, th: Thread, c: Ts) {
    c != INVALID_TS ==> c <= s.top && (s.latestTs == c ==> th.ptr == Some(c))
  }

  ghost predicate TakenOk(s: State, th: Thread, c: Ts) {
    && th.cpTs == c
    && (c == INVALID_TS ==> th.ptr == None && th.priorTs == INVALID_TS)
    && (c != INVALID_TS ==> th.ptr == Some(c) && c in s.history && (th.priorTs != INVALID_TS ==> th.priorTs <= c))
  }

  ghost predicate ThreadsOk(s: State) {
    forall t {:trigger ThreadOk(s, s.threads[t])} :: t in s.threads ==> ThreadOk(s, s.threads[t])
  }

  /** What a scan knows of version `c` held by thread `t` once it has passed the thread. */
  ghost predicate Covered(s: State, scan: Scan, t: Tid, c: Ts) {
    t in scan.phase && scan.phase[t] >= 1 && Holds(s, t, c) ==>
      c >= scan.low || c in scan.seen || (scan.phase[t] == 1 && c == s.threads[t].priorTs)
  }

  ghost predicate ScanOk(s: State, scan: Scan) {
    && scan.low <= s.published
    && (forall t, c {:trigger Covered(s, scan, t, c)} :: Covered(s, scan, t, c))
    && (forall t {:trigger t in scan.phase} :: t in s.threads ==> t in scan.phase && scan.phase[t] <= 2)
  }

  ghost predicate ScansOk(s: State) {
    && (s.gc.Some? ==> ScanOk(s, s.gc.value))
    && (s.logGc.Some? ==> ScanOk(s, s.logGc.value))
  }

  ghost predicate LifeOk(s: State, l: Life) {
    && (l.start <= s.top || (!s.maker.Waiting? && l.start == s.maker.next))
    && (l.obs == INVALID_TS || l.obs <= s.top || (!s.maker.Waiting? && l.obs == s.maker.next))
    && l.start < l.obs
  }

  /** Every object's lifetime is well formed; entries given to the collector started by
      the published checkpoint, which is what makes `low` a member of their lifetime when
      they end after it. */
  ghost predicate ObjectsOk(s: State) {
    && (forall id {:trigger LifeOk(s, s.lives[id])} :: id in s.lives ==> LifeOk(s, s.lives[id]))
    && (forall id {:trigger Given(s, id)} :: Given(s, id) ==>
          id in s.lives && s.lives[id].start <= s.published && s.lives[id].obs != INVALID_TS)
  }

  /** In the collector's hands, or already freed. */
  ghost predicate Given(s: State, id: Id) {
    id in s.handed || id in s.drained || id in s.freed
  }

  ghost predicate FreeOk(s: State, id: Id) {
    id in s.freed ==> id in s.lives && s.lives[id].obs <= s.published
  }

  /** Freed object `id` is not part of checkpoint `c` that thread `t` holds. */
  ghost predicate Safe(s: State, t: Tid, c: Ts, id: Id) {
    Holds(s, t, c) && id in s.freed && id in s.lives ==> !Contains(s.lives[id], c)
  }

  ghost predicate FreedOk(s: State) {
    && (forall id {:trigger FreeOk(s, id)} :: FreeOk(s, id))
    && (forall t, c, id {:trigger Safe(s, t, c, id)} :: Safe(s, t, c, id))
  }

  ghost predicate LogOk(s: State) {
    && s.stopTs <= s.deleted <= s.published
    && (forall t, c {:trigger Holds(s, t, c)} :: Holds(s, t, c) ==> s.deleted <= c)
  }

  /** Entries under collection were handed over before the pass read its lower bound. */
  ghost predicate DrainedOk(s: State) {
    s.gc.Some? ==> forall id {:trigger InPass(s, s.gc.value, id)} :: InPass(s, s.gc.value, id)
  }

  ghost predicate InPass(s: State, scan: Scan, id: Id) {
    id in s.drained && id in s.lives ==> s.lives[id].start <= scan.low
  }

  /** Replaced by a newer page, and told to the collector: the maker hands everything over
      when a build ends. */
  predicate Retired(s: State, l: Life) {
    l.obs != INVALID_TS && !(s.maker.Building? && l.obs == s.maker.next)
  }

  /** Every object is in one place only. */
  ghost predicate Place(s: State, id: Id) {
    && (Given(s, id) <==> id in s.lives && Retired(s, s.lives[id]))
    && !(id in s.handed && id in s.drained)
    && !(id in s.freed && (id in s.handed || id in s.drained))
  }

  ghost predicate PlacesOk(s: State) {
    forall id {:trigger Place(s, id)} :: Place(s, id)
  }

  ghost predicate Inv(s: State) {
    && MakerOk(s) && ThreadsOk(s) && ObjectsOk(s) && FreedOk(s) && LogOk(s) && ScansOk(s)
    && DrainedOk(s) && PlacesOk(s)
  }

  lemma InvInit(s: State)
    requires Init(s)
    ensures Inv(s)
  {
  }

  // ---------------------------------------------------------------- preservation

  /** The threads, what they hold and what was collected are as before. */
  ghost predicate SameHolders(s: State, s': State) {
    && s'.threads == s.threads && s'.freed == s.freed && s.published <= s'.published
    && s'.gc == s.gc && s'.logGc == s.logGc && s'.deleted == s.deleted && s'.stopTs == s.stopTs
    && forall id {:trigger s'.lives[id]} :: id in s.freed && id in s'.lives ==> id in s.lives && s'.lives[id] == s.lives[id]
  }

  lemma SameHoldersScan(s: State, s': State, scan: Scan)
    requires s'.threads == s.threads && s.published <= s'.published && ScanOk(s, scan)
    ensures ScanOk(s', scan)
  {
    forall t, c ensures Covered(s', scan, t, c) {
      assert Covered(s, scan, t, c);
    }
  }

  lemma SameHoldersKeep(s: State, s': State)
    requires SameHolders(s, s') && FreedOk(s) && LogOk(s) && ScansOk(s)
    requires forall id :: id in s.freed ==> id in s'.lives
    ensures FreedOk(s') && LogOk(s') && ScansOk(s')
  {
    forall id ensures FreeOk(s', id) {
      assert FreeOk(s, id);
    }
    forall t, c, id ensures Safe(s', t, c, id) {
      assert Safe(s, t, c, id);
    }
    forall t, c | Holds(s', t, c) ensures s'.deleted <= c {
      assert Holds(s, t, c);
    }
    if s.gc.Some? { SameHoldersScan(s, s', s.gc.value); }
    if s.logGc.Some? { SameHoldersScan(s, s', s.logGc.value); }
  }

  lemma DrainedFrame(s: State, s': State)
    requires DrainedOk(s) && s'.gc == s.gc && s'.drained <= s.drained
    requires forall id :: id in s'.drained ==> id in s.lives && id in s'.lives && s'.lives[id].start == s.lives[id].start
    ensures DrainedOk(s')
  {
    if s.gc.Some? {
      forall id ensures InPass(s', s.gc.value, id) {
        assert InPass(s, s.gc.value, id);
      }
    }
  }

  lemma CommitKeeps(s: State)
    requires Inv(s) && s.master + 1 < INVALID_TS
    ensures Inv(s.(master := s.master + 1))
  {
    var s' := s.(master := s.master + 1);
    forall t | t in s'.threads ensures ThreadOk(s', s'.threads[t]) {
      assert ThreadOk(s, s.threads[t]);
    }
    forall id | id in s'.lives ensures LifeOk(s', s'.lives[id]) {
      assert LifeOk(s, s.lives[id]);
    }
    forall id | Given(s', id) ensures id in s.lives && s.lives[id].start <= s.published && s.lives[id].obs != INVALID_TS {
      assert Given(s, id);
    }
    forall id | id in s.freed ensures id in s'.lives { assert FreeOk(s, id); }
    SameHoldersKeep(s, s');
    DrainedFrame(s, s');
    PlacesFrame(s, s');
  }

  lemma PlacesFrame(s: State, s': State)
    requires PlacesOk(s) && s'.maker == s.maker && s'.lives == s.lives
    requires s'.handed == s.handed && s'.drained == s.drained && s'.freed == s.freed
    ensures PlacesOk(s')
  {
    forall id ensures Place(s', id) {
      assert Place(s, id);
    }
  }

  lemma MakerKeepsItself(s: State, step: Step)
    requires MakerOk(s) && EnabledMaker(s, step)
    ensures MakerOk(DoMaker(s, step))
  {
  }

  lemma MakerKeepsThread(s: State, step: Step, th: Thread)
    requires MakerOk(s) && EnabledMaker(s, step) && ThreadOk(s, th)
    ensures ThreadOk(DoMaker(s, step), th)
  {
  }

  lemma MakerKeepsLife(s: State, step: Step, id: Id)
    requires MakerOk(s) && EnabledMaker(s, step)
    requires id in s.lives ==> LifeOk(s, s.lives[id])
    requires id in DoMaker(s, step).lives
    ensures LifeOk(DoMaker(s, step), DoMaker(s, step).lives[id])
  {
  }

  lemma MakerKeepsGiven(s: State, step: Step, id: Id)
    requires MakerOk(s) && ObjectsOk(s) && EnabledMaker(s, step) && Given(DoMaker(s, step), id)
    ensures
      var s' := DoMaker(s, step);
      id in s'.lives && s'.lives[id].start <= s'.published && s'.lives[id].obs != INVALID_TS
  {
    if Given(s, id) {
    } else {
      assert step.Mark?;
      assert LifeOk(s, s.lives[id]);
    }
  }

  lemma MakerKeepsHolders(s: State, step: Step)
    requires MakerOk(s) && ObjectsOk(s) && EnabledMaker(s, step)
    ensures SameHolders(s, DoMaker(s, step))
    ensures forall id :: id in s.freed ==> id in DoMaker(s, step).lives
    ensures DrainedOk(s) ==> DrainedOk(DoMaker(s, step))
  {
    forall id | id in s.freed + s.drained ensures id in s.lives && DoMaker(s, step).lives[id] == s.lives[id] {
      assert Given(s, id);
    }
    if DrainedOk(s) {
      DrainedFrame(s, DoMaker(s, step));
    }
  }

  lemma MakerKeepsPlace(s: State, step: Step, id: Id)
    requires MakerOk(s) && EnabledMaker(s, step) && Place(s, id)
    requires id in s.lives ==> LifeOk(s, s.lives[id])
    ensures Place(DoMaker(s, step), id)
  {
  }

  lemma MakerKeeps(s: State, step: Step)
    requires Inv(s) && EnabledMaker(s, step)
    ensures Inv(DoMaker(s, step))
  {
    var s' := DoMaker(s, step);
    MakerKeepsItself(s, step);
    MakerKeepsHolders(s, step);
    forall t | t in s'.threads ensures ThreadOk(s', s'.threads[t]) {
      assert ThreadOk(s, s.threads[t]);
      MakerKeepsThread(s, step, s.threads[t]);
    }
    forall id | id in s'.lives ensures LifeOk(s', s'.lives[id]) {
      assert id in s.lives ==> LifeOk(s, s.lives[id]);
      MakerKeepsLife(s, step, id);
    }
    forall id | Given(s', id)
      ensures id in s'.lives && s'.lives[id].start <= s'.published && s'.lives[id].obs != INVALID_TS
    {
      MakerKeepsGiven(s, step, id);
    }
    forall id ensures Place(s', id) {
      assert Place(s, id) && (id in s.lives ==> LifeOk(s, s.lives[id]));
      MakerKeepsPlace(s, step, id);
    }
    SameHoldersKeep(s, s');
  }

  /** A step can only come to hold what it held before or the newest checkpoint. */
  lemma MoveHolds(s: State, step: Step, c: Ts)
    requires MakerOk(s) && EnabledThread(s, step) && ThreadOk(s, s.threads[step.t])
    requires c in Held(Move(s, step))
    ensures c in Held(s.threads[step.t]) || (c == s.top && c >= s.published)
  {
  }

  lemma CheckoutOk(s: State, step: Step)
    requires MakerOk(s) && EnabledThread(s, step) && ThreadOk(s, s.threads[step.t])
    requires step.StartCheckout? || step.ReadLatest? || step.ReadPointer? || step.AnnounceTs? || step.RecheckTs? || step.RereadTs?
    ensures ThreadOk(s, Move(s, step))
  {
  }

  lemma UpdateOk(s: State, step: Step)
    requires MakerOk(s) && LogOk(s) && EnabledThread(s, step) && ThreadOk(s, s.threads[step.t])
    requires step.ReadMaster? || step.FinishUpdate? || step.RefuseUpdate? || step.ReleasePrior? || step.Pause?
    ensures ThreadOk(s, Move(s, step))
  {
    var me := s.threads[step.t];
    if step.RefuseUpdate? {
      assert me.priorTs != INVALID_TS ==> Holds(s, step.t, me.priorTs);
      assert me.cpTs != INVALID_TS ==> Holds(s, step.t, me.cpTs);
    }
  }

  lemma MoveOk(s: State, step: Step)
    requires MakerOk(s) && LogOk(s) && EnabledThread(s, step) && ThreadOk(s, s.threads[step.t])
    ensures ThreadOk(s, Move(s, step))
  {
    if step.ReadMaster? || step.FinishUpdate? || step.RefuseUpdate? || step.ReleasePrior? || step.Pause? {
      UpdateOk(s, step);
    } else {
      CheckoutOk(s, step);
    }
  }

  /** What is only reachable through prior_checkpoint_ts stays so, or was announced. */
  lemma MovePrior(s: State, step: Step, c: Ts)
    requires MakerOk(s) && EnabledThread(s, step) && ThreadOk(s, s.threads[step.t])
    requires c in Held(Move(s, step)) && c == s.threads[step.t].priorTs
    ensures c == Move(s, step).priorTs
  {
  }

  ghost function Moved(s: State, step: Step): State
    requires EnabledThread(s, step)
  {
    s.(threads := s.threads[step.t := Move(s, step)])
  }

  lemma MovedHolds(s: State, step: Step, t: Tid, c: Ts)
    requires MakerOk(s) && ThreadsOk(s) && EnabledThread(s, step) && Holds(Moved(s, step), t, c)
    ensures Holds(s, t, c) || (c == s.top && c >= s.published)
  {
    assert ThreadOk(s, s.threads[step.t]);
    if t == step.t {
      MoveHolds(s, step, c);
    }
  }

  lemma MoveKeepsScan(s: State, step: Step, scan: Scan)
    requires MakerOk(s) && ThreadsOk(s) && EnabledThread(s, step) && ScanOk(s, scan)
    ensures ScanOk(Moved(s, step), scan)
  {
    var s' := Moved(s, step);
    forall t, c ensures Covered(s', scan, t, c) {
      if t in scan.phase && scan.phase[t] >= 1 && Holds(s', t, c) {
        MovedHolds(s, step, t, c);
        assert Covered(s, scan, t, c);
        if t == step.t && c == s.threads[t].priorTs {
          assert ThreadOk(s, s.threads[t]);
          MovePrior(s, step, c);
        }
      }
    }
  }

  lemma MoveKeepsFreed(s: State, step: Step)
    requires MakerOk(s) && ThreadsOk(s) && FreedOk(s) && EnabledThread(s, step)
    ensures FreedOk(Moved(s, step))
  {
    var s' := Moved(s, step);
    forall id ensures FreeOk(s', id) {
      assert FreeOk(s, id);
    }
    forall t, c, id ensures Safe(s', t, c, id) {
      if Holds(s', t, c) {
        MovedHolds(s, step, t, c);
        assert Safe(s, t, c, id) && FreeOk(s, id);
      }
    }
  }

  /** Thread records refer to the shared fields alone, never to one another. */
  lemma ThreadOkLocal(s: State, threads: map<Tid, Thread>, th: Thread)
    requires ThreadOk(s, th)
    ensures ThreadOk(s.(threads := threads), th)
  {
  }

  lemma MoveKeepsThreads(s: State, step: Step)
    requires MakerOk(s) && LogOk(s) && ThreadsOk(s) && EnabledThread(s, step)
    ensures ThreadsOk(Moved(s, step))
  {
    var s' := Moved(s, step);
    assert ThreadOk(s, s.threads[step.t]);
    MoveOk(s, step);
    forall t | t in s'.threads ensures ThreadOk(s', s'.threads[t]) {
      if t != step.t {
        assert ThreadOk(s, s.threads[t]);
      }
      ThreadOkLocal(s, s'.threads, s'.threads[t]);
    }
  }

  lemma ThreadKeeps(s: State, step: Step)
    requires Inv(s) && EnabledThread(s, step)
    ensures Inv(Moved(s, step))
  {
    var s' := Moved(s, step);
    MoveKeepsThreads(s, step);
    forall id | id in s'.lives ensures LifeOk(s', s'.lives[id]) {
      assert LifeOk(s, s.lives[id]);
    }
    forall id | Given(s', id) ensures id in s.lives && s.lives[id].start <= s.published && s.lives[id].obs != INVALID_TS {
      assert Given(s, id);
    }
    MoveKeepsFreed(s, step);
    forall t, c | Holds(s', t, c) ensures s'.deleted <= c {
      MovedHolds(s, step, t, c);
    }
    if s.gc.Some? { MoveKeepsScan(s, step, s.gc.value); }
    if s.logGc.Some? { MoveKeepsScan(s, step, s.logGc.value); }
    forall id | id in s.drained ensures id in s.lives {
      assert Given(s, id);
    }
    DrainedFrame(s, s');
    PlacesFrame(s, s');
  }

  lemma ScanOneOk(s: State, scan: Scan, t: Tid)
    requires ScanOk(s, scan) && CanScan(s, scan, t) && ThreadOk(s, s.threads[t])
    ensures ScanOk(s, ScanOne(scan, s.threads[t], t))
  {
    var scan' := ScanOne(scan, s.threads[t], t);
    forall u, c ensures Covered(s, scan', u, c) {
      assert Covered(s, scan, u, c);
    }
    assert forall u :: u in s.threads ==> u in scan.phase;
  }

  lemma NewScanOk(s: State)
    ensures ScanOk(s, NewScan(s))
  {
  }

  /** A finished scan has everything anybody holds below its lower bound. */
  lemma ScanCovers(s: State, scan: Scan, t: Tid, c: Ts)
    requires ScanOk(s, scan) && ScanDone(s, scan) && Holds(s, t, c)
    ensures c >= scan.low || c in scan.seen
  {
    assert Covered(s, scan, t, c);
  }

  /** Collector steps leave the maker, the threads and all lifetimes alone. */
  ghost predicate CollectorFrame(s: State, s': State) {
    && s'.(gc := s.gc, logGc := s.logGc, handed := s.handed, drained := s.drained, freed := s.freed,
           deleted := s.deleted, stopTs := s.stopTs) == s
    && s.deleted <= s'.deleted
    && forall id {:trigger Given(s', id)} :: Given(s', id) ==> Given(s, id)
  }

  lemma CollectorFrameKeeps(s: State, s': State)
    requires MakerOk(s) && ThreadsOk(s) && ObjectsOk(s) && CollectorFrame(s, s')
    ensures MakerOk(s') && ThreadsOk(s') && ObjectsOk(s')
  {
    forall t | t in s'.threads ensures ThreadOk(s', s'.threads[t]) {
      assert ThreadOk(s, s.threads[t]);
    }
    forall id | id in s'.lives ensures LifeOk(s', s'.lives[id]) {
      assert LifeOk(s, s.lives[id]);
    }
  }

  lemma CollectorKeepsFreed(s: State, step: Step)
    requires FreedOk(s) && ScansOk(s) && EnabledCollector(s, step)
    ensures FreedOk(DoCollector(s, step))
  {
    var s' := DoCollector(s, step);
    forall id ensures FreeOk(s', id) {
      assert FreeOk(s, id);
    }
    forall t, c, id ensures Safe(s', t, c, id) {
      assert Safe(s, t, c, id);
      if step.GcFree? && id == step.id && Holds(s', t, c) {
        assert Holds(s, t, c);
        ScanCovers(s, s.gc.value, t, c);
      }
    }
  }

  lemma CollectorKeepsLog(s: State, step: Step)
    requires LogOk(s) && ScansOk(s) && EnabledCollector(s, step)
    ensures LogOk(DoCollector(s, step))
  {
    var s' := DoCollector(s, step);
    forall t, c | Holds(s', t, c) ensures s'.deleted <= c {
      assert Holds(s, t, c);
      if step.LogDelete? {
        ScanCovers(s, s.logGc.value, t, c);
      }
    }
  }

  lemma CollectorKeepsScans(s: State, step: Step)
    requires ThreadsOk(s) && ScansOk(s) && EnabledCollector(s, step)
    ensures ScansOk(DoCollector(s, step))
  {
    var s' := DoCollector(s, step);
    match step {
      case GcScan(t) =>
        assert ThreadOk(s, s.threads[t]);
        ScanOneOk(s, s.gc.value, t);
      case LogScan(t) =>
        assert ThreadOk(s, s.threads[t]);
        ScanOneOk(s, s.logGc.value, t);
      case GcReadLow => NewScanOk(s);
      case LogReadLow => NewScanOk(s);
      case _ =>
    }
    if s.gc.Some? { SameHoldersScan(s, s', s.gc.value); }
    if s.logGc.Some? { SameHoldersScan(s, s', s.logGc.value); }
    if s'.gc.Some? && s'.gc != s.gc { SameHoldersScan(s, s', s'.gc.value); }
    if s'.logGc.Some? && s'.logGc != s.logGc { SameHoldersScan(s, s', s'.logGc.value); }
  }

  lemma CollectorKeepsDrained(s: State, step: Step)
    requires ObjectsOk(s) && DrainedOk(s) && EnabledCollector(s, step)
    ensures DrainedOk(DoCollector(s, step))
  {
    var s' := DoCollector(s, step);
    forall id | id in s.drained ensures id in s.lives && s.lives[id].start <= s.published {
      assert Given(s, id);
    }
    if step.GcReadLow? {
      forall id ensures InPass(s', s'.gc.value, id) {}
    } else if s'.gc.Some? {
      forall id ensures InPass(s', s'.gc.value, id) {
        assert InPass(s, s.gc.value, id);
      }
    }
  }

  lemma CollectorKeepsPlaces(s: State, step: Step)
    requires PlacesOk(s) && EnabledCollector(s, step)
    ensures PlacesOk(DoCollector(s, step))
  {
    var s' := DoCollector(s, step);
    forall id ensures Place(s', id) {
      assert Place(s, id);
    }
  }

  lemma CollectorFrames(s: State, step: Step)
    requires EnabledCollector(s, step)
    ensures CollectorFrame(s, DoCollector(s, step))
  {
  }

  lemma CollectorKeeps(s: State, step: Step)
    requires Inv(s) && EnabledCollector(s, step)
    ensures Inv(DoCollector(s, step))
  {
    CollectorFrames(s, step);
    CollectorFrameKeeps(s, DoCollector(s, step));
    CollectorKeepsFreed(s, step);
    CollectorKeepsLog(s, step);
    CollectorKeepsScans(s, step);
    CollectorKeepsDrained(s, step);
    CollectorKeepsPlaces(s, step);
  }

  lemma InvNext(s: State, s': State)
    requires Inv(s) && Next(s, s')
    ensures Inv(s')
  {
    var step :| Enabled(s, step) && s' == Do(s, step);
    if step.Commit? {
      CommitKeeps(s);
    } else if EnabledMaker(s, step) {
      MakerKeeps(s, step);
    } else if EnabledThread(s, step) {
      ThreadKeeps(s, step);
    } else {
      CollectorKeeps(s, step);
    }
  }

  lemma RunNext(run: seq<State>, i: nat)
    requires Behavior(run) && i + 1 < |run|
    ensures Next(run[i], run[i + 1])
  {
    assert StepAt(run, i);
  }

  lemma {:induction false} InvAlways(run: seq<State>, n: nat)
    requires Behavior(run) && n < |run|
    ensures Inv(run[n])
    decreases n
  {
    if n == 0 {
      InvInit(run[0]);
    } else {
      InvAlways(run, n - 1);
      RunNext(run, n - 1);
      InvNext(run[n - 1], run[n]);
    }
  }

  // ---------------------------------------------------------------- what it gives

  /** In every interleaving, a collector that has read every thread's two fields, one at a time
      and while everything went on, has seen all that is held below its lower bound. */
  lemma ScanComplete(run: seq<State>, n: nat, scan: Scan, t: Tid, c: Ts)
    requires Behavior(run) && n < |run| && (run[n].gc == Some(scan) || run[n].logGc == Some(scan))
    requires ScanDone(run[n], scan) && Holds(run[n], t, c)
    ensures c >= scan.low || c in scan.seen
  {
    InvAlways(run, n);
    ScanCovers(run[n], scan, t, c);
  }

  lemma HeldInHistory(s: State, t: Tid, c: Ts)
    requires Inv(s) && Holds(s, t, c)
    ensures c in s.history && c <= s.top
  {
    assert ThreadOk(s, s.threads[t]);
  }

  /** In every interleaving nothing freed belongs to a checkpoint a thread has settled on
      or not yet released, nor to any checkpoint from the published one on. */
  lemma CollectorIsSafe(run: seq<State>, n: nat, t: Tid, c: Ts, id: Id)
    requires Behavior(run) && n < |run| && id in run[n].freed
    requires Holds(run[n], t, c) || run[n].published <= c
    ensures id in run[n].lives && !Contains(run[n].lives[id], c)
  {
    InvAlways(run, n);
    assert FreeOk(run[n], id) && Safe(run[n], t, c, id);
  }

  /** The double-read lock: a settled checkpoint's pointer and timestamp belong to the same
      published checkpoint. While a fault can run it is no newer than the snapshot exactly if
      both fields announce it, that is, unless an update was refused. */
  lemma DoubleReadLock(run: seq<State>, n: nat, t: Tid)
    requires Behavior(run) && n < |run| && t in run[n].threads
    ensures
      var th := run[n].threads[t];
      Settled(th.pc) && th.cpTs != INVALID_TS ==>
        && th.ptr == Some(th.cpTs) && th.cpTs in run[n].history
        && (th.pc.Running? && th.ts != INVALID_TS ==>
              th.ts <= run[n].master && (th.cpTs <= th.ts <==> th.priorTs == th.cpTs))
  {
    InvAlways(run, n);
    assert ThreadOk(run[n], run[n].threads[t]);
  }

  /** A checkout never goes back: what an update moves to is no older than what it leaves. */
  lemma CheckoutMovesForward(run: seq<State>, n: nat, t: Tid)
    requires Behavior(run) && n < |run| && t in run[n].threads && run[n].threads[t].pc.Updating?
    ensures
      var th := run[n].threads[t];
      && th.cpTs == th.pc.c && th.pc.next <= run[n].master
      && (th.ts != INVALID_TS ==> th.ts <= th.pc.next)
      && (th.pc.c != INVALID_TS ==> th.pc.c <= th.pc.next && (th.priorTs != INVALID_TS ==> th.priorTs <= th.pc.c))
  {
    InvAlways(run, n);
    assert ThreadOk(run[n], run[n].threads[t]);
  }

  lemma PublicationStep(s: State, s': State)
    requires MakerOk(s) && Next(s, s')
    ensures s'.history == s.history || (s'.history == s.history + {s'.top} && s.top < s'.top)
  {
    var step :| Enabled(s, step) && s' == Do(s, step);
    if !EnabledMaker(s, step) {
      OthersDoNotPublish(s, step);
    }
  }

  lemma OthersDoNotPublish(s: State, step: Step)
    requires Enabled(s, step) && !EnabledMaker(s, step)
    ensures Do(s, step).history == s.history
  {
    if !step.Commit? && !EnabledThread(s, step) {
      CollectorFrames(s, step);
    }
  }

  /** Published timestamps strictly increase. */
  lemma PublicationsIncrease(run: seq<State>, n: nat, c: Ts, d: Ts)
    requires Behavior(run) && n + 1 < |run|
    requires c in run[n].history && d in run[n + 1].history && d !in run[n].history
    ensures c in run[n + 1].history && c < d == run[n + 1].top
  {
    InvAlways(run, n);
    RunNext(run, n);
    PublicationStep(run[n], run[n + 1]);
  }

  /** Conservation: in every run an object is in exactly one of four places. It is still
      part of the newest tree (or replaced by the build in progress), waiting to be drained,
      under collection, or freed; so it is freed at most once. */
  lemma ObjectsAreConserved(run: seq<State>, n: nat, id: Id)
    requires Behavior(run) && n < |run|
    ensures
      var s := run[n];
      multiset{id in s.lives && !Retired(s, s.lives[id]), id in s.handed, id in s.drained, id in s.freed}[true]
        == if id in s.lives then 1 else 0
  {
    InvAlways(run, n);
    assert Place(run[n], id);
  }

  /** Who still reads log entry `k`: the maker everything after the published checkpoint;
      a thread in a transaction everything after the checkpoint it holds (faults) and
      after its snapshot (validation and update). The newest entry is everybody's anchor. */
  ghost predicate Needed(s: State, k: Ts) {
    || k == s.master
    || (!s.maker.Waiting? && s.published < k <= s.maker.next)
    || (exists t: Tid, c: Ts {:trigger Holds(s, t, c)} :: Holds(s, t, c) && c < k)
  }

  /** No needed entry has been deleted, and a lookup of it is not refused: the cut lookups are
      tested against may move back, but never beyond what is deleted. */
  lemma LogCollectorIsSafe(run: seq<State>, n: nat, k: Ts)
    requires Behavior(run) && n < |run| && Needed(run[n], k)
    ensures run[n].stopTs <= run[n].deleted <= k
  {
    InvAlways(run, n);
  }

  /** An entry under collection that outlives the pass's lower bound contains it, so the
      group it is filed under lies in its lifetime. */
  lemma LowerBoundInLifetime(run: seq<State>, n: nat, id: Id)
    requires Behavior(run) && n < |run| && run[n].gc.Some? && id in run[n].drained
    ensures id in run[n].lives
    ensures run[n].lives[id].obs > run[n].gc.value.low ==> Contains(run[n].lives[id], run[n].gc.value.low)
  {
    InvAlways(run, n);
    assert Given(run[n], id);
    assert InPass(run[n], run[n].gc.value, id);
  }

  // ---------------------------------------------------------------- the reuse shortcut

  /** Going through, or in, a transaction without any checkpoint. */
  predicate Bare(th: Thread) {
    match th.pc
    case TakeTs(c) => c == INVALID_TS
    case Updating(c, _) => c == INVALID_TS
    case Release(c) => c == INVALID_TS
    case Running => th.ts != INVALID_TS && th.cpTs == INVALID_TS
    case FirstRead => th.ts != INVALID_TS && th.cpTs == INVALID_TS
    case _ => false
  }

  /** The checkout reads latest_checkpoint.ts in the middle of a publication while it has
      no checkpoint of its own: both sides of the comparison are SIVFS_INVALID_TS. */
  predicate ShortcutMisfires(s: State, t: Tid) {
    t in s.threads && s.threads[t].pc.FirstRead? && s.threads[t].cpTs == INVALID_TS && s.latestTs == INVALID_TS
  }

  /** That comparison is the one way to end up without a checkpoint. */
  lemma BareExactly(s: State, step: Step)
    requires MakerOk(s) && EnabledThread(s, step) && ThreadOk(s, s.threads[step.t]) && !Bare(s.threads[step.t])
    ensures Bare(Move(s, step)) <==> step.ReadLatest? && ShortcutMisfires(s, step.t)
  {
  }

  /** Over whole runs: a thread that never checks out during a publication while it has no
      checkpoint always has one when it is in a transaction. */
  lemma {:induction false} BareNeedsMisfire(run: seq<State>, n: nat, t: Tid)
    requires Behavior(run) && n < |run| && t in run[n].threads
    requires forall i :: 0 <= i < n ==> !ShortcutMisfires(run[i], t)
    ensures !Bare(run[n].threads[t])
    decreases n
  {
    if n > 0 {
      RunNext(run, n - 1);
      InvAlways(run, n - 1);
      assert !ShortcutMisfires(run[n - 1], t);
      BareStep(run[n - 1], run[n], t);
      BareNeedsMisfire(run, n - 1, t);
    }
  }

  lemma OthersKeepThreads(s: State, step: Step)
    requires Enabled(s, step) && !EnabledThread(s, step)
    ensures Do(s, step).threads == s.threads
  {
  }

  lemma PublishedGrows(s: State, step: Step)
    requires MakerOk(s) && Enabled(s, step)
    ensures s.published <= Do(s, step).published
  {
    if !step.Commit? && !EnabledMaker(s, step) && !EnabledThread(s, step) {
      CollectorFrames(s, step);
    }
  }

  lemma BareStep(s: State, s': State, t: Tid)
    requires MakerOk(s) && ThreadsOk(s) && Next(s, s') && t in s'.threads && !ShortcutMisfires(s, t)
    ensures t in s.threads && (Bare(s'.threads[t]) ==> Bare(s.threads[t]))
  {
    var step :| Enabled(s, step) && s' == Do(s, step);
    if EnabledThread(s, step) {
      assert ThreadOk(s, s.threads[step.t]);
      if !Bare(s.threads[step.t]) {
        BareExactly(s, step);
      }
    } else {
      OthersKeepThreads(s, step);
    }
  }

  /** In a transaction, or on the way to the next, a thread announces the checkpoint its
      snapshot rests on. */
  predicate Anchored(th: Thread) {
    th.ts != INVALID_TS && !th.pc.Release? && !th.pc.Pausing? ==> th.priorTs != INVALID_TS
  }

  lemma AnchoredMove(s: State, step: Step)
    requires EnabledThread(s, step) && ThreadOk(s, s.threads[step.t])
    requires Anchored(s.threads[step.t]) && !Bare(s.threads[step.t])
    ensures Anchored(Move(s, step))
  {
  }

  lemma AnchoredStep(s: State, s': State, t: Tid)
    requires ThreadsOk(s) && Next(s, s') && t in s.threads && t in s'.threads
    requires Anchored(s.threads[t]) && !Bare(s.threads[t])
    ensures Anchored(s'.threads[t])
  {
    var step :| Enabled(s, step) && s' == Do(s, step);
    if EnabledThread(s, step) {
      assert ThreadOk(s, s.threads[step.t]);
      if step.t == t {
        AnchoredMove(s, step);
      }
    } else {
      OthersKeepThreads(s, step);
    }
  }

  lemma {:induction false} AnchoredAlways(run: seq<State>, n: nat, t: Tid)
    requires Behavior(run) && n < |run| && t in run[n].threads
    requires forall i :: 0 <= i < n ==> !ShortcutMisfires(run[i], t)
    ensures Anchored(run[n].threads[t])
    decreases n
  {
    if n > 0 {
      RunNext(run, n - 1);
      InvAlways(run, n - 1);
      ThreadsFixed(run, n - 1, t);
      BareNeedsMisfire(run, n - 1, t);
      AnchoredAlways(run, n - 1, t);
      AnchoredStep(run[n - 1], run[n], t);
    }
  }

  lemma ThreadsFixed(run: seq<State>, i: nat, t: Tid)
    requires Behavior(run) && i + 1 < |run| && t in run[i + 1].threads
    ensures t in run[i].threads
  {
    RunNext(run, i);
    var step :| Enabled(run[i], step) && run[i + 1] == Do(run[i], step);
    if !EnabledThread(run[i], step) {
      OthersKeepThreads(run[i], step);
    }
  }

  /** A thread that never misfires keeps the log it may need: everything after its snapshot is
      there, so neither its validations nor its updates are ever refused, and while it can
      fault it has a checkpoint that is no newer than its snapshot. */
  lemma NoMisfireNoRefusal(run: seq<State>, n: nat, t: Tid)
    requires Behavior(run) && n < |run| && t in run[n].threads
    requires forall i :: 0 <= i < n ==> !ShortcutMisfires(run[i], t)
    ensures
      var s, th := run[n], run[n].threads[t];
      && (th.ts != INVALID_TS && !th.pc.Pausing? ==> s.deleted <= th.ts)
      && (th.pc.Updating? ==> !Refused(s, th))
      && (th.pc.Running? && th.ts != INVALID_TS ==>
            th.cpTs != INVALID_TS && th.ptr == Some(th.cpTs) && th.cpTs <= th.ts)
  {
    InvAlways(run, n);
    AnchoredAlways(run, n, t);
    BareNeedsMisfire(run, n, t);
    var s, th := run[n], run[n].threads[t];
    assert ThreadOk(s, th);
    assert th.priorTs in Held(th) ==> Holds(s, t, th.priorTs);
    assert th.cpTs in Held(th) ==> Holds(s, t, th.cpTs);
  }

  /** In a transaction whose continuation in the log is gone, with nothing announced that the
      snapshot rests on. */
  predicate Stranded(s: State, th: Thread) {
    && th.ts != INVALID_TS && th.priorTs == INVALID_TS && th.ts + 1 < s.deleted
    && !th.pc.Release? && !th.pc.Pausing? && (th.pc.Updating? ==> Refused(s, th))
  }

  lemma StrandedMove(s: State, step: Step)
    requires MakerOk(s) && LogOk(s) && EnabledThread(s, step) && Stranded(s, s.threads[step.t])
    ensures Move(s, step).pc.Pausing? || (Stranded(s, Move(s, step)) && Move(s, step).ts == s.threads[step.t].ts)
  {
  }

  lemma StrandedStep(s: State, s': State, t: Tid)
    requires Inv(s) && Next(s, s') && t in s.threads && Stranded(s, s.threads[t])
    ensures t in s'.threads
    ensures s'.threads[t].pc.Pausing? || (Stranded(s', s'.threads[t]) && s'.threads[t].ts == s.threads[t].ts)
  {
    var step :| Enabled(s, step) && s' == Do(s, step);
    if EnabledThread(s, step) {
      if step.t == t {
        StrandedMove(s, step);
      }
    } else {
      OthersKeepThreads(s, step);
      DeletedGrows(s, step);
    }
  }

  lemma DeletedGrows(s: State, step: Step)
    requires Enabled(s, step) && !EnabledThread(s, step)
    ensures s.deleted <= Do(s, step).deleted
  {
    if !step.Commit? && !EnabledMaker(s, step) {
      CollectorFrames(s, step);
    }
  }

  /** There is no way out but a pause: every update such a thread tries is refused, and its
      snapshot never moves. */
  lemma {:induction false} StrandedUntilPause(run: seq<State>, m: nat, n: nat, t: Tid)
    requires Behavior(run) && m <= n < |run| && t in run[m].threads && Stranded(run[m], run[m].threads[t])
    requires forall i :: m < i <= n && t in run[i].threads ==> !run[i].threads[t].pc.Pausing?
    ensures t in run[n].threads && Stranded(run[n], run[n].threads[t]) && run[n].threads[t].ts == run[m].threads[t].ts
    decreases n
  {
    if m < n {
      StrandedUntilPause(run, m, n - 1, t);
      InvAlways(run, n - 1);
      RunNext(run, n - 1);
      StrandedStep(run[n - 1], run[n], t);
    }
  }

  // ---------------------------------------------------------------- a run in which it misfires

  ghost function Last(run: seq<State>): State
    requires |run| > 0
  {
    run[|run| - 1]
  }

  lemma Extend(run: seq<State>, step: Step) returns (more: seq<State>)
    requires Behavior(run) && Enabled(Last(run), step)
    ensures Behavior(more) && Last(more) == Do(Last(run), step)
  {
    more := run + [Do(Last(run), step)];
    assert Next(Last(run), Last(more));
    forall i: nat ensures StepAt(more, i) {
      assert StepAt(run, i);
    }
  }

  lemma ExtendThread(run: seq<State>, step: Step) returns (more: seq<State>)
    requires Behavior(run) && EnabledThread(Last(run), step)
    ensures Behavior(more) && Last(more) == Moved(Last(run), step)
  {
    more := Extend(run, step);
  }

  lemma ExtendCollector(run: seq<State>, step: Step) returns (more: seq<State>)
    requires Behavior(run) && EnabledCollector(Last(run), step)
    ensures Behavior(more) && Last(more) == DoCollector(Last(run), step)
  {
    more := Extend(run, step);
  }

  /** The maker starts on the newest state and gets as far as clearing the timestamp. */
  lemma GoDirty(run: seq<State>) returns (more: seq<State>)
    requires Behavior(run) && Last(run).maker.Waiting? && Last(run).master != Last(run).latestTs && Last(run).lives == map[]
    ensures Behavior(more)
    ensures Last(more) == Last(run).(maker := Dirty(Last(run).master), latestTs := INVALID_TS)
  {
    more := Extend(run, StartBuild);
    more := Extend(more, Mark);
    more := Extend(more, WriteDirty);
  }

  lemma GoPublished(run: seq<State>) returns (more: seq<State>)
    requires Behavior(run) && Last(run).maker.Dirty?
    ensures Behavior(more)
    ensures
      var s, c := Last(run), Last(run).maker.next;
      Last(more) == s.(maker := Waiting, latestPtr := c, latestTs := c, published := c, top := c, history := s.history + {c})
  {
    more := Extend(run, WritePtr);
    more := Extend(more, WriteTs);
    more := Extend(more, WritePublished);
  }

  lemma GoBare(run: seq<State>, t: Tid) returns (more: seq<State>)
    requires Behavior(run) && t in Last(run).threads && Last(run).latestTs == INVALID_TS
    requires Last(run).threads[t] == Thread(INVALID_TS, None, INVALID_TS, INVALID_TS, Running)
    ensures Behavior(more)
    ensures Last(more) == Last(run).(threads :=
      Last(run).threads[t := Thread(Last(run).master, None, INVALID_TS, INVALID_TS, Running)])
  {
    more := ExtendThread(run, StartCheckout(t));
    more := ExtendThread(more, ReadLatest(t));
    more := ExtendThread(more, ReadMaster(t));
    more := ExtendThread(more, FinishUpdate(t));
    more := ExtendThread(more, ReleasePrior(t));
  }

  lemma GoCut(run: seq<State>, t: Tid) returns (more: seq<State>)
    requires Behavior(run) && Last(run).logGc.None? && Last(run).threads.Keys == {t}
    requires Last(run).threads[t].cpTs == INVALID_TS && Last(run).threads[t].priorTs == INVALID_TS
    requires Last(run).deleted <= Last(run).published < INVALID_TS
    ensures Behavior(more) && Last(more) == Last(run).(deleted := Last(run).published, stopTs := Last(run).published)
  {
    more := ExtendCollector(run, LogReadLow);
    more := ExtendCollector(more, LogScan(t));
    more := ExtendCollector(more, LogScan(t));
    more := ExtendCollector(more, LogDelete);
  }

  /** A fresh thread begins its first transaction while a checkpoint is being published. It
      runs at timestamp 1 with no checkpoint and nothing announced, and the log collector
      goes on to delete entry 2, which the thread's own validation has to read. */
  lemma MisfireRun() returns (run: seq<State>)
    ensures Behavior(run)
    ensures
      var s := Last(run);
      && 0 in s.threads && Bare(s.threads[0]) && s.threads[0].pc.Running? && s.threads[0].ptr == None
      && s.threads[0].ts + 1 < s.deleted <= s.master
      && s.threads[0].priorTs == INVALID_TS && s.latestTs == s.latestPtr == s.master < INVALID_TS
  {
    var th := Thread(INVALID_TS, None, INVALID_TS, INVALID_TS, Running);
    run := [State(0, 0, 0, 0, Waiting, map[0 := th], map[], {}, None, {}, {}, None, 0, 0, 0, {0})];
    run := Extend(run, Commit);
    run := GoDirty(run);
    run := GoBare(run, 0);
    run := GoPublished(run);
    run := Extend(run, Commit);
    run := Extend(run, Commit);
    run := GoDirty(run);
    run := GoPublished(run);
    run := GoCut(run, 0);
  }

  /** The thread of `MisfireRun` goes on to its next commit_update. It checks out checkpoint 3,
      the update from timestamp 1 is refused, and it is left with a checkpoint newer than its
      snapshot. */
  lemma RefusedRun() returns (run: seq<State>)
    ensures Behavior(run)
    ensures
      var s := Last(run);
      && 0 in s.threads && s.threads[0].pc.Running? && LeftBehind(s, s.threads[0]) && Stranded(s, s.threads[0])
      && s.threads[0].ts < s.threads[0].cpTs
  {
    run := MisfireRun();
    run := GoCheckout(run, 0);
    run := ExtendThread(run, RefuseUpdate(0));
  }

  lemma GoCheckout(run: seq<State>, t: Tid) returns (more: seq<State>)
    requires Behavior(run) && t in Last(run).threads && Last(run).threads[t].pc.Running?
    requires Last(run).threads[t].cpTs == INVALID_TS && Last(run).latestTs != INVALID_TS
    requires Last(run).latestPtr == Last(run).latestTs
    ensures Behavior(more)
    ensures
      var s, c := Last(run), Last(run).latestTs;
      Last(more) == s.(threads := s.threads[t := s.threads[t].(ptr := Some(c), cpTs := c, pc := Updating(c, s.master))])
  {
    more := ExtendThread(run, StartCheckout(t));
    more := ExtendThread(more, ReadLatest(t));
    more := ExtendThread(more, ReadPointer(t));
    more := ExtendThread(more, AnnounceTs(t));
    more := ExtendThread(more, RecheckTs(t));
    more := ExtendThread(more, ReadMaster(t));
  }
}
