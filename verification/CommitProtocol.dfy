/** The commit path as a step system over sequentially consistent memory
    (kern/sivfs_commit_update_checkpoints.c, sivfs_commit_changes).

    A committer takes a timestamp and a log slot under `commit_lock`, then validates
    against concurrent entries while others do the same, writes its status and
    finally publishes by waiting for `master_ts` to reach its predecessor. Meanwhile the
    log collector deletes published entries, and only afterwards writes the timestamp that
    lookups are tested against. Every label of `Step` is one atomic action, so a behaviour
    is any interleaving. */
module CommitProtocol {
  import opened Types

  datatype Pc =
    | Idle
    | Linked(k: Ts)             // entry linked into the log, its ts still INVALID_TS
    | Counted(k: Ts)            // commit_started_ts moved to k
    | Copied(k: Ts)             // write set copied into the log
    | Stamped(k: Ts)            // ts written, commit_lock still held
    | Entering(k: Ts)           // about to look up the first entry to validate against
    | Checking(k: Ts, j: Ts)    // validating; next reads entry j's aborted flag
    | Comparing(k: Ts, j: Ts)   // read aborted == false for j; next compares write sets
    | Deciding(k: Ts)           // validation over
    | Filled(k: Ts)             // commit_status_filled_in; waits for the sequence lock
    | Crashed(k: Ts)            // dereferenced the NULL a lookup of a deleted entry gave

  datatype Committer = Committer(snap: Ts, ws: seq<WsEnt>, pc: Pc)

  /** Entries below `gone` are deleted; `cut` is master_log_deleted_ts. The log keeps what
      deleted entries held, and no lookup finds them. `owner` and `snapOf` are history
      variables, which no step reads: who created entry k, and the snapshot timestamp its
      transaction ran on. */
  datatype State = State(
    log: seq<LogEntry>,
    started: Ts,
    master: Ts,
    cut: Ts,
    gone: Ts,
    lock: Option<Tid>,
    threads: map<Tid, Committer>,
    owner: seq<Tid>,
    snapOf: seq<Ts>)

  datatype Step =
    | Begin(t: Tid, ws: seq<WsEnt>)   // update to master_ts, run, and end up with a write set
    | Link(t: Tid)
    | Count(t: Tid)
    | Copy(t: Tid)
    | Stamp(t: Tid)
    | Unlock(t: Tid)
    | LookUp(t: Tid)
    | ReadFlag(t: Tid)
    | Compare(t: Tid)
    | Fill(t: Tid)
    | Publish(t: Tid)
    | Delete(upto: Ts)                // the log collector removes the entries below upto
    | SetCut(upto: Ts)                // and then writes master_log_deleted_ts, which may move back

  predicate IsTrim(step: Step) {
    step.Delete? || step.SetCut?
  }

  predicate InLock(pc: Pc) {
    pc.Linked? || pc.Counted? || pc.Copied? || pc.Stamped?
  }

  /** Where validation goes after entry `j`: the walk over `next` pointers stops at
      `k - 1`, and also at a missing or later-stamped successor. */
  function AfterCheck(log: seq<LogEntry>, k: Ts, j: Ts): Pc
    requires 1 <= j <= |log|
  {
    if log[j - 1].ts == k - 1 then Deciding(k)
    else if j == |log| || log[j].ts > k - 1 then Deciding(k)
    else Checking(k, j + 1)
  }

  predicate EnabledTrim(s: State, step: Step) {
    if step.Delete? then step.upto <= s.master else step.SetCut? && step.upto <= s.gone
  }

  function DoTrim(s: State, step: Step): State
    requires IsTrim(step)
  {
    if step.SetCut? then s.(cut := step.upto)
    else s.(gone := if step.upto > s.gone then step.upto else s.gone)
  }

  ghost predicate EnabledCommit(s: State, step: Step) {
    && !IsTrim(step) && step.t in s.threads
    && var pc := s.threads[step.t].pc;
    match step
    case Begin(_, _) => pc.Idle?
    case Link(_) => pc.Idle? && s.lock.None? && s.started + 1 < INVALID_TS
    case Count(_) => pc.Linked?
    case Copy(_) => pc.Counted? && 1 <= pc.k <= |s.log|
    case Stamp(_) => pc.Copied? && 1 <= pc.k <= |s.log|
    case Unlock(_) => pc.Stamped?
    case LookUp(_) => pc.Entering? && 1 <= pc.k <= |s.log|
    case ReadFlag(_) => pc.Checking? && 1 <= pc.j <= |s.log|
    case Compare(_) => pc.Comparing? && 1 <= pc.j <= |s.log| && 1 <= pc.k <= |s.log|
    case Fill(_) => pc.Deciding? && 1 <= pc.k <= |s.log|
    case Publish(_) => pc.Filled? && s.master + 1 == pc.k
  }

  function SetPc(s: State, t: Tid, pc: Pc): State
    requires t in s.threads
  {
    s.(threads := s.threads[t := s.threads[t].(pc := pc)])
  }

  ghost predicate Enabled(s: State, step: Step) {
    if IsTrim(step) then EnabledTrim(s, step) else EnabledCommit(s, step)
  }

  ghost function Do(s: State, step: Step): State
    requires Enabled(s, step)
  {
    if IsTrim(step) then DoTrim(s, step) else DoCommit(s, step)
  }

  ghost function DoCommit(s: State, step: Step): State
    requires EnabledCommit(s, step)
  {
    var t := step.t;
    var me := s.threads[t];
    match step
    case Begin(_, ws) =>
      s.(threads := s.threads[t := Committer(s.master, ws, Idle)])
    case Link(_) =>
      var k := s.started + 1;
      SetPc(s.(lock := Some(t),
               log := s.log + [LogEntry(INVALID_TS, [], false, false)],
               owner := s.owner + [t],
               snapOf := s.snapOf + [me.snap]), t, Linked(k))
    case Count(_) =>
      SetPc(s.(started := me.pc.k), t, Counted(me.pc.k))
    case Copy(_) =>
      var k := me.pc.k;
      SetPc(s.(log := s.log[k - 1 := s.log[k - 1].(ws := me.ws)]), t, Copied(k))
    case Stamp(_) =>
      var k := me.pc.k;
      SetPc(s.(log := s.log[k - 1 := s.log[k - 1].(ts := k, aborted := false)]), t, Stamped(k))
    case Unlock(_) =>
      var k := me.pc.k;
      SetPc(s.(lock := None), t, if k >= me.snap + 2 then Entering(k) else Deciding(k))
    case LookUp(_) =>
      var k, first := me.pc.k, me.snap + 1;
      if first < s.cut then
        SetPc(s.(log := s.log[k - 1 := s.log[k - 1].(aborted := true)]), t, Deciding(k))
      else SetPc(s, t, if first < s.gone then Crashed(k) else Checking(k, first))
    case ReadFlag(_) =>
      var k, j := me.pc.k, me.pc.j;
      SetPc(s, t, if s.log[j - 1].aborted then AfterCheck(s.log, k, j) else Comparing(k, j))
    case Compare(_) =>
      var k, j := me.pc.k, me.pc.j;
      if Disjoint(s.log[k - 1].ws, s.log[j - 1].ws)
      then SetPc(s, t, AfterCheck(s.log, k, j))
      else SetPc(s.(log := s.log[k - 1 := s.log[k - 1].(aborted := true)]), t, Deciding(k))
    case Fill(_) =>
      var k := me.pc.k;
      SetPc(s.(log := s.log[k - 1 := s.log[k - 1].(filled := true)]), t, Filled(k))
    case Publish(_) =>
      SetPc(s.(master := me.pc.k), t, Idle)
  }

  ghost predicate Init(s: State) {
    && s.log == [] && s.owner == [] && s.snapOf == []
    && s.started == 0 && s.master == 0 && s.cut == 0 && s.gone == 0 && s.lock == None
    && forall t :: t in s.threads ==> s.threads[t].snap == 0 && s.threads[t].pc == Idle
  }

  ghost predicate Next(s: State, s': State) {
    exists step :: Enabled(s, step) && s' == Do(s, step)
  }

  ghost predicate Behavior(run: seq<State>) {
    && |run| > 0 && Init(run[0])
    && forall i {:trigger StepAt(run, i)} :: StepAt(run, i)
  }

  ghost predicate StepAt(run: seq<State>, i: nat) {
    i + 1 < |run| ==> Next(run[i], run[i + 1])
  }

  // ---------------------------------------------------------------- the invariant

  /** Validation of entry `k` has passed every concurrent entry below `upto`. */
  ghost predicate CleanBelow(s: State, k: Ts, upto: Ts)
    requires 1 <= k <= |s.log| && |s.snapOf| == |s.log| && upto <= k
  {
    forall i :: s.snapOf[k - 1] < i < upto ==>
      EntryAt(s.log, i).aborted || Disjoint(s.log[k - 1].ws, EntryAt(s.log, i).ws)
  }

  ghost predicate Shape(s: State) {
    && |s.owner| == |s.log| && |s.snapOf| == |s.log|
    && s.cut <= s.gone <= s.master
    && s.master <= s.started < INVALID_TS
    && match s.lock
       case None => |s.log| == s.started
       case Some(t) =>
         && t in s.threads && InLock(s.threads[t].pc) && s.threads[t].pc.k == |s.log|
         && |s.log| == s.started + (if s.threads[t].pc.Linked? then 1 else 0)
         && |s.log| < INVALID_TS
  }

  ghost predicate ThreadOk(s: State, t: Tid)
    requires Shape(s) && t in s.threads
  {
    var me := s.threads[t];
    && me.snap <= s.master
    && (!me.pc.Idle? ==>
          && s.master < me.pc.k <= |s.log|
          && s.owner[me.pc.k - 1] == t
          && s.snapOf[me.pc.k - 1] == me.snap
          && (InLock(me.pc) ==> s.lock == Some(t))
          && (me.pc.Linked? || me.pc.Counted? || s.log[me.pc.k - 1].ws == me.ws)
          && (me.pc.Entering? || me.pc.Crashed? ==> me.snap + 1 < me.pc.k)
          && (me.pc.Checking? || me.pc.Comparing? ==> me.snap < me.pc.j < me.pc.k))
  }

  /** What the log entry of a pending commit looks like at each program point. */
  ghost predicate PendingOk(s: State, k: Ts, pc: Pc)
    requires Shape(s) && 1 <= k <= |s.log|
  {
    var e := s.log[k - 1];
    && (e.filled <==> pc.Filled?)
    && (e.ts == if pc.Linked? || pc.Counted? || pc.Copied? then INVALID_TS else k)
    && (InLock(pc) || pc.Entering? || pc.Crashed? ==> !e.aborted)
    && (pc.Checking? || pc.Comparing? ==> pc.j <= k && !e.aborted && CleanBelow(s, k, pc.j))
    && (pc.Deciding? || pc.Filled? ==> e.aborted || CleanBelow(s, k, k))
  }

  ghost predicate EntryOk(s: State, k: Ts)
    requires Shape(s) && 1 <= k <= |s.log|
  {
    && s.snapOf[k - 1] < k
    && if k <= s.master then
         && s.log[k - 1].ts == k && s.log[k - 1].filled
         && (s.log[k - 1].aborted || CleanBelow(s, k, k))
       else
         var t := s.owner[k - 1];
         && t in s.threads && !s.threads[t].pc.Idle? && s.threads[t].pc.k == k
         && PendingOk(s, k, s.threads[t].pc)
  }

  ghost predicate Inv(s: State) {
    && Shape(s)
    && (forall t {:trigger ThreadOk(s, t)} :: t in s.threads ==> ThreadOk(s, t))
    && (forall k {:trigger EntryOk(s, k)} :: 1 <= k <= |s.log| ==> EntryOk(s, k))
  }

  lemma InvInit(s: State)
    requires Init(s)
    ensures Inv(s)
  {
  }

  /** What later steps may do to the entries up to `k`: raise aborted flags, nothing else
      that validation has relied on. */
  ghost predicate Stable(s: State, s': State, k: Ts)
    requires Shape(s) && Shape(s') && 1 <= k <= |s.log| <= |s'.log|
  {
    && s'.snapOf[k - 1] == s.snapOf[k - 1]
    && forall i :: 1 <= i <= k ==>
         && EntryAt(s'.log, i).ws == EntryAt(s.log, i).ws
         && (EntryAt(s.log, i).aborted ==> EntryAt(s'.log, i).aborted)
  }

  lemma StableKeeps(s: State, s': State, k: Ts, upto: Ts)
    requires Shape(s) && Shape(s') && 1 <= k <= |s.log| <= |s'.log| && upto <= k
    requires Stable(s, s', k)
    ensures CleanBelow(s, k, upto) ==> CleanBelow(s', k, upto)
  {
    assert EntryAt(s'.log, k).ws == EntryAt(s.log, k).ws;
  }

  /** An entry whose own record and program point a step leaves alone stays in order. */
  lemma EntryUntouched(s: State, s': State, k: Ts)
    requires Shape(s) && Shape(s') && 1 <= k <= |s.log| <= |s'.log|
    requires EntryOk(s, k) && Stable(s, s', k)
    requires s'.log[k - 1] == s.log[k - 1] && s'.owner[k - 1] == s.owner[k - 1]
    requires s.master <= s'.master && (k <= s'.master ==> k <= s.master)
    requires k > s.master ==>
      s.owner[k - 1] in s'.threads && s'.threads[s.owner[k - 1]].pc == s.threads[s.owner[k - 1]].pc
    ensures EntryOk(s', k)
  {
    StableKeeps(s, s', k, k);
    if k > s.master {
      var pc := s.threads[s.owner[k - 1]].pc;
      if pc.Checking? || pc.Comparing? {
        StableKeeps(s, s', k, pc.j);
      }
    }
  }

  lemma NextBegin(s: State, step: Step)
    requires Inv(s) && step.Begin? && Enabled(s, step)
    ensures Inv(Do(s, step))
  {
    var s' := Do(s, step);
    assert ThreadOk(s, step.t);
    forall t | t in s'.threads ensures ThreadOk(s', t) {
      assert ThreadOk(s, t);
    }
    forall k | 1 <= k <= |s'.log| ensures EntryOk(s', k) {
      assert EntryOk(s, k);
      EntryUntouched(s, s', k);
    }
  }

  lemma NextLink(s: State, step: Step)
    requires Inv(s) && step.Link? && Enabled(s, step)
    ensures Inv(Do(s, step))
  {
    var s' := Do(s, step);
    var t := step.t;
    assert ThreadOk(s, t);
    forall u | u in s'.threads ensures ThreadOk(s', u) {
      assert ThreadOk(s, u);
    }
    forall k | 1 <= k <= |s'.log| ensures EntryOk(s', k) {
      if k <= |s.log| {
        assert EntryOk(s, k);
        EntryUntouched(s, s', k);
      }
    }
  }

  /** Steps that rewrite only the record of the acting thread's entry `k`. */
  ghost predicate OwnEntryStep(s: State, s': State, t: Tid)
    requires Shape(s) && t in s.threads && !s.threads[t].pc.Idle?
    requires 1 <= s.threads[t].pc.k <= |s.log|
  {
    var k := s.threads[t].pc.k;
    && Shape(s')
    && |s'.log| == |s.log| && s'.owner == s.owner && s'.snapOf == s.snapOf
    && s'.master == s.master
    && t in s'.threads && !s'.threads[t].pc.Idle? && s'.threads[t].pc.k == k
    && s'.threads[t].snap == s.threads[t].snap
    && s'.threads == s.threads[t := s'.threads[t]]
    && (forall i :: 0 <= i < |s.log| && i != k - 1 ==> s'.log[i] == s.log[i])
    && (s.log[k - 1].aborted ==> s'.log[k - 1].aborted)
    && (k < |s.log| ==> s'.log[k - 1].ws == s.log[k - 1].ws)
    && (forall u :: u in s.threads && u != t && InLock(s.threads[u].pc) ==> s'.lock == s.lock)
    && (InLock(s'.threads[t].pc) ==> s'.lock == Some(t))
  }

  lemma OwnEntryStepThread(s: State, s': State, t: Tid, u: Tid)
    requires Shape(s) && Shape(s') && t in s.threads && !s.threads[t].pc.Idle? && ThreadOk(s, t)
    requires 1 <= s.threads[t].pc.k <= |s.log| && OwnEntryStep(s, s', t)
    requires u in s.threads && u != t && ThreadOk(s, u)
    ensures u in s'.threads && ThreadOk(s', u)
  {
  }

  lemma OwnEntryStepEntry(s: State, s': State, t: Tid, k: Ts)
    requires Shape(s) && Shape(s') && t in s.threads && !s.threads[t].pc.Idle?
    requires 1 <= s.threads[t].pc.k <= |s.log| && OwnEntryStep(s, s', t)
    requires 1 <= k <= |s.log| && EntryOk(s, k) && k != s.threads[t].pc.k
    ensures EntryOk(s', k)
  {
    assert k > s.master ==> s.owner[k - 1] != t;
    EntryUntouched(s, s', k);
  }

  lemma OwnEntryStepKeeps(s: State, s': State, t: Tid)
    requires Inv(s) && t in s.threads && !s.threads[t].pc.Idle?
    requires 1 <= s.threads[t].pc.k <= |s.log|
    requires OwnEntryStep(s, s', t)
    requires ThreadOk(s', t) && PendingOk(s', s.threads[t].pc.k, s'.threads[t].pc)
    ensures Inv(s')
  {
    var k0 := s.threads[t].pc.k;
    assert ThreadOk(s, t);
    forall u | u in s'.threads ensures ThreadOk(s', u) {
      if u != t {
        assert ThreadOk(s, u);
        OwnEntryStepThread(s, s', t, u);
      }
    }
    forall k | 1 <= k <= |s'.log| ensures EntryOk(s', k) {
      assert EntryOk(s, k);
      if k != k0 {
        OwnEntryStepEntry(s, s', t, k);
      }
    }
  }

  lemma NextLocked(s: State, step: Step)
    requires Inv(s) && Enabled(s, step)
    requires step.Count? || step.Copy? || step.Stamp?
    ensures Inv(Do(s, step))
  {
    var s' := Do(s, step);
    assert ThreadOk(s, step.t);
    assert EntryOk(s, s.threads[step.t].pc.k);
    OwnEntryStepKeeps(s, s', step.t);
  }

  lemma NextUnlock(s: State, step: Step)
    requires Inv(s) && step.Unlock? && Enabled(s, step)
    ensures Inv(Do(s, step))
  {
    var s' := Do(s, step);
    assert ThreadOk(s, step.t);
    assert EntryOk(s, s.threads[step.t].pc.k);
    forall u | u in s.threads && u != step.t ensures !InLock(s.threads[u].pc) {
      assert ThreadOk(s, u);
    }
    OwnEntryStepKeeps(s, s', step.t);
  }

  /** Entries below a pending one are stamped, so the walk visits every timestamp. */
  lemma StampedBelow(s: State, k: Ts, j: Ts)
    requires Inv(s) && 1 <= j < k <= |s.log|
    ensures s.log[j - 1].ts == j
  {
    assert EntryOk(s, j);
    if j > s.master {
      assert ThreadOk(s, s.owner[j - 1]);
    }
  }

  lemma AfterCheckExact(s: State, k: Ts, j: Ts)
    requires Inv(s) && 1 <= j < k <= |s.log|
    ensures AfterCheck(s.log, k, j) == if j == k - 1 then Deciding(k) else Checking(k, j + 1)
  {
    StampedBelow(s, k, j);
    if j + 1 < k {
      StampedBelow(s, k, j + 1);
    }
  }

  lemma CleanExtend(s: State, k: Ts, j: Ts)
    requires Shape(s) && 1 <= j < k <= |s.log| && CleanBelow(s, k, j)
    requires EntryAt(s.log, j).aborted || Disjoint(s.log[k - 1].ws, EntryAt(s.log, j).ws)
    ensures CleanBelow(s, k, j + 1)
  {
  }

  /** What a step of `t` has to establish about its own entry for the invariant to hold. */
  ghost predicate OwnDone(s: State, s': State, t: Tid)
    requires Shape(s) && t in s.threads && !s.threads[t].pc.Idle?
    requires 1 <= s.threads[t].pc.k <= |s.log|
  {
    OwnEntryStep(s, s', t) && ThreadOk(s', t) && PendingOk(s', s.threads[t].pc.k, s'.threads[t].pc)
  }

  lemma PassedDone(s: State, t: Tid, s': State)
    requires Shape(s) && t in s.threads && (s.threads[t].pc.Checking? || s.threads[t].pc.Comparing?)
    requires ThreadOk(s, t) && EntryOk(s, s.threads[t].pc.k)
    requires var pc := s.threads[t].pc;
      && CleanBelow(s, pc.k, pc.j + 1)
      && s' == SetPc(s, t, if pc.j == pc.k - 1 then Deciding(pc.k) else Checking(pc.k, pc.j + 1))
    ensures OwnDone(s, s', t)
  {
    var pc := s.threads[t].pc;
    assert Stable(s, s', pc.k);
    StableKeeps(s, s', pc.k, pc.j + 1);
    StableKeeps(s, s', pc.k, pc.k);
  }

  /** Moving on after entry `j` was found aborted or disjoint. */
  lemma CheckPassed(s: State, t: Tid)
    requires Inv(s) && t in s.threads
    requires var pc := s.threads[t].pc;
      && (pc.Checking? || pc.Comparing?) && 1 <= pc.j < pc.k <= |s.log|
      && (EntryAt(s.log, pc.j).aborted || Disjoint(s.log[pc.k - 1].ws, EntryAt(s.log, pc.j).ws))
    ensures Inv(SetPc(s, t, AfterCheck(s.log, s.threads[t].pc.k, s.threads[t].pc.j)))
  {
    var pc := s.threads[t].pc;
    var s' := SetPc(s, t, AfterCheck(s.log, pc.k, pc.j));
    assert ThreadOk(s, t);
    assert EntryOk(s, pc.k);
    AfterCheckExact(s, pc.k, pc.j);
    CleanExtend(s, pc.k, pc.j);
    PassedDone(s, t, s');
    OwnEntryStepKeeps(s, s', t);
  }

  lemma LookUpRefusedDone(s: State, t: Tid, s': State)
    requires Shape(s) && t in s.threads && s.threads[t].pc.Entering?
    requires ThreadOk(s, t) && EntryOk(s, s.threads[t].pc.k) && s.threads[t].snap + 1 < s.cut
    requires var k := s.threads[t].pc.k;
      s' == SetPc(s.(log := s.log[k - 1 := s.log[k - 1].(aborted := true)]), t, Deciding(k))
    ensures OwnDone(s, s', t)
  {
  }

  lemma LookUpPassedDone(s: State, t: Tid, s': State)
    requires Shape(s) && t in s.threads && s.threads[t].pc.Entering?
    requires ThreadOk(s, t) && EntryOk(s, s.threads[t].pc.k)
    requires var k, first := s.threads[t].pc.k, s.threads[t].snap + 1;
      s' == SetPc(s, t, if first < s.gone then Crashed(k) else Checking(k, first))
    ensures OwnDone(s, s', t)
  {
  }

  lemma NextLookUp(s: State, step: Step)
    requires Inv(s) && step.LookUp? && Enabled(s, step)
    ensures Inv(Do(s, step))
  {
    assert ThreadOk(s, step.t);
    assert EntryOk(s, s.threads[step.t].pc.k);
    if s.threads[step.t].snap + 1 < s.cut {
      LookUpRefusedDone(s, step.t, Do(s, step));
    } else {
      LookUpPassedDone(s, step.t, Do(s, step));
    }
    OwnEntryStepKeeps(s, Do(s, step), step.t);
  }

  lemma NextTrim(s: State, step: Step)
    requires Inv(s) && IsTrim(step) && Enabled(s, step)
    ensures Inv(Do(s, step))
  {
    var s' := Do(s, step);
    forall t | t in s'.threads ensures ThreadOk(s', t) {
      assert ThreadOk(s, t);
    }
    forall k | 1 <= k <= |s'.log| ensures EntryOk(s', k) {
      assert EntryOk(s, k);
      EntryUntouched(s, s', k);
    }
  }

  lemma FailedDone(s: State, t: Tid, s': State)
    requires Shape(s) && t in s.threads && s.threads[t].pc.Comparing?
    requires ThreadOk(s, t) && EntryOk(s, s.threads[t].pc.k)
    requires var k := s.threads[t].pc.k;
      s' == SetPc(s.(log := s.log[k - 1 := s.log[k - 1].(aborted := true)]), t, Deciding(k))
    ensures OwnDone(s, s', t)
  {
    var k := s.threads[t].pc.k;
    assert Stable(s, s', k);
    StableKeeps(s, s', k, k);
  }

  /** Giving up on a conflict. */
  lemma CheckFailed(s: State, t: Tid)
    requires Inv(s) && t in s.threads && s.threads[t].pc.Comparing?
    requires 1 <= s.threads[t].pc.k <= |s.log|
    ensures var k := s.threads[t].pc.k;
      Inv(SetPc(s.(log := s.log[k - 1 := s.log[k - 1].(aborted := true)]), t, Deciding(k)))
  {
    var k := s.threads[t].pc.k;
    var s' := SetPc(s.(log := s.log[k - 1 := s.log[k - 1].(aborted := true)]), t, Deciding(k));
    assert ThreadOk(s, t);
    assert EntryOk(s, k);
    FailedDone(s, t, s');
    OwnEntryStepKeeps(s, s', t);
  }

  lemma ReadDone(s: State, t: Tid, s': State)
    requires Shape(s) && t in s.threads && s.threads[t].pc.Checking?
    requires ThreadOk(s, t) && EntryOk(s, s.threads[t].pc.k)
    requires s' == SetPc(s, t, Comparing(s.threads[t].pc.k, s.threads[t].pc.j))
    ensures OwnDone(s, s', t)
  {
    var pc := s.threads[t].pc;
    assert Stable(s, s', pc.k);
    StableKeeps(s, s', pc.k, pc.j);
  }

  lemma NextReadFlag(s: State, step: Step)
    requires Inv(s) && step.ReadFlag? && Enabled(s, step)
    ensures Inv(Do(s, step))
  {
    var pc := s.threads[step.t].pc;
    assert ThreadOk(s, step.t);
    if s.log[pc.j - 1].aborted {
      assert EntryAt(s.log, pc.j).aborted;
      CheckPassed(s, step.t);
    } else {
      assert EntryOk(s, pc.k);
      ReadDone(s, step.t, Do(s, step));
      OwnEntryStepKeeps(s, Do(s, step), step.t);
    }
  }

  lemma NextCompare(s: State, step: Step)
    requires Inv(s) && step.Compare? && Enabled(s, step)
    ensures Inv(Do(s, step))
  {
    var s' := Do(s, step);
    var pc := s.threads[step.t].pc;
    assert ThreadOk(s, step.t);
    assert EntryOk(s, pc.k);
    assert EntryAt(s.log, pc.j) == s.log[pc.j - 1];
    if Disjoint(s.log[pc.k - 1].ws, s.log[pc.j - 1].ws) {
      CheckPassed(s, step.t);
    } else {
      CheckFailed(s, step.t);
    }
  }

  lemma NextFill(s: State, step: Step)
    requires Inv(s) && step.Fill? && Enabled(s, step)
    ensures Inv(Do(s, step))
  {
    var s' := Do(s, step);
    var k := s.threads[step.t].pc.k;
    assert ThreadOk(s, step.t);
    assert EntryOk(s, k);
    assert Stable(s, s', k);
    StableKeeps(s, s', k, k);
    assert PendingOk(s', k, s'.threads[step.t].pc);
    assert OwnEntryStep(s, s', step.t);
    OwnEntryStepKeeps(s, s', step.t);
  }

  ghost predicate PublishStep(s: State, s': State, t: Tid) {
    && Shape(s) && Shape(s') && t in s.threads && s.threads[t].pc.Filled? && s.threads[t].pc.k == s.master + 1
    && s' == SetPc(s.(master := s.master + 1), t, Idle)
  }

  lemma PublishThread(s: State, s': State, t: Tid, u: Tid)
    requires PublishStep(s, s', t) && s.master < |s.log| && s.owner[s.master] == t
    requires u in s.threads && ThreadOk(s, u)
    ensures ThreadOk(s', u)
  {
  }

  lemma PublishEntry(s: State, s': State, t: Tid, k: Ts)
    requires PublishStep(s, s', t) && 1 <= k <= |s.log| && EntryOk(s, k)
    requires s.master < |s.log| && s.owner[s.master] == t
    ensures EntryOk(s', k)
  {
    assert Stable(s, s', k);
    StableKeeps(s, s', k, k);
    if k != s.master + 1 {
      EntryUntouched(s, s', k);
    }
  }

  lemma NextPublish(s: State, step: Step)
    requires Inv(s) && step.Publish? && Enabled(s, step)
    ensures Inv(Do(s, step))
  {
    var s' := Do(s, step);
    assert ThreadOk(s, step.t);
    assert EntryOk(s, s.master + 1);
    assert s.lock.Some? ==> ThreadOk(s, s.lock.value);
    assert PublishStep(s, s', step.t);
    forall u | u in s'.threads ensures ThreadOk(s', u) {
      assert ThreadOk(s, u);
      PublishThread(s, s', step.t, u);
    }
    forall k | 1 <= k <= |s'.log| ensures EntryOk(s', k) {
      assert EntryOk(s, k);
      PublishEntry(s, s', step.t, k);
    }
  }

  lemma InvNext(s: State, s': State)
    requires Inv(s) && Next(s, s')
    ensures Inv(s')
  {
    var step :| Enabled(s, step) && s' == Do(s, step);
    match step
    case Begin(_, _) => NextBegin(s, step);
    case Link(_) => NextLink(s, step);
    case Count(_) => NextLocked(s, step);
    case Copy(_) => NextLocked(s, step);
    case Stamp(_) => NextLocked(s, step);
    case Unlock(_) => NextUnlock(s, step);
    case LookUp(_) => NextLookUp(s, step);
    case ReadFlag(_) => NextReadFlag(s, step);
    case Compare(_) => NextCompare(s, step);
    case Fill(_) => NextFill(s, step);
    case Publish(_) => NextPublish(s, step);
    case Delete(_) => NextTrim(s, step);
    case SetCut(_) => NextTrim(s, step);
  }

  lemma {:induction false} InvAlways(run: seq<State>, n: nat)
    requires Behavior(run) && n < |run|
    ensures Inv(run[n])
    decreases n
  {
    if n == 0 {
      InvInit(run[0]);
    } else {
      InvAlways(run, n - 1);
      assert StepAt(run, n - 1);
      InvNext(run[n - 1], run[n]);
    }
  }

  // ---------------------------------------------------------------- what it gives

  /** First committer wins: of two published commits whose transactions overlapped, at
      most one survives unless they write disjoint words. Validators may have read the
      other commit's aborted flag long before it was final. */
  lemma FirstCommitterWins(run: seq<State>, n: nat, i: Ts, j: Ts)
    requires Behavior(run) && n < |run|
    requires 1 <= i < j <= run[n].master
    ensures |run[n].log| >= j && |run[n].snapOf| >= j
    ensures
      var s := run[n];
      i > s.snapOf[j - 1] && !EntryAt(s.log, i).aborted && !EntryAt(s.log, j).aborted ==>
        Disjoint(EntryAt(s.log, j).ws, EntryAt(s.log, i).ws)
  {
    InvAlways(run, n);
    assert EntryOk(run[n], j);
  }

  /** The step from `s` to `s'` is the lookup that refuses entry `k` its validation. */
  ghost predicate RefusedBy(s: State, s': State, k: Ts) {
    && 1 <= k <= |s.log| && |s.owner| == |s.log| && |s.snapOf| == |s.log|
    && var t := s.owner[k - 1];
    && t in s.threads && s.threads[t].pc == Entering(k)
    && s.threads[t].snap == s.snapOf[k - 1] && s.snapOf[k - 1] + 1 < s.cut
    && Enabled(s, LookUp(t)) && s' == Do(s, LookUp(t))
  }

  /** Entry `i` is concurrent with `k` and writes one of the words `k` writes. */
  ghost predicate RivalOf(s: State, k: Ts, i: Ts) {
    && 1 <= k <= |s.log| && |s.snapOf| == |s.log| && s.snapOf[k - 1] < i < k
    && !Disjoint(EntryAt(s.log, k).ws, EntryAt(s.log, i).ws)
  }

  /** Entry `k` is stamped, and entry `i` is not aborted. */
  predicate SeenLive(s: State, k: Ts, i: Ts) {
    1 <= i < k <= |s.log| && EntryAt(s.log, k).ts == k && !EntryAt(s.log, i).aborted
  }

  /** A rival that was not aborted at some moment since `k` was stamped. */
  ghost predicate LiveRival(run: seq<State>, n: nat, k: Ts)
    requires n < |run|
  {
    exists i: Ts, m: nat {:trigger SeenLive(run[m], k, i)} :: m < n && RivalOf(run[n], k, i) && SeenLive(run[m], k, i)
  }

  ghost predicate RefusedBefore(run: seq<State>, n: nat, k: Ts)
    requires n < |run|
  {
    exists m: nat :: m < n && RefusedBy(run[m], run[m + 1], k)
  }

  /** Whoever compares write sets has read the flag. */
  lemma ComparingStep(s: State, step: Step, t: Tid)
    requires Inv(s) && Enabled(s, step) && t in Do(s, step).threads && Do(s, step).threads[t].pc.Comparing?
    ensures
      var pc := Do(s, step).threads[t].pc;
      t in s.threads && (s.threads[t].pc == pc || SeenLive(s, pc.k, pc.j))
  {
    if !IsTrim(step) {
      if t == step.t {
        assert ThreadOk(s, t);
        if s.threads[t].pc.Checking? {
          assert EntryOk(s, s.threads[t].pc.k);
        }
      } else {
        OthersLeftAlone(s, step);
      }
    }
  }

  lemma {:induction false} ComparedLive(run: seq<State>, n: nat, t: Tid)
    requires Behavior(run) && n < |run| && t in run[n].threads && run[n].threads[t].pc.Comparing?
    ensures exists m: nat :: m < n && SeenLive(run[m], run[n].threads[t].pc.k, run[n].threads[t].pc.j)
    decreases n
  {
    if n > 0 {
      InvAlways(run, n - 1);
      assert StepAt(run, n - 1);
      var step :| Enabled(run[n - 1], step) && run[n - 1 + 1] == Do(run[n - 1], step);
      ComparingStep(run[n - 1], step, t);
      if run[n - 1].threads[t].pc == run[n].threads[t].pc {
        ComparedLive(run, n - 1, t);
      }
    }
  }

  /** How an entry gets its aborted flag. */
  lemma AbortStep(s: State, step: Step, k: Ts)
    requires Inv(s) && Enabled(s, step) && 1 <= k <= |Do(s, step).log| && EntryAt(Do(s, step).log, k).aborted
    ensures
      || (k <= |s.log| && EntryAt(s.log, k).aborted) || RefusedBy(s, Do(s, step), k)
      || (&& step.Compare? && step.t in s.threads && s.threads[step.t].pc.Comparing? && s.threads[step.t].pc.k == k
          && RivalOf(s, k, s.threads[step.t].pc.j))
  {
    if step.LookUp? || step.Compare? {
      assert ThreadOk(s, step.t);
    }
  }

  lemma WsKept(s: State, step: Step, i: Ts)
    requires Enabled(s, step) && 1 <= i <= |s.log| == |s.snapOf| && (step.Copy? ==> s.threads[step.t].pc.k != i)
    ensures
      var s' := Do(s, step);
      i <= |s'.log| == |s'.snapOf| && s'.snapOf[i - 1] == s.snapOf[i - 1] && EntryAt(s'.log, i).ws == EntryAt(s.log, i).ws
  {
  }

  lemma CopyIsUnstamped(s: State, step: Step)
    requires Inv(s) && step.Copy? && Enabled(s, step)
    ensures EntryAt(s.log, s.threads[step.t].pc.k).ts == INVALID_TS && |s.log| < INVALID_TS
  {
    assert ThreadOk(s, step.t);
    assert EntryOk(s, s.threads[step.t].pc.k);
  }

  /** Once a later entry is stamped, write sets and snapshots no longer change. */
  lemma RivalKept(s: State, step: Step, k: Ts, i: Ts)
    requires Inv(s) && Enabled(s, step) && RivalOf(s, k, i) && EntryAt(s.log, k).ts == k
    ensures RivalOf(Do(s, step), k, i)
  {
    StampedBelow(s, k, i);
    if step.Copy? {
      CopyIsUnstamped(s, step);
    }
    WsKept(s, step, k);
    WsKept(s, step, i);
  }

  lemma AbortedIsStamped(s: State, k: Ts)
    requires Inv(s) && 1 <= k <= |s.log| && EntryAt(s.log, k).aborted
    ensures EntryAt(s.log, k).ts == k
  {
    assert EntryOk(s, k);
  }

  lemma {:induction false} AbortExplained(run: seq<State>, n: nat, k: Ts)
    requires Behavior(run) && n < |run| && 1 <= k <= |run[n].log| && EntryAt(run[n].log, k).aborted
    ensures LiveRival(run, n, k) || RefusedBefore(run, n, k)
    decreases n
  {
    if n > 0 {
      InvAlways(run, n - 1);
      assert StepAt(run, n - 1);
      var s, step :| s == run[n - 1] && Enabled(s, step) && run[n - 1 + 1] == Do(s, step);
      AbortStep(s, step, k);
      if k <= |s.log| && EntryAt(s.log, k).aborted {
        AbortExplained(run, n - 1, k);
        AbortedIsStamped(s, k);
        if !RefusedBefore(run, n - 1, k) {
          var i: Ts, m: nat :| m < n - 1 && RivalOf(s, k, i) && SeenLive(run[m], k, i);
          RivalKept(s, step, k, i);
        }
      } else if RefusedBy(s, Do(s, step), k) {
        assert RefusedBy(run[n - 1], run[n - 1 + 1], k);
      } else {
        var i := s.threads[step.t].pc.j;
        ComparedLive(run, n - 1, step.t);
        var m: nat :| m < n - 1 && SeenLive(run[m], k, i);
        CompareStamped(s, step);
        RivalKept(s, step, k, i);
      }
    }
  }

  lemma CompareStamped(s: State, step: Step)
    requires Inv(s) && step.Compare? && Enabled(s, step)
    ensures var k := s.threads[step.t].pc.k; 1 <= k <= |s.log| && EntryAt(s.log, k).ts == k
  {
    assert ThreadOk(s, step.t);
    assert EntryOk(s, s.threads[step.t].pc.k);
  }

  /** No spurious aborts: a published abort has a concurrent rival entry that writes one of its
      words and was not itself aborted at some moment since the abort's entry was stamped, or
      its validation was refused at an earlier moment of the run because the first entry it had
      to read was below the cut. */
  lemma AbortHasRival(run: seq<State>, n: nat, k: Ts)
    requires Behavior(run) && n < |run| && 1 <= k <= run[n].master
    ensures k <= |run[n].log|
    ensures EntryAt(run[n].log, k).aborted ==> LiveRival(run, n, k) || RefusedBefore(run, n, k)
  {
    MasterInLog(run, n);
    if EntryAt(run[n].log, k).aborted {
      AbortExplained(run, n, k);
    }
  }

  /** Counters stay ordered, and whatever walks the log up to a published timestamp sees
      every entry below it stamped and filled in, and never enters the half-built tail. */
  lemma OrderedPublication(run: seq<State>, n: nat, stop: Ts)
    requires Behavior(run) && n < |run| && stop <= run[n].master
    ensures run[n].master <= run[n].started <= |run[n].log| <= run[n].started + 1
    ensures Walkable(run[n].log, stop)
    ensures forall k :: 1 <= k <= stop ==> EntryAt(run[n].log, k).filled
  {
    InvAlways(run, n);
    var s := run[n];
    forall k | 1 <= k <= stop ensures EntryAt(s.log, k).ts == k && EntryAt(s.log, k).filled {
      assert EntryOk(s, k);
    }
    if stop < |s.log| {
      assert EntryOk(s, stop + 1);
    }
  }

  /** What a committer about to publish has put into the log is its own transaction: its
      write set, judged against the snapshot it ran on. */
  lemma CommitIsTheTransaction(run: seq<State>, n: nat, t: Tid)
    requires Behavior(run) && n < |run| && t in run[n].threads && run[n].threads[t].pc.Filled?
    ensures
      var s, me := run[n], run[n].threads[t];
      && 1 <= me.pc.k <= |s.log| == |s.snapOf|
      && EntryAt(s.log, me.pc.k).ws == me.ws && s.snapOf[me.pc.k - 1] == me.snap < me.pc.k
      && EntryAt(s.log, me.pc.k).filled
  {
    InvAlways(run, n);
    assert ThreadOk(run[n], t);
    assert EntryOk(run[n], run[n].threads[t].pc.k);
  }

  lemma PublishedKept(s: State, s': State, k: Ts)
    requires Inv(s) && Next(s, s') && 1 <= k <= s.master
    ensures k <= s'.master && |s'.log| >= k && s'.log[k - 1] == s.log[k - 1]
  {
    var step :| Enabled(s, step) && s' == Do(s, step);
    if !IsTrim(step) {
      assert ThreadOk(s, step.t);
    }
  }

  lemma MasterInLog(run: seq<State>, n: nat)
    requires Behavior(run) && n < |run|
    ensures run[n].master <= |run[n].log|
  {
    InvAlways(run, n);
  }

  lemma PublishedKeptInRun(run: seq<State>, n: nat, k: Ts)
    requires Behavior(run) && n + 1 < |run| && 1 <= k <= run[n].master
    ensures k <= run[n + 1].master && |run[n].log| >= k && |run[n + 1].log| >= k
    ensures run[n + 1].log[k - 1] == run[n].log[k - 1]
  {
    InvAlways(run, n);
    assert StepAt(run, n);
    PublishedKept(run[n], run[n + 1], k);
  }

  /** Once at or below master_ts, an entry never changes again. */
  lemma {:induction false} StatusIsFinal(run: seq<State>, m: nat, n: nat, k: Ts)
    requires Behavior(run) && m <= n < |run| && 1 <= k <= run[m].master
    ensures k <= run[n].master
    ensures |run[m].log| >= k && |run[n].log| >= k && run[n].log[k - 1] == run[m].log[k - 1]
    decreases n
  {
    MasterInLog(run, m);
    if m < n {
      StatusIsFinal(run, m, n - 1, k);
      PublishedKeptInRun(run, n - 1, k);
    }
  }

  /** So two threads that hold the same timestamp agree on every word, whenever they look. */
  lemma SnapshotsAgree(run: seq<State>, m: nat, n: nat, t: Ts, a: Addr)
    requires Behavior(run) && m <= n < |run| && t <= run[m].master
    ensures t <= |run[m].log| && t <= |run[n].log|
    ensures Snapshot(run[m].log, t, a) == Snapshot(run[n].log, t, a)
  {
    MasterInLog(run, m);
    MasterInLog(run, n);
    forall i | 0 <= i < t ensures i < |run[n].log| && run[m].log[i] == run[n].log[i] {
      StatusIsFinal(run, m, n, i + 1);
    }
    if t > 0 {
      StatusIsFinal(run, m, n, t);
    }
    SnapshotPrefix(run[m].log, run[n].log, t, a);
  }

  // ---------------------------------------------------------------- the sequence lock

  ghost predicate NextBy(s: State, s': State, t: Tid) {
    exists step: Step :: !IsTrim(step) && step.t == t && Enabled(s, step) && s' == Do(s, step)
  }

  /** How many of its own steps a committer still needs. */
  function StepsLeft(pc: Pc): nat {
    match pc
    case Idle => 0
    case Crashed(_) => 0
    case Filled(_) => 1
    case Deciding(_) => 2
    case Comparing(k, j) => if j <= k then 3 + 2 * (k - j) else 0
    case Checking(k, j) => if j <= k then 4 + 2 * (k - j) else 0
    case Entering(k) => 5 + 2 * k
    case Stamped(k) => 6 + 2 * k
    case Copied(k) => 7 + 2 * k
    case Counted(k) => 8 + 2 * k
    case Linked(k) => 9 + 2 * k
  }

  function OwnStep(t: Tid, pc: Pc): Step
    requires !pc.Idle? && !pc.Crashed?
  {
    match pc
    case Linked(_) => Count(t)
    case Counted(_) => Copy(t)
    case Copied(_) => Stamp(t)
    case Stamped(_) => Unlock(t)
    case Entering(_) => LookUp(t)
    case Checking(_, _) => ReadFlag(t)
    case Comparing(_, _) => Compare(t)
    case Deciding(_) => Fill(t)
    case Filled(_) => Publish(t)
  }

  ghost predicate Pending(s: State, t: Tid) {
    t in s.threads && !s.threads[t].pc.Idle?
  }

  /** The committer has run into a deleted entry, or its lookup is still ahead and would:
      the entry is gone and the cut does not say so. */
  predicate Doomed(s: State, t: Tid)
    requires t in s.threads && !s.threads[t].pc.Idle?
  {
    var me := s.threads[t];
    || me.pc.Crashed?
    || ((InLock(me.pc) || me.pc.Entering?) && me.snap + 2 <= me.pc.k && s.cut <= me.snap + 1 < s.gone)
  }

  lemma OwnCheckProgress(s: State, t: Tid)
    requires Inv(s) && Pending(s, t) && (s.threads[t].pc.Checking? || s.threads[t].pc.Comparing?)
    ensures
      var pc := s.threads[t].pc;
      && 1 <= pc.j < pc.k <= |s.log|
      && AfterCheck(s.log, pc.k, pc.j) == if pc.j == pc.k - 1 then Deciding(pc.k) else Checking(pc.k, pc.j + 1)
  {
    assert ThreadOk(s, t);
    AfterCheckExact(s, s.threads[t].pc.k, s.threads[t].pc.j);
  }

  /** What one step of its own does for the oldest committer. */
  ghost predicate Progress(s: State, s': State, t: Tid)
    requires Pending(s, t)
  {
    if s.threads[t].pc.Filled? then s'.master == s.master + 1
    else && s'.master == s.master && Pending(s', t) && !Doomed(s', t)
         && s'.threads[t].pc.k == s.threads[t].pc.k
         && StepsLeft(s'.threads[t].pc) < StepsLeft(s.threads[t].pc)
  }

  lemma OwnCheckStep(s: State, t: Tid)
    requires Shape(s) && Pending(s, t) && (s.threads[t].pc.Checking? || s.threads[t].pc.Comparing?)
    requires
      var pc := s.threads[t].pc;
      && 1 <= pc.j < pc.k <= |s.log|
      && AfterCheck(s.log, pc.k, pc.j) == if pc.j == pc.k - 1 then Deciding(pc.k) else Checking(pc.k, pc.j + 1)
    ensures Enabled(s, OwnStep(t, s.threads[t].pc))
    ensures Progress(s, Do(s, OwnStep(t, s.threads[t].pc)), t)
  {
  }

  lemma OwnLockStep(s: State, t: Tid)
    requires Shape(s) && Pending(s, t) && ThreadOk(s, t) && !Doomed(s, t)
    requires InLock(s.threads[t].pc) || s.threads[t].pc.Entering?
    ensures Enabled(s, OwnStep(t, s.threads[t].pc))
    ensures Progress(s, Do(s, OwnStep(t, s.threads[t].pc)), t)
  {
  }

  lemma OwnStepProgress(s: State, t: Tid)
    requires Inv(s) && Pending(s, t) && s.threads[t].pc.k == s.master + 1 && !Doomed(s, t)
    ensures Enabled(s, OwnStep(t, s.threads[t].pc))
    ensures Progress(s, Do(s, OwnStep(t, s.threads[t].pc)), t)
  {
    assert ThreadOk(s, t);
    var pc := s.threads[t].pc;
    if pc.Checking? || pc.Comparing? {
      OwnCheckProgress(s, t);
      OwnCheckStep(s, t);
    } else if !pc.Deciding? && !pc.Filled? {
      OwnLockStep(s, t);
    }
  }

  lemma TakeOwnStep(s: State, t: Tid) returns (s': State)
    requires Inv(s) && Pending(s, t) && s.threads[t].pc.k == s.master + 1 && !Doomed(s, t)
    ensures NextBy(s, s', t) && Inv(s') && Progress(s, s', t)
  {
    OwnStepProgress(s, t);
    s' := Do(s, OwnStep(t, s.threads[t].pc));
    assert NextBy(s, s', t);
    assert Next(s, s');
    InvNext(s, s');
  }

  /** The owner of entry master_ts + 1 can publish by its own steps alone, unless it is
      doomed: nobody it could wait for is needed. */
  lemma {:induction false} OldestCanPublish(s: State, t: Tid) returns (run: seq<State>)
    requires Inv(s) && Pending(s, t) && s.threads[t].pc.k == s.master + 1 && !Doomed(s, t)
    ensures |run| > 0 && run[0] == s
    ensures forall i :: 0 <= i < |run| - 1 ==> NextBy(run[i], run[i + 1], t)
    ensures run[|run| - 1].master == s.master + 1
    decreases StepsLeft(s.threads[t].pc)
  {
    var s' := TakeOwnStep(s, t);
    if s.threads[t].pc.Filled? {
      run := [s, s'];
    } else {
      var rest := OldestCanPublish(s', t);
      run := [s] + rest;
      forall i | 0 <= i < |run| - 1 ensures NextBy(run[i], run[i + 1], t) {
        if i > 0 {
          assert NextBy(rest[i - 1], rest[i - 1 + 1], t);
        }
      }
    }
  }

  /** Conversely a doomed committer gets nowhere on its own. */
  lemma DoomedStep(s: State, s': State, t: Tid)
    requires Inv(s) && Pending(s, t) && Doomed(s, t) && NextBy(s, s', t)
    ensures Inv(s') && Pending(s', t) && Doomed(s', t) && s'.master == s.master
  {
    assert ThreadOk(s, t);
    assert Next(s, s');
    InvNext(s, s');
  }

  lemma {:induction false} DoomedCannotPublish(run: seq<State>, t: Tid)
    requires |run| > 0 && Inv(run[0]) && Pending(run[0], t) && Doomed(run[0], t)
    requires forall i :: 0 <= i < |run| - 1 ==> NextBy(run[i], run[i + 1], t)
    ensures run[|run| - 1].master == run[0].master
  {
    if |run| > 1 {
      DoomedStep(run[0], run[1], t);
      var rest := run[1..];
      forall i | 0 <= i < |rest| - 1 ensures NextBy(rest[i], rest[i + 1], t) {
        assert NextBy(run[i + 1], run[i + 1 + 1], t);
      }
      DoomedCannotPublish(rest, t);
    }
  }

  lemma SequenceLockIsLive(run: seq<State>, n: nat) returns (t: Tid, more: seq<State>)
    requires Behavior(run) && n < |run| && run[n].master < |run[n].log|
    ensures Inv(run[n]) && t == run[n].owner[run[n].master]
    ensures Pending(run[n], t) && run[n].threads[t].pc.k == run[n].master + 1
    ensures !Doomed(run[n], t) ==>
      && |more| > 0 && more[0] == run[n]
      && (forall i :: 0 <= i < |more| - 1 ==> NextBy(more[i], more[i + 1], t))
      && more[|more| - 1].master == run[n].master + 1
  {
    InvAlways(run, n);
    assert EntryOk(run[n], run[n].master + 1);
    t := run[n].owner[run[n].master];
    more := [];
    if !Doomed(run[n], t) {
      more := OldestCanPublish(run[n], t);
    }
  }

  lemma OthersLeftAlone(s: State, step: Step)
    requires EnabledCommit(s, step)
    ensures
      var s' := DoCommit(s, step);
      && s'.threads.Keys == s.threads.Keys
      && forall u :: u in s.threads && u != step.t ==> s'.threads[u] == s.threads[u]
  {
  }

  lemma OnlyLookUpCrashes(s: State, step: Step, t: Tid)
    requires Enabled(s, step) && t in Do(s, step).threads && Do(s, step).threads[t].pc.Crashed?
    ensures t in s.threads
    ensures s.threads[t].pc.Crashed? || (s.threads[t].pc.Entering? && s.threads[t].snap + 1 < s.gone)
  {
    if !IsTrim(step) && t != step.t {
      OthersLeftAlone(s, step);
    }
  }

  lemma CrashedStays(s: State, s': State, t: Tid)
    requires Next(s, s') && t in s.threads && s.threads[t].pc.Crashed?
    ensures t in s'.threads && s'.threads[t] == s.threads[t]
  {
    var step :| Enabled(s, step) && s' == Do(s, step);
    if !IsTrim(step) {
      assert step.t != t;
      OthersLeftAlone(s, step);
    }
  }

  /** Once a committer has crashed, master_ts stays below its entry whatever anybody does:
      every later commit waits for the sequence lock for ever. */
  lemma {:induction false} CrashBlocksForever(run: seq<State>, m: nat, n: nat, t: Tid)
    requires Behavior(run) && m <= n < |run|
    requires t in run[m].threads && run[m].threads[t].pc.Crashed?
    ensures t in run[n].threads && run[n].threads[t] == run[m].threads[t]
    ensures run[n].master < run[m].threads[t].pc.k
    decreases n
  {
    InvAlways(run, n);
    if m < n {
      CrashBlocksForever(run, m, n - 1, t);
      assert StepAt(run, n - 1);
      CrashedStays(run[n - 1], run[n - 1 + 1], t);
    }
    assert ThreadOk(run[n], t);
  }

  // ---------------------------------------------------------------- a commit on its own

  ghost function Last(run: seq<State>): State
    requires |run| > 0
  {
    run[|run| - 1]
  }

  /** Thread `t` alone takes the system from `s` to `s'`. */
  ghost predicate Alone(run: seq<State>, t: Tid, s: State, s': State) {
    |run| > 0 && run[0] == s && Last(run) == s' && forall i :: 0 <= i < |run| - 1 ==> NextBy(run[i], run[i + 1], t)
  }

  lemma OwnStepRun(s: State, step: Step) returns (run: seq<State>)
    requires EnabledCommit(s, step)
    ensures Alone(run, step.t, s, Do(s, step))
  {
    run := [s, Do(s, step)];
    assert NextBy(s, Do(s, step), step.t);
  }

  lemma Join(r1: seq<State>, r2: seq<State>, t: Tid, s: State, s1: State, s2: State) returns (run: seq<State>)
    requires Alone(r1, t, s, s1) && Alone(r2, t, s1, s2)
    ensures Alone(run, t, s, s2)
  {
    run := r1 + r2[1..];
    forall i | 0 <= i < |run| - 1 ensures NextBy(run[i], run[i + 1], t) {
      if i < |r1| - 1 {
        assert NextBy(r1[i], r1[i + 1], t);
      } else {
        var j := i - (|r1| - 1);
        assert run[i] == r2[j] && NextBy(r2[j], r2[j + 1], t);
      }
    }
  }

  lemma {:induction false} AloneInv(run: seq<State>, t: Tid, s: State, s': State)
    requires Alone(run, t, s, s') && Inv(s)
    ensures Inv(s')
    decreases |run|
  {
    if |run| > 1 {
      assert NextBy(run[0], run[0 + 1], t);
      assert Next(s, run[1]);
      InvNext(s, run[1]);
      var rest := run[1..];
      forall i | 0 <= i < |rest| - 1 ensures NextBy(rest[i], rest[i + 1], t) {
        assert NextBy(run[i + 1], run[i + 1 + 1], t);
      }
      AloneInv(rest, t, run[1], s');
    }
  }

  /** `s` with the entry of thread `t`'s commit added to the log. */
  ghost function WithEntry(s: State, t: Tid, aborted: bool, filled: bool, pc: Pc): State
    requires t in s.threads
  {
    var me, k := s.threads[t], s.started + 1;
    s.(log := s.log + [LogEntry(k, me.ws, aborted, filled)], started := k,
       owner := s.owner + [t], snapOf := s.snapOf + [me.snap], threads := s.threads[t := me.(pc := pc)])
  }

  ghost predicate MayCommit(s: State, t: Tid) {
    && Inv(s) && s.lock.None? && s.started + 1 < INVALID_TS
    && t in s.threads && s.threads[t].pc.Idle?
  }

  /** `s` with an entry linked in whose number is taken but which is not filled in yet. */
  ghost function WithSlot(s: State, t: Tid): State
    requires t in s.threads
  {
    var me, k := s.threads[t], s.started + 1;
    s.(log := s.log + [LogEntry(INVALID_TS, [], false, false)], started := k, lock := Some(t),
       owner := s.owner + [t], snapOf := s.snapOf + [me.snap], threads := s.threads[t := me.(pc := Counted(k))])
  }

  lemma LinkAlone(s: State, t: Tid) returns (run: seq<State>)
    requires MayCommit(s, t)
    ensures Alone(run, t, s, WithSlot(s, t))
  {
    run := OwnStepRun(s, Link(t));
    var s1 := Do(s, Link(t));
    var more := OwnStepRun(s1, Count(t));
    run := Join(run, more, t, s, s1, WithSlot(s, t));
  }

  lemma StampAlone(s: State, t: Tid) returns (run: seq<State>)
    requires MayCommit(s, t)
    ensures Alone(run, t, WithSlot(s, t), WithEntry(s, t, false, false, Stamped(s.started + 1)).(lock := Some(t)))
  {
    var s2 := WithSlot(s, t);
    run := OwnStepRun(s2, Copy(t));
    var s3 := Do(s2, Copy(t));
    var more := OwnStepRun(s3, Stamp(t));
    assert Do(s3, Stamp(t)).log == s.log + [LogEntry(s.started + 1, s.threads[t].ws, false, false)];
    run := Join(run, more, t, s2, s3, WithEntry(s, t, false, false, Stamped(s.started + 1)).(lock := Some(t)));
  }

  lemma AppendLocked(s: State, t: Tid) returns (run: seq<State>)
    requires MayCommit(s, t)
    ensures Alone(run, t, s, WithEntry(s, t, false, false, Stamped(s.started + 1)).(lock := Some(t)))
  {
    run := LinkAlone(s, t);
    var more := StampAlone(s, t);
    run := Join(run, more, t, s, WithSlot(s, t), WithEntry(s, t, false, false, Stamped(s.started + 1)).(lock := Some(t)));
  }

  /** Appending and unlocking. */
  lemma AppendAlone(s: State, t: Tid) returns (run: seq<State>)
    requires MayCommit(s, t)
    ensures
      var k := s.started + 1;
      Alone(run, t, s, WithEntry(s, t, false, false, if k >= s.threads[t].snap + 2 then Entering(k) else Deciding(k)))
  {
    run := AppendLocked(s, t);
    var s4 := WithEntry(s, t, false, false, Stamped(s.started + 1)).(lock := Some(t));
    var last := OwnStepRun(s4, Unlock(t));
    run := Join(run, last, t, s, s4, Do(s4, Unlock(t)));
  }

  /** Entry `i` makes entry `k` abort. */
  ghost predicate Beats(log: seq<LogEntry>, k: Ts, i: Ts) {
    1 <= i < k <= |log| && !EntryAt(log, i).aborted && !Disjoint(EntryAt(log, k).ws, EntryAt(log, i).ws)
  }

  ghost function Decided(s: State, t: Tid, aborted: bool): State
    requires t in s.threads && !s.threads[t].pc.Idle? && 1 <= s.threads[t].pc.k <= |s.log|
  {
    var k := s.threads[t].pc.k;
    SetPc(s.(log := s.log[k - 1 := s.log[k - 1].(aborted := aborted)]), t, Deciding(k))
  }

  /** One entry of the walk. */
  lemma CheckOne(s: State, t: Tid) returns (run: seq<State>)
    requires Inv(s) && t in s.threads && s.threads[t].pc.Checking?
    ensures
      var pc := s.threads[t].pc;
      && 1 <= pc.j < pc.k <= |s.log|
      && Alone(run, t, s, if Beats(s.log, pc.k, pc.j) then Decided(s, t, true)
                          else if pc.j == pc.k - 1 then Decided(s, t, false)
                          else SetPc(s, t, Checking(pc.k, pc.j + 1)))
  {
    var pc := s.threads[t].pc;
    assert ThreadOk(s, t);
    assert EntryOk(s, pc.k);
    AfterCheckExact(s, pc.k, pc.j);
    assert s.log[pc.k - 1 := s.log[pc.k - 1].(aborted := false)] == s.log;
    run := OwnStepRun(s, ReadFlag(t));
    if !s.log[pc.j - 1].aborted {
      var s1 := Do(s, ReadFlag(t));
      var more := OwnStepRun(s1, Compare(t));
      run := Join(run, more, t, s, s1, Do(s1, Compare(t)));
    }
  }

  ghost predicate Beaten(log: seq<LogEntry>, k: Ts, j: Ts) {
    exists i :: j <= i < k && Beats(log, k, i)
  }

  lemma BeatenStep(log: seq<LogEntry>, k: Ts, j: Ts)
    ensures Beaten(log, k, j) <==> Beats(log, k, j) || Beaten(log, k, j + 1)
  {
  }

  /** The whole walk: it aborts exactly for an entry from `j` on that is not aborted and writes
      one of the words. */
  lemma {:induction false} CheckAlone(s: State, t: Tid) returns (run: seq<State>)
    requires Inv(s) && t in s.threads && s.threads[t].pc.Checking?
    ensures 1 <= s.threads[t].pc.j < s.threads[t].pc.k <= |s.log|
    ensures Alone(run, t, s, Decided(s, t, Beaten(s.log, s.threads[t].pc.k, s.threads[t].pc.j)))
    decreases |s.log| - s.threads[t].pc.j
  {
    run := CheckOne(s, t);
    var pc := s.threads[t].pc;
    BeatenStep(s.log, pc.k, pc.j);
    if !Beats(s.log, pc.k, pc.j) && pc.j < pc.k - 1 {
      var s1 := SetPc(s, t, Checking(pc.k, pc.j + 1));
      AloneInv(run, t, s, s1);
      var more := CheckAlone(s1, t);
      run := JoinDecided(run, more, t, s, s1, Beaten(s.log, pc.k, pc.j));
    }
  }

  lemma JoinDecided(r1: seq<State>, r2: seq<State>, t: Tid, s: State, s1: State, aborted: bool) returns (run: seq<State>)
    requires t in s.threads && s.threads[t].pc.Checking? && 1 <= s.threads[t].pc.k <= |s.log|
    requires s1 == SetPc(s, t, Checking(s.threads[t].pc.k, s.threads[t].pc.j + 1))
    requires Alone(r1, t, s, s1) && Alone(r2, t, s1, Decided(s1, t, aborted))
    ensures Alone(run, t, s, Decided(s, t, aborted))
  {
    assert Decided(s1, t, aborted) == Decided(s, t, aborted);
    run := Join(r1, r2, t, s, s1, Decided(s, t, aborted));
  }

  /** The first entry to validate against cannot be looked up, and the cut does not say so. */
  predicate Hidden(s: State, t: Tid)
    requires t in s.threads
  {
    s.started + 1 >= s.threads[t].snap + 2 && s.cut <= s.threads[t].snap + 1 < s.gone
  }

  /** Whether a commit made now is aborted, told on the log before it. */
  ghost predicate WillAbort(s: State, t: Tid)
    requires t in s.threads
  {
    var me := s.threads[t];
    && s.started + 1 >= me.snap + 2
    && (me.snap + 1 < s.cut
        || exists i :: me.snap < i <= |s.log| && !EntryAt(s.log, i).aborted && !Disjoint(me.ws, EntryAt(s.log, i).ws))
  }

  lemma BeatsBefore(s: State, t: Tid, pc: Pc, i: Ts)
    requires t in s.threads && |s.log| == s.started && 1 <= i <= |s.log|
    ensures Beats(WithEntry(s, t, false, false, pc).log, s.started + 1, i) <==>
      !EntryAt(s.log, i).aborted && !Disjoint(s.threads[t].ws, EntryAt(s.log, i).ws)
  {
  }

  lemma ValidateAlone(s: State, t: Tid, e: State) returns (run: seq<State>)
    requires MayCommit(s, t) && s.started + 1 >= s.threads[t].snap + 2 && !Hidden(s, t)
    requires e == WithEntry(s, t, false, false, Entering(s.started + 1)) && Inv(e)
    ensures Alone(run, t, e, WithEntry(s, t, WillAbort(s, t), false, Deciding(s.started + 1)))
  {
    var k, first := s.started + 1, s.threads[t].snap + 1;
    var done := WithEntry(s, t, WillAbort(s, t), false, Deciding(k));
    run := OwnStepRun(e, LookUp(t));
    var e1 := Do(e, LookUp(t));
    if first < s.cut {
      assert e1.log == done.log;
    } else {
      assert e1 == WithEntry(s, t, false, false, Checking(k, first));
      AloneInv(run, t, e, e1);
      var more := CheckAlone(e1, t);
      forall i | first <= i < k
        ensures Beats(e1.log, k, i) <==> !EntryAt(s.log, i).aborted && !Disjoint(s.threads[t].ws, EntryAt(s.log, i).ws)
      {
        BeatsBefore(s, t, Checking(k, first), i);
      }
      var verdict := Beaten(e1.log, k, first);
      assert verdict == WillAbort(s, t) by {
        if WillAbort(s, t) {
          var i :| first <= i <= |s.log| && !EntryAt(s.log, i).aborted && !Disjoint(s.threads[t].ws, EntryAt(s.log, i).ws);
          assert Beats(e1.log, k, i);
        }
      }
      assert Decided(e1, t, verdict).log == done.log;
      run := Join(run, more, t, e, e1, done);
    }
  }

  /** From any reachable state in which the lock is free, whatever else is going on, a committer
      gets as far as the sequence lock on its own. It has then appended exactly one entry, with
      its write set, aborted exactly if the lookup is refused or a concurrent entry that is not
      aborted writes one of its words; or it has run into a deleted entry, exactly if the first
      one it needs is gone without the cut saying so. */
  lemma CommitAlone(s: State, t: Tid) returns (run: seq<State>)
    requires MayCommit(s, t)
    ensures
      var k := s.started + 1;
      Alone(run, t, s, if Hidden(s, t) then WithEntry(s, t, false, false, Crashed(k))
                       else WithEntry(s, t, WillAbort(s, t), true, Filled(k)))
  {
    var k := s.started + 1;
    run := AppendAlone(s, t);
    var e := WithEntry(s, t, false, false, if k >= s.threads[t].snap + 2 then Entering(k) else Deciding(k));
    AloneInv(run, t, s, e);
    if Hidden(s, t) {
      var more := OwnStepRun(e, LookUp(t));
      run := Join(run, more, t, s, e, WithEntry(s, t, false, false, Crashed(k)));
    } else {
      var d := WithEntry(s, t, WillAbort(s, t), false, Deciding(k));
      if k >= s.threads[t].snap + 2 {
        var more := ValidateAlone(s, t, e);
        run := Join(run, more, t, s, e, d);
      }
      var last := OwnStepRun(d, Fill(t));
      assert Do(d, Fill(t)).log == WithEntry(s, t, WillAbort(s, t), true, Filled(k)).log;
      run := Join(run, last, t, s, d, WithEntry(s, t, WillAbort(s, t), true, Filled(k)));
    }
  }

  // ---------------------------------------------------------------- runs into deleted entries

  lemma Extend(run: seq<State>, step: Step) returns (more: seq<State>)
    requires Behavior(run) && Enabled(Last(run), step)
    ensures Behavior(more) && Last(more) == Do(Last(run), step)
  {
    more := run + [Do(Last(run), step)];
    assert Next(Last(run), Last(more));
    forall i: nat ensures StepAt(more, i) {
      assert StepAt(run, i);
    }
  }

  lemma {:induction false} Continue(run: seq<State>, own: seq<State>, t: Tid, s': State) returns (more: seq<State>)
    requires Behavior(run) && Alone(own, t, Last(run), s')
    ensures Behavior(more) && Last(more) == s'
    decreases |own|
  {
    more := run;
    if |own| > 1 {
      assert NextBy(own[0], own[0 + 1], t);
      var step :| Enabled(own[0], step) && own[1] == Do(own[0], step);
      more := Extend(run, step);
      var rest := own[1..];
      forall i | 0 <= i < |rest| - 1 ensures NextBy(rest[i], rest[i + 1], t) {
        assert NextBy(own[i + 1], own[i + 1 + 1], t);
      }
      more := Continue(more, rest, t, s');
    }
  }

  lemma LastInv(run: seq<State>)
    requires Behavior(run)
    ensures Inv(Last(run))
  {
    InvAlways(run, |run| - 1);
  }

  lemma GoFilled(run: seq<State>, t: Tid) returns (more: seq<State>)
    requires Behavior(run) && MayCommit(Last(run), t) && !Hidden(Last(run), t)
    ensures Behavior(more)
    ensures Last(more) == WithEntry(Last(run), t, WillAbort(Last(run), t), true, Filled(Last(run).started + 1))
  {
    var own := CommitAlone(Last(run), t);
    more := Continue(run, own, t, WithEntry(Last(run), t, WillAbort(Last(run), t), true, Filled(Last(run).started + 1)));
  }

  /** A commit without writes, from a state in which nothing is pending. */
  lemma GoCommit(run: seq<State>, t: Tid) returns (more: seq<State>)
    requires Behavior(run) && MayCommit(Last(run), t) && Last(run).master == Last(run).started
    ensures Behavior(more) && Inv(Last(more))
    ensures
      var s := Last(run);
      Last(more) == WithEntry(s.(threads := s.threads[t := Committer(s.master, [], Idle)]), t, false, true, Idle)
                      .(master := s.master + 1)
  {
    more := Extend(run, Begin(t, []));
    LastInv(more);
    more := GoFilled(more, t);
    more := Extend(more, Publish(t));
    LastInv(more);
  }

  /** Thread 0 stays on the empty snapshot while thread 1 commits twice, nobody writing a
      word, and entry 1 is deleted. */
  lemma GoLate() returns (run: seq<State>)
    ensures Behavior(run) && MayCommit(Last(run), 0)
    ensures
      var s := Last(run);
      && s.master == s.started == |s.log| == 2 && s.gone == 2 && s.cut == 0
      && (forall i :: 0 <= i < 2 ==> s.log[i].ws == []) && s.threads[0] == Committer(0, [], Idle)
  {
    run := [State([], 0, 0, 0, 0, None, map[0 := Committer(0, [], Idle), 1 := Committer(0, [], Idle)], [], [])];
    LastInv(run);
    run := GoCommit(run, 1);
    run := GoCommit(run, 1);
    run := Extend(run, Delete(2));
    LastInv(run);
  }

  /** With the cut written, thread 0's commit is aborted although nothing in the whole log
      writes any word: the second case of `AbortHasRival` occurs. */
  lemma AbortedAlone() returns (run: seq<State>)
    ensures Behavior(run)
    ensures
      var s := Last(run);
      && s.master == |s.log| == 3 && EntryAt(s.log, 3).aborted
      && forall k :: 1 <= k <= 3 ==> EntryAt(s.log, k).ws == []
  {
    run := GoLate();
    run := Extend(run, SetCut(2));
    LastInv(run);
    run := GoFilled(run, 0);
    run := Extend(run, Publish(0));
  }

  /** Before it is written, or once it has moved back, the commit runs into the missing entry,
      and the next commit can never be published (`CrashBlocksForever`). */
  lemma CrashedCommit() returns (run: seq<State>)
    ensures Behavior(run)
    ensures
      var s := Last(run);
      && 0 in s.threads && s.threads[0].pc == Crashed(3)
      && s.master == 2 && |s.owner| == 3 && s.owner[2] == 0
  {
    run := GoLate();
    var s := Last(run);
    var own := CommitAlone(s, 0);
    run := Continue(run, own, 0, WithEntry(s, 0, false, false, Crashed(3)));
  }
}
