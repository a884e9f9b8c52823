/** Runs of the commit protocol beside runs of the checkpoint protocol. What deletes log
    entries in the first is the log collector of the second, and a committer's snapshot is
    the timestamp its thread holds there. */
module Protocols {
  import opened Types
  import Commits = CommitProtocol
  import Checkpoints = CheckpointProtocol

  /** The two states are of one moment: the same entries are gone, and every committer is in a
      transaction at its snapshot. */
  ghost predicate SameMoment(s: Commits.State, c: Checkpoints.State) {
    && s.gone == c.deleted
    && forall t :: t in s.threads && !s.threads[t].pc.Idle? ==> CommitsFrom(s.threads[t], c, t)
  }

  ghost predicate CommitsFrom(me: Commits.Committer, c: Checkpoints.State, t: Tid) {
    t in c.threads && c.threads[t].ts == me.snap && !c.threads[t].pc.Pausing?
  }

  /** `run[i]` is of the same moment as `beside[at[i]]`. */
  ghost predicate Beside(run: seq<Commits.State>, beside: seq<Checkpoints.State>, at: seq<nat>) {
    && Commits.Behavior(run) && Checkpoints.Behavior(beside) && |at| == |run|
    && forall i :: 0 <= i < |run| ==> at[i] < |beside| && SameMoment(run[i], beside[at[i]])
  }

  /** The thread reads latest_checkpoint.ts in the middle of a publication, before `m`. */
  ghost predicate MisfiredBefore(beside: seq<Checkpoints.State>, m: nat, t: Tid)
    requires m <= |beside|
  {
    exists i :: 0 <= i < m && Checkpoints.ShortcutMisfires(beside[i], t)
  }

  /** If the first entry a committer has to look up is gone, its thread has misfired. */
  lemma GoneNeedsMisfire(run: seq<Commits.State>, beside: seq<Checkpoints.State>, at: seq<nat>, n: nat, t: Tid)
    requires Beside(run, beside, at) && n < |run| && Commits.Pending(run[n], t)
    requires run[n].threads[t].snap + 1 < run[n].gone
    ensures MisfiredBefore(beside, at[n], t)
  {
    Commits.InvAlways(run, n);
    assert Commits.ThreadOk(run[n], t);
    assert SameMoment(run[n], beside[at[n]]);
    if !MisfiredBefore(beside, at[n], t) {
      Checkpoints.NoMisfireNoRefusal(beside, at[n], t);
    }
  }

  /** A published abort without a live rival is a consequence of a misfire of its own thread. */
  lemma AbortAloneMisfired(run: seq<Commits.State>, beside: seq<Checkpoints.State>, at: seq<nat>, n: nat, k: Ts)
      returns (m: nat)
    requires Beside(run, beside, at) && n < |run| && 1 <= k <= run[n].master
    ensures k <= |run[n].log|
    ensures EntryAt(run[n].log, k).aborted && !Commits.LiveRival(run, n, k) ==>
      m < n && Commits.RefusedBy(run[m], run[m + 1], k) && MisfiredBefore(beside, at[m], run[m].owner[k - 1])
  {
    Commits.AbortHasRival(run, n, k);
    m := 0;
    if EntryAt(run[n].log, k).aborted && !Commits.LiveRival(run, n, k) {
      m :| m < n && Commits.RefusedBy(run[m], run[m + 1], k);
      Commits.InvAlways(run, m);
      GoneNeedsMisfire(run, beside, at, m, run[m].owner[k - 1]);
    }
  }

  lemma CrashStep(s: Commits.State, s': Commits.State, t: Tid)
    requires Commits.Next(s, s') && t in s'.threads && s'.threads[t].pc.Crashed?
    ensures t in s.threads
    ensures s.threads[t].pc.Crashed? || (s.threads[t].pc.Entering? && s.threads[t].snap + 1 < s.gone)
  {
    var step :| Commits.Enabled(s, step) && s' == Commits.Do(s, step);
    Commits.OnlyLookUpCrashes(s, step, t);
  }

  lemma {:induction false} CrashNeedsMisfire(run: seq<Commits.State>, beside: seq<Checkpoints.State>, at: seq<nat>,
                                             n: nat, t: Tid) returns (m: nat)
    requires Beside(run, beside, at) && n < |run| && t in run[n].threads && run[n].threads[t].pc.Crashed?
    ensures m < n && MisfiredBefore(beside, at[m], t)
    decreases n
  {
    if n > 0 {
      assert Commits.StepAt(run, n - 1);
      CrashStep(run[n - 1], run[n - 1 + 1], t);
      if run[n - 1].threads[t].pc.Crashed? {
        m := CrashNeedsMisfire(run, beside, at, n - 1, t);
      } else {
        GoneNeedsMisfire(run, beside, at, n - 1, t);
        m := n - 1;
      }
    }
  }

  /** So while no thread misfires the sequence lock is live: the owner of entry
      master_ts + 1, whoever it is, publishes by its own steps. */
  lemma LiveWithoutMisfires(run: seq<Commits.State>, beside: seq<Checkpoints.State>, at: seq<nat>, n: nat)
      returns (t: Tid, more: seq<Commits.State>)
    requires Beside(run, beside, at) && n < |run| && run[n].master < |run[n].log|
    requires forall i, u :: 0 <= i < |beside| ==> !Checkpoints.ShortcutMisfires(beside[i], u)
    ensures |more| > 0 && more[0] == run[n] && more[|more| - 1].master == run[n].master + 1
    ensures forall i :: 0 <= i < |more| - 1 ==> Commits.NextBy(more[i], more[i + 1], t)
  {
    t, more := Commits.SequenceLockIsLive(run, n);
    if Commits.Doomed(run[n], t) {
      if run[n].threads[t].pc.Crashed? {
        var m := CrashNeedsMisfire(run, beside, at, n, t);
      } else {
        GoneNeedsMisfire(run, beside, at, n, t);
      }
    }
  }
}
