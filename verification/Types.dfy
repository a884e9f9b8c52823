/** The vocabulary every component shares: timestamps, words, write sets and log
    entries, and the reference meaning of the store. Stored memory is a function from
    a word address to its value, and the snapshot at `t` is the fold of the
    non-aborted log entries `1..t` over all-zero memory. */
module Types {

  type Ts = nat
  type Tid = nat
  type Word = nat

  // Compares greater than every timestamp that is ever handed out.
  const INVALID_TS: Ts := 0xFFFF_FFFF_FFFF_FFFF

  const PAGE_SIZE: nat := 4096
  const WORD_SIZE: nat := 8
  const WORDS_PER_PAGE: nat := 512

  datatype Option<+T> = None | Some(value: T)

  // Kernel return codes.
  datatype Rc = Ok | EInval | ENoMem

  /** One word written by a transaction; `off` is a byte offset into file `ino`. */
  datatype WsEnt = WsEnt(ino: nat, off: nat, value: Word)

  datatype Addr = Addr(ino: nat, off: nat)

  /** Entry `k` of the log sits at index `k - 1`. */
  datatype LogEntry = LogEntry(ts: Ts, ws: seq<WsEnt>, aborted: bool, filled: bool)

  /** Lifetime of a checkpoint page or inode: part of the checkpoints in [start, obs). */
  datatype Life = Life(start: Ts, obs: Ts)

  predicate Contains(l: Life, v: Ts) {
    l.start <= v < l.obs
  }

  /** What the log collector has done so far: lookups below `tested` are refused, entries below
      `gone` are no longer there. The first may lag behind the second. */
  datatype Trim = Trim(tested: Ts, gone: Ts)

  /** What a walk starting at entry `k` gets that treats a missing entry as an error. */
  function EntryRc(trim: Trim, k: Ts): (rc: Rc)
    ensures rc == ENoMem <==> k < trim.tested
    ensures rc == EInval <==> trim.tested <= k < trim.gone
  {
    if k < trim.tested then ENoMem else if k < trim.gone then EInval else Ok
  }

  function EntryAt(log: seq<LogEntry>, k: Ts): LogEntry
    requires 1 <= k <= |log|
  {
    log[k - 1]
  }

  predicate Conflicts(a: WsEnt, b: WsEnt) {
    a.ino == b.ino && a.off == b.off
  }

  predicate Writes(ent: WsEnt, a: Addr) {
    ent.ino == a.ino && ent.off == a.off
  }

  ghost predicate Disjoint(a: seq<WsEnt>, b: seq<WsEnt>) {
    forall i, j :: 0 <= i < |a| && 0 <= j < |b| ==> !Conflicts(a[i], b[j])
  }

  /** The word at `a` after the writes of `ws` in order, starting from `base`. */
  function Overlay(ws: seq<WsEnt>, a: Addr, base: Word): Word {
    if ws == [] then base
    else if Writes(ws[|ws| - 1], a) then ws[|ws| - 1].value
    else Overlay(ws[..|ws| - 1], a, base)
  }

  /** The word at `a` in the snapshot at `t`. */
  function Snapshot(log: seq<LogEntry>, t: Ts, a: Addr): Word
    requires t <= |log|
  {
    if t == 0 then 0
    else if log[t - 1].aborted then Snapshot(log, t - 1, a)
    else Overlay(log[t - 1].ws, a, Snapshot(log, t - 1, a))
  }

  ghost predicate TouchesWord(ws: seq<WsEnt>, a: Addr) {
    exists i :: 0 <= i < |ws| && Writes(ws[i], a)
  }

  lemma {:induction false} OverlayUntouched(ws: seq<WsEnt>, a: Addr, base: Word)
    requires !TouchesWord(ws, a)
    ensures Overlay(ws, a, base) == base
  {
    if ws != [] {
      var n := |ws| - 1;
      assert !Writes(ws[n], a);
      forall i | 0 <= i < n ensures !Writes(ws[..n][i], a) {
        assert ws[..n][i] == ws[i];
      }
      OverlayUntouched(ws[..n], a, base);
    }
  }

  /** A snapshot depends on the log prefix below it and on nothing later. */
  lemma {:induction false} SnapshotPrefix(log1: seq<LogEntry>, log2: seq<LogEntry>, t: Ts, a: Addr)
    requires t <= |log1| && t <= |log2|
    requires forall i :: 0 <= i < t ==> log1[i] == log2[i]
    ensures Snapshot(log1, t, a) == Snapshot(log2, t, a)
  {
    if t != 0 {
      SnapshotPrefix(log1, log2, t - 1, a);
    }
  }

  /** What a walk over `next` pointers may rely on up to `stop`: every entry up to there
      is stamped, and the entry after it, built or half-built, compares later. */
  ghost predicate Walkable(log: seq<LogEntry>, stop: Ts) {
    && stop <= |log|
    && (forall k :: 1 <= k <= stop ==> EntryAt(log, k).ts == k)
    && (stop < |log| ==> EntryAt(log, stop + 1).ts > stop)
  }

  /** The kernel's radix trees are walked in key order, and see slots inserted on the way:
      the next occupied slot from `from` on. */
  method NextSlot<T>(tree: map<Ts, T>, from: nat) returns (k: Option<Ts>)
    ensures k.None? ==> forall j :: j in tree ==> j < from
    ensures k.Some? ==> k.value in tree && from <= k.value
                        && forall j :: j in tree && from <= j ==> k.value <= j
  {
    k := None;
    var rest := tree.Keys;
    while rest != {}
      invariant rest <= tree.Keys
      invariant k.None? ==> forall j :: j in tree && j !in rest ==> j < from
      invariant k.Some? ==> k.value in tree && from <= k.value
                            && forall j :: j in tree && j !in rest && from <= j ==> k.value <= j
      decreases rest
    {
      var j :| j in rest;
      rest := rest - {j};
      if from <= j && (k.None? || j < k.value) {
        k := Some(j);
      }
    }
  }
}
