/** Router workers running side by side: every worker goes through lock, load, merge and
    store, unlock and publish one step at a time, in any interleaving with the others and
    with the cache's own evictions, which take no lock (cmd/pw_router/worker.go:184-254). */
module LockedMerge {
  import opened Basics
  import opened PlaneMerge
  import opened Router

  type Update = PlaneLocation

  type Record = PlaneLocation

  /** How updates are folded into records and announced; the protocol is the same for all. */
  datatype Ops = Ops(
    key: Update -> string,
    name: Record -> string,
    insert: Update -> Record,
    merge: (Record, Update) -> Option<Record>,
    announce: Update -> seq<Publication>,
    report: (Record, Update) -> seq<Publication>)

  /** A record goes by the key of the update it began with. */
  ghost predicate LawfulOps(ops: Ops) {
    && (forall u :: ops.name(ops.insert(u)) == ops.key(u))
    && (forall r, u :: ops.merge(r, u).Some? ==> ops.name(ops.merge(r, u).value) == ops.name(r))
  }

  datatype Phase =
    | Idle
    | Locked(update: Update)
    | Loaded(update: Update, item: Option<Record>)
    | Written(update: Update, pending: seq<Publication>)
    | Publishing(pending: seq<Publication>)

  predicate InLock(p: Phase) {
    p.Locked? || p.Loaded? || p.Written?
  }

  /** What is shared about one key: the cached record, the worker that has the lock, and,
      for the record, every update in the order in which its worker took the lock, and
      where in that order the cached record began. */
  datatype KeyState = KeyState(entry: Option<Record>, owner: Option<nat>, history: seq<Update>, start: nat)

  const UNSEEN := KeyState(None, None, [], 0)

  datatype System = System(keys: map<string, KeyState>, phases: map<nat, Phase>, feed: seq<Publication>)

  datatype Action =
    | Lock(worker: nat, update: Update)
    | Load(worker: nat)
    | Write(worker: nat)
    | Unlock(worker: nat)
    | Publish(worker: nat)
    | Forget(key: string)

  function PhaseOf(s: System, w: nat): Phase {
    if w in s.phases then s.phases[w] else Idle
  }

  function KeyOf(s: System, k: string): KeyState {
    if k in s.keys then s.keys[k] else UNSEEN
  }

  predicate Enabled(ops: Ops, s: System, a: Action) {
    match a
    case Lock(w, u) => PhaseOf(s, w).Idle? && KeyOf(s, ops.key(u)).owner.None?
    case Load(w) => PhaseOf(s, w).Locked?
    case Write(w) => PhaseOf(s, w).Loaded?
    case Unlock(w) => PhaseOf(s, w).Written?
    case Publish(w) => PhaseOf(s, w).Publishing?
    case Forget(_) => true
  }

  function Move(s: System, w: nat, p: Phase): System {
    s.(phases := s.phases[w := p])
  }

  function SetKey(s: System, k: string, ks: KeyState): System {
    s.(keys := s.keys[k := ks])
  }

  function Last(h: seq<Update>): nat {
    if |h| > 0 then |h| - 1 else 0
  }

  /** Merge and store, inside the lock; a rejected update stores nothing. */
  function DoWrite(ops: Ops, s: System, w: nat, u: Update, item: Option<Record>): System {
    match item
    case None =>
      var ks := KeyOf(s, ops.key(u));
      Move(SetKey(s, ops.key(u), ks.(entry := Some(ops.insert(u)), start := Last(ks.history))),
           w, Written(u, ops.announce(u)))
    case Some(last) =>
      match ops.merge(last, u)
      case None => Move(s, w, Written(u, []))
      case Some(merged) =>
        Move(SetKey(s, ops.name(merged), KeyOf(s, ops.name(merged)).(entry := Some(merged))),
             w, Written(u, ops.report(last, u)))
  }

  function Next(ops: Ops, s: System, a: Action): System {
    if !Enabled(ops, s, a) then s
    else
      match a
      case Lock(w, u) =>
        var ks := KeyOf(s, ops.key(u));
        Move(SetKey(s, ops.key(u), ks.(owner := Some(w), history := ks.history + [u])), w, Locked(u))
      case Load(w) =>
        var u := PhaseOf(s, w).update;
        Move(s, w, Loaded(u, KeyOf(s, ops.key(u)).entry))
      case Write(w) => DoWrite(ops, s, w, PhaseOf(s, w).update, PhaseOf(s, w).item)
      case Unlock(w) =>
        var p := PhaseOf(s, w);
        Move(SetKey(s, ops.key(p.update), KeyOf(s, ops.key(p.update)).(owner := None)), w, Publishing(p.pending))
      case Publish(w) =>
        var pending := PhaseOf(s, w).pending;
        if |pending| == 0 then Move(s, w, Idle)
        else Move(s.(feed := s.feed + [pending[0]]), w, Publishing(pending[1..]))
      case Forget(k) => SetKey(s, k, KeyOf(s, k).(entry := None))
  }

  /** One worker takes the lock, loads, merges and stores, and nobody interferes. */
  function SoloWrite(ops: Ops, s: System, w: nat, u: Update): System {
    Next(ops, Next(ops, Next(ops, s, Lock(w, u)), Load(w)), Write(w))
  }

  lemma SoloWriteExact(ops: Ops, s: System, w: nat, u: Update)
    requires Enabled(ops, s, Lock(w, u))
    ensures var item, t := KeyOf(s, ops.key(u)).entry, SoloWrite(ops, s, w, u);
            match item
            case None => PhaseOf(t, w) == Written(u, ops.announce(u)) && KeyOf(t, ops.key(u)).entry == Some(ops.insert(u))
            case Some(last) =>
              match ops.merge(last, u)
              case None => PhaseOf(t, w) == Written(u, []) && KeyOf(t, ops.key(u)).entry == item
              case Some(merged) => PhaseOf(t, w) == Written(u, ops.report(last, u)) && KeyOf(t, ops.name(merged)).entry == Some(merged)
  {
    var s1 := Next(ops, s, Lock(w, u));
    var s2 := Next(ops, s1, Load(w));
    assert KeyOf(s2, ops.key(u)).entry == KeyOf(s, ops.key(u)).entry;
    assert PhaseOf(s2, w) == Loaded(u, KeyOf(s, ops.key(u)).entry);
  }

  /** Any sequence of attempted actions; those not enabled do nothing. */
  function RunAll(ops: Ops, acts: seq<Action>): System {
    if |acts| == 0 then System(map[], map[], [])
    else Next(ops, RunAll(ops, acts[..|acts| - 1]), acts[|acts| - 1])
  }

  // --- the sequential meaning ---------------------------------------------------------

  function MergeOne(ops: Ops, r: Record, u: Update): Record {
    match ops.merge(r, u) case None => r case Some(m) => m
  }

  /** The record one worker alone would have built from these updates. */
  function Replay(ops: Ops, us: seq<Update>): Record
    requires |us| > 0
  {
    if |us| == 1 then ops.insert(us[0]) else MergeOne(ops, Replay(ops, us[..|us| - 1]), us[|us| - 1])
  }

  lemma {:induction false} ReplayName(ops: Ops, us: seq<Update>)
    requires LawfulOps(ops) && |us| > 0
    ensures ops.name(Replay(ops, us)) == ops.key(us[0])
  {
    if |us| > 1 {
      ReplayName(ops, us[..|us| - 1]);
    }
  }

  predicate Reflects(ops: Ops, h: seq<Update>, i: nat, n: nat, r: Record) {
    i < n <= |h| && r == Replay(ops, h[i..n])
  }

  // --- the invariant ---------------------------------------------------------------------

  /** How much of its history a cached record reflects: the update of a worker that has
      the lock but has not written yet is still to come. */
  function Done(s: System, ks: KeyState): nat {
    if ks.owner.Some? && !PhaseOf(s, ks.owner.value).Written? then Last(ks.history) else |ks.history|
  }

  ghost predicate KeyInv(ops: Ops, s: System, k: string) {
    var ks := KeyOf(s, k);
    && (ks.owner.Some? ==> InLock(PhaseOf(s, ks.owner.value)) && ops.key(PhaseOf(s, ks.owner.value).update) == k)
    && (forall i :: 0 <= i < |ks.history| ==> ops.key(ks.history[i]) == k)
    && (ks.entry.Some? ==> Reflects(ops, ks.history, ks.start, Done(s, ks), ks.entry.value))
  }

  /** What a worker inside its lock knows. */
  ghost predicate WorkerInv(ops: Ops, s: System, w: nat) {
    var p := PhaseOf(s, w);
    InLock(p) ==>
      var ks := KeyOf(s, ops.key(p.update));
      && ks.owner == Some(w)
      && (!p.Written? ==> |ks.history| > 0 && ks.history[|ks.history| - 1] == p.update)
      && (p.Loaded? && p.item.Some? ==> Reflects(ops, ks.history, ks.start, |ks.history| - 1, p.item.value))
  }

  ghost predicate Inv(ops: Ops, s: System) {
    (forall k :: KeyInv(ops, s, k)) && (forall w :: WorkerInv(ops, s, w))
  }

  lemma KeyFrame(ops: Ops, s: System, t: System, k: string)
    requires KeyInv(ops, s, k) && KeyOf(t, k) == KeyOf(s, k)
    requires KeyOf(s, k).owner.Some? ==> PhaseOf(t, KeyOf(s, k).owner.value) == PhaseOf(s, KeyOf(s, k).owner.value)
    ensures KeyInv(ops, t, k)
  {
  }

  lemma WorkerFrame(ops: Ops, s: System, t: System, w: nat)
    requires WorkerInv(ops, s, w) && PhaseOf(t, w) == PhaseOf(s, w)
    requires InLock(PhaseOf(s, w)) ==> KeyOf(t, ops.key(PhaseOf(s, w).update)) == KeyOf(s, ops.key(PhaseOf(s, w).update))
    ensures WorkerInv(ops, t, w)
  {
  }

  /** A step that touches only worker w and the state of the one key k that w has or takes
      the lock of: all other keys and workers keep their part of the invariant. */
  lemma StepFrame(ops: Ops, s: System, t: System, w: nat, k: string)
    requires Inv(ops, s)
    requires forall x :: x != k ==> KeyOf(t, x) == KeyOf(s, x)
    requires forall v :: v != w ==> PhaseOf(t, v) == PhaseOf(s, v)
    requires KeyOf(s, k).owner.None? || KeyOf(s, k).owner == Some(w)
    requires InLock(PhaseOf(s, w)) ==> ops.key(PhaseOf(s, w).update) == k
    requires KeyInv(ops, t, k) && WorkerInv(ops, t, w)
    ensures Inv(ops, t)
  {
    forall x: string
      ensures KeyInv(ops, t, x)
    {
      if x != k {
        assert KeyInv(ops, s, x);
        assert KeyOf(s, x).owner != Some(w);
        KeyFrame(ops, s, t, x);
      }
    }
    forall v: nat
      ensures WorkerInv(ops, t, v)
    {
      if v != w {
        assert WorkerInv(ops, s, v);
        WorkerFrame(ops, s, t, v);
      }
    }
  }

  lemma SliceAppend<T>(h: seq<T>, u: T, i: nat)
    requires i <= |h|
    ensures (h + [u])[i..|h|] == h[i..|h|]
  {
  }

  lemma LockKeepsInv(ops: Ops, s: System, w: nat, u: Update)
    requires Inv(ops, s) && Enabled(ops, s, Lock(w, u))
    ensures Inv(ops, Next(ops, s, Lock(w, u)))
  {
    var t := Next(ops, s, Lock(w, u));
    var k := ops.key(u);
    assert KeyInv(ops, s, k);
    var ks := KeyOf(s, k);
    if ks.entry.Some? {
      SliceAppend(ks.history, u, ks.start);
    }
    StepFrame(ops, s, t, w, k);
  }

  lemma LoadKeepsInv(ops: Ops, s: System, w: nat)
    requires Inv(ops, s) && Enabled(ops, s, Load(w))
    ensures Inv(ops, Next(ops, s, Load(w)))
  {
    var k := ops.key(PhaseOf(s, w).update);
    assert WorkerInv(ops, s, w) && KeyInv(ops, s, k);
    StepFrame(ops, s, Next(ops, s, Load(w)), w, k);
  }

  lemma ReplayExtends(ops: Ops, h: seq<Update>, i: nat, r: Record)
    requires |h| > 0 && Reflects(ops, h, i, |h| - 1, r)
    ensures Reflects(ops, h, i, |h|, MergeOne(ops, r, h[|h| - 1]))
  {
    var us := h[i..|h|];
    assert us[..|us| - 1] == h[i..|h| - 1];
  }

  lemma WriteKeepsInv(ops: Ops, s: System, w: nat)
    requires LawfulOps(ops) && Inv(ops, s) && Enabled(ops, s, Write(w))
    ensures Inv(ops, Next(ops, s, Write(w)))
  {
    var t := Next(ops, s, Write(w));
    var p := PhaseOf(s, w);
    var k := ops.key(p.update);
    assert WorkerInv(ops, s, w) && KeyInv(ops, s, k);
    var ks := KeyOf(s, k);
    match p.item
    case None =>
      assert ks.history[|ks.history| - 1..|ks.history|] == [p.update];
      StepFrame(ops, s, t, w, k);
    case Some(last) =>
      ReplayExtends(ops, ks.history, ks.start, last);
      ReplayName(ops, ks.history[ks.start..|ks.history| - 1]);
      assert ops.name(last) == k;
      StepFrame(ops, s, t, w, k);
  }

  lemma UnlockKeepsInv(ops: Ops, s: System, w: nat)
    requires Inv(ops, s) && Enabled(ops, s, Unlock(w))
    ensures Inv(ops, Next(ops, s, Unlock(w)))
  {
    var k := ops.key(PhaseOf(s, w).update);
    assert WorkerInv(ops, s, w) && KeyInv(ops, s, k);
    StepFrame(ops, s, Next(ops, s, Unlock(w)), w, k);
  }

  lemma PublishKeepsInv(ops: Ops, s: System, w: nat)
    requires Inv(ops, s) && Enabled(ops, s, Publish(w))
    ensures Inv(ops, Next(ops, s, Publish(w)))
  {
    var t := Next(ops, s, Publish(w));
    forall x: string
      ensures KeyInv(ops, t, x)
    {
      assert KeyInv(ops, s, x);
      KeyFrame(ops, s, t, x);
    }
    forall v: nat
      ensures WorkerInv(ops, t, v)
    {
      assert WorkerInv(ops, s, v);
      if v != w {
        WorkerFrame(ops, s, t, v);
      }
    }
  }

  lemma ForgetKeepsInv(ops: Ops, s: System, k: string)
    requires Inv(ops, s)
    ensures Inv(ops, Next(ops, s, Forget(k)))
  {
    var t := Next(ops, s, Forget(k));
    forall x: string
      ensures KeyInv(ops, t, x)
    {
      assert KeyInv(ops, s, x);
      if x != k {
        KeyFrame(ops, s, t, x);
      }
    }
    forall v: nat
      ensures WorkerInv(ops, t, v)
    {
      assert WorkerInv(ops, s, v);
    }
  }

  lemma {:induction false} InvAlways(ops: Ops, acts: seq<Action>)
    requires LawfulOps(ops)
    ensures Inv(ops, RunAll(ops, acts))
  {
    if |acts| > 0 {
      InvAlways(ops, acts[..|acts| - 1]);
      var s, a := RunAll(ops, acts[..|acts| - 1]), acts[|acts| - 1];
      if Enabled(ops, s, a) {
        match a
        case Lock(w, u) => LockKeepsInv(ops, s, w, u);
        case Load(w) => LoadKeepsInv(ops, s, w);
        case Write(w) => WriteKeepsInv(ops, s, w);
        case Unlock(w) => UnlockKeepsInv(ops, s, w);
        case Publish(w) => PublishKeepsInv(ops, s, w);
        case Forget(k) => ForgetKeepsInv(ops, s, k);
      }
    }
  }

  // --- main results -------------------------------------------------------------------

  /** No two workers are ever between lock and unlock of the same key. */
  lemma MutualExclusion(ops: Ops, acts: seq<Action>, v: nat, w: nat)
    requires LawfulOps(ops)
    ensures var s := RunAll(ops, acts);
            InLock(PhaseOf(s, v)) && InLock(PhaseOf(s, w)) && ops.key(PhaseOf(s, v).update) == ops.key(PhaseOf(s, w).update)
            ==> v == w
  {
    InvAlways(ops, acts);
    assert WorkerInv(ops, RunAll(ops, acts), v) && WorkerInv(ops, RunAll(ops, acts), w);
  }

  /** In every interleaving, the entry of a key whose lock is free is the sequential fold,
      in lock order, of all updates since it was inserted as new. */
  lemma EntriesAreSequential(ops: Ops, acts: seq<Action>, key: string)
    requires LawfulOps(ops)
    ensures var ks := KeyOf(RunAll(ops, acts), key);
            ks.entry.Some? && ks.owner.None? ==>
              ks.start < |ks.history| && ks.entry.value == Replay(ops, ks.history[ks.start..])
  {
    InvAlways(ops, acts);
    assert KeyInv(ops, RunAll(ops, acts), key);
    var ks := KeyOf(RunAll(ops, acts), key);
    if ks.entry.Some? && ks.owner.None? {
      assert ks.history[ks.start..|ks.history|] == ks.history[ks.start..];
    }
  }
}
