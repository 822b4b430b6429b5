/** A run in which the low feed is left behind for good: publishing happens after unlocking, so
    a worker may publish an older record of an aircraft after a newer one. */
module RouterOvertaking {
  import opened Basics
  import opened PlaneMerge
  import opened Router
  import opened RouterFeeds
  import opened LockedMerge
  import opened RouterConcurrency

  lemma RunNext(ops: Ops, acts: seq<Action>, a: Action)
    ensures RunAll(ops, acts + [a]) == Next(ops, RunAll(ops, acts), a)
  {
    assert (acts + [a])[..|acts|] == acts;
  }

  lemma RunThree(ops: Ops, acts: seq<Action>, a: Action, b: Action, c: Action)
    ensures RunAll(ops, acts + [a, b, c]) == Next(ops, Next(ops, Next(ops, RunAll(ops, acts), a), b), c)
  {
    RunNext(ops, acts, a);
    RunNext(ops, acts + [a], b);
    RunNext(ops, acts + [a] + [b], c);
    assert acts + [a, b, c] == acts + [a] + [b] + [c];
  }

  // --- one worker's turn, from lock to unlock ------------------------------------------------

  function Turn(w: nat, u: Update): seq<Action> {
    [Lock(w, u), Load(w), Write(w), Unlock(w)]
  }

  function AfterTurn(ops: Ops, s: System, w: nat, u: Update): System {
    Next(ops, SoloWrite(ops, s, w, u), Unlock(w))
  }

  lemma RunTurn(ops: Ops, acts: seq<Action>, w: nat, u: Update)
    ensures RunAll(ops, acts + Turn(w, u)) == AfterTurn(ops, RunAll(ops, acts), w, u)
  {
    RunThree(ops, acts, Lock(w, u), Load(w), Write(w));
    RunNext(ops, acts + [Lock(w, u), Load(w), Write(w)], Unlock(w));
    assert acts + Turn(w, u) == acts + [Lock(w, u), Load(w), Write(w)] + [Unlock(w)];
  }

  lemma TurnElsewhere(ops: Ops, s: System, w: nat, u: Update, v: nat)
    requires v != w
    ensures PhaseOf(AfterTurn(ops, s, w, u), v) == PhaseOf(s, v) && AfterTurn(ops, s, w, u).feed == s.feed
  {
    var s1 := Next(ops, s, Lock(w, u));
    var s2 := Next(ops, s1, Load(w));
    var s3 := Next(ops, s2, Write(w));
    assert PhaseOf(s1, v) == PhaseOf(s, v) && s1.feed == s.feed;
    assert PhaseOf(s2, v) == PhaseOf(s, v) && s2.feed == s.feed;
    assert PhaseOf(s3, v) == PhaseOf(s, v) && s3.feed == s.feed;
  }

  /** The first update of an aircraft, or one that is merged: what is left to publish. */
  lemma TurnExact(ops: Ops, s: System, w: nat, u: Update, entry: Record, pending: seq<Publication>)
    requires PhaseOf(s, w).Idle? && KeyOf(s, ops.key(u)).owner.None?
    requires match KeyOf(s, ops.key(u)).entry
             case None => entry == ops.insert(u) && pending == ops.announce(u)
             case Some(last) => ops.merge(last, u) == Some(entry) && ops.name(entry) == ops.key(u) && pending == ops.report(last, u)
    ensures var t := AfterTurn(ops, s, w, u);
            && PhaseOf(t, w) == Publishing(pending)
            && KeyOf(t, ops.key(u)).entry == Some(entry) && KeyOf(t, ops.key(u)).owner.None?
  {
    SoloWriteExact(ops, s, w, u);
  }

  // --- and its two messages --------------------------------------------------------------------

  function Announcing(w: nat): seq<Action> {
    [Publish(w), Publish(w), Publish(w)]
  }

  function AfterAnnouncing(ops: Ops, s: System, w: nat): System {
    Next(ops, Next(ops, Next(ops, s, Publish(w)), Publish(w)), Publish(w))
  }

  lemma RunAnnouncing(ops: Ops, acts: seq<Action>, w: nat)
    ensures RunAll(ops, acts + Announcing(w)) == AfterAnnouncing(ops, RunAll(ops, acts), w)
  {
    RunThree(ops, acts, Publish(w), Publish(w), Publish(w));
  }

  lemma AnnouncingExact(ops: Ops, s: System, w: nat, p: Publication, q: Publication)
    requires PhaseOf(s, w) == Publishing([p, q])
    ensures var t := AfterAnnouncing(ops, s, w);
            && t.feed == s.feed + [p, q] && t.keys == s.keys && PhaseOf(t, w).Idle?
            && forall v: nat :: v != w ==> PhaseOf(t, v) == PhaseOf(s, v)
  {
    var s1 := Next(ops, s, Publish(w));
    assert PhaseOf(s1, w) == Publishing([q]) && s1.feed == s.feed + [p];
    var s2 := Next(ops, s1, Publish(w));
    assert PhaseOf(s2, w) == Publishing([]) && s2.feed == s.feed + [p] + [q];
  }

  // --- the run ---------------------------------------------------------------------------------

  function OvertakingRun(u0: Update, u1: Update): seq<Action> {
    Turn(0, u0) + Turn(1, u1) + Announcing(1) + Announcing(0)
  }

  /** Two workers, one after the other, have written and unlocked. */
  lemma TwoTurns(ops: Ops, s: System, u0: Update, u1: Update, m: Record, ps0: seq<Publication>, ps1: seq<Publication>)
    requires s == RunAll(ops, []) && ops.key(u0) == ops.key(u1) == ops.name(m) && ops.merge(ops.insert(u0), u1) == Some(m)
    requires ops.announce(u0) == ps0 && ops.report(ops.insert(u0), u1) == ps1
    ensures var t := AfterTurn(ops, AfterTurn(ops, s, 0, u0), 1, u1);
            && PhaseOf(t, 0) == Publishing(ps0) && PhaseOf(t, 1) == Publishing(ps1) && t.feed == []
            && KeyOf(t, ops.key(u0)).entry == Some(m) && KeyOf(t, ops.key(u0)).owner.None?
            && forall w: nat :: w > 1 ==> PhaseOf(t, w).Idle?
  {
    var s1 := AfterTurn(ops, s, 0, u0);
    TurnExact(ops, s, 0, u0, ops.insert(u0), ps0);
    TurnElsewhere(ops, s, 0, u0, 1);
    TurnExact(ops, s1, 1, u1, m, ps1);
    TurnElsewhere(ops, s1, 1, u1, 0);
    forall w: nat | w > 1
      ensures PhaseOf(AfterTurn(ops, s1, 1, u1), w).Idle?
    {
      TurnElsewhere(ops, s, 0, u0, w);
      TurnElsewhere(ops, s1, 1, u1, w);
    }
  }

  /** The second one publishes first. */
  lemma Overtaking(ops: Ops, u0: Update, u1: Update, m: Record, p0: Publication, q0: Publication, p1: Publication, q1: Publication)
    requires ops.key(u0) == ops.key(u1) == ops.name(m) && ops.merge(ops.insert(u0), u1) == Some(m)
    requires ops.announce(u0) == [p0, q0] && ops.report(ops.insert(u0), u1) == [p1, q1]
    ensures var s := RunAll(ops, OvertakingRun(u0, u1));
            && s.feed == [p1, q1, p0, q0]
            && KeyOf(s, ops.key(u0)).entry == Some(m) && KeyOf(s, ops.key(u0)).owner.None?
            && forall w: nat :: PhaseOf(s, w).Idle?
  {
    var s := AfterTurn(ops, AfterTurn(ops, RunAll(ops, []), 0, u0), 1, u1);
    TwoTurns(ops, RunAll(ops, []), u0, u1, m, [p0, q0], [p1, q1]);
    RunsThrough(ops, u0, u1);
    BothAnnounce(ops, s, p0, q0, p1, q1);
  }

  lemma BothAnnounce(ops: Ops, s: System, p0: Publication, q0: Publication, p1: Publication, q1: Publication)
    requires PhaseOf(s, 0) == Publishing([p0, q0]) && PhaseOf(s, 1) == Publishing([p1, q1]) && s.feed == []
    requires forall w: nat :: w > 1 ==> PhaseOf(s, w).Idle?
    ensures var t := AfterAnnouncing(ops, AfterAnnouncing(ops, s, 1), 0);
            t.feed == [p1, q1, p0, q0] && t.keys == s.keys && forall w: nat :: PhaseOf(t, w).Idle?
  {
    AnnouncingExact(ops, s, 1, p1, q1);
    AnnouncingExact(ops, AfterAnnouncing(ops, s, 1), 0, p0, q0);
  }

  lemma RunsThrough(ops: Ops, u0: Update, u1: Update)
    ensures RunAll(ops, OvertakingRun(u0, u1)) ==
            AfterAnnouncing(ops, AfterAnnouncing(ops, AfterTurn(ops, AfterTurn(ops, RunAll(ops, []), 0, u0), 1, u1), 1), 0)
  {
    RunTurn(ops, [], 0, u0);
    assert [] + Turn(0, u0) == Turn(0, u0);
    RunTurn(ops, Turn(0, u0), 1, u1);
    RunAnnouncing(ops, Turn(0, u0) + Turn(1, u1), 1);
    RunAnnouncing(ops, Turn(0, u0) + Turn(1, u1) + Announcing(1), 0);
  }

  /** Any two updates of an aircraft of which the second is significant: with both workers idle
      again, the last low message is the first update, and the cache holds their merge. */
  lemma LowFeedOvertaken(bearing: Bearing, u0: PlaneLocation, u1: PlaneLocation)
    requires u0.icao == u1.icao && IsLocationPossible(Tagged(u0), u1, bearing) && IsSignificant(Tagged(u0), u1)
    ensures var s := RunAll(RouterOps(Config(false, bearing)), OvertakingRun(u0, u1));
            && (forall w: nat :: PhaseOf(s, w).Idle?)
            && KeyOf(s, u0.icao).entry == Some(MergeFields(Tagged(u0), u1))
            && LastOn(s.feed, Low, u0.icao) == Some(u0)
  {
    var cfg := Config(false, bearing);
    var m := MergeFields(Tagged(u0), u1);
    MergeKeepsIcao(Tagged(u0), u1, bearing);
    var a, b, c, d := Publication(Low, u0), Publication(High, u0), Publication(Low, m), Publication(High, m);
    assert OnBothFeeds(cfg, u0) == [a, b] && OnBothFeeds(cfg, m) == [c, d];
    Overtaking(RouterOps(cfg), u0, u1, m, a, b, c, d);
    LastOfFour(c, d, a, b, u0.icao);
  }

  lemma LastOfFour(c: Publication, d: Publication, a: Publication, b: Publication, icao: string)
    requires a.topic.Low? && a.record.icao == icao && b.topic.High?
    ensures LastOn([c, d, a, b], Low, icao) == Some(a.record)
  {
    LastOnSkips([c, d, a], b, icao);
    LastOnSkips([c, d], a, icao);
    assert [c, d, a] + [b] == [c, d, a, b] && [c, d] + [a] == [c, d, a];
  }

  /** So the low feed is not a bounded view: after such a run with a changed flight status,
      whatever the aircraft, its last low message is not within any number of updates. */
  lemma LowFeedUnbounded(bearing: Bearing, u0: PlaneLocation, status: string, k: nat)
    requires status != u0.flightStatus.value
    ensures var u1 := u0.(flightStatus := Reading(true, status, u0.flightStatus.at + 1));
            var s := RunAll(RouterOps(Config(false, bearing)), OvertakingRun(u0, u1));
            && (forall w: nat :: PhaseOf(s, w).Idle?)
            && KeyOf(s, u0.icao).entry.Some? && LastOn(s.feed, Low, u0.icao).Some?
            && !Stale(LastOn(s.feed, Low, u0.icao).value, KeyOf(s, u0.icao).entry.value, k)
  {
    var u1 := u0.(flightStatus := Reading(true, status, u0.flightStatus.at + 1));
    assert IsLocationPossible(Tagged(u0), u1, bearing);
    LowFeedOvertaken(bearing, u0, u1);
    assert MergeFields(Tagged(u0), u1).flightStatus.value == status;
  }
}
