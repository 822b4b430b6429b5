/** What a reader of the feeds may rely on when several workers publish side by side: the low
    feed as a view of the cache in the order of the writes, and in the order of the feed. */
module RouterInterleavings {
  import opened Basics
  import opened PlaneMerge
  import opened Router
  import opened RouterFeeds
  import opened LockedMerge
  import opened RouterConcurrency
  import opened PublishOrder

  // --- the writes ---------------------------------------------------------------------------

  function LowOf(ps: seq<Publication>, icao: string): Option<PlaneLocation> {
    LastOn(ps, Low, icao)
  }

  /** The last write with a low message about an aircraft. */
  function LastLow(writes: seq<seq<Publication>>, icao: string): (t: Option<nat>)
    ensures t.Some? ==> t.value < |writes| && LowOf(writes[t.value], icao).Some?
    ensures t.Some? ==> forall u :: t.value < u < |writes| ==> LowOf(writes[u], icao).None?
    ensures t.None? ==> forall u :: 0 <= u < |writes| ==> LowOf(writes[u], icao).None?
  {
    if |writes| == 0 then None
    else if LowOf(writes[|writes| - 1], icao).Some? then Some(|writes| - 1)
    else LastLow(writes[..|writes| - 1], icao)
  }

  predicate About(ps: seq<Publication>, icao: string) {
    |ps| > 0 && ps[0].record.icao == icao
  }

  /** How many writes since then were too insignificant for the low feed. */
  function Behind(writes: seq<seq<Publication>>, icao: string): nat {
    if |writes| == 0 then 0
    else
      var last := writes[|writes| - 1];
      if LowOf(last, icao).Some? then 0
      else Behind(writes[..|writes| - 1], icao) + if About(last, icao) then 1 else 0
  }

  /** r is a bounded number of skipped updates away from the last low record written. */
  ghost predicate ViewOk(writes: seq<seq<Publication>>, icao: string, r: PlaneLocation) {
    && r.icao == icao
    && LastLow(writes, icao).Some?
    && Stale(LowOf(writes[LastLow(writes, icao).value], icao).value, r, Behind(writes, icao))
  }

  lemma WriteElsewhere(writes: seq<seq<Publication>>, ps: seq<Publication>, icao: string, r: PlaneLocation)
    requires ViewOk(writes, icao, r) && LowOf(ps, icao).None? && !About(ps, icao)
    ensures ViewOk(writes + [ps], icao, r)
  {
    assert (writes + [ps])[..|writes|] == writes;
  }

  lemma WriteLow(writes: seq<seq<Publication>>, ps: seq<Publication>, icao: string, l: PlaneLocation, r: PlaneLocation)
    requires LowOf(ps, icao) == Some(l) && r.icao == icao && Stale(l, r, 0)
    ensures ViewOk(writes + [ps], icao, r)
  {
    assert (writes + [ps])[..|writes|] == writes;
  }

  lemma WriteHigh(writes: seq<seq<Publication>>, ps: seq<Publication>, icao: string, last: PlaneLocation, r: PlaneLocation)
    requires ViewOk(writes, icao, last) && LowOf(ps, icao).None? && About(ps, icao) && r.icao == icao && Stale(last, r, 1)
    ensures ViewOk(writes + [ps], icao, r)
  {
    assert (writes + [ps])[..|writes|] == writes;
    StaleAdd(LowOf(writes[LastLow(writes, icao).value], icao).value, last, r, Behind(writes, icao));
  }

  lemma OnFeeds(cfg: Config, r: PlaneLocation, icao: string)
    ensures LowOf(OnBothFeeds(cfg, r), icao) == (if r.icao == icao then Some(r) else None)
    ensures LowOf(OnHighFeed(cfg, r), icao) == None
    ensures About(OnBothFeeds(cfg, r), icao) == About(OnHighFeed(cfg, r), icao) == (r.icao == icao)
  {
    LastOnBoth([], cfg, r, icao);
    LastOnHigh([], cfg, r, icao);
    assert [] + OnBothFeeds(cfg, r) == OnBothFeeds(cfg, r) && [] + OnHighFeed(cfg, r) == OnHighFeed(cfg, r);
  }

  /** What a write has to publish, whatever the worker loaded. */
  function WrittenBy(cfg: Config, u: PlaneLocation, item: Option<PlaneLocation>): seq<Publication> {
    match item
    case None => OnBothFeeds(cfg, u)
    case Some(last) =>
      if !IsLocationPossible(last, u, cfg.bearing) then []
      else if IsSignificant(last, u) then OnBothFeeds(cfg, MergeFields(last, u))
      else OnHighFeed(cfg, MergeFields(last, u))
  }

  /** And what it leaves in the cache. */
  function EntryAfter(cfg: Config, u: PlaneLocation, item: Option<PlaneLocation>, entry: Option<PlaneLocation>): Option<PlaneLocation> {
    match item
    case None => Some(Tagged(u))
    case Some(last) => if IsLocationPossible(last, u, cfg.bearing) then Some(MergeFields(last, u)) else entry
  }

  lemma OwnView(cfg: Config, writes: seq<seq<Publication>>, u: PlaneLocation, item: Option<PlaneLocation>, entry: Option<PlaneLocation>)
    requires item.Some? ==> ViewOk(writes, u.icao, item.value)
    requires entry.Some? ==> ViewOk(writes, u.icao, entry.value)
    ensures var after := EntryAfter(cfg, u, item, entry);
            after.Some? ==> ViewOk(writes + [WrittenBy(cfg, u, item)], u.icao, after.value)
  {
    match item
    case None =>
      OnFeeds(cfg, u, u.icao);
      StaleRefl(u);
      WriteLow(writes, OnBothFeeds(cfg, u), u.icao, u, Tagged(u));
    case Some(last) =>
      if !IsLocationPossible(last, u, cfg.bearing) {
        if entry.Some? {
          WriteElsewhere(writes, [], u.icao, entry.value);
        }
      } else {
        MergedView(cfg, writes, u, last);
      }
  }

  lemma MergedView(cfg: Config, writes: seq<seq<Publication>>, u: PlaneLocation, last: PlaneLocation)
    requires ViewOk(writes, u.icao, last) && IsLocationPossible(last, u, cfg.bearing)
    ensures ViewOk(writes + [WrittenBy(cfg, u, Some(last))], u.icao, MergeFields(last, u))
  {
    var merged := MergeFields(last, u);
    OnFeeds(cfg, merged, u.icao);
    if IsSignificant(last, u) {
      StaleRefl(merged);
      WriteLow(writes, OnBothFeeds(cfg, merged), u.icao, merged, merged);
    } else {
      InsignificantStep(last, u);
      WriteHigh(writes, OnHighFeed(cfg, merged), u.icao, last, merged);
    }
  }

  lemma OtherView(cfg: Config, writes: seq<seq<Publication>>, u: PlaneLocation, item: Option<PlaneLocation>, icao: string, r: PlaneLocation)
    requires icao != u.icao && (item.Some? ==> item.value.icao == u.icao) && ViewOk(writes, icao, r)
    ensures ViewOk(writes + [WrittenBy(cfg, u, item)], icao, r)
  {
    match item
    case None =>
      OnFeeds(cfg, u, icao);
      WriteElsewhere(writes, WrittenBy(cfg, u, item), icao, r);
    case Some(last) =>
      OnFeeds(cfg, MergeFields(last, u), icao);
      WriteElsewhere(writes, WrittenBy(cfg, u, item), icao, r);
  }

  // --- the invariant --------------------------------------------------------------------------

  ghost predicate EntryView(s: System, tr: Trace, icao: string) {
    KeyOf(s, icao).entry.Some? ==> ViewOk(tr.writes, icao, KeyOf(s, icao).entry.value)
  }

  /** What a worker loaded is still as good a view when it merges into it. */
  ghost predicate LoadedView(s: System, tr: Trace, w: nat) {
    var p := PhaseOf(s, w);
    p.Loaded? && p.item.Some? ==> ViewOk(tr.writes, p.update.icao, p.item.value)
  }

  ghost predicate Views(s: System, tr: Trace) {
    (forall icao :: EntryView(s, tr, icao)) && (forall w: nat :: LoadedView(s, tr, w))
  }

  lemma StepKeepsViews(cfg: Config, s: System, a: Action, tr: Trace)
    requires Views(s, tr) && Inv(RouterOps(cfg), s)
    ensures Views(Next(RouterOps(cfg), s, a), TraceStep(RouterOps(cfg), s, a, tr))
  {
    var ops := RouterOps(cfg);
    if Enabled(ops, s, a) {
      if a.Write? {
        WriteKeepsViews(cfg, s, a.worker, tr);
      } else {
        var t, tr' := Next(ops, s, a), TraceStep(ops, s, a, tr);
        forall icao
          ensures EntryView(t, tr', icao)
        {
          assert EntryView(s, tr, icao);
        }
        forall w: nat
          ensures LoadedView(t, tr', w)
        {
          assert LoadedView(s, tr, w);
          if a.Load? && a.worker == w {
            assert EntryView(s, tr, PhaseOf(s, w).update.icao);
          }
        }
      }
    }
  }

  lemma WriteKeepsViews(cfg: Config, s: System, w: nat, tr: Trace)
    requires Views(s, tr) && Inv(RouterOps(cfg), s) && PhaseOf(s, w).Loaded?
    ensures Views(Next(RouterOps(cfg), s, Write(w)), TraceStep(RouterOps(cfg), s, Write(w), tr))
  {
    var ops := RouterOps(cfg);
    var t, tr' := Next(ops, s, Write(w)), TraceStep(ops, s, Write(w), tr);
    var u, item := PhaseOf(s, w).update, PhaseOf(s, w).item;
    assert LoadedView(s, tr, w);
    WriteExact(cfg, s, w);
    assert tr'.writes == tr.writes + [WrittenBy(cfg, u, item)];
    forall icao
      ensures EntryView(t, tr', icao)
    {
      assert EntryView(s, tr, icao);
      if icao == u.icao {
        OwnView(cfg, tr.writes, u, item, KeyOf(s, icao).entry);
      } else if KeyOf(s, icao).entry.Some? {
        OtherView(cfg, tr.writes, u, item, icao, KeyOf(s, icao).entry.value);
      }
    }
    forall v: nat
      ensures LoadedView(t, tr', v)
    {
      assert LoadedView(s, tr, v);
      if v != w && PhaseOf(s, v).Loaded? && PhaseOf(s, v).item.Some? {
        LockedApart(ops, s, v, w);
        OtherView(cfg, tr.writes, u, item, PhaseOf(s, v).update.icao, PhaseOf(s, v).item.value);
      }
    }
  }

  lemma LockedApart(ops: Ops, s: System, v: nat, w: nat)
    requires Inv(ops, s) && v != w && InLock(PhaseOf(s, v)) && InLock(PhaseOf(s, w))
    ensures ops.key(PhaseOf(s, v).update) != ops.key(PhaseOf(s, w).update)
  {
    assert WorkerInv(ops, s, v) && WorkerInv(ops, s, w);
  }

  /** One write of the protocol, in the router's terms. */
  lemma WriteExact(cfg: Config, s: System, w: nat)
    requires PhaseOf(s, w).Loaded?
    requires PhaseOf(s, w).item.Some? ==> PhaseOf(s, w).item.value.icao == PhaseOf(s, w).update.icao
    ensures var ops := RouterOps(cfg);
            var t := Next(ops, s, Write(w));
            var u, item := PhaseOf(s, w).update, PhaseOf(s, w).item;
            && PhaseOf(t, w) == Written(u, WrittenBy(cfg, u, item))
            && (forall v: nat :: v != w ==> PhaseOf(t, v) == PhaseOf(s, v))
            && (forall icao :: icao != u.icao ==> KeyOf(t, icao) == KeyOf(s, icao))
            && KeyOf(t, u.icao).entry == EntryAfter(cfg, u, item, KeyOf(s, u.icao).entry)
  {
    var u, item := PhaseOf(s, w).update, PhaseOf(s, w).item;
    if item.Some? {
      MergeKeepsIcao(item.value, u, cfg.bearing);
    }
  }

  lemma {:induction false} ViewsAlways(cfg: Config, acts: seq<Action>)
    ensures Views(RunAll(RouterOps(cfg), acts), TraceOf(RouterOps(cfg), acts))
  {
    if |acts| > 0 {
      var before := acts[..|acts| - 1];
      ViewsAlways(cfg, before);
      RouterOpsLawful(cfg);
      InvAlways(RouterOps(cfg), before);
      StepKeepsViews(cfg, RunAll(RouterOps(cfg), before), acts[|acts| - 1], TraceOf(RouterOps(cfg), before));
    }
  }

  /** In every interleaving and at every moment, the last low record in the order of the writes
      is a view of the cached record that is stale by the writes skipped since, no more. */
  lemma CacheFollowsLowWrites(cfg: Config, acts: seq<Action>, icao: string)
    ensures var s, tr := RunAll(RouterOps(cfg), acts), TraceOf(RouterOps(cfg), acts);
            KeyOf(s, icao).entry.Some? ==>
              && KeyOf(s, icao).entry.value.icao == icao
              && LastLow(tr.writes, icao).Some?
              && Stale(LowOf(tr.writes[LastLow(tr.writes, icao).value], icao).value, KeyOf(s, icao).entry.value,
                       Behind(tr.writes, icao))
  {
    ViewsAlways(cfg, acts);
    assert EntryView(RunAll(RouterOps(cfg), acts), TraceOf(RouterOps(cfg), acts), icao);
  }

  // --- the order of the feed --------------------------------------------------------------

  /** A write publishes nothing, or one record on both feeds, or on the high one. */
  predicate RouterWrite(cfg: Config, ps: seq<Publication>) {
    ps == [] || ps == OnBothFeeds(cfg, ps[0].record) || ps == OnHighFeed(cfg, ps[0].record)
  }

  ghost predicate RouterWrites(cfg: Config, writes: seq<seq<Publication>>) {
    forall t :: 0 <= t < |writes| ==> RouterWrite(cfg, writes[t])
  }

  lemma WriteIsRouterWrite(cfg: Config, s: System, w: nat)
    requires PhaseOf(s, w).Loaded?
    ensures var t := Next(RouterOps(cfg), s, Write(w));
            PhaseOf(t, w).Written? && RouterWrite(cfg, PhaseOf(t, w).pending)
  {
  }

  lemma {:induction false} WritesAlways(cfg: Config, acts: seq<Action>)
    ensures RouterWrites(cfg, TraceOf(RouterOps(cfg), acts).writes)
  {
    if |acts| > 0 {
      var before, a := acts[..|acts| - 1], acts[|acts| - 1];
      WritesAlways(cfg, before);
      var s := RunAll(RouterOps(cfg), before);
      if a.Write? && Enabled(RouterOps(cfg), s, a) {
        WriteIsRouterWrite(cfg, s, a.worker);
      }
    }
  }

  lemma LowComesFirst(cfg: Config, ps: seq<Publication>, k: nat)
    requires RouterWrite(cfg, ps) && k < |ps| && ps[k].topic.Low?
    ensures k == 0 && LowOf(ps, ps[0].record.icao) == Some(ps[0].record)
  {
    OnFeeds(cfg, ps[0].record, ps[0].record.icao);
  }

  lemma LowIsFirst(cfg: Config, ps: seq<Publication>, icao: string)
    requires RouterWrite(cfg, ps) && LowOf(ps, icao).Some?
    ensures |ps| > 0 && ps[0] == Publication(Low, LowOf(ps, icao).value) && ps[0].record.icao == icao
  {
    OnFeeds(cfg, ps[0].record, icao);
  }

  predicate IsLow(p: Publication, icao: string) {
    p.topic.Low? && p.record.icao == icao
  }

  lemma OutSoFar(s: System, tr: Trace, t: nat)
    requires TraceInv(s, tr) && t < |tr.writes|
    ensures Part(s.feed, tr.tickets, t) <= tr.writes[t]
  {
    assert WriteOk(s, tr, t);
    if w: nat :| Held(s, tr, w, t) {
      assert WorkerOk(s, tr, w);
    }
  }

  /** A low message on the feed is the first of its write, which is none after the last. */
  lemma LowOnFeed(cfg: Config, s: System, tr: Trace, i: nat, icao: string)
    requires TraceInv(s, tr) && RouterWrites(cfg, tr.writes) && i < |s.feed| && IsLow(s.feed[i], icao)
    ensures tr.tickets[i] < |tr.writes| && LowOf(tr.writes[tr.tickets[i]], icao) == Some(s.feed[i].record)
    ensures LastLow(tr.writes, icao).Some? && tr.tickets[i] <= LastLow(tr.writes, icao).value
    ensures Part(s.feed[..i], tr.tickets[..i], tr.tickets[i]) == []
  {
    var t := tr.tickets[i];
    assert t in tr.tickets;
    OutSoFar(s, tr, t);
    PartAt(s.feed, tr.tickets, i);
    LowComesFirst(cfg, tr.writes[t], |Part(s.feed[..i], tr.tickets[..i], t)|);
  }

  lemma LowOnce(cfg: Config, s: System, tr: Trace, i: nat, j: nat, icao: string)
    requires TraceInv(s, tr) && RouterWrites(cfg, tr.writes) && i < j < |s.feed|
    requires IsLow(s.feed[i], icao) && IsLow(s.feed[j], icao)
    ensures tr.tickets[i] != tr.tickets[j]
  {
    if tr.tickets[i] == tr.tickets[j] {
      LowOnFeed(cfg, s, tr, j, icao);
      PartAt(s.feed[..j], tr.tickets[..j], i);
    }
  }

  predicate LastLowAt(feed: seq<Publication>, icao: string, p: nat) {
    p < |feed| && IsLow(feed[p], icao) && forall q :: p < q < |feed| ==> !IsLow(feed[q], icao)
  }

  lemma {:induction false} LastLowIsLastOn(feed: seq<Publication>, icao: string, p: nat)
    requires LastLowAt(feed, icao, p)
    ensures LastOn(feed, Low, icao) == Some(feed[p].record)
  {
    var n := |feed| - 1;
    if p < n {
      assert !IsLow(feed[n], icao);
      LastLowIsLastOn(feed[..n], icao, p);
    }
  }

  lemma {:induction false} SomeLowIsLast(feed: seq<Publication>, icao: string, p: nat) returns (q: nat)
    requires p < |feed| && IsLow(feed[p], icao)
    ensures p <= q && LastLowAt(feed, icao, q)
  {
    var n := |feed| - 1;
    if IsLow(feed[n], icao) {
      q := n;
    } else {
      q := SomeLowIsLast(feed[..n], icao, p);
    }
  }

  /** A low message about the aircraft that was written before p was published after it. */
  ghost predicate Overtaken(s: System, tr: Trace, icao: string, p: nat)
    requires |tr.tickets| == |s.feed| && p < |s.feed|
  {
    exists q :: p < q < |s.feed| && IsLow(s.feed[q], icao) && tr.tickets[q] < tr.tickets[p]
  }

  /** The low feed in every interleaving, once the last low message of an aircraft is out: it
      is the last one on the feed if and only if no worker published one that was written
      earlier after it; if one did, such an earlier record is the last. */
  lemma LowFeedExact(cfg: Config, acts: seq<Action>, icao: string, s: System, tr: Trace, l: nat) returns (p: nat)
    requires s == RunAll(RouterOps(cfg), acts) && tr == TraceOf(RouterOps(cfg), acts)
    requires LastLow(tr.writes, icao) == Some(l) && Finished(s, tr, l)
    ensures |tr.tickets| == |s.feed| && p < |s.feed| && tr.tickets[p] == l
    ensures s.feed[p] == Publication(Low, LowOf(tr.writes[l], icao).value)
    ensures LastLowAt(s.feed, icao, p) <==> !Overtaken(s, tr, icao, p)
    ensures !Overtaken(s, tr, icao, p) ==> LastOn(s.feed, Low, icao) == LowOf(tr.writes[l], icao)
    ensures Overtaken(s, tr, icao, p) ==>
              exists t: nat :: t < l && LowOf(tr.writes[t], icao).Some? && LastOn(s.feed, Low, icao) == LowOf(tr.writes[t], icao)
  {
    TraceAlways(RouterOps(cfg), acts);
    WritesAlways(cfg, acts);
    LowIsFirst(cfg, tr.writes[l], icao);
    assert WriteOk(s, tr, l);
    p := PartFound(s.feed, tr.tickets, l, 0);
    var q := SomeLowIsLast(s.feed, icao, p);
    LastLowIsLastOn(s.feed, icao, q);
    LowOnFeed(cfg, s, tr, q, icao);
    if p < q {
      LowOnce(cfg, s, tr, p, q, icao);
    }
  }

  /** Both together: an aircraft in the cache whose last low message is out. As long as it was
      not overtaken, the low feed is the bounded view that it is meant to be. */
  lemma LowFeedIsView(cfg: Config, acts: seq<Action>, icao: string, s: System, tr: Trace) returns (p: nat)
    requires s == RunAll(RouterOps(cfg), acts) && tr == TraceOf(RouterOps(cfg), acts)
    requires KeyOf(s, icao).entry.Some? && forall w: nat :: PhaseOf(s, w).Idle?
    ensures |tr.tickets| == |s.feed| && p < |s.feed| && Some(tr.tickets[p]) == LastLow(tr.writes, icao)
    ensures LastLowAt(s.feed, icao, p) <==> !Overtaken(s, tr, icao, p)
    ensures !Overtaken(s, tr, icao, p) ==>
              && LastOn(s.feed, Low, icao).Some?
              && Stale(LastOn(s.feed, Low, icao).value, KeyOf(s, icao).entry.value, Behind(tr.writes, icao))
  {
    CacheFollowsLowWrites(cfg, acts, icao);
    p := LowFeedExact(cfg, acts, icao, s, tr, LastLow(tr.writes, icao).value);
  }

  /** In every interleaving each low message is followed, though not necessarily next, by the
      same record on the matching high topic, once its worker is done. */
  lemma LowHasItsHigh(cfg: Config, acts: seq<Action>, s: System, tr: Trace, i: nat)
    requires s == RunAll(RouterOps(cfg), acts) && tr == TraceOf(RouterOps(cfg), acts)
    requires i < |s.feed|
    ensures |tr.tickets| == |s.feed|
    ensures Finished(s, tr, tr.tickets[i]) && s.feed[i].topic.Low? ==> OnFeedAfter(s, tr, i, Publication(High, s.feed[i].record))
    ensures Finished(s, tr, tr.tickets[i]) && s.feed[i].topic.TileLow? ==>
              OnFeedAfter(s, tr, i, Publication(TileHigh(s.feed[i].topic.tile), s.feed[i].record))
  {
    TraceAlways(RouterOps(cfg), acts);
    WritesAlways(cfg, acts);
    if Finished(s, tr, tr.tickets[i]) {
      var k := FollowsOnFeed(s, tr, i);
      var ps := tr.writes[tr.tickets[i]];
      FeedsMirrored(cfg, ps[0].record);
      assert MirroredAt(ps, k);
    }
  }
}
