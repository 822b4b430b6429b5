/** The router's workers as an instance of the locked merge protocol. */
module RouterConcurrency {
  import opened Basics
  import opened PlaneMerge
  import opened MergeLaws
  import opened Router
  import opened LockedMerge

  function MergeOrReject(r: PlaneLocation, u: PlaneLocation, bearing: Bearing): Option<PlaneLocation> {
    if IsLocationPossible(r, u, bearing) then Some(MergeFields(r, u)) else None
  }

  /** What handleMsg does with an update that has an ICAO and is not a removal. */
  function RouterOps(cfg: Config): Ops {
    Ops((u: PlaneLocation) => u.icao,
        (r: PlaneLocation) => r.icao,
        (u: PlaneLocation) => Tagged(u),
        (r: PlaneLocation, u: PlaneLocation) => MergeOrReject(r, u, cfg.bearing),
        (u: PlaneLocation) => OnBothFeeds(cfg, u),
        (r: PlaneLocation, u: PlaneLocation) =>
          if IsSignificant(r, u) then OnBothFeeds(cfg, MergeFields(r, u)) else OnHighFeed(cfg, MergeFields(r, u)))
  }

  lemma RouterOpsLawful(cfg: Config)
    ensures LawfulOps(RouterOps(cfg))
  {
    var ops := RouterOps(cfg);
    forall r, u | ops.merge(r, u).Some?
      ensures ops.name(ops.merge(r, u).value) == ops.name(r)
    {
      MergeKeepsIcao(r, u, cfg.bearing);
    }
  }

  lemma MergeKeepsIcao(r: PlaneLocation, u: PlaneLocation, bearing: Bearing)
    ensures MergeOrReject(r, u, bearing).Some? ==> MergeOrReject(r, u, bearing).value.icao == r.icao
  {
  }

  /** The updates of a run that pass the gate. */
  function Accepted(p: PlaneLocation, us: seq<PlaneLocation>, bearing: Bearing): seq<PlaneLocation> {
    if |us| == 0 then []
    else
      var before, u := us[..|us| - 1], us[|us| - 1];
      if IsLocationPossible(FoldGated(p, before, bearing), u, bearing) then Accepted(p, before, bearing) + [u]
      else Accepted(p, before, bearing)
  }

  lemma {:induction false} AcceptedFold(p: PlaneLocation, us: seq<PlaneLocation>, bearing: Bearing)
    ensures FoldGated(p, us, bearing) == FoldFields(p, Accepted(p, us, bearing))
  {
    if |us| > 0 {
      var before, u := us[..|us| - 1], us[|us| - 1];
      AcceptedFold(p, before, bearing);
      FoldFieldsAppend(p, Accepted(p, before, bearing), u);
    }
  }

  lemma FoldFieldsAppend(p: PlaneLocation, us: seq<PlaneLocation>, u: PlaneLocation)
    ensures FoldFields(p, us + [u]) == MergeFields(FoldFields(p, us), u)
  {
    assert (us + [u])[..|us|] == us;
  }

  lemma MergeOneIsGated(cfg: Config, r: PlaneLocation, u: PlaneLocation)
    ensures MergeOne(RouterOps(cfg), r, u) == MergeGated(r, u, cfg.bearing)
  {
  }

  lemma {:induction false} ReplayIsFold(cfg: Config, us: seq<PlaneLocation>)
    requires |us| > 0
    ensures Replay(RouterOps(cfg), us) == FoldGated(Tagged(us[0]), us[1..], cfg.bearing)
  {
    if |us| > 1 {
      var before, u := us[..|us| - 1], us[|us| - 1];
      ReplayIsFold(cfg, before);
      MergeOneIsGated(cfg, Replay(RouterOps(cfg), before), u);
      assert us[1..][..|us| - 2] == before[1..];
      assert us[1..][|us| - 2] == u;
    }
  }

  /** r is the merge of the first update and all later ones that passed the gate, in order. */
  predicate MergedFrom(r: PlaneLocation, first: PlaneLocation, us: seq<PlaneLocation>, bearing: Bearing) {
    r == FoldFields(Tagged(first), Accepted(Tagged(first), us, bearing))
  }

  lemma EntryIsMerged(cfg: Config, acts: seq<Action>, icao: string, ks: KeyState)
    requires ks == KeyOf(RunAll(RouterOps(cfg), acts), icao) && ks.entry.Some? && ks.owner.None?
    ensures ks.start < |ks.history|
    ensures MergedFrom(ks.entry.value, ks.history[ks.start], ks.history[ks.start + 1..], cfg.bearing)
  {
    RouterOpsLawful(cfg);
    EntriesAreSequential(RouterOps(cfg), acts, icao);
    var us := ks.history[ks.start..];
    ReplayIsMerged(cfg, us, ks.history[ks.start + 1..]);
  }

  lemma ReplayIsMerged(cfg: Config, us: seq<PlaneLocation>, later: seq<PlaneLocation>)
    requires |us| > 0 && later == us[1..]
    ensures MergedFrom(Replay(RouterOps(cfg), us), us[0], later, cfg.bearing)
  {
    ReplayIsFold(cfg, us);
    AcceptedFold(Tagged(us[0]), later, cfg.bearing);
  }

  lemma MergedCounts(r: PlaneLocation, first: PlaneLocation, us: seq<PlaneLocation>, bearing: Bearing, tag: string)
    requires MergedFrom(r, first, us, bearing)
    ensures 0 <= CountOf(Tagged(first).sourceTags, tag) < UINT32 ==>
              Counted(CountOf(r.sourceTags, tag), CountOf(Tagged(first).sourceTags, tag),
                      TimesMerged(Accepted(Tagged(first), us, bearing), tag))
  {
    if 0 <= CountOf(Tagged(first).sourceTags, tag) < UINT32 {
      TagsCountUpdates(Tagged(first), Accepted(Tagged(first), us, bearing), tag);
    }
  }

  /** Linearisation of the router: in every interleaving of any number of workers and
      evictions, the cached record of an aircraft whose lock is free is the sequential merge
      of the updates that passed the gate, in lock order since it was inserted as new. None
      of them is lost, and each is counted once under its source tag, modulo 2^32. */
  lemma RouterIsSequential(cfg: Config, acts: seq<Action>, icao: string, tag: string, ks: KeyState)
    requires ks == KeyOf(RunAll(RouterOps(cfg), acts), icao) && ks.entry.Some? && ks.owner.None?
    ensures ks.start < |ks.history|
    ensures MergedFrom(ks.entry.value, ks.history[ks.start], ks.history[ks.start + 1..], cfg.bearing)
    ensures 0 <= CountOf(Tagged(ks.history[ks.start]).sourceTags, tag) < UINT32 ==>
              Counted(CountOf(ks.entry.value.sourceTags, tag), CountOf(Tagged(ks.history[ks.start]).sourceTags, tag),
                      TimesMerged(Accepted(Tagged(ks.history[ks.start]), ks.history[ks.start + 1..], cfg.bearing), tag))
  {
    EntryIsMerged(cfg, acts, icao, ks);
    MergedCounts(ks.entry.value, ks.history[ks.start], ks.history[ks.start + 1..], cfg.bearing, tag);
  }

  lemma TagOf(first: PlaneLocation, us: seq<PlaneLocation>, tag: string)
    requires first.sourceTags == map[] && |us| + 1 < UINT32
    ensures CountOf(FoldFields(Tagged(first), us).sourceTags, tag) == TimesMerged(us, tag) + if tag == first.sourceTag then 1 else 0
  {
    TagsCountUpdates(Tagged(first), us, tag);
  }

  /** The counts of a record that began untagged with an update of this tag. */
  ghost predicate Tally(counts: map<string, int>, us: seq<PlaneLocation>, tag: string) {
    forall t :: CountOf(counts, t) == TimesMerged(us, t) + if t == tag then 1 else 0
  }

  lemma FoldTallies(first: PlaneLocation, us: seq<PlaneLocation>)
    requires first.sourceTags == map[] && |us| + 1 < UINT32
    ensures Tally(FoldFields(Tagged(first), us).sourceTags, us, first.sourceTag)
  {
    var counts := FoldFields(Tagged(first), us).sourceTags;
    forall t
      ensures CountOf(counts, t) == TimesMerged(us, t) + if t == first.sourceTag then 1 else 0
    {
      TagOf(first, us, t);
    }
  }

  lemma TallyAddsUp(counts: map<string, int>, us: seq<PlaneLocation>, tag: string, tags: multiset<string>)
    requires Tally(counts, us, tag) && forall t :: tags[t] == CountOf(counts, t)
    ensures |tags| == |us| + 1
  {
    var rest := tags[tag := TimesMerged(us, tag)];
    forall t
      ensures rest[t] == TimesMerged(us, t)
    {
      assert tags[t] == CountOf(counts, t);
    }
    EveryUpdateCounted(us, rest);
    assert tags[tag] == CountOf(counts, tag);
    assert tags == rest + multiset{tag};
  }

  /** No accepted update is lost: in every interleaving, the source tags of a cached record
      that began untagged add up to one for its first update and one for each accepted since. */
  lemma SourceTagsAddUp(cfg: Config, acts: seq<Action>, icao: string, ks: KeyState, tags: multiset<string>)
    requires ks == KeyOf(RunAll(RouterOps(cfg), acts), icao) && ks.entry.Some? && ks.owner.None?
    requires |ks.history| < UINT32 && (ks.start < |ks.history| ==> ks.history[ks.start].sourceTags == map[])
    requires forall t :: tags[t] == CountOf(ks.entry.value.sourceTags, t)
    ensures ks.start < |ks.history|
    ensures |tags| == 1 + |Accepted(Tagged(ks.history[ks.start]), ks.history[ks.start + 1..], cfg.bearing)|
  {
    EntryIsMerged(cfg, acts, icao, ks);
    EntryAddsUp(ks.history[ks.start], ks.history[ks.start + 1..], cfg.bearing, ks.entry.value, tags);
  }

  lemma EntryAddsUp(first: PlaneLocation, us: seq<PlaneLocation>, bearing: Bearing, r: PlaneLocation, tags: multiset<string>)
    requires first.sourceTags == map[] && |us| + 1 < UINT32
    requires MergedFrom(r, first, us, bearing)
    requires forall t :: tags[t] == CountOf(r.sourceTags, t)
    ensures |tags| == 1 + |Accepted(Tagged(first), us, bearing)|
  {
    AcceptedShorter(Tagged(first), us, bearing);
    FoldTallies(first, Accepted(Tagged(first), us, bearing));
    TallyAddsUp(r.sourceTags, Accepted(Tagged(first), us, bearing), first.sourceTag, tags);
  }

  lemma {:induction false} AcceptedShorter(p: PlaneLocation, us: seq<PlaneLocation>, bearing: Bearing)
    ensures |Accepted(p, us, bearing)| <= |us|
  {
    if |us| > 0 {
      AcceptedShorter(p, us[..|us| - 1], bearing);
    }
  }

  lemma RouterMutualExclusion(cfg: Config, acts: seq<Action>, v: nat, w: nat)
    ensures var s := RunAll(RouterOps(cfg), acts);
            InLock(PhaseOf(s, v)) && InLock(PhaseOf(s, w)) && PhaseOf(s, v).update.icao == PhaseOf(s, w).update.icao
            ==> v == w
  {
    RouterOpsLawful(cfg);
    MutualExclusion(RouterOps(cfg), acts, v, w);
  }

  /** What handleMsg does at once, in the protocol's terms. */
  lemma HandleExact(cfg: Config, before: State, u: PlaneLocation)
    requires u.icao != "" && !u.removed && (u.icao in before.samples ==> before.samples[u.icao].icao == u.icao)
    ensures var ops, after := RouterOps(cfg), Handle(cfg, before, u);
            if u.icao !in before.samples then
              after == State(before.samples[u.icao := ops.insert(u)], before.published + ops.announce(u))
            else
              var last := before.samples[u.icao];
              match ops.merge(last, u)
              case None => after == before
              case Some(merged) =>
                && merged.icao == u.icao
                && after == State(before.samples[u.icao := merged], before.published + ops.report(last, u))
  {
  }

  /** A worker left alone does to the cache and the feed what handleMsg does at once. */
  lemma SoloWriteIsHandle(cfg: Config, s: System, w: nat, u: PlaneLocation, before: State)
    requires u.icao != "" && !u.removed
    requires Enabled(RouterOps(cfg), s, Lock(w, u))
    requires before.samples == (map k | k in s.keys && s.keys[k].entry.Some? :: s.keys[k].entry.value)
    requires u.icao in before.samples ==> before.samples[u.icao].icao == u.icao
    ensures var ops := RouterOps(cfg);
            var t := SoloWrite(ops, s, w, u);
            var after := Handle(cfg, before, u);
            && PhaseOf(t, w).Written?
            && KeyOf(t, u.icao).entry == (if u.icao in after.samples then Some(after.samples[u.icao]) else None)
            && after.published == before.published + PhaseOf(t, w).pending
  {
    SoloWriteExact(RouterOps(cfg), s, w, u);
    HandleExact(cfg, before, u);
    assert u.icao in before.samples <==> KeyOf(s, u.icao).entry.Some?;
  }
}
