/** When the squawk of a merged record depends on the order of the updates: exactly. */
module SquawkOrder {
  import opened Basics
  import opened PlaneMerge
  import opened MergeLaws

  type Squawk = Stamped<string>

  /** The squawk held after these came in, one by one. */
  function Held(s: Squawk, cs: seq<Squawk>): Squawk {
    if |cs| == 0 then s else MergeSquawk(Held(s, cs[..|cs| - 1]), cs[|cs| - 1])
  }

  /** c would replace s. */
  predicate Takeable(s: Squawk, c: Squawk) {
    c.at > s.at && (c.value == "0" ==> c.at > s.at + 5_000_000_000)
  }

  ghost predicate Newest(s: Squawk, cs: seq<Squawk>, v: Squawk) {
    v in cs && Takeable(s, v) && forall w :: w in cs && Takeable(s, w) ==> w.at <= v.at
  }

  /** u keeps v out when it comes first. */
  predicate KeepsOut(s: Squawk, u: Squawk, v: Squawk) {
    Takeable(s, u) && v.value == "0" && u.at < v.at <= u.at + 5_000_000_000
  }

  /** The newest squawk that the record would take is a "0", at most five seconds newer than
      another one that it would take. */
  ghost predicate Clash(s: Squawk, cs: seq<Squawk>) {
    exists u, v :: u in cs && Newest(s, cs, v) && KeepsOut(s, u, v)
  }

  ghost predicate OneAtATime(cs: seq<Squawk>) {
    forall c, d :: c in cs && d in cs && c.at == d.at ==> c == d
  }

  // --- without a clash ----------------------------------------------------------------------

  lemma LastApart(cs: seq<Squawk>)
    requires |cs| > 0
    ensures forall c :: c in cs <==> c in cs[..|cs| - 1] || c == cs[|cs| - 1]
  {
    assert cs == cs[..|cs| - 1] + [cs[|cs| - 1]];
  }

  lemma {:induction false} HeldIsTakeable(s: Squawk, cs: seq<Squawk>)
    ensures Held(s, cs).at >= s.at
    ensures Held(s, cs) == s || (Held(s, cs) in cs && Takeable(s, Held(s, cs)))
  {
    if |cs| > 0 {
      HeldIsTakeable(s, cs[..|cs| - 1]);
      LastApart(cs);
    }
  }

  /** Once it came in, the newest wins unless something kept it out. */
  lemma {:induction false} NewestWins(s: Squawk, cs: seq<Squawk>, n: nat, v: Squawk)
    requires n <= |cs| && v in cs[..n]
    requires OneAtATime(cs) && Newest(s, cs, v) && forall u :: u in cs ==> !KeepsOut(s, u, v)
    ensures Held(s, cs[..n]) == v
  {
    var before, c := cs[..n - 1], cs[n - 1];
    assert cs[..n] == before + [c] && cs[..n][..n - 1] == before;
    assert forall u :: u in before ==> u in cs;
    HeldIsTakeable(s, before);
    if v in before {
      NewestWins(s, cs, n - 1, v);
      assert c in cs;
    }
  }

  function NewestOf(s: Squawk, cs: seq<Squawk>): (v: Option<Squawk>)
    ensures v.Some? ==> Newest(s, cs, v.value)
    ensures v.None? ==> forall w :: w in cs ==> !Takeable(s, w)
  {
    if |cs| == 0 then None
    else
      LastApart(cs);
      var before, c := NewestOf(s, cs[..|cs| - 1]), cs[|cs| - 1];
      if Takeable(s, c) && (before.None? || before.value.at < c.at) then Some(c) else before
  }

  lemma HeldWithoutClash(s: Squawk, cs: seq<Squawk>)
    requires OneAtATime(cs) && !Clash(s, cs)
    ensures Held(s, cs) == if NewestOf(s, cs).Some? then NewestOf(s, cs).value else s
  {
    HeldIsTakeable(s, cs);
    var v := NewestOf(s, cs);
    if v.Some? {
      assert cs[..|cs|] == cs;
      NewestWins(s, cs, |cs|, v.value);
    }
  }

  // --- with one -----------------------------------------------------------------------------

  lemma {:induction false} KeptOut(s: Squawk, u: Squawk, v: Squawk, rest: seq<Squawk>)
    requires KeepsOut(s, u, v)
    ensures Held(s, [u] + rest).at >= u.at && Held(s, [u] + rest) != v
  {
    if |rest| == 0 {
      assert [u] + rest == [u] && [u][..0] == [];
      assert Held(s, [u]) == MergeSquawk(Held(s, []), u);
    } else {
      var n := |rest| - 1;
      KeptOut(s, u, v, rest[..n]);
      assert ([u] + rest)[..n + 1] == [u] + rest[..n];
    }
  }

  lemma {:induction false} FirstStays(s: Squawk, v: Squawk, rest: seq<Squawk>)
    requires Takeable(s, v) && forall w :: w in rest && Takeable(s, w) ==> w.at <= v.at
    ensures Held(s, [v] + rest) == v
  {
    if |rest| == 0 {
      assert [v] + rest == [v] && [v][..0] == [];
      assert Held(s, [v]) == MergeSquawk(Held(s, []), v);
    } else {
      var n := |rest| - 1;
      assert rest[n] in rest && forall w :: w in rest[..n] ==> w in rest;
      FirstStays(s, v, rest[..n]);
      assert ([v] + rest)[..n + 1] == [v] + rest[..n];
    }
  }

  // --- of records -----------------------------------------------------------------------------

  const SQUAWK: Channel<string> := Channel((p: PlaneLocation) => p.squawk, (u: PlaneLocation) => Some(u.squawk))

  function Codes(us: seq<PlaneLocation>): (cs: seq<Squawk>)
    ensures |cs| == |us| && forall i :: 0 <= i < |us| ==> cs[i] == us[i].squawk
  {
    seq(|us|, i requires 0 <= i < |us| => us[i].squawk)
  }

  lemma {:induction false} FoldHolds(p: PlaneLocation, us: seq<PlaneLocation>)
    ensures FoldFields(p, us).squawk == Held(p.squawk, Codes(us))
  {
    if |us| > 0 {
      FoldHolds(p, us[..|us| - 1]);
      assert Codes(us)[..|us| - 1] == Codes(us[..|us| - 1]);
    }
  }

  function FirstThenRest(us: seq<PlaneLocation>, i: nat): seq<PlaneLocation>
    requires i < |us|
  {
    [us[i]] + (us[..i] + us[i + 1..])
  }

  lemma FirstThenRestPermutes(us: seq<PlaneLocation>, i: nat)
    requires i < |us|
    ensures multiset(FirstThenRest(us, i)) == multiset(us)
    ensures Codes(FirstThenRest(us, i)) == [us[i].squawk] + Codes(us[..i] + us[i + 1..])
    ensures forall c :: c in Codes(us[..i] + us[i + 1..]) ==> c in Codes(us)
  {
    assert us == us[..i] + [us[i]] + us[i + 1..];
    var rest := us[..i] + us[i + 1..];
    forall c | c in Codes(rest)
      ensures c in Codes(us)
    {
      var k :| 0 <= k < |rest| && Codes(rest)[k] == c;
      assert rest[k] == us[if k < i then k else k + 1];
      assert c == Codes(us)[if k < i then k else k + 1];
    }
  }

  lemma SameCodes(us: seq<PlaneLocation>, vs: seq<PlaneLocation>)
    requires multiset(us) == multiset(vs)
    ensures forall c :: c in Codes(us) ==> c in Codes(vs)
  {
    SameElements(us, vs);
    forall c | c in Codes(us)
      ensures c in Codes(vs)
    {
      var i :| 0 <= i < |us| && Codes(us)[i] == c;
      assert us[i] in vs;
      var j :| 0 <= j < |vs| && vs[j] == us[i];
      assert Codes(vs)[j] == c;
    }
  }

  lemma CodesOneAtATime(us: seq<PlaneLocation>)
    requires DistinctTimes(SQUAWK, us)
    ensures OneAtATime(Codes(us))
  {
    forall c, d | c in Codes(us) && d in Codes(us) && c.at == d.at
      ensures c == d
    {
      var i :| 0 <= i < |us| && Codes(us)[i] == c;
      var j :| 0 <= j < |us| && Codes(us)[j] == d;
      assert us[i] in us && us[j] in us;
      assert SameTime(SQUAWK.offered(us[i]), SQUAWK.offered(us[j]));
    }
  }

  ghost predicate AnyOrder(p: PlaneLocation, us: seq<PlaneLocation>) {
    forall vs :: multiset(vs) == multiset(us) ==> FoldFields(p, vs).squawk == FoldFields(p, us).squawk
  }

  lemma NoClashAnyOrder(p: PlaneLocation, us: seq<PlaneLocation>, vs: seq<PlaneLocation>)
    requires DistinctTimes(SQUAWK, us) && !Clash(p.squawk, Codes(us)) && multiset(vs) == multiset(us)
    ensures FoldFields(p, vs).squawk == FoldFields(p, us).squawk
  {
    FoldHolds(p, us);
    FoldHolds(p, vs);
    SameCodes(us, vs);
    SameCodes(vs, us);
    CodesOneAtATime(us);
    HeldWithoutClash(p.squawk, Codes(us));
    HeldWithoutClash(p.squawk, Codes(vs));
  }

  lemma ClashTwoOrders(p: PlaneLocation, us: seq<PlaneLocation>)
    requires Clash(p.squawk, Codes(us))
    ensures !AnyOrder(p, us)
  {
    var s, cs := p.squawk, Codes(us);
    var u, v :| u in cs && Newest(s, cs, v) && KeepsOut(s, u, v);
    var i :| 0 <= i < |us| && cs[i] == u;
    var j :| 0 <= j < |us| && cs[j] == v;
    FirstThenRestPermutes(us, i);
    FirstThenRestPermutes(us, j);
    KeptOut(s, u, v, Codes(us[..i] + us[i + 1..]));
    FirstStays(s, v, Codes(us[..j] + us[j + 1..]));
    FoldHolds(p, FirstThenRest(us, i));
    FoldHolds(p, FirstThenRest(us, j));
  }

  /** The squawk is the same in every order of the updates if and only if there is no clash. */
  lemma SquawkOrderExact(p: PlaneLocation, us: seq<PlaneLocation>)
    requires DistinctTimes(SQUAWK, us)
    ensures AnyOrder(p, us) <==> !Clash(p.squawk, Codes(us))
  {
    if Clash(p.squawk, Codes(us)) {
      ClashTwoOrders(p, us);
    } else {
      forall vs | multiset(vs) == multiset(us)
        ensures FoldFields(p, vs).squawk == FoldFields(p, us).squawk
      {
        NoClashAnyOrder(p, us, vs);
      }
    }
  }

  /** So as long as no update reports "0", the squawk too is the newest in whatever order. */
  lemma SquawkOrderFree(p: PlaneLocation, us: seq<PlaneLocation>, vs: seq<PlaneLocation>)
    requires multiset(us) == multiset(vs) && DistinctTimes(SQUAWK, us)
    requires forall u :: u in us ==> u.squawk.value != "0"
    ensures FoldFields(p, us).squawk == FoldFields(p, vs).squawk
  {
    forall c | c in Codes(us)
      ensures c.value != "0"
    {
      var i :| 0 <= i < |us| && Codes(us)[i] == c;
      assert us[i] in us;
    }
    NoClashAnyOrder(p, us, vs);
  }

  /** The order of two updates matters exactly when the record would take both, and one of
      them is a "0" at most five seconds newer than the other; then the first one stays. */
  lemma SquawkOrderMatters(p: PlaneLocation, u: PlaneLocation, v: PlaneLocation)
    requires u.squawk.at != v.squawk.at
    ensures FoldFields(p, [u, v]).squawk != FoldFields(p, [v, u]).squawk <==>
              || (KeepsOut(p.squawk, u.squawk, v.squawk) && Takeable(p.squawk, v.squawk))
              || (KeepsOut(p.squawk, v.squawk, u.squawk) && Takeable(p.squawk, u.squawk))
    ensures FoldFields(p, [u, v]).squawk != FoldFields(p, [v, u]).squawk ==>
              FoldFields(p, [u, v]).squawk == u.squawk && FoldFields(p, [v, u]).squawk == v.squawk
  {
    TwoUpdates(p, u, v);
    TwoUpdates(p, v, u);
  }

  lemma TwoUpdates(p: PlaneLocation, u: PlaneLocation, v: PlaneLocation)
    ensures FoldFields(p, [u, v]).squawk == MergeSquawk(MergeSquawk(p.squawk, u.squawk), v.squawk)
  {
    FoldHolds(p, [u, v]);
    var c, d := u.squawk, v.squawk;
    assert Codes([u, v]) == [c, d] && [c, d][..1] == [c] && [c][..0] == [];
    assert Held(p.squawk, [c]) == MergeSquawk(Held(p.squawk, []), c);
  }
}
