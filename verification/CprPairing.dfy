/** Whole runs of the report buffers in lib/tracker/cpr.go: which two reports any
    decoded position comes from. */
module CprPairing {
  import opened Basics
  import opened CprEncoding
  import opened CprDecoder

  function Step(p: Pair, e: Event): Pair {
    match e
    case SetEven(r) => StoreEven(p, r)
    case SetOdd(r) => StoreOdd(p, r)
    case Zero => CLEARED
    case Decode(onGround, refLat, refLon) => DecodeState(p, onGround, refLat, refLon)
  }

  function StateAfter(es: seq<Event>): Pair {
    if |es| == 0 then CLEARED else Step(StateAfter(es[..|es| - 1]), es[|es| - 1])
  }

  function OutcomeAt(es: seq<Event>, d: nat): Outcome
    requires d < |es| && es[d].Decode?
  {
    DecodeOutcome(StateAfter(es[..d]), es[d].onGround, es[d].refLat, es[d].refLon)
  }

  /** Event i empties both buffers. */
  predicate Clears(es: seq<Event>, i: nat)
    requires i < |es|
  {
    es[i].Zero? || (es[i].Decode? && StateAfter(es[..i]) != CLEARED && Step(StateAfter(es[..i]), es[i]) == CLEARED)
  }

  predicate Stores(e: Event, odd: bool) {
    (if odd then e.SetOdd? else e.SetEven?) && InRaw(e.report.lat, e.report.lon)
  }

  /** At time d the buffer holds the report of event i: nothing replaced or cleared it since. */
  ghost predicate Holds(es: seq<Event>, i: nat, odd: bool, d: nat)
    requires d <= |es|
  {
    i < d && Stores(es[i], odd) && forall j :: i < j < d ==> !Stores(es[j], odd) && !Clears(es, j)
  }

  function Slot(p: Pair, odd: bool): Option<Report> {
    if odd then p.odd else p.even
  }

  /** The buffers hold exactly the latest accepted report of each kind since the last clear. */
  lemma {:induction false} BufferIsLatest(es: seq<Event>, odd: bool, d: nat)
    requires d <= |es|
    ensures var slot := Slot(StateAfter(es[..d]), odd);
            && (slot.Some? ==> exists i: nat :: Holds(es, i, odd, d) && es[i].report == slot.value)
            && (forall i: nat :: Holds(es, i, odd, d) ==> slot == Some(es[i].report))
  {
    if d > 0 {
      var c := d - 1;
      assert es[..d][..c] == es[..c];
      BufferIsLatest(es, odd, c);
      var before, after := StateAfter(es[..c]), StateAfter(es[..d]);
      assert after == Step(before, es[c]);
      if Stores(es[c], odd) {
        assert Holds(es, c, odd, d);
      } else if !Clears(es, c) {
        assert Slot(after, odd) == Slot(before, odd);
        if Slot(before, odd).Some? {
          var i: nat :| Holds(es, i, odd, c) && es[i].report == Slot(before, odd).value;
          assert Holds(es, i, odd, d);
        }
        forall i: nat | Holds(es, i, odd, d)
          ensures Holds(es, i, odd, c)
        {
        }
      }
    }
  }

  /** Every position decoded in any run comes from one even and one odd report, each the
      latest of its kind stored since the last clear; their times differ by less than
      10.001 s and the position carries the earlier of the two. */
  lemma PositionProvenance(es: seq<Event>, d: nat) returns (i: nat, j: nat)
    requires d < |es| && es[d].Decode? && OutcomeAt(es, d).Decoded? && OutcomeAt(es, d).result.Ok?
    ensures Holds(es, i, false, d) && Holds(es, j, true, d)
    ensures var e, o, p := es[i].report, es[j].report, OutcomeAt(es, d).result.value;
            && -10_001_000_000 < o.time - e.time < 10_001_000_000
            && p.cprDecodedTS == (if o.time < e.time then o.time else e.time)
            && p.onGround == es[d].onGround
            && Ok(p) == if es[d].onGround then SurfaceFix(e, o, es[d].refLat, es[d].refLon) else AirFix(e, o)
    ensures Clears(es, d)
  {
    BufferIsLatest(es, false, d);
    BufferIsLatest(es, true, d);
    i :| Holds(es, i, false, d);
    j :| Holds(es, j, true, d);
  }

  /** A report takes part in at most one decode that produces a position: of any two such
      decodes the later one uses two reports that both came in after the earlier one. */
  lemma UsedAtMostOnce(es: seq<Event>, d1: nat, d2: nat) returns (i1: nat, j1: nat, i2: nat, j2: nat)
    requires d1 < d2 < |es| && es[d1].Decode? && es[d2].Decode?
    requires OutcomeAt(es, d1).Decoded? && OutcomeAt(es, d1).result.Ok?
    requires OutcomeAt(es, d2).Decoded? && OutcomeAt(es, d2).result.Ok?
    ensures i1 < d1 < i2 < d2 && j1 < d1 < j2 < d2
    ensures es[i1].SetEven? && es[j1].SetOdd? && es[i2].SetEven? && es[j2].SetOdd?
    ensures Decodes(es, d1, es[i1].report, es[j1].report) && Decodes(es, d2, es[i2].report, es[j2].report)
  {
    i1, j1 := PositionProvenance(es, d1);
    i2, j2 := PositionProvenance(es, d2);
    assert Holds(es, i2, false, d2) && Holds(es, j2, true, d2) && Clears(es, d1);
  }

  /** The decode at d is the decode of these two reports. */
  predicate Decodes(es: seq<Event>, d: nat, e: Report, o: Report)
    requires d < |es| && es[d].Decode?
  {
    OutcomeAt(es, d) == Decoded(if es[d].onGround then SurfaceFix(e, o, es[d].refLat, es[d].refLon) else AirFix(e, o))
  }

  /** Every decode that produces a position or an error other than the missing reference
      clears the buffers. */
  lemma DecodeClears(es: seq<Event>, d: nat)
    requires d < |es| && es[d].Decode? && OutcomeAt(es, d).Decoded?
    ensures Clears(es, d) <==> !(es[d].onGround && OutcomeAt(es, d).result == Err(NoReference))
    ensures Clears(es, d) ==> StateAfter(es[..d + 1]) == CLEARED
    ensures !Clears(es, d) ==> StateAfter(es[..d + 1]) == StateAfter(es[..d])
  {
    assert es[..d + 1][..d] == es[..d];
  }

  /** The object runs exactly this machine. */
  method Replay(es: seq<Event>) returns (c: CprLocation, outcomes: map<nat, Outcome>)
    ensures c.Buffers() == StateAfter(es)
    ensures forall d: nat :: d in outcomes <==> d < |es| && es[d].Decode?
    ensures forall d :: d in outcomes ==> outcomes[d] == OutcomeAt(es, d)
  {
    c := new CprLocation();
    outcomes := map[];
    for n := 0 to |es|
      invariant fresh(c) && c.Buffers() == StateAfter(es[..n])
      invariant forall d: nat :: d in outcomes <==> d < n && es[d].Decode?
      invariant forall d :: d in outcomes ==> outcomes[d] == OutcomeAt(es, d)
    {
      assert es[..n + 1][..n] == es[..n];
      match es[n]
      case SetEven(r) => var _ := c.SetEvenLocation(r.lat, r.lon, r.time);
      case SetOdd(r) => var _ := c.SetOddLocation(r.lat, r.lon, r.time);
      case Zero => c.ClearBuffers();
      case Decode(onGround, refLat, refLon) =>
        c.refLat, c.refLon := refLat, refLon;
        var outcome := c.DecodePair(onGround);
        outcomes := outcomes[n := outcome];
    }
    assert es[..|es|] == es;
  }
}
