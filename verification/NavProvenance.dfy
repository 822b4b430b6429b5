/** Where every navigation value an aircraft is shown with came from, over all runs of
    lib/tracker/nav.go. */
module NavProvenance {
  import opened Basics
  import opened NavTracking

  datatype Event = Tc29(message: Option<TargetState>, t: Time) | Reply40(reply: Option<Bds40>, t: Time)

  function Step(n: Tracking, e: Event): Tracking {
    match e
    case Tc29(m, t) => if m.None? || t == NO_TIME then n else TakeTargetState(n, m.value, t)
    case Reply40(b, t) => if b.None? || t == NO_TIME then n else TakeBds40(n, b.value, t)
  }

  function After(es: seq<Event>): Tracking {
    if |es| == 0 then UNTRACKED else Step(After(es[..|es| - 1]), es[|es| - 1])
  }

  lemma AfterNext(es: seq<Event>, n: nat)
    requires n < |es|
    ensures After(es[..n + 1]) == Step(After(es[..n]), es[n])
  {
    assert es[..n + 1][..n] == es[..n];
  }

  // --- what happened before, in terms of the events alone --------------------------------

  predicate Heard29(e: Event) {
    e.Tc29? && e.message.Some? && e.t != NO_TIME
  }

  predicate Altitude29(e: Event) {
    Heard29(e) && (e.message.value.fms.Some? || e.message.value.mcp.Some?)
  }

  function SelectedBy29(e: Event): int
    requires Altitude29(e)
  {
    if e.message.value.fms.Some? then e.message.value.fms.value else e.message.value.mcp.value
  }

  predicate Heard40(e: Event) {
    && e.Reply40? && e.reply.Some? && e.t != NO_TIME
    && (e.reply.value.mcp.Some? || e.reply.value.fms.Some? || e.reply.value.qnh.Some?)
  }

  /** k is the last TC29 with a selected altitude before i. */
  ghost predicate LastAltitude29(es: seq<Event>, k: nat, i: nat)
    requires i <= |es|
  {
    k < i && Altitude29(es[k]) && forall j :: k < j < i ==> !Altitude29(es[j])
  }

  /** k is the last 4,0 reply before i. */
  ghost predicate Last40(es: seq<Event>, k: nat, i: nat)
    requires i <= |es|
  {
    k < i && Heard40(es[k]) && forall j :: k < j < i ==> !Heard40(es[j])
  }

  predicate Within60(a: Time, b: Time) {
    -60_000_000_000 <= a - b <= 60_000_000_000
  }

  /** A TC29 selected altitude is current when event i arrives. */
  ghost predicate Under29(es: seq<Event>, i: nat)
    requires i < |es|
  {
    exists k: nat :: LastAltitude29(es, k, i) && Within60(es[i].t, es[k].t)
  }

  /** Reply i agrees within 32 ft with the current TC29 altitude of the same source. */
  ghost predicate Agrees(es: seq<Event>, i: nat)
    requires i < |es|
  {
    Heard40(es[i]) && exists k: nat :: LastAltitude29(es, k, i) && Within60(es[i].t, es[k].t) && AgreesWith(es[i].reply.value, es[k])
  }

  predicate AgreesWith(b: Bds40, e: Event)
    requires Altitude29(e)
  {
    var reported := if e.message.value.fms.Some? then b.fms else b.mcp;
    reported.Some? && SelectedBy29(e) - 32 <= reported.value <= SelectedBy29(e) + 32
  }

  /** Reply i repeats the 4,0 reply immediately before it, at most 60 s after it. */
  ghost predicate Repeats(es: seq<Event>, i: nat)
    requires i < |es|
  {
    Heard40(es[i]) && exists k: nat :: Last40(es, k, i) && es[i].t - es[k].t <= 60_000_000_000 && SameReply(es[k], es[i])
  }

  predicate SameReply(a: Event, b: Event)
    requires Heard40(a) && Heard40(b)
  {
    a.reply.value.mcp == b.reply.value.mcp && a.reply.value.fms == b.reply.value.fms && a.reply.value.qnh == b.reply.value.qnh
  }

  // --- the state remembers exactly that -----------------------------------------------------

  lemma {:induction false} Remembers29(es: seq<Event>, i: nat)
    requires i <= |es|
    ensures var n := After(es[..i]);
            && (n.tc29TS != NO_TIME <==> exists k: nat :: LastAltitude29(es, k, i))
            && (forall k: nat :: LastAltitude29(es, k, i) ==>
                  n.tc29TS == es[k].t && n.tc29SelAlt == SelectedBy29(es[k]) && n.tc29FMS == es[k].message.value.fms.Some?)
  {
    if i > 0 {
      var c := i - 1;
      Remembers29(es, c);
      AfterNext(es, c);
      if Altitude29(es[c]) {
        assert LastAltitude29(es, c, i);
      } else {
        assert forall k: nat :: LastAltitude29(es, k, i) <==> LastAltitude29(es, k, c);
      }
    }
  }

  lemma {:induction false} Remembers40(es: seq<Event>, i: nat)
    requires i <= |es|
    ensures var n := After(es[..i]);
            && (n.last40.Some? <==> exists k: nat :: Last40(es, k, i))
            && (forall k: nat :: Last40(es, k, i) ==> n.last40 == Some(ReadingOf(es[k].reply.value, es[k].t)))
  {
    if i > 0 {
      var c := i - 1;
      Remembers40(es, c);
      AfterNext(es, c);
      if Heard40(es[c]) {
        assert Last40(es, c, i);
      } else {
        assert forall k: nat :: Last40(es, k, i) <==> Last40(es, k, c);
      }
    }
  }

  /** The acceptance rule, in terms of the events alone: both directions. */
  lemma AcceptanceExact(es: seq<Event>, i: nat)
    requires i < |es| && Heard40(es[i])
    ensures var n := After(es[..i]);
            && (Tc29Current(n, es[i].t) <==> Under29(es, i))
            && (AgreesWithTc29(n, es[i].reply.value, es[i].t) <==> Agrees(es, i))
            && (SeenBefore(n, es[i].reply.value, es[i].t) <==> Repeats(es, i))
  {
    Remembers29(es, i);
    Remembers40(es, i);
    var n := After(es[..i]);
    if n.tc29TS != NO_TIME {
      var k: nat :| LastAltitude29(es, k, i);
      assert forall j: nat :: LastAltitude29(es, j, i) ==> j == k;
    }
    if n.last40.Some? {
      var k: nat :| Last40(es, k, i);
      assert forall j: nat :: Last40(es, j, i) ==> j == k;
    }
  }

  /** The repeat window has no lower bound: a reply that is older, by any time, than the one
      before it is accepted for repeating it, and its values are held. */
  lemma OlderReplyAccepted(b: Bds40, t: Time, age: Time)
    requires !Empty(b) && t != NO_TIME && age > 60_000_000_000 && t - age != NO_TIME
    ensures var es := [Reply40(Some(b), t), Reply40(Some(b), t - age)];
            && Repeats(es, 1)
            && After(es[..1]).state == UNTRACKED.state
            && After(es).state.mcp == b.mcp && After(es).state.fms == b.fms && After(es).state.qnh == b.qnh
            && After(es).ts == t - age < After(es[..1]).last40.value.ts - 60_000_000_000
  {
    var es := [Reply40(Some(b), t), Reply40(Some(b), t - age)];
    assert es[..0] == [] && es[..2] == es;
    AfterNext(es, 0);
    AfterNext(es, 1);
    assert Last40(es, 0, 1);
    assert SameReply(es[0], es[1]);
  }

  // --- provenance ----------------------------------------------------------------------------

  /** A 4,0 reply that supplies everything: a repeated one with no TC29 altitude current. */
  ghost predicate Supplies(es: seq<Event>, i: nat)
    requires i < |es|
  {
    Repeats(es, i) && !Under29(es, i)
  }

  /** The MCP altitude that event i gives: from a TC29 without an FMS altitude, or from a
      4,0 reply that supplies everything. */
  ghost function McpGiven(es: seq<Event>, i: nat): Option<int>
    requires i < |es|
  {
    if Heard29(es[i]) then (if es[i].message.value.fms.Some? then None else es[i].message.value.mcp)
    else if Supplies(es, i) then es[i].reply.value.mcp
    else None
  }

  /** The FMS altitude: from a TC29, or from a 4,0 reply that agrees or repeats. */
  ghost function FmsGiven(es: seq<Event>, i: nat): Option<int>
    requires i < |es|
  {
    if Heard29(es[i]) then es[i].message.value.fms
    else if Agrees(es, i) || Repeats(es, i) then es[i].reply.value.fms
    else None
  }

  ghost function QnhGiven(es: seq<Event>, i: nat): Option<real>
    requires i < |es|
  {
    if Heard29(es[i]) then es[i].message.value.qnh
    else if Supplies(es, i) then es[i].reply.value.qnh
    else None
  }

  /** The selected heading: from TC29 alone. */
  ghost function HeadingGiven(es: seq<Event>, i: nat): Option<real>
    requires i < |es|
  {
    if Heard29(es[i]) then es[i].message.value.heading else None
  }

  /** The age of the data: every TC29 and every accepted 4,0 reply refreshes it. */
  ghost function TimeGiven(es: seq<Event>, i: nat): Option<Time>
    requires i < |es|
  {
    if Heard29(es[i]) || Agrees(es, i) || Repeats(es, i) then Some(es[i].t) else None
  }

  /** One event, exactly: what it gives replaces what was held, and nothing else changes. */
  lemma OneEvent(es: seq<Event>, i: nat)
    requires i < |es|
    ensures var n, m := After(es[..i]), After(es[..i + 1]);
            && m.state.mcp == Or(McpGiven(es, i), n.state.mcp)
            && m.state.fms == Or(FmsGiven(es, i), n.state.fms)
            && m.state.qnh == Or(QnhGiven(es, i), n.state.qnh)
            && m.state.heading == Or(HeadingGiven(es, i), n.state.heading)
            && m.ts == (if TimeGiven(es, i).Some? then TimeGiven(es, i).value else n.ts)
  {
    AfterNext(es, i);
    if Heard40(es[i]) {
      AcceptanceExact(es, i);
    }
  }

  /** h was given last: by the latest event that gave anything, or by none. */
  ghost predicate GivenLast<T>(given: seq<Option<T>>, h: Option<T>) {
    if h.None? then forall j :: 0 <= j < |given| ==> given[j] == None
    else exists i :: 0 <= i < |given| && given[i] == h && NoneAfter(given, i)
  }

  ghost predicate NoneAfter<T>(given: seq<Option<T>>, i: int)
    requires 0 <= i
  {
    forall j :: i < j < |given| ==> given[j] == None
  }

  lemma {:induction false} LastGiven<T>(held: seq<Option<T>>, given: seq<Option<T>>)
    requires |held| == |given| + 1 && held[0] == None
    requires forall i :: 0 <= i < |given| ==> held[i + 1] == Or(given[i], held[i])
    ensures GivenLast(given, held[|given|])
  {
    var n := |given|;
    if n > 0 {
      LastGiven(held[..n], given[..n - 1]);
      if given[n - 1].None? && held[n].Some? {
        var i :| 0 <= i < n - 1 && given[..n - 1][i] == held[n - 1]
              && NoneAfter(given[..n - 1], i);
        assert given[i] == held[n];
        forall j | i < j < n
          ensures given[j] == None
        {
          assert j < n - 1 ==> given[..n - 1][j] == given[j];
        }
      } else if given[n - 1].None? {
        forall j | 0 <= j < n
          ensures given[j] == None
        {
          assert j < n - 1 ==> given[..n - 1][j] == given[j];
        }
      }
    }
  }

  function AgeOf(n: Tracking): Option<Time> {
    if n.ts == NO_TIME then None else Some(n.ts)
  }

  /** Every selected altitude, pressure setting and heading held after any run was given
      by the last event that gave one: see McpGiven, FmsGiven, QnhGiven and HeadingGiven
      for which events can. */
  lemma McpProvenance(es: seq<Event>)
    ensures GivenLast(seq(|es|, i requires 0 <= i < |es| => McpGiven(es, i)), After(es).state.mcp)
  {
    var given := seq(|es|, i requires 0 <= i < |es| => McpGiven(es, i));
    var held := seq(|es| + 1, i requires 0 <= i <= |es| => After(es[..i]).state.mcp);
    forall i | 0 <= i < |es|
      ensures held[i + 1] == Or(given[i], held[i])
    {
      OneEvent(es, i);
    }
    assert es[..|es|] == es;
    LastGiven(held, given);
  }

  lemma FmsProvenance(es: seq<Event>)
    ensures GivenLast(seq(|es|, i requires 0 <= i < |es| => FmsGiven(es, i)), After(es).state.fms)
  {
    var given := seq(|es|, i requires 0 <= i < |es| => FmsGiven(es, i));
    var held := seq(|es| + 1, i requires 0 <= i <= |es| => After(es[..i]).state.fms);
    forall i | 0 <= i < |es|
      ensures held[i + 1] == Or(given[i], held[i])
    {
      OneEvent(es, i);
    }
    assert es[..|es|] == es;
    LastGiven(held, given);
  }

  lemma QnhProvenance(es: seq<Event>)
    ensures GivenLast(seq(|es|, i requires 0 <= i < |es| => QnhGiven(es, i)), After(es).state.qnh)
  {
    var given := seq(|es|, i requires 0 <= i < |es| => QnhGiven(es, i));
    var held := seq(|es| + 1, i requires 0 <= i <= |es| => After(es[..i]).state.qnh);
    forall i | 0 <= i < |es|
      ensures held[i + 1] == Or(given[i], held[i])
    {
      OneEvent(es, i);
    }
    assert es[..|es|] == es;
    LastGiven(held, given);
  }

  lemma HeadingProvenance(es: seq<Event>)
    ensures GivenLast(seq(|es|, i requires 0 <= i < |es| => HeadingGiven(es, i)), After(es).state.heading)
  {
    var given := seq(|es|, i requires 0 <= i < |es| => HeadingGiven(es, i));
    var held := seq(|es| + 1, i requires 0 <= i <= |es| => After(es[..i]).state.heading);
    forall i | 0 <= i < |es|
      ensures held[i + 1] == Or(given[i], held[i])
    {
      OneEvent(es, i);
    }
    assert es[..|es|] == es;
    LastGiven(held, given);
  }

  lemma TimeProvenance(es: seq<Event>)
    ensures GivenLast(seq(|es|, i requires 0 <= i < |es| => TimeGiven(es, i)), AgeOf(After(es)))
  {
    var given := seq(|es|, i requires 0 <= i < |es| => TimeGiven(es, i));
    var held := seq(|es| + 1, i requires 0 <= i <= |es| => AgeOf(After(es[..i])));
    forall i | 0 <= i < |es|
      ensures held[i + 1] == Or(given[i], held[i])
    {
      OneEvent(es, i);
    }
    assert es[..|es|] == es;
    LastGiven(held, given);
  }

  // --- the autopilot modes --------------------------------------------------------------------

  /** The flags that both kinds of report carry, and those that only a TC29 does. */
  datatype Carried = Carried(vnav: bool, altHold: bool, approach: bool)
  datatype Kept = Kept(autopilot: bool, lnav: bool, tcas: bool)

  function CarriedBy(n: Tracking): Option<Carried> {
    if n.state.modes.None? then None
    else Some(Carried(n.state.modes.value.vnav, n.state.modes.value.altHold, n.state.modes.value.approach))
  }

  function KeptBy(n: Tracking): Option<Kept> {
    if n.state.modes.None? then None
    else Some(Kept(n.state.modes.value.autopilot, n.state.modes.value.lnav, n.state.modes.value.tcas))
  }

  /** The mode bits that event i gives: from a TC29, or from a 4,0 reply that supplies
      everything. */
  ghost function BitsGiven(es: seq<Event>, i: nat): Option<ModeBits>
    requires i < |es|
  {
    if Heard29(es[i]) then es[i].message.value.modes
    else if Supplies(es, i) then es[i].reply.value.modes
    else None
  }

  ghost predicate NoBitsBefore(es: seq<Event>, i: nat)
    requires i <= |es|
  {
    forall j: nat :: j < i ==> BitsGiven(es, j).None?
  }

  /** VNAV, altitude hold and approach: from every event that gives mode bits. */
  ghost function CarriedGiven(es: seq<Event>, i: nat): Option<Carried>
    requires i < |es|
  {
    match BitsGiven(es, i)
    case None => None
    case Some(m) => Some(Carried(m & 2 != 0, m & 4 != 0, m & 8 != 0))
  }

  /** Autopilot and LNAV: from a TC29, or from a 4,0 reply when it is the first event that
      gives mode bits at all. TCAS is on only when a TC29 says so. */
  ghost function KeptGiven(es: seq<Event>, i: nat): Option<Kept>
    requires i < |es|
  {
    match BitsGiven(es, i)
    case None => None
    case Some(m) =>
      if Heard29(es[i]) || NoBitsBefore(es, i)
      then Some(Kept(m & 1 != 0, m & 16 != 0, Heard29(es[i]) && es[i].message.value.tcas == Some(true)))
      else None
  }

  lemma ModesAppear(es: seq<Event>, i: nat)
    requires i < |es|
    ensures After(es[..i + 1]).state.modes.None? <==> After(es[..i]).state.modes.None? && BitsGiven(es, i).None?
  {
    AfterNext(es, i);
    if Heard40(es[i]) {
      AcceptanceExact(es, i);
    }
  }

  /** Modes are held exactly when some event gave mode bits. */
  lemma {:induction false} ModesHeld(es: seq<Event>, i: nat)
    requires i <= |es|
    ensures After(es[..i]).state.modes.None? <==> NoBitsBefore(es, i)
  {
    if i > 0 {
      ModesHeld(es, i - 1);
      ModesAppear(es, i - 1);
    }
  }

  lemma OneEventCarried(es: seq<Event>, i: nat)
    requires i < |es|
    ensures CarriedBy(After(es[..i + 1])) == Or(CarriedGiven(es, i), CarriedBy(After(es[..i])))
  {
    AfterNext(es, i);
    if Heard40(es[i]) {
      AcceptanceExact(es, i);
    }
  }

  lemma OneEventKept(es: seq<Event>, i: nat)
    requires i < |es|
    ensures KeptBy(After(es[..i + 1])) == Or(KeptGiven(es, i), KeptBy(After(es[..i])))
  {
    AfterNext(es, i);
    ModesHeld(es, i);
    if Heard40(es[i]) {
      AcceptanceExact(es, i);
    }
  }

  /** One event, exactly: the flags that it gives replace those held, and the others stay. */
  lemma OneModesEvent(es: seq<Event>, i: nat)
    requires i < |es|
    ensures CarriedBy(After(es[..i + 1])) == Or(CarriedGiven(es, i), CarriedBy(After(es[..i])))
    ensures KeptBy(After(es[..i + 1])) == Or(KeptGiven(es, i), KeptBy(After(es[..i])))
  {
    OneEventCarried(es, i);
    OneEventKept(es, i);
  }

  /** VNAV, altitude hold and approach held after any run are those of the last event that
      gave mode bits. */
  lemma CarriedProvenance(es: seq<Event>)
    ensures GivenLast(seq(|es|, i requires 0 <= i < |es| => CarriedGiven(es, i)), CarriedBy(After(es)))
  {
    var given := seq(|es|, i requires 0 <= i < |es| => CarriedGiven(es, i));
    var held := seq(|es| + 1, i requires 0 <= i <= |es| => CarriedBy(After(es[..i])));
    forall i | 0 <= i < |es|
      ensures held[i + 1] == Or(given[i], held[i])
    {
      OneModesEvent(es, i);
    }
    assert es[..|es|] == es;
    LastGiven(held, given);
  }

  /** Autopilot, LNAV and TCAS are those of the last TC29 that gave mode bits, and without one
      those of the first 4,0 reply that did. */
  lemma KeptProvenance(es: seq<Event>)
    ensures GivenLast(seq(|es|, i requires 0 <= i < |es| => KeptGiven(es, i)), KeptBy(After(es)))
  {
    var given := seq(|es|, i requires 0 <= i < |es| => KeptGiven(es, i));
    var held := seq(|es| + 1, i requires 0 <= i <= |es| => KeptBy(After(es[..i])));
    forall i | 0 <= i < |es|
      ensures held[i + 1] == Or(given[i], held[i])
    {
      OneModesEvent(es, i);
    }
    assert es[..|es|] == es;
    LastGiven(held, given);
  }

  /** While a TC29 altitude is current, a 4,0 reply changes nothing but the FMS altitude;
      and it changes that only when it agrees or repeats. */
  lemma Tc29Governs(es: seq<Event>, i: nat)
    requires i < |es| && es[i].Reply40? && Under29(es, i)
    ensures var before, after := After(es[..i]).state, After(es[..i + 1]).state;
            && after == before.(fms := after.fms)
            && (after.fms != before.fms ==> Agrees(es, i) || Repeats(es, i))
  {
    AfterNext(es, i);
    if Heard40(es[i]) {
      AcceptanceExact(es, i);
    }
  }

  predicate IsEmpty(s: NavState) {
    s.mcp.None? && s.fms.None? && s.qnh.None? && s.heading.None? && s.modes.None?
  }

  /** navCurrentLocked: whether the navigation data may still be shown. */
  predicate NavCurrent(n: Tracking, lastSeen: Time) {
    !IsEmpty(n.state) && n.ts != NO_TIME && lastSeen - n.ts <= NAV_EXPIRY
  }

  /** Event i refreshed the data last. */
  ghost predicate RefreshedLast(es: seq<Event>, i: nat)
    requires i < |es|
  {
    TimeGiven(es, i).Some? && forall j: nat :: i < j < |es| ==> TimeGiven(es, j) == None
  }

  lemma LastRefresh(es: seq<Event>)
    ensures After(es).ts == NO_TIME <==> forall i: nat :: i < |es| ==> TimeGiven(es, i).None?
    ensures forall i: nat :: i < |es| && RefreshedLast(es, i) ==> TimeGiven(es, i) == Some(After(es).ts)
    ensures After(es).ts != NO_TIME ==> exists i: nat :: i < |es| && RefreshedLast(es, i)
  {
    TimeProvenance(es);
    var given := seq(|es|, i requires 0 <= i < |es| => TimeGiven(es, i));
    assert GivenLast(given, AgeOf(After(es)));
    forall i: nat | i < |es|
      ensures given[i] == TimeGiven(es, i)
      ensures TimeGiven(es, i) != Some(NO_TIME)
    {
    }
    if After(es).ts != NO_TIME {
      var i: nat :| i < |given| && given[i] == AgeOf(After(es)) && NoneAfter(given, i);
      assert RefreshedLast(es, i);
      forall k: nat | k < |es| && RefreshedLast(es, k)
        ensures k == i
      {
      }
    }
  }

  /** Data is shown exactly while some is held and the last accepted report is at most 60 s older
      than the last message. */
  lemma ShownExact(es: seq<Event>, lastSeen: Time)
    ensures NavCurrent(After(es), lastSeen) <==>
              && After(es).state != NavState(None, None, None, None, None)
              && exists i: nat :: i < |es| && RefreshedLast(es, i) && lastSeen - es[i].t <= 60_000_000_000
  {
    LastRefresh(es);
    if After(es).ts != NO_TIME {
      var i: nat :| i < |es| && RefreshedLast(es, i);
      assert TimeGiven(es, i) == Some(es[i].t);
    }
  }

  /** The object runs exactly this machine. */
  method Replay(es: seq<Event>) returns (p: Plane)
    ensures p.View() == After(es)
  {
    p := new Plane();
    for n := 0 to |es|
      invariant fresh(p) && p.View() == After(es[..n])
    {
      AfterNext(es, n);
      match es[n]
      case Tc29(m, t) => var _ := p.SetTargetState(m, t);
      case Reply40(b, t) => var _ := p.SetBds40(b, t);
    }
    assert es[..|es|] == es;
  }
}
