/** Selected altitudes, pressure setting, heading and autopilot modes of an aircraft, and
    the rules by which reports of them are accepted (lib/tracker/nav.go). */
module NavTracking {
  import opened Basics

  /** Nanoseconds; 0 stands for the zero time, which no report carries. */
  type Time = int

  const NO_TIME: Time := 0
  const NAV_EXPIRY: Time := 60_000_000_000
  const SELECTED_ALTITUDE_TOLERANCE := 32

  /** The decoder's mode bits. */
  type ModeBits = bv8

  const MODE_AUTOPILOT: ModeBits := 1
  const MODE_VNAV: ModeBits := 2
  const MODE_ALT_HOLD: ModeBits := 4
  const MODE_APPROACH: ModeBits := 8
  const MODE_LNAV: ModeBits := 16

  datatype NavModes = NavModes(autopilot: bool, vnav: bool, lnav: bool, altHold: bool, approach: bool, tcas: bool)

  /** A TC29 target state message; None is a field it does not carry. */
  datatype TargetState = TargetState(mcp: Option<int>, fms: Option<int>, qnh: Option<real>, heading: Option<real>,
                                     modes: Option<ModeBits>, tcas: Option<bool>)

  /** An inferred BDS 4,0 reply. */
  datatype Bds40 = Bds40(mcp: Option<int>, fms: Option<int>, qnh: Option<real>, modes: Option<ModeBits>)

  datatype NavState = NavState(mcp: Option<int>, fms: Option<int>, qnh: Option<real>, heading: Option<real>,
                               modes: Option<NavModes>)

  /** A 4,0 reading kept for the seen-twice rule. */
  datatype Reading = Reading(mcp: Option<int>, fms: Option<int>, qnh: Option<real>, ts: Time)

  datatype Tracking = Tracking(state: NavState, ts: Time, tc29TS: Time, tc29SelAlt: int, tc29FMS: bool,
                               last40: Option<Reading>)

  const UNTRACKED := Tracking(NavState(None, None, None, None, None), NO_TIME, NO_TIME, 0, false, None)

  function ModesFrom(m: ModeBits): NavModes {
    NavModes(m & MODE_AUTOPILOT != 0, m & MODE_VNAV != 0, m & MODE_LNAV != 0, m & MODE_ALT_HOLD != 0,
             m & MODE_APPROACH != 0, false)
  }

  /** TC29 says separately whether TCAS is operational. */
  function ModesFrom29(m: ModeBits, tcas: Option<bool>): NavModes {
    var modes := ModesFrom(m);
    if tcas.Some? then modes.(tcas := tcas.value) else modes
  }

  /** A field that is not carried leaves the old value. */
  function Or<T>(reported: Option<T>, old': Option<T>): Option<T> {
    if reported.Some? then reported else old'
  }

  function Near(a: int, b: int, tolerance: int): (r: bool)
    ensures r <==> b - tolerance <= a <= b + tolerance
  {
    var d := a - b;
    (if d < 0 then -d else d) <= tolerance
  }

  function TakeTargetState(n: Tracking, m: TargetState, t: Time): Tracking {
    var modes := if m.modes.None? then n.state.modes else Some(ModesFrom29(m.modes.value, m.tcas));
    n.(state := NavState(if m.fms.Some? then n.state.mcp else Or(m.mcp, n.state.mcp),
                         Or(m.fms, n.state.fms), Or(m.qnh, n.state.qnh), Or(m.heading, n.state.heading), modes),
       ts := t,
       tc29TS := if m.fms.Some? || m.mcp.Some? then t else n.tc29TS,
       tc29SelAlt := if m.fms.Some? then m.fms.value else if m.mcp.Some? then m.mcp.value else n.tc29SelAlt,
       tc29FMS := if m.fms.Some? then true else if m.mcp.Some? then false else n.tc29FMS)
  }

  predicate Empty(b: Bds40) {
    b.mcp.None? && b.fms.None? && b.qnh.None?
  }

  predicate Tc29Current(n: Tracking, t: Time) {
    n.tc29TS != NO_TIME && -NAV_EXPIRY <= t - n.tc29TS <= NAV_EXPIRY
  }

  predicate AgreesWithTc29(n: Tracking, b: Bds40, t: Time) {
    Tc29Current(n, t)
    && if n.tc29FMS then b.fms.Some? && Near(b.fms.value, n.tc29SelAlt, SELECTED_ALTITUDE_TOLERANCE)
       else b.mcp.Some? && Near(b.mcp.value, n.tc29SelAlt, SELECTED_ALTITUDE_TOLERANCE)
  }

  function ReadingOf(b: Bds40, t: Time): Reading {
    Reading(b.mcp, b.fms, b.qnh, t)
  }

  predicate SameValues(r: Reading, o: Reading) {
    r.mcp == o.mcp && r.fms == o.fms && r.qnh == o.qnh
  }

  predicate SeenBefore(n: Tracking, b: Bds40, t: Time) {
    n.last40.Some? && t - n.last40.value.ts <= NAV_EXPIRY && SameValues(n.last40.value, ReadingOf(b, t))
  }

  predicate Accepts(n: Tracking, b: Bds40, t: Time) {
    AgreesWithTc29(n, b, t) || SeenBefore(n, b, t)
  }

  /** 4,0 carries three of the modes; the others stay as they were. */
  function ModesFrom40(m: ModeBits, before: Option<NavModes>): NavModes {
    var modes := ModesFrom(m);
    if before.None? then modes
    else modes.(autopilot := before.value.autopilot, lnav := before.value.lnav, tcas := before.value.tcas)
  }

  function TakeBds40(n: Tracking, b: Bds40, t: Time): Tracking {
    if Empty(b) then n
    else
      var seen := n.(last40 := Some(ReadingOf(b, t)));
      if !Accepts(n, b, t) then seen
      else if Tc29Current(n, t) then
        seen.(state := n.state.(fms := Or(b.fms, n.state.fms)), ts := t)
      else
        seen.(state := NavState(Or(b.mcp, n.state.mcp), Or(b.fms, n.state.fms), Or(b.qnh, n.state.qnh), n.state.heading,
                                if b.modes.Some? then Some(ModesFrom40(b.modes.value, n.state.modes)) else n.state.modes),
              ts := t)
  }

  class Plane {
    var state: NavState
    var ts: Time
    var tc29TS: Time
    var tc29SelAlt: int
    var tc29FMS: bool
    var last40: Option<Reading>

    constructor ()
      ensures View() == UNTRACKED
    {
      state := NavState(None, None, None, None, None);
      ts, tc29TS, tc29SelAlt, tc29FMS, last40 := NO_TIME, NO_TIME, 0, false, None;
    }

    function View(): Tracking
      reads this
    {
      Tracking(state, ts, tc29TS, tc29SelAlt, tc29FMS, last40)
    }

    /** setTargetState; the result says whether any value changed. */
    method SetTargetState(m: Option<TargetState>, t: Time) returns (changed: bool)
      modifies this
      ensures View() == if m.None? || t == NO_TIME then old(View()) else TakeTargetState(old(View()), m.value, t)
      ensures changed <==> state != old(state)
    {
      if m.None? || t == NO_TIME {
        return false;
      }
      var ts := m.value;
      var mcp, fms, qnh, heading, modes := state.mcp, state.fms, state.qnh, state.heading, state.modes;
      changed := false;
      if ts.fms.Some? {
        changed := fms != ts.fms || changed;
        fms := ts.fms;
        tc29TS, tc29SelAlt, tc29FMS := t, ts.fms.value, true;
      } else if ts.mcp.Some? {
        changed := mcp != ts.mcp || changed;
        mcp := ts.mcp;
        tc29TS, tc29SelAlt, tc29FMS := t, ts.mcp.value, false;
      }
      if ts.qnh.Some? {
        changed := qnh != ts.qnh || changed;
        qnh := ts.qnh;
      }
      if ts.heading.Some? {
        changed := heading != ts.heading || changed;
        heading := ts.heading;
      }
      if ts.modes.Some? {
        var reported := ModesFrom29(ts.modes.value, ts.tcas);
        changed := modes != Some(reported) || changed;
        modes := Some(reported);
      }
      state, this.ts := NavState(mcp, fms, qnh, heading, modes), t;
    }

    /** setBds40 */
    method SetBds40(m: Option<Bds40>, t: Time) returns (changed: bool)
      modifies this
      ensures View() == if m.None? || t == NO_TIME then old(View()) else TakeBds40(old(View()), m.value, t)
      ensures changed <==> state != old(state)
    {
      if m.None? || t == NO_TIME {
        return false;
      }
      var b := m.value;
      if b.mcp.None? && b.fms.None? && b.qnh.None? {
        return false;
      }
      var reading := Reading(b.mcp, b.fms, b.qnh, t);
      var tc29Current := tc29TS != NO_TIME && t - tc29TS <= NAV_EXPIRY && t - tc29TS >= -NAV_EXPIRY;
      var accepted := false;
      if tc29Current {
        if tc29FMS {
          accepted := b.fms.Some? && Near(b.fms.value, tc29SelAlt, SELECTED_ALTITUDE_TOLERANCE);
        } else {
          accepted := b.mcp.Some? && Near(b.mcp.value, tc29SelAlt, SELECTED_ALTITUDE_TOLERANCE);
        }
      }
      if !accepted && last40.Some? && t - last40.value.ts <= NAV_EXPIRY && SameValues(last40.value, reading) {
        accepted := true;
      }
      last40 := Some(reading);
      if !accepted {
        return false;
      }
      var mcp, fms, qnh, modes := state.mcp, state.fms, state.qnh, state.modes;
      changed := false;
      if b.fms.Some? {
        changed := fms != b.fms || changed;
        fms := b.fms;
      }
      if !tc29Current {
        if b.mcp.Some? {
          changed := mcp != b.mcp || changed;
          mcp := b.mcp;
        }
        if b.qnh.Some? {
          changed := qnh != b.qnh || changed;
          qnh := b.qnh;
        }
        if b.modes.Some? {
          var reported := ModesFrom40(b.modes.value, modes);
          changed := modes != Some(reported) || changed;
          modes := Some(reported);
        }
      }
      state, ts := NavState(mcp, fms, qnh, state.heading, modes), t;
    }
  }
}
