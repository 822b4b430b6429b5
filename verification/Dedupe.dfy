/** The frame filter of lib/dedupe/dedupe.go: a frame passes when its bytes are not
    remembered, and what it lets through it remembers for a while. */
module Dedupe {
  import opened Basics
  import opened ForgetfulMap

  const SECOND := 1_000_000_000
  const REMEMBER_FOR := 9 * SECOND

  datatype Frame = Beast(avr: seq<bv8>) | ModeS(raw: seq<bv8>) | Sbs1(line: seq<bv8>) | Unsupported(id: int)

  /** The bytes by which frames are compared: for Beast without timestamp and signal level. */
  function KeyOf(frame: Frame): Key {
    match frame
    case Beast(avr) => Text(avr)
    case ModeS(raw) => Text(raw)
    case Sbs1(line) => Text(line)
    case Unsupported(_) => Text([])
  }

  class Filter {
    const list: ForgetfulSyncMap

    constructor (bag: MarbleBag)
      requires bag.Valid()
      ensures Valid() && fresh(list) && list.bag == bag && list.contents == map[] && list.marbles == {}
    {
      list := new ForgetfulSyncMap(bag, REMEMBER_FOR, true);
    }

    ghost predicate Valid()
      reads list, list.marbles, list.bag, list.bag.free
    {
      list.oldAfter == REMEMBER_FOR && list.Valid() && list.bag.Valid()
    }

    /** None is a nil event; an event may also hold a nil frame. */
    method Handle(event: Option<Option<Frame>>, now: int) returns (passed: Option<Frame>)
      requires Valid()
      modifies list, list.bag, list.bag.free
      ensures Valid() && fresh(list.Marbles() - old(list.Marbles()))
      ensures event.None? || event.value.None? ==> passed == None && list.contents == old(list.contents)
      ensures event.Some? && event.value.Some? ==>
                var frame := event.value.value;
                && passed == (if KeyOf(frame) in old(list.contents) then None else Some(frame))
                && list.contents == AfterArrival(old(list.contents), frame, now)
    {
      if event.None? || event.value.None? {
        return None;
      }
      var key := KeyOf(event.value.value);
      var seen := list.HasKey(key);
      if seen {
        return None;
      }
      list.AddKey(key, now);
      return event.value;
    }

    /** One event of a run; the result says whether a frame passed. */
    method Take(e: Event) returns (pass: bool)
      requires Valid()
      modifies list, list.marbles, list.bag, list.bag.free
      ensures Valid() && fresh(list.Marbles() - old(list.Marbles()))
      ensures list.contents == Step(old(list.contents), e)
      ensures pass <==> e.Arrival? && KeyOf(e.frame) !in old(list.contents)
    {
      match e
      case Arrival(frame, now) =>
        var r := Handle(Some(Some(frame)), now);
        pass := r.Some?;
      case Sweep(now) =>
        var _ := list.Sweep(now);
        pass := false;
    }
  }

  // --- runs ------------------------------------------------------------------------------

  datatype Event = Arrival(frame: Frame, now: int) | Sweep(now: int)

  function AfterArrival(m: TimedMap, frame: Frame, now: int): TimedMap {
    var key := KeyOf(frame);
    if key in m || key.Empty() then m else m[key := Entry(now, Nothing)]
  }

  function After(es: seq<Event>): TimedMap {
    if |es| == 0 then map[]
    else
      Step(After(es[..|es| - 1]), es[|es| - 1])
  }

  function Step(m: TimedMap, e: Event): TimedMap {
    match e
    case Arrival(frame, now) => AfterArrival(m, frame, now)
    case Sweep(now) => Remembered(m, REMEMBER_FOR, now)
  }

  predicate Passes(es: seq<Event>, i: nat)
    requires i < |es|
  {
    es[i].Arrival? && KeyOf(es[i].frame) !in After(es[..i])
  }

  predicate Of(e: Event, key: Key) {
    e.Arrival? && KeyOf(e.frame) == key
  }

  /** A sweep between p and i came more than 9 s after p. */
  ghost predicate Forgotten(es: seq<Event>, p: nat, i: nat)
    requires p < |es| && i <= |es|
  {
    exists s :: p < s < i && es[s].Sweep? && es[s].now > es[p].now + REMEMBER_FOR
  }

  ghost predicate Holds(es: seq<Event>, key: Key, p: nat, i: nat)
    requires i <= |es|
  {
    p < i && Of(es[p], key) && Passes(es, p) && !Forgotten(es, p, i)
  }

  lemma HoldsOn(es: seq<Event>, key: Key, p: nat, c: nat)
    requires c < |es| && !(Of(es[c], key) && Passes(es, c))
    ensures Holds(es, key, p, c + 1) <==> Holds(es, key, p, c) && !(es[c].Sweep? && es[c].now > es[p].now + REMEMBER_FOR)
  {
    if p < c {
      assert Forgotten(es, p, c + 1) <==> Forgotten(es, p, c) || (es[c].Sweep? && es[c].now > es[p].now + REMEMBER_FOR);
    }
  }

  lemma {:induction false} RemembersPass(es: seq<Event>, key: Key, i: nat)
    requires i <= |es| && !key.Empty()
    ensures key in After(es[..i]) <==> exists p: nat :: Holds(es, key, p, i)
    ensures forall p: nat :: Holds(es, key, p, i) ==> After(es[..i])[key] == Entry(es[p].now, Nothing)
  {
    if i > 0 {
      var c := i - 1;
      RemembersPass(es, key, c);
      assert es[..i][..c] == es[..c] && es[..i][c] == es[c];
      if Of(es[c], key) && Passes(es, c) {
        assert Holds(es, key, c, i);
        assert forall p: nat :: Holds(es, key, p, i) && p < c ==> Holds(es, key, p, c);
      } else {
        forall p: nat
          ensures Holds(es, key, p, i) <==> Holds(es, key, p, c) && !(es[c].Sweep? && es[c].now > es[p].now + REMEMBER_FOR)
        {
          HoldsOn(es, key, p, c);
        }
        if p: nat :| Holds(es, key, p, c) {
          assert Holds(es, key, p, i) <==> key in After(es[..i]);
        }
      }
    }
  }

  /** Exactly when a frame is suppressed: one with its bytes passed before, and no sweep
      since came more than 9 s after that one. */
  lemma SuppressedExact(es: seq<Event>, i: nat)
    requires i < |es| && es[i].Arrival? && !KeyOf(es[i].frame).Empty()
    ensures Passes(es, i) <==> forall p: nat :: p < i && Of(es[p], KeyOf(es[i].frame)) && Passes(es, p) ==> Forgotten(es, p, i)
  {
    var key := KeyOf(es[i].frame);
    RemembersPass(es, key, i);
    if p: nat :| p < i && Of(es[p], key) && Passes(es, p) && !Forgotten(es, p, i) {
      assert Holds(es, key, p, i);
    }
  }

  predicate InOrder(es: seq<Event>) {
    forall i, j :: 0 <= i < j < |es| ==> es[i].now <= es[j].now
  }

  /** A duplicate never passes within 9 s. */
  lemma PassesApart(es: seq<Event>, i: nat, j: nat)
    requires InOrder(es) && i < j < |es| && Passes(es, i) && Passes(es, j)
    requires KeyOf(es[i].frame) == KeyOf(es[j].frame) && !KeyOf(es[i].frame).Empty()
    ensures es[j].now > es[i].now + 9_000_000_000
  {
    SuppressedExact(es, j);
    assert Of(es[i], KeyOf(es[j].frame));
  }

  /** The frame is of a known kind and has these bytes. */
  predicate Carries(frame: Frame, bytes: seq<bv8>) {
    match frame
    case Beast(avr) => avr == bytes
    case ModeS(raw) => raw == bytes
    case Sbs1(line) => line == bytes
    case Unsupported(_) => false
  }

  /** Of two frames with the same bytes, whatever their kinds, at most 9 s apart not both pass. */
  lemma NeverTwice(es: seq<Event>, i: nat, j: nat, bytes: seq<bv8>)
    requires InOrder(es) && i < j < |es| && es[i].Arrival? && es[j].Arrival?
    requires bytes != [] && Carries(es[i].frame, bytes) && Carries(es[j].frame, bytes)
    requires es[j].now <= es[i].now + 9_000_000_000
    ensures !(Passes(es, i) && Passes(es, j))
  {
    if Passes(es, i) && Passes(es, j) {
      PassesApart(es, i, j);
    }
  }

  /** And a frame that is the first with its bytes does pass. */
  lemma FirstPasses(es: seq<Event>, i: nat, bytes: seq<bv8>)
    requires i < |es| && es[i].Arrival? && bytes != [] && Carries(es[i].frame, bytes)
    requires forall j :: 0 <= j < i && es[j].Arrival? ==> !Carries(es[j].frame, bytes)
    ensures Passes(es, i)
  {
    SuppressedExact(es, i);
    forall p: nat | p < i && Of(es[p], KeyOf(es[i].frame))
      ensures false
    {
      assert Carries(es[p].frame, bytes);
    }
  }

  /** At every event, the last sweep or the start was at most this long ago. */
  ghost predicate SweptEvery(es: seq<Event>, interval: int, start: int) {
    forall i :: 0 <= i < |es| ==> start <= es[i].now && (es[i].now <= start + interval || SweptBefore(es, interval, i))
  }

  ghost predicate SweptBefore(es: seq<Event>, interval: int, i: int)
    requires 0 <= i < |es|
  {
    exists s :: 0 <= s < i && es[s].Sweep? && es[i].now <= es[s].now + interval
  }

  /** Nothing is suppressed for long: a suppressed frame follows a frame with the same bytes that
      passed at most 9 s and one interval between sweeps before; with a sweep every 3 s, 12 s. */
  lemma SuppressedFollowsPass(es: seq<Event>, interval: int, start: int, i: nat)
    requires InOrder(es) && 0 <= interval && SweptEvery(es, interval, start)
    requires i < |es| && es[i].Arrival? && !Passes(es, i) && !KeyOf(es[i].frame).Empty()
    ensures exists p: nat :: p < i && Of(es[p], KeyOf(es[i].frame)) && Passes(es, p) && es[i].now <= es[p].now + 9_000_000_000 + interval
    ensures interval == 3_000_000_000 ==>
              exists p: nat :: p < i && Of(es[p], KeyOf(es[i].frame)) && Passes(es, p) && es[i].now <= es[p].now + 12_000_000_000
  {
    SuppressedExact(es, i);
    var p: nat :| p < i && Of(es[p], KeyOf(es[i].frame)) && Passes(es, p) && !Forgotten(es, p, i);
    assert es[i].now <= es[p].now + REMEMBER_FOR + interval;
  }

  /** Frames without bytes, and frames of other kinds, always pass. */
  lemma EmptyPasses(es: seq<Event>, i: nat)
    requires i < |es| && es[i].Arrival? && KeyOf(es[i].frame).Empty()
    ensures Passes(es, i)
  {
    NoEmptyKey(es[..i]);
  }

  /** That is a frame of a known kind with no bytes, or one of any other kind. */
  lemma BareFramePasses(es: seq<Event>, i: nat)
    requires i < |es| && es[i].Arrival? && (Carries(es[i].frame, []) || es[i].frame.Unsupported?)
    ensures Passes(es, i)
  {
    EmptyPasses(es, i);
  }

  lemma {:induction false} NoEmptyKey(es: seq<Event>)
    ensures forall k :: k in After(es) ==> !k.Empty()
  {
    if |es| > 0 {
      NoEmptyKey(es[..|es| - 1]);
    }
  }

  /** The filter runs exactly this machine. */
  method Run(es: seq<Event>) returns (passed: seq<bool>)
    ensures |passed| == |es| && forall i :: 0 <= i < |es| && es[i].Arrival? ==> passed[i] == Passes(es, i)
  {
    var bag := new MarbleBag();
    var filter := new Filter(bag);
    passed := [];
    for n := 0 to |es|
      invariant filter.Valid() && fresh(filter.list) && fresh(filter.list.bag) && fresh(filter.list.Marbles())
      invariant filter.list.contents == After(es[..n])
      invariant |passed| == n && forall i :: 0 <= i < n && es[i].Arrival? ==> passed[i] == Passes(es, i)
    {
      assert es[..n + 1][..n] == es[..n];
      var pass := filter.Take(es[n]);
      passed := passed + [pass];
    }
    assert es[..|es|] == es;
  }
}
