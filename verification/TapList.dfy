/** The taps on the ingest stream (lib/middleware/ingest_tap.go): a doubly linked list of
    conditions that is relinked in place. */
module TapList {
  import opened Basics

  datatype Queue = Queue(subject: string)

  /** What a condition asks for: frames of one feeder, or of one aircraft, or of both; an
      empty key and address 0 ask for nothing. They go to the queue. */
  datatype Tap = Tap(queue: Queue, apiKey: string, icao: bv32)

  /** An event with the tag of its source, and the address of its frame, where it has them. */
  datatype Event = Event(tag: Option<string>, icao: Option<bv32>)

  predicate Matches(tap: Tap, fe: Option<Event>) {
    && fe.Some?
    && (tap.apiKey != "" ==> fe.value.tag == Some(tap.apiKey))
    && (tap.icao != 0 ==> fe.value.icao == Some(tap.icao))
  }

  function DeleteFirst(taps: seq<Tap>, tap: Tap): seq<Tap> {
    if taps == [] then []
    else if taps[0] == tap then taps[1..]
    else [taps[0]] + DeleteFirst(taps[1..], tap)
  }

  /** The queues that an event goes to, in the order of the taps. */
  function Destinations(taps: seq<Tap>, fe: Option<Event>): seq<Queue> {
    if taps == [] then []
    else
      var last := taps[|taps| - 1];
      Destinations(taps[..|taps| - 1], fe) + if Matches(last, fe) then [last.queue] else []
  }

  lemma {:induction false} DestinationsAppend(xs: seq<Tap>, ys: seq<Tap>, fe: Option<Event>)
    ensures Destinations(xs + ys, fe) == Destinations(xs, fe) + Destinations(ys, fe)
  {
    if ys == [] {
      assert xs + ys == xs;
    } else {
      var n := |ys| - 1;
      DestinationsAppend(xs, ys[..n], fe);
      assert (xs + ys)[..|xs| + n] == xs + ys[..n];
    }
  }

  /** What one tap more adds, wherever it stands. */
  lemma DestinationsInsert(xs: seq<Tap>, tap: Tap, ys: seq<Tap>, fe: Option<Event>)
    ensures multiset(Destinations(xs + [tap] + ys, fe)) == multiset(Destinations(xs + ys, fe)) + multiset(Destinations([tap], fe))
  {
    DestinationsAppend(xs + [tap], ys, fe);
    DestinationsAppend(xs, [tap], fe);
    DestinationsAppend(xs, ys, fe);
  }

  lemma {:induction false} DeleteFirstAt(taps: seq<Tap>, tap: Tap, k: nat)
    requires k < |taps| && taps[k] == tap && tap !in taps[..k]
    ensures DeleteFirst(taps, tap) == taps[..k] + taps[k + 1..]
  {
    if k > 0 {
      assert taps[..k][0] == taps[0];
      assert taps[1..][..k - 1] == taps[..k][1..];
      DeleteFirstAt(taps[1..], tap, k - 1);
    }
  }

  lemma {:induction false} DeleteFirstAbsent(taps: seq<Tap>, tap: Tap)
    requires tap !in taps
    ensures DeleteFirst(taps, tap) == taps
  {
    if taps != [] {
      DeleteFirstAbsent(taps[1..], tap);
    }
  }

  /** Removing takes away one equal tap, if there is one, and nothing else. */
  lemma {:induction false} RemovesOne(taps: seq<Tap>, tap: Tap)
    ensures multiset(DeleteFirst(taps, tap)) == multiset(taps) - multiset{tap}
  {
    if taps != [] {
      assert taps == [taps[0]] + taps[1..];
      RemovesOne(taps[1..], tap);
    }
  }

  lemma SplitAt(taps: seq<Tap>, k: nat)
    requires k < |taps|
    ensures taps[..k] + [taps[k]] + taps[k + 1..] == taps
  {
  }

  /** So an add and a remove of the same tap cancel out: every event goes to the same queues,
      though with an equal tap in the list not in the same order. */
  lemma AddRemoveCancels(taps: seq<Tap>, tap: Tap, fe: Option<Event>)
    ensures multiset(Destinations(DeleteFirst(taps + [tap], tap), fe)) == multiset(Destinations(taps, fe))
    ensures tap !in taps ==> DeleteFirst(taps + [tap], tap) == taps
  {
    var all := taps + [tap];
    if tap in taps {
      var k := FirstIndex(taps, tap);
      var xs, ys := taps[..k], taps[k + 1..];
      assert all[..k] == xs && all[k + 1..] == ys + [tap];
      DeleteFirstAt(all, tap, k);
      assert xs + (ys + [tap]) == xs + ys + [tap] + [];
      DestinationsInsert(xs + ys, tap, [], fe);
      assert xs + ys + [] == xs + ys;
      SplitAt(taps, k);
      DestinationsInsert(xs, tap, ys, fe);
    } else {
      DeleteFirstAt(all, tap, |taps|);
      assert all[..|taps|] + all[|taps| + 1..] == taps;
    }
  }

  function FirstIndex(taps: seq<Tap>, tap: Tap): (k: nat)
    requires tap in taps
    ensures k < |taps| && taps[k] == tap && tap !in taps[..k]
  {
    if taps[0] == tap then 0
    else
      var k := FirstIndex(taps[1..], tap);
      assert taps[..k + 1] == [taps[0]] + taps[1..][..k];
      k + 1
  }

  /** How many of the taps want an event: those whose feeder and aircraft, where they ask for one,
      are those of the event. */
  function Wanting(taps: seq<Tap>, queue: Queue, tag: Option<string>, icao: Option<bv32>): nat {
    if taps == [] then 0
    else
      var last := taps[|taps| - 1];
      Wanting(taps[..|taps| - 1], queue, tag, icao)
      + if last.queue == queue && (last.apiKey == "" || tag == Some(last.apiKey)) && (last.icao == 0 || icao == Some(last.icao))
        then 1 else 0
  }

  /** An event goes to a queue once for every tap that wants it there; no event goes nowhere. */
  lemma {:induction false} DestinationsExact(taps: seq<Tap>, queue: Queue, tag: Option<string>, icao: Option<bv32>)
    ensures multiset(Destinations(taps, Some(Event(tag, icao))))[queue] == Wanting(taps, queue, tag, icao)
    ensures Destinations(taps, None) == []
  {
    if taps != [] {
      DestinationsExact(taps[..|taps| - 1], queue, tag, icao);
    }
  }

  class Condition {
    var nextItem: Condition?
    var prevItem: Condition?
    const tap: Tap

    constructor (tap: Tap)
      ensures this.tap == tap && nextItem == null && prevItem == null
    {
      this.tap := tap;
      nextItem, prevItem := null, null;
    }

    method Match(fe: Option<Event>) returns (matches: bool)
      ensures matches <==> Matches(tap, fe)
    {
      if fe.None? {
        return false;
      }
      var isMatchAPIKey := true;
      if tap.apiKey != "" {
        if fe.value.tag.None? {
          return false;
        }
        isMatchAPIKey := fe.value.tag.value == tap.apiKey;
      }
      var isMatchIcao := true;
      if tap.icao != 0 {
        if fe.value.icao.None? {
          return false;
        }
        isMatchIcao := fe.value.icao.value == tap.icao;
      }
      return isMatchAPIKey && isMatchIcao;
    }
  }

  // --- pieces of a list --------------------------------------------------------------------

  ghost predicate Distinct(s: seq<Condition>) {
    forall i, j :: 0 <= i < j < |s| ==> s[i] != s[j]
  }

  ghost predicate Holds(s: seq<Condition>, taps: seq<Tap>) {
    |s| == |taps| && forall i :: 0 <= i < |s| ==> s[i].tap == taps[i]
  }

  function Without<T>(s: seq<T>, k: nat): seq<T>
    requires k < |s|
  {
    s[..k] + s[k + 1..]
  }

  lemma WithoutNode(s: seq<Condition>, taps: seq<Tap>, k: nat)
    requires Distinct(s) && Holds(s, taps) && k < |s|
    ensures Distinct(Without(s, k)) && Holds(Without(s, k), Without(taps, k))
  {
    var t, u := Without(s, k), Without(taps, k);
    assert forall i :: 0 <= i < k ==> t[i] == s[i] && u[i] == taps[i];
    assert forall i :: k <= i < |t| ==> t[i] == s[i + 1] && u[i] == taps[i + 1];
  }

  /** s is linked in both directions, and its ends point to what comes before and after. */
  ghost predicate Chain(s: seq<Condition>, before: Condition?, after: Condition?)
    reads s
  {
    && (forall i, j :: 0 <= i < j < |s| && j == i + 1 ==> s[i].nextItem == s[j] && s[j].prevItem == s[i])
    && (s != [] ==> s[0].prevItem == before && s[|s| - 1].nextItem == after)
  }

  ghost function First(s: seq<Condition>, otherwise: Condition?): Condition? {
    if s == [] then otherwise else s[0]
  }

  ghost function Last(s: seq<Condition>, otherwise: Condition?): Condition? {
    if s == [] then otherwise else s[|s| - 1]
  }

  lemma SplitChain(s: seq<Condition>, k: nat, before: Condition?, after: Condition?)
    requires Chain(s, before, after) && k < |s|
    ensures Chain(s[..k], before, s[k]) && Chain(s[k + 1..], s[k], after)
    ensures s[k].prevItem == Last(s[..k], before) && s[k].nextItem == First(s[k + 1..], after)
  {
    assert k > 0 ==> s[k - 1].nextItem == s[k];
    assert k + 1 < |s| ==> s[k + 1].prevItem == s[k];
  }

  lemma JoinChains(s: seq<Condition>, t: seq<Condition>, before: Condition?, after: Condition?)
    requires Chain(s, before, First(t, after)) && Chain(t, Last(s, before), after)
    ensures Chain(s + t, before, after)
  {
  }

  /** Point the end of a piece elsewhere. */
  method LinkNext(c: Condition, next: Condition?, ghost s: seq<Condition>, ghost before: Condition?)
    requires s != [] && c == s[|s| - 1] && Distinct(s) && Chain(s, before, c.nextItem)
    modifies c`nextItem
    ensures c.nextItem == next && Chain(s, before, next)
  {
    c.nextItem := next;
  }

  method LinkPrev(c: Condition, prev: Condition?, ghost s: seq<Condition>, ghost after: Condition?)
    requires s != [] && c == s[0] && Distinct(s) && Chain(s, c.prevItem, after)
    modifies c`prevItem
    ensures c.prevItem == prev && Chain(s, prev, after)
  {
    c.prevItem := prev;
  }

  lemma NewEnds(s: seq<Condition>, k: nat)
    requires Distinct(s) && Chain(s, null, null) && k < |s|
    ensures First(Without(s, k), null) == if s[0] == s[k] then s[k].nextItem else s[0]
    ensures Last(Without(s, k), null) == if s[|s| - 1] == s[k] then s[k].prevItem else s[|s| - 1]
  {
    SplitChain(s, k, null, null);
  }

  lemma PiecesApart(s: seq<Condition>, k: nat)
    requires Distinct(s) && k < |s|
    ensures Distinct(s[..k]) && Distinct(s[k + 1..])
    ensures s[k] !in s[..k] && s[k] !in s[k + 1..] && forall node :: node in s[..k] ==> node !in s[k + 1..]
  {
  }

  /** Close the gap where c was, and unlink it. */
  method Relink(c: Condition, ghost s: seq<Condition>, ghost k: nat)
    requires Distinct(s) && Chain(s, null, null) && k < |s| && s[k] == c
    modifies s
    ensures Chain(Without(s, k), null, null) && c.nextItem == null && c.prevItem == null
  {
    ghost var t, u := s[..k], s[k + 1..];
    SplitChain(s, k, null, null);
    PiecesApart(s, k);
    if c.prevItem != null {
      LinkNext(c.prevItem, c.nextItem, t, null);
    }
    if c.nextItem != null {
      LinkPrev(c.nextItem, c.prevItem, u, null);
    }
    c.nextItem := null;
    c.prevItem := null;
    JoinChains(t, u, null, null);
  }

  class IngestTap {
    var head: Condition?
    var tail: Condition?
    /** The list that this one stands for, and the nodes that hold it. */
    ghost var taps: seq<Tap>
    ghost var nodes: seq<Condition>

    constructor ()
      ensures Valid() && taps == [] && nodes == []
    {
      head, tail, taps, nodes := null, null, [], [];
    }

    /** Head, tail and both link directions. */
    ghost predicate Valid()
      reads this, nodes
    {
      && head == First(nodes, null) && tail == Last(nodes, null)
      && Distinct(nodes) && Chain(nodes, null, null)
      && Holds(nodes, taps)
    }

    lemma NextOf(k: nat)
      requires Valid() && k < |nodes|
      ensures nodes[k].tap == taps[k] && nodes[k].nextItem == if k + 1 < |nodes| then nodes[k + 1] else null
    {
      SplitChain(nodes, k, null, null);
    }

    method Append(c: Condition)
      requires Valid() && c !in nodes && c.nextItem == null && c.prevItem == null
      modifies this, c, tail
      ensures Valid() && nodes == old(nodes) + [c] && taps == old(taps) + [c.tap]
    {
      assert Chain([c], null, null);
      if head == null {
        head := c;
        tail := c;
      } else {
        LinkPrev(c, tail, [c], null);
        LinkNext(tail, c, nodes, null);
        tail := c;
      }
      JoinChains(nodes, [c], null, null);
      taps, nodes := taps + [c.tap], nodes + [c];
    }

    /** Let head and tail pass over node k. */
    method MoveEnds(cond: Condition, ghost k: nat)
      requires Valid() && k < |nodes| && nodes[k] == cond
      modifies `head, `tail
      ensures head == First(Without(nodes, k), null) && tail == Last(Without(nodes, k), null)
    {
      NewEnds(nodes, k);
      if head == cond {
        head := cond.nextItem;
      }
      if tail == cond {
        tail := cond.prevItem;
      }
    }

    /** Take node k out of the list: its neighbours are linked to each other. */
    method Unlink(cond: Condition, ghost k: nat)
      requires Valid() && k < |nodes| && nodes[k] == cond
      modifies this, nodes
      ensures Valid() && cond.nextItem == null
      ensures nodes == Without(old(nodes), k) && taps == Without(old(taps), k)
    {
      ghost var rest, others := Without(nodes, k), Without(taps, k);
      MoveEnds(cond, k);
      WithoutNode(nodes, taps, k);
      Relink(cond, nodes, k);
      nodes, taps := rest, others;
    }

    /** Only the first equal condition goes: unlinking it ends the loop. */
    method Remove(c: Option<Tap>)
      requires Valid()
      modifies this, nodes
      ensures Valid() && forall node :: node in nodes ==> node in old(nodes)
      ensures taps == if c.None? then old(taps) else DeleteFirst(old(taps), c.value)
    {
      if c.None? {
        return;
      }
      var cond := head;
      ghost var was, before := nodes, taps;
      ghost var k: nat, at: nat := 0, |taps|;
      while cond != null
        invariant Valid() && at <= |before| == |was|
        invariant at == |before| ==> taps == before && nodes == was
        invariant at == |before| ==> k <= |was| && c.value !in before[..k] && cond == if k < |was| then was[k] else null
        invariant at < |before| ==> nodes == Without(was, at) && taps == Without(before, at)
        invariant at < |before| ==> cond == null && before[at] == c.value && c.value !in before[..at]
        decreases at == |before|, |was| - k
      {
        NextOf(k);
        if cond.tap == c.value {
          Unlink(cond, k);
          at := k;
        }
        cond := cond.nextItem;
        k := k + 1;
      }
      if at < |before| {
        DeleteFirstAt(before, c.value, at);
      } else {
        DeleteFirstAbsent(before, c.value);
      }
    }

    /** Where a frame is sent to. */
    method Send(fe: Option<Event>) returns (queues: seq<Queue>)
      requires Valid()
      ensures queues == Destinations(taps, fe)
    {
      queues := [];
      var c := head;
      ghost var k := 0;
      while c != null
        invariant k <= |nodes| && c == if k < |nodes| then nodes[k] else null
        invariant queues == Destinations(taps[..k], fe)
        decreases |nodes| - k
      {
        NextOf(k);
        assert taps[..k + 1][..k] == taps[..k];
        var matches := c.Match(fe);
        if matches {
          queues := queues + [c.tap.queue];
        }
        c := c.nextItem;
        k := k + 1;
      }
      assert taps[..k] == taps;
    }
  }
}
