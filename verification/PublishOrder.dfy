/** What workers that publish after they have unlocked put on the feed, and in which order:
    every write gets a ticket, and every message on the feed carries that of its write. */
module PublishOrder {
  import opened Basics
  import opened PlaneMerge
  import opened Router
  import opened LockedMerge

  /** The publications of every write in the order of the writes, the write that each worker
      is publishing, and the write that each message on the feed comes from. */
  datatype Trace = Trace(writes: seq<seq<Publication>>, held: map<nat, nat>, tickets: seq<nat>)

  predicate Publishes(p: Phase) {
    p.Written? || p.Publishing?
  }

  function TraceStep(ops: Ops, s: System, a: Action, tr: Trace): Trace {
    if !Enabled(ops, s, a) then tr
    else
      match a
      case Write(w) =>
        Trace(tr.writes + [PhaseOf(Next(ops, s, a), w).pending], tr.held[w := |tr.writes|], tr.tickets)
      case Publish(w) =>
        if |PhaseOf(s, w).pending| == 0 || w !in tr.held then tr else tr.(tickets := tr.tickets + [tr.held[w]])
      case _ => tr
  }

  function TraceOf(ops: Ops, acts: seq<Action>): Trace {
    if |acts| == 0 then Trace([], map[], [])
    else
      var before := acts[..|acts| - 1];
      TraceStep(ops, RunAll(ops, before), acts[|acts| - 1], TraceOf(ops, before))
  }

  /** The messages on the feed that come from write t. */
  function Part(feed: seq<Publication>, tickets: seq<nat>, t: nat): (ps: seq<Publication>)
    requires |feed| == |tickets|
    ensures |ps| <= |feed|
  {
    if |feed| == 0 then []
    else
      var n := |feed| - 1;
      Part(feed[..n], tickets[..n], t) + if tickets[n] == t then [feed[n]] else []
  }

  lemma PartNext(feed: seq<Publication>, tickets: seq<nat>, p: Publication, t: nat, u: nat)
    requires |feed| == |tickets|
    ensures Part(feed + [p], tickets + [t], u) == Part(feed, tickets, u) + if t == u then [p] else []
  {
    assert (feed + [p])[..|feed|] == feed && (tickets + [t])[..|tickets|] == tickets;
  }

  lemma {:induction false} PartAbsent(feed: seq<Publication>, tickets: seq<nat>, t: nat)
    requires |feed| == |tickets| && t !in tickets
    ensures Part(feed, tickets, t) == []
  {
    if |feed| > 0 {
      var n := |feed| - 1;
      assert forall x :: x in tickets[..n] ==> x in tickets;
      PartAbsent(feed[..n], tickets[..n], t);
    }
  }

  lemma {:induction false} PartPrefix(feed: seq<Publication>, tickets: seq<nat>, i: nat, t: nat)
    requires |feed| == |tickets| && i <= |feed|
    ensures Part(feed[..i], tickets[..i], t) <= Part(feed, tickets, t)
  {
    if i < |feed| {
      var n := |feed| - 1;
      PartPrefix(feed[..n], tickets[..n], i, t);
      assert feed[..n][..i] == feed[..i] && tickets[..n][..i] == tickets[..i];
    } else {
      assert feed[..i] == feed && tickets[..i] == tickets;
    }
  }

  /** A message on the feed is the next of its write. */
  lemma PartAt(feed: seq<Publication>, tickets: seq<nat>, i: nat)
    requires |feed| == |tickets| && i < |feed|
    ensures var t := tickets[i];
            var k := |Part(feed[..i], tickets[..i], t)|;
            k < |Part(feed, tickets, t)| && Part(feed, tickets, t)[k] == feed[i]
  {
    var t := tickets[i];
    assert feed[..i + 1] == feed[..i] + [feed[i]] && tickets[..i + 1] == tickets[..i] + [tickets[i]];
    PartNext(feed[..i], tickets[..i], feed[i], t, t);
    PartPrefix(feed, tickets, i + 1, t);
  }

  /** And every message of a write that is out stands somewhere on the feed. */
  lemma {:induction false} PartFound(feed: seq<Publication>, tickets: seq<nat>, t: nat, k: nat) returns (i: nat)
    requires |feed| == |tickets| && k < |Part(feed, tickets, t)|
    ensures i < |feed| && tickets[i] == t && feed[i] == Part(feed, tickets, t)[k]
    ensures |Part(feed[..i], tickets[..i], t)| == k
  {
    var n := |feed| - 1;
    if k < |Part(feed[..n], tickets[..n], t)| {
      i := PartFound(feed[..n], tickets[..n], t, k);
      assert feed[..n][..i] == feed[..i] && tickets[..n][..i] == tickets[..i];
    } else {
      i := n;
    }
  }

  // --- nothing is lost, doubled or reordered within a write ---------------------------------

  ghost predicate Held(s: System, tr: Trace, w: nat, t: nat) {
    Publishes(PhaseOf(s, w)) && w in tr.held && tr.held[w] == t
  }

  /** The worker that made write t has published all of it. */
  ghost predicate Finished(s: System, tr: Trace, t: nat) {
    forall w: nat :: !Held(s, tr, w, t)
  }

  /** What is out of a worker's write, and what is still to come, is the write. */
  ghost predicate WorkerOk(s: System, tr: Trace, w: nat)
    requires |tr.tickets| == |s.feed|
  {
    Publishes(PhaseOf(s, w)) ==>
      && w in tr.held && tr.held[w] < |tr.writes|
      && Part(s.feed, tr.tickets, tr.held[w]) + PhaseOf(s, w).pending == tr.writes[tr.held[w]]
  }

  ghost predicate WriteOk(s: System, tr: Trace, t: nat)
    requires |tr.tickets| == |s.feed| && t < |tr.writes|
  {
    Finished(s, tr, t) ==> Part(s.feed, tr.tickets, t) == tr.writes[t]
  }

  ghost predicate TraceInv(s: System, tr: Trace) {
    && |tr.tickets| == |s.feed|
    && (forall t :: t in tr.tickets ==> t < |tr.writes|)
    && (forall w: nat :: WorkerOk(s, tr, w))
    && (forall v: nat, w: nat, t: nat :: Held(s, tr, v, t) && Held(s, tr, w, t) ==> v == w)
    && (forall t: nat :: t < |tr.writes| ==> WriteOk(s, tr, t))
  }

  /** A step that leaves the feed and every worker's publications alone. */
  lemma QuietStep(s: System, t: System, tr: Trace)
    requires TraceInv(s, tr) && t.feed == s.feed
    requires forall w: nat :: Publishes(PhaseOf(t, w)) == Publishes(PhaseOf(s, w))
                           && (Publishes(PhaseOf(s, w)) ==> PhaseOf(t, w).pending == PhaseOf(s, w).pending)
    ensures TraceInv(t, tr)
  {
    forall w: nat, x: nat
      ensures Held(t, tr, w, x) == Held(s, tr, w, x)
    {
    }
    forall w: nat
      ensures WorkerOk(t, tr, w)
    {
      assert WorkerOk(s, tr, w);
    }
    forall x: nat | x < |tr.writes|
      ensures WriteOk(t, tr, x)
    {
      assert WriteOk(s, tr, x);
      assert Finished(t, tr, x) ==> Finished(s, tr, x);
    }
  }

  lemma WriteKeepsTrace(s: System, t: System, tr: Trace, w: nat)
    requires TraceInv(s, tr) && t.feed == s.feed
    requires !Publishes(PhaseOf(s, w)) && PhaseOf(t, w).Written?
    requires forall v: nat :: v != w ==> PhaseOf(t, v) == PhaseOf(s, v)
    ensures TraceInv(t, Trace(tr.writes + [PhaseOf(t, w).pending], tr.held[w := |tr.writes|], tr.tickets))
  {
    var n := |tr.writes|;
    var tr' := Trace(tr.writes + [PhaseOf(t, w).pending], tr.held[w := n], tr.tickets);
    PartAbsent(s.feed, tr.tickets, n);
    forall v: nat
      ensures !Held(s, tr, v, n)
    {
      assert WorkerOk(s, tr, v);
    }
    forall v: nat, x: nat
      ensures Held(t, tr', v, x) == if v == w then x == n else Held(s, tr, v, x)
    {
    }
    forall v: nat
      ensures WorkerOk(t, tr', v)
    {
      assert WorkerOk(s, tr, v);
    }
    forall x: nat | x < n + 1
      ensures WriteOk(t, tr', x)
    {
      if x < n {
        assert WriteOk(s, tr, x);
        assert Finished(t, tr', x) ==> Finished(s, tr, x) by {
          if Finished(t, tr', x) {
            forall v: nat
              ensures !Held(s, tr, v, x)
            {
              assert !Held(t, tr', v, x);
            }
          }
        }
      } else {
        assert Held(t, tr', w, x);
      }
    }
  }

  lemma PublishKeepsTrace(s: System, t: System, tr: Trace, w: nat)
    requires TraceInv(s, tr) && PhaseOf(s, w).Publishing? && |PhaseOf(s, w).pending| > 0
    requires w in tr.held && t.feed == s.feed + [PhaseOf(s, w).pending[0]]
    requires PhaseOf(t, w) == Publishing(PhaseOf(s, w).pending[1..])
    requires forall v: nat :: v != w ==> PhaseOf(t, v) == PhaseOf(s, v)
    ensures TraceInv(t, tr.(tickets := tr.tickets + [tr.held[w]]))
  {
    var x, p := tr.held[w], PhaseOf(s, w).pending[0];
    var tr' := tr.(tickets := tr.tickets + [x]);
    assert WorkerOk(s, tr, w) && Held(s, tr, w, x);
    forall v: nat, y: nat
      ensures Held(t, tr', v, y) == Held(s, tr, v, y)
    {
    }
    forall v: nat
      ensures WorkerOk(t, tr', v)
    {
      assert WorkerOk(s, tr, v);
      if Publishes(PhaseOf(s, v)) {
        assert Held(s, tr, v, tr.held[v]);
        PartNext(s.feed, tr.tickets, p, x, tr.held[v]);
        if v == w {
          assert [p] + PhaseOf(s, w).pending[1..] == PhaseOf(s, w).pending;
        }
      }
    }
    forall y: nat | y < |tr.writes|
      ensures WriteOk(t, tr', y)
    {
      assert WriteOk(s, tr, y);
      PartNext(s.feed, tr.tickets, p, x, y);
      if y == x {
        assert Held(t, tr', w, y);
      } else {
        assert Finished(t, tr', y) ==> Finished(s, tr, y);
      }
    }
  }

  lemma IdleKeepsTrace(s: System, t: System, tr: Trace, w: nat)
    requires TraceInv(s, tr) && t.feed == s.feed && PhaseOf(s, w) == Publishing([]) && PhaseOf(t, w).Idle?
    requires forall v: nat :: v != w ==> PhaseOf(t, v) == PhaseOf(s, v)
    ensures TraceInv(t, tr)
  {
    forall v: nat, y: nat
      ensures Held(t, tr, v, y) == (v != w && Held(s, tr, v, y))
    {
    }
    forall v: nat
      ensures WorkerOk(t, tr, v)
    {
      assert WorkerOk(s, tr, v);
    }
    assert WorkerOk(s, tr, w);
    forall y: nat | y < |tr.writes|
      ensures WriteOk(t, tr, y)
    {
      assert WriteOk(s, tr, y);
      if y != tr.held[w] && Finished(t, tr, y) {
        forall v: nat
          ensures !Held(s, tr, v, y)
        {
          assert !Held(t, tr, v, y);
        }
      }
    }
  }

  lemma StepKeepsTrace(ops: Ops, s: System, a: Action, tr: Trace)
    requires TraceInv(s, tr)
    ensures TraceInv(Next(ops, s, a), TraceStep(ops, s, a, tr))
  {
    if Enabled(ops, s, a) {
      var t := Next(ops, s, a);
      match a
      case Write(w) => WriteKeepsTrace(s, t, tr, w);
      case Publish(w) =>
        assert WorkerOk(s, tr, w);
        if |PhaseOf(s, w).pending| == 0 {
          IdleKeepsTrace(s, t, tr, w);
        } else {
          PublishKeepsTrace(s, t, tr, w);
        }
      case _ => QuietStep(s, t, tr);
    }
  }

  /** In every interleaving, what is on the feed from a write, followed by what its worker has
      still to publish, is what the write had to publish. */
  lemma {:induction false} TraceAlways(ops: Ops, acts: seq<Action>)
    ensures TraceInv(RunAll(ops, acts), TraceOf(ops, acts))
  {
    if |acts| > 0 {
      var before := acts[..|acts| - 1];
      TraceAlways(ops, before);
      StepKeepsTrace(ops, RunAll(ops, before), acts[|acts| - 1], TraceOf(ops, before));
    }
  }

  lemma PartShorter(feed: seq<Publication>, tickets: seq<nat>, j: nat, i: nat, t: nat)
    requires |feed| == |tickets| && j <= i <= |feed|
    ensures |Part(feed[..j], tickets[..j], t)| <= |Part(feed[..i], tickets[..i], t)|
  {
    PartPrefix(feed[..i], tickets[..i], j, t);
    assert feed[..i][..j] == feed[..j] && tickets[..i][..j] == tickets[..j];
  }

  lemma LaterOnFeed(feed: seq<Publication>, tickets: seq<nat>, i: nat, l: nat) returns (j: nat)
    requires |feed| == |tickets| && i < |feed|
    requires |Part(feed[..i], tickets[..i], tickets[i])| < l < |Part(feed, tickets, tickets[i])|
    ensures i < j < |feed| && feed[j] == Part(feed, tickets, tickets[i])[l] && tickets[j] == tickets[i]
  {
    var t := tickets[i];
    j := PartFound(feed, tickets, t, l);
    if j <= i {
      PartShorter(feed, tickets, j, i, t);
    }
  }

  /** Within a write the order is kept: what comes after a message in its write comes after it
      on the feed, though not necessarily next, once the worker is done. */
  lemma FollowsOnFeed(s: System, tr: Trace, i: nat) returns (k: nat)
    requires TraceInv(s, tr) && i < |s.feed| && Finished(s, tr, tr.tickets[i])
    ensures tr.tickets[i] < |tr.writes|
    ensures var ps := tr.writes[tr.tickets[i]];
            && k < |ps| && ps[k] == s.feed[i]
            && forall l: nat :: k < l < |ps| ==> OnFeedAfter(s, tr, i, ps[l])
  {
    var t := tr.tickets[i];
    assert t in tr.tickets && WriteOk(s, tr, t);
    var ps := tr.writes[t];
    k := |Part(s.feed[..i], tr.tickets[..i], t)|;
    PartAt(s.feed, tr.tickets, i);
    forall l: nat | k < l < |ps|
      ensures OnFeedAfter(s, tr, i, ps[l])
    {
      var j := LaterOnFeed(s.feed, tr.tickets, i, l);
    }
  }

  /** p comes after message i, from the same write. */
  ghost predicate OnFeedAfter(s: System, tr: Trace, i: nat, p: Publication)
    requires |tr.tickets| == |s.feed| && i < |s.feed|
  {
    exists j :: i < j < |s.feed| && s.feed[j] == p && tr.tickets[j] == tr.tickets[i]
  }
}
