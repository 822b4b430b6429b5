/** The bounded list of recent frames of an aircraft (lib/tracker/frame-list.go): newest
    first, doubly linked, and forgetting at the tail. */
module FrameList {
  import opened Basics

  datatype Frame = Frame(id: int)

  /** The specification, oldest frame first. */
  function Pushed(s: seq<Frame>, f: Frame, capacity: int): seq<Frame> {
    var all := s + [f];
    if |all| > capacity then all[1..] else all
  }

  datatype Call = Pushing(f: Frame) | Popping | Unshifting

  function After(calls: seq<Call>, capacity: int): seq<Frame> {
    if |calls| == 0 then []
    else
      var s := After(calls[..|calls| - 1], capacity);
      match calls[|calls| - 1]
      case Pushing(f) => Pushed(s, f, capacity)
      case Popping => if s == [] then [] else s[..|s| - 1]
      case Unshifting => if s == [] then [] else s[1..]
  }

  /** The list never grows beyond its capacity, whatever is called. */
  lemma {:induction false} Bounded(calls: seq<Call>, capacity: int)
    ensures |After(calls, capacity)| <= if capacity < 0 then 0 else capacity
  {
    if |calls| > 0 {
      Bounded(calls[..|calls| - 1], capacity);
    }
  }

  function Pushes(fs: seq<Frame>): seq<Call> {
    seq(|fs|, i requires 0 <= i < |fs| => Pushing(fs[i]))
  }

  /** What is lost is the oldest: after any number of pushes, it holds the newest frames. */
  lemma {:induction false} KeepsNewest(fs: seq<Frame>, capacity: nat)
    ensures After(Pushes(fs), capacity) == if |fs| <= capacity then fs else fs[|fs| - capacity..]
  {
    if |fs| > 0 {
      var n := |fs| - 1;
      KeepsNewest(fs[..n], capacity);
      assert Pushes(fs)[..n] == Pushes(fs[..n]);
      assert fs == fs[..n] + [fs[n]];
    }
  }

  class LossyFrame {
    const item: Frame
    var next: LossyFrame?
    var prev: LossyFrame?
    ghost const serial: int

    constructor (item: Frame, next: LossyFrame?, ghost serial: int)
      ensures this.item == item && this.next == next && prev == null && this.serial == serial
    {
      this.item, this.next, this.prev, this.serial := item, next, null, serial;
    }
  }

  ghost predicate Holds(nodes: seq<LossyFrame>, contents: seq<Frame>, made: set<LossyFrame>) {
    && |nodes| == |contents|
    && forall i :: 0 <= i < |nodes| ==>
         nodes[i] in made && nodes[i].item == contents[i] && nodes[i].serial == nodes[0].serial + i
  }

  /** Linked in both directions, oldest frame first. */
  ghost predicate Chain(nodes: seq<LossyFrame>)
    reads nodes
  {
    && (forall i, j :: 0 <= i < j < |nodes| && j == i + 1 ==> nodes[i].prev == nodes[j] && nodes[j].next == nodes[i])
    && (nodes != [] ==> nodes[0].next == null)
  }

  lemma Neighbours(nodes: seq<LossyFrame>, i: nat)
    requires Chain(nodes) && i < |nodes|
    ensures nodes[i].next == if i == 0 then null else nodes[i - 1]
    ensures i + 1 < |nodes| ==> nodes[i].prev == nodes[i + 1]
  {
  }

  lemma HoldsRest(nodes: seq<LossyFrame>, contents: seq<Frame>, made: set<LossyFrame>)
    requires Holds(nodes, contents, made) && nodes != []
    ensures Holds(nodes[1..], contents[1..], made)
    ensures forall i :: 0 < i < |nodes| ==> nodes[i] != nodes[0]
  {
    assert |nodes| > 1 ==> nodes[1].serial == nodes[0].serial + 1;
  }

  /** Cut off the oldest frame: the node that it points back to is now the last one. */
  method Detach(t: LossyFrame, ghost nodes: seq<LossyFrame>)
    requires nodes != [] && t == nodes[0] && Chain(nodes) && forall i :: 0 < i < |nodes| ==> nodes[i] != t
    modifies t, if t.prev == null then {} else {t.prev}
    ensures Chain(nodes[1..])
    ensures forall node :: old(allocated(node)) && node != t ==> node.prev == old(node.prev)
  {
    Neighbours(nodes, 0);
    if t.prev != null {
      t.prev.next := null;
    }
    t.prev := null;
    t.next := null;
  }

  class LossyFrameList {
    var head: LossyFrame?
    var tail: LossyFrame?
    const capacity: int
    var numItems: int
    /** The list that this one stands for, oldest frame first. */
    ghost var contents: seq<Frame>
    ghost var nodes: seq<LossyFrame>
    /** Every node it ever made: the head may still point back at one that was popped. */
    ghost var made: set<LossyFrame>

    constructor (capacity: int)
      ensures Valid() && contents == [] && this.capacity == capacity && made == {}
    {
      this.capacity := capacity;
      head, tail, numItems := null, null, 0;
      contents, nodes, made := [], [], {};
    }

    ghost predicate Valid()
      reads this, made
    {
      var n := |nodes|;
      && numItems == n
      && head == (if n == 0 then null else nodes[n - 1])
      && tail == (if n == 0 then null else nodes[0])
      && Holds(nodes, contents, made) && Chain(nodes)
      && (head != null && head.prev != null ==> head.prev in made)
    }

    method Insert(f: Frame)
      requires Valid()
      modifies this, head
      ensures Valid() && fresh(made - old(made))
      ensures contents == old(contents) + [f]
    {
      var item := new LossyFrame(f, head, if nodes == [] then 0 else nodes[0].serial + |nodes|);
      if head != null {
        head.prev := item;
      }
      head := item;
      if tail == null {
        tail := head;
      }
      numItems := numItems + 1;
      contents, nodes, made := contents + [f], nodes + [item], made + {item};
    }

    /** Add the newest frame, and drop the oldest when that is one too many. */
    method Push(f: Frame)
      requires Valid()
      modifies this, made
      ensures Valid() && fresh(made - old(made))
      ensures contents == Pushed(old(contents), f, capacity)
    {
      Insert(f);
      if numItems > capacity {
        var _ := Unshift();
      }
    }

    /** Take the oldest frame. */
    method Unshift() returns (f: Option<Frame>)
      requires Valid()
      modifies this, made
      ensures Valid() && made == old(made)
      ensures if old(contents) == [] then f == None && contents == []
              else f == Some(old(contents[0])) && contents == old(contents[1..])
    {
      if tail == null {
        return None;
      }
      var t := tail;
      HoldsRest(nodes, contents, made);
      Neighbours(nodes, 0);
      numItems := numItems - 1;
      tail := t.prev;
      Detach(t, nodes);
      if numItems == 0 {
        tail := null;
        head := null;
      }
      contents, nodes := contents[1..], nodes[1..];
      return Some(t.item);
    }

    /** Take the newest frame. */
    method Pop() returns (f: Option<Frame>)
      requires Valid()
      modifies this, made
      ensures Valid() && made == old(made)
      ensures if old(contents) == [] then f == None && contents == []
              else f == Some(old(contents[|contents| - 1])) && contents == old(contents[..|contents| - 1])
    {
      if head == null {
        return None;
      }
      var t := head;
      numItems := numItems - 1;
      head := t.next;
      t.prev := null;
      t.next := null;
      if numItems == 0 {
        tail := null;
        head := null;
      }
      contents, nodes := contents[..|contents| - 1], nodes[..|nodes| - 1];
      return Some(t.item);
    }

    method Len() returns (n: int)
      requires Valid()
      ensures n == |contents|
    {
      n := numItems;
    }

    /** Show the frames to f, newest first, until it has had enough; the oldest is never
        shown. */
    method Range(f: Frame -> bool) returns (shown: seq<Frame>)
      requires Valid()
      ensures shown == UntilRefused(contents, f)
    {
      shown := [];
      var t := head;
      ghost var k := |nodes|;
      assert contents[..k] == contents;
      while t != null && t.next != null
        invariant 0 <= k <= |nodes| && t == if k == 0 then null else nodes[k - 1]
        invariant shown + UntilRefused(contents[..k], f) == UntilRefused(contents, f)
        decreases k
      {
        Neighbours(nodes, k - 1);
        RefusedStep(contents, k, f, shown);
        shown := shown + [t.item];
        if !f(t.item) {
          return;
        }
        t := t.next;
        k := k - 1;
      }
      if k > 0 {
        Neighbours(nodes, k - 1);
      }
    }
  }

  /** From the newest frame of s to the first one that f refuses, and never the oldest. */
  function UntilRefused(s: seq<Frame>, f: Frame -> bool): seq<Frame> {
    if |s| < 2 then []
    else
      var newest := s[|s| - 1];
      [newest] + if f(newest) then UntilRefused(s[..|s| - 1], f) else []
  }

  /** What a traversal that goes to the end would show. */
  function Full(s: seq<Frame>, f: Frame -> bool): seq<Frame> {
    if |s| == 0 then []
    else
      var newest := s[|s| - 1];
      [newest] + if f(newest) then Full(s[..|s| - 1], f) else []
  }

  /** The oldest frame is missed exactly when the list is not empty and f does not refuse an
      earlier one; nothing else is. */
  lemma {:induction false} OldestMissed(s: seq<Frame>, f: Frame -> bool)
    ensures UntilRefused(s, f) == Full(s, f) <==> s == [] || exists i :: 1 <= i < |s| && !f(s[i])
    ensures UntilRefused(s, f) != Full(s, f) ==> Full(s, f) == UntilRefused(s, f) + [s[0]]
  {
    var n := |s| - 1;
    if n >= 1 {
      OldestMissed(s[..n], f);
      if f(s[n]) {
        if i :| 1 <= i < |s| && !f(s[i]) {
          assert s[..n][i] == s[i];
        }
        assert [s[n]] + (UntilRefused(s[..n], f) + [s[0]]) == [s[n]] + UntilRefused(s[..n], f) + [s[0]];
      } else {
        assert 1 <= n < |s| && !f(s[n]);
      }
    } else if n == 0 {
      assert Full(s[..0], f) == [];
    }
  }

  /** A list of one frame shows nothing. */
  lemma OnlyFrameMissed(a: Frame, f: Frame -> bool)
    ensures UntilRefused([a], f) == [] && Full([a], f) == [a]
  {
    assert [a][..0] == [];
    assert Full([], f) == [];
  }

  lemma RefusedStep(s: seq<Frame>, k: nat, f: Frame -> bool, shown: seq<Frame>)
    requires 1 < k <= |s|
    ensures var newest := s[k - 1];
            shown + UntilRefused(s[..k], f) == shown + [newest] + if f(newest) then UntilRefused(s[..k - 1], f) else []
  {
    assert s[..k][..k - 1] == s[..k - 1];
  }

  /** The object runs exactly this machine. */
  method Replay(calls: seq<Call>, capacity: int) returns (list: LossyFrameList)
    ensures list.Valid() && list.contents == After(calls, capacity)
  {
    list := new LossyFrameList(capacity);
    for n := 0 to |calls|
      invariant fresh(list) && fresh(list.made) && list.Valid() && list.capacity == capacity
      invariant list.contents == After(calls[..n], capacity)
    {
      assert calls[..n + 1][..n] == calls[..n];
      match calls[n]
      case Pushing(f) => list.Push(f);
      case Popping => var _ := list.Pop();
      case Unshifting => var _ := list.Unshift();
    }
    assert calls[..|calls|] == calls;
  }
}
