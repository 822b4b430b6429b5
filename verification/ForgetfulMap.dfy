/** The timed cache of lib/dedupe/forgetfulmap/map.go: every entry is a marble, and all
    maps return their marbles to one bag and take new ones from it. */
module ForgetfulMap {
  import opened Basics

  datatype Value = Nothing | Item(body: string)

  datatype Entry = Entry(added: int, value: Value)

  /** Maps are keyed by anything; a key that stands for nothing is never added. A string
      is its bytes. */
  datatype Key = Nil | Bytes(bytes: seq<bv8>) | Text(text: seq<bv8>) | Other(id: int) {
    predicate Empty() {
      Nil? || (Bytes? && bytes == []) || (Text? && text == [])
    }
  }

  /** The specification: a plain map of timestamped values. */
  type TimedMap = map<Key, Entry>

  /** The default rule: forget what was added more than oldAfter ago. */
  predicate OldAfter(e: Entry, oldAfter: int, now: int) {
    e.added < now - oldAfter
  }

  function Remembered(m: TimedMap, oldAfter: int, now: int): TimedMap {
    map k | k in m && !OldAfter(m[k], oldAfter, now) :: m[k]
  }

  /** All entries but those still to be looked at are young enough. */
  ghost predicate Swept(m: TimedMap, todo: set<Key>, oldAfter: int, now: int) {
    forall k :: k in m && k !in todo ==> !OldAfter(m[k], oldAfter, now)
  }

  function AfterVisit(m: TimedMap, key: Key, oldAfter: int, now: int): TimedMap
    requires key in m
  {
    if OldAfter(m[key], oldAfter, now) then m - {key} else m
  }

  /** One visit forgets nothing that is to be remembered, and settles its entry. */
  lemma VisitKeeps(m: TimedMap, todo: set<Key>, key: Key, oldAfter: int, now: int)
    requires todo <= m.Keys && key in todo && Swept(m, todo, oldAfter, now)
    ensures var m', todo' := AfterVisit(m, key, oldAfter, now), todo - {key};
            && todo' <= m'.Keys && Swept(m', todo', oldAfter, now)
            && Remembered(m', oldAfter, now) == Remembered(m, oldAfter, now)
            && |m'.Keys - todo'| == |m.Keys - todo| + if OldAfter(m[key], oldAfter, now) then 0 else 1
  {
    var m' := AfterVisit(m, key, oldAfter, now);
    assert m'.Keys - (todo - {key}) == if OldAfter(m[key], oldAfter, now) then m.Keys - todo else m.Keys - todo + {key};
  }

  lemma SweptIsRemembered(m: TimedMap, oldAfter: int, now: int)
    requires Swept(m, {}, oldAfter, now)
    ensures Remembered(m, oldAfter, now) == m
  {
    assert Remembered(m, oldAfter, now).Keys == m.Keys;
  }

  datatype Operation = Storing(key: Key, value: Value, now: int) | Adding(key: Key, now: int) | Deleting(key: Key) | Sweeping(now: int)

  function Apply(m: TimedMap, oldAfter: int, op: Operation): TimedMap {
    match op
    case Storing(key, value, now) => m[key := Entry(now, value)]
    case Adding(key, now) => if key.Empty() then m else m[key := Entry(now, Nothing)]
    case Deleting(key) => m - {key}
    case Sweeping(now) => Remembered(m, oldAfter, now)
  }

  class Marble {
    var added: int
    var value: Value
    /** The map and the key that hold this marble; null while it is in the bag. */
    ghost var owner: ForgetfulSyncMap?
    ghost var key: Key

    constructor ()
      ensures owner == null
    {
      added, value := 0, Nothing;
      owner, key := null, Nil;
    }

    function Reading(): Entry
      reads this
    {
      Entry(added, value)
    }
  }

  /** A sync.Pool of marbles. */
  class MarbleBag {
    var free: set<Marble>

    constructor ()
      ensures Valid() && free == {}
    {
      free := {};
    }

    ghost predicate Valid()
      reads this, free
    {
      forall m :: m in free ==> m.owner == null
    }

    /** Any marble that was put back, or a new one. */
    method Get() returns (m: Marble)
      requires Valid()
      modifies this
      ensures Valid() && m.owner == null && (m in old(free) || fresh(m)) && free == old(free) - {m}
    {
      if free == {} {
        m := new Marble();
      } else if * {
        m := new Marble();
      } else {
        m :| m in free;
        free := free - {m};
      }
    }

    method Put(m: Marble)
      requires Valid() && m.owner == null
      modifies this
      ensures Valid() && free == old(free) + {m}
    {
      free := free + {m};
    }
  }

  class ForgetfulSyncMap {
    const bag: MarbleBag
    const oldAfter: int
    const useSyncPool: bool
    var lookup: map<Key, Marble>
    /** The plain timestamped map that this one stands for. */
    ghost var contents: TimedMap
    /** The marbles it took and has not put back. */
    ghost var marbles: set<Marble>

    constructor (bag: MarbleBag, oldAfter: int, useSyncPool: bool)
      ensures this.bag == bag && this.oldAfter == oldAfter && this.useSyncPool == useSyncPool
      ensures Valid() && contents == map[] && marbles == {}
    {
      this.bag, this.oldAfter, this.useSyncPool := bag, oldAfter, useSyncPool;
      lookup, contents, marbles := map[], map[], {};
    }

    ghost function Marbles(): set<Marble>
      reads this, bag
    {
      marbles + bag.free
    }

    ghost predicate Valid()
      reads this, marbles
    {
      && (forall m :: m in marbles ==> m.owner == this)
      && lookup.Keys == contents.Keys
      && (forall k :: k in lookup ==> lookup[k] in marbles && lookup[k].key == k && lookup[k].Reading() == contents[k])
    }

    method HasKey(key: Key) returns (r: bool)
      requires Valid()
      ensures r <==> key in contents
    {
      r := key in lookup;
    }

    method Load(key: Key) returns (r: Option<Value>)
      requires Valid()
      ensures r == if key in contents then Some(contents[key].value) else None
    {
      if key in lookup {
        return Some(lookup[key].value);
      }
      return None;
    }

    /** A marble that no map holds and that is not in the bag. */
    method NewMarble() returns (m: Marble)
      requires Valid() && bag.Valid()
      modifies bag
      ensures Valid() && bag.Valid()
      ensures m.owner == null && (m in old(bag.free) || fresh(m)) && bag.free == old(bag.free) - {m}
    {
      if useSyncPool {
        m := bag.Get();
      } else {
        m := new Marble();
      }
    }

    /** Only a marble that nothing holds is filled, so no other entry sees the change. */
    method Store(key: Key, value: Value, now: int)
      requires Valid() && bag.Valid()
      modifies this, bag, bag.free
      ensures Valid() && bag.Valid() && fresh(Marbles() - old(Marbles()))
      ensures contents == old(contents)[key := Entry(now, value)]
    {
      var m := NewMarble();
      m.added := now;
      m.value := value;
      m.owner, m.key := this, key;
      Hold(key, m);
    }

    method Hold(key: Key, m: Marble)
      requires Valid() && m.owner == this && m.key == key && m !in marbles
      modifies this
      ensures Valid()
      ensures contents == old(contents)[key := m.Reading()] && marbles == old(marbles) + {m}
    {
      lookup := lookup[key := m];
      contents, marbles := contents[key := m.Reading()], marbles + {m};
    }

    /** Put the marble back, then drop the key. */
    method Delete(key: Key)
      requires Valid() && bag.Valid()
      modifies this, bag, if key in lookup then {lookup[key]} else {}
      ensures Valid() && bag.Valid() && marbles <= old(marbles) && Marbles() <= old(Marbles())
      ensures contents == old(contents) - {key}
    {
      if key in lookup {
        var m := lookup[key];
        m.owner := null;
        marbles := marbles - {m};
        bag.Put(m);
        lookup := lookup - {key};
        contents := contents - {key};
      }
    }

    /** What the sweep does with one entry. */
    method Visit(key: Key, now: int) returns (stays: bool)
      requires Valid() && bag.Valid() && key in lookup
      modifies this, bag, lookup[key]
      ensures Valid() && bag.Valid() && marbles <= old(marbles) && Marbles() <= old(Marbles())
      ensures stays <==> !OldAfter(old(contents)[key], oldAfter, now)
      ensures contents == AfterVisit(old(contents), key, oldAfter, now)
    {
      stays := !OldAfter(lookup[key].Reading(), oldAfter, now);
      if !stays {
        Delete(key);
      }
    }

    /** Forget every entry that is old enough, in any order; the result is how many stay. */
    method Sweep(now: int) returns (counter: nat)
      requires Valid() && bag.Valid()
      modifies this, bag, marbles
      ensures Valid() && bag.Valid() && Marbles() <= old(Marbles())
      ensures contents == Remembered(old(contents), oldAfter, now)
      ensures counter == |contents|
    {
      counter := 0;
      var todo := lookup.Keys;
      while todo != {}
        invariant Valid() && bag.Valid() && marbles <= old(marbles) && Marbles() <= old(Marbles())
        invariant todo <= contents.Keys && Swept(contents, todo, oldAfter, now)
        invariant Remembered(contents, oldAfter, now) == Remembered(old(contents), oldAfter, now)
        invariant counter == |contents.Keys - todo|
        decreases todo
      {
        var key :| key in todo;
        VisitKeeps(contents, todo, key, oldAfter, now);
        var stays := Visit(key, now);
        if stays {
          counter := counter + 1;
        }
        todo := todo - {key};
      }
      SweptIsRemembered(contents, oldAfter, now);
      assert contents.Keys - {} == contents.Keys;
    }

    method AddKey(key: Key, now: int)
      requires Valid() && bag.Valid()
      modifies this, bag, bag.free
      ensures Valid() && bag.Valid() && fresh(Marbles() - old(Marbles()))
      ensures contents == if key.Empty() then old(contents) else old(contents)[key := Entry(now, Nothing)]
    {
      if key.Nil? {
        return;
      }
      if key.Bytes? && |key.bytes| == 0 {
        return;
      }
      if key.Text? && |key.text| == 0 {
        return;
      }
      Store(key, Nothing, now);
    }

    method Do(op: Operation)
      requires Valid() && bag.Valid()
      modifies this, marbles, bag, bag.free
      ensures Valid() && bag.Valid()
      ensures contents == Apply(old(contents), oldAfter, op)
    {
      match op
      case Storing(key, value, now) => Store(key, value, now);
      case Adding(key, now) => AddKey(key, now);
      case Deleting(key) => Delete(key);
      case Sweeping(now) => var _ := Sweep(now);
    }
  }
  // --- several maps on one bag -----------------------------------------------------------

  ghost predicate Shared(maps: set<ForgetfulSyncMap>, bag: MarbleBag)
    reads bag, bag.free, maps, set f, m | f in maps && m in f.marbles :: m
  {
    bag.Valid() && forall f :: f in maps ==> f.bag == bag && f.Valid()
  }

  /** No two entries of any of the maps share a marble, and no marble is at the same time
      in a map and in the bag. */
  lemma MarblesDistinct(maps: set<ForgetfulSyncMap>, bag: MarbleBag, f: ForgetfulSyncMap, g: ForgetfulSyncMap, k: Key, l: Key)
    requires Shared(maps, bag) && f in maps && g in maps && k in f.lookup && l in g.lookup
    ensures f.lookup[k] == g.lookup[l] ==> f == g && k == l
    ensures f.lookup[k] !in bag.free
  {
    assert f.Valid() && g.Valid() && bag.Valid();
  }

  /** Whatever is done to one of the maps, it stays the plain timestamped map it was, and so
      does every other map on the bag: a marble that was put back is never seen again
      through the entry it came from. */
  method OnShared(maps: set<ForgetfulSyncMap>, bag: MarbleBag, f: ForgetfulSyncMap, op: Operation)
    requires Shared(maps, bag) && f in maps
    modifies f, f.marbles, bag, bag.free
    ensures Shared(maps, bag)
    ensures f.contents == Apply(old(f.contents), f.oldAfter, op)
    ensures forall g :: g in maps && g != f ==> g.contents == old(g.contents)
  {
    assert f.Valid();
    assert forall g, m :: g in maps && g != f && m in g.marbles ==> g.Valid() && m !in f.marbles && m !in bag.free;
    f.Do(op);
  }
}
