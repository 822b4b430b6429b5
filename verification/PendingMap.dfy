/** The batch of locations waiting to be sent to a websocket client: a slice of optional
    entries and an index by ICAO (cmd/pw_ws_broker/web.go), and the map they stand for. */
module PendingMap {
  import opened Basics

  datatype Location = Location(icao: string, tileLocation: string, lastMsg: int, body: string)

  /** The index is a bijection between the ICAOs it knows and the entries that are there. */
  ghost predicate Indexed(messages: seq<Option<Location>>, lookup: map<string, nat>) {
    && (forall k :: k in lookup ==>
          lookup[k] < |messages| && messages[lookup[k]].Some? && messages[lookup[k]].value.icao == k)
    && (forall i :: 0 <= i < |messages| && messages[i].Some? ==>
          messages[i].value.icao in lookup && lookup[messages[i].value.icao] == i)
  }

  /** The latest location of each ICAO waiting to be sent. */
  function Pending(messages: seq<Option<Location>>, lookup: map<string, nat>): map<string, Location>
    requires Indexed(messages, lookup)
  {
    map k | k in lookup :: messages[lookup[k]].value
  }

  /** Locations recorded in order, later ones replacing earlier ones. */
  function LatestOf(ls: seq<Location>): map<string, Location> {
    if |ls| == 0 then map[] else LatestOf(ls[..|ls| - 1])[ls[|ls| - 1].icao := ls[|ls| - 1]]
  }

  lemma LatestNext(ls: seq<Location>, l: Location)
    ensures LatestOf(ls + [l]) == LatestOf(ls)[l.icao := l]
  {
    assert (ls + [l])[..|ls|] == ls;
  }

  /** Entry by entry: the last location of each ICAO that was ever recorded. */
  lemma {:induction false} LatestIsLast(ls: seq<Location>, k: string)
    ensures k in LatestOf(ls) <==> exists i :: 0 <= i < |ls| && ls[i].icao == k
    ensures k in LatestOf(ls) ==>
              exists i :: 0 <= i < |ls| && ls[i] == LatestOf(ls)[k] && forall j :: i <= j < |ls| && ls[j].icao == k ==> j == i
  {
    if |ls| > 0 {
      var n := |ls| - 1;
      LatestIsLast(ls[..n], k);
      if ls[n].icao == k {
        assert ls[n] == LatestOf(ls)[k];
      } else if k in LatestOf(ls) {
        var i :| 0 <= i < n && ls[..n][i] == LatestOf(ls[..n])[k]
              && forall j :: i <= j < n && ls[..n][j].icao == k ==> j == i;
        assert ls[i] == LatestOf(ls)[k];
        forall j | i <= j < |ls| && ls[j].icao == k
          ensures j == i
        {
          assert ls[..n][j] == ls[j];
        }
      }
    }
  }

  /** A message delivers a map when its non-null entries are the map's, each once. */
  ghost predicate Delivers(sent: seq<Option<Location>>, m: map<string, Location>) {
    && (forall i :: 0 <= i < |sent| && sent[i].Some? ==> sent[i].value.icao in m && m[sent[i].value.icao] == sent[i].value)
    && (forall k :: k in m ==> m[k].icao == k && exists i :: 0 <= i < |sent| && sent[i] == Some(m[k]))
    && (forall i, j :: 0 <= i < j < |sent| && sent[i].Some? && sent[j].Some? ==> sent[i].value.icao != sent[j].value.icao)
  }

  lemma PendingDelivered(messages: seq<Option<Location>>, lookup: map<string, nat>)
    requires Indexed(messages, lookup)
    ensures Delivers(messages, Pending(messages, lookup))
  {
    var m := Pending(messages, lookup);
    forall k | k in m
      ensures m[k].icao == k && exists i :: 0 <= i < |messages| && messages[i] == Some(m[k])
    {
      assert messages[lookup[k]] == Some(m[k]);
    }
  }

  // --- the slice alone -----------------------------------------------------------------

  /** The entry of an ICAO, found by looking through the slice. */
  function EntryOf(messages: seq<Option<Location>>, icao: string): (i: nat)
    ensures i <= |messages|
    ensures i < |messages| ==> messages[i].Some? && messages[i].value.icao == icao
    ensures forall j :: 0 <= j < i ==> messages[j].Some? ==> messages[j].value.icao != icao
  {
    if messages == [] then 0
    else if messages[0].Some? && messages[0].value.icao == icao then 0
    else 1 + EntryOf(messages[1..], icao)
  }

  function Put(messages: seq<Option<Location>>, loc: Location): seq<Option<Location>> {
    var i := EntryOf(messages, loc.icao);
    if i < |messages| then messages[i := Some(loc)] else messages + [Some(loc)]
  }

  function PutAll(messages: seq<Option<Location>>, ls: seq<Location>): seq<Option<Location>> {
    if |ls| == 0 then messages else Put(PutAll(messages, ls[..|ls| - 1]), ls[|ls| - 1])
  }

  lemma PutAllNext(messages: seq<Option<Location>>, ls: seq<Location>, l: Location)
    ensures PutAll(messages, ls + [l]) == Put(PutAll(messages, ls), l)
  {
    assert (ls + [l])[..|ls|] == ls;
  }

  /** The index finds the same entry. */
  lemma IndexFindsEntry(messages: seq<Option<Location>>, lookup: map<string, nat>, icao: string)
    requires Indexed(messages, lookup)
    ensures EntryOf(messages, icao) == if icao in lookup then lookup[icao] else |messages|
  {
  }

  /** clear on the slice: every entry becomes null, the length stays. */
  function Cleared(messages: seq<Option<Location>>): (r: seq<Option<Location>>)
    ensures |r| == |messages| && forall i :: 0 <= i < |r| ==> r[i] == None
  {
    seq(|messages|, _ => None)
  }

  function Nulls(messages: seq<Option<Location>>): (n: nat)
    ensures n <= |messages|
    ensures n > 0 <==> None in messages
  {
    if messages == [] then 0 else Nulls(messages[..|messages| - 1]) + if messages[|messages| - 1].None? then 1 else 0
  }

  lemma {:induction false} NullsReplaced(messages: seq<Option<Location>>, i: nat, loc: Location)
    requires i < |messages| && messages[i].Some?
    ensures Nulls(messages[i := Some(loc)]) == Nulls(messages)
  {
    var n := |messages| - 1;
    var after := messages[i := Some(loc)];
    if i < n {
      NullsReplaced(messages[..n], i, loc);
      assert after[..n] == messages[..n][i := Some(loc)];
    } else {
      assert after[..n] == messages[..n];
    }
  }

  lemma NullsPut(messages: seq<Option<Location>>, loc: Location)
    ensures Nulls(Put(messages, loc)) == Nulls(messages)
  {
    var i := EntryOf(messages, loc.icao);
    if i < |messages| {
      NullsReplaced(messages, i, loc);
    } else {
      assert (messages + [Some(loc)])[..|messages|] == messages;
    }
  }

  lemma {:induction false} NullsPutAll(messages: seq<Option<Location>>, ls: seq<Location>)
    ensures Nulls(PutAll(messages, ls)) == Nulls(messages)
  {
    if |ls| > 0 {
      NullsPutAll(messages, ls[..|ls| - 1]);
      NullsPut(PutAll(messages, ls[..|ls| - 1]), ls[|ls| - 1]);
    }
  }

  lemma {:induction false} NullsCleared(messages: seq<Option<Location>>)
    ensures Nulls(Cleared(messages)) == |messages|
  {
    if messages != [] {
      var n := |messages| - 1;
      NullsCleared(messages[..n]);
      assert Cleared(messages)[..n] == Cleared(messages[..n]);
    }
  }

  /** Putting a location keeps a slice that delivers a map one that delivers it updated. */
  lemma PutDelivers(messages: seq<Option<Location>>, m: map<string, Location>, loc: Location)
    requires Delivers(messages, m)
    ensures Delivers(Put(messages, loc), m[loc.icao := loc])
  {
    var i, after, m' := EntryOf(messages, loc.icao), Put(messages, loc), m[loc.icao := loc];
    assert after[i] == Some(loc);
    forall k | k in m'
      ensures m'[k].icao == k && exists j :: 0 <= j < |after| && after[j] == Some(m'[k])
    {
      if k != loc.icao {
        var j :| 0 <= j < |messages| && messages[j] == Some(m[k]);
        assert after[j] == Some(m'[k]);
      }
    }
  }

  lemma {:induction false} PutAllDelivers(messages: seq<Option<Location>>, before: seq<Location>, ls: seq<Location>)
    requires Delivers(messages, LatestOf(before))
    ensures Delivers(PutAll(messages, ls), LatestOf(before + ls))
  {
    if |ls| == 0 {
      assert before + ls == before;
    } else {
      var n := |ls| - 1;
      PutAllDelivers(messages, before, ls[..n]);
      PutDelivers(PutAll(messages, ls[..n]), LatestOf(before + ls[..n]), ls[n]);
      LatestNext(before + ls[..n], ls[n]);
      assert before + ls == before + ls[..n] + [ls[n]];
    }
  }

  lemma EntryReplaced(messages: seq<Option<Location>>, lookup: map<string, nat>, loc: Location)
    requires Indexed(messages, lookup) && loc.icao in lookup
    ensures var after := messages[lookup[loc.icao] := Some(loc)];
            Indexed(after, lookup) && Pending(after, lookup) == Pending(messages, lookup)[loc.icao := loc]
  {
    var after := messages[lookup[loc.icao] := Some(loc)];
    forall k | k in lookup
      ensures after[lookup[k]] == if k == loc.icao then Some(loc) else messages[lookup[k]]
    {
    }
  }

  lemma EntryAppended(messages: seq<Option<Location>>, lookup: map<string, nat>, loc: Location)
    requires Indexed(messages, lookup) && loc.icao !in lookup
    ensures var after, index := messages + [Some(loc)], lookup[loc.icao := |messages|];
            Indexed(after, index) && Pending(after, index) == Pending(messages, lookup)[loc.icao := loc]
  {
    var after, index := messages + [Some(loc)], lookup[loc.icao := |messages|];
    forall i | 0 <= i < |after| && after[i].Some?
      ensures after[i].value.icao in index && index[after[i].value.icao] == i
    {
      if i < |messages| {
        assert messages[i] == after[i];
      }
    }
    assert Pending(after, index).Keys == Pending(messages, lookup)[loc.icao := loc].Keys;
  }

  /** Put a location in the entry of its ICAO, or in a new one. */
  method Upsert(messages: seq<Option<Location>>, lookup: map<string, nat>, loc: Location)
    returns (after: seq<Option<Location>>, index: map<string, nat>)
    requires Indexed(messages, lookup)
    ensures Indexed(after, index) && |after| > 0
    ensures Pending(after, index) == Pending(messages, lookup)[loc.icao := loc]
    ensures after == Put(messages, loc)
  {
    IndexFindsEntry(messages, lookup, loc.icao);
    if loc.icao in lookup {
      EntryReplaced(messages, lookup, loc);
      return messages[lookup[loc.icao] := Some(loc)], lookup;
    } else {
      EntryAppended(messages, lookup, loc);
      return messages + [Some(loc)], lookup[loc.icao := |messages|];
    }
  }
}
