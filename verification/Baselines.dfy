/** The committed tier 1 baseline: reading it, and replacing the entry of one scenario. */
module Baselines {
  import opened Signatures
  import opened Sorting

  datatype Entry = Entry(
    scenario: string, behavior: string, revision: string, hash: string, rule: seq<Signature>, data: seq<Signature>)

  datatype Baseline = Baseline(version: nat, scenarios: seq<Entry>)

  /** What the harness says of a scenario. */
  datatype Golden = Golden(behavior: string, hash: string)

  datatype Catalogue = Catalogue(ids: seq<string>, golden: map<string, Golden>)

  /** A baseline, or an error return. */
  datatype Update = Refused | Updated(baseline: Baseline)

  // ----- entries in scenario order

  predicate ByScenario(a: Entry, b: Entry) { TextLe(a.scenario, b.scenario) }

  predicate Earlier(a: Entry, b: Entry) { a.scenario != b.scenario && TextLe(a.scenario, b.scenario) }

  /** The check over neighbours of Baseline::parse. */
  predicate Strict(entries: seq<Entry>) {
    forall i | 0 <= i < |entries| - 1 :: Earlier(entries[i], entries[i + 1])
  }

  ghost predicate DistinctIds(entries: seq<Entry>) {
    forall i, j | 0 <= i < j < |entries| :: entries[i].scenario != entries[j].scenario
  }

  lemma ByScenarioIsPreorder()
    ensures TotalPreorder(ByScenario)
  {
    TextLeIsOrder();
  }

  lemma {:induction false} StrictPairs(entries: seq<Entry>, i: nat, j: nat)
    requires Strict(entries) && i < j < |entries|
    ensures Earlier(entries[i], entries[j])
    decreases j - i
  {
    if i + 1 < j {
      StrictPairs(entries, i + 1, j);
      TextLeTransitive(entries[i].scenario, entries[i + 1].scenario, entries[j].scenario);
      TextLeTotal(entries[i].scenario, entries[i + 1].scenario);
    }
  }

  lemma StrictIff(entries: seq<Entry>)
    ensures Strict(entries) <==> Sorted(entries, ByScenario) && DistinctIds(entries)
  {
    if Strict(entries) {
      forall i, j | 0 <= i < j < |entries| ensures Earlier(entries[i], entries[j]) {
        StrictPairs(entries, i, j);
      }
    }
  }

  // ----- a baseline as a map

  function MapOf(entries: seq<Entry>): map<string, Entry> {
    if |entries| == 0 then map[]
    else
      var last := entries[|entries| - 1];
      MapOf(entries[..|entries| - 1])[last.scenario := last]
  }

  /** The map holds exactly the entries, each under its scenario. */
  ghost predicate Lists(m: map<string, Entry>, entries: seq<Entry>) {
    && (forall e | e in entries :: e.scenario in m && m[e.scenario] == e)
    && (forall id | id in m :: m[id] in entries && m[id].scenario == id)
  }

  lemma {:induction false} MapLists(entries: seq<Entry>)
    requires DistinctIds(entries)
    ensures Lists(MapOf(entries), entries)
    decreases |entries|
  {
    if |entries| > 0 {
      var n := |entries| - 1;
      MapLists(entries[..n]);
      LastIsNew(entries);
      ListsOneMore(MapOf(entries[..n]), entries[..n], entries[n]);
      assert entries == entries[..n] + [entries[n]];
    }
  }

  lemma LastIsNew(entries: seq<Entry>)
    requires DistinctIds(entries) && |entries| > 0
    ensures forall e | e in entries[..|entries| - 1] :: e.scenario != entries[|entries| - 1].scenario
  {
  }

  lemma ListsOneMore(m: map<string, Entry>, entries: seq<Entry>, last: Entry)
    requires Lists(m, entries) && forall e | e in entries :: e.scenario != last.scenario
    ensures Lists(m[last.scenario := last], entries + [last])
  {
    assert forall e :: e in entries + [last] <==> e in entries || e == last;
  }

  lemma SameMap(a: map<string, Entry>, b: map<string, Entry>, entries: seq<Entry>, other: seq<Entry>)
    requires Lists(a, entries) && Lists(b, other) && forall e :: e in entries <==> e in other
    ensures a == b
  {
    assert forall id | id in a :: a[id] in other;
    assert forall id | id in b :: b[id] in entries;
  }

  function IdsOf(entries: seq<Entry>): (ids: seq<string>)
    ensures |ids| == |entries| && forall i | 0 <= i < |ids| :: ids[i] == entries[i].scenario
  {
    seq(|entries|, i requires 0 <= i < |entries| => entries[i].scenario)
  }

  lemma {:induction false} EachOnce(ids: seq<string>)
    requires forall i, j | 0 <= i < j < |ids| :: ids[i] != ids[j]
    ensures forall id :: multiset(ids)[id] == if id in ids then 1 else 0
    decreases |ids|
  {
    if |ids| > 0 {
      var n := |ids| - 1;
      EachOnce(ids[..n]);
      assert ids == ids[..n] + [ids[n]];
    }
  }

  lemma IdsAreKeys(m: map<string, Entry>, entries: seq<Entry>)
    requires Lists(m, entries)
    ensures forall id :: id in IdsOf(entries) <==> id in m
  {
    forall id | id in IdsOf(entries) ensures id in m {
      var i :| 0 <= i < |entries| && entries[i].scenario == id;
      assert entries[i] in entries;
    }
    forall id | id in m ensures id in IdsOf(entries) {
      var i :| 0 <= i < |entries| && entries[i] == m[id];
      assert IdsOf(entries)[i] == id;
    }
  }

  lemma SameIds(a: seq<Entry>, b: seq<Entry>)
    requires Strict(a) && Strict(b) && forall id :: id in IdsOf(a) <==> id in IdsOf(b)
    ensures IdsOf(a) == IdsOf(b)
  {
    StrictIff(a);
    StrictIff(b);
    EachOnce(IdsOf(a));
    EachOnce(IdsOf(b));
    TextLeIsOrder();
    assert multiset(IdsOf(a)) == multiset(IdsOf(b));
    SortedUnique(IdsOf(a), IdsOf(b), TextLe);
  }

  /** A map has one listing in scenario order. */
  lemma StrictUnique(a: seq<Entry>, b: seq<Entry>)
    requires Strict(a) && Strict(b) && MapOf(a) == MapOf(b)
    ensures a == b
  {
    StrictIff(a);
    StrictIff(b);
    MapLists(a);
    MapLists(b);
    IdsAreKeys(MapOf(a), a);
    IdsAreKeys(MapOf(b), b);
    SameIds(a, b);
    assert |IdsOf(a)| == |IdsOf(b)|;
    forall i | 0 <= i < |a| ensures a[i] == b[i] {
      assert IdsOf(a)[i] == IdsOf(b)[i];
      assert a[i] in a && b[i] in b;
    }
  }

  // ----- replacing one entry

  /** The first entry of a scenario, or the end. */
  function Place(entries: seq<Entry>, id: string): (k: nat)
    ensures k <= |entries| && (k < |entries| ==> entries[k].scenario == id)
    ensures forall i | 0 <= i < k :: entries[i].scenario != id
  {
    if |entries| == 0 || entries[0].scenario == id then 0 else 1 + Place(entries[1..], id)
  }

  function Put(entries: seq<Entry>, current: Entry): seq<Entry> {
    var k := Place(entries, current.scenario);
    if k < |entries| then entries[k := current] else entries + [current]
  }

  predicate Permitted(catalogue: Catalogue, entries: seq<Entry>, current: Entry) {
    && (forall i | 0 <= i < |entries| :: entries[i].scenario in catalogue.ids)
    && current.scenario in catalogue.golden && current.behavior == catalogue.golden[current.scenario].behavior
    && var k := Place(entries, current.scenario); (k < |entries| ==> entries[k].behavior == current.behavior)
  }

  function Replaced(catalogue: Catalogue, committed: Baseline, current: Entry): Update {
    if !Permitted(catalogue, committed.scenarios, current) then Refused
    else Updated(committed.(scenarios := Sort(Put(committed.scenarios, current), ByScenario)))
  }

  method ReplaceScenario(catalogue: Catalogue, committed: Baseline, current: Entry) returns (r: Update)
    ensures r == Replaced(catalogue, committed, current)
  {
    var scenarios := committed.scenarios;
    for i := 0 to |scenarios|
      invariant forall j | 0 <= j < i :: scenarios[j].scenario in catalogue.ids
    {
      if scenarios[i].scenario !in catalogue.ids {
        return Refused;
      }
    }
    if current.scenario !in catalogue.golden || current.behavior != catalogue.golden[current.scenario].behavior {
      return Refused;
    }
    var k := 0;
    while k < |scenarios| && scenarios[k].scenario != current.scenario
      invariant k <= |scenarios|
      invariant forall j | 0 <= j < k :: scenarios[j].scenario != current.scenario
    {
      k := k + 1;
    }
    if k < |scenarios| {
      if scenarios[k].behavior != current.behavior {
        return Refused;
      }
      scenarios := scenarios[k := current];
    } else {
      scenarios := scenarios + [current];
    }
    r := Updated(committed.(scenarios := Sort(scenarios, ByScenario)));
  }

  lemma PutIds(entries: seq<Entry>, current: Entry)
    requires DistinctIds(entries)
    ensures DistinctIds(Put(entries, current))
    ensures forall e :: e in Put(entries, current) <==> e == current || (e in entries && e.scenario != current.scenario)
  {
    var k, put := Place(entries, current.scenario), Put(entries, current);
    forall e | e == current || (e in entries && e.scenario != current.scenario) ensures e in put {
      if e != current {
        var i :| 0 <= i < |entries| && entries[i] == e;
        assert put[i] == e;
      } else {
        assert put[k] == current;
      }
    }
  }

  lemma SortedIds(entries: seq<Entry>)
    requires DistinctIds(entries)
    ensures Strict(Sort(entries, ByScenario)) && MapOf(Sort(entries, ByScenario)) == MapOf(entries)
  {
    var sorted := Sort(entries, ByScenario);
    ByScenarioIsPreorder();
    SortPermutes(entries, ByScenario);
    SortSorts(entries, ByScenario);
    assert forall e :: e in entries <==> e in multiset(entries);
    assert forall e :: e in sorted <==> e in multiset(sorted);
    StaysDistinct(entries, sorted);
    StrictIff(sorted);
    MapLists(entries);
    MapLists(sorted);
    SameMap(MapOf(entries), MapOf(sorted), entries, sorted);
  }

  lemma StaysDistinct(entries: seq<Entry>, other: seq<Entry>)
    requires DistinctIds(entries) && multiset(entries) == multiset(other)
    ensures DistinctIds(other)
  {
    var perm := MultisetsRearrange(entries, other);
    forall i, j | 0 <= i < j < |other| ensures other[i].scenario != other[j].scenario {
      assert perm[i] != perm[j];
    }
  }

  lemma PutUpdates(entries: seq<Entry>, current: Entry)
    requires DistinctIds(entries)
    ensures DistinctIds(Put(entries, current)) && MapOf(Put(entries, current)) == MapOf(entries)[current.scenario := current]
  {
    var put, updated := Put(entries, current), MapOf(entries)[current.scenario := current];
    PutIds(entries, current);
    MapLists(entries);
    MapLists(put);
    assert forall id | id in updated :: updated[id] == current || updated[id] in entries;
    SameMap(MapOf(put), updated, put, put);
  }

  /** In scenario order, replacing is updating a map: every other entry stays as it was, and the order is kept. */
  lemma ReplacingUpdates(catalogue: Catalogue, committed: Baseline, current: Entry)
    requires Strict(committed.scenarios)
    ensures var r := Replaced(catalogue, committed, current);
      r.Updated? ==>
        && r.baseline.version == committed.version
        && Strict(r.baseline.scenarios)
        && MapOf(r.baseline.scenarios) == MapOf(committed.scenarios)[current.scenario := current]
  {
    StrictIff(committed.scenarios);
    PutUpdates(committed.scenarios, current);
    SortedIds(Put(committed.scenarios, current));
  }

  /** Replacing succeeds exactly for known scenarios whose Behavior is the catalogue's and has not changed. */
  lemma ReplacingSucceeds(catalogue: Catalogue, committed: Baseline, current: Entry)
    requires Strict(committed.scenarios)
    ensures Replaced(catalogue, committed, current).Updated? <==>
      && (forall id | id in MapOf(committed.scenarios) :: id in catalogue.ids)
      && current.scenario in catalogue.golden && catalogue.golden[current.scenario].behavior == current.behavior
      && (current.scenario in MapOf(committed.scenarios) ==>
            MapOf(committed.scenarios)[current.scenario].behavior == current.behavior)
  {
    var entries, m := committed.scenarios, MapOf(committed.scenarios);
    StrictIff(entries);
    MapLists(entries);
    var k := Place(entries, current.scenario);
    assert k < |entries| ==> entries[k] in entries;
    assert current.scenario in m ==> exists i :: 0 <= i < |entries| && entries[i] == m[current.scenario];
    assert forall i | 0 <= i < |entries| :: entries[i] in entries;
  }

  function BothReplaced(catalogue: Catalogue, committed: Baseline, a: Entry, b: Entry): Update {
    var first := Replaced(catalogue, committed, a);
    if first.Refused? then Refused else Replaced(catalogue, first.baseline, b)
  }

  /** Updates to different scenarios commute, refusals included. */
  lemma ReplacingCommutes(catalogue: Catalogue, committed: Baseline, a: Entry, b: Entry)
    requires Strict(committed.scenarios) && a.scenario != b.scenario
    requires forall id :: id in catalogue.ids <==> id in catalogue.golden
    ensures BothReplaced(catalogue, committed, a, b) == BothReplaced(catalogue, committed, b, a)
  {
    var ab, ba := BothReplaced(catalogue, committed, a, b), BothReplaced(catalogue, committed, b, a);
    TwiceReplaced(catalogue, committed, a, b);
    TwiceReplaced(catalogue, committed, b, a);
    assert ab.Updated? <==> ba.Updated?;
    if ab.Updated? {
      var m := MapOf(committed.scenarios);
      assert m[a.scenario := a][b.scenario := b] == m[b.scenario := b][a.scenario := a];
      StrictUnique(ab.baseline.scenarios, ba.baseline.scenarios);
    }
  }

  predicate Acceptable(catalogue: Catalogue, m: map<string, Entry>, e: Entry) {
    && e.scenario in catalogue.golden && catalogue.golden[e.scenario].behavior == e.behavior
    && (e.scenario in m ==> m[e.scenario].behavior == e.behavior)
  }

  lemma TwiceReplaced(catalogue: Catalogue, committed: Baseline, a: Entry, b: Entry)
    requires Strict(committed.scenarios) && a.scenario != b.scenario
    requires forall id :: id in catalogue.ids <==> id in catalogue.golden
    ensures var m, both := MapOf(committed.scenarios), BothReplaced(catalogue, committed, a, b);
      && (both.Updated? <==>
            (forall id | id in m :: id in catalogue.ids) && Acceptable(catalogue, m, a) && Acceptable(catalogue, m, b))
      && (both.Updated? ==>
            && both.baseline.version == committed.version && Strict(both.baseline.scenarios)
            && MapOf(both.baseline.scenarios) == m[a.scenario := a][b.scenario := b])
  {
    var m, first := MapOf(committed.scenarios), Replaced(catalogue, committed, a);
    ReplacingSucceeds(catalogue, committed, a);
    if first.Updated? {
      ReplacingUpdates(catalogue, committed, a);
      ReplacingSucceeds(catalogue, first.baseline, b);
      ReplacingUpdates(catalogue, first.baseline, b);
      assert forall id :: id in m[a.scenario := a] <==> id in m || id == a.scenario;
    }
  }
}
