/** What a proposed harness pin may change in the baseline, and when a human has to look. */
module Pin {
  import opened Baselines
  import opened Options
  import opened Signatures
  import opened Sorting
  import Writers

  // ----- the order the validator checks

  /** The tuple a signature is compared by: an absent Character is (0, ""), an absent stream (-1, ""), an absent opcode -1. */
  datatype Key = Key(
    rule: string, hasCharacter: int, character: string, checkpoint: string, stream: int, streamId: string, opcode: int,
    fieldPath: seq<string>)

  function KeyOf(s: Signature): Key {
    Key(s.rule, if s.character.None? then 0 else 1, if s.character.None? then "" else s.character.value, s.checkpoint,
        if s.stream.None? then -1 else Rank(s.stream.value), if s.stream.None? then "" else IdOf(s.stream.value),
        if s.opcode.None? then -1 else s.opcode.value, s.fieldPath)
  }

  /** Python compares tuples component by component. */
  function CompareKeys(a: Key, b: Key): Ordering {
    Texts(a.rule, b.rule)
    .Then(Numbers(a.hasCharacter, b.hasCharacter).Then(Texts(a.character, b.character)))
    .Then(Texts(a.checkpoint, b.checkpoint))
    .Then(Numbers(a.stream, b.stream).Then(Texts(a.streamId, b.streamId)))
    .Then(Numbers(a.opcode, b.opcode))
    .Then(Paths(a.fieldPath, b.fieldPath))
  }

  /** The validator and the tool that writes the file sort by the same order. */
  lemma KeysOrderSignatures(a: Signature, b: Signature)
    ensures CompareKeys(KeyOf(a), KeyOf(b)) == Compare(a, b)
  {
    assert OptTexts(a.character, b.character) ==
      Numbers(KeyOf(a).hasCharacter, KeyOf(b).hasCharacter).Then(Texts(KeyOf(a).character, KeyOf(b).character));
    assert OptStreams(a.stream, b.stream) ==
      Numbers(KeyOf(a).stream, KeyOf(b).stream).Then(Texts(KeyOf(a).streamId, KeyOf(b).streamId));
  }

  // ----- the validator

  /** The checks on one signature that its type does not already make. */
  predicate SignatureOk(s: Signature) {
    s.rule != "" && s.character != Some("") && (s.opcode.Some? ==> s.opcode.value <= 65535)
  }

  predicate KeysAscend(signatures: seq<Signature>) {
    forall i | 0 <= i < |signatures| - 1 :: CompareKeys(KeyOf(signatures[i]), KeyOf(signatures[i + 1])).Less?
  }

  predicate SignaturesOk(signatures: seq<Signature>) {
    (forall s | s in signatures :: SignatureOk(s)) && KeysAscend(signatures)
  }

  /** [0-9a-f]{64} */
  predicate IsDigest(hash: string) {
    |hash| == 64 && forall c | c in hash :: '0' <= c <= '9' || 'a' <= c <= 'f'
  }

  predicate EntryOk(before: map<string, Entry>, sha: string, e: Entry) {
    && e.scenario in before && e.behavior == before[e.scenario].behavior && e.revision == sha && IsDigest(e.hash)
    && SignaturesOk(e.rule) && SignaturesOk(e.data)
  }

  predicate NoRepeats(ids: seq<string>) {
    forall i, j | 0 <= i < j < |ids| :: ids[i] != ids[j]
  }

  /** What validate_baseline lets through. */
  predicate Accepted(before: Baseline, after: Baseline, sha: string) {
    && after.version == 1 && |after.scenarios| == |before.scenarios| && NoRepeats(IdsOf(before.scenarios))
    && (forall i | 0 <= i < |after.scenarios| :: EntryOk(MapOf(before.scenarios), sha, after.scenarios[i]))
    && IdsOf(after.scenarios) == Sort(IdsOf(before.scenarios), TextLe)
  }

  predicate Rises(keys: seq<Key>, i: nat)
    requires i + 1 < |keys|
  {
    CompareKeys(keys[i], keys[i + 1]).Less?
  }

  method KeysRise(keys: seq<Key>) returns (ok: bool)
    ensures ok <==> forall i: nat | i + 1 < |keys| :: Rises(keys, i)
  {
    for i := 0 to |keys|
      invariant forall j: nat | j < i && j + 1 < |keys| :: Rises(keys, j)
    {
      if i + 1 < |keys| && !CompareKeys(keys[i], keys[i + 1]).Less? {
        assert !Rises(keys, i);
        return false;
      }
    }
    ok := true;
  }

  function KeysOf(signatures: seq<Signature>): (keys: seq<Key>)
    ensures |keys| == |signatures| && forall i | 0 <= i < |keys| :: keys[i] == KeyOf(signatures[i])
  {
    seq(|signatures|, i requires 0 <= i < |signatures| => KeyOf(signatures[i]))
  }

  lemma RiseIff(signatures: seq<Signature>)
    ensures (forall i: nat | i + 1 < |signatures| :: Rises(KeysOf(signatures), i)) <==> KeysAscend(signatures)
  {
    forall i: nat | i + 1 < |signatures|
      ensures Rises(KeysOf(signatures), i) <==> CompareKeys(KeyOf(signatures[i]), KeyOf(signatures[i + 1])).Less?
    {
    }
  }

  method CheckSignatures(signatures: seq<Signature>) returns (ok: bool)
    ensures ok == SignaturesOk(signatures)
  {
    var keys: seq<Key> := [];
    for i := 0 to |signatures|
      invariant |keys| == i && forall j | 0 <= j < i :: keys[j] == KeyOf(signatures[j]) && SignatureOk(signatures[j])
    {
      if !SignatureOk(signatures[i]) {
        return false;
      }
      keys := keys + [KeyOf(signatures[i])];
    }
    assert keys == KeysOf(signatures);
    RiseIff(signatures);
    ok := KeysRise(keys);
  }

  method ValidateBaseline(before: Baseline, after: Baseline, sha: string) returns (ok: bool)
    ensures ok == Accepted(before, after, sha)
  {
    var byId := MapOf(before.scenarios);
    if after.version != 1 || |after.scenarios| != |before.scenarios| || !NoRepeats(IdsOf(before.scenarios)) {
      return false;
    }
    var ids: seq<string> := [];
    for i := 0 to |after.scenarios|
      invariant |ids| == i && forall j | 0 <= j < i :: ids[j] == after.scenarios[j].scenario
      invariant forall j | 0 <= j < i :: EntryOk(byId, sha, after.scenarios[j])
    {
      var entry := after.scenarios[i];
      if entry.scenario !in byId || entry.behavior != byId[entry.scenario].behavior || entry.revision != sha || !IsDigest(entry.hash) {
        return false;
      }
      var rule := CheckSignatures(entry.rule);
      var data := CheckSignatures(entry.data);
      if !rule || !data {
        return false;
      }
      ids := ids + [entry.scenario];
    }
    assert ids == IdsOf(after.scenarios);
    ok := ids == Sort(IdsOf(before.scenarios), TextLe);
  }

  lemma AscendingIff(signatures: seq<Signature>)
    ensures KeysAscend(signatures) <==> Ascending(signatures)
  {
    forall i | 0 <= i < |signatures| - 1
      ensures CompareKeys(KeyOf(signatures[i]), KeyOf(signatures[i + 1])).Less? <==> Below(signatures[i], signatures[i + 1])
    {
      KeysOrderSignatures(signatures[i], signatures[i + 1]);
    }
  }

  lemma SortedIdsAscend(ids: seq<string>)
    requires NoRepeats(ids)
    ensures Writers.OrderedIds(Sort(ids, TextLe))
  {
    var sorted := Sort(ids, TextLe);
    TextLeIsOrder();
    SortSorts(ids, TextLe);
    SortPermutes(ids, TextLe);
    var perm := MultisetsRearrange(ids, sorted);
    forall i | 0 <= i < |sorted| - 1 ensures sorted[i] != sorted[i + 1] {
      assert perm[i] != perm[i + 1];
    }
  }

  /** What is accepted is canonical: the Rust tools read it back, all signatures are distinct, and no scenario repeats. */
  lemma AcceptedIsCanonical(before: Baseline, after: Baseline, sha: string)
    requires Accepted(before, after, sha)
    ensures Writers.Canonical(after)
    ensures forall e | e in after.scenarios :: e.revision == sha
  {
    SortedIdsAscend(IdsOf(before.scenarios));
    Writers.OrderedEntries(after.scenarios);
    forall e | e in after.scenarios ensures Ascending(e.rule) && Ascending(e.data) && e.revision == sha {
      var i :| 0 <= i < |after.scenarios| && after.scenarios[i] == e;
      assert EntryOk(MapOf(before.scenarios), sha, after.scenarios[i]);
      AscendingIff(e.rule);
      AscendingIff(e.data);
    }
  }

  ghost predicate SameSets(a: Entry, b: Entry) {
    a.hash == b.hash && (forall s :: s in a.rule <==> s in b.rule) && (forall s :: s in a.data <==> s in b.data)
  }

  /** Of the baselines with given digests and signature sets, one ordering is accepted. */
  lemma OnlyOneOrdering(before: Baseline, a: Baseline, b: Baseline, sha: string)
    requires Accepted(before, a, sha) && Accepted(before, b, sha)
    requires forall x, y | x in a.scenarios && y in b.scenarios && x.scenario == y.scenario :: SameSets(x, y)
    ensures a == b
  {
    AcceptedIsCanonical(before, a, sha);
    AcceptedIsCanonical(before, b, sha);
    assert |IdsOf(a.scenarios)| == |IdsOf(b.scenarios)|;
    forall i | 0 <= i < |a.scenarios| ensures a.scenarios[i] == b.scenarios[i] {
      var x, y := a.scenarios[i], b.scenarios[i];
      assert IdsOf(a.scenarios)[i] == IdsOf(b.scenarios)[i];
      assert x in a.scenarios && y in b.scenarios && SameSets(x, y);
      assert EntryOk(MapOf(before.scenarios), sha, x) && EntryOk(MapOf(before.scenarios), sha, y);
      AscendingUnique(x.rule, y.rule);
      AscendingUnique(x.data, y.data);
    }
  }

  // ----- what changed

  datatype Class = Rule | Data

  /** json.dumps with sorted keys. */
  type Text = Signature -> string

  ghost predicate Injective(text: Text) {
    forall a, b :: text(a) == text(b) ==> a == b
  }

  datatype Change = Change(scenario: string, classification: Class, added: set<string>, removed: set<string>)

  function SignaturesOf(m: map<string, Entry>, id: string, classification: Class): seq<Signature> {
    if id !in m then [] else if classification.Rule? then m[id].rule else m[id].data
  }

  function TextsOf(text: Text, signatures: seq<Signature>): set<string> {
    set s | s in signatures :: text(s)
  }

  function ChangeOf(text: Text, before: map<string, Entry>, after: map<string, Entry>, id: string, classification: Class): Change {
    var was, now := TextsOf(text, SignaturesOf(before, id, classification)), TextsOf(text, SignaturesOf(after, id, classification));
    Change(id, classification, now - was, was - now)
  }

  predicate IsChange(c: Change) { c.added != {} || c.removed != {} }

  function Changes(text: Text, before: map<string, Entry>, after: map<string, Entry>, ids: seq<string>): seq<Change> {
    if |ids| == 0 then []
    else
      var id := ids[|ids| - 1];
      var rule, data := ChangeOf(text, before, after, id, Rule), ChangeOf(text, before, after, id, Data);
      Changes(text, before, after, ids[..|ids| - 1]) + (if IsChange(rule) then [rule] else []) + (if IsChange(data) then [data] else [])
  }

  /** Over the ids of both baselines in any order; the order only decides the order of the report. */
  method SignatureChanges(text: Text, before: Baseline, after: Baseline, ids: seq<string>) returns (changes: seq<Change>)
    ensures changes == Changes(text, MapOf(before.scenarios), MapOf(after.scenarios), ids)
  {
    var was, now := MapOf(before.scenarios), MapOf(after.scenarios);
    changes := [];
    for i := 0 to |ids|
      invariant changes == Changes(text, was, now, ids[..i])
    {
      assert ids[..i + 1][..i] == ids[..i];
      var rule, data := ChangeOf(text, was, now, ids[i], Rule), ChangeOf(text, was, now, ids[i], Data);
      changes := changes + (if IsChange(rule) then [rule] else []) + (if IsChange(data) then [data] else []);
    }
    assert ids[..|ids|] == ids;
  }

  lemma ChangeIsExact(text: Text, before: map<string, Entry>, after: map<string, Entry>, id: string, classification: Class)
    ensures var c := ChangeOf(text, before, after, id, classification);
      TextsOf(text, SignaturesOf(after, id, classification)) ==
      TextsOf(text, SignaturesOf(before, id, classification)) - c.removed + c.added
  {
  }

  /** Every reported change turns the old signatures of its scenario into the new ones. */
  lemma {:induction false} ChangesAreExact(text: Text, before: map<string, Entry>, after: map<string, Entry>, ids: seq<string>)
    ensures forall c | c in Changes(text, before, after, ids) ::
      c.scenario in ids &&
      TextsOf(text, SignaturesOf(after, c.scenario, c.classification)) ==
      TextsOf(text, SignaturesOf(before, c.scenario, c.classification)) - c.removed + c.added
    decreases |ids|
  {
    if |ids| > 0 {
      var id := ids[|ids| - 1];
      ChangesAreExact(text, before, after, ids[..|ids| - 1]);
      ChangeIsExact(text, before, after, id, Rule);
      ChangeIsExact(text, before, after, id, Data);
    }
  }

  /** And every change is reported. */
  lemma LastReported(text: Text, before: map<string, Entry>, after: map<string, Entry>, ids: seq<string>, classification: Class)
    requires |ids| > 0 && IsChange(ChangeOf(text, before, after, ids[|ids| - 1], classification))
    ensures ChangeOf(text, before, after, ids[|ids| - 1], classification) in Changes(text, before, after, ids)
  {
    var id := ids[|ids| - 1];
    var rule, data := ChangeOf(text, before, after, id, Rule), ChangeOf(text, before, after, id, Data);
    var earlier := Changes(text, before, after, ids[..|ids| - 1]);
    var r, d := if IsChange(rule) then [rule] else [], if IsChange(data) then [data] else [];
    assert Changes(text, before, after, ids) == earlier + r + d;
    if classification.Rule? {
      assert rule in r;
    } else {
      assert data in d;
    }
  }

  lemma {:induction false} ChangesAreAll(text: Text, before: map<string, Entry>, after: map<string, Entry>, ids: seq<string>,
                                         id: string, classification: Class)
    requires id in ids && IsChange(ChangeOf(text, before, after, id, classification))
    ensures ChangeOf(text, before, after, id, classification) in Changes(text, before, after, ids)
    decreases |ids|
  {
    var n := |ids| - 1;
    if id == ids[n] {
      LastReported(text, before, after, ids, classification);
    } else {
      ChangesAreAll(text, before, after, ids[..n], id, classification);
    }
  }

  lemma SameTexts(text: Text, a: seq<Signature>, b: seq<Signature>)
    requires Injective(text) && TextsOf(text, a) == TextsOf(text, b)
    ensures forall s :: s in a ==> s in b
  {
    forall s | s in a ensures s in b {
      assert text(s) in TextsOf(text, a);
    }
  }

  lemma UnchangedSignatures(text: Text, a: seq<Signature>, b: seq<Signature>)
    requires Injective(text) && TextsOf(text, a) - TextsOf(text, b) == {} && TextsOf(text, b) - TextsOf(text, a) == {}
    requires Ascending(a) && Ascending(b)
    ensures a == b
  {
    assert TextsOf(text, a) == TextsOf(text, b);
    SameTexts(text, a, b);
    SameTexts(text, b, a);
    AscendingUnique(a, b);
  }

  /** No human review: no signature and no scenario came or went. */
  ghost predicate NoReview(text: Text, before: Baseline, after: Baseline, ids: seq<string>) {
    && Changes(text, MapOf(before.scenarios), MapOf(after.scenarios), ids) == []
    && MapOf(before.scenarios).Keys == MapOf(after.scenarios).Keys
  }

  /** Between canonical baselines, a proposal that needs no review only changes revisions, digests and Behaviors. */
  lemma NoReviewMeansProvenance(text: Text, before: Baseline, after: Baseline, ids: seq<string>)
    requires Injective(text) && Writers.Canonical(before) && Writers.Canonical(after)
    requires forall id | id in MapOf(before.scenarios) :: id in ids
    requires NoReview(text, before, after, ids)
    ensures |before.scenarios| == |after.scenarios|
    ensures forall i | 0 <= i < |before.scenarios| ::
      var x, y := before.scenarios[i], after.scenarios[i];
      y == x.(behavior := y.behavior, revision := y.revision, hash := y.hash)
  {
    var was, now := MapOf(before.scenarios), MapOf(after.scenarios);
    StrictIff(before.scenarios);
    StrictIff(after.scenarios);
    MapLists(before.scenarios);
    MapLists(after.scenarios);
    IdsAreKeys(was, before.scenarios);
    IdsAreKeys(now, after.scenarios);
    SameIds(before.scenarios, after.scenarios);
    assert |IdsOf(before.scenarios)| == |IdsOf(after.scenarios)|;
    forall i | 0 <= i < |before.scenarios|
      ensures var x, y := before.scenarios[i], after.scenarios[i];
        y == x.(behavior := y.behavior, revision := y.revision, hash := y.hash)
    {
      var x, y := before.scenarios[i], after.scenarios[i];
      assert IdsOf(before.scenarios)[i] == IdsOf(after.scenarios)[i];
      assert x in before.scenarios && y in after.scenarios && x.scenario == y.scenario;
      SameEntry(text, was, now, ids, x, y);
    }
  }

  lemma NotReported(text: Text, was: map<string, Entry>, now: map<string, Entry>, ids: seq<string>, id: string, classification: Class)
    requires id in ids && Changes(text, was, now, ids) == []
    ensures !IsChange(ChangeOf(text, was, now, id, classification))
  {
    if IsChange(ChangeOf(text, was, now, id, classification)) {
      ChangesAreAll(text, was, now, ids, id, classification);
    }
  }

  lemma SameEntry(text: Text, was: map<string, Entry>, now: map<string, Entry>, ids: seq<string>, x: Entry, y: Entry)
    requires Injective(text) && Ascending(x.rule) && Ascending(x.data) && Ascending(y.rule) && Ascending(y.data)
    requires x.scenario == y.scenario && x.scenario in was && was[x.scenario] == x && x.scenario in now && now[x.scenario] == y
    requires x.scenario in ids && Changes(text, was, now, ids) == []
    ensures x.rule == y.rule && x.data == y.data
  {
    NotReported(text, was, now, ids, x.scenario, Rule);
    NotReported(text, was, now, ids, x.scenario, Data);
    UnchangedSignatures(text, x.rule, y.rule);
    UnchangedSignatures(text, x.data, y.data);
  }

  /** The same scenarios with the same signatures. */
  predicate Alike(before: Baseline, after: Baseline) {
    && |before.scenarios| == |after.scenarios|
    && forall i | 0 <= i < |before.scenarios| ::
      var x, y := before.scenarios[i], after.scenarios[i];
      y == x.(behavior := y.behavior, revision := y.revision, hash := y.hash)
  }

  /** Two maps with the same scenarios and signatures. */
  predicate SameSignatures(was: map<string, Entry>, now: map<string, Entry>) {
    was.Keys == now.Keys && forall id | id in was :: was[id].rule == now[id].rule && was[id].data == now[id].data
  }

  lemma {:induction false} NothingChanged(text: Text, was: map<string, Entry>, now: map<string, Entry>, ids: seq<string>)
    requires SameSignatures(was, now)
    ensures Changes(text, was, now, ids) == []
    decreases |ids|
  {
    if |ids| > 0 {
      var id := ids[|ids| - 1];
      NothingChanged(text, was, now, ids[..|ids| - 1]);
      assert SignaturesOf(was, id, Rule) == SignaturesOf(now, id, Rule) && SignaturesOf(was, id, Data) == SignaturesOf(now, id, Data);
      assert !IsChange(ChangeOf(text, was, now, id, Rule)) && !IsChange(ChangeOf(text, was, now, id, Data));
    }
  }

  lemma AlikeMaps(before: Baseline, after: Baseline)
    requires Writers.Canonical(before) && Writers.Canonical(after) && Alike(before, after)
    ensures SameSignatures(MapOf(before.scenarios), MapOf(after.scenarios))
  {
    var was, now := MapOf(before.scenarios), MapOf(after.scenarios);
    StrictIff(before.scenarios);
    StrictIff(after.scenarios);
    MapLists(before.scenarios);
    MapLists(after.scenarios);
    forall id | id in was ensures id in now && was[id].rule == now[id].rule && was[id].data == now[id].data {
      var i :| 0 <= i < |before.scenarios| && before.scenarios[i] == was[id];
      assert after.scenarios[i] in after.scenarios && after.scenarios[i].scenario == id;
    }
    forall id | id in now ensures id in was {
      var i :| 0 <= i < |after.scenarios| && after.scenarios[i] == now[id];
      assert before.scenarios[i] in before.scenarios && before.scenarios[i].scenario == id;
    }
    assert was.Keys == now.Keys;
  }

  /** Between canonical baselines no review is needed exactly when nothing but Behaviors, revisions and digests changes,
      and then nothing but revisions and digests does exactly when the Behaviors agree. */
  lemma NoReviewIff(text: Text, before: Baseline, after: Baseline, ids: seq<string>)
    requires Injective(text) && Writers.Canonical(before) && Writers.Canonical(after)
    requires forall id | id in MapOf(before.scenarios) :: id in ids
    ensures NoReview(text, before, after, ids) <==> Alike(before, after)
    ensures NoReview(text, before, after, ids) ==>
      ((forall i | 0 <= i < |before.scenarios| ::
          var x, y := before.scenarios[i], after.scenarios[i]; y == x.(revision := y.revision, hash := y.hash)) <==>
       (forall i | 0 <= i < |before.scenarios| :: after.scenarios[i].behavior == before.scenarios[i].behavior))
  {
    if NoReview(text, before, after, ids) {
      NoReviewMeansProvenance(text, before, after, ids);
    }
    if Alike(before, after) {
      AlikeMaps(before, after);
      NothingChanged(text, MapOf(before.scenarios), MapOf(after.scenarios), ids);
    }
  }

  function OneScenario(behavior: string): Baseline {
    Baseline(1, [Entry("login", behavior, "revision", "hash", [], [])])
  }

  lemma OneScenarioIsCanonical(behavior: string)
    ensures Writers.Canonical(OneScenario(behavior))
    ensures MapOf(OneScenario(behavior).scenarios) == map["login" := OneScenario(behavior).scenarios[0]]
  {
    var entries := OneScenario(behavior).scenarios;
    assert entries[..0] == [];
  }

  /** Behaviors are not looked at: two canonical baselines that differ in one need no review. */
  lemma BehaviorNeedsNoReview(text: Text)
    ensures Writers.Canonical(OneScenario("first")) && Writers.Canonical(OneScenario("second"))
    ensures OneScenario("first").scenarios[0].behavior != OneScenario("second").scenarios[0].behavior
    ensures NoReview(text, OneScenario("first"), OneScenario("second"), ["login"])
  {
    OneScenarioIsCanonical("first");
    OneScenarioIsCanonical("second");
    var before, after := MapOf(OneScenario("first").scenarios), MapOf(OneScenario("second").scenarios);
    assert !IsChange(ChangeOf(text, before, after, "login", Rule)) && !IsChange(ChangeOf(text, before, after, "login", Data));
    assert ["login"][..0] == [] && Changes(text, before, after, []) == [];
    assert Changes(text, before, after, ["login"]) == [];
    assert "first"[0] != "second"[0];
  }

  /** An accepted proposal that needs no review changes nothing but revisions and digests. */
  lemma AcceptedWithoutReview(text: Text, before: Baseline, after: Baseline, sha: string, ids: seq<string>)
    requires Injective(text) && Writers.Canonical(before) && Accepted(before, after, sha)
    requires (forall id | id in MapOf(before.scenarios) :: id in ids) && NoReview(text, before, after, ids)
    ensures |before.scenarios| == |after.scenarios|
    ensures forall i | 0 <= i < |before.scenarios| ::
      after.scenarios[i] == before.scenarios[i].(revision := sha, hash := after.scenarios[i].hash)
  {
    AcceptedIsCanonical(before, after, sha);
    NoReviewMeansProvenance(text, before, after, ids);
    StrictIff(before.scenarios);
    MapLists(before.scenarios);
    forall i | 0 <= i < |before.scenarios|
      ensures after.scenarios[i] == before.scenarios[i].(revision := sha, hash := after.scenarios[i].hash)
    {
      assert before.scenarios[i] in before.scenarios;
      assert EntryOk(MapOf(before.scenarios), sha, after.scenarios[i]);
    }
  }
}
