/** Writers of the baseline file that lock, read, replace and verify it, in any interleaving and with crashes. */
module Writers {
  import opened Baselines
  import opened Options
  import opened Signatures
  import opened Sorting

  // ----- the file format

  type Bytes = string

  datatype Decoded = Garbled | Decoded(baseline: Baseline)

  /** canonical_bytes and serde_json::from_slice. */
  datatype Format = Format(write: Baseline -> Bytes, decode: Bytes -> Decoded)

  ghost predicate RoundTrips(f: Format) {
    forall b :: f.decode(f.write(b)) == Decoded(b)
  }

  predicate Canonical(b: Baseline) {
    b.version == 1 && Strict(b.scenarios) && forall e | e in b.scenarios :: Ascending(e.rule) && Ascending(e.data)
  }

  /** Garbled is any error of Baseline::parse. */
  function Parse(f: Format, bytes: Bytes): Decoded {
    var d := f.decode(bytes);
    if d.Decoded? && bytes == f.write(d.baseline) && Canonical(d.baseline) then d else Garbled
  }

  /** Exactly the written canonical baselines are read back. */
  lemma ParseIff(f: Format, bytes: Bytes, b: Baseline)
    requires RoundTrips(f)
    ensures Parse(f, bytes) == Decoded(b) <==> bytes == f.write(b) && Canonical(b)
  {
    assert f.decode(f.write(b)) == Decoded(b);
  }

  predicate SameSet(a: seq<Signature>, b: seq<Signature>) {
    (forall s | s in a :: s in b) && (forall s | s in b :: s in a)
  }

  /** Whether Baseline::check finds nothing to complain about. */
  predicate Checks(saved: Baseline, current: Entry) {
    var k := Place(saved.scenarios, current.scenario);
    k < |saved.scenarios| &&
    var committed := saved.scenarios[k];
    && committed.revision == current.revision && committed.hash == current.hash
    && committed.behavior == current.behavior
    && SameSet(committed.rule, current.rule) && SameSet(committed.data, current.data)
  }

  /** Between canonical baselines the check, which compares sets, lets through exactly the committed entries. */
  lemma ChecksIff(saved: Baseline, current: Entry)
    requires Canonical(saved) && Ascending(current.rule) && Ascending(current.data)
    ensures Checks(saved, current) <==> current in saved.scenarios
  {
    var k := Place(saved.scenarios, current.scenario);
    StrictIff(saved.scenarios);
    if Checks(saved, current) {
      var committed := saved.scenarios[k];
      assert committed in saved.scenarios;
      AscendingUnique(committed.rule, current.rule);
      AscendingUnique(committed.data, current.data);
    }
  }

  // ----- a baseline from a test result

  datatype Class = RuleClass | DataClass
  datatype Difference = Difference(classification: Class, signature: Signature)
  datatype ScenarioResult = ScenarioResult(id: string, behavior: string, hash: string, differences: seq<Difference>)
  datatype TierResult = TierResult(version: nat, tier: string, commit: string, revision: string, scenarios: seq<ScenarioResult>)

  /** Into an ordered set. */
  function Include(x: Signature, s: seq<Signature>): seq<Signature> {
    if |s| == 0 then [x]
    else
      match Compare(x, s[0])
      case Less => [x] + s
      case Equal => s
      case Greater => [s[0]] + Include(x, s[1..])
  }

  function Collected(differences: seq<Difference>, classification: Class): seq<Signature> {
    if |differences| == 0 then []
    else
      var rest := Collected(differences[1..], classification);
      if differences[0].classification == classification then Include(differences[0].signature, rest) else rest
  }

  lemma InFront(x: Signature, s: seq<Signature>)
    requires Ascending(s) && (|s| > 0 ==> Below(x, s[0]))
    ensures Ascending([x] + s)
  {
    var all := [x] + s;
    forall i | 0 <= i < |all| - 1 ensures Below(all[i], all[i + 1]) {
      assert i > 0 ==> all[i] == s[i - 1] && all[i + 1] == s[i];
    }
  }

  lemma {:induction false} IncludeAscends(x: Signature, s: seq<Signature>)
    requires Ascending(s)
    ensures Ascending(Include(x, s)) && forall y :: y in Include(x, s) <==> y == x || y in s
    ensures |Include(x, s)| > 0 && (Include(x, s)[0] == x || (|s| > 0 && Include(x, s)[0] == s[0]))
    decreases |s|
  {
    if |s| == 0 {
    } else {
      CompareOrders(x, s[0], x);
      assert s == [s[0]] + s[1..];
      match Compare(x, s[0])
      case Less => InFront(x, s);
      case Equal =>
      case Greater =>
        IncludeAscends(x, s[1..]);
        InFront(s[0], Include(x, s[1..]));
    }
  }

  /** The signatures of a class, each once and in order. */
  lemma {:induction false} CollectedAscends(differences: seq<Difference>, classification: Class)
    ensures Ascending(Collected(differences, classification))
    ensures forall s :: s in Collected(differences, classification) <==> Difference(classification, s) in differences
    decreases |differences|
  {
    if |differences| > 0 {
      CollectedAscends(differences[1..], classification);
      assert differences == [differences[0]] + differences[1..];
      if differences[0].classification == classification {
        IncludeAscends(differences[0].signature, Collected(differences[1..], classification));
      }
    }
  }

  function EntryOf(r: ScenarioResult, revision: string): Entry {
    Entry(r.id, r.behavior, revision, r.hash, Collected(r.differences, RuleClass), Collected(r.differences, DataClass))
  }

  predicate InCatalogue(catalogue: Catalogue, r: ScenarioResult) {
    r.id in catalogue.golden && catalogue.golden[r.id] == Golden(r.behavior, r.hash)
  }

  function EntriesOf(results: seq<ScenarioResult>, revision: string): (entries: seq<Entry>)
    ensures |entries| == |results|
    ensures forall i | 0 <= i < |entries| :: entries[i] == EntryOf(results[i], revision)
  {
    seq(|results|, i requires 0 <= i < |results| => EntryOf(results[i], revision))
  }

  function Expected(catalogue: Catalogue, requested: Option<string>): seq<string> {
    if requested.None? then Sort(catalogue.ids, TextLe) else [requested.value]
  }

  function FromResult(catalogue: Catalogue, pin: string, commit: string, requested: Option<string>, result: TierResult): Update {
    var scenarios := Sort(EntriesOf(result.scenarios, result.revision), ByScenario);
    if result.version != 2 || result.tier != "tier1" || result.commit != commit || result.revision != pin then Refused
    else if exists i | 0 <= i < |result.scenarios| :: !InCatalogue(catalogue, result.scenarios[i]) then Refused
    else if requested.Some? && requested.value !in catalogue.golden then Refused
    else if IdsOf(scenarios) != Expected(catalogue, requested) then Refused
    else Updated(Baseline(1, scenarios))
  }

  method BaselineFromResult(catalogue: Catalogue, pin: string, commit: string, requested: Option<string>, result: TierResult)
    returns (r: Update)
    ensures r == FromResult(catalogue, pin, commit, requested, result)
  {
    if result.version != 2 || result.tier != "tier1" || result.commit != commit || result.revision != pin {
      return Refused;
    }
    var scenarios: seq<Entry> := [];
    for i := 0 to |result.scenarios|
      invariant |scenarios| == i
      invariant forall j | 0 <= j < i :: InCatalogue(catalogue, result.scenarios[j])
      invariant forall j | 0 <= j < i :: scenarios[j] == EntryOf(result.scenarios[j], result.revision)
    {
      if !InCatalogue(catalogue, result.scenarios[i]) {
        return Refused;
      }
      scenarios := scenarios + [EntryOf(result.scenarios[i], result.revision)];
    }
    assert scenarios == EntriesOf(result.scenarios, result.revision);
    scenarios := Sort(scenarios, ByScenario);
    if (requested.Some? && requested.value !in catalogue.golden) || IdsOf(scenarios) != Expected(catalogue, requested) {
      return Refused;
    }
    r := Updated(Baseline(1, scenarios));
  }

  ghost predicate CatalogueOk(catalogue: Catalogue) {
    && (forall i, j | 0 <= i < j < |catalogue.ids| :: catalogue.ids[i] != catalogue.ids[j])
    && (forall id :: id in catalogue.ids <==> id in catalogue.golden)
  }

  predicate OrderedIds(ids: seq<string>) {
    forall i | 0 <= i < |ids| - 1 :: ids[i] != ids[i + 1] && TextLe(ids[i], ids[i + 1])
  }

  lemma ExpectedInOrder(catalogue: Catalogue, requested: Option<string>)
    requires CatalogueOk(catalogue)
    ensures OrderedIds(Expected(catalogue, requested))
  {
    var ids, sorted := catalogue.ids, Sort(catalogue.ids, TextLe);
    TextLeIsOrder();
    SortSorts(ids, TextLe);
    SortPermutes(ids, TextLe);
    var perm := MultisetsRearrange(ids, sorted);
    forall i | 0 <= i < |sorted| - 1 ensures sorted[i] != sorted[i + 1] {
      assert perm[i] != perm[i + 1];
    }
  }

  lemma OrderedEntries(entries: seq<Entry>)
    requires OrderedIds(IdsOf(entries))
    ensures Strict(entries)
  {
    forall i | 0 <= i < |entries| - 1 ensures Earlier(entries[i], entries[i + 1]) {
      assert IdsOf(entries)[i] == entries[i].scenario && IdsOf(entries)[i + 1] == entries[i + 1].scenario;
    }
  }

  lemma EntriesAscend(results: seq<ScenarioResult>, revision: string, e: Entry)
    requires e in Sort(EntriesOf(results, revision), ByScenario)
    ensures Ascending(e.rule) && Ascending(e.data)
  {
    var made := EntriesOf(results, revision);
    SortPermutes(made, ByScenario);
    assert e in multiset(Sort(made, ByScenario)) && e in made;
    var i :| 0 <= i < |made| && made[i] == e;
    CollectedAscends(results[i].differences, RuleClass);
    CollectedAscends(results[i].differences, DataClass);
  }

  /** An accepted result is a canonical baseline of exactly the requested scenarios. */
  lemma FromResultIsCanonical(catalogue: Catalogue, pin: string, commit: string, requested: Option<string>, result: TierResult)
    requires CatalogueOk(catalogue)
    ensures var r := FromResult(catalogue, pin, commit, requested, result);
      r.Updated? ==> Canonical(r.baseline) && IdsOf(r.baseline.scenarios) == Expected(catalogue, requested)
  {
    var r := FromResult(catalogue, pin, commit, requested, result);
    if r.Updated? {
      ExpectedInOrder(catalogue, requested);
      OrderedEntries(r.baseline.scenarios);
      forall e | e in r.baseline.scenarios ensures Ascending(e.rule) && Ascending(e.data) {
        EntriesAscend(result.scenarios, result.revision, e);
      }
    }
  }

  // ----- what one writer does

  datatype File = Missing | Holding(bytes: Bytes)

  /** Replace one scenario, or everything. */
  datatype Job = Targeted(entry: Entry) | Whole(baseline: Baseline)

  predicate JobOk(job: Job) {
    match job
    case Targeted(e) => Ascending(e.rule) && Ascending(e.data)
    case Whole(b) => Canonical(b)
  }

  /** The job of a run of the tool. */
  function JobOf(requested: Option<string>, current: Baseline): Job
    requires |current.scenarios| > 0
  {
    if requested.Some? then Targeted(current.scenarios[0]) else Whole(current)
  }

  /** The baseline to write, from the file as it was read under the lock. */
  function PlanFor(catalogue: Catalogue, f: Format, file: File, job: Job): Update {
    match job
    case Whole(b) => Updated(b)
    case Targeted(e) =>
      if file.Missing? then Refused
      else
        var read := Parse(f, file.bytes);
        if read.Garbled? then Refused else Replaced(catalogue, read.baseline, e)
  }

  lemma AcceptedJobIsOk(catalogue: Catalogue, pin: string, commit: string, requested: Option<string>, result: TierResult)
    requires CatalogueOk(catalogue)
    ensures var r := FromResult(catalogue, pin, commit, requested, result);
      r.Updated? && |r.baseline.scenarios| > 0 ==> JobOk(JobOf(requested, r.baseline))
  {
    FromResultIsCanonical(catalogue, pin, commit, requested, result);
  }

  lemma PlanIsCanonical(catalogue: Catalogue, f: Format, file: File, job: Job)
    requires JobOk(job)
    ensures var plan := PlanFor(catalogue, f, file, job); plan.Updated? ==> Canonical(plan.baseline)
  {
    if job.Targeted? && file.Holding? {
      var read := Parse(f, file.bytes);
      var plan := PlanFor(catalogue, f, file, job);
      if plan.Updated? {
        ReplacingUpdates(catalogue, read.baseline, job.entry);
        var put := Put(read.baseline.scenarios, job.entry);
        StrictIff(read.baseline.scenarios);
        PutIds(read.baseline.scenarios, job.entry);
        SortPermutes(put, ByScenario);
        forall e | e in plan.baseline.scenarios ensures Ascending(e.rule) && Ascending(e.data) {
          assert e in multiset(plan.baseline.scenarios) && e in put;
        }
      }
    }
  }

  /** The reading back at the end of write_baseline. */
  predicate Verifies(f: Format, file: File, plan: Baseline) {
    file.Holding? &&
    var read := Parse(f, file.bytes);
    read.Decoded? && forall e | e in plan.scenarios :: Checks(read.baseline, e)
  }

  lemma WrittenVerifies(f: Format, plan: Baseline)
    requires RoundTrips(f) && Canonical(plan)
    ensures Verifies(f, Holding(f.write(plan)), plan)
  {
    ParseIff(f, f.write(plan), plan);
    forall e | e in plan.scenarios ensures Checks(plan, e) {
      ChecksIff(plan, e);
    }
  }

  // ----- many writers

  datatype Machine = Machine(plan: (File, Job) -> Update, write: Baseline -> Bytes, verify: (File, Baseline) -> bool)

  function WriteBaseline(catalogue: Catalogue, f: Format): Machine {
    Machine((file: File, job: Job) => PlanFor(catalogue, f, file, job), f.write,
            (file: File, plan: Baseline) => Verifies(f, file, plan))
  }

  /** How far a writer got; the temporary file is only its own. */
  datatype Phase =
    | Waiting
    | Locked
    | Planned(plan: Baseline)
    | Writing(plan: Baseline, temporary: Bytes)
    | Synced(plan: Baseline, temporary: Bytes)
    | Persisted(plan: Baseline)
    | Over(success: bool)

  datatype Writer = Writer(job: Job, phase: Phase)

  /** The file, the writer holding the lock, and the jobs persisted so far, in order. */
  datatype State = State(disk: File, holder: Option<nat>, writers: seq<Writer>, log: seq<Job>)

  /** Write extends the temporary file; Stop is an error return or a crash, and gives the lock back. */
  datatype Action = Lock | Read | Write(length: nat) | Sync | Persist | Verify | Stop

  datatype Event = Event(writer: nat, action: Action)

  function At(s: State, i: nat, phase: Phase): State
    requires i < |s.writers|
  {
    s.(writers := s.writers[i := s.writers[i].(phase := phase)])
  }

  /** Ends a writer and gives the lock back if it is its own. */
  function End(s: State, i: nat, success: bool): State
    requires i < |s.writers|
  {
    At(s, i, Over(success)).(holder := if s.holder == Some(i) then None else s.holder)
  }

  /** One step of one writer; an action it is not ready for changes nothing. */
  function Step(m: Machine, s: State, e: Event): State {
    if e.writer >= |s.writers| then s
    else
      var i, w := e.writer, s.writers[e.writer];
      match e.action
      case Lock =>
        if w.phase.Waiting? && s.holder.None? then At(s, i, Locked).(holder := Some(i)) else s
      case Read =>
        if !w.phase.Locked? then s
        else
          var plan := m.plan(s.disk, w.job);
          if plan.Refused? then End(s, i, false) else At(s, i, Planned(plan.baseline))
      case Write(length) =>
        if w.phase.Planned? then At(s, i, Writing(w.phase.plan, []))
        else if w.phase.Writing? && |w.phase.temporary| <= length <= |m.write(w.phase.plan)|
        then At(s, i, Writing(w.phase.plan, m.write(w.phase.plan)[..length]))
        else s
      case Sync =>
        if w.phase.Writing? && |w.phase.temporary| == |m.write(w.phase.plan)|
        then At(s, i, Synced(w.phase.plan, w.phase.temporary))
        else s
      case Persist =>
        if w.phase.Synced?
        then At(s, i, Persisted(w.phase.plan)).(disk := Holding(w.phase.temporary), log := s.log + [w.job])
        else s
      case Verify =>
        if w.phase.Persisted? then End(s, i, m.verify(s.disk, w.phase.plan)) else s
      case Stop =>
        if w.phase.Over? then s else End(s, i, false)
  }

  function Run(m: Machine, s: State, events: seq<Event>): State {
    if |events| == 0 then s else Step(m, Run(m, s, events[..|events| - 1]), events[|events| - 1])
  }

  // ----- what a run keeps

  function Applied(m: Machine, file: File, job: Job): File {
    var plan := m.plan(file, job);
    if plan.Refused? then file else Holding(m.write(plan.baseline))
  }

  /** The file after the jobs, one after the other. */
  function Content(m: Machine, file: File, log: seq<Job>): File {
    if |log| == 0 then file else Applied(m, Content(m, file, log[..|log| - 1]), log[|log| - 1])
  }

  /** Every job could be done on the file the earlier ones left. */
  ghost predicate AllDone(m: Machine, file: File, log: seq<Job>) {
    |log| == 0 || (AllDone(m, file, log[..|log| - 1]) && m.plan(Content(m, file, log[..|log| - 1]), log[|log| - 1]).Updated?)
  }

  ghost predicate PhaseOk(m: Machine, disk: File, holds: bool, w: Writer) {
    match w.phase
    case Waiting => !holds
    case Locked => holds
    case Planned(plan) => holds && m.plan(disk, w.job) == Updated(plan)
    case Writing(plan, temporary) => holds && m.plan(disk, w.job) == Updated(plan) && temporary <= m.write(plan)
    case Synced(plan, temporary) => holds && m.plan(disk, w.job) == Updated(plan) && temporary == m.write(plan)
    case Persisted(plan) => holds && disk == Holding(m.write(plan)) && Canonical(plan)
    case Over(_) => !holds
  }

  predicate HasWritten(phase: Phase) {
    phase.Persisted? || (phase.Over? && phase.success)
  }

  ghost predicate Inv(m: Machine, start: File, s: State) {
    && s.disk == Content(m, start, s.log) && AllDone(m, start, s.log)
    && (forall job | job in s.log :: JobOk(job))
    && (forall i | 0 <= i < |s.writers| :: JobOk(s.writers[i].job))
    && (forall i | 0 <= i < |s.writers| :: HasWritten(s.writers[i].phase) ==> s.writers[i].job in s.log)
    && (forall i | 0 <= i < |s.writers| :: PhaseOk(m, s.disk, s.holder == Some(i), s.writers[i]))
  }

  /** What the machine's parts must do. */
  ghost predicate Sound(m: Machine) {
    && (forall file, job | JobOk(job) && m.plan(file, job).Updated? :: Canonical(m.plan(file, job).baseline))
    && (forall plan | Canonical(plan) :: m.verify(Holding(m.write(plan)), plan))
  }

  lemma WriteBaselineIsSound(catalogue: Catalogue, f: Format)
    requires RoundTrips(f)
    ensures Sound(WriteBaseline(catalogue, f))
  {
    var m := WriteBaseline(catalogue, f);
    forall file, job | JobOk(job) && m.plan(file, job).Updated? ensures Canonical(m.plan(file, job).baseline) {
      PlanIsCanonical(catalogue, f, file, job);
    }
    forall plan | Canonical(plan) ensures m.verify(Holding(m.write(plan)), plan) {
      WrittenVerifies(f, plan);
    }
  }

  lemma Logged(m: Machine, start: File, log: seq<Job>, job: Job)
    requires AllDone(m, start, log) && m.plan(Content(m, start, log), job).Updated?
    ensures Content(m, start, log + [job]) == Applied(m, Content(m, start, log), job)
    ensures AllDone(m, start, log + [job])
  {
    assert (log + [job])[..|log|] == log;
  }

  /** A step that leaves the file alone and the lock to the others. */
  lemma Moved(m: Machine, start: File, s: State, i: nat, phase: Phase, holder: Option<nat>)
    requires Inv(m, start, s) && i < |s.writers|
    requires forall j: nat | j != i :: holder == Some(j) <==> s.holder == Some(j)
    requires PhaseOk(m, s.disk, holder == Some(i), s.writers[i].(phase := phase))
    requires HasWritten(phase) ==> s.writers[i].job in s.log
    ensures Inv(m, start, At(s, i, phase).(holder := holder))
  {
  }

  lemma PersistKeeps(m: Machine, start: File, s: State, i: nat)
    requires Sound(m) && Inv(m, start, s) && i < |s.writers| && s.writers[i].phase.Synced?
    ensures Inv(m, start, Step(m, s, Event(i, Persist)))
  {
    var w := s.writers[i];
    assert PhaseOk(m, s.disk, s.holder == Some(i), w);
    Logged(m, start, s.log, w.job);
  }

  lemma StepKeeps(m: Machine, start: File, s: State, e: Event)
    requires Sound(m) && Inv(m, start, s)
    ensures Inv(m, start, Step(m, s, e))
  {
    if e.writer < |s.writers| {
      var i, phase := e.writer, s.writers[e.writer].phase;
      var next := Step(m, s, e);
      assert PhaseOk(m, s.disk, s.holder == Some(i), s.writers[i]);
      if e.action.Persist? {
        if phase.Synced? {
          PersistKeeps(m, start, s, i);
        }
      } else if next != s {
        Moved(m, start, s, i, next.writers[i].phase, next.holder);
      }
    }
  }

  lemma {:induction false} RunKeeps(m: Machine, start: File, s: State, events: seq<Event>)
    requires Sound(m) && Inv(m, start, s)
    ensures Inv(m, start, Run(m, s, events))
    decreases |events|
  {
    if |events| > 0 {
      RunKeeps(m, start, s, events[..|events| - 1]);
      StepKeeps(m, start, Run(m, s, events[..|events| - 1]), events[|events| - 1]);
    }
  }

  // ----- the results about all runs

  /** Nobody has started, and nothing is known of the file. */
  ghost predicate Initial(start: File, s: State) {
    && s.disk == start && s.holder.None? && s.log == []
    && forall w | w in s.writers :: w.phase.Waiting? && JobOk(w.job)
  }

  lemma InitialInv(m: Machine, start: File, s: State)
    requires Initial(start, s)
    ensures Inv(m, start, s)
  {
  }

  predicate PastLock(phase: Phase) { !phase.Waiting? && !phase.Over? }

  /** In every interleaving, with crashes, the file is the one found or a complete canonical baseline: the outcome of
      the persisted jobs in lock order. At most one writer is past its lock. */
  lemma FileIsComplete(catalogue: Catalogue, f: Format, start: File, s: State, events: seq<Event>)
    requires RoundTrips(f) && Initial(start, s)
    ensures var m := WriteBaseline(catalogue, f); var end := Run(m, s, events);
      && end.disk == Content(m, start, end.log) && AllDone(m, start, end.log)
      && (if |end.log| == 0 then end.disk == start else end.disk.Holding? && Parse(f, end.disk.bytes).Decoded?)
      && (forall i | 0 <= i < |end.writers| && PastLock(end.writers[i].phase) :: end.holder == Some(i))
      && (forall i | 0 <= i < |end.writers| && end.writers[i].phase == Over(true) :: end.writers[i].job in end.log)
  {
    var m := WriteBaseline(catalogue, f);
    var end := Run(m, s, events);
    WriteBaselineIsSound(catalogue, f);
    InitialInv(m, start, s);
    RunKeeps(m, start, s, events);
    if |end.log| > 0 {
      var n := |end.log| - 1;
      var plan := m.plan(Content(m, start, end.log[..n]), end.log[n]);
      ParseIff(f, f.write(plan.baseline), plan.baseline);
    }
    assert forall i | 0 <= i < |end.writers| && PastLock(end.writers[i].phase) ::
        PhaseOk(m, end.disk, end.holder == Some(i), end.writers[i]);
    assert forall i | 0 <= i < |end.writers| && end.writers[i].phase == Over(true) :: HasWritten(end.writers[i].phase);
  }

  /** Reading back what was just persisted never fails, whatever the other writers do. */
  lemma VerificationSucceeds(catalogue: Catalogue, f: Format, start: File, s: State, events: seq<Event>, i: nat)
    requires RoundTrips(f) && Initial(start, s)
    ensures var m := WriteBaseline(catalogue, f); var end := Run(m, s, events);
      i < |end.writers| && end.writers[i].phase.Persisted? ==>
        Step(m, end, Event(i, Verify)).writers[i].phase == Over(true)
  {
    var m := WriteBaseline(catalogue, f);
    var end := Run(m, s, events);
    WriteBaselineIsSound(catalogue, f);
    InitialInv(m, start, s);
    RunKeeps(m, start, s, events);
    if i < |end.writers| {
      assert PhaseOk(m, end.disk, end.holder == Some(i), end.writers[i]);
    }
  }

  // ----- what the jobs of a run add up to

  function UpdatesOf(m: map<string, Entry>, log: seq<Job>): map<string, Entry> {
    if |log| == 0 then m
    else
      match log[|log| - 1]
      case Targeted(e) => UpdatesOf(m, log[..|log| - 1])[e.scenario := e]
      case Whole(b) => MapOf(b.scenarios)
  }

  /** The file holds the entries it started with, updated job by job. */
  lemma {:induction false} ContentIsUpdates(catalogue: Catalogue, f: Format, start: Baseline, log: seq<Job>)
    returns (b: Baseline)
    requires RoundTrips(f) && Canonical(start) && forall job | job in log :: JobOk(job)
    requires AllDone(WriteBaseline(catalogue, f), Holding(f.write(start)), log)
    ensures Canonical(b) && Content(WriteBaseline(catalogue, f), Holding(f.write(start)), log) == Holding(f.write(b))
    ensures MapOf(b.scenarios) == UpdatesOf(MapOf(start.scenarios), log)
    decreases |log|
  {
    var m := WriteBaseline(catalogue, f);
    if |log| == 0 {
      b := start;
    } else {
      var n := |log| - 1;
      var before := ContentIsUpdates(catalogue, f, start, log[..n]);
      b := m.plan(Holding(f.write(before)), log[n]).baseline;
      PlanIsCanonical(catalogue, f, Holding(f.write(before)), log[n]);
      ParseIff(f, f.write(before), before);
      if log[n].Targeted? {
        ReplacingUpdates(catalogue, before, log[n].entry);
      }
    }
  }

  ghost predicate Untouched(id: string, log: seq<Job>) {
    forall job | job in log :: job.Targeted? && job.entry.scenario != id
  }

  lemma {:induction false} UntouchedInUpdates(m: map<string, Entry>, log: seq<Job>, id: string)
    requires Untouched(id, log)
    ensures id in UpdatesOf(m, log) <==> id in m
    ensures id in m ==> UpdatesOf(m, log)[id] == m[id]
    decreases |log|
  {
    if |log| > 0 {
      var n := |log| - 1;
      assert log[n] in log;
      UntouchedInUpdates(m, log[..n], id);
    }
  }

  /** An entry that no job names stays as it was, byte for byte in the canonical file. */
  lemma UntouchedStays(catalogue: Catalogue, f: Format, start: Baseline, log: seq<Job>, id: string) returns (b: Baseline)
    requires RoundTrips(f) && Canonical(start) && Untouched(id, log) && forall job | job in log :: JobOk(job)
    requires AllDone(WriteBaseline(catalogue, f), Holding(f.write(start)), log)
    ensures Canonical(b) && Content(WriteBaseline(catalogue, f), Holding(f.write(start)), log) == Holding(f.write(b))
    ensures id in MapOf(b.scenarios) <==> id in MapOf(start.scenarios)
    ensures id in MapOf(start.scenarios) ==> MapOf(b.scenarios)[id] == MapOf(start.scenarios)[id]
  {
    b := ContentIsUpdates(catalogue, f, start, log);
    UntouchedInUpdates(MapOf(start.scenarios), log, id);
  }

  /** Each job names one scenario, and no two the same. */
  ghost predicate Separate(log: seq<Job>) {
    && (forall job | job in log :: job.Targeted?)
    && forall i, j | 0 <= i < j < |log| :: log[i].entry.scenario != log[j].entry.scenario
  }

  lemma {:induction false} SeparateUpdates(m: map<string, Entry>, log: seq<Job>)
    requires Separate(log)
    ensures forall job | job in log :: job.entry.scenario in UpdatesOf(m, log) && UpdatesOf(m, log)[job.entry.scenario] == job.entry
    ensures forall id | id in UpdatesOf(m, log) ::
      || (Targeted(UpdatesOf(m, log)[id]) in log && UpdatesOf(m, log)[id].scenario == id)
      || (id in m && m[id] == UpdatesOf(m, log)[id] && Untouched(id, log))
    ensures forall id | id in m :: id in UpdatesOf(m, log)
    decreases |log|
  {
    if |log| > 0 {
      var n := |log| - 1;
      assert log == log[..n] + [log[n]];
      SeparateUpdates(m, log[..n]);
    }
  }

  /** What a canonical baseline must be for each of some separate jobs to be done. */
  predicate AllAcceptable(catalogue: Catalogue, m: map<string, Entry>, log: seq<Job>) {
    && (|log| > 0 ==> forall id | id in m :: id in catalogue.ids)
    && forall job | job in log :: job.Targeted? && Acceptable(catalogue, m, job.entry)
  }

  lemma PlanSucceeds(catalogue: Catalogue, f: Format, b: Baseline, e: Entry)
    requires RoundTrips(f) && Canonical(b)
    ensures PlanFor(catalogue, f, Holding(f.write(b)), Targeted(e)).Updated? <==>
      (forall id | id in MapOf(b.scenarios) :: id in catalogue.ids) && Acceptable(catalogue, MapOf(b.scenarios), e)
  {
    ParseIff(f, f.write(b), b);
    ReplacingSucceeds(catalogue, b, e);
  }

  lemma LastIsSeparate(log: seq<Job>)
    requires Separate(log) && |log| > 0
    ensures var n := |log| - 1; var last := log[n];
      && last.Targeted? && Separate(log[..n]) && Untouched(last.entry.scenario, log[..n]) && log == log[..n] + [last]
      && forall job :: job in log <==> job in log[..n] || job == last
  {
    var n := |log| - 1;
    assert log == log[..n] + [log[n]];
    assert log[n] in log;
    forall job | job in log[..n] ensures job.Targeted? && job.entry.scenario != log[n].entry.scenario {
      var k :| 0 <= k < n && log[..n][k] == job;
      assert log[k] == job && job in log;
    }
  }

  /** Earlier jobs for other scenarios decide nothing about a job. */
  lemma AcceptableThen(catalogue: Catalogue, m: map<string, Entry>, front: seq<Job>, e: Entry)
    requires (forall id :: id in catalogue.ids <==> id in catalogue.golden) && Separate(front) && Untouched(e.scenario, front)
    requires forall job | job in front :: Acceptable(catalogue, m, job.entry)
    ensures Acceptable(catalogue, UpdatesOf(m, front), e) <==> Acceptable(catalogue, m, e)
    ensures (forall id | id in UpdatesOf(m, front) :: id in catalogue.ids) <==> (forall id | id in m :: id in catalogue.ids)
  {
    UntouchedInUpdates(m, front, e.scenario);
    SeparateUpdates(m, front);
    if forall id | id in m :: id in catalogue.ids {
      forall id | id in UpdatesOf(m, front) ensures id in catalogue.ids {
        if id !in m {
          assert Targeted(UpdatesOf(m, front)[id]) in front;
        }
      }
    }
  }

  lemma NextIsDone(catalogue: Catalogue, f: Format, start: Baseline, front: seq<Job>, e: Entry)
    requires RoundTrips(f) && Canonical(start) && Separate(front) && Untouched(e.scenario, front)
    requires (forall job | job in front :: JobOk(job)) && forall id :: id in catalogue.ids <==> id in catalogue.golden
    requires forall job | job in front :: Acceptable(catalogue, MapOf(start.scenarios), job.entry)
    requires AllDone(WriteBaseline(catalogue, f), Holding(f.write(start)), front)
    ensures var m := WriteBaseline(catalogue, f); var entries := MapOf(start.scenarios);
      m.plan(Content(m, Holding(f.write(start)), front), Targeted(e)).Updated? <==>
      (forall id | id in entries :: id in catalogue.ids) && Acceptable(catalogue, entries, e)
  {
    var b := ContentIsUpdates(catalogue, f, start, front);
    PlanSucceeds(catalogue, f, b, e);
    AcceptableThen(catalogue, MapOf(start.scenarios), front, e);
  }

  /** Separate jobs can be done in turn exactly when each could be done on the start. */
  lemma {:induction false} DoneIffAcceptable(catalogue: Catalogue, f: Format, start: Baseline, log: seq<Job>)
    requires RoundTrips(f) && Canonical(start) && Separate(log) && forall job | job in log :: JobOk(job)
    requires forall id :: id in catalogue.ids <==> id in catalogue.golden
    ensures AllDone(WriteBaseline(catalogue, f), Holding(f.write(start)), log) <==>
      AllAcceptable(catalogue, MapOf(start.scenarios), log)
    decreases |log|
  {
    if |log| > 0 {
      var n := |log| - 1;
      LastIsSeparate(log);
      DoneIffAcceptable(catalogue, f, start, log[..n]);
      if AllDone(WriteBaseline(catalogue, f), Holding(f.write(start)), log[..n]) {
        NextIsDone(catalogue, f, start, log[..n], log[n].entry);
      }
    }
  }

  lemma SameContent(catalogue: Catalogue, f: Format, start: Baseline, log: seq<Job>, other: seq<Job>)
    requires RoundTrips(f) && Canonical(start) && forall job | job in log :: JobOk(job)
    requires Separate(log) && Separate(other) && forall job :: job in log <==> job in other
    requires AllDone(WriteBaseline(catalogue, f), Holding(f.write(start)), log)
    requires AllDone(WriteBaseline(catalogue, f), Holding(f.write(start)), other)
    ensures Content(WriteBaseline(catalogue, f), Holding(f.write(start)), log) ==
            Content(WriteBaseline(catalogue, f), Holding(f.write(start)), other)
  {
    var m := MapOf(start.scenarios);
    var a := ContentIsUpdates(catalogue, f, start, log);
    var b := ContentIsUpdates(catalogue, f, start, other);
    SameUpdates(m, log, other);
    StrictUnique(a.scenarios, b.scenarios);
  }

  /** Writers of different scenarios, of which all succeed in one order, succeed in every order of the lock and leave the
      same file. */
  lemma LockOrderDoesNotMatter(catalogue: Catalogue, f: Format, start: Baseline, log: seq<Job>, other: seq<Job>)
    requires RoundTrips(f) && Canonical(start) && forall job | job in log :: JobOk(job)
    requires forall id :: id in catalogue.ids <==> id in catalogue.golden
    requires Separate(log) && multiset(log) == multiset(other)
    requires AllDone(WriteBaseline(catalogue, f), Holding(f.write(start)), log)
    ensures AllDone(WriteBaseline(catalogue, f), Holding(f.write(start)), other)
    ensures Content(WriteBaseline(catalogue, f), Holding(f.write(start)), log) ==
            Content(WriteBaseline(catalogue, f), Holding(f.write(start)), other)
  {
    assert forall job :: job in other <==> job in multiset(other);
    assert forall job :: job in log <==> job in multiset(log);
    StaysSeparate(log, other);
    DoneIffAcceptable(catalogue, f, start, log);
    DoneIffAcceptable(catalogue, f, start, other);
    assert |multiset(log)| == |log| && |multiset(other)| == |other|;
    SameContent(catalogue, f, start, log, other);
  }

  lemma StaysSeparate(log: seq<Job>, other: seq<Job>)
    requires Separate(log) && multiset(log) == multiset(other)
    ensures Separate(other)
  {
    assert forall job :: job in other <==> job in multiset(other);
    assert forall job :: job in log <==> job in multiset(log);
    var perm := MultisetsRearrange(log, other);
    forall i, j | 0 <= i < j < |other| ensures other[i].entry.scenario != other[j].entry.scenario {
      assert perm[i] != perm[j] && other[i] in other && other[j] in other;
    }
  }

  lemma UpdatesAgree(m: map<string, Entry>, log: seq<Job>, other: seq<Job>, id: string)
    requires Separate(log) && Separate(other) && forall job :: job in log <==> job in other
    requires id in UpdatesOf(m, log)
    ensures id in UpdatesOf(m, other) && UpdatesOf(m, other)[id] == UpdatesOf(m, log)[id]
  {
    SeparateUpdates(m, log);
    SeparateUpdates(m, other);
    if Untouched(id, log) {
      UntouchedInUpdates(m, log, id);
      UntouchedInUpdates(m, other, id);
    }
  }

  lemma SameUpdates(m: map<string, Entry>, log: seq<Job>, other: seq<Job>)
    requires Separate(log) && Separate(other) && forall job :: job in log <==> job in other
    ensures UpdatesOf(m, log) == UpdatesOf(m, other)
  {
    forall id | id in UpdatesOf(m, log) ensures id in UpdatesOf(m, other) && UpdatesOf(m, other)[id] == UpdatesOf(m, log)[id] {
      UpdatesAgree(m, log, other, id);
    }
    forall id | id in UpdatesOf(m, other) ensures id in UpdatesOf(m, log) {
      UpdatesAgree(m, other, log, id);
    }
  }
}
