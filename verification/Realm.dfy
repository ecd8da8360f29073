/** The scenario Realm and the store of imported-world snapshots, run after run, with a crash possible at any step. */
module Realm {
  import opened Options

  type Key = string
  type Data = map<string, string>

  // ----- what is on disk

  datatype Seal = Seal(key: Key, manifest: Data)

  /** A directory of the store: its files, state.json, and when it was written. */
  datatype Snapshot = Snapshot(files: Data, seal: Option<Seal>, stamp: nat)

  type Store = map<Key, Snapshot>

  datatype Phase = Starting | Importing | Imported | Ready

  datatype Marker = Marker(phase: Phase, key: Key, commit: string)

  /** The Realm directory: its ownership marker, the world's files, and whether the world runs. */
  datatype Cache = Cache(present: bool, marker: Option<Marker>, data: Option<Data>, running: bool)

  const NO_CACHE := Cache(false, None, None, false)

  /** validate_snapshot gives true; on any other directory under the key it raises. */
  predicate Valid(store: Store, key: Key) {
    key in store && store[key].seal == Some(Seal(key, store[key].files))
  }

  predicate Sealed(store: Store, key: Key) {
    key in store && store[key].seal.Some?
  }

  function SealedKeys(store: Store): set<Key> {
    set key | key in store && Sealed(store, key)
  }

  // ----- one run

  datatype Ask = Ask(key: Key, commit: string, useSnapshot: bool, requireSnapshot: bool)

  /** What comes after sealing: start again, copy the new snapshot, or leave. */
  datatype Goal = ToStart | ToDiscard | ToLeave

  datatype Pc =
    | Idle
    // sealing
    | SealClean | SealCopy | SealReplace | SealRename | SealPrune
    // removing the old Realm, and setting up a new one
    | Discard | Remove | RemoveOnly
    | Make | MarkStarting | CopyIn | FirstStart | MarkImporting | Import | MarkImported | StopImported | StartAgain
    // restoring a ready one
    | RestoreStop | RestoreRemove | RestoreCopy | RestoreStart
    // the caller has it
    | MarkReady | Serve | CatalogueStop

  datatype Process = Process(
    pc: Pc, ask: Ask, saved: bool, goal: Goal, sealKey: Key, base: Option<Key>, kept: set<Key>, doomed: set<Key>)

  /** A finished sealing: the key, the base, the world that was copied, the marker at the time, and the record of the
      imported world. */
  datatype Sealing = Sealing(key: Key, base: Option<Key>, data: Data, marker: Option<Marker>, imported: Option<Data>)

  /** The disk and the run. The last three are for the record and decide nothing: what the world was last started on,
      the data an imported world had when it was first stopped after its import, and the finished sealings. */
  datatype State = State(
    store: Store, pending: map<Key, Snapshot>, cache: Cache, process: Process, clock: nat,
    started: Data, imported: Option<Data>, history: seq<Sealing>)

  datatype Event =
    // A run starts; origin says whether the schema and the game files of the snapshot are acceptable.
    | Begin(ask: Ask, origin: bool)
    | Next
    // One file copied, or erased while a tree is removed.
    | CopyFile(path: string)
    | EraseData(path: string)
    | EraseMarker
    | EraseFile(key: Key, path: string)
    | EraseSeal(key: Key)
    | Drop(key: Key)
    // The new snapshot gets its name; keep is the newest other one.
    | Rename(keep: Option<Key>)
    // The running world writes.
    | World(data: Data)
    | Catalogue(key: Key)
    | Leave
    // An exception, with what its handlers did.
    | Abort(stop: bool, remove: bool)
    | Crash
    | Reboot
    // The stop command.
    | StopCache(preserve: bool)

  function To(s: State, pc: Pc): State { s.(process := s.process.(pc := pc)) }

  function Mark(s: State, phase: Phase): State {
    s.(cache := s.cache.(marker := Some(Marker(phase, s.process.ask.key, s.process.ask.commit))))
  }

  /** The first stop of an imported world is recorded. */
  function Stopped(s: State): State {
    s.(cache := s.cache.(running := false),
       imported := if HasPhase(s.cache, Imported) && s.imported.None? then s.cache.data else s.imported)
  }

  function Started(s: State): State
    requires s.cache.data.Some?
  {
    s.(cache := s.cache.(running := true), started := s.cache.data.value)
  }

  predicate HasPhase(cache: Cache, phase: Phase) {
    cache.marker.Some? && cache.marker.value.phase == phase
  }

  predicate Marked(cache: Cache, phase: Phase, ask: Ask) {
    cache.marker == Some(Marker(phase, ask.key, ask.commit))
  }

  /** Where a run goes after its checks; Idle is an error. */
  function FirstPc(store: Store, cache: Cache, ask: Ask, saved: bool): Pc {
    if ask.useSnapshot && ask.key in store && !Valid(store, ask.key) then Idle
    else if ask.requireSnapshot && !saved then Idle
    else if cache.present && cache.marker.None? then Idle
    else if HasPhase(cache, Importing) then Idle
    else if HasPhase(cache, Imported) && ask.useSnapshot then
      if Marked(cache, Imported, ask) then SealClean else Idle
    else if cache.marker.None? then Make
    else if saved && Marked(cache, Ready, ask) then RestoreStop
    else Discard
  }

  function StepBegin(s: State, ask: Ask, origin: bool): State {
    var saved := ask.useSnapshot && Valid(s.store, ask.key) && origin;
    var pc := FirstPc(s.store, s.cache, ask, saved);
    var run := s.(pending := map[], process := Process(pc, ask, saved, ToDiscard, ask.key, None, {}, {}));
    if pc.SealClean? then Stopped(run) else run
  }

  function StepSealing(s: State): State {
    var p := s.process;
    match p.pc
    case SealClean =>
      if p.base.Some? && !Valid(s.store, p.base.value) then To(s.(pending := map[]), Idle)
      else To(s.(pending := map[p.sealKey := Snapshot(map[], None, s.clock)], clock := s.clock + 1), SealCopy)
    case SealCopy =>
      if p.sealKey in s.pending && s.cache.data == Some(s.pending[p.sealKey].files) then
        var whole := s.pending[p.sealKey];
        To(s.(pending := s.pending[p.sealKey := whole.(seal := Some(Seal(p.sealKey, whole.files)))]), SealReplace)
      else s
    case SealReplace => To(s.(store := s.store - {p.sealKey}), SealRename)
    case SealPrune =>
      if p.doomed != {} then s
      else if p.goal.ToDiscard? then s.(process := p.(pc := Discard, saved := true))
      else To(s, if p.goal.ToStart? then StartAgain else Idle)
    case _ => s
  }

  function StepFresh(s: State): (next: State)
    ensures next.store == s.store && next.history == s.history
  {
    var p := s.process;
    match p.pc
    case Discard => To(Stopped(s), Remove)
    case Remove => To(s.(cache := NO_CACHE), Make)
    case RemoveOnly => To(s.(cache := NO_CACHE), Idle)
    case Make => To(s.(cache := s.cache.(present := true)), if s.cache.present || s.cache.running then Idle else MarkStarting)
    case MarkStarting => To(Mark(s, Starting), if p.saved then CopyIn else FirstStart)
    case FirstStart =>
      var files := if s.cache.data.Some? then s.cache.data.value else map[];
      To(Started(s.(cache := s.cache.(data := Some(files)))), if p.saved then MarkReady else MarkImporting)
    case MarkImporting => To(Mark(s, Importing), Import)
    case Import => To(s, MarkImported)
    case MarkImported => To(Mark(s, Imported).(imported := None), StopImported)
    case StopImported =>
      Stopped(s).(process := p.(pc := SealClean, goal := ToStart, sealKey := p.ask.key, base := None))
    case StartAgain => if s.cache.data.Some? then To(Started(s), MarkReady) else s
    case MarkReady => To(Mark(s, Ready), Serve)
    case _ => s
  }

  /** A removal of a world that is not there raises, as in a Realm cut off while it was restored before. */
  function StepRestore(s: State): (next: State)
    ensures next.store == s.store && next.history == s.history
  {
    match s.process.pc
    case RestoreStop => To(Stopped(s), if s.cache.data.Some? then RestoreRemove else Idle)
    case RestoreRemove => To(s.(cache := s.cache.(data := None)), RestoreCopy)
    case RestoreStart => if s.cache.data.Some? then To(Started(s), MarkReady) else s
    case CatalogueStop => To(Stopped(s), SealClean)
    case _ => s
  }

  /** Copying out of the snapshot: the directory first, then its files. */
  function StepCopy(s: State): (next: State)
    ensures next.store == s.store && next.history == s.history
  {
    var p := s.process;
    if p.ask.key !in s.store then s
    else if s.cache.data.None? then s.(cache := s.cache.(data := Some(map[])))
    else if s.cache.data.value != s.store[p.ask.key].files then s
    else To(s, if p.pc.CopyIn? then FirstStart else RestoreStart)
  }

  function StepNext(s: State): State {
    match s.process.pc
    case SealClean | SealCopy | SealReplace | SealPrune => StepSealing(s)
    case CopyIn | RestoreCopy => StepCopy(s)
    case RestoreStop | RestoreRemove | RestoreStart | CatalogueStop => StepRestore(s)
    case _ => StepFresh(s)
  }

  function StepCopyFile(s: State, path: string): State {
    var p := s.process;
    if p.pc.SealCopy? && p.sealKey in s.pending && s.cache.data.Some? && path in s.cache.data.value then
      var part := s.pending[p.sealKey];
      s.(pending := s.pending[p.sealKey := part.(files := part.files[path := s.cache.data.value[path]])])
    else if (p.pc.CopyIn? || p.pc.RestoreCopy?) && s.cache.data.Some? && p.ask.key in s.store
            && path in s.store[p.ask.key].files then
      s.(cache := s.cache.(data := Some(s.cache.data.value[path := s.store[p.ask.key].files[path]])))
    else s
  }

  /** The snapshots being removed. */
  predicate Going(p: Process, key: Key) {
    (p.pc.SealReplace? && key == p.sealKey) || (p.pc.SealPrune? && key in p.doomed)
  }

  function StepErase(s: State, e: Event): State {
    var p := s.process;
    match e
    case EraseFile(key, path) =>
      if Going(p, key) && key in s.store then
        s.(store := s.store[key := s.store[key].(files := s.store[key].files - {path})])
      else s
    case EraseSeal(key) =>
      if Going(p, key) && key in s.store then s.(store := s.store[key := s.store[key].(seal := None)]) else s
    case Drop(key) =>
      if p.pc.SealPrune? && key in p.doomed then s.(store := s.store - {key}, process := p.(doomed := p.doomed - {key})) else s
    case EraseData(path) =>
      if (p.pc.Remove? || p.pc.RemoveOnly? || p.pc.RestoreRemove?) && s.cache.data.Some? then
        s.(cache := s.cache.(data := Some(s.cache.data.value - {path})))
      else s
    case EraseMarker =>
      if p.pc.Remove? || p.pc.RemoveOnly? then s.(cache := s.cache.(marker := None)) else s
    case _ => s
  }

  predicate Newest(store: Store, others: set<Key>, keep: Option<Key>) {
    (keep.None? ==> others == {})
    && (keep.Some? ==>
          && keep.value in others && keep.value in store
          && forall key | key in others && key in store :: store[key].stamp <= store[keep.value].stamp)
  }

  function StepRename(s: State, keep: Option<Key>): State {
    var p := s.process;
    var others := SealedKeys(s.store) - {p.sealKey};
    if !p.pc.SealRename? || p.sealKey !in s.pending || s.cache.data.None? || (p.base.None? && !Newest(s.store, others, keep)) then s
    else
      var kept := if p.base.Some? then {p.base.value} else if keep.Some? then {keep.value} else {};
      s.(store := s.store[p.sealKey := s.pending[p.sealKey]],
         pending := s.pending - {p.sealKey},
         process := p.(pc := SealPrune, kept := kept, doomed := others - kept),
         history := s.history + [Sealing(p.sealKey, p.base, s.cache.data.value, s.cache.marker, s.imported)])
  }

  /** Handlers keep an imported world and may remove any other Realm they were setting up. */
  function StepAbort(s: State, stop: bool, remove: bool): State {
    var s' := if stop then Stopped(s) else s;
    var retained := (HasPhase(s.cache, Importing) || HasPhase(s.cache, Imported)) && !s.process.pc.MarkReady?;
    To(s', if remove && !retained then RemoveOnly else Idle)
  }

  function StepStop(s: State, preserve: bool): State {
    if !s.process.pc.Idle? || !s.cache.present || s.cache.marker.None? then s
    else if preserve && (HasPhase(s.cache, Importing) || HasPhase(s.cache, Imported)) then Stopped(s)
    else To(Stopped(s), RemoveOnly)
  }

  /** One event; an event that cannot happen changes nothing. */
  function Step(s: State, e: Event): State {
    var p := s.process;
    match e
    case Begin(ask, origin) => if p.pc.Idle? then StepBegin(s, ask, origin) else s
    case Next => if p.pc.Idle? || p.pc.Serve? then s else StepNext(s)
    case CopyFile(path) => StepCopyFile(s, path)
    case EraseData(_) => StepErase(s, e)
    case EraseMarker => StepErase(s, e)
    case EraseFile(_, _) => StepErase(s, e)
    case EraseSeal(_) => StepErase(s, e)
    case Drop(_) => StepErase(s, e)
    case Rename(keep) => StepRename(s, keep)
    case World(data) => if s.cache.running then s.(cache := s.cache.(data := Some(data))) else s
    case Catalogue(key) =>
      if p.pc.Serve? && key != p.ask.key then
        s.(process := p.(pc := CatalogueStop, goal := ToLeave, sealKey := key, base := Some(p.ask.key)))
      else s
    case Leave => if p.pc.Serve? then To(s, Idle) else s
    case Abort(stop, remove) => if p.pc.Idle? then s else StepAbort(s, stop, remove)
    case Crash => To(s, Idle)
    case Reboot => To(Stopped(s), Idle)
    case StopCache(preserve) => StepStop(s, preserve)
  }

  function Run(s: State, events: seq<Event>): State {
    if |events| == 0 then s else Step(Run(s, events[..|events| - 1]), events[|events| - 1])
  }

  // ----- what every run keeps

  /** Every seal in the store was put there by a finished sealing, unless it was there at the start. */
  ghost predicate StoreOk(store: Store, first: Store, history: seq<Sealing>) {
    forall key | Sealed(store, key) ::
      (Sealed(first, key) && store[key].seal == first[key].seal) ||
      exists i :: 0 <= i < |history| && history[i].key == key && store[key].seal == Some(Seal(key, history[i].data))
  }

  /** A sealing without a base takes the imported world of its key; one with a base takes a ready world of the base. */
  ghost predicate SealingOk(h: Sealing) {
    h.marker.Some? &&
    if h.base.None? then h.marker.value.phase.Imported? && h.marker.value.key == h.key
    else h.marker.value.phase.Ready? && h.marker.value.key == h.base.value && h.key != h.base.value
  }

  ghost predicate SealContext(s: State) {
    var p := s.process;
    && !s.cache.running
    && (p.base.None? ==> p.sealKey == p.ask.key && !p.goal.ToLeave? && Marked(s.cache, Imported, p.ask))
    && (p.base.Some? ==> p.base.value == p.ask.key && p.sealKey != p.ask.key && p.goal.ToLeave? && Marked(s.cache, Ready, p.ask))
  }

  predicate Whole(s: State, snapshot: Snapshot) {
    s.cache.data == Some(snapshot.files) && snapshot.seal == Some(Seal(s.process.sealKey, snapshot.files))
  }

  ghost predicate PcOk(s: State) {
    var p, key := s.process, s.process.ask.key;
    match p.pc
    case Idle => true
    case SealClean => SealContext(s)
    case SealCopy => SealContext(s) && (p.base.Some? ==> Valid(s.store, key)) && p.sealKey in s.pending
    case SealReplace =>
      SealContext(s) && (p.base.Some? ==> Valid(s.store, key)) && p.sealKey in s.pending && Whole(s, s.pending[p.sealKey])
    case SealRename =>
      SealContext(s) && (p.base.Some? ==> Valid(s.store, key)) && p.sealKey in s.pending && Whole(s, s.pending[p.sealKey])
    case SealPrune =>
      && SealContext(s) && (p.base.Some? ==> Valid(s.store, key) && p.kept == {key})
      && p.sealKey in s.store && Whole(s, s.store[p.sealKey])
      && p.sealKey !in p.doomed && p.kept !! p.doomed
      && (exists k :: p.kept <= {k})
      && SealedKeys(s.store) <= {p.sealKey} + p.kept + p.doomed
    case Discard => p.saved ==> Valid(s.store, key)
    case Remove => !s.cache.running && (p.saved ==> Valid(s.store, key))
    case RemoveOnly => true
    case Make => p.saved ==> Valid(s.store, key)
    case MarkStarting => !s.cache.running && (p.saved ==> Valid(s.store, key))
    case CopyIn => !s.cache.running && Valid(s.store, key)
    case FirstStart => !s.cache.running && (p.saved ==> Valid(s.store, key) && s.cache.data == Some(s.store[key].files))
    case MarkImporting => true
    case Import => Marked(s.cache, Importing, p.ask)
    case MarkImported => Marked(s.cache, Importing, p.ask)
    case StopImported => Marked(s.cache, Imported, p.ask)
    case StartAgain => !s.cache.running && Valid(s.store, key) && s.cache.data == Some(s.store[key].files)
    case RestoreStop => Valid(s.store, key) && Marked(s.cache, Ready, p.ask)
    case RestoreRemove => !s.cache.running && Valid(s.store, key) && Marked(s.cache, Ready, p.ask)
    case RestoreCopy => !s.cache.running && Valid(s.store, key) && Marked(s.cache, Ready, p.ask)
    case RestoreStart => !s.cache.running && Valid(s.store, key) && s.cache.data == Some(s.store[key].files)
    case MarkReady => Valid(s.store, key) && s.started == s.store[key].files
    case Serve => Valid(s.store, key) && s.started == s.store[key].files && Marked(s.cache, Ready, p.ask)
    case CatalogueStop =>
      && Valid(s.store, key) && Marked(s.cache, Ready, p.ask)
      && p.goal.ToLeave? && p.base == Some(key) && p.sealKey != key
  }

  ghost predicate Inv(first: Store, s: State) {
    && StoreOk(s.store, first, s.history)
    && (forall h | h in s.history :: SealingOk(h))
    && PcOk(s)
  }

  /** Seals may go but not change. */
  lemma StoreShrinks(first: Store, store: Store, next: Store, history: seq<Sealing>)
    requires StoreOk(store, first, history)
    requires forall key | Sealed(next, key) :: Sealed(store, key) && next[key].seal == store[key].seal
    ensures StoreOk(next, first, history)
  {
  }

  lemma StoreGrows(first: Store, store: Store, key: Key, snapshot: Snapshot, history: seq<Sealing>, h: Sealing)
    requires StoreOk(store, first, history) && h.key == key && snapshot.seal == Some(Seal(key, h.data))
    ensures StoreOk(store[key := snapshot], first, history + [h])
  {
    var longer := history + [h];
    assert longer[|history|] == h;
    forall k | Sealed(store, k) && k != key
      ensures (Sealed(first, k) && store[k].seal == first[k].seal) ||
              exists i :: 0 <= i < |longer| && longer[i].key == k && store[k].seal == Some(Seal(k, longer[i].data))
    {
      if i :| 0 <= i < |history| && history[i].key == k && store[k].seal == Some(Seal(k, history[i].data)) {
        assert longer[i] == history[i];
      }
    }
  }

  lemma BeginKeeps(s: State, ask: Ask, origin: bool)
    requires PcOk(s) && s.process.pc.Idle?
    ensures PcOk(StepBegin(s, ask, origin))
  {
  }

  lemma CleaningKeeps(s: State)
    requires PcOk(s) && s.process.pc.SealClean?
    ensures PcOk(StepSealing(s)) && StepSealing(s).store == s.store && StepSealing(s).history == s.history
  {
  }

  lemma SealingKeeps(s: State)
    requires PcOk(s) && s.process.pc.SealCopy?
    ensures PcOk(StepSealing(s)) && StepSealing(s).store == s.store && StepSealing(s).history == s.history
  {
  }

  lemma ReplacingKeeps(first: Store, s: State)
    requires Inv(first, s) && s.process.pc.SealReplace?
    ensures Inv(first, StepSealing(s))
  {
    StoreShrinks(first, s.store, StepSealing(s).store, s.history);
  }

  lemma PruningKeeps(s: State)
    requires PcOk(s) && s.process.pc.SealPrune?
    ensures PcOk(StepSealing(s)) && StepSealing(s).store == s.store && StepSealing(s).history == s.history
  {
  }

  predicate Setup(pc: Pc) {
    pc.Discard? || pc.Remove? || pc.RemoveOnly? || pc.Make? || pc.MarkStarting? || pc.FirstStart?
  }

  lemma SetupKeeps(s: State)
    requires PcOk(s) && Setup(s.process.pc)
    ensures PcOk(StepFresh(s))
  {
  }

  predicate OnImport(pc: Pc) {
    pc.MarkImporting? || pc.Import? || pc.MarkImported? || pc.StopImported?
  }

  lemma ImportKeeps(s: State)
    requires PcOk(s) && OnImport(s.process.pc)
    ensures PcOk(StepFresh(s))
  {
  }

  lemma ReadyKeeps(s: State)
    requires PcOk(s) && !Setup(s.process.pc) && !OnImport(s.process.pc)
    ensures PcOk(StepFresh(s))
  {
  }

  lemma RestoreKeeps(s: State)
    requires PcOk(s) && (s.process.pc.RestoreStop? || s.process.pc.RestoreRemove?)
    ensures PcOk(StepRestore(s))
  {
  }

  lemma StopOrStartKeeps(s: State)
    requires PcOk(s) && (s.process.pc.RestoreStart? || s.process.pc.CatalogueStop?)
    ensures PcOk(StepRestore(s))
  {
  }

  lemma CopyOutKeeps(s: State)
    requires PcOk(s) && s.process.pc.CopyIn?
    ensures PcOk(StepCopy(s))
  {
  }

  lemma CopyBackKeeps(s: State)
    requires PcOk(s) && s.process.pc.RestoreCopy?
    ensures PcOk(StepCopy(s))
  {
  }

  predicate OnSeal(pc: Pc) {
    pc.SealClean? || pc.SealCopy? || pc.SealReplace? || pc.SealPrune?
  }

  lemma NextSealingKeeps(first: Store, s: State)
    requires Inv(first, s) && OnSeal(s.process.pc)
    ensures Inv(first, StepSealing(s))
  {
    match s.process.pc
    case SealClean => CleaningKeeps(s);
    case SealCopy => SealingKeeps(s);
    case SealReplace => ReplacingKeeps(first, s);
    case SealPrune => PruningKeeps(s);
  }

  lemma FreshKeeps(s: State)
    requires PcOk(s)
    ensures PcOk(StepFresh(s))
  {
    if Setup(s.process.pc) { SetupKeeps(s); } else if OnImport(s.process.pc) { ImportKeeps(s); } else { ReadyKeeps(s); }
  }

  lemma QuietKeeps(s: State)
    requires PcOk(s) && !OnSeal(s.process.pc)
    ensures PcOk(StepNext(s)) && StepNext(s).store == s.store && StepNext(s).history == s.history
  {
    match s.process.pc
    case CopyIn => CopyOutKeeps(s);
    case RestoreCopy => CopyBackKeeps(s);
    case RestoreStop | RestoreRemove => RestoreKeeps(s);
    case RestoreStart | CatalogueStop => StopOrStartKeeps(s);
    case _ => FreshKeeps(s);
  }

  lemma NextKeeps(first: Store, s: State)
    requires Inv(first, s)
    ensures Inv(first, StepNext(s))
  {
    if OnSeal(s.process.pc) { NextSealingKeeps(first, s); } else { QuietKeeps(s); }
  }

  lemma CopyKeeps(s: State, path: string)
    requires PcOk(s)
    ensures PcOk(StepCopyFile(s, path))
  {
  }

  lemma EraseKeeps(s: State, e: Event)
    requires PcOk(s)
    ensures PcOk(StepErase(s, e))
  {
  }

  lemma EraseShrinks(first: Store, s: State, e: Event)
    requires StoreOk(s.store, first, s.history)
    ensures StoreOk(StepErase(s, e).store, first, s.history) && StepErase(s, e).history == s.history
  {
    StoreShrinks(first, s.store, StepErase(s, e).store, s.history);
  }

  lemma RenameKeeps(first: Store, s: State, keep: Option<Key>)
    requires Inv(first, s)
    ensures Inv(first, StepRename(s, keep))
  {
    var p := s.process;
    if StepRename(s, keep) != s {
      var h := Sealing(p.sealKey, p.base, s.cache.data.value, s.cache.marker, s.imported);
      StoreGrows(first, s.store, p.sealKey, s.pending[p.sealKey], s.history, h);
    }
  }

  lemma WorldKeeps(s: State, data: Data)
    requires PcOk(s)
    ensures PcOk(Step(s, World(data)))
  {
  }

  predicate Ending(e: Event) {
    e.Catalogue? || e.Leave? || e.Abort? || e.Crash? || e.Reboot? || e.StopCache?
  }

  lemma LeavingKeeps(s: State, e: Event)
    requires PcOk(s) && (e.Catalogue? || e.Leave? || e.StopCache?)
    ensures PcOk(Step(s, e))
  {
  }

  lemma CuttingKeeps(s: State, e: Event)
    requires PcOk(s) && (e.Abort? || e.Crash? || e.Reboot?)
    ensures PcOk(Step(s, e))
  {
  }

  lemma EndingKeeps(s: State, e: Event)
    requires PcOk(s) && Ending(e)
    ensures PcOk(Step(s, e)) && Step(s, e).store == s.store && Step(s, e).history == s.history
  {
    if e.Abort? || e.Crash? || e.Reboot? { CuttingKeeps(s, e); } else { LeavingKeeps(s, e); }
  }

  lemma StepKeeps(first: Store, s: State, e: Event)
    requires Inv(first, s)
    ensures Inv(first, Step(s, e))
  {
    if Ending(e) {
      EndingKeeps(s, e);
    } else if e.World? {
      WorldKeeps(s, e.data);
    } else if e.Begin? {
      if s.process.pc.Idle? { BeginKeeps(s, e.ask, e.origin); }
    } else if e.Next? {
      if !s.process.pc.Idle? && !s.process.pc.Serve? { NextKeeps(first, s); }
    } else if e.CopyFile? {
      CopyKeeps(s, e.path);
    } else if e.Rename? {
      RenameKeeps(first, s, e.keep);
    } else {
      EraseKeeps(s, e);
      EraseShrinks(first, s, e);
    }
  }

  lemma {:induction false} RunKeeps(first: Store, s: State, events: seq<Event>)
    requires Inv(first, s)
    ensures Inv(first, Run(s, events))
    decreases |events|
  {
    if |events| > 0 {
      RunKeeps(first, s, events[..|events| - 1]);
      StepKeeps(first, Run(s, events[..|events| - 1]), events[|events| - 1]);
    }
  }

  // ----- the results about all runs

  /** No run is under way; store and Realm may be anything. */
  predicate Resting(s: State) {
    s.process.pc.Idle? && s.history == []
  }

  lemma RestingInv(s: State)
    requires Resting(s)
    ensures Inv(s.store, s)
  {
  }

  /** A caller only ever gets a Realm that is marked ready for its key and commit and was last started on exactly the
      sealed files of that key. */
  lemma ServedIsSealed(s: State, events: seq<Event>)
    requires Resting(s)
    ensures var end := Run(s, events);
      end.process.pc.Serve? ==>
        var ask := end.process.ask;
        Marked(end.cache, Ready, ask) && Valid(end.store, ask.key) && end.started == end.store[ask.key].files
  {
    RestingInv(s);
    RunKeeps(s.store, s, events);
  }

  /** What passes validation under a key is what was there before, or the whole of a stopped world that was copied
      under that key: the imported world of the key, or a ready world of the base. */
  lemma ValidIsWhole(s: State, events: seq<Event>, key: Key)
    requires Resting(s)
    ensures var end := Run(s, events);
      Valid(end.store, key) ==>
        || (key in s.store && s.store[key].seal == end.store[key].seal)
        || exists i :: 0 <= i < |end.history| && end.history[i].key == key && end.history[i].data == end.store[key].files
                       && SealingOk(end.history[i])
  {
    RestingInv(s);
    RunKeeps(s.store, s, events);
  }

  /** A completed sealing leaves the new snapshot, its base if it has one, and no more than two sealed ones in all. */
  lemma SealingLeavesTwo(s: State, events: seq<Event>)
    requires Resting(s)
    ensures var before := Run(s, events); var after := Step(before, Next); var p := before.process;
      p.pc.SealPrune? && !after.process.pc.SealPrune? ==>
        && Valid(after.store, p.sealKey) && (p.base.Some? ==> Valid(after.store, p.base.value))
        && |SealedKeys(after.store)| <= 2
  {
    RestingInv(s);
    RunKeeps(s.store, s, events);
    var before := Run(s, events);
    var p := before.process;
    if p.pc.SealPrune? && p.doomed == {} {
      var k :| p.kept <= {k};
      assert SealedKeys(before.store) <= {p.sealKey, k} by {
        assert SealedKeys(before.store) <= {p.sealKey} + p.kept + p.doomed == {p.sealKey} + p.kept;
      }
      AtMostTwo(SealedKeys(before.store), p.sealKey, k);
    }
  }

  lemma AtMostTwo(keys: set<Key>, a: Key, b: Key)
    requires keys <= {a, b}
    ensures |keys| <= 2
  {
    var rest := {a, b} - keys;
    assert keys + rest == {a, b} && keys !! rest;
    assert |keys| + |rest| == |{a, b}|;
  }

  predicate Abandoned(s: State) {
    s.process.pc.Idle? && s.cache.present && HasPhase(s.cache, Importing)
  }

  lemma AbandonedStep(s: State, e: Event)
    requires Abandoned(s) && e != StopCache(false)
    ensures var next := Step(s, e);
      Abandoned(next) && next.cache.marker == s.cache.marker && next.store == s.store && next.history == s.history
  {
  }

  /** A world left in the middle of its import is never sealed, copied or served: until the stop command removes it,
      every run ends at once. */
  lemma {:induction false} AbandonedStays(s: State, events: seq<Event>)
    requires Abandoned(s) && forall e | e in events :: e != StopCache(false)
    ensures var end := Run(s, events);
      Abandoned(end) && end.cache.marker == s.cache.marker && end.store == s.store && end.history == s.history
    decreases |events|
  {
    if |events| > 0 {
      var n := |events| - 1;
      assert events[n] in events && forall e | e in events[..n] :: e in events;
      AbandonedStays(s, events[..n]);
      AbandonedStep(Run(s, events[..n]), events[n]);
    }
  }

  // ----- what is sealed is the import, unless a run was cut off in the wrong place

  /** An imported world has not been stopped yet, or has stayed as it was then. */
  predicate Tidy(s: State) {
    HasPhase(s.cache, Imported) ==> s.imported.None? || (!s.cache.running && s.cache.data == s.imported)
  }

  /** A run is cut off and leaves an imported world running again, or changed since it was first stopped. */
  predicate CutOff(s: State, e: Event) {
    (e.Crash? || e.Reboot? || e.Abort?) && !Tidy(Step(s, e)) && Step(s, e).process.pc.Idle?
  }

  /** Started again but not yet marked ready, or being removed. */
  predicate Spoiling(pc: Pc) { pc.MarkReady? || pc.Remove? || pc.RemoveOnly? }

  /** Every sealing without a base took the world as it was when it was first stopped after its import. */
  ghost predicate SealedAsImported(history: seq<Sealing>) {
    forall h | h in history && h.base.None? :: h.imported == Some(h.data)
  }

  ghost predicate ImportOk(s: State) {
    var p := s.process;
    && (!Spoiling(p.pc) ==> Tidy(s))
    && (p.pc.CopyIn? || p.pc.FirstStart? ==> !HasPhase(s.cache, Imported))
    && ((OnSeal(p.pc) || p.pc.SealRename?) && p.base.None? ==> s.imported == s.cache.data)
    && SealedAsImported(s.history)
  }

  ghost predicate NeverCutOff(s: State, events: seq<Event>)
    decreases |events|
  {
    |events| == 0 ||
    (NeverCutOff(s, events[..|events| - 1]) && !CutOff(Run(s, events[..|events| - 1]), events[|events| - 1]))
  }

  lemma SealingImport(s: State)
    requires PcOk(s) && ImportOk(s) && OnSeal(s.process.pc)
    ensures ImportOk(StepSealing(s))
  {
  }

  lemma SetupImport(s: State)
    requires PcOk(s) && ImportOk(s) && Setup(s.process.pc)
    ensures ImportOk(StepFresh(s))
  {
  }

  lemma ImportingImport(s: State)
    requires PcOk(s) && ImportOk(s) && OnImport(s.process.pc)
    ensures ImportOk(StepFresh(s))
  {
  }

  lemma ReadyImport(s: State)
    requires PcOk(s) && ImportOk(s) && !Setup(s.process.pc) && !OnImport(s.process.pc)
    requires s.process.pc.StartAgain? || s.process.pc.MarkReady? || s.process.pc.SealRename?
    ensures ImportOk(StepFresh(s))
  {
  }

  lemma RestoreImport(s: State)
    requires PcOk(s) && ImportOk(s) && (s.process.pc.RestoreStop? || s.process.pc.RestoreRemove?)
    ensures ImportOk(StepRestore(s))
  {
  }

  lemma LastRestoreImport(s: State)
    requires PcOk(s) && ImportOk(s) && (s.process.pc.RestoreStart? || s.process.pc.CatalogueStop?)
    ensures ImportOk(StepRestore(s))
  {
  }

  lemma CopyOutImport(s: State)
    requires PcOk(s) && ImportOk(s) && (s.process.pc.CopyIn? || s.process.pc.RestoreCopy?)
    ensures ImportOk(StepCopy(s))
  {
  }

  lemma NextImport(s: State)
    requires PcOk(s) && ImportOk(s) && !s.process.pc.Idle? && !s.process.pc.Serve?
    ensures ImportOk(StepNext(s))
  {
    match s.process.pc
    case SealClean | SealCopy | SealReplace | SealPrune => SealingImport(s);
    case CopyIn | RestoreCopy => CopyOutImport(s);
    case RestoreStop | RestoreRemove => RestoreImport(s);
    case RestoreStart | CatalogueStop => LastRestoreImport(s);
    case StartAgain | MarkReady | SealRename => ReadyImport(s);
    case _ => if Setup(s.process.pc) { SetupImport(s); } else { ImportingImport(s); }
  }

  lemma BeginImport(s: State, ask: Ask, origin: bool)
    requires ImportOk(s) && s.process.pc.Idle?
    ensures ImportOk(StepBegin(s, ask, origin))
  {
  }

  lemma FilesImport(s: State, e: Event)
    requires PcOk(s) && ImportOk(s) && !Ending(e) && !e.Next? && !e.Begin? && !e.Rename?
    ensures ImportOk(Step(s, e))
  {
  }

  lemma RenameImport(s: State, keep: Option<Key>)
    requires PcOk(s) && ImportOk(s)
    ensures ImportOk(StepRename(s, keep))
  {
  }

  lemma CuttingImport(s: State, e: Event)
    requires PcOk(s) && ImportOk(s) && (e.Abort? || e.Crash? || e.Reboot?) && !CutOff(s, e)
    ensures ImportOk(Step(s, e))
  {
  }

  lemma LeavingImport(s: State, e: Event)
    requires PcOk(s) && ImportOk(s) && (e.Catalogue? || e.Leave? || e.StopCache?)
    ensures ImportOk(Step(s, e))
  {
  }

  lemma StepImport(s: State, e: Event)
    requires PcOk(s) && ImportOk(s) && !CutOff(s, e)
    ensures ImportOk(Step(s, e))
  {
    if e.Next? {
      if !s.process.pc.Idle? && !s.process.pc.Serve? { NextImport(s); }
    } else if e.Begin? {
      if s.process.pc.Idle? { BeginImport(s, e.ask, e.origin); }
    } else if e.Rename? {
      RenameImport(s, e.keep);
    } else if !Ending(e) {
      FilesImport(s, e);
    } else if e.Abort? || e.Crash? || e.Reboot? {
      CuttingImport(s, e);
    } else {
      LeavingImport(s, e);
    }
  }

  lemma {:induction false} RunImport(first: Store, s: State, events: seq<Event>)
    requires Inv(first, s) && ImportOk(s) && NeverCutOff(s, events)
    ensures ImportOk(Run(s, events))
    decreases |events|
  {
    if |events| > 0 {
      var n := |events| - 1;
      RunImport(first, s, events[..n]);
      RunKeeps(first, s, events[..n]);
      StepImport(Run(s, events[..n]), events[n]);
    }
  }

  /** Unless a run is cut off like that, what is sealed without a base is the imported world as it was when it was first
      stopped after its import. */
  lemma ImportsAreSealed(s: State, events: seq<Event>)
    requires Resting(s) && Tidy(s) && NeverCutOff(s, events)
    ensures SealedAsImported(Run(s, events).history)
  {
    RestingInv(s);
    RunImport(s.store, s, events);
  }

  /** Such a cut only happens at the steps named. */
  lemma CutOffPlaces(s: State, e: Event)
    requires PcOk(s) && ImportOk(s) && CutOff(s, e)
    ensures Spoiling(s.process.pc) && HasPhase(s.cache, Imported)
  {
  }

  // ----- and a run cut off there can seal another world

  predicate Cutting(e: Event) { e.Crash? || e.Reboot? || e.Abort? }

  lemma {:induction false} Uncut(s: State, events: seq<Event>)
    requires forall e | e in events :: !Cutting(e)
    ensures NeverCutOff(s, events)
    decreases |events|
  {
    if |events| > 0 {
      var n := |events| - 1;
      assert events[n] in events && forall e | e in events[..n] :: e in events;
      Uncut(s, events[..n]);
    }
  }

  lemma {:induction false} RunAppend(s: State, a: seq<Event>, b: seq<Event>)
    ensures Run(s, a + b) == Run(Run(s, a), b)
    decreases |b|
  {
    if |b| == 0 {
      assert a + b == a;
    } else {
      var n := |b| - 1;
      assert (a + b)[..|a| + n] == a + b[..n];
      RunAppend(s, a, b[..n]);
    }
  }

  lemma RunOne(s: State, e: Event)
    ensures Run(s, [e]) == Step(s, e)
  {
    assert [e][..0] == [];
    assert Run(s, [e][..0]) == s;
  }

  lemma RunFirst(s: State, e: Event, rest: seq<Event>)
    ensures Run(s, [e] + rest) == Run(Step(s, e), rest)
  {
    RunAppend(s, [e], rest);
    RunOne(s, e);
  }

  /** Files copied so far. */
  predicate Part(files: Data, data: Data) {
    forall path | path in files :: path in data && files[path] == data[path]
  }

  lemma OneMoreFile(files: Data, data: Data, path: string)
    requires Part(files, data) && path in data && path !in files
    ensures Part(files[path := data[path]], data)
    ensures |data.Keys - files[path := data[path]].Keys| < |data.Keys - files.Keys|
  {
    assert data.Keys - files[path := data[path]].Keys == (data.Keys - files.Keys) - {path};
  }

  /** The world's files, and those of its copy. */
  predicate CopyOf(s: State, part: Snapshot, data: Data) {
    && s.process.pc.SealCopy? && s.process.sealKey in s.pending && s.pending[s.process.sealKey] == part
    && s.cache.data == Some(data) && Part(part.files, data)
  }

  function WithCopy(s: State, part: Snapshot, files: Data): State {
    s.(pending := s.pending[s.process.sealKey := part.(files := files)])
  }

  lemma CopyOne(s: State, part: Snapshot, data: Data, path: string)
    requires CopyOf(s, part, data) && path in data && path !in part.files
    ensures var more := part.files[path := data[path]]; var next := Step(s, CopyFile(path));
      next == WithCopy(s, part, more) && CopyOf(next, part.(files := more), data)
  {
  }

  lemma CopyTwice(s: State, part: Snapshot, more: Data, files: Data)
    ensures WithCopy(WithCopy(s, part, more), part.(files := more), files) == WithCopy(s, part, files)
  {
    var key := s.process.sealKey;
    assert s.pending[key := part.(files := more)][key := part.(files := files)] == s.pending[key := part.(files := files)];
  }

  lemma CopyDone(s: State, part: Snapshot, data: Data)
    requires CopyOf(s, part, data) && data.Keys <= part.files.Keys
    ensures WithCopy(s, part, data) == s
  {
    assert part.files == data;
    assert part.(files := data) == part;
    assert s.pending[s.process.sealKey := part] == s.pending;
  }

  /** The copy of a stopped world can always be finished. */
  lemma {:induction false} CopyAll(s: State, part: Snapshot, data: Data) returns (events: seq<Event>)
    requires CopyOf(s, part, data)
    ensures Run(s, events) == WithCopy(s, part, data) && forall e | e in events :: e.CopyFile?
    decreases |data.Keys - part.files.Keys|
  {
    if data.Keys <= part.files.Keys {
      events := [];
      CopyDone(s, part, data);
    } else {
      var path :| path in data && path !in part.files;
      var more := part.files[path := data[path]];
      OneMoreFile(part.files, data, path);
      CopyOne(s, part, data, path);
      var rest := CopyAll(WithCopy(s, part, more), part.(files := more), data);
      events := [CopyFile(path)] + rest;
      RunFirst(s, CopyFile(path), rest);
      CopyTwice(s, part, more, data);
    }
  }

  lemma {:induction false} NewestOf(store: Store, others: set<Key>) returns (keep: Option<Key>)
    requires others <= store.Keys
    ensures Newest(store, others, keep)
    decreases |others|
  {
    keep := None;
    if |others| > 0 {
      var key :| key in others;
      keep := NewestOf(store, others - {key});
      if keep.None? || store[keep.value].stamp < store[key].stamp {
        keep := Some(key);
      }
    }
  }

  /** The stopped world of a run that is sealing without a base. */
  predicate Copying(s: State, data: Data) {
    s.process.base.None? && s.cache.data == Some(data)
  }

  lemma SealCopied(s: State, data: Data, keep: Option<Key>)
    requires s.process.pc.SealRename? && Copying(s, data) && s.process.sealKey in s.pending
    requires s.pending[s.process.sealKey] == Snapshot(data, Some(Seal(s.process.sealKey, data)), s.pending[s.process.sealKey].stamp)
    requires Newest(s.store, SealedKeys(s.store) - {s.process.sealKey}, keep)
    ensures var end := Step(s, Rename(keep)); var key := s.process.sealKey;
      && Valid(end.store, key) && end.store[key].files == data
      && end.history == s.history + [Sealing(key, None, data, s.cache.marker, s.imported)]
  {
  }

  lemma SealFromCopy(s: State, data: Data) returns (events: seq<Event>)
    requires s.process.pc.SealCopy? && Copying(s, data) && s.process.sealKey in s.pending
    requires s.pending[s.process.sealKey].files == data
    ensures forall e | e in events :: !Cutting(e)
    ensures var end := Run(s, events); var key := s.process.sealKey;
      && Valid(end.store, key) && end.store[key].files == data
      && end.history == s.history + [Sealing(key, None, data, s.cache.marker, s.imported)]
  {
    var s1 := Step(s, Next);
    var s2 := Step(s1, Next);
    var keep := NewestOf(s2.store, SealedKeys(s2.store) - {s.process.sealKey});
    SealCopied(s2, data, keep);
    events := [Next] + ([Next] + [Rename(keep)]);
    RunOne(s2, Rename(keep));
    RunFirst(s1, Next, [Rename(keep)]);
    RunFirst(s, Next, [Next] + [Rename(keep)]);
  }

  lemma SealFromStart(s: State, data: Data) returns (events: seq<Event>)
    requires s.process.pc.SealClean? && Copying(s, data)
    ensures forall e | e in events :: !Cutting(e)
    ensures var end := Run(s, events); var key := s.process.sealKey;
      && Valid(end.store, key) && end.store[key].files == data
      && end.history == s.history + [Sealing(key, None, data, s.cache.marker, s.imported)]
  {
    var key := s.process.sealKey;
    var s1 := Step(s, Next);
    var copies := CopyAll(s1, s1.pending[key], data);
    var s2 := Run(s1, copies);
    var rest := SealFromCopy(s2, data);
    events := [Next] + (copies + rest);
    RunAppend(s1, copies, rest);
    RunFirst(s, Next, copies + rest);
  }

  /** An imported world at rest that its own inputs can seal. */
  predicate Sealable(s: State) {
    && s.process.pc.Idle? && HasPhase(s.cache, Imported) && s.cache.data.Some?
    && (s.cache.marker.value.key in s.store ==> Valid(s.store, s.cache.marker.value.key))
  }

  /** Asking again with the inputs of an imported world seals it as it is then. */
  lemma SealAgain(s: State) returns (events: seq<Event>)
    requires Sealable(s) && s.imported.Some?
    ensures forall e | e in events :: !Cutting(e)
    ensures var end := Run(s, events); var key, data := s.cache.marker.value.key, s.cache.data.value;
      && Valid(end.store, key) && end.store[key].files == data
      && end.history == s.history + [Sealing(key, None, data, s.cache.marker, s.imported)]
  {
    var m := s.cache.marker.value;
    var ask := Ask(m.key, m.commit, true, false);
    var asked := Step(s, Begin(ask, true));
    assert asked.process.pc.SealClean? && asked.process.base.None? && asked.process.sealKey == m.key;
    var rest := SealFromStart(asked, s.cache.data.value);
    events := [Begin(ask, true)] + rest;
    RunFirst(s, Begin(ask, true), rest);
  }

  lemma LastSealing(history: seq<Sealing>, h: Sealing)
    requires h.base.None? && h.imported != Some(h.data)
    ensures !SealedAsImported(history + [h])
  {
    assert h in history + [h];
  }

  /** An imported world that runs again or has changed can be sealed so. */
  lemma UntidyIsSealed(s: State) returns (events: seq<Event>)
    requires Sealable(s) && !Tidy(s)
    ensures NeverCutOff(s, events) && !SealedAsImported(Run(s, events).history)
  {
    var key := s.cache.marker.value.key;
    if s.cache.running {
      var other: Data := map["world" := ""];
      assert "world" in other;
      var data := if s.imported == Some(map[]) then other else map[];
      var next := Step(s, World(data));
      var rest := SealAgain(next);
      LastSealing(s.history, Sealing(key, None, data, s.cache.marker, s.imported));
      events := [World(data)] + rest;
      RunFirst(s, World(data), rest);
    } else {
      events := SealAgain(s);
      LastSealing(s.history, Sealing(key, None, s.cache.data.value, s.cache.marker, s.imported));
    }
    Uncut(s, events);
  }

  /** Between two runs: whatever happens next, short of another cut, imports are sealed as they were first stopped,
      exactly when an imported world that can be sealed is tidy. */
  lemma SealsAsImportedIff(first: Store, s: State)
    requires Inv(first, s) && s.process.pc.Idle? && SealedAsImported(s.history)
    requires HasPhase(s.cache, Imported) ==> Sealable(s)
    ensures (forall events | NeverCutOff(s, events) :: SealedAsImported(Run(s, events).history)) <==> Tidy(s)
  {
    if Tidy(s) {
      forall events | NeverCutOff(s, events) ensures SealedAsImported(Run(s, events).history) {
        RunImport(first, s, events);
      }
    } else {
      var events := UntidyIsSealed(s);
    }
  }

  // ----- three runs that do

  const ASK := Ask("key", "commit", true, false)

  const IMPORT: Data := map["world" := "imported", "accounts" := "imported"]

  const CHANGED: Data := map["world" := "changed"]

  const ERASED: Data := map["world" := "imported"]

  /** Nothing there. */
  function Nothing(): State {
    State(map[], map[], NO_CACHE, Process(Idle, ASK, false, ToDiscard, "", None, {}, {}), 0, map[], None, [])
  }

  lemma RunThree(s: State, a: Event, b: Event, c: Event)
    ensures Run(s, [a, b, c]) == Step(Step(Step(s, a), b), c)
  {
    RunFirst(s, a, [b, c]);
    RunFirst(Step(s, a), b, [c]);
    RunOne(Step(Step(s, a), b), c);
    assert [a] + [b, c] == [a, b, c] && [b] + [c] == [b, c];
  }

  /** A first run until its world is imported and stopped. */
  function ImportRun(): seq<Event> {
    [Begin(ASK, true), Next, Next] + [Next, Next, World(IMPORT)] + [Next, Next, Next]
  }

  /** Its world, at a step after that. */
  function Held(running: bool, data: Data): Cache {
    Cache(true, Some(Marker(Imported, "key", "commit")), Some(data), running)
  }

  function Sealer(pc: Pc): Process { Process(pc, ASK, false, ToStart, "key", None, {}, {}) }

  function Fresh(pc: Pc, marker: Option<Marker>, data: Option<Data>): State {
    State(map[], map[], Cache(true, marker, data, data.Some?), Process(pc, ASK, false, ToDiscard, "key", None, {}, {}), 0,
          map[], None, [])
  }

  function ImportStopped(): State {
    State(map[], map[], Held(false, IMPORT), Sealer(SealClean), 0, map[], Some(IMPORT), [])
  }

  lemma RunStarts()
    ensures Run(Nothing(), [Begin(ASK, true), Next, Next]) == Fresh(FirstStart, Some(Marker(Starting, "key", "commit")), None)
  {
    RunThree(Nothing(), Begin(ASK, true), Next, Next);
    assert Step(Nothing(), Begin(ASK, true)).process == Process(Make, ASK, false, ToDiscard, "key", None, {}, {});
  }

  lemma RunImports()
    ensures Run(Fresh(FirstStart, Some(Marker(Starting, "key", "commit")), None), [Next, Next, World(IMPORT)]) ==
            Fresh(Import, Some(Marker(Importing, "key", "commit")), Some(IMPORT))
  {
    RunThree(Fresh(FirstStart, Some(Marker(Starting, "key", "commit")), None), Next, Next, World(IMPORT));
  }

  lemma RunStops()
    ensures Run(Fresh(Import, Some(Marker(Importing, "key", "commit")), Some(IMPORT)), [Next, Next, Next]) == ImportStopped()
  {
    RunThree(Fresh(Import, Some(Marker(Importing, "key", "commit")), Some(IMPORT)), Next, Next, Next);
  }

  lemma ImportRuns()
    ensures Run(Nothing(), ImportRun()) == ImportStopped()
  {
    RunStarts();
    RunImports();
    RunStops();
    RunAppend(Nothing(), [Begin(ASK, true), Next, Next] + [Next, Next, World(IMPORT)], [Next, Next, Next]);
    RunAppend(Nothing(), [Begin(ASK, true), Next, Next], [Next, Next, World(IMPORT)]);
  }

  /** The imported world is sealed and started again, and changes before the Realm is marked ready. */
  function StartAgainRun(): seq<Event> {
    [Next, CopyFile("world"), CopyFile("accounts")] + [Next, Next, Rename(None)] + [Next, Next, World(CHANGED)]
  }

  lemma SealRuns()
    ensures Run(ImportStopped(), [Next, CopyFile("world"), CopyFile("accounts")]) ==
            State(map[], map["key" := Snapshot(IMPORT, None, 0)], Held(false, IMPORT), Sealer(SealCopy), 1, map[], Some(IMPORT), [])
  {
    RunThree(ImportStopped(), Next, CopyFile("world"), CopyFile("accounts"));
    var s1 := Step(ImportStopped(), Next);
    var s2 := Step(s1, CopyFile("world"));
    var s3 := Step(s2, CopyFile("accounts"));
    assert s1.pending == map["key" := Snapshot(map[], None, 0)];
    assert s2.pending == map["key" := Snapshot(map["world" := "imported"], None, 0)];
    assert s3.pending["key"].files == IMPORT;
    assert s3.pending == map["key" := Snapshot(IMPORT, None, 0)];
  }

  /** The snapshot of the import. */
  function ImportSnapshot(): Snapshot { Snapshot(IMPORT, Some(Seal("key", IMPORT)), 0) }

  function ImportSealing(): Sealing {
    Sealing("key", None, IMPORT, Some(Marker(Imported, "key", "commit")), Some(IMPORT))
  }

  lemma RenameRuns()
    ensures Run(State(map[], map["key" := Snapshot(IMPORT, None, 0)], Held(false, IMPORT), Sealer(SealCopy), 1, map[], Some(IMPORT), []),
                [Next, Next, Rename(None)]) ==
            State(map["key" := ImportSnapshot()], map[], Held(false, IMPORT), Sealer(SealPrune), 1, map[], Some(IMPORT), [ImportSealing()])
  {
    var s := State(map[], map["key" := Snapshot(IMPORT, None, 0)], Held(false, IMPORT), Sealer(SealCopy), 1, map[], Some(IMPORT), []);
    RunThree(s, Next, Next, Rename(None));
    var s1 := Step(s, Next);
    assert s1.pending == map["key" := ImportSnapshot()];
    var s2 := Step(s1, Next);
    assert s2.store == map[] && SealedKeys(s2.store) == {};
    var s3 := Step(s2, Rename(None));
    assert s3.store == map["key" := ImportSnapshot()] && s3.pending == map[];
    assert s3.history == [ImportSealing()];
  }

  /** At a step behind the sealing of the import. */
  function SealedImport(pc: Pc, running: bool, data: Data, started: Data): State {
    State(map["key" := ImportSnapshot()], map[], Held(running, data), Sealer(pc), 1, started, Some(IMPORT), [ImportSealing()])
  }

  lemma WorldStarts()
    ensures Step(SealedImport(SealPrune, false, IMPORT, map[]), Next) == SealedImport(StartAgain, false, IMPORT, map[])
    ensures Step(SealedImport(StartAgain, false, IMPORT, map[]), Next) == SealedImport(MarkReady, true, IMPORT, IMPORT)
  {
  }

  lemma WorldRuns()
    ensures Run(SealedImport(SealPrune, false, IMPORT, map[]), [Next, Next, World(CHANGED)]) == SealedImport(MarkReady, true, CHANGED, IMPORT)
  {
    WorldStarts();
    RunThree(SealedImport(SealPrune, false, IMPORT, map[]), Next, Next, World(CHANGED));
  }

  lemma StartAgainRuns()
    ensures Run(ImportStopped(), StartAgainRun()) ==
            SealedImport(MarkReady, true, CHANGED, IMPORT)
  {
    SealRuns();
    RenameRuns();
    WorldRuns();
    RunAppend(ImportStopped(), [Next, CopyFile("world"), CopyFile("accounts")] + [Next, Next, Rename(None)], [Next, Next, World(CHANGED)]);
    RunAppend(ImportStopped(), [Next, CopyFile("world"), CopyFile("accounts")], [Next, Next, Rename(None)]);
  }

  lemma Different()
    ensures CHANGED != IMPORT && ERASED != IMPORT
  {
    assert "accounts" in IMPORT && "accounts" !in CHANGED && "accounts" !in ERASED;
  }

  /** Cut off before the ready mark: the snapshot of the import is replaced by one of the changed world. */
  lemma CutBeforeReady() returns (rest: seq<Event>)
    ensures Resting(Nothing()) && Tidy(Nothing())
    ensures var cut := Run(Nothing(), ImportRun() + StartAgainRun()); var end := Run(Step(cut, Crash), rest);
      && cut.process.pc.MarkReady? && CutOff(cut, Crash)
      && Valid(end.store, "key") && end.store["key"].files == CHANGED && !SealedAsImported(end.history)
  {
    ImportRuns();
    StartAgainRuns();
    Different();
    RunAppend(Nothing(), ImportRun(), StartAgainRun());
    var cut := Run(Nothing(), ImportRun() + StartAgainRun());
    var idle := Step(cut, Crash);
    rest := SealAgain(idle);
    LastSealing(idle.history, Sealing("key", None, CHANGED, idle.cache.marker, idle.imported));
  }

  /** The imported world is removed by a run that must not use the snapshot. */
  function RemoveRun(): seq<Event> {
    [Crash, Begin(ASK.(useSnapshot := false), true), Next] + [EraseData("accounts")]
  }

  lemma RemoveRuns()
    ensures var end := Run(ImportStopped(), RemoveRun());
      && end.process.pc.Remove? && end.store == map[] && end.cache == Held(false, ERASED)
      && end.imported == Some(IMPORT) && end.history == []
  {
    RunAppend(ImportStopped(), [Crash, Begin(ASK.(useSnapshot := false), true), Next], [EraseData("accounts")]);
    RunThree(ImportStopped(), Crash, Begin(ASK.(useSnapshot := false), true), Next);
    var s := Run(ImportStopped(), [Crash, Begin(ASK.(useSnapshot := false), true), Next]);
    assert s.process.pc.Remove? && s.cache == Held(false, IMPORT);
    RunOne(s, EraseData("accounts"));
    assert IMPORT - {"accounts"} == ERASED;
  }

  /** Cut off while the old Realm is removed: a world with files missing is sealed as valid. */
  lemma CutWhileRemoving() returns (rest: seq<Event>)
    ensures var cut := Run(Nothing(), ImportRun() + RemoveRun()); var end := Run(Step(cut, Crash), rest);
      && cut.process.pc.Remove? && CutOff(cut, Crash)
      && Valid(end.store, "key") && end.store["key"].files == ERASED && !SealedAsImported(end.history)
  {
    ImportRuns();
    RemoveRuns();
    Different();
    RunAppend(Nothing(), ImportRun(), RemoveRun());
    var cut := Run(Nothing(), ImportRun() + RemoveRun());
    var idle := Step(cut, Crash);
    rest := SealAgain(idle);
    LastSealing(idle.history, Sealing("key", None, ERASED, idle.cache.marker, idle.imported));
  }

  function AtSealer(pc: Pc, data: Data): State {
    State(map[], map[], Held(false, data), Sealer(pc), 0, map[], Some(IMPORT), [])
  }

  lemma StopStarts()
    ensures Step(ImportStopped(), Crash) == AtSealer(Idle, IMPORT)
    ensures Step(AtSealer(Idle, IMPORT), StopCache(false)) == AtSealer(RemoveOnly, IMPORT)
  {
  }

  lemma StopErases()
    ensures Step(AtSealer(RemoveOnly, IMPORT), EraseData("accounts")) == AtSealer(RemoveOnly, ERASED)
  {
    assert IMPORT - {"accounts"} == ERASED;
  }

  lemma StopRuns()
    ensures Run(ImportStopped(), [Crash, StopCache(false), EraseData("accounts")]) == AtSealer(RemoveOnly, ERASED)
  {
    StopStarts();
    StopErases();
    RunThree(ImportStopped(), Crash, StopCache(false), EraseData("accounts"));
  }

  /** Cut off while the stop command removes the Realm: likewise. */
  lemma CutWhileStopping() returns (rest: seq<Event>)
    ensures var cut := Run(Nothing(), ImportRun() + [Crash, StopCache(false), EraseData("accounts")]);
      var end := Run(Step(cut, Crash), rest);
      && cut.process.pc.RemoveOnly? && CutOff(cut, Crash)
      && Valid(end.store, "key") && end.store["key"].files == ERASED && !SealedAsImported(end.history)
  {
    ImportRuns();
    StopRuns();
    Different();
    RunAppend(Nothing(), ImportRun(), [Crash, StopCache(false), EraseData("accounts")]);
    var cut := Run(Nothing(), ImportRun() + [Crash, StopCache(false), EraseData("accounts")]);
    var idle := Step(cut, Crash);
    rest := SealAgain(idle);
    LastSealing(idle.history, Sealing("key", None, ERASED, idle.cache.marker, idle.imported));
  }
}
