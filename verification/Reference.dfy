/** Ownership of the Reference Server's containers, and the clean database behind every use, with a crash possible at
    any step. */
module Reference {
  import opened Options

  type Id = string
  type Key = string
  type Path = string
  type Data = string

  datatype Service = Auth | Database | World

  // ----- what is outside the process

  /** Containers by project and service; one for each, as compose keeps them. */
  datatype Slot = Slot(project: string, service: Service)
  datatype Container = Container(id: Id, running: bool)
  type Docker = map<Slot, Container>

  datatype Phase = Starting | Restoring | Invalid | Ready

  /** The marker file. */
  datatype Owned = Owned(phase: Phase, key: Key, project: string, dump: Path, containers: map<Service, Id>)

  function IdsOf(docker: Docker, project: string): map<Service, Id> {
    map service | service in {Auth, Database, World} && Slot(project, service) in docker :: docker[Slot(project, service)].id
  }

  // ----- one run

  /** Own is owned_reference_ids, followed by the docker stop of stop_reference if stop is set. */
  datatype Pc =
    | Idle
    | Own(after: Pc, stop: bool)
    | StopIds(after: Pc)
    | Reject | WriteOwned | Create | HaveAll | Prepare
    | RestoreMark | StartDatabase | Load | Restored
    | MarkInvalid | StartWorld | Wait | Serve | MarkReady
    | Releasing | Down | Unlink

  /** Memory of the run: the marker's value, and whether the containers are being given up. */
  datatype Process = Process(pc: Pc, owned: Owned, key: Key, dump: Path, release: bool)

  /** startedFrom records what the database held when the world was last started. */
  datatype State = State(
    marker: Option<Owned>, docker: Docker, database: Data, dumps: map<Path, Data>, process: Process, startedFrom: Data)

  datatype Event =
    // scenario_reference_server; ok says whether pins and provenance are as expected.
    | Begin(key: Key, dump: Path, project: string, ok: bool)
    | Next
    // compose creates a container.
    | Make(service: Service, id: Id)
    // The baseline dump is written, unless it was already there.
    | Prepared(written: Option<Data>)
    // Part of the dump was loaded.
    | Loading(data: Data)
    // The running world writes.
    | Play(data: Data)
    | Leave
    // The release of the stop command, or of a run that does not keep the containers.
    | Release
    | Abort
    | Crash
    | Reboot
    // Somebody else removes a container or replaces it by one that is not running.
    | Outside(slot: Slot, container: Option<Id>)

  function To(s: State, pc: Pc): State { s.(process := s.process.(pc := pc)) }

  function Write(s: State, owned: Owned, pc: Pc): State {
    s.(marker := Some(owned), process := s.process.(owned := owned, pc := pc))
  }

  function StepBegin(s: State, key: Key, dump: Path, project: string, ok: bool): State {
    if s.marker.Some? then
      s.(process := Process(Own(if ok then WriteOwned else Reject, false), s.marker.value, key, dump, false))
    else if !ok || exists service: Service :: Slot(project, service) in s.docker then s
    else s.(process := Process(WriteOwned, Owned(Starting, key, project, dump, map[]), key, dump, false))
  }

  /** Records the ids of a server that is starting, once; otherwise they must be the recorded ones. */
  function StepOwn(s: State, after: Pc, stop: bool): State {
    var owned := s.process.owned;
    var ids := IdsOf(s.docker, owned.project);
    var recorded :=
      if ids != map[] && owned.containers == map[] && owned.phase.Starting? then owned.(containers := ids) else owned;
    if ids != recorded.containers then To(s, Idle)
    else Write(s, recorded, if stop && ids != map[] then StopIds(after) else after)
  }

  /** docker stop. */
  function StopContainers(docker: Docker, ids: set<Id>): Docker {
    map slot | slot in docker :: if docker[slot].id in ids then docker[slot].(running := false) else docker[slot]
  }

  function StartServices(docker: Docker, project: string, services: set<Service>): Docker {
    map slot | slot in docker ::
      if slot.project == project && slot.service in services then docker[slot].(running := true) else docker[slot]
  }

  function StepNext(s: State): State {
    var p := s.process;
    match p.pc
    case Own(after, stop) => StepOwn(s, after, stop)
    case StopIds(after) => To(s.(docker := StopContainers(s.docker, p.owned.containers.Values)), after)
    case Reject => Write(s, p.owned.(phase := Invalid), Own(Idle, true))
    case WriteOwned => Write(s, p.owned.(dump := p.dump), Create)
    case Create => To(s, if p.owned.containers == map[] then Own(HaveAll, false) else HaveAll)
    case HaveAll => if p.owned.containers.Keys == {Auth, Database, World} then To(s, Own(Prepare, true)) else To(s, Own(Idle, true))
    case RestoreMark =>
      if p.owned.dump in s.dumps then Write(s, p.owned.(phase := Restoring), Own(StartDatabase, true))
      else To(s, Own(Idle, true))
    case StartDatabase => To(s.(docker := StartServices(s.docker, p.owned.project, {Database})), Load)
    case Load => if p.owned.dump in s.dumps then To(s.(database := s.dumps[p.owned.dump]), Own(Restored, true)) else s
    case Restored => To(s, if p.release then Own(Down, true) else MarkInvalid)
    case MarkInvalid => Write(s, p.owned.(phase := Invalid, key := p.key), StartWorld)
    case StartWorld =>
      To(s.(docker := StartServices(s.docker, p.owned.project, {Auth, Database, World}), startedFrom := s.database), Wait)
    case Wait => To(s, Serve)
    case MarkReady => Write(s, p.owned.(phase := Ready), Idle)
    case Releasing =>
      if p.owned.dump in s.dumps then To(s, RestoreMark) else To(s, if p.owned.phase.Starting? then Own(Down, true) else Idle)
    case Down => To(s.(docker := map slot | slot in s.docker && slot.project != p.owned.project :: s.docker[slot]), Unlink)
    case Unlink => To(s.(marker := None), Idle)
    case _ => s
  }

  predicate Runs(docker: Docker, slot: Slot) { slot in docker && docker[slot].running }

  function Step(s: State, e: Event): State {
    var p := s.process;
    match e
    case Begin(key, dump, project, ok) => if p.pc.Idle? then StepBegin(s, key, dump, project, ok) else s
    case Next => StepNext(s)
    case Make(service, id) =>
      if p.pc.Create? && p.owned.containers == map[] && Slot(p.owned.project, service) !in s.docker
      then s.(docker := s.docker[Slot(p.owned.project, service) := Container(id, false)]) else s
    case Prepared(written) =>
      if p.pc.Prepare? then To(if written.Some? then s.(dumps := s.dumps[p.owned.dump := written.value]) else s, RestoreMark) else s
    case Loading(data) => if p.pc.Load? then s.(database := data) else s
    case Play(data) => if Runs(s.docker, Slot(p.owned.project, World)) then s.(database := data) else s
    case Leave => if p.pc.Serve? then To(s, MarkReady) else s
    case Release =>
      if p.pc.Idle? && s.marker.Some?
      then s.(process := Process(Own(Releasing, false), s.marker.value, s.marker.value.key, s.marker.value.dump, true)) else s
    case Abort => if p.pc.Idle? || p.pc.WriteOwned? then To(s, Idle) else To(s, Own(Idle, true))
    case Crash => To(s, Idle)
    case Reboot =>
      To(s.(docker := map slot | slot in s.docker :: s.docker[slot].(running := false)), Idle)
    case Outside(slot, container) =>
      if container.None? then s.(docker := s.docker - {slot})
      else s.(docker := s.docker[slot := Container(container.value, false)])
  }

  function Run(s: State, events: seq<Event>): State {
    if |events| == 0 then s else Step(Run(s, events[..|events| - 1]), events[|events| - 1])
  }

  // ----- what every run keeps

  /** The memory of the run agrees with the marker. */
  ghost predicate Agrees(s: State) {
    s.marker == Some(s.process.owned)
  }

  ghost predicate WorldStopped(s: State) {
    !Runs(s.docker, Slot(s.process.owned.project, World))
  }

  /** The database holds the dump, and no world can change it. */
  ghost predicate Clean(s: State) {
    WorldStopped(s) && s.process.owned.dump in s.dumps && s.database == s.dumps[s.process.owned.dump]
  }

  /** The world was last started on the dump, with the marker written before. */
  ghost predicate StartedClean(s: State) {
    && s.process.owned.phase.Invalid? && s.process.owned.dump in s.dumps
    && s.startedFrom == s.dumps[s.process.owned.dump]
  }

  /** The containers of the project are the recorded ones, or do not run. */
  ghost predicate OnlyOwnRun(s: State) {
    forall service: Service :: Runs(s.docker, Slot(s.process.owned.project, service)) ==>
      s.docker[Slot(s.process.owned.project, service)].id in s.process.owned.containers.Values
  }

  ghost predicate NoneRun(s: State) {
    forall service: Service :: !Runs(s.docker, Slot(s.process.owned.project, service))
  }

  /** Where the program goes after checking, and perhaps stopping, its containers. */
  predicate Follows(after: Pc, stop: bool) {
    match after
    case Idle | WriteOwned | Reject | HaveAll | Prepare | Releasing => true
    case StartDatabase | Restored | Down => stop
    case _ => false
  }

  /** What holds at a point of the run, apart from the agreement with the marker. */
  ghost predicate PcOk(s: State, pc: Pc) {
    match pc
    case Own(after, stop) => Follows(after, stop) && (after.Restored? ==> Clean(s))
    case StopIds(after) =>
      && Follows(after, true) && OnlyOwnRun(s) && s.process.owned.containers != map[]
      && (after.Restored? ==> Clean(s))
    case StartDatabase => WorldStopped(s)
    case Load => WorldStopped(s)
    case Restored => Clean(s)
    case MarkInvalid => Clean(s)
    case StartWorld => Clean(s) && s.process.owned.phase.Invalid?
    case Wait => StartedClean(s)
    case Serve => StartedClean(s)
    case Down => NoneRun(s)
    case _ => true
  }

  ghost predicate Inv(s: State) {
    s.process.pc.Idle? ||
    (PcOk(s, s.process.pc) &&
     (Agrees(s) || (s.process.pc.WriteOwned? && s.marker.None? && s.process.owned.containers == map[])))
  }

  lemma IdsAreOwn(docker: Docker, project: string)
    ensures forall service: Service :: Slot(project, service) in docker ==>
      service in IdsOf(docker, project) && docker[Slot(project, service)].id in IdsOf(docker, project).Values
  {
    forall service: Service | Slot(project, service) in docker
      ensures service in IdsOf(docker, project) && docker[Slot(project, service)].id in IdsOf(docker, project).Values
    {
      assert service == Auth || service == Database || service == World;
      assert IdsOf(docker, project)[service] == docker[Slot(project, service)].id;
    }
  }

  lemma OwnKeeps(s: State)
    requires Inv(s) && s.process.pc.Own?
    ensures Inv(StepNext(s))
  {
    IdsAreOwn(s.docker, s.process.owned.project);
  }

  lemma StopKeeps(s: State)
    requires Inv(s) && s.process.pc.StopIds?
    ensures Inv(StepNext(s))
  {
  }

  predicate OnSetup(pc: Pc) {
    pc.Reject? || pc.WriteOwned? || pc.Create? || pc.HaveAll?
  }

  lemma SetupKeeps(s: State)
    requires Inv(s) && OnSetup(s.process.pc)
    ensures Inv(StepNext(s))
  {
  }

  predicate OnRestore(pc: Pc) {
    pc.RestoreMark? || pc.StartDatabase? || pc.Load? || pc.Restored?
  }

  lemma RestoreKeeps(s: State)
    requires Inv(s) && OnRestore(s.process.pc)
    ensures Inv(StepNext(s))
  {
  }

  predicate OnStart(pc: Pc) {
    pc.MarkInvalid? || pc.StartWorld? || pc.Wait? || pc.MarkReady?
  }

  lemma StartKeeps(s: State)
    requires Inv(s) && OnStart(s.process.pc)
    ensures Inv(StepNext(s))
  {
  }

  predicate OnRelease(pc: Pc) {
    pc.Releasing? || pc.Down? || pc.Unlink?
  }

  lemma ReleaseKeeps(s: State)
    requires Inv(s) && OnRelease(s.process.pc)
    ensures Inv(StepNext(s))
  {
  }

  lemma NextKeeps(s: State)
    requires Inv(s) && !s.process.pc.Own? && !s.process.pc.StopIds?
    ensures Inv(StepNext(s))
  {
    var pc := s.process.pc;
    if OnSetup(pc) {
      SetupKeeps(s);
    } else if OnRestore(pc) {
      RestoreKeeps(s);
    } else if OnStart(pc) {
      StartKeeps(s);
    } else if OnRelease(pc) {
      ReleaseKeeps(s);
    } else {
      assert StepNext(s) == s;
    }
  }

  predicate Inside(e: Event) {
    e.Begin? || e.Make? || e.Prepared? || e.Loading? || e.Leave? || e.Release?
  }

  lemma InsideKeeps(s: State, e: Event)
    requires Inv(s) && Inside(e)
    ensures Inv(Step(s, e))
  {
  }

  lemma OutsideKeeps(s: State, e: Event)
    requires Inv(s) && (e.Play? || e.Abort? || e.Crash? || e.Reboot? || e.Outside?)
    ensures Inv(Step(s, e))
  {
  }

  lemma StepKeeps(s: State, e: Event)
    requires Inv(s)
    ensures Inv(Step(s, e))
  {
    if !e.Next? {
      if Inside(e) { InsideKeeps(s, e); } else { OutsideKeeps(s, e); }
    } else if s.process.pc.Own? {
      OwnKeeps(s);
    } else if s.process.pc.StopIds? {
      StopKeeps(s);
    } else {
      NextKeeps(s);
    }
  }

  lemma {:induction false} RunKeeps(s: State, events: seq<Event>)
    requires Inv(s)
    ensures Inv(Run(s, events))
    decreases |events|
  {
    if |events| > 0 {
      RunKeeps(s, events[..|events| - 1]);
      StepKeeps(Run(s, events[..|events| - 1]), events[|events| - 1]);
    }
  }

  // ----- the results about all runs

  /** Whatever was left behind, a caller only gets a server whose world was started on exactly the restored dump, and
      whose marker on disk says that its world can no longer be trusted. */
  lemma ServedIsRestored(s: State, events: seq<Event>)
    requires s.process.pc.Idle?
    ensures var end := Run(s, events);
      end.process.pc.Serve? ==>
        && end.marker == Some(end.process.owned) && end.marker.value.phase.Invalid?
        && end.marker.value.dump in end.dumps && end.startedFrom == end.dumps[end.marker.value.dump]
  {
    RunKeeps(s, events);
  }

  /** The world is started only right after the marker was written, on a database that holds the dump. */
  lemma StartsOnRestored(s: State, events: seq<Event>)
    requires s.process.pc.Idle?
    ensures var end := Run(s, events);
      end.process.pc.StartWorld? ==> Clean(end) && end.marker.Some? && end.marker.value.phase.Invalid?
  {
    RunKeeps(s, events);
  }

  lemma StopsOnlyOwn(s: State, e: Event, slot: Slot)
    requires Inv(s) && !e.Reboot? && !e.Outside?
    requires Runs(s.docker, slot) && !Runs(Step(s, e).docker, slot)
    ensures s.process.pc.StopIds? && s.marker.Some? && s.docker[slot].id in s.marker.value.containers.Values
  {
  }

  /** Apart from reboots and other people, only containers with recorded ids are ever stopped. */
  lemma OnlyRecordedAreStopped(s: State, events: seq<Event>, e: Event, slot: Slot)
    requires s.process.pc.Idle? && !e.Reboot? && !e.Outside?
    ensures var before := Run(s, events);
      Runs(before.docker, slot) && !Runs(Step(before, e).docker, slot) ==>
        before.marker.Some? && before.docker[slot].id in before.marker.value.containers.Values
  {
    RunKeeps(s, events);
    var before := Run(s, events);
    if Runs(before.docker, slot) && !Runs(Step(before, e).docker, slot) {
      StopsOnlyOwn(before, e, slot);
    }
  }

  /** The marker is there after every event. */
  ghost predicate Keeps(s: State, events: seq<Event>)
    decreases |events|
  {
    Run(s, events).marker.Some? && (|events| == 0 || Keeps(s, events[..|events| - 1]))
  }

  lemma IdsStay(s: State, e: Event)
    requires Inv(s) && s.marker.Some? && s.marker.value.containers != map[] && Step(s, e).marker.Some?
    ensures Step(s, e).marker.value.containers == s.marker.value.containers
    ensures Step(s, e).marker.value.project == s.marker.value.project
  {
  }

  /** Recorded ids, and the project, never change until the marker is removed. */
  lemma {:induction false} RecordedIdsNeverChange(s: State, events: seq<Event>)
    requires Inv(s) && s.marker.Some? && s.marker.value.containers != map[] && Keeps(s, events)
    ensures Run(s, events).marker.value.containers == s.marker.value.containers
    ensures Run(s, events).marker.value.project == s.marker.value.project
    decreases |events|
  {
    if |events| > 0 {
      var n := |events| - 1;
      RecordedIdsNeverChange(s, events[..n]);
      RunKeeps(s, events[..n]);
      IdsStay(Run(s, events[..n]), events[n]);
    }
  }
}
