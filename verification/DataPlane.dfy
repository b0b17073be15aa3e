// The extension data plane: records, the denormalised counters kept beside them, declarative
// migration and rollback. Every function here is one database transaction, given by its effect.
module DataPlane {
  import opened Results
  import opened Totals

  // Ids come from a generator that never hands out the same id twice.
  type Id = nat

  // A JSON field value, known by its text.
  datatype Json = Json(text: string)

  type Data = map<string, Json>

  const MAX_RECORD_BYTES: nat := 1024 * 1024

  // The size of a JSON object and the quotas in force.
  datatype Settings = Settings(
    jsonSize: Data -> nat,
    installationBytes: nat,
    installationRecords: nat,
    schoolBytes: nat,
    schoolRecords: nat,
    migrationMaxAttempts: nat)

  datatype School = School(dataBytes: int, dataRecords: int)

  datatype Installation = Installation(
    school: Id,
    extension: Id,
    version: Id,
    enabled: bool,
    uninstalled: bool,
    purgeAfter: Option<int>,
    dataBytes: int,
    dataRecords: int,
    rollbackVersion: Option<Id>,
    migrationRun: Option<Id>)

  datatype Record = Record(
    school: Id,
    extension: Id,
    installation: Id,
    version: Id,
    resource: string,
    data: Data,
    byteSize: int,
    schemaVersion: nat,
    concurrencyVersion: int,
    updatedBy: Option<string>)

  datatype RunStatus = Pending | Applied | Failed | InterventionRequired | Abandoned | RolledBack

  datatype Backup = Backup(
    resource: string,
    data: Data,
    byteSize: int,
    version: Id,
    schemaVersion: nat,
    concurrencyVersion: int)

  datatype Run = Run(
    installation: Id,
    fromVersion: Id,
    toVersion: Id,
    status: RunStatus,
    attempts: int,
    backups: map<Id, Backup>)

  datatype Db = Db(
    schools: map<Id, School>,
    installations: map<Id, Installation>,
    records: map<Id, Record>,
    runs: map<Id, Run>,
    nextId: Id)

  datatype Failure =
    | NotFound
    | VersionConflict
    | RecordTooLarge
    | InstallationQuota
    | SchoolQuota
    | RenameClash
    | InvalidState

  // ---------------------------------------------------------------- what the counters mean

  ghost function RecordBytes(records: map<Id, Record>, i: Id): map<Id, int> {
    map id | id in records && records[id].installation == i :: records[id].byteSize
  }

  ghost function BytesOf(records: map<Id, Record>, i: Id): int {
    Total(RecordBytes(records, i))
  }

  ghost function CountOf(records: map<Id, Record>, i: Id): int {
    |RecordBytes(records, i)|
  }

  ghost function BytesBySchool(installations: map<Id, Installation>, s: Id): map<Id, int> {
    map i | i in installations && installations[i].school == s :: installations[i].dataBytes
  }

  ghost function RecordsBySchool(installations: map<Id, Installation>, s: Id): map<Id, int> {
    map i | i in installations && installations[i].school == s :: installations[i].dataRecords
  }

  ghost function SchoolBytes(installations: map<Id, Installation>, s: Id): int {
    Total(BytesBySchool(installations, s))
  }

  ghost function SchoolRecords(installations: map<Id, Installation>, s: Id): int {
    Total(RecordsBySchool(installations, s))
  }

  // Foreign keys hold, one installation per school and extension, all ids already handed out.
  ghost predicate Linked(db: Db) {
    && (forall s :: s in db.schools ==> s < db.nextId)
    && (forall i :: i in db.installations ==> db.installations[i].school in db.schools && i < db.nextId)
    && (forall i, j {:trigger SameSlot(db, i, j)} | i in db.installations && j in db.installations ::
      SameSlot(db, i, j) ==> i == j)
    && (forall id :: id in db.records ==> LinkedRecord(db, db.records[id]) && id < db.nextId)
  }

  predicate SameSlot(db: Db, i: Id, j: Id)
    requires i in db.installations && j in db.installations
  {
    && db.installations[i].school == db.installations[j].school
    && db.installations[i].extension == db.installations[j].extension
  }

  ghost predicate LinkedRecord(db: Db, r: Record) {
    && r.installation in db.installations
    && r.school == db.installations[r.installation].school
    && r.extension == db.installations[r.installation].extension
    && r.byteSize >= 0
    && r.concurrencyVersion >= 1
  }

  // A run has backups only once it was applied, and they are of its own installation's records.
  ghost predicate SoundRun(db: Db, run: Run) {
    && (run.status !in {Applied, RolledBack} ==> run.backups == map[])
    && (forall id :: id in run.backups ==>
          && id < db.nextId
          && run.backups[id].byteSize >= 0
          && run.backups[id].concurrencyVersion >= 1
          && (id in db.records ==> db.records[id].installation == run.installation))
  }

  ghost predicate SoundRuns(db: Db) {
    forall run :: run in db.runs ==> SoundRun(db, db.runs[run]) && run < db.nextId
  }

  // Every counter is exactly the total it stands for.
  ghost predicate Conserved(db: Db) {
    && (forall i {:trigger InstallationExact(db, i)} :: i in db.installations ==> InstallationExact(db, i))
    && (forall s {:trigger SchoolExact(db, s)} :: s in db.schools ==> SchoolExact(db, s))
  }

  ghost predicate InstallationExact(db: Db, i: Id)
    requires i in db.installations
  {
    db.installations[i].dataBytes == BytesOf(db.records, i) && db.installations[i].dataRecords == CountOf(db.records, i)
  }

  ghost predicate SchoolExact(db: Db, s: Id)
    requires s in db.schools
  {
    && db.schools[s].dataBytes == SchoolBytes(db.installations, s)
    && db.schools[s].dataRecords == SchoolRecords(db.installations, s)
  }

  predicate WithinQuotas(cfg: Settings, db: Db) {
    && (forall i :: i in db.installations ==> InstallationFits(cfg, db.installations[i]))
    && (forall s :: s in db.schools ==> SchoolFits(cfg, db.schools[s]))
  }

  predicate InstallationFits(cfg: Settings, i: Installation) {
    i.dataBytes <= cfg.installationBytes && i.dataRecords <= cfg.installationRecords
  }

  predicate SchoolFits(cfg: Settings, s: School) {
    s.dataBytes <= cfg.schoolBytes && s.dataRecords <= cfg.schoolRecords
  }

  ghost predicate Consistent(cfg: Settings, db: Db) {
    && Linked(db)
    && Conserved(db)
    && WithinQuotas(cfg, db)
    && SoundRuns(db)
  }

  // ---------------------------------------------------------------- writing a record table

  // The database with another record table, the counters of installation i and of its school
  // moved by what the change of table amounts to.
  ghost function WithRecords(db: Db, i: Id, table: map<Id, Record>): Db
    requires i in db.installations
  {
    var bytes := BytesOf(table, i) - BytesOf(db.records, i);
    var count := CountOf(table, i) - CountOf(db.records, i);
    db.(records := table,
        installations := db.installations[i := Moved(db.installations[i], bytes, count)],
        schools := Charged(db.schools, db.installations[i].school, bytes, count))
  }

  function Charged(schools: map<Id, School>, s: Id, bytes: int, count: int): map<Id, School> {
    if s in schools then schools[s := School(schools[s].dataBytes + bytes, schools[s].dataRecords + count)] else schools
  }

  function Moved(inst: Installation, bytes: int, count: int): Installation {
    inst.(dataBytes := inst.dataBytes + bytes, dataRecords := inst.dataRecords + count)
  }

  // The same, refused when it would leave a quota.
  ghost function Commit(cfg: Settings, db: Db, i: Id, table: map<Id, Record>, nextId: Id): Result<Db, Failure>
    requires i in db.installations
  {
    var next := WithRecords(db, i, table).(nextId := nextId);
    var s := db.installations[i].school;
    if !InstallationFits(cfg, next.installations[i]) then Err(InstallationQuota)
    else if s !in db.schools || !SchoolFits(cfg, next.schools[s]) then Err(SchoolQuota)
    else Ok(next)
  }

  // ---------------------------------------------------------------- record requests

  // What the authorisation of a request read about the installation: its own id, the columns
  // that never change, and the version (possibly stale by now).
  datatype Access = Access(
    installation: Id,
    school: Id,
    extension: Id,
    version: Id,
    schemaVersion: nat,
    resource: string,
    actor: Option<string>)

  predicate Genuine(db: Db, a: Access) {
    a.installation in db.installations ==>
      && db.installations[a.installation].school == a.school
      && db.installations[a.installation].extension == a.extension
  }

  function NewRecord(cfg: Settings, a: Access, data: Data): Record {
    Record(a.school, a.extension, a.installation, a.version, a.resource, data, cfg.jsonSize(data),
           a.schemaVersion, 1, None)
  }

  function EditedRecord(cfg: Settings, a: Access, r: Record, data: Data): Record {
    r.(data := data, byteSize := cfg.jsonSize(data), version := a.version, schemaVersion := a.schemaVersion,
       concurrencyVersion := r.concurrencyVersion + 1, updatedBy := a.actor)
  }

  // The record a request may touch: the right tenant, installation, extension and resource.
  predicate Visible(db: Db, a: Access, id: Id) {
    && a.installation in db.installations
    && id in db.records
    && db.records[id].school == a.school
    && db.records[id].installation == a.installation
    && db.records[id].extension == a.extension
    && db.records[id].resource == a.resource
  }

  ghost function Create(cfg: Settings, db: Db, a: Access, data: Data): Result<Db, Failure> {
    if cfg.jsonSize(data) > MAX_RECORD_BYTES then Err(RecordTooLarge)
    else if a.installation !in db.installations then Err(InstallationQuota)
    else
      Commit(cfg, db, a.installation, db.records[db.nextId := NewRecord(cfg, a, data)], db.nextId + 1)
  }

  ghost function Update(cfg: Settings, db: Db, a: Access, id: Id, data: Data, expected: int): Result<Db, Failure> {
    if cfg.jsonSize(data) > MAX_RECORD_BYTES then Err(RecordTooLarge)
    else if !Visible(db, a, id) then Err(NotFound)
    else if db.records[id].concurrencyVersion != expected then Err(VersionConflict)
    else Commit(cfg, db, a.installation, db.records[id := EditedRecord(cfg, a, db.records[id], data)], db.nextId)
  }

  ghost function Delete(cfg: Settings, db: Db, a: Access, id: Id, expected: int): Result<Db, Failure> {
    if !Visible(db, a, id) then Err(NotFound)
    else if db.records[id].concurrencyVersion != expected then Err(VersionConflict)
    else Ok(WithRecords(db, a.installation, db.records - {id}))
  }

  // ---------------------------------------------------------------- declarative migration

  datatype Operation =
    | RenameField(resource: string, from: string, to: string)
    | SetDefault(resource: string, field: string, value: Json)
    | RemoveField(resource: string, field: string)

  // One operation on one record; None when a rename would overwrite a field.
  function Operate(op: Operation, d: Data): Option<Data> {
    match op
    case RenameField(_, from, to) =>
      if from !in d then Some(d) else if to in d then None else Some(d[to := d[from]] - {from})
    case SetDefault(_, field, value) => if field in d then Some(d) else Some(d[field := value])
    case RemoveField(_, field) => Some(d - {field})
  }

  // The in-order fold of the operations that name the record's resource.
  function Fold(ops: seq<Operation>, resource: string, d: Data): Option<Data> {
    if ops == [] then Some(d)
    else if ops[0].resource != resource then Fold(ops[1..], resource, d)
    else
      match Operate(ops[0], d)
      case None => None
      case Some(next) => Fold(ops[1..], resource, next)
  }

  function Resources(ops: seq<Operation>): set<string> {
    set op | op in ops :: op.resource
  }

  // A migration to a version, as the manifest of that version declares it.
  datatype Migration = Migration(toVersion: Id, schemaVersion: nat, operations: seq<Operation>, actor: Option<string>)

  predicate InScope(school: Id, extension: Id, resources: set<string>, r: Record) {
    r.school == school && r.extension == extension && r.resource in resources
  }

  ghost function Targets(db: Db, i: Id, m: Migration): set<Id>
    requires i in db.installations
  {
    var inst := db.installations[i];
    set id | id in db.records && InScope(inst.school, inst.extension, Resources(m.operations), db.records[id])
  }

  function MigratedRecord(cfg: Settings, m: Migration, r: Record): Record
    requires Fold(m.operations, r.resource, r.data).Some?
  {
    var d := Fold(m.operations, r.resource, r.data).value;
    r.(data := d, byteSize := cfg.jsonSize(d), version := m.toVersion, schemaVersion := m.schemaVersion,
       concurrencyVersion := r.concurrencyVersion + 1, updatedBy := m.actor)
  }

  function BackupOf(r: Record): Backup {
    Backup(r.resource, r.data, r.byteSize, r.version, r.schemaVersion, r.concurrencyVersion)
  }

  ghost predicate Clashes(db: Db, m: Migration, targets: set<Id>)
    requires targets <= db.records.Keys
  {
    exists id :: id in targets && Fold(m.operations, db.records[id].resource, db.records[id].data).None?
  }

  ghost function MigratedTable(cfg: Settings, db: Db, m: Migration, targets: set<Id>): map<Id, Record>
    requires targets <= db.records.Keys && !Clashes(db, m, targets)
  {
    map id | id in db.records :: if id in targets then MigratedRecord(cfg, m, db.records[id]) else db.records[id]
  }

  predicate MayMigrate(db: Db, i: Id, run: Id) {
    && i in db.installations
    && run in db.runs
    && db.runs[run].status == Pending
    && db.runs[run].installation == i
    && db.runs[run].fromVersion == db.installations[i].version
  }

  // The version, rollback and run columns of an installation, and the row of a run.
  function Labelled(db: Db, i: Id, version: Id, rollback: Id, migrationRun: Option<Id>, run: Id, row: Run): Db
    requires i in db.installations
  {
    db.(installations := db.installations[i := db.installations[i].(
          version := version, rollbackVersion := Some(rollback), migrationRun := migrationRun)],
        runs := db.runs[run := row])
  }

  ghost function AppliedRun(db: Db, run: Id, targets: set<Id>): Run
    requires run in db.runs && targets <= db.records.Keys
  {
    db.runs[run].(status := Applied, backups := BackupsOf(db.records, targets))
  }

  ghost function BackupsOf(records: map<Id, Record>, targets: set<Id>): map<Id, Backup>
    requires targets <= records.Keys
  {
    map id | id in targets :: BackupOf(records[id])
  }

  ghost function Migrate(cfg: Settings, db: Db, i: Id, run: Id, m: Migration): Result<Db, Failure>
    requires MayMigrate(db, i, run)
  {
    var targets := Targets(db, i, m);
    if Clashes(db, m, targets) then Err(RenameClash)
    else
      var labelled := Labelled(db, i, m.toVersion, db.installations[i].version, Some(run), run,
          AppliedRun(db, run, targets));
      Commit(cfg, labelled, i, MigratedTable(cfg, db, m, targets), db.nextId)
  }

  // The failed run of the same installation and versions that the latest-first lookup found, if any.
  predicate PreviousRun(db: Db, i: Id, to: Id, previous: Option<Id>)
    requires i in db.installations
  {
    previous.Some? ==>
      && previous.value in db.runs
      && db.runs[previous.value].installation == i
      && db.runs[previous.value].fromVersion == db.installations[i].version
      && db.runs[previous.value].toVersion == to
      && db.runs[previous.value].status in {Failed, InterventionRequired}
  }

  // The run row written before the transaction: a failed run is taken up again, else a new row.
  function Begin(db: Db, i: Id, to: Id, previous: Option<Id>): Result<(Db, Id), Failure>
    requires i in db.installations && PreviousRun(db, i, to, previous)
  {
    match previous
    case Some(p) =>
      if db.runs[p].status == InterventionRequired then Err(InvalidState)
      else Ok((db.(runs := db.runs[p := db.runs[p].(status := Pending, attempts := db.runs[p].attempts + 1)]), p))
    case None =>
      var row := Run(i, db.installations[i].version, to, Pending, 1, map[]);
      Ok((db.(runs := db.runs[db.nextId := row], nextId := db.nextId + 1), db.nextId))
  }

  // The run row written after the transaction failed.
  function MarkFailed(cfg: Settings, db: Db, run: Id): Db
    requires run in db.runs
  {
    var row := db.runs[run];
    db.(runs := db.runs[run := row.(
      status := if row.attempts >= cfg.migrationMaxAttempts then InterventionRequired else Failed)])
  }

  // An upgrade that migrates: the row, the transaction, and the row again if the transaction failed.
  ghost function Upgrade(cfg: Settings, db: Db, i: Id, m: Migration, previous: Option<Id>): (Db, Option<Failure>)
    requires i in db.installations && PreviousRun(db, i, m.toVersion, previous)
  {
    if db.installations[i].version == m.toVersion then (db, None)
    else
      match Begin(db, i, m.toVersion, previous)
      case Err(e) => (db, Some(e))
      case Ok((begun, run)) =>
        match Migrate(cfg, begun, i, run, m)
        case Ok(next) => (next, None)
        case Err(e) => (MarkFailed(cfg, begun, run), Some(e))
  }

  // ---------------------------------------------------------------- rollback

  function RestoredRecord(r: Record, b: Backup): Record {
    r.(data := b.data, byteSize := b.byteSize, version := b.version, schemaVersion := b.schemaVersion,
       concurrencyVersion := b.concurrencyVersion)
  }

  // The records named in ids, put back to their backups.
  function RestoredTable(records: map<Id, Record>, backups: map<Id, Backup>, ids: set<Id>): map<Id, Record>
    requires ids <= backups.Keys
  {
    map id | id in records :: if id in ids then RestoredRecord(records[id], backups[id]) else records[id]
  }

  predicate MayUndo(db: Db, i: Id, run: Id, to: Id)
    requires i in db.installations
  {
    && run in db.runs
    && db.runs[run].status == Applied
    && db.runs[run].installation == i
    && db.runs[run].toVersion == db.installations[i].version
    && db.runs[run].fromVersion == to
  }

  ghost function UndoMigration(cfg: Settings, db: Db, i: Id, run: Id, to: Id): Result<Db, Failure>
    requires i in db.installations
  {
    if !MayUndo(db, i, run, to) then Err(InvalidState)
    else if !(db.runs[run].backups.Keys <= db.records.Keys) then Err(InvalidState)
    else
      var row := db.runs[run].(status := RolledBack);
      var labelled := Labelled(db, i, to, db.installations[i].version, None, run, row);
      Commit(cfg, labelled, i, RestoredTable(db.records, db.runs[run].backups, db.runs[run].backups.Keys), db.nextId)
  }

  // target is the version a queued job captured when it was submitted, if it captured one.
  ghost function Rollback(cfg: Settings, db: Db, i: Id, target: Option<Id>): Result<Db, Failure> {
    if i !in db.installations then Err(NotFound)
    else
      var inst := db.installations[i];
      if target == Some(inst.version) then Ok(db)
      else
        match (if target.Some? then target else inst.rollbackVersion)
        case None => Err(InvalidState)
        case Some(to) =>
          match inst.migrationRun
          case Some(run) => UndoMigration(cfg, db, i, run, to)
          case None =>
            Ok(db.(installations := db.installations[i := inst.(version := to, rollbackVersion := Some(inst.version))]))
  }

  // ---------------------------------------------------------------- removing an installation

  // Records and runs go with their installation; the school gives back what an earlier read of
  // the installation said it holds, if it has that much.
  function WithoutInstallation(db: Db, i: Id, readBytes: int, readRecords: int): Db
    requires i in db.installations
  {
    var inst := db.installations[i];
    var held := inst.school in db.schools && db.schools[inst.school].dataBytes >= readBytes
                && db.schools[inst.school].dataRecords >= readRecords;
    Db(if held then Charged(db.schools, inst.school, -readBytes, -readRecords) else db.schools,
       db.installations - {i},
       map id | id in db.records && !(db.records[id].school == inst.school &&
         db.records[id].extension == inst.extension)
                && db.records[id].installation != i :: db.records[id],
       map run | run in db.runs && db.runs[run].installation != i :: db.runs[run],
       db.nextId)
  }

  // The row that was read beforehand decides, and what it held is given back; by the time of the
  // transaction the installation may have changed, but it must still be there.
  function Remove(db: Db, i: Id, seen: Option<Installation>): Result<Db, Failure> {
    if seen.None? then Err(NotFound)
    else if !seen.value.uninstalled || seen.value.enabled then Err(InvalidState)
    else if i !in db.installations then Err(NotFound)
    else Ok(WithoutInstallation(db, i, seen.value.dataBytes, seen.value.dataRecords))
  }

  // A candidate of the scheduled purge, as the scan read it.
  datatype Candidate = Candidate(installation: Id, school: Id, extension: Id, dataBytes: int, dataRecords: int)

  predicate StillExpired(db: Db, c: Candidate, now: int) {
    && c.installation in db.installations
    && !db.installations[c.installation].enabled
    && db.installations[c.installation].purgeAfter.Some?
    && db.installations[c.installation].purgeAfter.value <= now
  }

  // The purge deletes the records first, and commits that even when the installation has meanwhile
  // been enabled or kept.
  function Purge(db: Db, c: Candidate, now: int): Db {
    if StillExpired(db, c, now) then WithoutInstallation(db, c.installation, c.dataBytes, c.dataRecords)
    else db.(records := map id | id in db.records
                                 && !(db.records[id].school == c.school && db.records[id].extension == c.extension)
                               :: db.records[id])
  }
}
