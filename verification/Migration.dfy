/**
 * The files of scripts/migrate-to-multitenant.ts: one database becomes a hub and a tenant, any step
 * may fail, and a failure is rolled back. What the hub is filled with is a parameter: a function of
 * the original database and of its write-ahead log.
 */
module Migration {
  import opened Sequences

  type Content = string

  datatype Path =
    | Ipam | IpamWal | IpamShm | Hub | Tenant | TenantWal | TenantShm | Backup | BackupWal | BackupShm

  /** The data directory: its files, whether `tenants` exists, and whether that holds other files. */
  datatype Disk = Disk(files: map<Path, Content>, tenantsDir: bool, otherTenants: bool)

  datatype Run = Run(disk: Disk, createdFiles: seq<Path>, createdDir: bool)

  type Fill = (Content, Option<Content>) -> Content

  datatype Op =
    | OpenSource | CreateHub | FillHub | MakeDir | CopyMain | CopyWal | CopyShm
    | CloseHub | RenameMain | RenameWal | RenameShm

  /** A step works, fails before any effect, or fails halfway, leaving `written` in its file. */
  datatype Fault = Works | Clean | Halfway(written: Content)

  const STEPS := 11

  /** The steps that copy the original's logs beside the tenant. */
  const COPY_WAL := 5
  const COPY_SHM := 6

  function OpAt(k: nat): Op
    requires k < STEPS
  {
    if k == 0 then OpenSource else if k == 1 then CreateHub else if k == 2 then FillHub else if k == 3 then MakeDir
    else if k == 4 then CopyMain else if k == 5 then CopyWal else if k == 6 then CopyShm else if k == 7 then CloseHub
    else if k == 8 then RenameMain else if k == 9 then RenameWal else RenameShm
  }

  function Get(files: map<Path, Content>, p: Path): Option<Content> {
    if p in files then Some(files[p]) else None
  }

  function Copied(files: map<Path, Content>, from: Path, to: Path): map<Path, Content> {
    if from in files then files[to := files[from]] else files
  }

  function Renamed(files: map<Path, Content>, from: Path, to: Path): map<Path, Content> {
    if from in files && from != to then (files - {from})[to := files[from]] else files
  }

  /** The four checks before anything is touched. */
  predicate Ready(d: Disk) {
    Ipam in d.files && Hub !in d.files && Tenant !in d.files && Backup !in d.files
  }

  function WithFiles(r: Run, files: map<Path, Content>): Run {
    r.(disk := r.disk.(files := files))
  }

  /** The files after a step that works. */
  function FilesAfter(fill: Fill, op: Op, files: map<Path, Content>): map<Path, Content> {
    match op
    case CreateHub => files[Hub := ""]
    case FillHub => if Ipam in files then files[Hub := fill(files[Ipam], Get(files, IpamWal))] else files
    case CopyMain => Copied(files, Ipam, Tenant)
    case CopyWal => Copied(files, IpamWal, TenantWal)
    case CopyShm => Copied(files, IpamShm, TenantShm)
    case RenameMain => Renamed(files, Ipam, Backup)
    case RenameWal => Renamed(files, IpamWal, BackupWal)
    case RenameShm => Renamed(files, IpamShm, BackupShm)
    case _ => files
  }

  /** A step that works, with what it records for the rollback. */
  function Effect(fill: Fill, op: Op, r: Run): Run {
    Run(Disk(FilesAfter(fill, op, r.disk.files), r.disk.tenantsDir || op == MakeDir, r.disk.otherTenants),
        if op == CreateHub then r.createdFiles + [Hub]
        else if op == CopyMain then r.createdFiles + [Tenant]
        else r.createdFiles,
        r.createdDir || (op == MakeDir && !r.disk.tenantsDir))
  }

  /** A step that fails: nothing is recorded; halfway, the file it was writing is there. */
  function Broken(op: Op, r: Run, fault: Fault): Run {
    var files := r.disk.files;
    if fault.Halfway? then
      match op
      case CreateHub => WithFiles(r, files[Hub := fault.written])
      case FillHub => WithFiles(r, files[Hub := fault.written])
      case CopyMain => WithFiles(r, files[Tenant := fault.written])
      case CopyWal => WithFiles(r, files[TenantWal := fault.written])
      case CopyShm => WithFiles(r, files[TenantShm := fault.written])
      case _ => r
    else r
  }

  /** The copies and renames of the sidecar files happen only when these are there. */
  predicate Happens(op: Op, r: Run) {
    match op
    case MakeDir => !r.disk.tenantsDir
    case CopyWal => IpamWal in r.disk.files
    case RenameWal => IpamWal in r.disk.files
    case CopyShm => IpamShm in r.disk.files
    case RenameShm => IpamShm in r.disk.files
    case _ => true
  }

  /** The run after `k` steps that worked. */
  function After(fill: Fill, d: Disk, k: nat): Run
    requires k <= STEPS
  {
    if k == 0 then Run(d, [], false) else Effect(fill, OpAt(k - 1), After(fill, d, k - 1))
  }

  /** The run in which step `k` failed. */
  function FailedAt(fill: Fill, d: Disk, k: nat, fault: Fault): Run
    requires k < STEPS
  {
    Broken(OpAt(k), After(fill, d, k), fault)
  }

  predicate CanFail(fill: Fill, d: Disk, k: nat, fault: Fault)
    requires k < STEPS
  {
    !fault.Works? && Happens(OpAt(k), After(fill, d, k))
  }

  function Without(files: map<Path, Content>, paths: seq<Path>): map<Path, Content> {
    if paths == [] then files else Without(files, paths[..|paths| - 1]) - {paths[|paths| - 1]}
  }

  predicate TenantsEmpty(d: Disk) {
    !d.otherTenants && Tenant !in d.files && TenantWal !in d.files && TenantShm !in d.files
  }

  /** The catch block: recorded files go, a recorded empty directory goes, the backup comes back. */
  function RolledBack(r: Run): Disk {
    var cleaned := r.disk.(files := Without(r.disk.files, r.createdFiles));
    var tidied :=
      if r.createdDir && cleaned.tenantsDir && TenantsEmpty(cleaned) then cleaned.(tenantsDir := false) else cleaned;
    if Ipam !in tidied.files && Backup in tidied.files
    then tidied.(files := Renamed(tidied.files, Backup, Ipam))
    else tidied
  }

  /** How a step ends; `:-` hands a thrown error on, as an exception leaves the `try`. */
  datatype Outcome = Done | Threw(at: nat) {
    predicate IsFailure() {
      Threw?
    }

    function PropagateFailure(): Outcome {
      this
    }
  }

  /** The run stopped at step `k`, which failed. */
  ghost predicate Stopped(fill: Fill, d: Disk, fault: Op -> Fault, k: nat, r: Run) {
    k < STEPS && CanFail(fill, d, k, fault(OpAt(k))) && r == FailedAt(fill, d, k, fault(OpAt(k)))
  }

  lemma Start(fill: Fill, d: Disk)
    ensures After(fill, d, 0) == Run(d, [], false)
  {
  }

  class Host {
    var files: map<Path, Content>
    var tenantsDir: bool
    const otherTenants: bool
    var createdFiles: seq<Path>
    var createdDir: bool

    constructor (d: Disk)
      ensures Current() == Run(d, [], false)
    {
      files, tenantsDir, otherTenants := d.files, d.tenantsDir, d.otherTenants;
      createdFiles, createdDir := [], false;
    }

    function Current(): Run
      reads this
    {
      Run(Disk(files, tenantsDir, otherTenants), createdFiles, createdDir)
    }

    method Copy(from: Path, to: Path)
      modifies this`files
      ensures files == Copied(old(files), from, to)
    {
      if from in files {
        files := files[to := files[from]];
      }
    }

    method Rename(from: Path, to: Path)
      requires from != to
      modifies this`files
      ensures files == Renamed(old(files), from, to)
    {
      if from in files {
        var content := files[from];
        files := files - {from};
        files := files[to := content];
      }
    }

    /** One step, which may fail. */
    method Perform(fill: Fill, op: Op, fault: Fault) returns (ok: bool)
      requires Ipam in files || op != FillHub
      modifies this
      ensures ok <==> fault.Works? || !Happens(op, old(Current()))
      ensures Current() == if ok then Effect(fill, op, old(Current())) else Broken(op, old(Current()), fault)
    {
      ok := fault.Works? || !Happens(op, Current());
      if ok {
        match op {
          case OpenSource =>
          case CreateHub =>
            files := files[Hub := ""];
            createdFiles := createdFiles + [Hub];
          case FillHub =>
            files := files[Hub := fill(files[Ipam], Get(files, IpamWal))];
          case MakeDir =>
            if !tenantsDir {
              tenantsDir := true;
              createdDir := true;
            }
          case CopyMain =>
            Copy(Ipam, Tenant);
            createdFiles := createdFiles + [Tenant];
          case CopyWal => Copy(IpamWal, TenantWal);
          case CopyShm => Copy(IpamShm, TenantShm);
          case CloseHub =>
          case RenameMain => Rename(Ipam, Backup);
          case RenameWal => Rename(IpamWal, BackupWal);
          case RenameShm => Rename(IpamShm, BackupShm);
        }
      } else if fault.Halfway? {
        match op {
          case CreateHub => files := files[Hub := fault.written];
          case FillHub => files := files[Hub := fault.written];
          case CopyMain => files := files[Tenant := fault.written];
          case CopyWal => files := files[TenantWal := fault.written];
          case CopyShm => files := files[TenantShm := fault.written];
          case _ =>
        }
      }
    }

    /** Step `k` of `main`, after all the earlier ones worked. */
    method Step(fill: Fill, fault: Op -> Fault, k: nat, ghost d: Disk) returns (o: Outcome)
      requires k < STEPS && Ready(d) && Current() == After(fill, d, k)
      modifies this
      ensures o.Done? ==> Current() == After(fill, d, k + 1)
      ensures o.Threw? ==> Stopped(fill, d, fault, o.at, Current())
    {
      hide OpAt, Effect, Broken, Happens;
      IpamUntilRenamed(fill, d, k);
      var ok := Perform(fill, OpAt(k), fault(OpAt(k)));
      o := if ok then Done else Threw(k);
    }

    /** The body of `main` inside its `try`. */
    method Steps(fill: Fill, fault: Op -> Fault) returns (o: Outcome)
      requires Ready(Current().disk) && createdFiles == [] && !createdDir
      modifies this
      ensures o.Done? ==> Current() == After(fill, old(Current()).disk, STEPS)
      ensures o.Threw? ==> Stopped(fill, old(Current()).disk, fault, o.at, Current())
    {
      hide After, Ready, Stopped;
      ghost var d := Current().disk;
      Start(fill, d);
      :- Step(fill, fault, 0, d);
      :- Step(fill, fault, 1, d);
      :- Step(fill, fault, 2, d);
      :- Step(fill, fault, 3, d);
      :- Step(fill, fault, 4, d);
      :- Step(fill, fault, 5, d);
      :- Step(fill, fault, 6, d);
      :- Step(fill, fault, 7, d);
      :- Step(fill, fault, 8, d);
      :- Step(fill, fault, 9, d);
      o := Step(fill, fault, 10, d);
    }

    /** `cleanup`: best effort on every recorded file and directory. */
    method Cleanup()
      modifies this`files, this`tenantsDir
      ensures files == Without(old(files), createdFiles)
      ensures tenantsDir == (old(tenantsDir) && !(createdDir && TenantsEmpty(Disk(files, tenantsDir, otherTenants))))
    {
      for i := 0 to |createdFiles|
        invariant files == Without(old(files), createdFiles[..i]) && tenantsDir == old(tenantsDir)
      {
        assert createdFiles[..i + 1][..i] == createdFiles[..i];
        if createdFiles[i] in files {
          files := files - {createdFiles[i]};
        }
      }
      assert createdFiles[..|createdFiles|] == createdFiles;
      if createdDir && tenantsDir && TenantsEmpty(Disk(files, tenantsDir, otherTenants)) {
        tenantsDir := false;
      }
    }

    /** `main`, with the fault of each step: true when the migration completed. */
    method Migrate(fill: Fill, fault: Op -> Fault) returns (completed: bool)
      requires createdFiles == [] && !createdDir
      modifies this
      ensures old(Ipam !in files || Hub in files || Tenant in files || Backup in files) ==>
                !completed && Current() == old(Current())
      ensures !old(Ipam !in files || Hub in files || Tenant in files || Backup in files) ==>
                Ready(old(Current()).disk)
      ensures completed ==> Current() == After(fill, old(Current()).disk, STEPS)
      ensures Ready(old(Current()).disk) && !completed ==>
                exists k: nat, r :: Stopped(fill, old(Current()).disk, fault, k, r) && Current().disk == RolledBack(r)
    {
      hide After, Stopped, STEPS;
      if Ipam !in files || Hub in files || Tenant in files || Backup in files {
        return false;
      }
      var o := Steps(fill, fault);
      if o.Threw? {
        ghost var r := Current();
        Cleanup();
        if Ipam !in files && Backup in files {
          Rename(Backup, Ipam);
        }
        assert Current().disk == RolledBack(r);
        return false;
      }
      completed := true;
    }
  }

  // ---------- where every file is ----------

  /** What a path holds after `k` steps that worked. */
  function Expected(fill: Fill, d: Disk, k: nat, p: Path): Option<Content>
    requires Ready(d)
  {
    match p
    case Ipam => if k <= 8 then Some(d.files[Ipam]) else None
    case IpamWal => if k <= 9 then Get(d.files, IpamWal) else None
    case IpamShm => if k <= 10 then Get(d.files, IpamShm) else None
    case Hub =>
      if k <= 1 then None else if k == 2 then Some("") else Some(fill(d.files[Ipam], Get(d.files, IpamWal)))
    case Tenant => if k <= 4 then None else Some(d.files[Ipam])
    case TenantWal => if k <= 5 || IpamWal !in d.files then Get(d.files, TenantWal) else Get(d.files, IpamWal)
    case TenantShm => if k <= 6 || IpamShm !in d.files then Get(d.files, TenantShm) else Get(d.files, IpamShm)
    case Backup => if k <= 8 then None else Some(d.files[Ipam])
    case BackupWal => if k <= 9 || IpamWal !in d.files then Get(d.files, BackupWal) else Get(d.files, IpamWal)
    case BackupShm => if k <= 10 || IpamShm !in d.files then Get(d.files, BackupShm) else Get(d.files, IpamShm)
  }

  ghost predicate Holds(fill: Fill, d: Disk, k: nat, r: Run)
    requires Ready(d)
  {
    && (forall p :: Get(r.disk.files, p) == Expected(fill, d, k, p))
    && r.createdFiles == (if k <= 1 then [] else if k <= 4 then [Hub] else [Hub, Tenant])
    && r.createdDir == (k > 3 && !d.tenantsDir)
    && r.disk.tenantsDir == (d.tenantsDir || k > 3)
    && r.disk.otherTenants == d.otherTenants
  }

  /** What a path holds after a step, from what it and the original's three files held before. */
  function Next(fill: Fill, op: Op, main: Option<Content>, wal: Option<Content>, shm: Option<Content>,
                p: Path, was: Option<Content>): Option<Content> {
    match op
    case CreateHub => if p == Hub then Some("") else was
    case FillHub => if p == Hub && main.Some? then Some(fill(main.value, wal)) else was
    case CopyMain => if p == Tenant && main.Some? then main else was
    case CopyWal => if p == TenantWal && wal.Some? then wal else was
    case CopyShm => if p == TenantShm && shm.Some? then shm else was
    case RenameMain => if main.None? then was else if p == Ipam then None else if p == Backup then main else was
    case RenameWal => if wal.None? then was else if p == IpamWal then None else if p == BackupWal then wal else was
    case RenameShm => if shm.None? then was else if p == IpamShm then None else if p == BackupShm then shm else was
    case _ => was
  }

  lemma CopiedGet(files: map<Path, Content>, from: Path, to: Path, p: Path)
    ensures Get(Copied(files, from, to), p) == if p == to && from in files then Get(files, from) else Get(files, p)
  {
  }

  lemma RenamedGet(files: map<Path, Content>, from: Path, to: Path, p: Path)
    requires from != to
    ensures Get(Renamed(files, from, to), p)
            == if from !in files then Get(files, p)
               else if p == to then Get(files, from)
               else if p == from then None
               else Get(files, p)
  {
  }

  lemma PutGet(files: map<Path, Content>, at: Path, c: Content, p: Path)
    ensures Get(files[at := c], p) == if p == at then Some(c) else Get(files, p)
  {
  }

  lemma EffectGet(fill: Fill, op: Op, files: map<Path, Content>, p: Path)
    ensures Get(FilesAfter(fill, op, files), p)
            == Next(fill, op, Get(files, Ipam), Get(files, IpamWal), Get(files, IpamShm), p, Get(files, p))
  {
    hide Copied, Renamed;
    match op {
      case CreateHub => PutGet(files, Hub, "", p);
      case FillHub =>
        if Ipam in files {
          PutGet(files, Hub, fill(files[Ipam], Get(files, IpamWal)), p);
        }
      case CopyMain => CopiedGet(files, Ipam, Tenant, p);
      case CopyWal => CopiedGet(files, IpamWal, TenantWal, p);
      case CopyShm => CopiedGet(files, IpamShm, TenantShm, p);
      case RenameMain => RenamedGet(files, Ipam, Backup, p);
      case RenameWal => RenamedGet(files, IpamWal, BackupWal, p);
      case RenameShm => RenamedGet(files, IpamShm, BackupShm, p);
      case _ =>
    }
  }

  lemma NextExpected(fill: Fill, d: Disk, k: nat, p: Path)
    requires Ready(d) && k < STEPS
    ensures Next(fill, OpAt(k), Expected(fill, d, k, Ipam), Expected(fill, d, k, IpamWal),
                 Expected(fill, d, k, IpamShm), p, Expected(fill, d, k, p))
            == Expected(fill, d, k + 1, p)
  {
  }

  lemma StepFiles(fill: Fill, d: Disk, k: nat, r: Run, p: Path)
    requires Ready(d) && k < STEPS
    requires forall q :: Get(r.disk.files, q) == Expected(fill, d, k, q)
    ensures Get(Effect(fill, OpAt(k), r).disk.files, p) == Expected(fill, d, k + 1, p)
  {
    hide Expected, FilesAfter, Next, Get, OpAt;
    EffectGet(fill, OpAt(k), r.disk.files, p);
    NextExpected(fill, d, k, p);
  }

  lemma StepRecords(fill: Fill, d: Disk, k: nat, r: Run)
    requires Ready(d) && k < STEPS && Holds(fill, d, k, r)
    ensures var next := Effect(fill, OpAt(k), r);
            && next.createdFiles == (if k <= 0 then [] else if k <= 3 then [Hub] else [Hub, Tenant])
            && next.createdDir == (k > 2 && !d.tenantsDir)
            && next.disk.tenantsDir == (d.tenantsDir || k > 2)
            && next.disk.otherTenants == d.otherTenants
  {
    hide Expected, FilesAfter;
  }

  /** One step that works, from the closed form to the closed form. */
  lemma StepHolds(fill: Fill, d: Disk, k: nat, r: Run)
    requires Ready(d) && k < STEPS && Holds(fill, d, k, r)
    ensures Holds(fill, d, k + 1, Effect(fill, OpAt(k), r))
  {
    hide Expected, Effect, OpAt, Ready;
    StepRecords(fill, d, k, r);
    forall p ensures Get(Effect(fill, OpAt(k), r).disk.files, p) == Expected(fill, d, k + 1, p) {
      StepFiles(fill, d, k, r, p);
    }
  }

  lemma {:induction false} AfterHolds(fill: Fill, d: Disk, k: nat)
    requires Ready(d) && k <= STEPS
    ensures Holds(fill, d, k, After(fill, d, k))
  {
    if k > 0 {
      AfterHolds(fill, d, k - 1);
      StepHolds(fill, d, k - 1, After(fill, d, k - 1));
    }
  }

  lemma IpamUntilRenamed(fill: Fill, d: Disk, k: nat)
    requires Ready(d) && k < STEPS
    ensures Ipam in After(fill, d, k).disk.files || OpAt(k) != FillHub
  {
    hide After, Effect;
    AfterHolds(fill, d, k);
    assert Get(After(fill, d, k).disk.files, Ipam) == Expected(fill, d, k, Ipam);
  }

  // ---------- the rollback ----------

  /** What a path holds after step `k` failed and was rolled back. */
  function Restored(fill: Fill, d: Disk, k: nat, fault: Fault, p: Path): Option<Content>
    requires Ready(d) && k < STEPS
  {
    match p
    case Ipam => Some(d.files[Ipam])
    case Backup => None
    case Hub => if k == 1 && fault.Halfway? then Some(fault.written) else None
    case Tenant => if k == 4 && fault.Halfway? then Some(fault.written) else None
    case TenantWal => if k == 5 && fault.Halfway? then Some(fault.written) else Expected(fill, d, k, TenantWal)
    case TenantShm => if k == 6 && fault.Halfway? then Some(fault.written) else Expected(fill, d, k, TenantShm)
    case _ => Expected(fill, d, k, p)
  }

  /** The file a step writes to. */
  function Target(op: Op): Option<Path> {
    match op
    case CreateHub => Some(Hub)
    case FillHub => Some(Hub)
    case CopyMain => Some(Tenant)
    case CopyWal => Some(TenantWal)
    case CopyShm => Some(TenantShm)
    case _ => None
  }

  lemma BrokenGet(op: Op, r: Run, fault: Fault, p: Path)
    ensures Get(Broken(op, r, fault).disk.files, p)
            == if fault.Halfway? && Target(op) == Some(p) then Some(fault.written) else Get(r.disk.files, p)
    ensures Broken(op, r, fault).createdFiles == r.createdFiles && Broken(op, r, fault).createdDir == r.createdDir
  {
  }

  function Recorded(k: nat): seq<Path> {
    if k <= 1 then [] else if k <= 4 then [Hub] else [Hub, Tenant]
  }

  /** What a path holds when step `k` has failed, before the clean-up. */
  function Left(fill: Fill, d: Disk, k: nat, fault: Fault, p: Path): Option<Content>
    requires Ready(d) && k < STEPS
  {
    if fault.Halfway? && Target(OpAt(k)) == Some(p) then Some(fault.written) else Expected(fill, d, k, p)
  }

  lemma FailedGet(fill: Fill, d: Disk, k: nat, fault: Fault, p: Path)
    requires Ready(d) && k < STEPS
    ensures Get(FailedAt(fill, d, k, fault).disk.files, p) == Left(fill, d, k, fault, p)
    ensures FailedAt(fill, d, k, fault).createdFiles == Recorded(k)
  {
    hide After, Broken, Get, Expected, Target;
    AfterHolds(fill, d, k);
    BrokenGet(OpAt(k), After(fill, d, k), fault, p);
    assert Get(After(fill, d, k).disk.files, p) == Expected(fill, d, k, p);
  }

  lemma {:induction false} WithoutGet(files: map<Path, Content>, paths: seq<Path>, p: Path)
    ensures Get(Without(files, paths), p) == if p in paths then None else Get(files, p)
  {
    if paths != [] {
      WithoutGet(files, paths[..|paths| - 1], p);
      assert paths == paths[..|paths| - 1] + [paths[|paths| - 1]];
    }
  }

  lemma RolledBackGet(r: Run, p: Path)
    ensures var cleaned := Without(r.disk.files, r.createdFiles);
            Get(RolledBack(r).files, p)
            == if Ipam in cleaned || Backup !in cleaned then Get(cleaned, p)
               else if p == Ipam then Get(cleaned, Backup) else if p == Backup then None else Get(cleaned, p)
  {
    hide Without, Get, Renamed;
    RenamedGet(Without(r.disk.files, r.createdFiles), Backup, Ipam, p);
  }

  lemma CleanedGet(fill: Fill, d: Disk, k: nat, fault: Fault, p: Path)
    requires Ready(d) && k < STEPS
    ensures var r := FailedAt(fill, d, k, fault);
            Get(Without(r.disk.files, r.createdFiles), p)
            == if p in Recorded(k) then None else Left(fill, d, k, fault, p)
  {
    hide FailedAt, Without, Get, Left;
    var r := FailedAt(fill, d, k, fault);
    FailedGet(fill, d, k, fault, p);
    WithoutGet(r.disk.files, r.createdFiles, p);
  }

  /** After the rollback every file is where the closed form says. */
  lemma RollbackFiles(fill: Fill, d: Disk, k: nat, fault: Fault, p: Path)
    requires Ready(d) && k < STEPS
    ensures Get(RolledBack(FailedAt(fill, d, k, fault)).files, p) == Restored(fill, d, k, fault, p)
  {
    hide FailedAt, Without, RolledBack;
    var r := FailedAt(fill, d, k, fault);
    RolledBackGet(r, p);
    CleanedGet(fill, d, k, fault, p);
    CleanedGet(fill, d, k, fault, Ipam);
    CleanedGet(fill, d, k, fault, Backup);
  }

  /**
   * Whatever step fails, and however, the original database is back in place with its content and
   * there is no backup; the migration can be started again exactly when the failure was not one
   * that left a half-written hub or tenant file it had not recorded yet.
   */
  lemma RollbackRestores(fill: Fill, d: Disk, k: nat, fault: Fault)
    requires Ready(d) && k < STEPS
    ensures var back := RolledBack(FailedAt(fill, d, k, fault));
            && Get(back.files, Ipam) == Some(d.files[Ipam]) && Backup !in back.files
            && (Ready(back) <==> !(fault.Halfway? && (OpAt(k) == CreateHub || OpAt(k) == CopyMain)))
  {
    hide RolledBack, FailedAt;
    RollbackFiles(fill, d, k, fault, Ipam);
    RollbackFiles(fill, d, k, fault, Backup);
    RollbackFiles(fill, d, k, fault, Hub);
    RollbackFiles(fill, d, k, fault, Tenant);
  }

  /** The directory of the tenants is there after the rollback exactly when it was before, or is not empty. */
  lemma RollbackDirectory(fill: Fill, d: Disk, k: nat, fault: Fault)
    requires Ready(d) && k < STEPS
    ensures var back := RolledBack(FailedAt(fill, d, k, fault));
            && back.otherTenants == d.otherTenants
            && (back.tenantsDir <==>
                  || d.tenantsDir
                  || (k > 3 && (d.otherTenants || Tenant in back.files || TenantWal in back.files
                                || TenantShm in back.files)))
  {
    hide After, Without, Renamed, Expected;
    AfterHolds(fill, d, k);
    var r := FailedAt(fill, d, k, fault);
    BrokenDirectory(OpAt(k), After(fill, d, k), fault);
    RollbackKeepsTenants(r);
  }

  lemma BrokenDirectory(op: Op, r: Run, fault: Fault)
    ensures var after := Broken(op, r, fault);
            && after.disk.tenantsDir == r.disk.tenantsDir && after.disk.otherTenants == r.disk.otherTenants
            && after.createdDir == r.createdDir
  {
  }

  /** Bringing the backup back touches no file of a tenant. */
  lemma RollbackKeepsTenants(r: Run)
    ensures var cleaned, back := Without(r.disk.files, r.createdFiles), RolledBack(r).files;
            && (Tenant in back <==> Tenant in cleaned) && (TenantWal in back <==> TenantWal in cleaned)
            && (TenantShm in back <==> TenantShm in cleaned)
  {
    hide Without;
  }

  /**
   * The original's log files are back as they were except after a failed rename of the second one:
   * then the first, when there was one, stays at the backup's name.
   */
  lemma RollbackForgetsTheLog(fill: Fill, d: Disk, k: nat, fault: Fault)
    requires Ready(d) && k < STEPS
    ensures var back := RolledBack(FailedAt(fill, d, k, fault));
            && Get(back.files, IpamShm) == Get(d.files, IpamShm)
            && (Get(back.files, IpamWal) == Get(d.files, IpamWal) <==> !(OpAt(k) == RenameShm && IpamWal in d.files))
            && (OpAt(k) == RenameShm && IpamWal in d.files ==> Get(back.files, BackupWal) == Get(d.files, IpamWal))
  {
    hide RolledBack, FailedAt;
    RollbackFiles(fill, d, k, fault, IpamShm);
    RollbackFiles(fill, d, k, fault, IpamWal);
    RollbackFiles(fill, d, k, fault, BackupWal);
  }

  ghost predicate OriginalThere(d: Disk, files: map<Path, Content>)
    requires Ready(d)
  {
    Get(files, Ipam) == Some(d.files[Ipam]) || Get(files, Backup) == Some(d.files[Ipam])
  }

  /**
   * The original content is at its own path or at the backup's after every step that worked, after
   * a failed one, and at every point of the rollback.
   */
  lemma OriginalNeverLost(fill: Fill, d: Disk, k: nat, fault: Fault, removed: nat)
    requires Ready(d) && k < STEPS && removed <= |FailedAt(fill, d, k, fault).createdFiles|
    ensures OriginalThere(d, After(fill, d, k).disk.files) && OriginalThere(d, After(fill, d, k + 1).disk.files)
    ensures OriginalThere(d, FailedAt(fill, d, k, fault).disk.files)
    ensures var r := FailedAt(fill, d, k, fault); OriginalThere(d, Without(r.disk.files, r.createdFiles[..removed]))
    ensures OriginalThere(d, RolledBack(FailedAt(fill, d, k, fault)).files)
  {
    hide After, Broken, Without, RolledBack, Get, FailedAt;
    AfterHolds(fill, d, k);
    AfterHolds(fill, d, k + 1);
    RollbackFiles(fill, d, k, fault, Ipam);
    OriginalThereAt(fill, d, k, After(fill, d, k).disk.files);
    OriginalThereAt(fill, d, k + 1, After(fill, d, k + 1).disk.files);
    FailedGet(fill, d, k, fault, Ipam);
    FailedGet(fill, d, k, fault, Backup);
    var r := FailedAt(fill, d, k, fault);
    WithoutGet(r.disk.files, r.createdFiles[..removed], Ipam);
    WithoutGet(r.disk.files, r.createdFiles[..removed], Backup);
    assert forall q :: q in r.createdFiles[..removed] ==> q in Recorded(k);
  }

  lemma OriginalThereAt(fill: Fill, d: Disk, k: nat, files: map<Path, Content>)
    requires Ready(d) && forall p :: Get(files, p) == Expected(fill, d, k, p)
    ensures OriginalThere(d, files)
  {
    hide Get;
    assert Get(files, Ipam) == Expected(fill, d, k, Ipam) && Get(files, Backup) == Expected(fill, d, k, Backup);
  }

  /**
   * The files of a migration that completed: the original at both new places; and beside each of
   * them exactly the original's logs, unless a log stood there before that nothing replaced.
   */
  lemma Completed(fill: Fill, d: Disk)
    requires Ready(d)
    ensures var files := After(fill, d, STEPS).disk.files;
            && Ipam !in files && IpamWal !in files && IpamShm !in files
            && Get(files, Tenant) == Get(files, Backup) == Some(d.files[Ipam])
            && Get(files, Hub) == Some(fill(d.files[Ipam], Get(d.files, IpamWal)))
            && (Get(files, TenantWal) == Get(d.files, IpamWal) <==> IpamWal in d.files || TenantWal !in d.files)
            && (Get(files, TenantShm) == Get(d.files, IpamShm) <==> IpamShm in d.files || TenantShm !in d.files)
            && (Get(files, BackupWal) == Get(d.files, IpamWal) <==> IpamWal in d.files || BackupWal !in d.files)
            && (Get(files, BackupShm) == Get(d.files, IpamShm) <==> IpamShm in d.files || BackupShm !in d.files)
  {
    hide After;
    AfterHolds(fill, d, STEPS);
    var files := After(fill, d, STEPS).disk.files;
    assert forall p :: Get(files, p) == Expected(fill, d, STEPS, p);
    assert Get(files, Ipam) == None && Get(files, IpamWal) == None && Get(files, IpamShm) == None;
  }

  /** A log of the original that step `k` finds copied already, or copies in part. */
  predicate CopyStarted(d: Disk, log: Path, step: nat, k: nat, fault: Fault) {
    log in d.files && (k > step || (k == step && fault.Halfway?))
  }

  /**
   * The rollback removes no log: beside the tenant stands the log that stood there before or the one
   * the failed attempt copied, and beside the backup also the one it had renamed.
   */
  lemma RollbackLeavesLogs(fill: Fill, d: Disk, k: nat, fault: Fault)
    requires Ready(d) && k < STEPS && CanFail(fill, d, k, fault)
    ensures var files := RolledBack(FailedAt(fill, d, k, fault)).files;
            && (TenantWal in files <==> TenantWal in d.files || CopyStarted(d, IpamWal, COPY_WAL, k, fault))
            && (TenantShm in files <==> TenantShm in d.files || CopyStarted(d, IpamShm, COPY_SHM, k, fault))
            && (BackupWal in files <==> BackupWal in d.files || (OpAt(k) == RenameShm && IpamWal in d.files))
            && (BackupShm in files <==> BackupShm in d.files)
            && (IpamWal in d.files && k > COPY_WAL ==> Get(files, TenantWal) == Get(d.files, IpamWal))
            && (IpamShm in d.files && k > COPY_SHM ==> Get(files, TenantShm) == Get(d.files, IpamShm))
  {
    hide RolledBack, FailedAt, CanFail;
    SidecarsWereThere(fill, d, k, fault);
    RollbackFiles(fill, d, k, fault, TenantWal);
    RollbackFiles(fill, d, k, fault, TenantShm);
    RollbackFiles(fill, d, k, fault, BackupWal);
    RollbackFiles(fill, d, k, fault, BackupShm);
  }

  /**
   * An attempt after a failed one, whatever the application did with the original in between: the new
   * tenant has the original's logs of that moment exactly when each log is there or the failed
   * attempt, and what preceded it, left none at the tenant's name.
   */
  lemma RetryPairsLogs(fill: Fill, d: Disk, k: nat, fault: Fault, now: Disk)
    requires Ready(d) && k < STEPS && CanFail(fill, d, k, fault) && Ready(now)
    requires forall q :: q !in {Ipam, IpamWal, IpamShm} ==>
               Get(now.files, q) == Get(RolledBack(FailedAt(fill, d, k, fault)).files, q)
    ensures var files := After(fill, now, STEPS).disk.files;
            && (Get(files, TenantWal) == Get(now.files, IpamWal) <==>
                  IpamWal in now.files || !(TenantWal in d.files || CopyStarted(d, IpamWal, COPY_WAL, k, fault)))
            && (Get(files, TenantShm) == Get(now.files, IpamShm) <==>
                  IpamShm in now.files || !(TenantShm in d.files || CopyStarted(d, IpamShm, COPY_SHM, k, fault)))
            && (Get(files, BackupWal) == Get(now.files, IpamWal) <==>
                  IpamWal in now.files || !(BackupWal in d.files || (OpAt(k) == RenameShm && IpamWal in d.files)))
            && (Get(files, BackupShm) == Get(now.files, IpamShm) <==> IpamShm in now.files || BackupShm !in d.files)
  {
    hide After, RolledBack, FailedAt, CanFail, Ready, CopyStarted, OpAt;
    var back := RolledBack(FailedAt(fill, d, k, fault));
    RollbackLeavesLogs(fill, d, k, fault);
    Completed(fill, now);
    SameGet(now.files, back.files, TenantWal);
    SameGet(now.files, back.files, TenantShm);
    SameGet(now.files, back.files, BackupWal);
    SameGet(now.files, back.files, BackupShm);
  }

  lemma SameGet(a: map<Path, Content>, b: map<Path, Content>, p: Path)
    requires Get(a, p) == Get(b, p)
    ensures p in a <==> p in b
  {
  }

  /**
   * Starting again on the disk as the rollback left it ends with the same files as if nothing had
   * failed, but for the hub after a failed rename of the second log file: it is filled from the
   * database without its log.
   */
  lemma RetryCompletes(fill: Fill, d: Disk, k: nat, fault: Fault, p: Path)
    requires Ready(d) && k < STEPS && CanFail(fill, d, k, fault)
    requires !(fault.Halfway? && (OpAt(k) == CreateHub || OpAt(k) == CopyMain))
    ensures var back := RolledBack(FailedAt(fill, d, k, fault));
            && Ready(back)
            && Get(After(fill, back, STEPS).disk.files, p)
               == if p == Hub && OpAt(k) == RenameShm then Some(fill(d.files[Ipam], None))
                  else Get(After(fill, d, STEPS).disk.files, p)
  {
    hide After, RolledBack, FailedAt, Effect, CanFail;
    var back := RolledBack(FailedAt(fill, d, k, fault));
    RollbackRestores(fill, d, k, fault);
    AfterHolds(fill, d, STEPS);
    AfterHolds(fill, back, STEPS);
    forall q {
      RollbackFiles(fill, d, k, fault, q);
    }
    SidecarsWereThere(fill, d, k, fault);
    assert Get(After(fill, back, STEPS).disk.files, p) == Expected(fill, back, STEPS, p);
    assert Get(After(fill, d, STEPS).disk.files, p) == Expected(fill, d, STEPS, p);
    RetryExpected(fill, d, k, fault, back, p);
  }

  lemma SidecarsWereThere(fill: Fill, d: Disk, k: nat, fault: Fault)
    requires Ready(d) && k < STEPS && CanFail(fill, d, k, fault)
    ensures OpAt(k) == CopyWal ==> IpamWal in d.files
    ensures OpAt(k) == CopyShm ==> IpamShm in d.files
  {
    hide After, Effect;
    AfterHolds(fill, d, k);
    var files := After(fill, d, k).disk.files;
    assert Get(files, IpamWal) == Expected(fill, d, k, IpamWal);
    assert Get(files, IpamShm) == Expected(fill, d, k, IpamShm);
  }

  lemma RetryExpected(fill: Fill, d: Disk, k: nat, fault: Fault, back: Disk, p: Path)
    requires Ready(d) && Ready(back) && k < STEPS
    requires forall q :: Get(back.files, q) == Restored(fill, d, k, fault, q)
    requires OpAt(k) == CopyWal ==> IpamWal in d.files
    requires OpAt(k) == CopyShm ==> IpamShm in d.files
    ensures Expected(fill, back, STEPS, p)
            == if p == Hub && OpAt(k) == RenameShm then Some(fill(d.files[Ipam], None)) else Expected(fill, d, STEPS, p)
  {
    assert Get(back.files, p) == Restored(fill, d, k, fault, p);
    assert Get(back.files, Ipam) == Restored(fill, d, k, fault, Ipam);
    assert Get(back.files, IpamWal) == Restored(fill, d, k, fault, IpamWal);
    assert Get(back.files, IpamShm) == Restored(fill, d, k, fault, IpamShm);
  }
}
