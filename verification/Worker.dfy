/** mirrorRepo: everything a run does for one repository, as a deterministic sequence of
    file-system steps once the outside world's answers are fixed. */
module Worker {
  import opened Names
  import opened Trees
  import Mirror

  datatype Repo = Repo(path: string, archived: bool, empty: bool)

  datatype Selection = ArchiveNone | ArchiveAll | ArchiveActive | ArchiveArchived {
    predicate Wants(archived: bool) {
      match this
      case ArchiveAll => true
      case ArchiveActive => !archived
      case ArchiveArchived => archived
      case ArchiveNone => false
    }
  }

  datatype Kind = Issues | Releases | PullRequests {
    function DirName(): string {
      match this
      case Issues => "issues"
      case Releases => "releases"
      case PullRequests => "pull-requests"
    }
  }

  /** How the outside world treats one repository: git, the forge, and every file-system
      operation that may fail for reasons the tree does not show. `torn` is how many entries
      a tar writer gets out before it is interrupted. */
  datatype Env = Env(
    remote: Mirror.Remote,
    scratchOk: bool,
    parentOk: bool,
    exportDirOk: nat -> bool,
    exporter: (nat, Tree) -> Mirror.Attempt,
    archiveParentOk: bool,
    createOk: bool,
    torn: nat,
    writeOk: bool,
    renameOk: bool)

  /** One repository's work order: the names it may write to and how the world will answer.
      `pack` is the archive writer: the entry list of a mirror, or a failure. */
  datatype Job = Job(
    repo: Repo,
    wantsArchive: bool,
    kinds: seq<Kind>,
    exporters: seq<Kind>,
    place: Mirror.Place,
    scratch: Mirror.Place,
    metadata: Key,
    out: Key,
    tmp: Key,
    pack: Tree -> Maybe<seq<Entry>>,
    env: Env)
  {
    /** An archived repository that gets a tarball is mirrored into a scratch directory. */
    predicate UsesScratch() {
      repo.archived && wantsArchive
    }

    function ExportDir(k: nat): Key
      requires k < |exporters|
    {
      metadata + [exporters[k].DirName()]
    }

    predicate Selected(k: nat) {
      k < |exporters| && exporters[k] in kinds
    }
  }

  /** What Sync decided to do; it is undecided while git has not been found. */
  datatype Branch = Undecided | Cloned | Updated

  datatype Outcome = Outcome(synced: bool, archived: bool, failed: bool, exported: nat, branch: Branch)

  type SyncStage = s: Mirror.Stage | !Mirror.Ended(s) witness Mirror.Check

  datatype Stage =
    | Begin
    | MakeParent
    | Sync(s: SyncStage)
    | MakeExportDir(k: nat)
    | Export(k: nat)
    | MakeArchiveParent
    | CreateTemp
    | FillTemp
    | CloseTemp
    | RenameTemp
    | Ended

  datatype State = State(stage: Stage, scratch: Tree, outcome: Outcome) {
    function Go(next: Stage): State {
      this.(stage := next)
    }

    function Fail(): State {
      this.(stage := Ended, outcome := outcome.(failed := true))
    }
  }

  const FRESH := State(Begin, EMPTY, Outcome(false, false, false, 0, Undecided))

  /** The mirror to archive: the scratch copy or the one in the destination tree. */
  ghost function Source(j: Job, w: State, t: Tree): Tree {
    if j.UsesScratch() then Subtree(w.scratch, j.scratch.dir) else Subtree(t, j.place.dir)
  }

  function AfterSync(w: State, before: SyncStage, after: Mirror.Stage): State {
    var branch :=
      if before.Check? && after.Update? then Updated
      else if before.Check? && after.Clear? then Cloned
      else w.outcome.branch;
    var w' := w.(outcome := w.outcome.(branch := branch));
    if after.Done? then w'.(stage := MakeExportDir(0), outcome := w'.outcome.(synced := true))
    else if after.Failed? then w'.Fail()
    else w'.Go(Sync(after))
  }

  /* ---- when a stage succeeds ---- */

  ghost predicate ParentMade(j: Job, t: Tree) {
    j.env.parentOk && MkdirAll(t, Front(j.place.dir)).Ok?
  }

  ghost predicate ExportDirMade(j: Job, t: Tree, k: nat)
    requires k < |j.exporters|
  {
    j.env.exportDirOk(k) && MkdirAll(t, j.ExportDir(k)).Ok?
  }

  ghost predicate ArchiveParentMade(j: Job, t: Tree) {
    j.env.archiveParentOk && MkdirAll(t, Front(j.out)).Ok?
  }

  /** The archive writer can start when the mirror is there to be read and the temporary
      name is not taken by a directory. */
  ghost predicate CanCreate(j: Job, w: State, t: Tree) {
    j.env.createOk && IsDir(Source(j, w, t), []) && !IsDir(t, j.tmp)
  }

  ghost predicate CanClose(j: Job, w: State, t: Tree) {
    j.env.writeOk && j.pack(Source(j, w, t)).Ok?
  }

  ghost predicate CanRename(j: Job, t: Tree) {
    j.env.renameOk && Rename(t, j.tmp, j.out).Ok?
  }

  ghost function Exported(j: Job, t: Tree, k: nat): Mirror.Attempt
    requires k < |j.exporters|
  {
    j.env.exporter(k, Subtree(t, j.ExportDir(k)))
  }

  /* ---- where the worker goes next ---- */

  /** What the outside world lets the worker see at one step: whether the step worked and,
      during Sync, where that got to and what the scratch directory then holds. */
  datatype Answer = Answer(ok: bool, sync: Mirror.Stage, scratch: Tree)

  ghost function StepOk(j: Job, w: State, t: Tree): bool {
    match w.stage
    case Begin => !j.UsesScratch() || j.env.scratchOk
    case MakeParent => j.UsesScratch() || ParentMade(j, t)
    case MakeExportDir(k) => k < |j.exporters| && j.Selected(k) ==> ExportDirMade(j, t, k)
    case Export(k) => k < |j.exporters| ==> Exported(j, t, k).ok
    case MakeArchiveParent => ArchiveParentMade(j, t)
    case CreateTemp => CanCreate(j, w, t)
    case CloseTemp => CanClose(j, w, t)
    case RenameTemp => CanRename(j, t)
    case _ => true
  }

  ghost function Ask(j: Job, w: State, t: Tree): Answer {
    if !w.stage.Sync? then Answer(StepOk(j, w, t), Mirror.Done, w.scratch)
    else if j.UsesScratch() then
      var (s, scratch) := Mirror.Step(j.env.remote, j.scratch, w.stage.s, w.scratch);
      Answer(true, s, scratch)
    else Answer(true, Mirror.Step(j.env.remote, j.place, w.stage.s, t).0, w.scratch)
  }

  function Advance(j: Job, w: State, a: Answer): State
    requires !w.stage.Ended?
  {
    var o := w.outcome;
    match w.stage
    case Begin =>
      if !a.ok then w.Fail()
      else w.(stage := MakeParent, scratch := if j.UsesScratch() then map[[] := Dir(0x1C0)] else w.scratch)
    case MakeParent => if a.ok then w.Go(Sync(Mirror.Check)) else w.Fail()
    case Sync(s) => AfterSync(w.(scratch := a.scratch), s, a.sync)
    case MakeExportDir(k) =>
      if k >= |j.exporters| then w.Go(if j.wantsArchive then MakeArchiveParent else Ended)
      else if !j.Selected(k) then w.Go(MakeExportDir(k + 1))
      else if a.ok then w.Go(Export(k))
      else w.(stage := MakeExportDir(k + 1), outcome := o.(failed := true))
    case Export(k) =>
      w.(stage := MakeExportDir(k + 1),
         outcome := if a.ok then o.(exported := o.exported + 1) else o.(failed := true))
    case MakeArchiveParent => if a.ok then w.Go(CreateTemp) else w.Fail()
    case CreateTemp => if a.ok then w.Go(FillTemp) else w.Fail()
    case FillTemp => w.Go(CloseTemp)
    case CloseTemp => if a.ok then w.Go(RenameTemp) else w.Fail()
    case RenameTemp => if a.ok then w.(stage := Ended, outcome := o.(archived := true)) else w.Fail()
  }

  ghost function Next(j: Job, w: State, t: Tree): State
    requires !w.stage.Ended?
  {
    Advance(j, w, Ask(j, w, t))
  }

  /* ---- what a step does to the shared tree ---- */

  ghost function ExportEffect(j: Job, w: State, t: Tree): Tree
    requires w.stage.MakeExportDir? || w.stage.Export?
  {
    var k := w.stage.k;
    if k >= |j.exporters| then t
    else if w.stage.MakeExportDir? then
      if j.Selected(k) && ExportDirMade(j, t, k) then MkdirAll(t, j.ExportDir(k)).value else t
    else Graft(t, j.ExportDir(k), Exported(j, t, k).tree)
  }

  /** What an interrupted writer has got out so far. */
  function Torn(all: Maybe<seq<Entry>>, n: nat): Blob {
    match all
    case Ok(entries) => TarGz(if n <= |entries| then entries[..n] else entries, false)
    case Err => TarGz([], false)
  }

  ghost function TempFile(t: Tree, j: Job, data: Blob): Tree {
    PutFile(t, j.tmp, File(0x1A4, data))
  }

  /** Archive(): a temporary file is created, filled, closed and renamed over the target;
      a failure before the rename removes it again. */
  ghost function ArchiveEffect(j: Job, w: State, t: Tree): Tree {
    match w.stage
    case CreateTemp => if CanCreate(j, w, t) then TempFile(t, j, TarGz([], false)) else Remove(t, j.tmp)
    case FillTemp => TempFile(t, j, Torn(j.pack(Source(j, w, t)), j.env.torn))
    case CloseTemp =>
      if CanClose(j, w, t) then TempFile(t, j, TarGz(j.pack(Source(j, w, t)).value, true)) else Remove(t, j.tmp)
    case RenameTemp => if CanRename(j, t) then Rename(t, j.tmp, j.out).value else t
    case _ => t
  }

  ghost function Effect(j: Job, w: State, t: Tree): Tree
    requires !w.stage.Ended?
  {
    match w.stage
    case Begin => t
    case MakeParent =>
      if !j.UsesScratch() && ParentMade(j, t) then MkdirAll(t, Front(j.place.dir)).value else t
    case Sync(s) => if j.UsesScratch() then t else Mirror.Step(j.env.remote, j.place, s, t).1
    case MakeExportDir(_) => ExportEffect(j, w, t)
    case Export(_) => ExportEffect(j, w, t)
    case MakeArchiveParent => if ArchiveParentMade(j, t) then MkdirAll(t, Front(j.out)).value else t
    case _ => ArchiveEffect(j, w, t)
  }

  function Rank(j: Job, w: State): nat {
    var n := |j.exporters|;
    match w.stage
    case Begin => 14 + 2 * n
    case MakeParent => 13 + 2 * n
    case Sync(s) => 7 + 2 * n + Mirror.Rank(s)
    case MakeExportDir(k) => if k < n then 6 + 2 * (n - k) else 6
    case Export(k) => if k < n then 5 + 2 * (n - k) else 7
    case MakeArchiveParent => 5
    case CreateTemp => 4
    case FillTemp => 3
    case CloseTemp => 2
    case RenameTemp => 1
    case Ended => 0
  }

  lemma MirrorRankDrops(r: Mirror.Remote, p: Mirror.Place, s: SyncStage, t: Tree)
    ensures Mirror.Rank(Mirror.Step(r, p, s, t).0) < Mirror.Rank(s)
  {
  }

  lemma AdvanceDrops(j: Job, w: State, a: Answer)
    requires !w.stage.Ended?
    requires w.stage.Sync? ==> Mirror.Rank(a.sync) < Mirror.Rank(w.stage.s)
    ensures Rank(j, Advance(j, w, a)) < Rank(j, w)
  {
  }

  /** Every step brings the worker closer to its end. */
  lemma RankDrops(j: Job, w: State, t: Tree)
    requires !w.stage.Ended?
    ensures Rank(j, Next(j, w, t)) < Rank(j, w)
  {
    if w.stage.Sync? {
      MirrorRankDrops(j.env.remote, j.scratch, w.stage.s, w.scratch);
      MirrorRankDrops(j.env.remote, j.place, w.stage.s, t);
    }
    AdvanceDrops(j, w, Ask(j, w, t));
  }

  /** The worker run to its end with nobody else touching the tree. */
  ghost function Finish(j: Job, w: State, t: Tree): (State, Tree)
    decreases Rank(j, w)
  {
    if w.stage.Ended? then (w, t)
    else
      RankDrops(j, w, t);
      Finish(j, Next(j, w, t), Effect(j, w, t))
  }

  /* ---- facts about one repository's outcome ---- */

  function SelectedCount(j: Job, from: nat): nat
    decreases |j.exporters| - from
  {
    if from >= |j.exporters| then 0
    else (if j.Selected(from) then 1 else 0) + SelectedCount(j, from + 1)
  }

  /** How far `exported` may still grow. */
  function ExportBudget(j: Job, w: State): nat {
    match w.stage
    case Begin => SelectedCount(j, 0)
    case MakeParent => SelectedCount(j, 0)
    case Sync(_) => SelectedCount(j, 0)
    case MakeExportDir(k) => SelectedCount(j, k)
    case Export(k) => if j.Selected(k) then SelectedCount(j, k) else 1 + SelectedCount(j, k)
    case _ => 0
  }

  predicate BeforeSyncEnds(s: Stage) {
    s.Begin? || s.MakeParent? || s.Sync?
  }

  predicate Archiving(s: Stage) {
    s.MakeArchiveParent? || s.CreateTemp? || s.FillTemp? || s.CloseTemp? || s.RenameTemp?
  }

  predicate Plausible(j: Job, w: State) {
    var o, s := w.outcome, w.stage;
    && (o.archived ==> o.synced && s.Ended? && j.wantsArchive)
    && (s.Ended? && !o.synced ==> o.failed)
    && (s.Ended? && o.synced && j.wantsArchive ==> o.archived || o.failed)
    && (BeforeSyncEnds(s) ==> !o.synced && !o.failed)
    && (s.MakeExportDir? || s.Export? || Archiving(s) ==> o.synced)
    && (Archiving(s) ==> j.wantsArchive)
    && (s.Export? ==> j.Selected(s.k))
    && (!o.synced ==> o.exported == 0)
    && o.exported + ExportBudget(j, w) <= SelectedCount(j, 0)
  }

  lemma PlausibleStep(j: Job, w: State, a: Answer)
    requires !w.stage.Ended? && Plausible(j, w)
    ensures Plausible(j, Advance(j, w, a))
  {
  }

  lemma {:induction false} PlausibleFinish(j: Job, w: State, t: Tree)
    requires Plausible(j, w)
    ensures Finish(j, w, t).0.stage.Ended?
    ensures Plausible(j, Finish(j, w, t).0)
    decreases Rank(j, w)
  {
    if !w.stage.Ended? {
      RankDrops(j, w, t);
      PlausibleStep(j, w, Ask(j, w, t));
      PlausibleFinish(j, Next(j, w, t), Effect(j, w, t));
    }
  }
}
