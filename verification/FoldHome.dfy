/**
 Folding a separate /home volume into the root file system: back up, unmount, remove the volume,
 grow root, copy back.  Every step may fail, and it may also end by an exception that
 nobody in the operation catches: a command that is killed at its time limit or cannot be started, a
 text that cannot be decoded.
 */
module FoldHome {
  import opened Wrappers
  import opened Fstab

  type Files = map<string, string>

  datatype Step =
    | FindHome | AskLvs | MeasureUsed | MakeDirs | ClearStage | MakeStage | CopyOut | MakeArchive | Tar | SealArchive
    | AskDocker | StopDocker | StopSocket | ScanHolders | ScanAgain | ReadFstab | WriteBackup | WriteFstab | RestoreFstab
    | Umount | LvRemove | Mount | StartDocker | LvExtend | GrowFs | MakeHome | CopyBack | Relabel | AskDf

  /** Failed: a non-zero exit, or for files the OSError the code expects.  Raises: any other exception;
      the step may have taken effect all the same. */
  datatype Outcome = Done | Failed | Raises(effect: bool)

  datatype Holder = Holder(pid: nat, closable: bool)

  /** What happens in one call: the outcome of every step and what a failing write or copy leaves
      behind.  None: the file could not even be opened.  late: what the volume holds when it is
      unmounted. */
  datatype Fate = Fate(of: Step -> Outcome, backupLeft: Option<Lines>, fstabLeft: Option<Lines>, restoreLeft: Option<Lines>,
                       stageLeft: Files, homeLeft: Files, late: Files, holders: seq<Holder>, holdersLater: seq<Holder>)

  /** What the system reports of root and /home; "" where it reports nothing. */
  datatype Survey = Survey(rootDev: string, vg: string, rootLv: string, homeDev: string, homeLvs: Option<(string, string)>, used: Option<nat>)

  datatype Request = Request(confirmLv: string, closeShells: bool)

  datatype Result = Success | Refused | Raised(at: Step)

  const MAX_USED: nat := 2 * 1024 * 1024 * 1024

  function LvPath(s: Survey): (p: string)
    requires s.homeLvs.Some?
  {
    s.homeLvs.value.0 + "/" + s.homeLvs.value.1
  }

  /** All the guards: root and /home are volumes of one group, the caller named the volume that
      goes, and /home is nearly empty. */
  predicate Guarded(s: Survey, req: Request)
  {
    && s.rootDev != "" && s.vg != "" && s.rootLv != "" && s.homeDev != ""
    && s.homeLvs.Some? && s.homeLvs.value.0 == s.vg
    && req.confirmLv in {LvPath(s), "/dev/" + LvPath(s), s.homeDev}
    && s.used.Some? && s.used.value <= MAX_USED
  }

  /** lv: the content of the volume that holds /home, None once it is removed; below: the plain directory
      /home on the root file system. */
  datatype State = State(fstab: Lines, backup: Option<Lines>, mounted: bool, lv: Option<Files>, below: Files,
                         stage: Option<Files>, archive: Option<Files>, docker: bool)

  /** The volume is there, or both copies of what was copied out of it are. */
  predicate Kept(s: State, copied: Files) { s.lv.Some? || (s.stage == Some(copied) && s.archive == Some(copied)) }

  /** Everything that must have happened before the volume may go. */
  predicate Earned(s: Survey, req: Request, f: Fate)
  {
    && Guarded(s, req)
    && f.of(CopyOut).Done? && f.of(Tar).Done? && f.of(Umount).Done?
    && f.of(ReadFstab).Done? && f.of(WriteBackup).Done? && f.of(WriteFstab).Done?
    && HoldersGone(req, f)
  }

  /** Never a state without the data, and the volume is gone only if that was earned, and never
      while it is mounted. */
  predicate TrailOk(trail: seq<State>, copied: Files, earned: bool)
  {
    forall i :: 0 <= i < |trail| ==> Kept(trail[i], copied) && (trail[i].lv.None? ==> earned && !trail[i].mounted)
  }

  /** The call got as far as the edit of fstab. */
  predicate ReachesEdit(s: Survey, req: Request, f: Fate, docker: bool)
  {
    && Guarded(s, req)
    && !f.of(FindHome).Raises? && !f.of(AskLvs).Raises? && !f.of(MeasureUsed).Raises?
    && Staged(f) && Cleared(req, f, docker)
  }

  /** The command takes effect. */
  predicate Effective(o: Outcome) { o.Done? || o == Raises(true) }

  /** What follows the removal of the volume goes through.  A failed growth of the file system, copy back,
      relabelling or start of docker is only reported. */
  predicate Finishes(f: Fate, docker: bool)
  {
    && f.of(LvExtend).Done? && !f.of(GrowFs).Raises? && f.of(MakeHome).Done? && !f.of(CopyBack).Raises?
    && !f.of(Relabel).Raises? && !(docker && f.of(StartDocker).Raises?) && !f.of(AskDf).Raises?
  }

  /** The plain directory afterwards, given what was copied out. */
  function BelowAfter(f: Fate, below: Files, copied: Files): (r: Files)
  {
    if !f.of(LvExtend).Done? || f.of(GrowFs).Raises? || !f.of(MakeHome).Done? then below
    else if f.of(CopyBack).Done? then below + copied else f.homeLeft
  }

  /** The copy afterwards, and the archive of it: what a failed command leaves is the fate's. */
  function StageAfter(f: Fate, lv: Option<Files>, stage: Option<Files>): (r: Option<Files>)
  {
    if !f.of(MakeDirs).Done? || f.of(ClearStage).Raises? || !f.of(MakeStage).Done? then stage
    else if f.of(CopyOut).Done? then lv else Some(f.stageLeft)
  }

  function ArchiveAfter(f: Fate, lv: Option<Files>, archive: Option<Files>): (r: Option<Files>)
  {
    if !f.of(MakeDirs).Done? || f.of(ClearStage).Raises? || !f.of(MakeStage).Done? || !f.of(CopyOut).Done? || !f.of(MakeArchive).Done?
    then archive
    else if f.of(Tar).Done? then lv else Some(map[])
  }

  /** Who is told to end: all holders, if all are plain shells and that was asked for. */
  function Ended(req: Request, f: Fate): (r: seq<Holder>)
  {
    if f.of(ScanHolders).Done? && req.closeShells && forall i :: 0 <= i < |f.holders| ==> f.holders[i].closable then f.holders else []
  }

  /** Docker is out of the way and nobody holds /home. */
  predicate Cleared(req: Request, f: Fate, docker: bool)
  {
    && !f.of(AskDocker).Raises? && (docker ==> !f.of(StopDocker).Raises? && !f.of(StopSocket).Raises?)
    && f.of(ScanHolders).Done? && (f.holders == [] || f.of(ScanAgain).Done?) && HoldersGone(req, f)
  }

  predicate Staged(f: Fate)
  {
    && f.of(MakeDirs).Done? && !f.of(ClearStage).Raises? && f.of(MakeStage).Done?
    && f.of(CopyOut).Done? && f.of(MakeArchive).Done? && f.of(Tar).Done? && f.of(SealArchive).Done?
  }

  predicate HoldersGone(req: Request, f: Fate)
  {
    f.holders == [] || (req.closeShells && f.holdersLater == [] && forall i :: 0 <= i < |f.holders| ==> f.holders[i].closable)
  }

  /** The processes signalled in between: shells, and only on request. */
  predicate SignedOut(before: seq<Holder>, after: seq<Holder>, req: Request)
  {
    before <= after && forall i :: |before| <= i < |after| ==> after[i].closable && req.closeShells
  }

  /** The commands that undo. */
  predicate UndoWorks(f: Fate) { f.of(RestoreFstab).Done? && f.of(StartDocker).Done? && f.of(Mount).Done? }

  /** The exceptions that leave the box changed: nothing is undone on their way out. */
  predicate Escapes(r: Result, f: Fate, docker: bool)
  {
    r.Raised? &&
    (r.at in {Umount, LvRemove}
     || (docker && r.at == StopDocker && f.of(StopDocker) == Raises(true))
     || (docker && r.at in {StopSocket, ScanHolders, ScanAgain, ReadFstab} && f.of(StopDocker).Done?))
  }

  /** What fstab holds after the attempt to restore it. */
  function Restored(f: Fate, backup: Option<Lines>, fstab: Lines): (r: Lines)
  {
    if backup.None? || f.of(RestoreFstab).Raises? then fstab
    else if f.of(RestoreFstab).Done? then backup.value
    else if f.restoreLeft.Some? then f.restoreLeft.value else fstab
  }

  /** How undoing the edit ends. */
  function Undone(f: Fate, was: bool, backup: Option<Lines>): (r: Result)
  {
    if backup.Some? && f.of(RestoreFstab).Raises? then Raised(RestoreFstab)
    else if was && f.of(StartDocker).Raises? then Raised(StartDocker) else Refused
  }

  /** What the backup file holds when the edit of fstab has ended, given what it held before: an
      earlier run may have left one. */
  function BackupAfter(f: Fate, backup: Option<Lines>, orig: Lines): (b: Option<Lines>)
  {
    if !f.of(ReadFstab).Done? then backup
    else if f.of(WriteBackup).Done? then Some(orig)
    else if f.backupLeft.Some? then f.backupLeft else backup
  }

  /** The undo will write something other than the original: fstab could not be read and a different
      backup is there, or the backup could not be written and what is there is not the original. */
  predicate Stale(f: Fate, backup: Option<Lines>, orig: Lines)
  {
    || (!f.of(ReadFstab).Done? && backup.Some? && backup.value != orig)
    || (f.of(ReadFstab).Done? && !f.of(WriteBackup).Done?
        && if f.backupLeft.Some? then f.backupLeft.value != orig else backup.Some? && backup.value != orig)
  }

  lemma EarnedAfterEdit(s: Survey, req: Request, f: Fate, docker: bool)
    ensures ReachesEdit(s, req, f, docker) ==>
              (Earned(s, req, f) <==> f.of(ReadFstab).Done? && f.of(WriteBackup).Done? && f.of(WriteFstab).Done? && f.of(Umount).Done?)
  {}

  lemma StaleExact(f: Fate, backup: Option<Lines>, orig: Lines)
    ensures var b := BackupAfter(f, backup, orig); (if b.Some? then b.value else orig) == orig <==> !Stale(f, backup, orig)
  {}

  class Box {
    var fstab: Lines
    var backup: Option<Lines>
    var mounted: bool
    var lv: Option<Files>
    var below: Files
    var stage: Option<Files>
    var archive: Option<Files>
    var docker: bool
    var closed: seq<Holder>        // processes signalled
    ghost var trail: seq<State>    // every state since the call began

    constructor (fstab: Lines, backup: Option<Lines>, home: Files, docker: bool)
      ensures Now() == State(fstab, backup, true, Some(home), map[], None, None, docker) && closed == []
    {
      this.fstab, this.backup, mounted, lv, below := fstab, backup, true, Some(home), map[];
      stage, archive, this.docker, closed := None, None, docker, [];
      trail := [];
    }

    function Now(): (s: State)
      reads this
    {
      State(fstab, backup, mounted, lv, below, stage, archive, docker)
    }

    ghost predicate Traced()
      reads this
    {
      trail != [] && trail[|trail| - 1] == Now()
    }

    /** The history so far is sound. */
    ghost predicate Sound(copied: Files, earned: bool)
      reads this
    {
      Traced() && TrailOk(trail, copied, earned)
    }

    /** Put the present state on record. */
    ghost method Note(copied: Files, earned: bool)
      requires TrailOk(trail, copied, earned) && Kept(Now(), copied) && (lv.None? ==> earned && !mounted)
      modifies this`trail
      ensures Sound(copied, earned) && old(trail) <= trail
    {
      trail := trail + [Now()];
    }

    // -------------------------------------------------------------- before anything is changed

    method Guards(s: Survey, req: Request, f: Fate) returns (stop: Option<Result>)
      ensures stop.None? ==> Guarded(s, req)
      ensures stop.Some? ==> stop.value.Refused? || stop.value.Raised?
      ensures stop == Some(Refused) ==> !Guarded(s, req)
      ensures stop.None? ==> !f.of(FindHome).Raises? && !f.of(AskLvs).Raises? && !f.of(MeasureUsed).Raises?
      ensures stop.Some? && stop.value.Raised? ==> stop.value.at in {FindHome, AskLvs, MeasureUsed} && f.of(stop.value.at).Raises?
    {
      if s.rootDev == "" || s.vg == "" || s.rootLv == "" { return Some(Refused); }
      if f.of(FindHome).Raises? { return Some(Raised(FindHome)); }
      if s.homeDev == "" { return Some(Refused); }
      if f.of(AskLvs).Raises? { return Some(Raised(AskLvs)); }
      if s.homeLvs.None? { return Some(Refused); }
      if s.homeLvs.value.0 != s.vg { return Some(Refused); }
      if req.confirmLv !in {LvPath(s), "/dev/" + LvPath(s), s.homeDev} { return Some(Refused); }
      if f.of(MeasureUsed).Raises? { return Some(Raised(MeasureUsed)); }
      if s.used.None? { return Some(Refused); }
      if s.used.value > MAX_USED { return Some(Refused); }
      return None;
    }

    /** Copy /home out and archive the copy.  Only the two copies change. */
    method StageAndArchive(f: Fate) returns (stop: Option<Result>)
      requires mounted && lv.Some? && Sound(lv.value, false)
      modifies this`stage, this`archive, this`trail
      ensures Sound(lv.value, false) && old(trail) <= trail
      ensures stop.None? ==> stage == lv == archive && f.of(CopyOut).Done? && f.of(Tar).Done?
      ensures stop.None? <==> Staged(f)
      ensures stage == StageAfter(f, lv, old(stage)) && archive == ArchiveAfter(f, lv, old(archive))
      ensures stop.Some? ==> stop.value.Refused? || (stop.value.Raised? && stop.value.at in {ClearStage, MakeStage, CopyOut, Tar, SealArchive})
      ensures stop.Some? && stop.value.Raised? ==> !f.of(stop.value.at).Done?
    {
      if !f.of(MakeDirs).Done? { return Some(Refused); }
      if f.of(ClearStage).Raises? { return Some(Raised(ClearStage)); }
      if !f.of(MakeStage).Done? { return Some(Raised(MakeStage)); }
      stage := Some(map[]);
      Note(lv.value, false);
      stage := if f.of(CopyOut).Done? then lv else Some(f.stageLeft);
      Note(lv.value, false);
      if f.of(CopyOut).Raises? { return Some(Raised(CopyOut)); }
      if f.of(CopyOut).Failed? { return Some(Refused); }
      if !f.of(MakeArchive).Done? { return Some(Refused); }
      archive := if f.of(Tar).Done? then stage else Some(map[]);
      Note(lv.value, false);
      if f.of(Tar).Raises? { return Some(Raised(Tar)); }
      if f.of(Tar).Failed? { return Some(Refused); }
      if !f.of(SealArchive).Done? { return Some(Raised(SealArchive)); }
      return None;
    }

    // -------------------------------------------------------------- docker and the holders

    method StopDockerFirst(f: Fate, ghost copied: Files) returns (was: bool, raised: Option<Step>)
      requires Sound(copied, false)
      modifies this`docker, this`trail
      ensures Sound(copied, false) && old(trail) <= trail
      ensures raised.None? <==> !f.of(AskDocker).Raises? && (old(docker) ==> !f.of(StopDocker).Raises? && !f.of(StopSocket).Raises?)
      ensures raised.None? ==> was == old(docker)
      ensures raised.Some? ==> raised.value in {AskDocker, StopDocker, StopSocket} && !f.of(raised.value).Done?
      ensures docker == (old(docker) && (f.of(AskDocker).Raises? || !(f.of(StopDocker).Done? || f.of(StopDocker) == Raises(true))))
      ensures raised.Some? ==> (docker != old(docker) <==> Escapes(Raised(raised.value), f, old(docker)))
    {
      if f.of(AskDocker).Raises? { return false, Some(AskDocker); }
      was := docker;
      if was {
        if f.of(StopDocker).Done? || f.of(StopDocker) == Raises(true) { docker := false; }
        Note(copied, false);
        if f.of(StopDocker).Raises? { return was, Some(StopDocker); }
        if f.of(StopSocket).Raises? { return was, Some(StopSocket); }
      }
      return was, None;
    }

    /** Only plain shells are ever signed out, and only on request and if nothing else is there. */
    method CheckHolders(req: Request, f: Fate) returns (refuse: bool, raised: Option<Step>)
      modifies this`closed
      ensures raised.None? && !refuse <==> f.of(ScanHolders).Done? && (f.holders == [] || f.of(ScanAgain).Done?) && HoldersGone(req, f)
      ensures raised.None? <==> f.of(ScanHolders).Done? && (Ended(req, f) == [] || f.of(ScanAgain).Done?)
      ensures raised.None? && refuse ==> !HoldersGone(req, f)
      ensures raised.Some? ==> raised.value in {ScanHolders, ScanAgain} && !f.of(raised.value).Done?
      ensures closed == old(closed) + Ended(req, f) && SignedOut(old(closed), closed, req)
    {
      EmptyPrefix(closed);
      if !f.of(ScanHolders).Done? { return false, Some(ScanHolders); }
      if f.holders == [] { return false, None; }
      if exists i :: 0 <= i < |f.holders| && !f.holders[i].closable { return true, None; }
      if !req.closeShells { return true, None; }
      closed := closed + f.holders;
      if !f.of(ScanAgain).Done? { return false, Some(ScanAgain); }
      return f.holdersLater != [], None;
    }

    // -------------------------------------------------------------- fstab

    /** Back fstab up and take /home out of it; what a failing write leaves is the fate's.  Text that
        was just decoded can be encoded again, so only the reading can raise anything but an
        OSError.  None: it raised. */
    method EditFstab(f: Fate, ghost copied: Files) returns (ok: Option<bool>)
      requires Sound(copied, false)
      modifies this`fstab, this`backup, this`trail
      ensures Sound(copied, false) && old(trail) <= trail
      ensures ok == Some(true) <==> f.of(ReadFstab).Done? && f.of(WriteBackup).Done? && f.of(WriteFstab).Done?
      ensures ok == None <==> f.of(ReadFstab).Raises?
      ensures ok == Some(true) ==> fstab == CommentOut(old(fstab))
      ensures backup == BackupAfter(f, old(backup), old(fstab))
      ensures !f.of(ReadFstab).Done? || !f.of(WriteBackup).Done? ==> fstab == old(fstab)
      ensures f.of(ReadFstab).Done? && f.of(WriteBackup).Done? && !f.of(WriteFstab).Done? ==>
                fstab == if f.fstabLeft.Some? then f.fstabLeft.value else old(fstab)
    {
      if f.of(ReadFstab).Raises? { return None; }
      if f.of(ReadFstab).Failed? { return Some(false); }
      if !f.of(WriteBackup).Done? {
        if f.backupLeft.Some? { backup := f.backupLeft; }
        Note(copied, false);
        return Some(false);
      }
      backup := Some(fstab);
      Note(copied, false);
      if !f.of(WriteFstab).Done? {
        if f.fstabLeft.Some? { fstab := f.fstabLeft.value; }
        Note(copied, false);
        return Some(false);
      }
      fstab := WithoutHome(fstab);
      Note(copied, false);
      return Some(true);
    }

    /** The edit, undone if it fails half-way: then fstab is what the backup holds, whichever run
        wrote that.  An fstab that cannot be decoded ends it by an exception, and nothing is undone. */
    method EditOrUndo(was: bool, f: Fate, ghost copied: Files) returns (stop: Option<Result>)
      requires Sound(copied, false)
      modifies this`fstab, this`backup, this`docker, this`trail
      ensures Sound(copied, false) && old(trail) <= trail
      ensures stop.None? <==> f.of(ReadFstab).Done? && f.of(WriteBackup).Done? && f.of(WriteFstab).Done?
      ensures stop == Some(Raised(ReadFstab)) <==> f.of(ReadFstab).Raises?
      ensures f.of(ReadFstab).Raises? ==> fstab == old(fstab) && docker == old(docker)
      ensures backup == BackupAfter(f, old(backup), old(fstab))
      ensures stop.None? ==> fstab == CommentOut(old(fstab)) && docker == old(docker)
      ensures stop.Some? && !f.of(ReadFstab).Raises? ==> stop == Some(Undone(f, was, backup)) && stop.value != Raised(ReadFstab)
      ensures stop == Some(Raised(RestoreFstab)) ==> docker == old(docker)
      ensures stop == Some(Refused) && UndoWorks(f) ==>
                docker == (old(docker) || was) && fstab == if backup.Some? then backup.value else old(fstab)
    {
      var ok := EditFstab(f, copied);
      if ok.None? { return Some(Raised(ReadFstab)); }
      if ok.value { return None; }
      var lost := RestoreFstabNow(f, copied, false);
      if lost { return Some(Raised(RestoreFstab)); }
      var hung := RestoreDocker(was, f, copied, false);
      return Some(if hung then Raised(StartDocker) else Refused);
    }

    /** `_restore_fstab`; a backup that cannot be decoded ends it by an exception. */
    method RestoreFstabNow(f: Fate, ghost copied: Files, ghost earned: bool) returns (raised: bool)
      requires Sound(copied, earned)
      modifies this`fstab, this`trail
      ensures Sound(copied, earned) && old(trail) <= trail
      ensures raised <==> backup.Some? && f.of(RestoreFstab).Raises?
      ensures fstab == Restored(f, backup, old(fstab))
    {
      if backup.None? { return false; }
      if f.of(RestoreFstab).Raises? { return true; }
      if f.of(RestoreFstab).Done? { fstab := backup.value; } else if f.restoreLeft.Some? { fstab := f.restoreLeft.value; }
      Note(copied, earned);
      return false;
    }

    method RestoreDocker(was: bool, f: Fate, ghost copied: Files, ghost earned: bool) returns (raised: bool)
      requires Sound(copied, earned)
      modifies this`docker, this`trail
      ensures Sound(copied, earned) && old(trail) <= trail
      ensures raised <==> was && f.of(StartDocker).Raises?
      ensures docker == (old(docker) || (was && Effective(f.of(StartDocker))))
    {
      if !was { return false; }
      if f.of(StartDocker).Done? || f.of(StartDocker) == Raises(true) { docker := true; }
      Note(copied, earned);
      return f.of(StartDocker).Raises?;
    }

    // -------------------------------------------------------------- the point of no return

    /** Undo after `umount` (volume: false) or after `lvremove` (volume: true) reported an error. */
    method Undo(volume: bool, was: bool, f: Fate, ghost copied: Files, ghost earned: bool, ghost orig: Lines) returns (r: Result)
      requires Sound(copied, earned) && lv.Some? && backup == Some(orig)
      modifies this`fstab, this`mounted, this`docker, this`trail
      ensures Sound(copied, earned) && old(trail) <= trail
      ensures r == if !f.of(RestoreFstab).Raises? && volume && f.of(Mount).Raises? then Raised(Mount) else Undone(f, was, backup)
      ensures fstab == Restored(f, backup, old(fstab))
      // mount reads fstab
      ensures mounted == (old(mounted) || (volume && !f.of(RestoreFstab).Raises? && HasHome(fstab) && Effective(f.of(Mount))))
      ensures UndoWorks(f) ==> fstab == orig && docker == (old(docker) || was) && (volume && HasHome(orig) ==> mounted)
    {
      var lost := RestoreFstabNow(f, copied, earned);
      if lost { return Raised(RestoreFstab); }
      if volume {
        // mount reads fstab
        if HasHome(fstab) && (f.of(Mount).Done? || f.of(Mount) == Raises(true)) { mounted := true; }
        Note(copied, earned);
        if f.of(Mount).Raises? { return Raised(Mount); }
      }
      var raised := RestoreDocker(was, f, copied, earned);
      return if raised then Raised(StartDocker) else Refused;
    }

    /** Unmount and remove; on an error return, undo.  None: the volume is gone. */
    method UnmountAndRemove(was: bool, f: Fate, ghost copied: Files, ghost earned: bool, ghost orig: Lines) returns (stop: Option<Result>)
      requires Sound(copied, false) && mounted && lv.Some? && stage == archive == Some(copied)
      requires earned <==> f.of(Umount).Done?
      requires backup == Some(orig) && fstab == CommentOut(orig)
      modifies this`fstab, this`mounted, this`lv, this`docker, this`trail
      ensures Sound(copied, earned) && old(trail) <= trail
      ensures stop.None? <==> f.of(Umount).Done? && f.of(LvRemove).Done?
      ensures lv.None? <==> f.of(Umount).Done? && Effective(f.of(LvRemove))
      ensures stop.None? ==> !mounted && fstab == CommentOut(orig) && docker == old(docker)
      ensures lv == if lv.None? then None else if Effective(f.of(Umount)) then Some(f.late) else old(lv)
      ensures f.of(Umount).Raises? ==> stop == Some(Raised(Umount)) && mounted == !Effective(f.of(Umount))
      ensures f.of(Umount).Done? && f.of(LvRemove).Raises? ==> stop == Some(Raised(LvRemove)) && !mounted
      ensures f.of(Umount).Failed? ==> stop == Some(Undone(f, was, backup))
      ensures f.of(Umount).Done? && f.of(LvRemove).Failed? ==>
                stop == Some(if !f.of(RestoreFstab).Raises? && f.of(Mount).Raises? then Raised(Mount) else Undone(f, was, backup))
      ensures stop == Some(Refused) ==> lv.Some?
      ensures stop == Some(Refused) && UndoWorks(f) ==> fstab == orig && (HasHome(orig) ==> mounted) && docker == (old(docker) || was)
      ensures stop.Some? ==> !stop.value.Success?
      ensures stop.Some? && stop.value.Raised? ==>
                || (stop.value.at in {RestoreFstab, Mount, StartDocker} && !f.of(stop.value.at).Done?)
                || (stop.value.at in {Umount, LvRemove} && !f.of(stop.value.at).Done? && fstab == CommentOut(orig) && docker == old(docker))
    {
      if f.of(Umount).Done? || f.of(Umount) == Raises(true) { mounted, lv := false, Some(f.late); }
      Note(copied, earned);
      if f.of(Umount).Raises? { return Some(Raised(Umount)); }
      if f.of(Umount).Failed? {
        var r := Undo(false, was, f, copied, earned, orig);
        return Some(r);
      }
      if f.of(LvRemove).Done? || f.of(LvRemove) == Raises(true) { lv := None; }
      Note(copied, earned);
      if f.of(LvRemove).Raises? { return Some(Raised(LvRemove)); }
      if f.of(LvRemove).Failed? {
        var r := Undo(true, was, f, copied, earned, orig);
        return Some(r);
      }
      return None;
    }

    /** Grow root and copy the files back into the plain directory. */
    method GrowAndCopyBack(was: bool, f: Fate, ghost copied: Files) returns (r: Result)
      requires Sound(copied, true) && lv.None? && !mounted && stage == archive == Some(copied)
      modifies this`below, this`docker, this`trail
      ensures Sound(copied, true) && old(trail) <= trail
      ensures r.Refused? <==> f.of(LvExtend).Failed? && !(was && f.of(StartDocker).Raises?)
      ensures r.Success? <==> Finishes(f, was)
      ensures below == BelowAfter(f, old(below), copied)
      ensures (r.Success? || r.Refused?) && f.of(StartDocker).Done? ==> docker == (old(docker) || was)
      ensures r.Raised? ==> r.at in {LvExtend, GrowFs, MakeHome, CopyBack, Relabel, StartDocker, AskDf} && !f.of(r.at).Done?
    {
      if f.of(LvExtend).Raises? { return Raised(LvExtend); }
      if f.of(LvExtend).Failed? {
        var raised := RestoreDocker(was, f, copied, true);
        return if raised then Raised(StartDocker) else Refused;
      }
      if f.of(GrowFs).Raises? { return Raised(GrowFs); }
      if !f.of(MakeHome).Done? { return Raised(MakeHome); }
      below := if f.of(CopyBack).Done? then below + stage.value else f.homeLeft;
      Note(copied, true);
      if f.of(CopyBack).Raises? { return Raised(CopyBack); }
      if f.of(Relabel).Raises? { return Raised(Relabel); }
      var raised := RestoreDocker(was, f, copied, true);
      if raised { return Raised(StartDocker); }
      if f.of(AskDf).Raises? { return Raised(AskDf); }
      return Success;
    }

    // -------------------------------------------------------------- the whole operation

    /** Everything before fstab is touched. */
    method Prepare(s: Survey, req: Request, f: Fate) returns (stop: Option<Result>, was: bool)
      requires s.homeDev != "" ==> mounted
      requires lv.Some? && Sound(lv.value, false)
      modifies this`stage, this`archive, this`docker, this`closed, this`trail
      ensures Sound(lv.value, false) && old(trail) <= trail
      ensures stop.None? <==> ReachesEdit(s, req, f, old(docker))
      ensures stop.None? ==> mounted && stage == archive == lv && was == old(docker)
      ensures stop.None? ==> docker == (old(docker) && !f.of(StopDocker).Done?)
      ensures stop.Some? ==> !stop.value.Success?
      ensures stop == Some(Refused) && UndoWorks(f) ==> docker == old(docker)
      ensures stop.Some? && stop.value.Raised? ==> !f.of(stop.value.at).Done? && stop.value.at !in {Umount, LvRemove, ReadFstab}
      ensures stop.Some? && stop.value.Raised? && UndoWorks(f) ==> (docker == old(docker) <==> !Escapes(stop.value, f, old(docker)))
      ensures SignedOut(old(closed), closed, req)
    {
      was := docker;
      stop := Guards(s, req, f);
      if stop.Some? { return; }
      stop := StageAndArchive(f);
      if stop.Some? { return; }
      stop, was := ClearHome(req, f, lv.value);
    }

    /** Stop docker and see that nobody holds /home; docker is started again if somebody does. */
    method ClearHome(req: Request, f: Fate, ghost copied: Files) returns (stop: Option<Result>, was: bool)
      requires Sound(copied, false)
      modifies this`docker, this`closed, this`trail
      ensures Sound(copied, false) && old(trail) <= trail
      ensures stop.None? <==> Cleared(req, f, old(docker))
      ensures !f.of(AskDocker).Raises? && (old(docker) ==> !f.of(StopDocker).Raises? && !f.of(StopSocket).Raises?)
              && f.of(ScanHolders).Done? && (Ended(req, f) == [] || f.of(ScanAgain).Done?) && !HoldersGone(req, f) ==>
                stop == Some(if old(docker) && f.of(StartDocker).Raises? then Raised(StartDocker) else Refused)
      ensures stop.None? ==> was == old(docker) && docker == (old(docker) && !f.of(StopDocker).Done?)
      ensures stop.Some? ==> !stop.value.Success?
      ensures stop == Some(Refused) && UndoWorks(f) ==> docker == old(docker)
      ensures stop.Some? && stop.value.Raised? ==> !f.of(stop.value.at).Done? && stop.value.at !in {Umount, LvRemove, ReadFstab}
      ensures stop.Some? && stop.value.Raised? && UndoWorks(f) ==> (docker == old(docker) <==> !Escapes(stop.value, f, old(docker)))
      ensures SignedOut(old(closed), closed, req)
    {
      stop := None;
      var raised: Option<Step>, refuse: bool;
      was, raised := StopDockerFirst(f, copied);
      if raised.Some? { return Some(Raised(raised.value)), was; }
      refuse, raised := CheckHolders(req, f);
      if raised.Some? { return Some(Raised(raised.value)), was; }
      if refuse {
        var hung := RestoreDocker(was, f, copied, false);
        return Some(if hung then Raised(StartDocker) else Refused), was;
      }
    }

    /** From the edit of fstab on. */
    method Commit(was: bool, f: Fate, ghost copied: Files, ghost earned: bool) returns (r: Result)
      requires Sound(copied, false) && mounted && lv.Some? && stage == archive == Some(copied)
      requires docker == (was && !f.of(StopDocker).Done?)
      requires earned <==> f.of(ReadFstab).Done? && f.of(WriteBackup).Done? && f.of(WriteFstab).Done? && f.of(Umount).Done?
      modifies this`fstab, this`backup, this`mounted, this`lv, this`below, this`docker, this`trail
      ensures Sound(copied, earned) && old(trail) <= trail
      ensures backup == BackupAfter(f, old(backup), old(fstab))
      ensures r.Refused? && lv.Some? && UndoWorks(f) ==>
                && docker == was && (HasHome(old(fstab)) ==> mounted)
                && (fstab == old(fstab) <==> !Stale(f, old(backup), old(fstab))) && (fstab == old(fstab) || Some(fstab) == backup)
      ensures r.Raised? ==> !f.of(r.at).Done?
      ensures r == Raised(ReadFstab) <==> f.of(ReadFstab).Raises?
      ensures r == Raised(ReadFstab) ==> fstab == old(fstab) && docker == old(docker)
      ensures r.Raised? && lv.Some? && UndoWorks(f) && HasHome(old(fstab)) ==>
                (fstab == old(fstab) && docker == was && mounted <==> !Escapes(r, f, was))
      ensures r.Success? <==> earned && f.of(LvRemove).Done? && Finishes(f, was)
      ensures lv.None? <==> earned && Effective(f.of(LvRemove))
      ensures r.Success? ==> !mounted && fstab == CommentOut(old(fstab)) && backup == Some(old(fstab))
      ensures below == if earned && f.of(LvRemove).Done? then BelowAfter(f, old(below), copied) else old(below)
      ensures (r.Success? || (r.Refused? && lv.None?)) && f.of(StartDocker).Done? ==> docker == was
    {
      ghost var orig := fstab;
      StaleExact(f, backup, orig);
      CommentOutFacts(orig);
      var stop := EditOrUndo(was, f, copied);
      if stop.Some? { return stop.value; }
      stop := UnmountAndRemove(was, f, copied, earned, orig);
      if stop.Some? { return stop.value; }
      r := GrowAndCopyBack(was, f, copied);
    }

    method FoldHome(s: Survey, req: Request, f: Fate) returns (r: Result)
      requires s.homeDev != "" ==> mounted
      requires lv.Some?
      modifies this
      // the data is somewhere in every state, and the volume went only when that was earned
      ensures Sound(old(lv.value), Earned(s, req, f)) && trail[0] == old(Now())
      // every error return with the volume still there is a roll-back, of fstab exactly unless an
      // old backup is in the way
      ensures r.Refused? && lv.Some? && UndoWorks(f) ==>
                docker == old(docker) && (HasHome(old(fstab)) ==> mounted == old(mounted))
      ensures r.Refused? && lv.Some? && UndoWorks(f) ==>
                (fstab == old(fstab) <==> !(ReachesEdit(s, req, f, old(docker)) && Stale(f, old(backup), old(fstab))))
      ensures backup == if ReachesEdit(s, req, f, old(docker)) then BackupAfter(f, old(backup), old(fstab)) else old(backup)
      ensures r.Refused? && lv.Some? && UndoWorks(f) && fstab != old(fstab) ==> Some(fstab) == backup
      // an exception is rolled back unless it is one of the escaping ones
      ensures r.Raised? && lv.Some? && UndoWorks(f) && HasHome(old(fstab)) ==>
                (fstab == old(fstab) && docker == old(docker) && mounted == old(mounted) <==> !Escapes(r, f, old(docker)))
      ensures r.Raised? ==> !f.of(r.at).Done?
      ensures r == Raised(ReadFstab) <==> ReachesEdit(s, req, f, old(docker)) && f.of(ReadFstab).Raises?
      ensures r == Raised(ReadFstab) ==> fstab == old(fstab) && docker == (old(docker) && !f.of(StopDocker).Done?)
      // exactly when it succeeds, when the volume is gone, and what it does not check
      ensures r.Success? <==>
                ReachesEdit(s, req, f, old(docker)) && Earned(s, req, f) && f.of(LvRemove).Done? && Finishes(f, old(docker))
      ensures lv.None? <==> ReachesEdit(s, req, f, old(docker)) && Earned(s, req, f) && Effective(f.of(LvRemove))
      ensures r.Success? ==> !mounted && fstab == CommentOut(old(fstab)) && backup == Some(old(fstab))
      ensures below == if ReachesEdit(s, req, f, old(docker)) && Earned(s, req, f) && f.of(LvRemove).Done?
                       then BelowAfter(f, old(below), old(lv.value)) else old(below)
      ensures (r.Success? || (r.Refused? && lv.None?)) && f.of(StartDocker).Done? ==> docker == old(docker)
      // once the volume is gone the archive is all there is: files written after the copy are lost
      ensures lv.None? ==> (archive == Some(f.late) <==> f.late == old(lv.value))
      // who was signed out
      ensures SignedOut(old(closed), closed, req)
    {
      trail := [Now()];
      ghost var copied := lv.value;
      EarnedAfterEdit(s, req, f, docker);
      var stop, was := Prepare(s, req, f);
      if stop.Some? { return stop.value; }
      r := Commit(was, f, copied, Earned(s, req, f));
    }
  }

  // ---------------------------------------------------------------- two calls that are not undone

  /** Everything goes well but one step. */
  function FateBut(bad: Step, o: Outcome): (f: Fate)
  {
    Fate((st: Step) => if st == bad then o else Done, None, None, None, map[], map[], map[], [], [])
  }

  const BOX_SURVEY := Survey("/dev/vg/root", "vg", "root", "/dev/vg/home", Some(("vg", "home")), Some(0))

  const BOX_REQUEST := Request("/dev/vg/home", false)

  /** What the caller has to type: the volume, in one of its spellings. */
  lemma ConfirmForms(confirm: string, close: bool)
    ensures Guarded(BOX_SURVEY, Request(confirm, close)) <==> confirm == "vg/home" || confirm == "/dev/vg/home"
  {
    assert "vg" + "/" + "home" == "vg/home" && "/dev/" + "vg/home" == "/dev/vg/home";
  }

  /** An earlier run left a backup, and now fstab cannot be read: the undo writes the old backup over
      it. */
  method StaleBackupComesBack(orig: Lines, left: Lines, home: Files) returns (after: Lines, r: Result)
    ensures r == Refused && after == left
  {
    var box := new Box(orig, Some(left), home, true);
    var f := FateBut(ReadFstab, Failed);
    assert ReachesEdit(BOX_SURVEY, BOX_REQUEST, f, true);
    r := box.FoldHome(BOX_SURVEY, BOX_REQUEST, f);
    assert UndoWorks(f);
    after := box.fstab;
  }

  /** fstab holds a byte that cannot be decoded: the exception passes by every undo, and docker stays
      stopped. */
  method UndecodableFstab(orig: Lines, home: Files) returns (after: Lines, docker: bool, r: Result)
    ensures r == Raised(ReadFstab) && after == orig && !docker
  {
    var box := new Box(orig, None, home, true);
    var f := FateBut(ReadFstab, Raises(false));
    assert ReachesEdit(BOX_SURVEY, BOX_REQUEST, f, true);
    r := box.FoldHome(BOX_SURVEY, BOX_REQUEST, f);
    after, docker := box.fstab, box.docker;
  }
}
