/** Redirections and the saved descriptors that undo them. */
module Redirect {
  import opened Common

  datatype Mode = ReadOnly | WriteOnly | ReadWrite

  /** An open file description. */
  datatype Description = Description(id: nat, mode: Mode)

  /** The descriptor table of the process. */
  type Fds = map<nat, Description>

  const SAVED_FROM: nat := 10

  /** A redirection, together with what the system answers: the description a file or here-document
      opens as, and whether duplicating a descriptor fails. */
  datatype Redirection =
    | OpenFile(target: nat, file: Option<Description>, dupFails: bool)
    | Duplicate(target: nat, source: nat, input: bool, dupFails: bool)
    | CloseFd(target: nat)

  /** `saveFails`: there is no room to save a descriptor. */
  datatype Step = Step(redirection: Redirection, saveFails: bool)

  datatype Backup = Backup(fd: nat, savedFd: nat, wasOpen: bool)

  // ---------- the system ----------

  /** The first descriptor from `n` on that is not in use. */
  function LowestFree(fds: Fds, n: nat): (fd: nat)
    ensures fd >= n && fd !in fds
    decreases |fds|
  {
    if n in fds then LowestFree(fds - {n}, n + 1) else n
  }

  /** Makes `fd` refer to `d`, whatever it referred to before. */
  function Redirected(fds: Fds, fd: nat, d: Description): Fds {
    fds[fd := d]
  }

  // ---------- the specification ----------

  predicate IsSaved(backups: seq<Backup>, fd: nat) {
    exists k :: 0 <= k < |backups| && backups[k].fd == fd
  }

  datatype Saving = Saving(ok: bool, fds: Fds, backups: seq<Backup>)

  function Save(fds: Fds, backups: seq<Backup>, fd: nat, saveFails: bool): Saving {
    if IsSaved(backups, fd) then Saving(true, fds, backups)
    else if fd !in fds then Saving(true, fds, backups + [Backup(fd, 0, false)])
    else if saveFails then Saving(false, fds, backups)
    else
      var savedFd := LowestFree(fds, SAVED_FROM);
      Saving(true, fds[savedFd := fds[fd]], backups + [Backup(fd, savedFd, true)])
  }

  function ApplyOne(fds: Fds, r: Redirection): (bool, Fds) {
    match r
    case OpenFile(target, file, dupFails) =>
      if file.None? then (false, fds)
      else if LowestFree(fds, 0) != target && dupFails then (false, fds)
      else (true, fds[target := file.value])
    case Duplicate(target, source, input, dupFails) =>
      if source !in fds || fds[source].mode == (if input then WriteOnly else Mode.ReadOnly) || dupFails
      then (false, fds)
      else (true, fds[target := fds[source]])
    case CloseFd(target) => (true, fds - {target})
  }

  function ApplyAll(fds: Fds, backups: seq<Backup>, steps: seq<Step>): Saving
    decreases |steps|
  {
    if steps == [] then Saving(true, fds, backups)
    else
      var s := Save(fds, backups, steps[0].redirection.target, steps[0].saveFails);
      if !s.ok then s
      else
        var (ok, after) := ApplyOne(s.fds, steps[0].redirection);
        if !ok then Saving(false, after, s.backups) else ApplyAll(after, s.backups, steps[1..])
  }

  function RestoreOne(fds: Fds, b: Backup): Fds {
    if !b.wasOpen then fds - {b.fd}
    else if b.savedFd in fds then fds[b.fd := fds[b.savedFd]] - {b.savedFd}
    else fds
  }

  function Restore(fds: Fds, backups: seq<Backup>): Fds
    decreases |backups|
  {
    if backups == [] then fds
    else Restore(RestoreOne(fds, backups[|backups| - 1]), backups[..|backups| - 1])
  }

  // ---------- the operations ----------

  class Process {
    var fds: Fds

    constructor (fds: Fds)
      ensures this.fds == fds
    {
      this.fds := fds;
    }

    /** Saves a descriptor the first time it is redirected; the answer is false when there is no room. */
    method FdBackupSave(backups: seq<Backup>, fd: nat, saveFails: bool) returns (ok: bool, all: seq<Backup>)
      modifies this
      ensures Saving(ok, fds, all) == Save(old(fds), backups, fd, saveFails)
    {
      for i := 0 to |backups|
        invariant fds == old(fds) && forall j :: 0 <= j < i ==> backups[j].fd != fd
      {
        if backups[i].fd == fd {
          return true, backups;
        }
      }
      if fd in fds {
        if saveFails {
          return false, backups;
        }
        var savedFd := LowestFree(fds, SAVED_FROM);
        fds := fds[savedFd := fds[fd]];
        return true, backups + [Backup(fd, savedFd, true)];
      }
      return true, backups + [Backup(fd, 0, false)];
    }

    /** Opens at the lowest free descriptor, moves to the target, and closes the one opened at. */
    method OpenAt(target: nat, file: Description, dupFails: bool) returns (ok: bool)
      modifies this
      ensures (ok, fds) == ApplyOne(old(fds), OpenFile(target, Some(file), dupFails))
    {
      var openedFd := LowestFree(fds, 0);
      fds := fds[openedFd := file];
      if openedFd != target {
        if dupFails {
          fds := fds - {openedFd};
          assert fds == old(fds);
          return false;
        }
        fds := Redirected(fds, target, fds[openedFd]);
        fds := fds - {openedFd};
      }
      assert fds == old(fds)[target := file];
      return true;
    }

    method ApplyOneRedirection(r: Redirection) returns (ok: bool)
      modifies this
      ensures (ok, fds) == ApplyOne(old(fds), r)
    {
      if r.OpenFile? {
        if r.file.None? {
          return false;
        }
        ok := OpenAt(r.target, r.file.value, r.dupFails);
      } else if r.Duplicate? {
        if r.source !in fds {
          return false;
        }
        if r.input && fds[r.source].mode == WriteOnly {
          return false;
        }
        if !r.input && fds[r.source].mode == Mode.ReadOnly {
          return false;
        }
        if r.dupFails {
          return false;
        }
        fds := Redirected(fds, r.target, fds[r.source]);
        return true;
      } else {
        fds := fds - {r.target};
        return true;
      }
    }

    method ApplyRedirections(steps: seq<Step>) returns (ok: bool, backups: seq<Backup>)
      modifies this
      ensures Saving(ok, fds, backups) == ApplyAll(old(fds), [], steps)
    {
      hide Save, ApplyOne;
      backups := [];
      for i := 0 to |steps|
        invariant ApplyAll(fds, backups, steps[i..]) == ApplyAll(old(fds), [], steps)
      {
        assert steps[i..][1..] == steps[i + 1..];
        ok, backups := FdBackupSave(backups, steps[i].redirection.target, steps[i].saveFails);
        if !ok {
          return;
        }
        ok := ApplyOneRedirection(steps[i].redirection);
        if !ok {
          return;
        }
      }
      ok := true;
    }

    method FdBackupRestore(backups: seq<Backup>)
      modifies this
      ensures fds == Restore(old(fds), backups)
    {
      hide RestoreOne;
      var i := |backups|;
      assert backups[..i] == backups;
      while i > 0
        invariant 0 <= i <= |backups|
        invariant Restore(fds, backups[..i]) == Restore(old(fds), backups)
      {
        var b := backups[i - 1];
        assert backups[..i][..i - 1] == backups[..i - 1];
        RestoreFd(b);
        i := i - 1;
      }
    }

    method RestoreFd(b: Backup)
      modifies this
      ensures fds == RestoreOne(old(fds), b)
    {
      if b.wasOpen {
        if b.savedFd in fds {
          fds := Redirected(fds, b.fd, fds[b.savedFd]);
        }
        fds := fds - {b.savedFd};
      } else {
        fds := fds - {b.fd};
      }
    }
  }

  // ---------- restoring is exact ----------

  ghost predicate SameOutside(f: Fds, g: Fds, u: set<nat>) {
    f - u == g - u
  }

  lemma SameAt(f: Fds, g: Fds, u: set<nat>, fd: nat)
    requires SameOutside(f, g, u) && fd !in u
    ensures (fd in f <==> fd in g) && (fd in f ==> f[fd] == g[fd])
  {
    assert fd in f - u <==> fd in f;
    assert fd in g - u <==> fd in g;
    if fd in f {
      assert (f - u)[fd] == (g - u)[fd];
    }
  }

  lemma SameIfAt(f: Fds, g: Fds, u: set<nat>)
    requires forall fd :: fd !in u ==> (fd in f <==> fd in g) && (fd in f ==> f[fd] == g[fd])
    ensures SameOutside(f, g, u)
  {
  }

  /** What the descriptors in `u` have become makes no difference to the restored table. */
  ghost predicate Forgotten(fds: Fds, backups: seq<Backup>, u: set<nat>) {
    forall g: Fds :: SameOutside(fds, g, u) ==> Restore(g, backups) == Restore(fds, backups)
  }

  lemma NothingForgotten(fds: Fds)
    ensures Forgotten(fds, [], {})
  {
    forall g: Fds | SameOutside(fds, g, {}) ensures g == fds {
      assert fds - {} == fds && g - {} == g;
    }
  }

  /** A descriptor that has been saved and has since been taken to hold the copy of another one. */
  predicate Taken(backups: seq<Backup>, fd: nat) {
    exists k, j :: 0 <= k < j < |backups| && backups[k].fd == fd && backups[j].wasOpen && backups[j].savedFd == fd
  }

  /** The descriptors that have been saved and not been taken since. */
  ghost function Free(backups: seq<Backup>): set<nat> {
    set k | 0 <= k < |backups| && !Taken(backups, backups[k].fd) :: backups[k].fd
  }

  lemma FreeIs(backups: seq<Backup>, fd: nat)
    ensures fd in Free(backups) <==> IsSaved(backups, fd) && !Taken(backups, fd)
  {
  }

  /** Saving `fd` frees it, and takes the descriptor that holds the copy. */
  function Freed(fds: Fds, backups: seq<Backup>, u: set<nat>, fd: nat): set<nat> {
    if IsSaved(backups, fd) then u
    else if fd in fds then u - {LowestFree(fds, SAVED_FROM)} + {fd}
    else u + {fd}
  }

  lemma RestoreLast(fds: Fds, backups: seq<Backup>, b: Backup)
    ensures Restore(fds, backups + [b]) == Restore(RestoreOne(fds, b), backups)
  {
    assert (backups + [b])[..|backups|] == backups;
  }

  lemma RestoredSame(fds: Fds, b: Backup, saved: Fds, g: Fds, u: set<nat>)
    requires b.wasOpen && b.savedFd !in fds && b.fd in fds && saved == fds[b.savedFd := fds[b.fd]]
    requires SameOutside(saved, g, u - {b.savedFd} + {b.fd})
    ensures SameOutside(fds, RestoreOne(g, b), u)
  {
    var v := u - {b.savedFd} + {b.fd};
    SameAt(saved, g, v, b.savedFd);
    forall fd | fd !in u
      ensures (fd in fds <==> fd in RestoreOne(g, b)) && (fd in fds ==> fds[fd] == RestoreOne(g, b)[fd])
    {
      if fd !in v {
        SameAt(saved, g, v, fd);
      }
    }
    SameIfAt(fds, RestoreOne(g, b), u);
  }

  lemma ClosedSame(fds: Fds, b: Backup, g: Fds, u: set<nat>)
    requires !b.wasOpen && b.fd !in fds && SameOutside(fds, g, u + {b.fd})
    ensures SameOutside(fds, RestoreOne(g, b), u)
  {
    forall fd | fd !in u
      ensures (fd in fds <==> fd in RestoreOne(g, b)) && (fd in fds ==> fds[fd] == RestoreOne(g, b)[fd])
    {
      if fd != b.fd {
        SameAt(fds, g, u + {b.fd}, fd);
      }
    }
    SameIfAt(fds, RestoreOne(g, b), u);
  }

  lemma SaveForgets(fds: Fds, backups: seq<Backup>, u: set<nat>, fd: nat, saveFails: bool)
    requires Forgotten(fds, backups, u) && Save(fds, backups, fd, saveFails).ok
    ensures (var s := Save(fds, backups, fd, saveFails);
             && Restore(s.fds, s.backups) == Restore(fds, backups)
             && Forgotten(s.fds, s.backups, Freed(fds, backups, u, fd)))
  {
    hide Restore, RestoreOne, SameOutside;
    if !IsSaved(backups, fd) {
      var s := Save(fds, backups, fd, saveFails);
      var b := s.backups[|backups|];
      forall g: Fds | SameOutside(s.fds, g, Freed(fds, backups, u, fd))
        ensures Restore(g, s.backups) == Restore(fds, backups)
      {
        RestoreLast(g, backups, b);
        if b.wasOpen {
          RestoredSame(fds, b, s.fds, g, u);
        } else {
          ClosedSame(fds, b, g, u);
        }
      }
      SameAsItself(s.fds, Freed(fds, backups, u, fd));
    }
  }

  lemma SameAsItself(fds: Fds, u: set<nat>)
    ensures SameOutside(fds, fds, u)
  {
  }

  lemma ApplyForgets(fds: Fds, backups: seq<Backup>, u: set<nat>, r: Redirection)
    requires Forgotten(fds, backups, u) && r.target in u
    ensures (var after := ApplyOne(fds, r).1;
             Restore(after, backups) == Restore(fds, backups) && Forgotten(after, backups, u))
  {
    hide Restore;
    var after := ApplyOne(fds, r).1;
    SameIfAt(fds, after, u);
    forall g: Fds | SameOutside(after, g, u) ensures SameOutside(fds, g, u) {
      assert fds - u == after - u;
    }
  }

  lemma ForgottenLess(fds: Fds, backups: seq<Backup>, u: set<nat>, v: set<nat>)
    requires Forgotten(fds, backups, u) && v <= u
    ensures Forgotten(fds, backups, v)
  {
    hide Restore;
    forall g: Fds | SameOutside(fds, g, v) ensures SameOutside(fds, g, u) {
      assert fds - u == (fds - v) - u && g - u == (g - v) - u;
    }
  }

  lemma SavedAfter(backups: seq<Backup>, b: Backup, fd: nat)
    ensures IsSaved(backups + [b], fd) <==> IsSaved(backups, fd) || b.fd == fd
    ensures Taken(backups + [b], fd) <==>
              Taken(backups, fd) || (IsSaved(backups, fd) && b.wasOpen && b.savedFd == fd)
  {
    var all := backups + [b];
    assert forall k :: 0 <= k < |backups| ==> all[k] == backups[k];
    assert all[|backups|] == b;
    if IsSaved(backups, fd) {
      var k :| 0 <= k < |backups| && backups[k].fd == fd;
      assert all[k].fd == fd;
    }
    if Taken(backups, fd) {
      var k, j :| 0 <= k < j < |backups| && backups[k].fd == fd && backups[j].wasOpen && backups[j].savedFd == fd;
      assert all[k].fd == fd && all[j].savedFd == fd;
    }
  }

  lemma SaveFrees(fds: Fds, backups: seq<Backup>, fd: nat, saveFails: bool)
    requires Save(fds, backups, fd, saveFails).ok
    ensures Free(Save(fds, backups, fd, saveFails).backups) <= Freed(fds, backups, Free(backups), fd)
  {
    hide Taken, IsSaved, Free;
    var s := Save(fds, backups, fd, saveFails);
    forall x | x in Free(s.backups) ensures x in Freed(fds, backups, Free(backups), fd) {
      FreeIs(s.backups, x);
      FreeIs(backups, x);
      if s.backups != backups {
        SavedAfter(backups, s.backups[|backups|], x);
      }
    }
  }

  /** Saved copies are where the table has them, and no descriptor is saved twice. */
  ghost predicate Kept(fds: Fds, backups: seq<Backup>) {
    && Forgotten(fds, backups, Free(backups))
    && (forall fd: nat :: Taken(backups, fd) ==> fd in fds)
    && SavedOnce(backups)
  }

  predicate SavedOnce(backups: seq<Backup>) {
    && (forall i, j :: 0 <= i < j < |backups| ==> backups[i].fd != backups[j].fd)
    && forall i :: 0 <= i < |backups| && backups[i].wasOpen ==> backups[i].savedFd != backups[i].fd
  }

  lemma NoneKept(fds: Fds)
    ensures Kept(fds, [])
  {
    NothingForgotten(fds);
    assert Free([]) == {};
  }

  lemma SaveKeeps(fds: Fds, backups: seq<Backup>, fd: nat, saveFails: bool)
    requires Kept(fds, backups) && Save(fds, backups, fd, saveFails).ok
    ensures (var s := Save(fds, backups, fd, saveFails);
             && Kept(s.fds, s.backups) && Restore(s.fds, s.backups) == Restore(fds, backups)
             && IsSaved(s.backups, fd))
  {
    hide Restore, Forgotten, Taken, Free;
    var s := Save(fds, backups, fd, saveFails);
    SaveForgets(fds, backups, Free(backups), fd, saveFails);
    SaveFrees(fds, backups, fd, saveFails);
    ForgottenLess(s.fds, s.backups, Freed(fds, backups, Free(backups), fd), Free(s.backups));
    if s.backups != backups {
      var b := s.backups[|backups|];
      assert s.backups == backups + [b];
      forall x: nat | Taken(s.backups, x) ensures x in s.fds {
        SavedAfter(backups, b, x);
      }
      SavedAfter(backups, b, fd);
    }
  }

  lemma ApplyKeeps(fds: Fds, backups: seq<Backup>, r: Redirection)
    requires Kept(fds, backups) && IsSaved(backups, r.target) && !Taken(backups, r.target)
    ensures (var after := ApplyOne(fds, r).1;
             Kept(after, backups) && Restore(after, backups) == Restore(fds, backups))
  {
    hide Restore, Forgotten, Taken, Free, IsSaved, SavedOnce;
    FreeIs(backups, r.target);
    ApplyForgets(fds, backups, Free(backups), r);
  }

  /** No redirection that takes effect is of a descriptor that has been saved and taken since. */
  predicate Untaken(fds: Fds, backups: seq<Backup>, steps: seq<Step>)
    decreases |steps|
  {
    steps == [] ||
    var s := Save(fds, backups, steps[0].redirection.target, steps[0].saveFails);
    var (ok, after) := ApplyOne(s.fds, steps[0].redirection);
    s.ok && ok ==> !Taken(s.backups, steps[0].redirection.target) && Untaken(after, s.backups, steps[1..])
  }

  lemma {:induction false} ApplyAllKeeps(fds: Fds, backups: seq<Backup>, steps: seq<Step>)
    requires Kept(fds, backups) && Untaken(fds, backups, steps)
    ensures (var s := ApplyAll(fds, backups, steps);
             Kept(s.fds, s.backups) && Restore(s.fds, s.backups) == Restore(fds, backups))
    decreases |steps|
  {
    hide Kept, Restore, Taken, IsSaved;
    if steps != [] {
      var r := steps[0].redirection;
      var s := Save(fds, backups, r.target, steps[0].saveFails);
      if s.ok {
        SaveKeeps(fds, backups, r.target, steps[0].saveFails);
        var (ok, after) := ApplyOne(s.fds, r);
        if ok {
          ApplyKeeps(s.fds, s.backups, r);
          ApplyAllKeeps(after, s.backups, steps[1..]);
        }
      }
    }
  }

  lemma NoBackups(fds: Fds)
    ensures Restore(fds, []) == fds
  {
  }

  /** Restoring gives back the very table there was, for every list of redirections of any descriptors:
      repeated targets, closed ones, closes, and a failure anywhere; and no saved descriptor is left.  Only a
      descriptor that has been saved and taken since, to hold the copy of another one, must not be redirected. */
  lemma RestoreIsExact(fds: Fds, steps: seq<Step>)
    requires Untaken(fds, [], steps)
    ensures (var s := ApplyAll(fds, [], steps);
             Restore(s.fds, s.backups) == fds)
  {
    hide ApplyAll, Untaken, Kept;
    NoneKept(fds);
    NoBackups(fds);
    ApplyAllKeeps(fds, [], steps);
  }

  /** Whatever the command in between does to the redirected descriptors that hold no copy. */
  lemma TargetForgotten(fds: Fds, steps: seq<Step>, after: Fds)
    requires Untaken(fds, [], steps)
    requires SameOutside(ApplyAll(fds, [], steps).fds, after, Free(ApplyAll(fds, [], steps).backups))
    ensures Restore(after, ApplyAll(fds, [], steps).backups) == fds
  {
    hide ApplyAll, Untaken, Restore, Free, SameOutside;
    NoneKept(fds);
    NoBackups(fds);
    ApplyAllKeeps(fds, [], steps);
  }

  // ---------- what can be known before ----------

  /** No descriptor from ten on is redirected again after being closed. */
  predicate ClosedForGood(steps: seq<Step>) {
    forall i, j :: 0 <= i < j < |steps| && steps[i].redirection.CloseFd?
                   && steps[i].redirection.target >= SAVED_FROM ==>
      steps[j].redirection.target != steps[i].redirection.target
  }

  /** Only descriptors in `c` have been taken, or can be. */
  ghost predicate OnlyClosedTaken(fds: Fds, backups: seq<Backup>, c: set<nat>) {
    forall fd: nat :: fd !in c ==>
      !Taken(backups, fd) && (IsSaved(backups, fd) && fd >= SAVED_FROM ==> fd in fds)
  }

  lemma StepTakesClosed(fds: Fds, backups: seq<Backup>, c: set<nat>, step: Step)
    requires OnlyClosedTaken(fds, backups, c) && step.redirection.target !in c
    requires Save(fds, backups, step.redirection.target, step.saveFails).ok
    ensures (var r := step.redirection;
             var s := Save(fds, backups, r.target, step.saveFails);
             var (ok, after) := ApplyOne(s.fds, r);
             && !Taken(s.backups, r.target)
             && (ok ==> OnlyClosedTaken(after, s.backups,
                                        if r.CloseFd? && r.target >= SAVED_FROM then c + {r.target} else c)))
  {
    hide Taken, IsSaved;
    var s := Save(fds, backups, step.redirection.target, step.saveFails);
    forall fd: nat
      ensures Taken(s.backups, fd) ==> Taken(backups, fd) || (IsSaved(backups, fd) && fd !in fds && fd >= SAVED_FROM)
      ensures IsSaved(s.backups, fd) ==> IsSaved(backups, fd) || fd == step.redirection.target
    {
      if s.backups != backups {
        SavedAfter(backups, s.backups[|backups|], fd);
      }
    }
  }

  lemma {:induction false} ClosedForGoodFrom(fds: Fds, backups: seq<Backup>, c: set<nat>, steps: seq<Step>)
    requires OnlyClosedTaken(fds, backups, c)
    requires ClosedForGood(steps) && forall k :: 0 <= k < |steps| ==> steps[k].redirection.target !in c
    ensures Untaken(fds, backups, steps)
    decreases |steps|
  {
    hide OnlyClosedTaken, Taken, IsSaved;
    if steps != [] {
      var r, rest := steps[0].redirection, steps[1..];
      var s := Save(fds, backups, r.target, steps[0].saveFails);
      assert forall k :: 0 <= k < |rest| ==> rest[k] == steps[k + 1];
      if s.ok {
        StepTakesClosed(fds, backups, c, steps[0]);
        var (ok, after) := ApplyOne(s.fds, r);
        if ok {
          ClosedForGoodFrom(after, s.backups, if r.CloseFd? && r.target >= SAVED_FROM then c + {r.target} else c, rest);
        }
      }
    }
  }

  /** It is enough that no descriptor from ten on is redirected again after being closed. */
  lemma ClosedForGoodIsUntaken(fds: Fds, steps: seq<Step>)
    requires ClosedForGood(steps)
    ensures Untaken(fds, [], steps)
  {
    hide ClosedForGood;
    NoStepYet(fds);
    ClosedForGoodFrom(fds, [], {}, steps);
  }

  lemma NoStepYet(fds: Fds)
    ensures OnlyClosedTaken(fds, [], {})
  {
  }

  // ---------- a taken descriptor that is redirected ----------

  /** Two tables that differ at one descriptor only. */
  ghost predicate DifferAt(f: Fds, g: Fds, fd: nat) {
    fd in f && fd in g && f[fd] != g[fd] && SameOutside(f, g, {fd})
  }

  lemma RestoreOneDiffers(f: Fds, g: Fds, b: Backup, fd: nat)
    requires DifferAt(f, g, fd) && b.fd != fd && (b.wasOpen ==> b.savedFd != b.fd)
    ensures DifferAt(RestoreOne(f, b), RestoreOne(g, b), if b.wasOpen && b.savedFd == fd then b.fd else fd)
  {
    var at := if b.wasOpen && b.savedFd == fd then b.fd else fd;
    forall x | x != fd ensures (x in f <==> x in g) && (x in f ==> f[x] == g[x]) {
      SameAt(f, g, {fd}, x);
    }
    SameIfAt(RestoreOne(f, b), RestoreOne(g, b), {at});
  }

  /** What differs at a descriptor that is not to be restored itself differs in the end. */
  lemma {:induction false} DifferenceStays(f: Fds, g: Fds, backups: seq<Backup>, fd: nat)
    requires DifferAt(f, g, fd) && SavedOnce(backups) && forall i :: 0 <= i < |backups| ==> backups[i].fd != fd
    ensures Restore(f, backups) != Restore(g, backups)
    decreases |backups|
  {
    hide RestoreOne, DifferAt;
    if backups == [] {
      DifferingTables(f, g, fd);
    } else {
      var n := |backups| - 1;
      var b := backups[n];
      RestoreOneDiffers(f, g, b, fd);
      DifferenceStays(RestoreOne(f, b), RestoreOne(g, b), backups[..n],
                      if b.wasOpen && b.savedFd == fd then b.fd else fd);
    }
  }

  lemma DifferingTables(f: Fds, g: Fds, fd: nat)
    requires DifferAt(f, g, fd)
    ensures f != g
  {
  }

  /** The same for a descriptor that holds the copy of backup `j`, restored after all that come later. */
  lemma {:induction false} CopyDiffers(f: Fds, g: Fds, backups: seq<Backup>, j: nat, fd: nat)
    requires DifferAt(f, g, fd) && SavedOnce(backups)
    requires j < |backups| && backups[j].wasOpen && backups[j].savedFd == fd
    requires forall i :: j < i < |backups| ==> backups[i].fd != fd && (backups[i].wasOpen ==> backups[i].savedFd != fd)
    ensures Restore(f, backups) != Restore(g, backups)
    decreases |backups|
  {
    hide RestoreOne, DifferAt;
    var n := |backups| - 1;
    var b := backups[n];
    RestoreOneDiffers(f, g, b, fd);
    if n == j {
      DifferenceStays(RestoreOne(f, b), RestoreOne(g, b), backups[..n], b.fd);
    } else {
      CopyDiffers(RestoreOne(f, b), RestoreOne(g, b), backups[..n], j, fd);
    }
  }

  lemma LastCopy(backups: seq<Backup>, n: nat, fd: nat) returns (j: nat)
    requires n <= |backups| && exists i :: 0 <= i < n && backups[i].wasOpen && backups[i].savedFd == fd
    ensures j < n && backups[j].wasOpen && backups[j].savedFd == fd
    ensures forall i :: j < i < n && backups[i].wasOpen ==> backups[i].savedFd != fd
  {
    j := n - 1;
    while !(backups[j].wasOpen && backups[j].savedFd == fd)
      invariant j < n
      invariant exists i :: 0 <= i <= j && backups[i].wasOpen && backups[i].savedFd == fd
      invariant forall i :: j < i < n && backups[i].wasOpen ==> backups[i].savedFd != fd
      decreases j
    {
      j := j - 1;
    }
  }

  /** And such a redirection does do harm: once a descriptor has been saved and taken since, making it refer to
      anything but the copy it holds is not undone. */
  lemma TakenIsLost(fds: Fds, steps: seq<Step>, fd: nat, d: Description)
    requires Untaken(fds, [], steps) && Taken(ApplyAll(fds, [], steps).backups, fd)
    ensures (var s := ApplyAll(fds, [], steps);
             && fd in s.fds
             && (Restore(s.fds[fd := d], s.backups) == fds <==> d == s.fds[fd]))
  {
    hide ApplyAll, Untaken, Restore, Forgotten;
    var s := ApplyAll(fds, [], steps);
    NoneKept(fds);
    NoBackups(fds);
    ApplyAllKeeps(fds, [], steps);
    if d == s.fds[fd] {
      assert s.fds[fd := d] == s.fds;
    } else {
      var k, i :| 0 <= k < i < |s.backups| && s.backups[k].fd == fd
                  && s.backups[i].wasOpen && s.backups[i].savedFd == fd;
      var j := LastCopy(s.backups, |s.backups|, fd);
      assert SameOutside(s.fds, s.fds[fd := d], {fd});
      CopyDiffers(s.fds, s.fds[fd := d], s.backups, j, fd);
    }
  }

  lemma RestoreTwo(fds: Fds, first: Backup, second: Backup)
    ensures Restore(fds, [first, second]) == RestoreOne(RestoreOne(fds, second), first)
  {
    hide RestoreOne;
    assert [first, second][..1] == [first] && [first][..0] == [];
    assert Restore(RestoreOne(fds, second), [first]) == RestoreOne(RestoreOne(fds, second), first);
  }

  lemma NoSteps(fds: Fds, backups: seq<Backup>)
    ensures ApplyAll(fds, backups, []) == Saving(true, fds, backups)
  {
  }

  lemma ApplyTurn(fds: Fds, backups: seq<Backup>, step: Step, rest: seq<Step>)
    ensures ApplyAll(fds, backups, [step] + rest) ==
            var s := Save(fds, backups, step.redirection.target, step.saveFails);
            if !s.ok then s
            else
              var (ok, after) := ApplyOne(s.fds, step.redirection);
              if !ok then Saving(false, after, s.backups) else ApplyAll(after, s.backups, rest)
  {
    assert ([step] + rest)[1..] == rest;
  }

  /** A descriptor from ten on that is redirected again after being closed can have been taken for a saved copy,
      and what it saved is lost: here descriptor 3 comes back as another file. */
  lemma TargetsFromTenCollide()
    ensures (var a, b := Description(1, ReadWrite), Description(2, ReadWrite);
             var steps := [Step(CloseFd(10), false)] +
                          ([Step(OpenFile(3, Some(b), false), false)] +
                           ([Step(OpenFile(10, Some(b), false), false)] + []));
             var fds := map[0 := a, 1 := a, 2 := a, 3 := a];
             var s := ApplyAll(fds, [], steps);
             s.ok && 3 in Restore(s.fds, s.backups) && Restore(s.fds, s.backups)[3] != fds[3])
  {
    var a, b := Description(1, ReadWrite), Description(2, ReadWrite);
    var fds := map[0 := a, 1 := a, 2 := a, 3 := a];
    var closed := Backup(10, 0, false);
    var saved := Backup(3, 10, true);
    var first, second, third := Step(CloseFd(10), false), Step(OpenFile(3, Some(b), false), false),
                                Step(OpenFile(10, Some(b), false), false);
    hide ApplyAll, Restore;
    NoSteps(fds, []);
    assert fds - {10} == fds;
    ApplyTurn(fds, [], first, [second] + ([third] + []));
    assert Save(fds, [], 10, false) == Saving(true, fds, [closed]);
    assert [closed][0].fd == 10 && [closed, saved][0].fd == 10;
    assert LowestFree(fds, SAVED_FROM) == 10;
    var f1 := fds[10 := a];
    ApplyTurn(fds, [closed], second, [third] + []);
    assert Save(fds, [closed], 3, false) == Saving(true, f1, [closed, saved]);
    var f2 := f1[3 := b];
    ApplyTurn(f2, [closed, saved], third, []);
    assert Save(f2, [closed, saved], 10, false) == Saving(true, f2, [closed, saved]);
    var f3 := f2[10 := b];
    NoSteps(f3, [closed, saved]);
    RestoreTwo(f3, closed, saved);
    assert RestoreOne(f3, saved)[3] == b;
  }

  // ---------- what the descriptors refer to ----------

  /** The system hands out the lowest descriptor that is free. */
  lemma {:induction false} LowestFreeIsLowest(fds: Fds, n: nat, k: nat)
    requires n <= k < LowestFree(fds, n)
    ensures k in fds
    decreases |fds|
  {
    if n in fds && n < k {
      LowestFreeIsLowest(fds - {n}, n + 1, k);
    }
  }

  lemma {:induction false} ApplySplit(fds: Fds, backups: seq<Backup>, a: seq<Step>, b: seq<Step>)
    ensures (var first := ApplyAll(fds, backups, a);
             ApplyAll(fds, backups, a + b) == if first.ok then ApplyAll(first.fds, first.backups, b) else first)
    decreases |a|
  {
    hide Save, ApplyOne;
    if a == [] {
      assert a + b == b;
    } else {
      assert (a + b)[1..] == a[1..] + b;
      var s := Save(fds, backups, a[0].redirection.target, a[0].saveFails);
      if s.ok && ApplyOne(s.fds, a[0].redirection).0 {
        ApplySplit(ApplyOne(s.fds, a[0].redirection).1, s.backups, a[1..], b);
      }
    }
  }

  predicate SameFor(f: Fds, g: Fds, fd: nat) {
    (fd in f <==> fd in g) && (fd in f ==> f[fd] == g[fd])
  }

  lemma SaveKeepsLow(fds: Fds, backups: seq<Backup>, fd: nat, saveFails: bool, low: nat)
    requires low < 10
    ensures SameFor(fds, Save(fds, backups, fd, saveFails).fds, low)
  {
  }

  /** A descriptor below ten that none of the redirections is of is left alone, whether they succeed or not. */
  lemma {:induction false} OthersStay(fds: Fds, backups: seq<Backup>, steps: seq<Step>, low: nat)
    requires low < 10 && forall j :: 0 <= j < |steps| ==> steps[j].redirection.target != low
    ensures SameFor(fds, ApplyAll(fds, backups, steps).fds, low)
    decreases |steps|
  {
    hide Save;
    if steps != [] {
      assert steps[0].redirection.target != low;
      SaveKeepsLow(fds, backups, steps[0].redirection.target, steps[0].saveFails, low);
      var s := Save(fds, backups, steps[0].redirection.target, steps[0].saveFails);
      if s.ok && ApplyOne(s.fds, steps[0].redirection).0 {
        OthersStay(ApplyOne(s.fds, steps[0].redirection).1, s.backups, steps[1..], low);
      }
    }
  }

  /** What the last redirection of a descriptor makes of it: it refers to the file opened; or to what the source
      referred to at that point, which is open and of the right mode; or it is closed. */
  ghost predicate RefersTo(r: Redirection, before: Fds, after: Fds) {
    match r
    case OpenFile(target, file, _) => file.Some? && target in after && after[target] == file.value
    case Duplicate(target, source, input, dupFails) =>
      source < 10 ==>
        && !dupFails && source in before && target in after && after[target] == before[source]
        && (input ==> before[source].mode in {Mode.ReadOnly, ReadWrite})
        && (!input ==> before[source].mode in {WriteOnly, ReadWrite})
    case CloseFd(target) => target !in after
  }

  /** Redirections that all succeed leave each of the first ten descriptors as the last one of it says, and one that
      none is of as it was. */
  lemma LastRedirectionDecides(fds: Fds, steps: seq<Step>, k: nat)
    requires ApplyAll(fds, [], steps).ok && k < |steps| && steps[k].redirection.target < 10
    requires forall j :: k < j < |steps| ==> steps[j].redirection.target != steps[k].redirection.target
    ensures RefersTo(steps[k].redirection, ApplyAll(fds, [], steps[..k]).fds, ApplyAll(fds, [], steps).fds)
  {
    hide ApplyAll, Save, ApplyOne, RefersTo;
    var r, t := steps[k].redirection, steps[k].redirection.target;
    var before := ApplyAll(fds, [], steps[..k]);
    assert steps == steps[..k] + steps[k..] && steps[k..][0] == steps[k] && steps[k..][1..] == steps[k + 1..];
    ApplySplit(fds, [], steps[..k], steps[k..]);
    SucceedingTurn(before.fds, before.backups, steps[k..]);
    var s := Save(before.fds, before.backups, t, steps[k].saveFails);
    var after := ApplyOne(s.fds, r).1;
    OthersStay(after, s.backups, steps[k + 1..], t);
    OneStep(before.fds, before.backups, steps[k], ApplyAll(after, s.backups, steps[k + 1..]).fds);
  }

  lemma SucceedingTurn(fds: Fds, backups: seq<Backup>, steps: seq<Step>)
    requires steps != [] && ApplyAll(fds, backups, steps).ok
    ensures (var s := Save(fds, backups, steps[0].redirection.target, steps[0].saveFails);
             var (ok, after) := ApplyOne(s.fds, steps[0].redirection);
             && s.ok && ok && ApplyAll(fds, backups, steps) == ApplyAll(after, s.backups, steps[1..]))
  {
    hide Save, ApplyOne;
  }

  lemma OneStep(fds: Fds, backups: seq<Backup>, step: Step, final: Fds)
    requires (var s := Save(fds, backups, step.redirection.target, step.saveFails);
              && ApplyOne(s.fds, step.redirection).0
              && SameFor(ApplyOne(s.fds, step.redirection).1, final, step.redirection.target))
    ensures RefersTo(step.redirection, fds, final)
  {
    var r := step.redirection;
    hide Save;
    if r.Duplicate? && r.source < 10 {
      SaveKeepsLow(fds, backups, r.target, step.saveFails, r.source);
    }
  }

  /** The system refuses nothing: there is room, the file opens, and a source below ten is open in the right mode. */
  predicate NothingRefused(fds: Fds, step: Step) {
    !step.saveFails &&
    match step.redirection
    case OpenFile(_, file, dupFails) => file.Some? && !dupFails
    case Duplicate(_, source, input, dupFails) =>
      && source < 10 && source in fds && !dupFails
      && fds[source].mode in (if input then {Mode.ReadOnly, ReadWrite} else {WriteOnly, ReadWrite})
    case CloseFd(_) => true
  }

  /** Behind redirections that have succeeded, one that the system does not refuse succeeds too. */
  lemma NextSucceeds(fds: Fds, steps: seq<Step>, k: nat)
    requires k < |steps| && ApplyAll(fds, [], steps[..k]).ok
    requires NothingRefused(ApplyAll(fds, [], steps[..k]).fds, steps[k])
    ensures ApplyAll(fds, [], steps[..k + 1]).ok
  {
    hide Save, IsSaved;
    var before := ApplyAll(fds, [], steps[..k]);
    assert steps[..k + 1] == steps[..k] + [steps[k]];
    ApplySplit(fds, [], steps[..k], [steps[k]]);
    var r := steps[k].redirection;
    if r.Duplicate? {
      SaveKeepsLow(before.fds, before.backups, r.target, steps[k].saveFails, r.source);
    }
    SaveSucceeds(before.fds, before.backups, r.target);
    assert [steps[k]][1..] == [];
  }

  lemma SaveSucceeds(fds: Fds, backups: seq<Backup>, fd: nat)
    ensures Save(fds, backups, fd, false).ok
  {
  }
}
