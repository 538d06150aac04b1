/**
  The two-file transactional writer of the maintainer tool, over a directory in
  which any system call may fail.

  A plan fixes, for every system call of a run, whether it fails, and which
  names the random source supplies; quantifying over plans is quantifying over
  all runs. `Write` is the run as a function that logs every state the directory
  goes through, `OutputDirectory` is the code that performs it.
  */
module OutputPair {
  import opened Common

  type Bytes = string
  type Dir = map<string, Bytes>

  /** The states of the directory so far; `now` is the current one. */
  datatype Log = Log(past: seq<Dir>, now: Dir) {
    function Do(d: Dir): Log {
      Log(past + [now], d)
    }
  }

  /** The two outputs to be written. */
  datatype Job = Job(firstName: string, first: Bytes, secondName: string, second: Bytes)

  /** One temporary file: its random name, and which of its calls fail. */
  datatype TempPlan = TempPlan(
    name: Option<string>, openFails: bool, chmodFails: bool, writeFails: bool, partial: Bytes,
    syncFails: bool, closeFails: bool, unlinkFails: bool)

  /** Every decision of the environment in one run. An empty backup name is a failure of the random source. */
  datatype Plan = Plan(
    refused: bool, temp1: TempPlan, temp2: TempPlan, firstBackup: string, secondBackup: string,
    moveFirstFails: bool, moveSecondFails: bool, undoMoveFails: bool,
    swapFirstFails: bool, swapSecondFails: bool,
    dropFirstFails: bool, dropSecondFails: bool, returnFirstFails: bool, returnSecondFails: bool,
    cleanBackup1Fails: bool, cleanBackup2Fails: bool, cleanTemp1Fails: bool, cleanTemp2Fails: bool,
    syncFails: bool)
  {
    /** The calls of rollback and cleanup, whose errors the code ignores, succeed. */
    predicate RollbackWorks() {
      && !temp1.unlinkFails && !temp2.unlinkFails && !undoMoveFails
      && !dropFirstFails && !dropSecondFails && !returnFirstFails && !returnSecondFails
      && !cleanBackup1Fails && !cleanBackup2Fails && !cleanTemp1Fails && !cleanTemp2Fails
    }
  }

  // ---------- system calls

  datatype Errno = Success | NoEntry | Failure

  /** `renameat`: the target is replaced; an empty target or a missing source is `ENOENT`. */
  function RenameErrno(d: Dir, from: string, to: string, fails: bool): Errno {
    if fails then Failure else if from !in d || to == "" then NoEntry else Success
  }

  function Rename(l: Log, from: string, to: string, fails: bool): Log {
    if RenameErrno(l.now, from, to, fails).Success? then l.Do((l.now - {from})[to := l.now[from]]) else l
  }

  function Unlink(l: Log, name: string, fails: bool): Log {
    if fails || name !in l.now then l else l.Do(l.now - {name})
  }

  // ---------- the run

  datatype TempResult = TempResult(log: Log, name: Option<string>)

  function WriteTemp(l: Log, data: Bytes, p: TempPlan): TempResult {
    if p.name == None || p.openFails || p.name.value in l.now then TempResult(l, None)
    else
      var name := p.name.value;
      var created := l.Do(l.now[name := ""]);
      if p.chmodFails then TempResult(Unlink(created, name, p.unlinkFails), None)
      else
        var written := created.Do(created.now[name := if p.writeFails then p.partial else data]);
        if p.writeFails || p.syncFails || p.closeFails then TempResult(Unlink(written, name, p.unlinkFails), None)
        else TempResult(written, Some(name))
  }

  /** The rollback after a failed swap. */
  function Restore(l: Log, job: Job, p: Plan, firstHad: bool, secondHad: bool): Log {
    var l := Unlink(l, job.firstName, p.dropFirstFails);
    var l := Unlink(l, job.secondName, p.dropSecondFails);
    var l := if firstHad then Rename(l, p.firstBackup, job.firstName, p.returnFirstFails) else l;
    if secondHad then Rename(l, p.secondBackup, job.secondName, p.returnSecondFails) else l
  }

  /** The outcome, and which temporary files are still to be removed. */
  datatype PublishResult = PublishResult(log: Log, ok: bool, temp1Left: bool, temp2Left: bool)

  function Publish(l: Log, job: Job, p: Plan, temp1: string, temp2: string): PublishResult {
    var e1 := RenameErrno(l.now, job.firstName, p.firstBackup, p.moveFirstFails);
    if e1 == Failure then PublishResult(l, false, true, true)
    else
      var l := Rename(l, job.firstName, p.firstBackup, p.moveFirstFails);
      var e2 := RenameErrno(l.now, job.secondName, p.secondBackup, p.moveSecondFails);
      if e2 == Failure then
        PublishResult(if e1.Success? then Rename(l, p.firstBackup, job.firstName, p.undoMoveFails) else l,
                      false, true, true)
      else
        var l := Rename(l, job.secondName, p.secondBackup, p.moveSecondFails);
        Swap(l, job, p, temp1, temp2, e1.Success?, e2.Success?)
  }

  function Swap(l: Log, job: Job, p: Plan, temp1: string, temp2: string, firstHad: bool, secondHad: bool): PublishResult {
    if !RenameErrno(l.now, temp1, job.firstName, p.swapFirstFails).Success? then
      PublishResult(Restore(l, job, p, firstHad, secondHad), false, true, true)
    else
      var l := Rename(l, temp1, job.firstName, p.swapFirstFails);
      if !RenameErrno(l.now, temp2, job.secondName, p.swapSecondFails).Success? then
        PublishResult(Restore(l, job, p, firstHad, secondHad), false, false, true)
      else
        var l := Rename(l, temp2, job.secondName, p.swapSecondFails);
        var l := if firstHad then Unlink(l, p.firstBackup, p.cleanBackup1Fails) else l;
        var l := if secondHad then Unlink(l, p.secondBackup, p.cleanBackup2Fails) else l;
        PublishResult(l, !p.syncFails, false, false)
  }

  datatype WriteResult = WriteResult(log: Log, ok: bool)

  function Write(l: Log, job: Job, p: Plan): WriteResult {
    if p.refused then WriteResult(l, false)
    else
      var t1 := WriteTemp(l, job.first, p.temp1);
      if t1.name == None then WriteResult(t1.log, false)
      else
        var t2 := WriteTemp(t1.log, job.second, p.temp2);
        if t2.name == None then WriteResult(Unlink(t2.log, t1.name.value, p.cleanTemp1Fails), false)
        else
          var r := Publish(t2.log, job, p, t1.name.value, t2.name.value);
          var l := if r.temp2Left then Unlink(r.log, t2.name.value, p.cleanTemp2Fails) else r.log;
          var l := if r.temp1Left then Unlink(l, t1.name.value, p.cleanTemp1Fails) else l;
          WriteResult(l, r.ok)
  }

  // ---------- the code that performs the run

  class OutputDirectory {
    var files: Dir
    ghost var past: seq<Dir>

    ghost function State(): Log
      reads this
    {
      Log(past, files)
    }

    constructor (files: Dir)
      ensures State() == Log([], files)
    {
      this.files := files;
      this.past := [];
    }

    method Set(name: string, data: Bytes)
      modifies this
      ensures State() == old(State()).Do(old(files)[name := data])
    {
      past := past + [files];
      files := files[name := data];
    }

    method UnlinkAt(name: string, fails: bool)
      modifies this
      ensures State() == Unlink(old(State()), name, fails)
    {
      if !fails && name in files {
        past := past + [files];
        files := files - {name};
      }
    }

    method RenameAt(from: string, to: string, fails: bool) returns (e: Errno)
      modifies this
      ensures e == RenameErrno(old(files), from, to, fails)
      ensures State() == Rename(old(State()), from, to, fails)
    {
      e := RenameErrno(files, from, to, fails);
      if e.Success? {
        past := past + [files];
        files := (files - {from})[to := files[from]];
      }
    }

    method WriteTempAt(data: Bytes, p: TempPlan) returns (name: Option<string>)
      modifies this
      ensures TempResult(State(), name) == WriteTemp(old(State()), data, p)
    {
      if p.name == None || p.openFails || p.name.value in files {
        return None;
      }
      name := p.name;
      Set(name.value, "");
      if p.chmodFails {
        UnlinkAt(name.value, p.unlinkFails);
        return None;
      }
      Set(name.value, if p.writeFails then p.partial else data);
      if p.writeFails || p.syncFails || p.closeFails {
        UnlinkAt(name.value, p.unlinkFails);
        return None;
      }
    }

    /** `(had, error)`: a missing source is not an error. */
    method MoveExistingAt(name: string, backup: string, fails: bool) returns (had: bool, error: bool)
      modifies this
      ensures var e := RenameErrno(old(files), name, backup, fails);
              had == e.Success? && error == e.Failure?
      ensures State() == Rename(old(State()), name, backup, fails)
    {
      var e := RenameAt(name, backup, fails);
      return e.Success?, e.Failure?;
    }

    method RestoreOld(job: Job, p: Plan, firstHad: bool, secondHad: bool)
      modifies this
      ensures State() == Restore(old(State()), job, p, firstHad, secondHad)
    {
      UnlinkAt(job.firstName, p.dropFirstFails);
      UnlinkAt(job.secondName, p.dropSecondFails);
      if firstHad {
        var _ := RenameAt(p.firstBackup, job.firstName, p.returnFirstFails);
      }
      if secondHad {
        var _ := RenameAt(p.secondBackup, job.secondName, p.returnSecondFails);
      }
    }

    /** The body of the writer; the flags say which deferred cleanups still have a name to remove. */
    method PublishPair(job: Job, p: Plan, temp1: string, temp2: string) returns (ok: bool, temp1Left: bool, temp2Left: bool)
      modifies this
      ensures PublishResult(State(), ok, temp1Left, temp2Left) == Publish(old(State()), job, p, temp1, temp2)
    {
      ok, temp1Left, temp2Left := false, true, true;
      var firstHad, error := MoveExistingAt(job.firstName, p.firstBackup, p.moveFirstFails);
      if error {
        return;
      }
      var secondHad;
      secondHad, error := MoveExistingAt(job.secondName, p.secondBackup, p.moveSecondFails);
      if error {
        if firstHad {
          var _ := RenameAt(p.firstBackup, job.firstName, p.undoMoveFails);
        }
        return;
      }
      var e := RenameAt(temp1, job.firstName, p.swapFirstFails);
      if !e.Success? {
        RestoreOld(job, p, firstHad, secondHad);
        return;
      }
      temp1Left := false;
      e := RenameAt(temp2, job.secondName, p.swapSecondFails);
      if !e.Success? {
        RestoreOld(job, p, firstHad, secondHad);
        return;
      }
      temp2Left := false;
      if firstHad {
        UnlinkAt(p.firstBackup, p.cleanBackup1Fails);
      }
      if secondHad {
        UnlinkAt(p.secondBackup, p.cleanBackup2Fails);
      }
      ok := !p.syncFails;
    }

    /** `writeOutputPair`: the logged states and the result are those of `Write`. */
    method WriteOutputPair(job: Job, p: Plan) returns (ok: bool)
      modifies this
      ensures WriteResult(State(), ok) == Write(old(State()), job, p)
    {
      if p.refused {
        return false;
      }
      var temp1 := WriteTempAt(job.first, p.temp1);
      if temp1 == None {
        return false;
      }
      var temp2 := WriteTempAt(job.second, p.temp2);
      if temp2 == None {
        UnlinkAt(temp1.value, p.cleanTemp1Fails);
        return false;
      }
      var temp1Left, temp2Left;
      ok, temp1Left, temp2Left := PublishPair(job, p, temp1.value, temp2.value);
      if temp2Left {
        UnlinkAt(temp2.value, p.cleanTemp2Fails);
      }
      if temp1Left {
        UnlinkAt(temp1.value, p.cleanTemp1Fails);
      }
    }
  }
}
