/** What every run of the two-file writer keeps, and when exactly it is all-or-nothing. */
module OutputPairProofs {
  import opened Common
  import opened OutputPair

  // ---------- the environment

  /** The names of a run do not collide. A temporary name may collide with a file: it is opened exclusively. */
  ghost predicate Fresh(old_: Dir, job: Job, p: Plan) {
    && job.firstName != "" && job.secondName != "" && job.firstName != job.secondName
    && FreshTemp(job, p, p.temp1) && FreshTemp(job, p, p.temp2)
    && p.firstBackup !in old_ && p.secondBackup !in old_
    && p.firstBackup != job.firstName && p.firstBackup != job.secondName
    && p.secondBackup != job.firstName && p.secondBackup != job.secondName
    && (p.firstBackup == p.secondBackup ==> p.firstBackup == "")
  }

  ghost predicate FreshTemp(job: Job, p: Plan, t: TempPlan) {
    t.name.Some? ==>
      t.name.value != job.firstName && t.name.value != job.secondName
      && t.name.value != p.firstBackup && t.name.value != p.secondBackup
  }

  /** Every output that exists has a backup name. */
  ghost predicate Covered(old_: Dir, job: Job, p: Plan) {
    (job.firstName in old_ ==> p.firstBackup != "") && (job.secondName in old_ ==> p.secondBackup != "")
  }

  // ---------- what a crash leaves

  ghost predicate BothNew(job: Job, d: Dir) {
    && job.firstName in d && d[job.firstName] == job.first
    && job.secondName in d && d[job.secondName] == job.second
  }

  ghost predicate Holds(d: Dir, name: string, data: Bytes) {
    name in d && d[name] == data
  }

  /** The old bytes of an output are under its own name or under its backup name. */
  ghost predicate OldKept(old_: Dir, d: Dir, name: string, backup: string) {
    name in old_ ==> Holds(d, name, old_[name]) || (backup != "" && Holds(d, backup, old_[name]))
  }

  ghost predicate Unrelated(job: Job, p: Plan, name: string) {
    && name != job.firstName && name != job.secondName && name != p.firstBackup && name != p.secondBackup
    && Some(name) != p.temp1.name && Some(name) != p.temp2.name
  }

  ghost predicate SameAt(old_: Dir, d: Dir, name: string) {
    (name in d <==> name in old_) && (name in d ==> d[name] == old_[name])
  }

  /** No unrelated name has changed. */
  ghost predicate Frame(old_: Dir, job: Job, p: Plan, d: Dir) {
    forall name :: Unrelated(job, p, name) ==> SameAt(old_, d, name)
  }

  ghost predicate Recoverable(old_: Dir, job: Job, p: Plan, d: Dir) {
    && (BothNew(job, d)
        || (OldKept(old_, d, job.firstName, p.firstBackup) && OldKept(old_, d, job.secondName, p.secondBackup)))
    && Frame(old_, job, p, d)
  }

  ghost predicate AlwaysRecoverable(old_: Dir, job: Job, p: Plan, l: Log) {
    && Recoverable(old_, job, p, l.now)
    && forall i :: 0 <= i < |l.past| ==> Recoverable(old_, job, p, l.past[i])
  }

  // ---------- the stages of a run

  /** Until the outputs are moved, only temporary files have changed. */
  ghost predicate Preparing(old_: Dir, job: Job, p: Plan, d: Dir) {
    && SameAt(old_, d, job.firstName) && SameAt(old_, d, job.secondName)
    && p.firstBackup !in d && p.secondBackup !in d
    && Frame(old_, job, p, d)
  }

  ghost predicate BackedUp(old_: Dir, d: Dir, name: string, backup: string) {
    name in old_ ==> backup != "" && Holds(d, backup, old_[name])
  }

  lemma PreparingStep(old_: Dir, job: Job, p: Plan, l: Log, d: Dir)
    requires AlwaysRecoverable(old_, job, p, l) && Preparing(old_, job, p, d)
    ensures AlwaysRecoverable(old_, job, p, l.Do(d))
  {
  }

  lemma TempTouches(old_: Dir, job: Job, p: Plan, d: Dir, t: TempPlan, data: Bytes)
    requires Fresh(old_, job, p) && (t == p.temp1 || t == p.temp2) && t.name.Some?
    requires Preparing(old_, job, p, d)
    ensures Preparing(old_, job, p, d[t.name.value := data]) && Preparing(old_, job, p, d - {t.name.value})
  {
  }

  lemma TempPrepares(old_: Dir, job: Job, p: Plan, l: Log, data: Bytes, t: TempPlan)
    requires Fresh(old_, job, p) && (t == p.temp1 || t == p.temp2)
    requires AlwaysRecoverable(old_, job, p, l) && Preparing(old_, job, p, l.now)
    ensures var r := WriteTemp(l, data, t);
            && AlwaysRecoverable(old_, job, p, r.log) && Preparing(old_, job, p, r.log.now)
            && (r.name.Some? ==> r.name == t.name && t.name.value !in l.now && r.log.now == l.now[t.name.value := data])
            && (r.name == None && !t.unlinkFails ==> r.log.now == l.now)
  {
    hide AlwaysRecoverable, Preparing, Fresh;
    if t.name.Some? && !t.openFails && t.name.value !in l.now {
      var name := t.name.value;
      var bytes := if t.writeFails then t.partial else data;
      var created, written := l.now[name := ""], l.now[name := bytes];
      assert created[name := bytes] == written && created - {name} == l.now && written - {name} == l.now;
      TempTouches(old_, job, p, l.now, t, "");
      TempTouches(old_, job, p, l.now, t, bytes);
      PreparingStep(old_, job, p, l, created);
      PreparingStep(old_, job, p, l.Do(created), l.now);
      PreparingStep(old_, job, p, l.Do(created), written);
      PreparingStep(old_, job, p, l.Do(created).Do(written), l.now);
    }
  }

  // ---------- rolling back

  /** Both old files are in their backups. */
  ghost predicate Guarded(old_: Dir, job: Job, p: Plan, d: Dir) {
    && BackedUp(old_, d, job.firstName, p.firstBackup) && BackedUp(old_, d, job.secondName, p.secondBackup)
    && Frame(old_, job, p, d)
  }

  /** The second old file is in its backup, the first one may already be back. */
  ghost predicate HalfGuarded(old_: Dir, job: Job, p: Plan, d: Dir) {
    && OldKept(old_, d, job.firstName, p.firstBackup) && BackedUp(old_, d, job.secondName, p.secondBackup)
    && Frame(old_, job, p, d)
  }

  lemma KeptStep(old_: Dir, job: Job, p: Plan, l: Log, d: Dir)
    requires AlwaysRecoverable(old_, job, p, l)
    requires OldKept(old_, d, job.firstName, p.firstBackup) && OldKept(old_, d, job.secondName, p.secondBackup)
    requires Frame(old_, job, p, d)
    ensures AlwaysRecoverable(old_, job, p, l.Do(d))
  {
  }

  lemma DropKeeps(old_: Dir, job: Job, p: Plan, l: Log, name: string, fails: bool)
    requires Fresh(old_, job, p) && AlwaysRecoverable(old_, job, p, l) && Guarded(old_, job, p, l.now)
    requires name == job.firstName || name == job.secondName
    ensures AlwaysRecoverable(old_, job, p, Unlink(l, name, fails)) && Guarded(old_, job, p, Unlink(l, name, fails).now)
  {
    KeptStep(old_, job, p, l, l.now - {name});
  }

  lemma ReturnFirst(old_: Dir, job: Job, p: Plan, l: Log, fails: bool)
    requires Fresh(old_, job, p) && AlwaysRecoverable(old_, job, p, l) && Guarded(old_, job, p, l.now)
    requires job.firstName in old_
    ensures var r := Rename(l, p.firstBackup, job.firstName, fails);
            AlwaysRecoverable(old_, job, p, r) && HalfGuarded(old_, job, p, r.now)
  {
    if !fails {
      var d := (l.now - {p.firstBackup})[job.firstName := l.now[p.firstBackup]];
      assert HalfGuarded(old_, job, p, d);
      KeptStep(old_, job, p, l, d);
    }
  }

  lemma ReturnSecond(old_: Dir, job: Job, p: Plan, l: Log, fails: bool)
    requires Fresh(old_, job, p) && AlwaysRecoverable(old_, job, p, l) && HalfGuarded(old_, job, p, l.now)
    requires job.secondName in old_
    ensures AlwaysRecoverable(old_, job, p, Rename(l, p.secondBackup, job.secondName, fails))
  {
    if !fails {
      var d := (l.now - {p.secondBackup})[job.secondName := l.now[p.secondBackup]];
      KeptStep(old_, job, p, l, d);
    }
  }

  /** Rolling back never loses an old file: it is in its backup until it is back. */
  lemma RestoreKeeps(old_: Dir, job: Job, p: Plan, l: Log, firstHad: bool, secondHad: bool)
    requires Fresh(old_, job, p) && AlwaysRecoverable(old_, job, p, l) && Guarded(old_, job, p, l.now)
    requires firstHad == (job.firstName in old_) && secondHad == (job.secondName in old_)
    ensures AlwaysRecoverable(old_, job, p, Restore(l, job, p, firstHad, secondHad))
  {
    hide AlwaysRecoverable, Fresh;
    DropKeeps(old_, job, p, l, job.firstName, p.dropFirstFails);
    var l1 := Unlink(l, job.firstName, p.dropFirstFails);
    DropKeeps(old_, job, p, l1, job.secondName, p.dropSecondFails);
    var l2 := Unlink(l1, job.secondName, p.dropSecondFails);
    var l3 := if firstHad then Rename(l2, p.firstBackup, job.firstName, p.returnFirstFails) else l2;
    if firstHad {
      ReturnFirst(old_, job, p, l2, p.returnFirstFails);
    }
    if secondHad {
      ReturnSecond(old_, job, p, l3, p.returnSecondFails);
    }
  }

  // ---------- going forward

  lemma NewStep(old_: Dir, job: Job, p: Plan, l: Log, d: Dir)
    requires AlwaysRecoverable(old_, job, p, l) && BothNew(job, d) && Frame(old_, job, p, d)
    ensures AlwaysRecoverable(old_, job, p, l.Do(d))
  {
  }

  /** Once both new files are in place, the backups may go. */
  lemma DropBackup(old_: Dir, job: Job, p: Plan, l: Log, backup: string, fails: bool)
    requires Fresh(old_, job, p) && AlwaysRecoverable(old_, job, p, l) && BothNew(job, l.now)
    requires backup == p.firstBackup || backup == p.secondBackup
    ensures var r := Unlink(l, backup, fails);
            AlwaysRecoverable(old_, job, p, r) && BothNew(job, r.now)
  {
    NewStep(old_, job, p, l, l.now - {backup});
  }

  lemma SwapKeeps(old_: Dir, job: Job, p: Plan, l: Log, temp1: string, temp2: string, firstHad: bool, secondHad: bool)
    requires Fresh(old_, job, p) && AlwaysRecoverable(old_, job, p, l)
    requires p.temp1.name == Some(temp1) && p.temp2.name == Some(temp2) && temp1 != temp2
    requires Holds(l.now, temp1, job.first) && Holds(l.now, temp2, job.second)
    requires firstHad == (job.firstName in old_) && secondHad == (job.secondName in old_)
    requires Guarded(old_, job, p, l.now)
    ensures AlwaysRecoverable(old_, job, p, Swap(l, job, p, temp1, temp2, firstHad, secondHad).log)
  {
    if p.swapFirstFails {
      RestoreKeeps(old_, job, p, l, firstHad, secondHad);
    } else {
      var l1 := Rename(l, temp1, job.firstName, false);
      assert Guarded(old_, job, p, l1.now);
      KeptStep(old_, job, p, l, l1.now);
      if p.swapSecondFails {
        RestoreKeeps(old_, job, p, l1, firstHad, secondHad);
      } else {
        var l2 := Rename(l1, temp2, job.secondName, false);
        NewStep(old_, job, p, l1, l2.now);
        DropBackup(old_, job, p, l2, p.firstBackup, p.cleanBackup1Fails);
        var l3 := if firstHad then Unlink(l2, p.firstBackup, p.cleanBackup1Fails) else l2;
        DropBackup(old_, job, p, l3, p.secondBackup, p.cleanBackup2Fails);
      }
    }
  }

  lemma PublishKeeps(old_: Dir, job: Job, p: Plan, l: Log, temp1: string, temp2: string)
    requires Fresh(old_, job, p) && Covered(old_, job, p)
    requires AlwaysRecoverable(old_, job, p, l) && Preparing(old_, job, p, l.now)
    requires p.temp1.name == Some(temp1) && p.temp2.name == Some(temp2) && temp1 != temp2
    requires Holds(l.now, temp1, job.first) && Holds(l.now, temp2, job.second)
    ensures AlwaysRecoverable(old_, job, p, Publish(l, job, p, temp1, temp2).log)
  {
    var l1 := Rename(l, job.firstName, p.firstBackup, p.moveFirstFails);
    assert AlwaysRecoverable(old_, job, p, l1);
    if !p.moveFirstFails {
      if p.moveSecondFails {
        var l2 := Rename(l1, p.firstBackup, job.firstName, p.undoMoveFails);
        assert job.firstName in old_ ==> AlwaysRecoverable(old_, job, p, l2);
      } else {
        var l2 := Rename(l1, job.secondName, p.secondBackup, false);
        assert AlwaysRecoverable(old_, job, p, l2);
        SwapKeeps(old_, job, p, l2, temp1, temp2, job.firstName in old_, job.secondName in old_);
      }
    }
  }

  /** Removing a temporary file never matters. */
  lemma CleanKeeps(old_: Dir, job: Job, p: Plan, l: Log, t: TempPlan, fails: bool)
    requires Fresh(old_, job, p) && AlwaysRecoverable(old_, job, p, l)
    requires (t == p.temp1 || t == p.temp2) && t.name.Some?
    ensures AlwaysRecoverable(old_, job, p, Unlink(l, t.name.value, fails))
  {
    var d := l.now - {t.name.value};
    assert Recoverable(old_, job, p, d);
  }

  /**
    At every crash point of every run, whichever calls fail, the old bytes of
    each output are still in the directory unless both new files are in place,
    and no unrelated name has changed.
    */
  lemma CrashSafe(old_: Dir, job: Job, p: Plan)
    requires Fresh(old_, job, p) && Covered(old_, job, p)
    ensures AlwaysRecoverable(old_, job, p, Write(Log([], old_), job, p).log)
  {
    var l := Log([], old_);
    if !p.refused {
      TempPrepares(old_, job, p, l, job.first, p.temp1);
      var t1 := WriteTemp(l, job.first, p.temp1);
      if t1.name.Some? {
        TempPrepares(old_, job, p, t1.log, job.second, p.temp2);
        var t2 := WriteTemp(t1.log, job.second, p.temp2);
        if t2.name == None {
          CleanKeeps(old_, job, p, t2.log, p.temp1, p.cleanTemp1Fails);
        } else {
          PublishKeeps(old_, job, p, t2.log, t1.name.value, t2.name.value);
          var r := Publish(t2.log, job, p, t1.name.value, t2.name.value);
          var l1 := if r.temp2Left then Unlink(r.log, t2.name.value, p.cleanTemp2Fails) else r.log;
          if r.temp2Left {
            CleanKeeps(old_, job, p, r.log, p.temp2, p.cleanTemp2Fails);
          }
          if r.temp1Left {
            CleanKeeps(old_, job, p, l1, p.temp1, p.cleanTemp1Fails);
          }
        }
      }
    }
  }

  // ---------- all or nothing

  /** The directory with both outputs written and nothing else changed. */
  ghost function Written(old_: Dir, job: Job): Dir {
    old_[job.firstName := job.first][job.secondName := job.second]
  }

  ghost predicate TempWorks(t: TempPlan, d: Dir) {
    && t.name.Some? && t.name.value !in d
    && !t.openFails && !t.chmodFails && !t.writeFails && !t.syncFails && !t.closeFails
  }

  /** Nothing stops the run before it replaces the first output. */
  ghost predicate Reaches(old_: Dir, p: Plan) {
    && !p.refused
    && TempWorks(p.temp1, old_) && TempWorks(p.temp2, old_) && p.temp1.name != p.temp2.name
    && !p.moveFirstFails && !p.moveSecondFails
  }

  ghost predicate SwapFails(p: Plan) {
    p.swapFirstFails || p.swapSecondFails
  }

  /** The directory while the temporary files are there and the outputs are still in place. */
  ghost function Prepared(old_: Dir, job: Job, temp1: string, temp2: string): Dir {
    old_[temp1 := job.first][temp2 := job.second]
  }

  /** An output moved out of the way, unless it has no backup name. */
  ghost function Moved(d: Dir, name: string, backup: string): Dir {
    if name in d && backup != "" then (d - {name})[backup := d[name]] else d
  }

  ghost predicate Ready(old_: Dir, job: Job, p: Plan, l: Log, temp1: string, temp2: string) {
    && Fresh(old_, job, p) && p.RollbackWorks()
    && p.temp1.name == Some(temp1) && p.temp2.name == Some(temp2) && temp1 != temp2
    && temp1 !in old_ && temp2 !in old_
    && l.now == Prepared(old_, job, temp1, temp2)
  }

  /** The end of `Write`, after the temporary files have been made. */
  ghost function Cleaned(r: PublishResult, p: Plan, temp1: string, temp2: string): Dir {
    var l := if r.temp2Left then Unlink(r.log, temp2, p.cleanTemp2Fails) else r.log;
    (if r.temp1Left then Unlink(l, temp1, p.cleanTemp1Fails) else l).now
  }

  lemma StopsBeforeSwap(old_: Dir, job: Job, p: Plan, l: Log, temp1: string, temp2: string)
    requires Ready(old_, job, p, l, temp1, temp2)
    requires p.moveFirstFails || p.moveSecondFails
    ensures var r := Publish(l, job, p, temp1, temp2);
            !r.ok && Cleaned(r, p, temp1, temp2) == old_
  {
  }

  /** The outputs that were moved to a backup. */
  ghost predicate Had(old_: Dir, name: string, backup: string) {
    name in old_ && backup != ""
  }

  /** The directory with the outputs in their backups, without the temporary files. */
  ghost function Vacated(old_: Dir, job: Job, p: Plan): Dir {
    Moved(Moved(old_, job.firstName, p.firstBackup), job.secondName, p.secondBackup)
  }

  lemma MovedPast(d: Dir, name: string, backup: string, temp: string, data: Bytes)
    requires temp != name && temp != backup
    ensures Moved(d[temp := data], name, backup) == Moved(d, name, backup)[temp := data]
  {
  }

  lemma ReachesSwap(old_: Dir, job: Job, p: Plan, l: Log, temp1: string, temp2: string)
    requires Ready(old_, job, p, l, temp1, temp2)
    requires !p.moveFirstFails && !p.moveSecondFails
    ensures exists m: Log ::
              && m.now == Vacated(old_, job, p)[temp1 := job.first][temp2 := job.second]
              && Publish(l, job, p, temp1, temp2)
              == Swap(m, job, p, temp1, temp2,
                      Had(old_, job.firstName, p.firstBackup), Had(old_, job.secondName, p.secondBackup))
  {
    var m1 := Rename(l, job.firstName, p.firstBackup, false);
    var m2 := Rename(m1, job.secondName, p.secondBackup, false);
    var first := Moved(old_, job.firstName, p.firstBackup);
    MovedPast(old_, job.firstName, p.firstBackup, temp1, job.first);
    MovedPast(old_[temp1 := job.first], job.firstName, p.firstBackup, temp2, job.second);
    MovedPast(first, job.secondName, p.secondBackup, temp1, job.first);
    MovedPast(first[temp1 := job.first], job.secondName, p.secondBackup, temp2, job.second);
    assert m2.now == Vacated(old_, job, p)[temp1 := job.first][temp2 := job.second];
  }

  /** Dropping the backups of a vacated directory in which both outputs were rewritten. */
  lemma Rewritten(old_: Dir, job: Job, p: Plan)
    requires Fresh(old_, job, p)
    ensures var d := Written(Vacated(old_, job, p), job);
            var d1 := if Had(old_, job.firstName, p.firstBackup) then d - {p.firstBackup} else d;
            var d2 := if Had(old_, job.secondName, p.secondBackup) then d1 - {p.secondBackup} else d1;
            d2 == Written(old_, job)
  {
  }

  lemma SwapsWork(old_: Dir, job: Job, p: Plan, l: Log, temp1: string, temp2: string)
    requires Ready(old_, job, p, Log([], Prepared(old_, job, temp1, temp2)), temp1, temp2)
    requires l.now == Vacated(old_, job, p)[temp1 := job.first][temp2 := job.second]
    requires !SwapFails(p)
    ensures var r := Swap(l, job, p, temp1, temp2,
                          Had(old_, job.firstName, p.firstBackup), Had(old_, job.secondName, p.secondBackup));
            r.ok == !p.syncFails && Cleaned(r, p, temp1, temp2) == Written(old_, job)
  {
    var v := Vacated(old_, job, p);
    assert temp1 !in v && temp2 !in v;
    var l1 := Rename(l, temp1, job.firstName, false);
    assert l1.now == v[job.firstName := job.first][temp2 := job.second];
    var l2 := Rename(l1, temp2, job.secondName, false);
    assert l2.now == Written(v, job);
    assert Had(old_, job.firstName, p.firstBackup) ==> p.firstBackup in v;
    assert Had(old_, job.secondName, p.secondBackup) ==> p.secondBackup in v;
    Rewritten(old_, job, p);
  }

  /** What is left of a vacated directory when the backups are moved back. */
  ghost function Refilled(old_: Dir, job: Job, p: Plan): Dir {
    old_ - (if Had(old_, job.firstName, p.firstBackup) then {} else {job.firstName})
         - (if Had(old_, job.secondName, p.secondBackup) then {} else {job.secondName})
  }

  /** The four calls of the rollback, on a vacated directory with files added. */
  lemma Refills(old_: Dir, job: Job, p: Plan)
    requires Fresh(old_, job, p)
    ensures var d := Vacated(old_, job, p) - {job.firstName} - {job.secondName};
            var d1 := if Had(old_, job.firstName, p.firstBackup)
                      then (d - {p.firstBackup})[job.firstName := old_[job.firstName]] else d;
            var d2 := if Had(old_, job.secondName, p.secondBackup)
                      then (d1 - {p.secondBackup})[job.secondName := old_[job.secondName]] else d1;
            d2 == Refilled(old_, job, p)
  {
  }

  lemma UnlinkNow(l: Log, name: string)
    ensures Unlink(l, name, false).now == l.now - {name}
  {
    if name !in l.now {
      assert l.now - {name} == l.now;
    }
  }

  /** A backup moved back, with further files in the directory. */
  lemma ReturnNow(l: Log, v: Dir, extra: Dir, backup: string, name: string)
    requires l.now == v + extra && backup in v && name != "" && backup !in extra && name !in extra
    ensures Rename(l, backup, name, false).now == (v - {backup})[name := v[backup]] + extra
  {
  }

  /** The old files are in the vacated directory under their backup names. */
  lemma VacatedHolds(old_: Dir, job: Job, p: Plan)
    requires Fresh(old_, job, p)
    ensures var v := Vacated(old_, job, p) - {job.firstName} - {job.secondName};
            && (Had(old_, job.firstName, p.firstBackup) ==> Holds(v, p.firstBackup, old_[job.firstName]))
            && (Had(old_, job.secondName, p.secondBackup) ==> Holds(v, p.secondBackup, old_[job.secondName]))
  {
  }

  /** The rollback, with further files in the directory. */
  lemma RestoreOutcome(old_: Dir, job: Job, p: Plan, l: Log, extra: Dir)
    requires Fresh(old_, job, p) && p.RollbackWorks()
    requires extra.Keys !! {job.firstName, job.secondName, p.firstBackup, p.secondBackup}
    requires l.now - {job.firstName} - {job.secondName}
          == (Vacated(old_, job, p) - {job.firstName} - {job.secondName}) + extra
    ensures Restore(l, job, p, Had(old_, job.firstName, p.firstBackup), Had(old_, job.secondName, p.secondBackup)).now
         == Refilled(old_, job, p) + extra
  {
    hide Refilled, Vacated, Rename;
    var v := Vacated(old_, job, p) - {job.firstName} - {job.secondName};
    var l1 := Unlink(l, job.firstName, false);
    var l2 := Unlink(l1, job.secondName, false);
    UnlinkNow(l, job.firstName);
    UnlinkNow(l1, job.secondName);
    assert l2.now == v + extra;
    VacatedHolds(old_, job, p);
    var firstHad, secondHad := Had(old_, job.firstName, p.firstBackup), Had(old_, job.secondName, p.secondBackup);
    var v1 := if firstHad then (v - {p.firstBackup})[job.firstName := old_[job.firstName]] else v;
    var l3 := if firstHad then Rename(l2, p.firstBackup, job.firstName, false) else l2;
    if firstHad {
      ReturnNow(l2, v, extra, p.firstBackup, job.firstName);
    }
    assert l3.now == v1 + extra;
    if secondHad {
      assert Holds(v1, p.secondBackup, old_[job.secondName]);
      ReturnNow(l3, v1, extra, p.secondBackup, job.secondName);
    }
    Refills(old_, job, p);
  }

  /** A temporary file taken away from a directory that holds it on top. */
  lemma TakeAway(d: Dir, temp: string, data: Bytes)
    requires temp !in d
    ensures d + map[temp := data] - {temp} == d
  {
  }

  /** Removing other names does not touch the files on top. */
  lemma DropBelow(d: Dir, extra: Dir, first: string, second: string)
    requires first !in extra && second !in extra
    ensures (d + extra) - {first} - {second} == (d - {first} - {second}) + extra
  {
  }

  lemma BothTaken(d: Dir, temp1: string, a: Bytes, temp2: string, b: Bytes)
    requires temp1 !in d && temp2 !in d && temp1 != temp2
    ensures d + map[temp1 := a, temp2 := b] - {temp2} - {temp1} == d
  {
  }

  lemma FirstSwapFails(old_: Dir, job: Job, p: Plan, l: Log, temp1: string, temp2: string)
    requires Ready(old_, job, p, Log([], Prepared(old_, job, temp1, temp2)), temp1, temp2)
    requires l.now == Vacated(old_, job, p)[temp1 := job.first][temp2 := job.second]
    ensures var had1, had2 := Had(old_, job.firstName, p.firstBackup), Had(old_, job.secondName, p.secondBackup);
            Cleaned(PublishResult(Restore(l, job, p, had1, had2), false, true, true), p, temp1, temp2)
            == Refilled(old_, job, p)
  {
    hide Restore, Vacated, Refilled, Had, Unlink, Prepared;
    var had1, had2 := Had(old_, job.firstName, p.firstBackup), Had(old_, job.secondName, p.secondBackup);
    var v, extra := Vacated(old_, job, p), map[temp1 := job.first, temp2 := job.second];
    var restored := Restore(l, job, p, had1, had2);
    assert l.now == v + extra;
    DropBelow(v, extra, job.firstName, job.secondName);
    RestoreOutcome(old_, job, p, l, extra);
    UnlinkNow(restored, temp2);
    UnlinkNow(Unlink(restored, temp2, false), temp1);
    RefilledKeys(old_, job, p, temp1);
    RefilledKeys(old_, job, p, temp2);
    BothTaken(Refilled(old_, job, p), temp1, job.first, temp2, job.second);
  }

  /** The first output replaced by its temporary file, whatever else is there. */
  lemma SwappedNow(l: Log, v: Dir, temp1: string, a: Bytes, temp2: string, b: Bytes, first: string, second: string)
    requires l.now == v[temp1 := a][temp2 := b] && temp1 !in v && temp1 != temp2
    requires first != "" && first != temp1 && first != temp2 && second != temp1 && second != temp2
    ensures Rename(l, temp1, first, false).now - {first} - {second} == (v - {first} - {second}) + map[temp2 := b]
  {
  }

  lemma SecondSwapFails(old_: Dir, job: Job, p: Plan, l: Log, temp1: string, temp2: string)
    requires Ready(old_, job, p, Log([], Prepared(old_, job, temp1, temp2)), temp1, temp2)
    requires l.now == Vacated(old_, job, p)[temp1 := job.first][temp2 := job.second]
    ensures var had1, had2 := Had(old_, job.firstName, p.firstBackup), Had(old_, job.secondName, p.secondBackup);
            var swapped := Rename(l, temp1, job.firstName, false);
            Cleaned(PublishResult(Restore(swapped, job, p, had1, had2), false, false, true), p, temp1, temp2)
            == Refilled(old_, job, p)
  {
    hide Restore, Vacated, Refilled, Had, Unlink, Rename, Prepared;
    var had1, had2 := Had(old_, job.firstName, p.firstBackup), Had(old_, job.secondName, p.secondBackup);
    var swapped := Rename(l, temp1, job.firstName, false);
    VacatedKeys(old_, job, p, temp1);
    SwappedNow(l, Vacated(old_, job, p), temp1, job.first, temp2, job.second, job.firstName, job.secondName);
    RestoreOutcome(old_, job, p, swapped, map[temp2 := job.second]);
    UnlinkNow(Restore(swapped, job, p, had1, had2), temp2);
    RefilledKeys(old_, job, p, temp2);
    TakeAway(Refilled(old_, job, p), temp2, job.second);
  }

  lemma SwapsFail(old_: Dir, job: Job, p: Plan, l: Log, temp1: string, temp2: string)
    requires Ready(old_, job, p, Log([], Prepared(old_, job, temp1, temp2)), temp1, temp2)
    requires l.now == Vacated(old_, job, p)[temp1 := job.first][temp2 := job.second]
    requires SwapFails(p)
    ensures var r := Swap(l, job, p, temp1, temp2,
                          Had(old_, job.firstName, p.firstBackup), Had(old_, job.secondName, p.secondBackup));
            !r.ok && Cleaned(r, p, temp1, temp2) == Refilled(old_, job, p)
  {
    hide Restore, Vacated, Refilled;
    if p.swapFirstFails {
      FirstSwapFails(old_, job, p, l, temp1, temp2);
    } else {
      SecondSwapFails(old_, job, p, l, temp1, temp2);
    }
  }

  lemma RefilledKeys(old_: Dir, job: Job, p: Plan, name: string)
    requires name !in old_
    ensures name !in Refilled(old_, job, p)
  {
  }

  lemma VacatedKeys(old_: Dir, job: Job, p: Plan, name: string)
    requires name !in old_ && name != p.firstBackup && name != p.secondBackup
    ensures name !in Vacated(old_, job, p)
  {
  }

  /** The directory and the result of every run whose rollback and cleanup calls succeed. */
  lemma Outcome(old_: Dir, job: Job, p: Plan)
    requires Fresh(old_, job, p) && p.RollbackWorks()
    ensures var r := Write(Log([], old_), job, p);
            && r.log.now == (if !Reaches(old_, p) then old_
                             else if !SwapFails(p) then Written(old_, job)
                             else Refilled(old_, job, p))
            && (r.ok <==> Reaches(old_, p) && !SwapFails(p) && !p.syncFails)
  {
    hide Publish;
    var l := Log([], old_);
    if !p.refused {
      TempPrepares(old_, job, p, l, job.first, p.temp1);
      var t1 := WriteTemp(l, job.first, p.temp1);
      if t1.name.Some? {
        TempPrepares(old_, job, p, t1.log, job.second, p.temp2);
        var t2 := WriteTemp(t1.log, job.second, p.temp2);
        if t2.name.Some? {
          PublishOutcome(old_, job, p, t2.log, t1.name.value, t2.name.value);
        }
      }
    }
  }

  lemma PublishOutcome(old_: Dir, job: Job, p: Plan, l: Log, temp1: string, temp2: string)
    requires Ready(old_, job, p, l, temp1, temp2)
    ensures var r := Publish(l, job, p, temp1, temp2);
            && Cleaned(r, p, temp1, temp2)
               == (if p.moveFirstFails || p.moveSecondFails then old_
                   else if !SwapFails(p) then Written(old_, job)
                   else Refilled(old_, job, p))
            && (r.ok <==> !p.moveFirstFails && !p.moveSecondFails && !SwapFails(p) && !p.syncFails)
  {
    hide Publish, Swap;
    if p.moveFirstFails || p.moveSecondFails {
      StopsBeforeSwap(old_, job, p, l, temp1, temp2);
    } else {
      ReachesSwap(old_, job, p, l, temp1, temp2);
      var m: Log :|
        && m.now == Vacated(old_, job, p)[temp1 := job.first][temp2 := job.second]
        && Publish(l, job, p, temp1, temp2)
        == Swap(m, job, p, temp1, temp2,
                Had(old_, job.firstName, p.firstBackup), Had(old_, job.secondName, p.secondBackup));
      if SwapFails(p) {
        SwapsFail(old_, job, p, m, temp1, temp2);
      } else {
        SwapsWork(old_, job, p, m, temp1, temp2);
      }
    }
  }

  /** Whether the swaps of a run work; the temporary files are there and the outputs have names. */
  lemma SwapResult(l: Log, job: Job, p: Plan, temp1: string, temp2: string, firstHad: bool, secondHad: bool)
    requires temp1 in l.now && temp2 in l.now && temp1 != temp2
    requires job.firstName != "" && job.secondName != "" && job.firstName != temp2
    ensures Swap(l, job, p, temp1, temp2, firstHad, secondHad).ok <==> !SwapFails(p) && !p.syncFails
  {
    hide Restore, Unlink;
  }

  /** Moving an output out of the way keeps every other name. */
  lemma MoveKeeps(l: Log, name: string, backup: string, fails: bool, other: string)
    requires other in l.now && other != name
    ensures other in Rename(l, name, backup, fails).now
  {
  }

  lemma PublishResultIff(l: Log, job: Job, p: Plan, temp1: string, temp2: string)
    requires temp1 in l.now && temp2 in l.now && temp1 != temp2
    requires job.firstName != "" && job.secondName != ""
    requires temp1 != job.firstName && temp1 != job.secondName && temp2 != job.firstName && temp2 != job.secondName
    ensures Publish(l, job, p, temp1, temp2).ok <==>
            !p.moveFirstFails && !p.moveSecondFails && !SwapFails(p) && !p.syncFails
  {
    hide Swap, Rename;
    var l1 := Rename(l, job.firstName, p.firstBackup, p.moveFirstFails);
    var l2 := Rename(l1, job.secondName, p.secondBackup, p.moveSecondFails);
    MoveKeeps(l, job.firstName, p.firstBackup, p.moveFirstFails, temp1);
    MoveKeeps(l, job.firstName, p.firstBackup, p.moveFirstFails, temp2);
    MoveKeeps(l1, job.secondName, p.secondBackup, p.moveSecondFails, temp1);
    MoveKeeps(l1, job.secondName, p.secondBackup, p.moveSecondFails, temp2);
    var e1 := RenameErrno(l.now, job.firstName, p.firstBackup, p.moveFirstFails);
    var e2 := RenameErrno(l1.now, job.secondName, p.secondBackup, p.moveSecondFails);
    SwapResult(l2, job, p, temp1, temp2, e1.Success?, e2.Success?);
  }

  lemma TempResultIff(l: Log, data: Bytes, t: TempPlan)
    ensures var r := WriteTemp(l, data, t);
            && (r.name.Some? <==> TempWorks(t, l.now))
            && (r.name.Some? ==> r.name == t.name && r.log.now == l.now[t.name.value := data])
  {
  }

  /**
    Success of any run, also of one whose rollback or cleanup fails: the two
    temporary files are written, and no move, no swap and not the last sync fails.
    */
  lemma ResultIff(old_: Dir, job: Job, p: Plan)
    requires Fresh(old_, job, p)
    ensures Write(Log([], old_), job, p).ok <==> Reaches(old_, p) && !SwapFails(p) && !p.syncFails
  {
    hide Publish, WriteTemp;
    var l := Log([], old_);
    TempResultIff(l, job.first, p.temp1);
    var t1 := WriteTemp(l, job.first, p.temp1);
    if t1.name.Some? {
      TempResultIff(t1.log, job.second, p.temp2);
      var t2 := WriteTemp(t1.log, job.second, p.temp2);
      if t2.name.Some? {
        PublishResultIff(t2.log, job, p, t1.name.value, t2.name.value);
      }
    }
  }

  /** The directory is as it was, or both outputs are new and nothing else has changed. */
  ghost predicate OldOrNew(old_: Dir, job: Job, d: Dir) {
    d == old_ || d == Written(old_, job)
  }

  /**
    All or nothing: when every output that exists has a backup name, a run that
    is stopped by any call before the last sync reports an error and leaves the
    whole directory as it was; any other run leaves both new files and nothing
    else changed, and reports an error exactly when that sync fails.
    */
  lemma AllOrNothing(old_: Dir, job: Job, p: Plan)
    requires Fresh(old_, job, p) && p.RollbackWorks() && Covered(old_, job, p)
    ensures var r := Write(Log([], old_), job, p);
            if !Reaches(old_, p) || SwapFails(p) then !r.ok && r.log.now == old_
            else r.ok == !p.syncFails && r.log.now == Written(old_, job)
  {
    hide Write;
    Outcome(old_, job, p);
    assert Covered(old_, job, p) ==> Refilled(old_, job, p) == old_;
  }

  /** A single run breaks the promise exactly when a swap fails while an existing output has no backup name. */
  lemma AllOrNothingIff(old_: Dir, job: Job, p: Plan)
    requires Fresh(old_, job, p) && p.RollbackWorks()
    ensures OldOrNew(old_, job, Write(Log([], old_), job, p).log.now) <==>
            Covered(old_, job, p) || !Reaches(old_, p) || !SwapFails(p)
  {
    hide Write;
    Outcome(old_, job, p);
    var lost := Refilled(old_, job, p);
    if Covered(old_, job, p) {
      assert lost == old_;
    } else {
      assert (job.firstName in old_ && job.firstName !in lost) || (job.secondName in old_ && job.secondName !in lost);
    }
  }

  /** A run in which only the first swap fails. */
  ghost function OneFailure(temp1: string, temp2: string, firstBackup: string, secondBackup: string): Plan {
    Plan(false,
         TempPlan(Some(temp1), false, false, false, "", false, false, false),
         TempPlan(Some(temp2), false, false, false, "", false, false, false),
         firstBackup, secondBackup,
         false, false, false, true, false, false, false, false, false, false, false, false, false, false)
  }

  /** The plan uses these names. */
  ghost predicate Uses(p: Plan, temp1: string, temp2: string, firstBackup: string, secondBackup: string) {
    p.temp1.name == Some(temp1) && p.temp2.name == Some(temp2) && p.firstBackup == firstBackup && p.secondBackup == secondBackup
  }

  /**
    The code drops an error of the random source for the backup names, and
    `renameat` to an empty name is taken for a missing output. All-or-nothing
    holds of all runs with given names exactly when every existing output has a
    backup name, which can be seen before the outputs are touched.
    */
  lemma AllOrNothingAlwaysIff(
    old_: Dir, job: Job, temp1: string, temp2: string, firstBackup: string, secondBackup: string)
    requires Fresh(old_, job, OneFailure(temp1, temp2, firstBackup, secondBackup))
    requires temp1 !in old_ && temp2 !in old_ && temp1 != temp2
    ensures (forall p: Plan :: Uses(p, temp1, temp2, firstBackup, secondBackup) && p.RollbackWorks() ==>
               OldOrNew(old_, job, Write(Log([], old_), job, p).log.now))
            <==> Covered(old_, job, OneFailure(temp1, temp2, firstBackup, secondBackup))
  {
    hide Write;
    var bad := OneFailure(temp1, temp2, firstBackup, secondBackup);
    assert Uses(bad, temp1, temp2, firstBackup, secondBackup) && bad.RollbackWorks();
    assert Reaches(old_, bad) && SwapFails(bad);
    AllOrNothingIff(old_, job, bad);
    forall p: Plan | Uses(p, temp1, temp2, firstBackup, secondBackup) && p.RollbackWorks() && Covered(old_, job, bad)
      ensures OldOrNew(old_, job, Write(Log([], old_), job, p).log.now)
    {
      AllOrNothingIff(old_, job, p);
    }
  }

  /** With a random source that never reports an error, both promises hold of every run. */
  lemma PromisesHold(old_: Dir, job: Job, p: Plan)
    requires Fresh(old_, job, p) && p.firstBackup != "" && p.secondBackup != ""
    ensures AlwaysRecoverable(old_, job, p, Write(Log([], old_), job, p).log)
    ensures p.RollbackWorks() ==> OldOrNew(old_, job, Write(Log([], old_), job, p).log.now)
  {
    hide Write;
    CrashSafe(old_, job, p);
    if p.RollbackWorks() {
      AllOrNothing(old_, job, p);
    }
  }

  /** If the random source could report an error: one failed rename, and the file that was there before is gone. */
  lemma LosesOldFile()
    ensures var old_ := map["report.json" := "old"];
            var p := OneFailure(".new-1", ".new-2", "", ".old-2");
            var r := Write(Log([], old_), Job("report.json", "new", "report.md", "new"), p);
            && Fresh(old_, Job("report.json", "new", "report.md", "new"), p) && p.RollbackWorks()
            && !r.ok && r.log.now == map[]
  {
    var old_ := map["report.json" := "old"];
    var job := Job("report.json", "new", "report.md", "new");
    var p := OneFailure(".new-1", ".new-2", "", ".old-2");
    assert Fresh(old_, job, p) by {
      assert ".new-1" != "report.json" && |".new-1"| != |"report.md"|;
      assert |".old-2"| != |"report.md"| && ".new-1"[1] != ".old-2"[1] && ".new-2"[1] != ".old-2"[1];
    }
    Outcome(old_, job, p);
    assert p.temp1.name != p.temp2.name by { assert ".new-1"[5] != ".new-2"[5]; }
    assert Reaches(old_, p);
    assert Refilled(old_, job, p) == map[];
  }

  /** Crash safety over all runs with these names holds exactly when every existing output has a backup name. */
  lemma CrashSafeIff(old_: Dir, job: Job, temp1: string, temp2: string, firstBackup: string, secondBackup: string)
    requires Fresh(old_, job, OneFailure(temp1, temp2, firstBackup, secondBackup))
    requires temp1 !in old_ && temp2 !in old_ && temp1 != temp2
    ensures (forall p: Plan :: Uses(p, temp1, temp2, firstBackup, secondBackup) ==>
               AlwaysRecoverable(old_, job, p, Write(Log([], old_), job, p).log))
            <==> Covered(old_, job, OneFailure(temp1, temp2, firstBackup, secondBackup))
  {
    hide Write;
    var bad := OneFailure(temp1, temp2, firstBackup, secondBackup);
    assert Uses(bad, temp1, temp2, firstBackup, secondBackup);
    if Covered(old_, job, bad) {
      forall p: Plan | Uses(p, temp1, temp2, firstBackup, secondBackup)
        ensures AlwaysRecoverable(old_, job, p, Write(Log([], old_), job, p).log)
      {
        CrashSafe(old_, job, p);
      }
    } else {
      Outcome(old_, job, bad);
      var now := Refilled(old_, job, bad);
      assert !BothNew(job, now);
      assert !Recoverable(old_, job, bad, now);
    }
  }
}
