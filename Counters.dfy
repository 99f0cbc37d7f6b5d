/** The bookkeeping the counters are meant to keep: a goal's `numOfMilestones`
    and `numOfMilestonesFinished`, and a goal's and a milestone's `numOfLogs`,
    equal the number of records that name it. The lemmas show which handlers
    keep these equalities and which as-written handlers break them. */
module Counters {
  import opened Records
  import Goals
  import Milestones
  import Logs

  /** Ids of the milestones of goal `g`. */
  function MilestonesUnder(ms: map<Id, Milestone>, g: Id): (r: set<Id>) {
    set m | m in ms && ms[m].goalId == g
  }

  /** Ids of the complete milestones of goal `g`. */
  function FinishedUnder(ms: map<Id, Milestone>, g: Id): (r: set<Id>) {
    set m | m in ms && ms[m].goalId == g && ms[m].isComplete
  }

  /** Ids of the logs of goal `g`. */
  function LogsUnderGoal(logs: map<Id, Log>, g: Id): (r: set<Id>) {
    set l | l in logs && logs[l].goalId == g
  }

  /** Ids of the logs of milestone `m`. */
  function LogsUnderMilestone(logs: map<Id, Log>, m: Id): (r: set<Id>) {
    set l | l in logs && logs[l].milestoneId == m
  }

  /** Every milestone names an existing goal, and each goal's two milestone
      counters are exact. */
  predicate MilestoneCountsExact(db: Db) {
    && (forall m :: m in db.milestones ==> db.milestones[m].goalId in db.goals)
    && (forall g :: g in db.goals ==>
          && db.goals[g].numOfMilestones == |MilestonesUnder(db.milestones, g)|
          && db.goals[g].numOfMilestonesFinished == |FinishedUnder(db.milestones, g)|)
  }

  /** Every log names an existing goal and milestone, and every `numOfLogs` is exact. */
  predicate LogCountsExact(db: Db) {
    && (forall l :: l in db.logs ==> db.logs[l].goalId in db.goals && db.logs[l].milestoneId in db.milestones)
    && (forall g :: g in db.goals ==> db.goals[g].numOfLogs == |LogsUnderGoal(db.logs, g)|)
    && (forall m :: m in db.milestones ==> db.milestones[m].numOfLogs == |LogsUnderMilestone(db.logs, m)|)
  }

  /** Two milestone tables with the same ids, parents and completion flags. */
  predicate SameTree(a: map<Id, Milestone>, b: map<Id, Milestone>) {
    a.Keys == b.Keys && forall m :: m in a ==> a[m].goalId == b[m].goalId && a[m].isComplete == b[m].isComplete
  }

  lemma SameTreeSameSets(a: map<Id, Milestone>, b: map<Id, Milestone>, g: Id)
    requires SameTree(a, b)
    ensures MilestonesUnder(a, g) == MilestonesUnder(b, g)
    ensures FinishedUnder(a, g) == FinishedUnder(b, g)
  {
  }

  /** Milestone counters depend only on the goals' counters and the milestone tree. */
  lemma MilestoneCountsFromTree(db: Db, db': Db)
    requires MilestoneCountsExact(db)
    requires SameTree(db.milestones, db'.milestones)
    requires db'.goals.Keys == db.goals.Keys
    requires forall g :: g in db.goals ==>
      db'.goals[g].numOfMilestones == db.goals[g].numOfMilestones
      && db'.goals[g].numOfMilestonesFinished == db.goals[g].numOfMilestonesFinished
    ensures MilestoneCountsExact(db')
  {
    forall g | g in db'.goals
      ensures db'.goals[g].numOfMilestones == |MilestonesUnder(db'.milestones, g)|
      ensures db'.goals[g].numOfMilestonesFinished == |FinishedUnder(db'.milestones, g)|
    {
      SameTreeSameSets(db.milestones, db'.milestones, g);
    }
  }

  // How the selections change when one record is added, replaced or removed.

  lemma UnderInsert(ms: map<Id, Milestone>, k: Id, x: Milestone, g: Id)
    requires k !in ms
    ensures MilestonesUnder(ms[k := x], g) == if x.goalId == g then MilestonesUnder(ms, g) + {k} else MilestonesUnder(ms, g)
    ensures FinishedUnder(ms[k := x], g) == if x.goalId == g && x.isComplete then FinishedUnder(ms, g) + {k} else FinishedUnder(ms, g)
    ensures k !in MilestonesUnder(ms, g) && k !in FinishedUnder(ms, g)
  {
  }

  lemma UnderReplace(ms: map<Id, Milestone>, k: Id, x: Milestone, g: Id)
    requires k in ms && x.goalId == ms[k].goalId
    ensures MilestonesUnder(ms[k := x], g) == MilestonesUnder(ms, g)
    ensures |FinishedUnder(ms[k := x], g)| == |FinishedUnder(ms, g)|
      + (if g != x.goalId || x.isComplete == ms[k].isComplete then 0 else if x.isComplete then 1 else -1)
  {
    var before, after := FinishedUnder(ms, g), FinishedUnder(ms[k := x], g);
    if g == x.goalId && x.isComplete && !ms[k].isComplete {
      assert after == before + {k} && k !in before;
    } else if g == x.goalId && !x.isComplete && ms[k].isComplete {
      assert before == after + {k} && k !in after;
    } else {
      assert after == before;
    }
  }

  /** A subset is no larger than its superset. */
  lemma {:induction false} SubsetNoLarger<T>(a: set<T>, b: set<T>)
    requires a <= b
    ensures |a| <= |b|
  {
    if a != {} {
      var x :| x in a;
      SubsetNoLarger(a - {x}, b - {x});
    }
  }

  lemma UnderRemove(ms: map<Id, Milestone>, k: Id, g: Id)
    requires k in ms
    ensures MilestonesUnder(ms, g) == if ms[k].goalId == g then MilestonesUnder(ms - {k}, g) + {k} else MilestonesUnder(ms - {k}, g)
    ensures FinishedUnder(ms, g) == if ms[k].goalId == g && ms[k].isComplete then FinishedUnder(ms - {k}, g) + {k} else FinishedUnder(ms - {k}, g)
    ensures k !in MilestonesUnder(ms - {k}, g) && k !in FinishedUnder(ms - {k}, g)
  {
  }

  lemma LogsInsert(logs: map<Id, Log>, k: Id, x: Log, g: Id, m: Id)
    requires k !in logs
    ensures LogsUnderGoal(logs[k := x], g) == if x.goalId == g then LogsUnderGoal(logs, g) + {k} else LogsUnderGoal(logs, g)
    ensures LogsUnderMilestone(logs[k := x], m) == if x.milestoneId == m then LogsUnderMilestone(logs, m) + {k} else LogsUnderMilestone(logs, m)
    ensures k !in LogsUnderGoal(logs, g) && k !in LogsUnderMilestone(logs, m)
  {
  }

  lemma LogsRemove(logs: map<Id, Log>, k: Id, g: Id, m: Id)
    requires k in logs
    ensures LogsUnderGoal(logs, g) == if logs[k].goalId == g then LogsUnderGoal(logs - {k}, g) + {k} else LogsUnderGoal(logs - {k}, g)
    ensures LogsUnderMilestone(logs, m) == if logs[k].milestoneId == m then LogsUnderMilestone(logs - {k}, m) + {k} else LogsUnderMilestone(logs - {k}, m)
    ensures k !in LogsUnderGoal(logs - {k}, g) && k !in LogsUnderMilestone(logs - {k}, m)
  {
  }

  // ---------------------------------------------------------------------------
  // Goal handlers

  lemma CreateGoalKeepsMilestoneCounts(db: Db, caller: Id, form: Goals.GoalForm, newId: Id)
    requires newId !in db.goals && MilestoneCountsExact(db)
    ensures MilestoneCountsExact(Goals.CreateGoal(db, caller, form, newId, 0).db)
  {
    var r := Goals.CreateGoal(db, caller, form, newId, 0);
    if r.code == Created {
      assert MilestonesUnder(db.milestones, newId) == {};
      assert FinishedUnder(db.milestones, newId) == {};
    }
  }

  lemma EditGoalKeepsMilestoneCounts(db: Db, caller: Id, id: Id, form: Goals.GoalForm)
    requires MilestoneCountsExact(db)
    ensures MilestoneCountsExact(Goals.EditGoal(db, caller, id, form).db)
  {
    var r := Goals.EditGoal(db, caller, id, form);
    MilestoneCountsFromTree(db, r.db);
  }

  lemma RemoveGoalKeepsMilestoneCounts(db: Db, caller: Id, id: Id)
    requires MilestoneCountsExact(db)
    ensures MilestoneCountsExact(Goals.RemoveGoal(db, caller, id).db)
  {
    var r := Goals.RemoveGoal(db, caller, id);
    if r.code == Created {
      forall g | g in r.db.goals
        ensures r.db.goals[g].numOfMilestones == |MilestonesUnder(r.db.milestones, g)|
        ensures r.db.goals[g].numOfMilestonesFinished == |FinishedUnder(r.db.milestones, g)|
      {
        assert MilestonesUnder(r.db.milestones, g) == MilestonesUnder(db.milestones, g);
        assert FinishedUnder(r.db.milestones, g) == FinishedUnder(db.milestones, g);
      }
    }
  }

  // ---------------------------------------------------------------------------
  // Milestone handlers

  lemma CreateMilestoneKeepsMilestoneCounts(db: Db, caller: Id, form: Milestones.MilestoneForm, newId: Id, initialLogs: int)
    requires newId !in db.milestones && MilestoneCountsExact(db)
    ensures MilestoneCountsExact(Milestones.CreateMilestone(db, caller, form, newId, initialLogs).db)
  {
    var r := Milestones.CreateMilestone(db, caller, form, newId, initialLogs);
    if r.code == Created {
      var x := r.db.milestones[newId];
      assert r.db.milestones == db.milestones[newId := x];
      forall g | g in r.db.goals
        ensures r.db.goals[g].numOfMilestones == |MilestonesUnder(r.db.milestones, g)|
        ensures r.db.goals[g].numOfMilestonesFinished == |FinishedUnder(r.db.milestones, g)|
      {
        UnderInsert(db.milestones, newId, x, g);
      }
    }
  }

  /** Finishing an incomplete milestone keeps the counters exact, in both versions. */
  lemma FinishIncompleteKeepsMilestoneCounts(db: Db, caller: Id, id: Id, form: Milestones.MilestoneEdit)
    requires MilestoneCountsExact(db)
    requires Milestones.Owned(db, caller, id) && !db.milestones[id].isComplete
    ensures MilestoneCountsExact(Milestones.EditMilestone(db, caller, id, "finish", form).db)
  {
    var r := Milestones.EditMilestone(db, caller, id, "finish", form);
    var x := r.db.milestones[id];
    assert r.db.milestones == db.milestones[id := x];
    forall g | g in r.db.goals
      ensures r.db.goals[g].numOfMilestones == |MilestonesUnder(r.db.milestones, g)|
      ensures r.db.goals[g].numOfMilestonesFinished == |FinishedUnder(r.db.milestones, g)|
    {
      UnderReplace(db.milestones, id, x, g);
    }
  }

  /** Resuming keeps the counters exact. */
  lemma ResumeKeepsMilestoneCounts(db: Db, caller: Id, id: Id, form: Milestones.MilestoneEdit)
    requires MilestoneCountsExact(db)
    ensures MilestoneCountsExact(Milestones.EditMilestone(db, caller, id, "resume", form).db)
  {
    var r := Milestones.EditMilestone(db, caller, id, "resume", form);
    if Milestones.Owned(db, caller, id) && db.milestones[id].isComplete {
      var x := r.db.milestones[id];
      assert r.db.milestones == db.milestones[id := x];
      forall g | g in r.db.goals
        ensures r.db.goals[g].numOfMilestones == |MilestonesUnder(r.db.milestones, g)|
        ensures r.db.goals[g].numOfMilestonesFinished == |FinishedUnder(r.db.milestones, g)|
      {
        UnderReplace(db.milestones, id, x, g);
      }
    }
  }

  /** The corrected edit handler keeps the milestone counters exact whatever the selector. */
  lemma EditFixedKeepsMilestoneCounts(db: Db, caller: Id, id: Id, edit: string, form: Milestones.MilestoneEdit)
    requires MilestoneCountsExact(db)
    ensures MilestoneCountsExact(Milestones.EditMilestoneFixed(db, caller, id, edit, form).db)
  {
    var r := Milestones.EditMilestoneFixed(db, caller, id, edit, form);
    if Milestones.Owned(db, caller, id) {
      if edit == "finish" {
        if !db.milestones[id].isComplete {
          FinishIncompleteKeepsMilestoneCounts(db, caller, id, form);
        }
      } else if edit == "resume" {
        ResumeKeepsMilestoneCounts(db, caller, id, form);
      } else {
        MilestoneCountsFromTree(db, r.db);
      }
    }
  }

  /** As written, finishing a milestone that is already complete makes the
      goal's finished-counter one too high. */
  lemma FinishCompleteBreaksMilestoneCounts(db: Db, caller: Id, id: Id, form: Milestones.MilestoneEdit)
    requires MilestoneCountsExact(db)
    requires Milestones.Owned(db, caller, id) && db.milestones[id].isComplete
    ensures !MilestoneCountsExact(Milestones.EditMilestone(db, caller, id, "finish", form).db)
  {
    var r := Milestones.EditMilestone(db, caller, id, "finish", form);
    var p := db.milestones[id].goalId;
    assert FinishedUnder(r.db.milestones, p) == FinishedUnder(db.milestones, p);
    assert r.db.goals[p].numOfMilestonesFinished == |FinishedUnder(r.db.milestones, p)| + 1;
  }

  /** The corrected delete keeps the milestone counters exact. */
  lemma RemoveFixedKeepsMilestoneCounts(db: Db, caller: Id, id: Id)
    requires MilestoneCountsExact(db)
    ensures MilestoneCountsExact(Milestones.RemoveMilestoneFixed(db, caller, id).db)
  {
    var r := Milestones.RemoveMilestoneFixed(db, caller, id);
    if Milestones.Owned(db, caller, id) {
      assert r.db.milestones == db.milestones - {id};
      forall g | g in r.db.goals
        ensures r.db.goals[g].numOfMilestones == |MilestonesUnder(r.db.milestones, g)|
        ensures r.db.goals[g].numOfMilestonesFinished == |FinishedUnder(r.db.milestones, g)|
      {
        UnderRemove(db.milestones, id, g);
      }
    }
  }

  /** As written, deleting a milestone leaves the goal's `numOfMilestones` one too high. */
  lemma RemoveAsWrittenBreaksMilestoneCounts(db: Db, caller: Id, id: Id)
    requires MilestoneCountsExact(db)
    requires Milestones.Owned(db, caller, id)
    ensures !MilestoneCountsExact(Milestones.RemoveMilestone(db, caller, id).db)
  {
    var r := Milestones.RemoveMilestone(db, caller, id);
    var p := db.milestones[id].goalId;
    UnderRemove(db.milestones, id, p);
    assert r.db.goals[p].numOfMilestones == |MilestonesUnder(r.db.milestones, p)| + 1;
  }

  // ---------------------------------------------------------------------------
  // Log handlers

  /** Creating a log keeps both kinds of counter exact. */
  lemma CreateLogKeepsCounts(db: Db, caller: Id, form: Logs.LogForm, images: seq<string>, newId: Id)
    requires newId !in db.logs
    requires MilestoneCountsExact(db) && LogCountsExact(db)
    ensures var r := Logs.CreateLog(db, caller, form, images, newId);
      MilestoneCountsExact(r.db) && LogCountsExact(r.db)
  {
    var r := Logs.CreateLog(db, caller, form, images, newId);
    if r.code == Created {
      MilestoneCountsFromTree(db, r.db);
      LogCountsAfterInsert(db, r.db, newId);
    }
  }

  /** The log counters stay exact when one log is added and its goal's and
      milestone's counters rise by one. */
  lemma LogCountsAfterInsert(db: Db, db': Db, k: Id)
    requires LogCountsExact(db)
    requires k !in db.logs && k in db'.logs && db'.logs == db.logs[k := db'.logs[k]]
    requires var x := db'.logs[k];
      && OnlyAt(db'.goals, db.goals, x.goalId)
      && db'.goals[x.goalId].numOfLogs == db.goals[x.goalId].numOfLogs + 1
      && OnlyAt(db'.milestones, db.milestones, x.milestoneId)
      && db'.milestones[x.milestoneId].numOfLogs == db.milestones[x.milestoneId].numOfLogs + 1
    ensures LogCountsExact(db')
  {
    var x := db'.logs[k];
    forall g | g in db'.goals
      ensures db'.goals[g].numOfLogs == |LogsUnderGoal(db'.logs, g)|
    {
      LogsInsert(db.logs, k, x, g, g);
    }
    forall m | m in db'.milestones
      ensures db'.milestones[m].numOfLogs == |LogsUnderMilestone(db'.logs, m)|
    {
      LogsInsert(db.logs, k, x, m, m);
    }
  }

  /** Deleting a log keeps both kinds of counter exact. */
  lemma RemoveLogKeepsCounts(db: Db, caller: Id, id: Id)
    requires MilestoneCountsExact(db) && LogCountsExact(db)
    ensures var r := Logs.RemoveLog(db, caller, id);
      MilestoneCountsExact(r.db) && LogCountsExact(r.db)
  {
    var r := Logs.RemoveLog(db, caller, id);
    if id in db.logs && db.logs[id].userId == caller {
      MilestoneCountsFromTree(db, r.db);
      LogCountsAfterRemove(db, r.db, id);
    }
  }

  /** The log counters stay exact when one log is removed and its goal's and
      milestone's counters drop by one. */
  lemma LogCountsAfterRemove(db: Db, db': Db, k: Id)
    requires LogCountsExact(db)
    requires k in db.logs && db'.logs == db.logs - {k}
    requires var x := db.logs[k];
      && OnlyAt(db'.goals, db.goals, x.goalId)
      && db'.goals[x.goalId].numOfLogs == db.goals[x.goalId].numOfLogs - 1
      && OnlyAt(db'.milestones, db.milestones, x.milestoneId)
      && db'.milestones[x.milestoneId].numOfLogs == db.milestones[x.milestoneId].numOfLogs - 1
    ensures LogCountsExact(db')
  {
    forall g | g in db'.goals
      ensures db'.goals[g].numOfLogs == |LogsUnderGoal(db'.logs, g)|
    {
      LogsRemove(db.logs, k, g, g);
    }
    forall m | m in db'.milestones
      ensures db'.milestones[m].numOfLogs == |LogsUnderMilestone(db'.logs, m)|
    {
      LogsRemove(db.logs, k, m, m);
    }
  }

  /** A goal created with its counters at 0 keeps the log counters exact: no
      log names the new key yet. */
  lemma CreateGoalKeepsLogCounts(db: Db, caller: Id, form: Goals.GoalForm, newId: Id)
    requires newId !in db.goals && LogCountsExact(db)
    ensures LogCountsExact(Goals.CreateGoal(db, caller, form, newId, 0).db)
  {
    var r := Goals.CreateGoal(db, caller, form, newId, 0);
    if r.code == Created {
      assert LogsUnderGoal(db.logs, newId) == {};
    }
  }

  /** Editing a goal never touches a log counter. */
  lemma EditGoalKeepsLogCounts(db: Db, caller: Id, id: Id, form: Goals.GoalForm)
    requires LogCountsExact(db)
    ensures LogCountsExact(Goals.EditGoal(db, caller, id, form).db)
  {
  }

  /** Creating a milestone whose log counter starts at 0 keeps the log counters exact. */
  lemma CreateMilestoneKeepsLogCounts(db: Db, caller: Id, form: Milestones.MilestoneForm, newId: Id)
    requires newId !in db.milestones && LogCountsExact(db)
    ensures LogCountsExact(Milestones.CreateMilestone(db, caller, form, newId, 0).db)
  {
    var r := Milestones.CreateMilestone(db, caller, form, newId, 0);
    if r.code == Created {
      assert LogsUnderMilestone(db.logs, newId) == {};
    }
  }

  /** Editing a milestone never touches a log counter. */
  lemma EditMilestoneKeepsLogCounts(db: Db, caller: Id, id: Id, edit: string, form: Milestones.MilestoneEdit)
    requires LogCountsExact(db)
    ensures LogCountsExact(Milestones.EditMilestone(db, caller, id, edit, form).db)
  {
  }

  /** Deleting a milestone that has logs leaves its goal's `numOfLogs` too high,
      even with the milestone counters saved: neither version lowers it. */
  lemma RemoveMilestoneLeavesLogCount(db: Db, caller: Id, id: Id, l: Id)
    requires LogCountsExact(db)
    requires Milestones.Owned(db, caller, id)
    requires l in db.logs && db.logs[l].milestoneId == id
    ensures !LogCountsExact(Milestones.RemoveMilestone(db, caller, id).db)
    ensures !LogCountsExact(Milestones.RemoveMilestoneFixed(db, caller, id).db)
  {
    GoalLogCountTooHigh(db, Milestones.RemoveMilestone(db, caller, id).db, l);
    GoalLogCountTooHigh(db, Milestones.RemoveMilestoneFixed(db, caller, id).db, l);
  }

  /** Dropping a milestone's logs while the goal of one of them keeps its
      `numOfLogs` breaks the log counts. */
  lemma GoalLogCountTooHigh(db: Db, db': Db, l: Id)
    requires LogCountsExact(db)
    requires l in db.logs
    requires db'.logs == WithoutLogsOfMilestone(db.logs, db.logs[l].milestoneId)
    requires db.logs[l].goalId in db'.goals
    requires db'.goals[db.logs[l].goalId].numOfLogs == db.goals[db.logs[l].goalId].numOfLogs
    ensures !LogCountsExact(db')
  {
    var p := db.logs[l].goalId;
    var before, after := LogsUnderGoal(db.logs, p), LogsUnderGoal(db'.logs, p);
    assert after <= before - {l};
    SubsetNoLarger(after, before - {l});
    assert before == (before - {l}) + {l};
  }
}
