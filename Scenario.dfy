/** One goal's life on an empty store: create the goal with zero counters, add
    a milestone, finish it, delete it. */
module Scenario {
  import opened Records
  import opened Goals
  import opened Milestones

  const Owner: Id := "u1"
  const GoalKey: Id := "g1"
  const MilestoneKey: Id := "m1"

  function Empty(): (r: Db) {
    Db(map[], map[], map[], map[])
  }

  /** After create, add and finish, the goal counts one milestone, finished.
      Deleting the milestone as written leaves both counters at 1; the
      corrected delete brings both back to 0. */
  lemma GoalLifeCycle()
    ensures var g := CreateGoal(Empty(), Owner, GoalForm("Learn Rust", "book", "2024-06-01", "2024-01-01"), GoalKey, 0);
      var m := CreateMilestone(g.db, Owner, MilestoneForm(GoalKey, "Finish ch.1", "read", "2024-02-01"), MilestoneKey, 0);
      var f := EditMilestone(m.db, Owner, MilestoneKey, "finish", MilestoneEdit("", "", ""));
      var d := RemoveMilestone(f.db, Owner, MilestoneKey);
      var d' := RemoveMilestoneFixed(f.db, Owner, MilestoneKey);
      && g.code == Created && m.code == Created && f.code == Created
      && f.db.goals[GoalKey].numOfMilestones == 1 && f.db.goals[GoalKey].numOfMilestonesFinished == 1
      && d.code == Created && MilestoneKey !in d.db.milestones
      && d.db.goals[GoalKey].numOfMilestones == 1 && d.db.goals[GoalKey].numOfMilestonesFinished == 1
      && d'.code == Created
      && d'.db.goals[GoalKey].numOfMilestones == 0 && d'.db.goals[GoalKey].numOfMilestonesFinished == 0
  {
    var form := GoalForm("Learn Rust", "book", "2024-06-01", "2024-01-01");
    assert !TitleTaken(Empty().goals, form.title);
    var g := CreateGoal(Empty(), Owner, form, GoalKey, 0);
    var mform := MilestoneForm(GoalKey, "Finish ch.1", "read", "2024-02-01");
    assert !Duplicate(g.db.milestones, mform);
    var m := CreateMilestone(g.db, Owner, mform, MilestoneKey, 0);
    assert Owned(m.db, Owner, MilestoneKey) && ParentPresent(m.db, MilestoneKey);
    var f := EditMilestone(m.db, Owner, MilestoneKey, "finish", MilestoneEdit("", "", ""));
    assert Owned(f.db, Owner, MilestoneKey) && ParentPresent(f.db, MilestoneKey);
  }
}
