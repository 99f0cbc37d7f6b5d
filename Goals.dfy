/** The goal routes (server/routes/goals.js). Each mutating route has a
    specification function over the collections and a handler that updates
    the store step by step and is proved to match it. */
module Goals {
  import opened Records

  /** The `id` and `userId` query parameters of GET /goals ("" when absent). */
  datatype GoalQuery = GoalQuery(id: string, userId: string)

  /** The body of POST /goals and PUT /goals/:id. */
  datatype GoalForm = GoalForm(title: string, description: string, endDate: Date, startDate: Date)

  predicate Complete(f: GoalForm) {
    Present(f.title) && Present(f.description) && Present(f.endDate) && Present(f.startDate)
  }

  /** `Goal.findOne({title})` finds a goal. The query does not mention the
      owner, so titles are unique across all users, not per user. */
  predicate TitleTaken(goals: map<Id, Goal>, title: string) {
    exists g :: g in goals && goals[g].title == title
  }

  /** GET /goals: by `id` (checked first) or by `userId`. */
  method GetGoals(st: Store, caller: Id, q: GoalQuery) returns (code: int, found: map<Id, Goal>)
    ensures Present(q.id) ==>
      && (code == NotFound <==> q.id !in st.goals)
      && (code == Forbidden <==> q.id in st.goals && st.goals[q.id].userId != caller)
      && (code == OK <==> q.id in st.goals && st.goals[q.id].userId == caller)
      && (code == OK ==> found == map[q.id := st.goals[q.id]])
    ensures !Present(q.id) && Present(q.userId) ==>
      && (code == Forbidden <==> q.userId != caller)
      && (code == NotFound <==> q.userId == caller && GoalsOwnedBy(st.goals, caller) == map[])
      && (code == OK <==> q.userId == caller && GoalsOwnedBy(st.goals, caller) != map[])
      && (code == OK ==> found == GoalsOwnedBy(st.goals, caller))
    ensures !Present(q.id) && !Present(q.userId) ==> code == NoReply
    ensures code != OK ==> found == map[]
  {
    found := map[];
    if Present(q.id) {
      if q.id !in st.goals {
        return NotFound, found;
      }
      var goal := st.goals[q.id];
      if goal.userId != caller {
        return Forbidden, found;
      }
      return OK, map[q.id := goal];
    } else if Present(q.userId) {
      if caller != q.userId {
        return Forbidden, found;
      }
      var goals := GoalsOwnedBy(st.goals, q.userId);
      if |goals| == 0 {
        return NotFound, found;
      }
      return OK, goals;
    }
    return NoReply, found;
  }

  /** POST /goals. The schema gives the three counters no default, so their
      starting value is the parameter `initial`. */
  function CreateGoal(db: Db, caller: Id, form: GoalForm, newId: Id, initial: int): (r: Outcome)
    requires newId !in db.goals
    ensures r.code == BadRequest <==> !Complete(form)
    ensures r.code == Conflict <==> Complete(form) && TitleTaken(db.goals, form.title)
    ensures r.code == Created <==> Complete(form) && !TitleTaken(db.goals, form.title)
    ensures r.code != Created ==> r.db == db
    ensures r.code == Created ==>
      && r.db == db.(goals := r.db.goals)
      && r.db.goals.Keys == db.goals.Keys + {newId}
      && (forall g :: g in db.goals ==> r.db.goals[g] == db.goals[g])
      && var goal := r.db.goals[newId];
      && goal.userId == caller
      && goal.title == form.title && goal.description == form.description
      && goal.endDate == form.endDate && goal.startDate == form.startDate
      && goal.numOfMilestones == initial && goal.numOfMilestonesFinished == initial && goal.numOfLogs == initial
  {
    if !Complete(form) then Outcome(BadRequest, db)
    else if TitleTaken(db.goals, form.title) then Outcome(Conflict, db)
    else
      var goal := Goal(caller, form.title, form.description, form.endDate, form.startDate, initial, initial, initial);
      Outcome(Created, db.(goals := db.goals[newId := goal]))
  }

  method PostGoal(st: Store, caller: Id, form: GoalForm, newId: Id, initial: int) returns (code: int)
    requires newId !in st.goals
    modifies st
    ensures Outcome(code, st.State()) == CreateGoal(old(st.State()), caller, form, newId, initial)
  {
    if !Complete(form) {
      return BadRequest;
    }
    if exists g :: g in st.goals && st.goals[g].title == form.title {
      return Conflict;
    }
    var goal := Goal(caller, form.title, form.description, form.endDate, form.startDate, initial, initial, initial);
    st.goals := st.goals[newId := goal];
    return Created;
  }

  /** PUT /goals/:id: overwrites the four editable fields of an owned goal. */
  function EditGoal(db: Db, caller: Id, id: Id, form: GoalForm): (r: Outcome)
    ensures r.code == NotFound <==> id !in db.goals
    ensures r.code == Forbidden <==> id in db.goals && db.goals[id].userId != caller
    ensures r.code == OK <==> id in db.goals && db.goals[id].userId == caller
    ensures r.code != OK ==> r.db == db
    ensures r.code == OK ==>
      && r.db == db.(goals := r.db.goals)
      && OnlyAt(r.db.goals, db.goals, id)
      && var before, after := db.goals[id], r.db.goals[id];
      && after.title == form.title && after.description == form.description
      && after.endDate == form.endDate && after.startDate == form.startDate
      && after.userId == before.userId
      && after.numOfMilestonesFinished == before.numOfMilestonesFinished
      && after.numOfMilestones == before.numOfMilestones
      && after.numOfLogs == before.numOfLogs
  {
    if id !in db.goals then Outcome(NotFound, db)
    else if db.goals[id].userId != caller then Outcome(Forbidden, db)
    else
      var goal := db.goals[id].(title := form.title, description := form.description,
                                endDate := form.endDate, startDate := form.startDate);
      Outcome(OK, db.(goals := db.goals[id := goal]))
  }

  method PutGoal(st: Store, caller: Id, id: Id, form: GoalForm) returns (code: int)
    modifies st
    ensures Outcome(code, st.State()) == EditGoal(old(st.State()), caller, id, form)
  {
    if id !in st.goals {
      return NotFound;
    }
    var goal := st.goals[id];
    if goal.userId != caller {
      return Forbidden;
    }
    goal := goal.(title := form.title);
    goal := goal.(description := form.description);
    goal := goal.(endDate := form.endDate);
    goal := goal.(startDate := form.startDate);
    st.goals := st.goals[id := goal];
    return OK;
  }

  /** DELETE /goals/:id: removes the goal's logs, then its milestones, then the goal. */
  function RemoveGoal(db: Db, caller: Id, id: Id): (r: Outcome)
    ensures r.code == NotFound <==> id !in db.goals
    ensures r.code == Forbidden <==> id in db.goals && db.goals[id].userId != caller
    ensures r.code == Created <==> id in db.goals && db.goals[id].userId == caller
    ensures r.code != Created ==> r.db == db
    ensures r.code == Created ==>
      && r.db.users == db.users
      && r.db.goals == db.goals - {id}
      && (forall m :: m in r.db.milestones <==> m in db.milestones && db.milestones[m].goalId != id)
      && (forall m :: m in r.db.milestones ==> r.db.milestones[m] == db.milestones[m])
      && (forall l :: l in r.db.logs <==> l in db.logs && db.logs[l].goalId != id)
      && (forall l :: l in r.db.logs ==> r.db.logs[l] == db.logs[l])
  {
    if id !in db.goals then Outcome(NotFound, db)
    else if db.goals[id].userId != caller then Outcome(Forbidden, db)
    else
      Outcome(Created, db.(logs := WithoutLogsOfGoal(db.logs, id),
                           milestones := WithoutMilestonesOfGoal(db.milestones, id),
                           goals := db.goals - {id}))
  }

  method DeleteGoal(st: Store, caller: Id, id: Id) returns (code: int)
    modifies st
    ensures Outcome(code, st.State()) == RemoveGoal(old(st.State()), caller, id)
  {
    if id !in st.goals {
      return NotFound;
    }
    if st.goals[id].userId != caller {
      return Forbidden;
    }
    st.logs := WithoutLogsOfGoal(st.logs, id);
    st.milestones := WithoutMilestonesOfGoal(st.milestones, id);
    st.goals := st.goals - {id};
    return Created;
  }
}
