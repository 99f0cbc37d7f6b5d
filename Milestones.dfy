/** The milestone routes (server/routes/milestones.js), modelled as written.
    Three places where the code does not do what it evidently means to are
    kept as they are, each with a corrected twin beside it:
    - `finish` raises the goal's finished-counter even for a milestone that is
      already complete (EditMilestone / EditMilestoneFixed);
    - delete lowers the goal's counters on a copy that is never saved
      (RemoveMilestone / RemoveMilestoneFixed);
    - the list-by-userId and list-by-goalId queries read the Goal table
      (GetMilestones / GetMilestonesFixed). */
module Milestones {
  import opened Records

  /** The `id`, `userId` and `goalId` query parameters of GET /milestones ("" when absent). */
  datatype MilestoneQuery = MilestoneQuery(id: string, userId: string, goalId: string)

  /** The body of POST /milestones. */
  datatype MilestoneForm = MilestoneForm(goalId: string, title: string, description: string, endDate: Date)

  /** The body fields the default branch of PUT /milestones/:id copies. */
  datatype MilestoneEdit = MilestoneEdit(title: string, description: string, endDate: Date)

  predicate Complete(f: MilestoneForm) {
    Present(f.title) && Present(f.description) && Present(f.endDate) && Present(f.goalId)
  }

  /** `Milestone.findOne({title, endDate, goalId})` finds a milestone. */
  predicate Duplicate(milestones: map<Id, Milestone>, f: MilestoneForm) {
    exists m :: m in milestones && milestones[m].title == f.title
      && milestones[m].endDate == f.endDate && milestones[m].goalId == f.goalId
  }

  /** The milestone exists and belongs to the caller. */
  predicate Owned(db: Db, caller: Id, id: Id) {
    id in db.milestones && db.milestones[id].userId == caller
  }

  /** The goal the milestone names is in the goal table. */
  predicate ParentPresent(db: Db, id: Id)
    requires id in db.milestones
  {
    db.milestones[id].goalId in db.goals
  }

  // ---------------------------------------------------------------------------
  // GET /milestones

  /** GET /milestones as written. The `userId` branch runs `Goal.find({userId})`
      and the `goalId` branch `Goal.find({goalId, userId})`, so both list goal
      records. Goals have no `goalId` field: with `strictQuery` Mongoose drops
      that filter and the caller's goals come back; without it nothing matches. */
  method GetMilestones(st: Store, caller: Id, q: MilestoneQuery, strictQuery: bool)
    returns (code: int, milestone: map<Id, Milestone>, listed: map<Id, Goal>)
    ensures Present(q.id) ==>
      && (code == NotFound <==> q.id !in st.milestones)
      && (code == Forbidden <==> q.id in st.milestones && st.milestones[q.id].userId != caller)
      && (code == OK <==> q.id in st.milestones && st.milestones[q.id].userId == caller)
      && (code == OK ==> milestone == map[q.id := st.milestones[q.id]])
      && listed == map[]
    ensures !Present(q.id) && Present(q.userId) ==>
      && (code == Forbidden <==> q.userId != caller)
      && (code == NotFound <==> q.userId == caller && GoalsOwnedBy(st.goals, caller) == map[])
      && (code == OK <==> q.userId == caller && GoalsOwnedBy(st.goals, caller) != map[])
      && (code == OK ==> listed == GoalsOwnedBy(st.goals, caller))
      && milestone == map[]
    ensures !Present(q.id) && !Present(q.userId) && Present(q.goalId) ==>
      && (code == NotFound <==>
            (q.goalId !in st.goals || (st.goals[q.goalId].userId == caller && (!strictQuery || GoalsOwnedBy(st.goals, caller) == map[]))))
      && (code == Forbidden <==> q.goalId in st.goals && st.goals[q.goalId].userId != caller)
      && (code == OK <==>
            q.goalId in st.goals && st.goals[q.goalId].userId == caller && strictQuery && GoalsOwnedBy(st.goals, caller) != map[])
      && (code == OK ==> listed == GoalsOwnedBy(st.goals, caller))
      && milestone == map[]
    ensures !Present(q.id) && !Present(q.userId) && !Present(q.goalId) ==> code == NoReply
    ensures code != OK ==> milestone == map[] && listed == map[]
  {
    milestone, listed := map[], map[];
    if Present(q.id) {
      if q.id !in st.milestones {
        return NotFound, milestone, listed;
      }
      var found := st.milestones[q.id];
      if found.userId != caller {
        return Forbidden, milestone, listed;
      }
      return OK, map[q.id := found], listed;
    } else if Present(q.userId) {
      if caller != q.userId {
        return Forbidden, milestone, listed;
      }
      var goals := GoalsOwnedBy(st.goals, q.userId);
      if |goals| == 0 {
        return NotFound, milestone, listed;
      }
      return OK, milestone, goals;
    } else if Present(q.goalId) {
      if q.goalId !in st.goals {
        return NotFound, milestone, listed;
      }
      if caller != st.goals[q.goalId].userId {
        return Forbidden, milestone, listed;
      }
      var goals := if strictQuery then GoalsOwnedBy(st.goals, caller) else map[];
      if |goals| == 0 {
        return NotFound, milestone, listed;
      }
      return OK, milestone, goals;
    }
    return NoReply, milestone, listed;
  }

  /** GET /milestones with the two list queries reading the Milestone table. */
  method GetMilestonesFixed(st: Store, caller: Id, q: MilestoneQuery) returns (code: int, found: map<Id, Milestone>)
    ensures Present(q.id) ==>
      && (code == NotFound <==> q.id !in st.milestones)
      && (code == Forbidden <==> q.id in st.milestones && st.milestones[q.id].userId != caller)
      && (code == OK <==> q.id in st.milestones && st.milestones[q.id].userId == caller)
      && (code == OK ==> found == map[q.id := st.milestones[q.id]])
    ensures !Present(q.id) && Present(q.userId) ==>
      && (code == Forbidden <==> q.userId != caller)
      && (code == NotFound <==> q.userId == caller && MilestonesOwnedBy(st.milestones, caller) == map[])
      && (code == OK <==> q.userId == caller && MilestonesOwnedBy(st.milestones, caller) != map[])
      && (code == OK ==> found == MilestonesOwnedBy(st.milestones, caller))
    ensures !Present(q.id) && !Present(q.userId) && Present(q.goalId) ==>
      && (code == NotFound <==>
            (q.goalId !in st.goals || (st.goals[q.goalId].userId == caller && MilestonesOfGoal(st.milestones, q.goalId, caller) == map[])))
      && (code == Forbidden <==> q.goalId in st.goals && st.goals[q.goalId].userId != caller)
      && (code == OK <==>
            q.goalId in st.goals && st.goals[q.goalId].userId == caller
            && MilestonesOfGoal(st.milestones, q.goalId, caller) != map[])
      && (code == OK ==> found == MilestonesOfGoal(st.milestones, q.goalId, caller))
    ensures !Present(q.id) && !Present(q.userId) && !Present(q.goalId) ==> code == NoReply
    ensures code == OK ==> found != map[] && forall m :: m in found ==> found[m].userId == caller
    ensures code != OK ==> found == map[]
  {
    found := map[];
    if Present(q.id) {
      if q.id !in st.milestones {
        return NotFound, found;
      }
      var m := st.milestones[q.id];
      if m.userId != caller {
        return Forbidden, found;
      }
      found := map[q.id := m];
      assert q.id in found;
      return OK, found;
    } else if Present(q.userId) {
      if caller != q.userId {
        return Forbidden, found;
      }
      var ms := MilestonesOwnedBy(st.milestones, q.userId);
      if |ms| == 0 {
        return NotFound, found;
      }
      return OK, ms;
    } else if Present(q.goalId) {
      if q.goalId !in st.goals {
        return NotFound, found;
      }
      if caller != st.goals[q.goalId].userId {
        return Forbidden, found;
      }
      var ms := MilestonesOfGoal(st.milestones, q.goalId, caller);
      if |ms| == 0 {
        return NotFound, found;
      }
      return OK, ms;
    }
    return NoReply, found;
  }

  // ---------------------------------------------------------------------------
  // POST /milestones

  /** POST /milestones. An unknown goal is answered with 409, like a duplicate.
      The milestone's `numOfLogs` has no schema default: it starts at `initialLogs`.
      The goal's owner is not checked. */
  function CreateMilestone(db: Db, caller: Id, form: MilestoneForm, newId: Id, initialLogs: int): (r: Outcome)
    requires newId !in db.milestones
    ensures r.code == BadRequest <==> !Complete(form)
    ensures r.code == Conflict <==> Complete(form) && (form.goalId !in db.goals || Duplicate(db.milestones, form))
    ensures r.code == Created <==> Complete(form) && form.goalId in db.goals && !Duplicate(db.milestones, form)
    ensures r.code != Created ==> r.db == db
    ensures r.code == Created ==>
      && r.db == db.(milestones := r.db.milestones, goals := r.db.goals)
      && r.db.milestones.Keys == db.milestones.Keys + {newId}
      && (forall m :: m in db.milestones ==> r.db.milestones[m] == db.milestones[m])
      && r.db.milestones[newId] == Milestone(caller, form.goalId, form.title, form.description, form.endDate, initialLogs, false)
      && OnlyAt(r.db.goals, db.goals, form.goalId)
      && r.db.goals[form.goalId].numOfMilestones == db.goals[form.goalId].numOfMilestones + 1
      && r.db.goals[form.goalId] == db.goals[form.goalId].(numOfMilestones := r.db.goals[form.goalId].numOfMilestones)
  {
    if !Complete(form) then Outcome(BadRequest, db)
    else if form.goalId !in db.goals then Outcome(Conflict, db)
    else if Duplicate(db.milestones, form) then Outcome(Conflict, db)
    else
      var m := Milestone(caller, form.goalId, form.title, form.description, form.endDate, initialLogs, false);
      var g := db.goals[form.goalId];
      Outcome(Created, db.(milestones := db.milestones[newId := m],
                           goals := db.goals[form.goalId := g.(numOfMilestones := g.numOfMilestones + 1)]))
  }

  method PostMilestone(st: Store, caller: Id, form: MilestoneForm, newId: Id, initialLogs: int) returns (code: int)
    requires newId !in st.milestones
    modifies st
    ensures Outcome(code, st.State()) == CreateMilestone(old(st.State()), caller, form, newId, initialLogs)
  {
    if !Complete(form) {
      return BadRequest;
    }
    if form.goalId !in st.goals {
      return Conflict;
    }
    var goal := st.goals[form.goalId];
    if exists m :: m in st.milestones && st.milestones[m].title == form.title
        && st.milestones[m].endDate == form.endDate && st.milestones[m].goalId == form.goalId {
      return Conflict;
    }
    st.milestones := st.milestones[newId := Milestone(caller, form.goalId, form.title, form.description, form.endDate, initialLogs, false)];
    goal := goal.(numOfMilestones := goal.numOfMilestones + 1);
    st.goals := st.goals[form.goalId := goal];
    return Created;
  }

  // ---------------------------------------------------------------------------
  // PUT /milestones/:id?edit=finish|resume|...

  /** PUT /milestones/:id as written. After the 404 and 403 checks the parent
      goal is looked up; where the branch then touches a missing goal, the
      TypeError becomes a 500 and nothing has been saved. */
  function EditMilestone(db: Db, caller: Id, id: Id, edit: string, form: MilestoneEdit): (r: Outcome)
    ensures r.code == NotFound <==> id !in db.milestones
    ensures r.code == Forbidden <==> id in db.milestones && db.milestones[id].userId != caller
    ensures r.code in {NotFound, Forbidden, ServerError} ==> r.db == db
    ensures Owned(db, caller, id) && edit in {"finish", "resume"} && !ParentPresent(db, id) ==> r.code == ServerError
    // finish: the milestone becomes complete and the goal's finished-counter
    // rises by one, whatever the milestone's state was
    ensures Owned(db, caller, id) && edit == "finish" && ParentPresent(db, id) ==>
      var m, g := db.milestones[id], db.milestones[id].goalId;
      && r.code == Created
      && r.db == db.(milestones := r.db.milestones, goals := r.db.goals)
      && OnlyAt(r.db.milestones, db.milestones, id) && r.db.milestones[id] == m.(isComplete := true)
      && OnlyAt(r.db.goals, db.goals, g)
      && r.db.goals[g].numOfMilestonesFinished == db.goals[g].numOfMilestonesFinished + 1
      && r.db.goals[g] == db.goals[g].(numOfMilestonesFinished := r.db.goals[g].numOfMilestonesFinished)
    // resume: a complete milestone becomes incomplete and the counter drops by
    // one; an incomplete one changes nothing
    ensures Owned(db, caller, id) && edit == "resume" && ParentPresent(db, id) ==>
      var m, g := db.milestones[id], db.milestones[id].goalId;
      && r.code == Created
      && (!m.isComplete ==> r.db == db)
      && (m.isComplete ==>
          && r.db == db.(milestones := r.db.milestones, goals := r.db.goals)
          && OnlyAt(r.db.milestones, db.milestones, id) && r.db.milestones[id] == m.(isComplete := false)
          && OnlyAt(r.db.goals, db.goals, g)
          && r.db.goals[g].numOfMilestonesFinished == db.goals[g].numOfMilestonesFinished - 1
          && r.db.goals[g] == db.goals[g].(numOfMilestonesFinished := r.db.goals[g].numOfMilestonesFinished))
    // any other selector: title, description and endDate are overwritten;
    // completion, counters and the goal table are untouched
    ensures Owned(db, caller, id) && edit !in {"finish", "resume"} ==>
      && r.code == Created
      && r.db == db.(milestones := r.db.milestones)
      && OnlyAt(r.db.milestones, db.milestones, id)
      && var m, after := db.milestones[id], r.db.milestones[id];
      && after.title == form.title && after.description == form.description && after.endDate == form.endDate
      && after.isComplete == m.isComplete && after.numOfLogs == m.numOfLogs
      && after.userId == m.userId && after.goalId == m.goalId
  {
    if id !in db.milestones then Outcome(NotFound, db)
    else
      var m := db.milestones[id];
      if m.userId != caller then Outcome(Forbidden, db)
      else if edit == "finish" then
        if m.goalId !in db.goals then Outcome(ServerError, db)
        else
          var g := db.goals[m.goalId];
          Outcome(Created, db.(milestones := db.milestones[id := m.(isComplete := true)],
                               goals := db.goals[m.goalId := g.(numOfMilestonesFinished := g.numOfMilestonesFinished + 1)]))
      else if edit == "resume" then
        if m.goalId !in db.goals then Outcome(ServerError, db)
        else if m.isComplete then
          var g := db.goals[m.goalId];
          Outcome(Created, db.(milestones := db.milestones[id := m.(isComplete := false)],
                               goals := db.goals[m.goalId := g.(numOfMilestonesFinished := g.numOfMilestonesFinished - 1)]))
        else Outcome(Created, db)
      else
        Outcome(Created, db.(milestones := db.milestones[id := m.(title := form.title, description := form.description, endDate := form.endDate)]))
  }

  method PutMilestone(st: Store, caller: Id, id: Id, edit: string, form: MilestoneEdit) returns (code: int)
    modifies st
    ensures Outcome(code, st.State()) == EditMilestone(old(st.State()), caller, id, edit, form)
  {
    if id !in st.milestones {
      return NotFound;
    }
    var m := st.milestones[id];
    if m.userId != caller {
      return Forbidden;
    }
    var foundGoal := if m.goalId in st.goals then Some(st.goals[m.goalId]) else None;
    if edit == "finish" {
      m := m.(isComplete := true);
      if foundGoal.None? {
        return ServerError;
      }
      // As written: the counter rises even when the milestone was already complete.
      var g := foundGoal.value;
      g := g.(numOfMilestonesFinished := g.numOfMilestonesFinished + 1);
      st.milestones := st.milestones[id := m];
      st.goals := st.goals[m.goalId := g];
      return Created;
    } else if edit == "resume" {
      if m.isComplete {
        m := m.(isComplete := false);
        if foundGoal.None? {
          return ServerError;
        }
        var g := foundGoal.value;
        g := g.(numOfMilestonesFinished := g.numOfMilestonesFinished - 1);
        st.milestones := st.milestones[id := m];
        st.goals := st.goals[m.goalId := g];
        return Created;
      }
      if foundGoal.None? {
        return ServerError;
      }
      return Created;
    } else {
      m := m.(title := form.title);
      m := m.(description := form.description);
      m := m.(endDate := form.endDate);
      st.milestones := st.milestones[id := m];
      return Created;
    }
  }

  /** PUT /milestones/:id with `finish` made idempotent: finishing a milestone
      that is already complete changes nothing. */
  function EditMilestoneFixed(db: Db, caller: Id, id: Id, edit: string, form: MilestoneEdit): (r: Outcome)
    ensures Owned(db, caller, id) && edit == "finish" && db.milestones[id].isComplete ==> r == Outcome(Created, db)
    ensures !(Owned(db, caller, id) && edit == "finish" && db.milestones[id].isComplete) ==>
      r == EditMilestone(db, caller, id, edit, form)
    ensures Owned(db, caller, id) && ParentPresent(db, id) && edit == "finish" ==>
      var g := db.milestones[id].goalId;
      && r.code == Created && g in r.db.goals && id in r.db.milestones && r.db.milestones[id].isComplete
      && (r.db.goals[g].numOfMilestonesFinished == db.goals[g].numOfMilestonesFinished + 1 <==> !db.milestones[id].isComplete)
      && (r.db.goals[g].numOfMilestonesFinished == db.goals[g].numOfMilestonesFinished <==> db.milestones[id].isComplete)
  {
    if Owned(db, caller, id) && edit == "finish" && db.milestones[id].isComplete then Outcome(Created, db)
    else EditMilestone(db, caller, id, edit, form)
  }

  /** As written, finishing twice raises the finished-counter by two. */
  lemma FinishTwiceCountsTwice(db: Db, caller: Id, id: Id, form: MilestoneEdit)
    requires Owned(db, caller, id) && ParentPresent(db, id)
    ensures var once := EditMilestone(db, caller, id, "finish", form);
      var twice := EditMilestone(once.db, caller, id, "finish", form);
      var g := db.milestones[id].goalId;
      && twice.code == Created
      && twice.db.goals[g].numOfMilestonesFinished == db.goals[g].numOfMilestonesFinished + 2
  {
    var once := EditMilestone(db, caller, id, "finish", form);
    assert Owned(once.db, caller, id) && ParentPresent(once.db, id);
  }

  /** Corrected: a second `finish` is a no-op. */
  lemma FinishFixedIdempotent(db: Db, caller: Id, id: Id, form: MilestoneEdit)
    requires Owned(db, caller, id)
    ensures var once := EditMilestoneFixed(db, caller, id, "finish", form);
      EditMilestoneFixed(once.db, caller, id, "finish", form).db == once.db
  {
    var once := EditMilestoneFixed(db, caller, id, "finish", form);
    if ParentPresent(db, id) || db.milestones[id].isComplete {
      assert Owned(once.db, caller, id) && once.db.milestones[id].isComplete;
    }
  }

  /** `finish` followed by `resume` puts the goal table back as it was (in
      both versions), and leaves the whole store as it was when the milestone
      started incomplete. */
  lemma FinishThenResume(db: Db, caller: Id, id: Id, form: MilestoneEdit)
    requires Owned(db, caller, id) && ParentPresent(db, id)
    ensures var f := EditMilestone(db, caller, id, "finish", form);
      var r := EditMilestone(f.db, caller, id, "resume", form);
      && r.code == Created
      && r.db.goals == db.goals
      && (!db.milestones[id].isComplete ==> r.db == db)
  {
    var f := EditMilestone(db, caller, id, "finish", form);
    assert Owned(f.db, caller, id) && ParentPresent(f.db, id);
    var g := db.milestones[id].goalId;
    var r := EditMilestone(f.db, caller, id, "resume", form);
    assert r.db.goals == f.db.goals[g := db.goals[g]];
    if !db.milestones[id].isComplete {
      assert r.db.milestones == db.milestones;
    }
  }

  // ---------------------------------------------------------------------------
  // DELETE /milestones/:id

  /** DELETE /milestones/:id as written: the milestone's logs are removed, then
      the goal's counters are lowered on the loaded copy, which is never saved,
      then the milestone is removed. A missing goal throws after the logs are
      gone. */
  function RemoveMilestone(db: Db, caller: Id, id: Id): (r: Outcome)
    ensures r.code == NotFound <==> id !in db.milestones
    ensures r.code == Forbidden <==> id in db.milestones && db.milestones[id].userId != caller
    ensures r.code in {NotFound, Forbidden} ==> r.db == db
    ensures Owned(db, caller, id) && !ParentPresent(db, id) ==>
      r.code == ServerError && r.db == db.(logs := WithoutLogsOfMilestone(db.logs, id))
    ensures Owned(db, caller, id) && ParentPresent(db, id) ==>
      && r.code == Created
      && r.db.users == db.users
      && r.db.goals == db.goals
      && r.db.milestones == db.milestones - {id}
      && r.db.logs == WithoutLogsOfMilestone(db.logs, id)
  {
    if id !in db.milestones then Outcome(NotFound, db)
    else
      var m := db.milestones[id];
      if m.userId != caller then Outcome(Forbidden, db)
      else
        var logs := WithoutLogsOfMilestone(db.logs, id);
        if m.goalId !in db.goals then Outcome(ServerError, db.(logs := logs))
        else Outcome(Created, db.(logs := logs, milestones := db.milestones - {id}))
  }

  method DeleteMilestone(st: Store, caller: Id, id: Id) returns (code: int)
    modifies st
    ensures Outcome(code, st.State()) == RemoveMilestone(old(st.State()), caller, id)
  {
    if id !in st.milestones {
      return NotFound;
    }
    var m := st.milestones[id];
    if m.userId != caller {
      return Forbidden;
    }
    st.logs := WithoutLogsOfMilestone(st.logs, id);
    if m.goalId !in st.goals {
      return ServerError;
    }
    var g := st.goals[m.goalId];
    if m.isComplete {
      g := g.(numOfMilestonesFinished := g.numOfMilestonesFinished - 1);
    }
    g := g.(numOfMilestones := g.numOfMilestones - 1);
    // As written: `g` is never saved, so the goal table keeps the old counters.
    st.milestones := st.milestones - {id};
    return Created;
  }

  /** DELETE /milestones/:id with the lowered goal counters saved. */
  function RemoveMilestoneFixed(db: Db, caller: Id, id: Id): (r: Outcome)
    ensures r.code == NotFound <==> id !in db.milestones
    ensures r.code == Forbidden <==> id in db.milestones && db.milestones[id].userId != caller
    ensures !(Owned(db, caller, id) && ParentPresent(db, id)) ==> r == RemoveMilestone(db, caller, id)
    ensures Owned(db, caller, id) && ParentPresent(db, id) ==>
      var m, g := db.milestones[id], db.milestones[id].goalId;
      && r.code == Created
      && r.db.users == db.users
      && r.db.milestones == db.milestones - {id}
      && r.db.logs == WithoutLogsOfMilestone(db.logs, id)
      && OnlyAt(r.db.goals, db.goals, g)
      && r.db.goals[g].numOfMilestones == db.goals[g].numOfMilestones - 1
      && r.db.goals[g].numOfMilestonesFinished == db.goals[g].numOfMilestonesFinished - (if m.isComplete then 1 else 0)
      && r.db.goals[g] == db.goals[g].(numOfMilestones := r.db.goals[g].numOfMilestones,
                                       numOfMilestonesFinished := r.db.goals[g].numOfMilestonesFinished)
  {
    if Owned(db, caller, id) && ParentPresent(db, id) then
      var m := db.milestones[id];
      var g := db.goals[m.goalId];
      var g' := g.(numOfMilestones := g.numOfMilestones - 1,
                   numOfMilestonesFinished := g.numOfMilestonesFinished - (if m.isComplete then 1 else 0));
      var r := RemoveMilestone(db, caller, id);
      Outcome(r.code, r.db.(goals := db.goals[m.goalId := g']))
    else RemoveMilestone(db, caller, id)
  }

  /** Creating a milestone and deleting it again (corrected delete) restores
      the store, provided no log already named the new id. */
  lemma CreateThenRemoveFixed(db: Db, caller: Id, form: MilestoneForm, newId: Id)
    requires newId !in db.milestones
    requires forall l :: l in db.logs ==> db.logs[l].milestoneId != newId
    requires CreateMilestone(db, caller, form, newId, 0).code == Created
    ensures RemoveMilestoneFixed(CreateMilestone(db, caller, form, newId, 0).db, caller, newId) == Outcome(Created, db)
  {
    var c := CreateMilestone(db, caller, form, newId, 0);
    assert Owned(c.db, caller, newId) && ParentPresent(c.db, newId);
    var r := RemoveMilestoneFixed(c.db, caller, newId);
    assert r.db.milestones == db.milestones;
    assert r.db.logs == db.logs;
    assert r.db.goals == db.goals;
  }
}
