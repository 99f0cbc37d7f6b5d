/** The log routes (server/routes/logs.js). A log belongs to a milestone and a
    goal, and each of those keeps a `numOfLogs` counter that creating and
    deleting a log moves by one. */
module Logs {
  import opened Records

  /** The query parameters of GET /logs ("" when absent). */
  datatype LogQuery = LogQuery(id: string, userId: string, milestoneId: string, goalId: string, date: Date)

  /** The text fields of POST /logs. */
  datatype LogForm = LogForm(milestoneId: string, goalId: string, title: string, description: string, date: Date)

  /** `upload.fields([{ name: 'images', maxCount: 3 }])`. */
  const MaxImages: nat := 3

  predicate Complete(f: LogForm) {
    Present(f.title) && Present(f.description) && Present(f.date) && Present(f.goalId) && Present(f.milestoneId)
  }

  // ---------------------------------------------------------------------------
  // GET /logs

  /** GET /logs, by `id`, `userId`, `milestoneId`, `goalId` or `date`, the first
      present one deciding. The milestone and goal lists check the parent's
      owner but list every log that names the parent. */
  method GetLogs(st: Store, caller: Id, q: LogQuery) returns (code: int, found: map<Id, Log>)
    ensures Present(q.id) ==>
      && (code == NotFound <==> q.id !in st.logs)
      && (code == Forbidden <==> q.id in st.logs && st.logs[q.id].userId != caller)
      && (code == OK <==> q.id in st.logs && st.logs[q.id].userId == caller)
      && (code == OK ==> found == map[q.id := st.logs[q.id]])
    ensures !Present(q.id) && Present(q.userId) ==>
      && (code == Forbidden <==> q.userId != caller)
      && (code == NotFound <==> q.userId == caller && LogsOwnedBy(st.logs, caller) == map[])
      && (code == OK <==> q.userId == caller && LogsOwnedBy(st.logs, caller) != map[])
      && (code == OK ==> found == LogsOwnedBy(st.logs, caller))
    ensures !Present(q.id) && !Present(q.userId) && Present(q.milestoneId) ==>
      && (code == Forbidden <==> q.milestoneId in st.milestones && st.milestones[q.milestoneId].userId != caller)
      && (code == NotFound <==>
            (q.milestoneId !in st.milestones
             || (st.milestones[q.milestoneId].userId == caller && LogsOfMilestone(st.logs, q.milestoneId) == map[])))
      && (code == OK <==>
            q.milestoneId in st.milestones && st.milestones[q.milestoneId].userId == caller
            && LogsOfMilestone(st.logs, q.milestoneId) != map[])
      && (code == OK ==> found == LogsOfMilestone(st.logs, q.milestoneId))
    ensures !Present(q.id) && !Present(q.userId) && !Present(q.milestoneId) && Present(q.goalId) ==>
      && (code == Forbidden <==> q.goalId in st.goals && st.goals[q.goalId].userId != caller)
      && (code == NotFound <==>
            (q.goalId !in st.goals || (st.goals[q.goalId].userId == caller && LogsOfGoal(st.logs, q.goalId) == map[])))
      && (code == OK <==>
            q.goalId in st.goals && st.goals[q.goalId].userId == caller && LogsOfGoal(st.logs, q.goalId) != map[])
      && (code == OK ==> found == LogsOfGoal(st.logs, q.goalId))
    ensures !Present(q.id) && !Present(q.userId) && !Present(q.milestoneId) && !Present(q.goalId) && Present(q.date) ==>
      && (code == NotFound <==> LogsOnDate(st.logs, q.date, caller) == map[])
      && (code == OK <==> LogsOnDate(st.logs, q.date, caller) != map[])
      && (code == OK ==> found == LogsOnDate(st.logs, q.date, caller))
    ensures !Present(q.id) && !Present(q.userId) && !Present(q.milestoneId) && !Present(q.goalId) && !Present(q.date) ==>
      code == NoReply
    ensures code in {OK, NotFound, Forbidden, NoReply}
    ensures code == OK ==> found != map[]
    ensures code != OK ==> found == map[]
  {
    found := map[];
    if Present(q.id) {
      if q.id !in st.logs {
        return NotFound, found;
      }
      var log := st.logs[q.id];
      if log.userId != caller {
        return Forbidden, found;
      }
      found := map[q.id := log];
      assert q.id in found;
      return OK, found;
    } else if Present(q.userId) {
      if caller != q.userId {
        return Forbidden, found;
      }
      var logs := LogsOwnedBy(st.logs, q.userId);
      if |logs| == 0 {
        return NotFound, found;
      }
      return OK, logs;
    } else if Present(q.milestoneId) {
      if q.milestoneId !in st.milestones {
        return NotFound, found;
      }
      if caller != st.milestones[q.milestoneId].userId {
        return Forbidden, found;
      }
      var logs := LogsOfMilestone(st.logs, q.milestoneId);
      if |logs| == 0 {
        return NotFound, found;
      }
      return OK, logs;
    } else if Present(q.goalId) {
      if q.goalId !in st.goals {
        return NotFound, found;
      }
      if caller != st.goals[q.goalId].userId {
        return Forbidden, found;
      }
      var logs := LogsOfGoal(st.logs, q.goalId);
      if |logs| == 0 {
        return NotFound, found;
      }
      return OK, logs;
    } else if Present(q.date) {
      var logs := LogsOnDate(st.logs, q.date, caller);
      if |logs| == 0 {
        return NotFound, found;
      }
      return OK, logs;
    }
    return NoReply, found;
  }

  // ---------------------------------------------------------------------------
  // POST /logs

  /** POST /logs as the handler evidently means it. `images` are the paths the
      upload middleware stored; more than three files are refused by the
      middleware before the handler runs, and Express answers that error with
      500. Neither the goal's nor the milestone's owner is checked, nor that
      the milestone belongs to the goal. */
  function CreateLog(db: Db, caller: Id, form: LogForm, images: seq<string>, newId: Id): (r: Outcome)
    requires newId !in db.logs
    ensures r.code == ServerError <==> |images| > MaxImages
    ensures r.code == BadRequest <==> |images| <= MaxImages && !Complete(form)
    ensures r.code == NotFound <==>
      |images| <= MaxImages && Complete(form) && (form.goalId !in db.goals || form.milestoneId !in db.milestones)
    ensures r.code == Created <==>
      |images| <= MaxImages && Complete(form) && form.goalId in db.goals && form.milestoneId in db.milestones
    ensures r.code != Created ==> r.db == db
    ensures r.code == Created ==>
      && r.db.users == db.users
      && r.db.logs == db.logs[newId := Log(caller, form.milestoneId, form.goalId, form.title, form.description, form.date, images)]
      && |r.db.logs[newId].images| <= MaxImages
      && OnlyAt(r.db.goals, db.goals, form.goalId)
      && r.db.goals[form.goalId] == db.goals[form.goalId].(numOfLogs := db.goals[form.goalId].numOfLogs + 1)
      && OnlyAt(r.db.milestones, db.milestones, form.milestoneId)
      && r.db.milestones[form.milestoneId] == db.milestones[form.milestoneId].(numOfLogs := db.milestones[form.milestoneId].numOfLogs + 1)
  {
    if |images| > MaxImages then Outcome(ServerError, db)
    else if !Complete(form) then Outcome(BadRequest, db)
    else if form.goalId !in db.goals then Outcome(NotFound, db)
    else if form.milestoneId !in db.milestones then Outcome(NotFound, db)
    else
      var g := db.goals[form.goalId];
      var m := db.milestones[form.milestoneId];
      var log := Log(caller, form.milestoneId, form.goalId, form.title, form.description, form.date, images);
      Outcome(Created, db.(logs := db.logs[newId := log],
                           goals := db.goals[form.goalId := g.(numOfLogs := g.numOfLogs + 1)],
                           milestones := db.milestones[form.milestoneId := m.(numOfLogs := m.numOfLogs + 1)]))
  }

  /** POST /logs as written. Any uploaded file makes the upload middleware's
      destination callback call `fs.mkdirSync`, and logs.js never imports
      `fs`: 500 before the handler runs. Without files the handler passes its
      checks and then reads `images`, which is declared only inside the two
      branches of the `if`: a ReferenceError, 500, before anything is saved.
      So no request ever creates a log. */
  function CreateLogAsWritten(db: Db, caller: Id, form: LogForm, images: seq<string>): (r: Outcome)
    ensures r.db == db
    ensures r.code != Created
    ensures r.code == BadRequest <==> |images| == 0 && !Complete(form)
    ensures r.code == NotFound <==> |images| == 0 && Complete(form) && (form.goalId !in db.goals || form.milestoneId !in db.milestones)
    ensures r.code == ServerError <==>
      |images| > 0 || (Complete(form) && form.goalId in db.goals && form.milestoneId in db.milestones)
  {
    if |images| > 0 then Outcome(ServerError, db)
    else if !Complete(form) then Outcome(BadRequest, db)
    else if form.goalId !in db.goals then Outcome(NotFound, db)
    else if form.milestoneId !in db.milestones then Outcome(NotFound, db)
    else Outcome(ServerError, db)
  }

  /** The as-written handler and the corrected one agree on every refusal;
      where the corrected one creates a log, the as-written one answers 500. */
  lemma AsWrittenNeverCreates(db: Db, caller: Id, form: LogForm, images: seq<string>, newId: Id)
    requires newId !in db.logs
    ensures var fixed, written := CreateLog(db, caller, form, images, newId), CreateLogAsWritten(db, caller, form, images);
      && (fixed.code == Created ==> written == Outcome(ServerError, db))
      && (|images| == 0 && fixed.code != Created ==> written == fixed)
  {
  }

  method PostLog(st: Store, caller: Id, form: LogForm, images: seq<string>, newId: Id) returns (code: int)
    requires newId !in st.logs
    modifies st
    ensures Outcome(code, st.State()) == CreateLog(old(st.State()), caller, form, images, newId)
  {
    if |images| > MaxImages {
      return ServerError;
    }
    if !Complete(form) {
      return BadRequest;
    }
    if form.goalId !in st.goals {
      return NotFound;
    }
    var goal := st.goals[form.goalId];
    if form.milestoneId !in st.milestones {
      return NotFound;
    }
    var milestone := st.milestones[form.milestoneId];
    st.logs := st.logs[newId := Log(caller, form.milestoneId, form.goalId, form.title, form.description, form.date, images)];
    goal := goal.(numOfLogs := goal.numOfLogs + 1);
    st.goals := st.goals[form.goalId := goal];
    milestone := milestone.(numOfLogs := milestone.numOfLogs + 1);
    st.milestones := st.milestones[form.milestoneId := milestone];
    return Created;
  }

  // ---------------------------------------------------------------------------
  // DELETE /logs/:id

  /** DELETE /logs/:id. The goal is decremented and saved before the milestone
      is loaded; a missing goal throws before any save, a missing milestone
      throws after the goal's save. */
  function RemoveLog(db: Db, caller: Id, id: Id): (r: Outcome)
    ensures r.code == NotFound <==> id !in db.logs
    ensures r.code == Forbidden <==> id in db.logs && db.logs[id].userId != caller
    ensures r.code in {NotFound, Forbidden} ==> r.db == db
    ensures id in db.logs && db.logs[id].userId == caller ==>
      var log := db.logs[id];
      && (log.goalId !in db.goals ==> r == Outcome(ServerError, db))
      && (log.goalId in db.goals && log.milestoneId !in db.milestones ==>
            && r.code == ServerError
            && r.db == db.(goals := db.goals[log.goalId := db.goals[log.goalId].(numOfLogs := db.goals[log.goalId].numOfLogs - 1)]))
      && (log.goalId in db.goals && log.milestoneId in db.milestones ==>
            && r.code == Created
            && r.db.users == db.users
            && r.db.logs == db.logs - {id}
            && OnlyAt(r.db.goals, db.goals, log.goalId)
            && r.db.goals[log.goalId] == db.goals[log.goalId].(numOfLogs := db.goals[log.goalId].numOfLogs - 1)
            && OnlyAt(r.db.milestones, db.milestones, log.milestoneId)
            && r.db.milestones[log.milestoneId]
               == db.milestones[log.milestoneId].(numOfLogs := db.milestones[log.milestoneId].numOfLogs - 1))
  {
    if id !in db.logs then Outcome(NotFound, db)
    else
      var log := db.logs[id];
      if log.userId != caller then Outcome(Forbidden, db)
      else if log.goalId !in db.goals then Outcome(ServerError, db)
      else
        var g := db.goals[log.goalId];
        var afterGoal := db.(goals := db.goals[log.goalId := g.(numOfLogs := g.numOfLogs - 1)]);
        if log.milestoneId !in db.milestones then Outcome(ServerError, afterGoal)
        else
          var m := db.milestones[log.milestoneId];
          Outcome(Created, afterGoal.(milestones := db.milestones[log.milestoneId := m.(numOfLogs := m.numOfLogs - 1)],
                                      logs := db.logs - {id}))
  }

  method DeleteLog(st: Store, caller: Id, id: Id) returns (code: int)
    modifies st
    ensures Outcome(code, st.State()) == RemoveLog(old(st.State()), caller, id)
  {
    if id !in st.logs {
      return NotFound;
    }
    var log := st.logs[id];
    if log.userId != caller {
      return Forbidden;
    }
    var foundGoal := if log.goalId in st.goals then Some(st.goals[log.goalId]) else None;
    var foundMilestone := if log.milestoneId in st.milestones then Some(st.milestones[log.milestoneId]) else None;
    if foundGoal.None? {
      return ServerError;
    }
    var g := foundGoal.value;
    g := g.(numOfLogs := g.numOfLogs - 1);
    st.goals := st.goals[log.goalId := g];
    if foundMilestone.None? {
      return ServerError;
    }
    var m := foundMilestone.value;
    m := m.(numOfLogs := m.numOfLogs - 1);
    st.milestones := st.milestones[log.milestoneId := m];
    st.logs := st.logs - {id};
    return Created;
  }

  /** Creating a log and deleting it again restores every table. */
  lemma CreateThenRemove(db: Db, caller: Id, form: LogForm, images: seq<string>, newId: Id)
    requires newId !in db.logs
    requires CreateLog(db, caller, form, images, newId).code == Created
    ensures RemoveLog(CreateLog(db, caller, form, images, newId).db, caller, newId) == Outcome(Created, db)
  {
    var c := CreateLog(db, caller, form, images, newId);
    var r := RemoveLog(c.db, caller, newId);
    assert r.db.logs == db.logs;
    assert r.db.goals == db.goals;
    assert r.db.milestones == db.milestones;
  }
}
