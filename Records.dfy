/** The four tables of the goal tracker (users, goals, milestones, logs),
    the status codes the route handlers answer with, and the store the
    handlers update in place. */
module Records {

  /** Record ids (Mongo `_id` values) and user ids, as the strings the routes compare. */
  type Id = string

  /** Dates are opaque values, compared only for equality. */
  type Date = string

  datatype Option<T> = None | Some(value: T)

  // Status codes of the route handlers.
  const OK: int := 200
  const Created: int := 201
  const BadRequest: int := 400
  const Unauthorized: int := 401
  const Forbidden: int := 403
  const NotFound: int := 404
  const Conflict: int := 409
  /** An exception escaped the handler; Express's default error handler answers 500. */
  const ServerError: int := 500
  /** The handler returned without sending any response. */
  const NoReply: int := 0

  /** A request field or query parameter is present when JavaScript finds it
      truthy; an absent field is modelled as the empty string. */
  predicate Present(s: string) {
    |s| > 0
  }

  /** A user record: name, e-mail, password hash, picture path and the single
      session-token slot. */
  datatype User = User(
    firstName: string,
    lastName: string,
    email: string,
    password: string,
    profilePicture: string,
    refreshToken: string,
    createdAt: nat)

  /** A goal record (server/models/goals.js). The three counters have no schema default. */
  datatype Goal = Goal(
    userId: Id,
    title: string,
    description: string,
    endDate: Date,
    startDate: Date,
    numOfMilestonesFinished: int,
    numOfMilestones: int,
    numOfLogs: int)

  /** A milestone record (server/models/milestones.js); `isComplete` defaults to false. */
  datatype Milestone = Milestone(
    userId: Id,
    goalId: Id,
    title: string,
    description: string,
    endDate: Date,
    numOfLogs: int,
    isComplete: bool)

  /** A log record (server/models/logs.js); `images` holds upload paths. */
  datatype Log = Log(
    userId: Id,
    milestoneId: Id,
    goalId: Id,
    title: string,
    description: string,
    date: Date,
    images: seq<string>)

  /** The contents of the four collections, keyed by `_id`. */
  datatype Db = Db(
    users: map<Id, User>,
    goals: map<Id, Goal>,
    milestones: map<Id, Milestone>,
    logs: map<Id, Log>)

  /** What a handler answers and what the collections hold afterwards. */
  datatype Outcome = Outcome(code: int, db: Db)

  /** The persistent collections, updated in place by the route handlers. */
  class Store {
    var users: map<Id, User>
    var goals: map<Id, Goal>
    var milestones: map<Id, Milestone>
    var logs: map<Id, Log>

    /** The value of the four collections. */
    function State(): (r: Db)
      reads this
    {
      Db(users, goals, milestones, logs)
    }
  }

  /** The table differs from `before` at most at key `k`, which both hold. */
  predicate OnlyAt<T(==)>(after: map<Id, T>, before: map<Id, T>, k: Id) {
    k in before && k in after && after == before[k := after[k]]
  }

  // Selections that the handlers' `find` queries make.

  function GoalsOwnedBy(goals: map<Id, Goal>, u: Id): (r: map<Id, Goal>) {
    map g | g in goals && goals[g].userId == u :: goals[g]
  }

  function MilestonesOwnedBy(milestones: map<Id, Milestone>, u: Id): (r: map<Id, Milestone>) {
    map m | m in milestones && milestones[m].userId == u :: milestones[m]
  }

  function MilestonesOfGoal(milestones: map<Id, Milestone>, g: Id, u: Id): (r: map<Id, Milestone>) {
    map m | m in milestones && milestones[m].goalId == g && milestones[m].userId == u :: milestones[m]
  }

  function LogsOwnedBy(logs: map<Id, Log>, u: Id): (r: map<Id, Log>) {
    map l | l in logs && logs[l].userId == u :: logs[l]
  }

  function LogsOfMilestone(logs: map<Id, Log>, m: Id): (r: map<Id, Log>) {
    map l | l in logs && logs[l].milestoneId == m :: logs[l]
  }

  function LogsOfGoal(logs: map<Id, Log>, g: Id): (r: map<Id, Log>) {
    map l | l in logs && logs[l].goalId == g :: logs[l]
  }

  function LogsOnDate(logs: map<Id, Log>, date: Date, u: Id): (r: map<Id, Log>) {
    map l | l in logs && logs[l].date == date && logs[l].userId == u :: logs[l]
  }

  /** `deleteMany({milestoneId: m})`: the log table without the logs of milestone `m`. */
  function WithoutLogsOfMilestone(logs: map<Id, Log>, m: Id): (r: map<Id, Log>)
    ensures forall l :: l in r <==> l in logs && logs[l].milestoneId != m
    ensures forall l :: l in r ==> r[l] == logs[l]
  {
    map l | l in logs && logs[l].milestoneId != m :: logs[l]
  }

  /** `deleteMany({goalId: g})` on the log table. */
  function WithoutLogsOfGoal(logs: map<Id, Log>, g: Id): (r: map<Id, Log>)
    ensures forall l :: l in r <==> l in logs && logs[l].goalId != g
    ensures forall l :: l in r ==> r[l] == logs[l]
  {
    map l | l in logs && logs[l].goalId != g :: logs[l]
  }

  /** `deleteMany({goalId: g})` on the milestone table. */
  function WithoutMilestonesOfGoal(milestones: map<Id, Milestone>, g: Id): (r: map<Id, Milestone>)
    ensures forall m :: m in r <==> m in milestones && milestones[m].goalId != g
    ensures forall m :: m in r ==> r[m] == milestones[m]
  {
    map m | m in milestones && milestones[m].goalId != g :: milestones[m]
  }
}
