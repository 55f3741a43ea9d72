/**
 * The auth flows as concurrent requests over the Redis store. A request stops at every await
 * and other requests go on; one event is one read or write of the user table, one step of the
 * session store or one reset key command. The order of the events is arbitrary, so what is
 * proved of every sequence of events holds under every interleaving of callers.
 */
module Requests {
  import opened Prelude
  import opened Tables
  import opened SessionModel
  import opened RedisReach
  import R = RedisStore
  import Spec = Auth
  import SessionSafety

  /**
   * What a request does next. `since` numbers the event at which the credentials behind a
   * session still to be opened were verified.
   */
  datatype Task =
    | Login(email: string, password: string)
    | OpenSession(userId: string, since: nat)
    | ChangePassword(subject: Option<string>, current: string, next: string)
    | CheckCurrent(userId: string, email: string, current: string, next: string)
    | StorePassword(userId: string, next: string, reopen: Option<nat>)
    | RevokeSessions(userId: string, reopen: Option<nat>)
    | Refresh(presented: string)
    | Admit(userId: string, refresh: IssuedRefreshToken)
    | CleanUp(userId: string)
    | Logout(presented: string)
    | LogoutAll(subject: Option<string>)
    | RequestReset(email: string)
    | StoreKey(userId: string)
    | ResetPassword(token: string, next: string)
    | Answered(answer: Spec.Answer)

  /** The requests a client can send. */
  predicate IsRequest(t: Task) {
    t.Login? || t.ChangePassword? || t.Refresh? || t.Logout? || t.LogoutAll? || t.RequestReset? || t.ResetPassword?
  }

  /** A request arrives, goes on to its next await at some reading of the clock, or an operator acts. */
  datatype Event =
    | Arrive(id: nat, request: Task)
    | Advance(id: nat, now: int, familyId: string, drawn: string)
    | Disable(userId: string)
    | Delete(userId: string)

  /** The tables, the reset keys, the requests under way, and the steps the store has executed. */
  datatype System = System(db: Db, resets: map<string, Spec.ResetKey>, tasks: map<nat, Task>, log: seq<Step>)

  // ------------------------------------------------------------------ one event

  /** What the store answers to the next operation. */
  function Answer(w: System, ttl: int, now: int, op: Op): Outcome {
    R.Perform(R.After(w.log, ttl, |w.log|), ttl, now, op).1
  }

  function Continue(w: System, id: nat, task: Task): System {
    w.(tasks := w.tasks[id := task])
  }

  function Reply(w: System, id: nat, answer: Spec.Answer): System {
    Continue(w, id, Answered(answer))
  }

  /** The store operation a task performs when it goes on, if it performs one. */
  function Calls(task: Task, familyId: string, drawn: string): Option<Op> {
    match task
    case OpenSession(u, _) => Some(Create(u, familyId, drawn))
    case RevokeSessions(u, _) => Some(Op.RevokeUser(u))
    case Refresh(p) => Some(Op.Rotate(p, drawn))
    case CleanUp(u) => Some(Op.RevokeUser(u))
    case Logout(p) => Some(Op.Revoke(p))
    case LogoutAll(Some(u)) => Some(Op.RevokeUser(u))
    case _ => None
  }

  /** What a request does next once the store has answered. */
  function AfterCall(task: Task, ttl: int, now: int, familyId: string, drawn: string, out: Outcome): Task {
    match task
    case OpenSession(u, _) => Answered(Spec.Issued(u, IssuedRefreshToken(drawn, familyId, now + ttl)))
    case RevokeSessions(u, Some(v)) => OpenSession(u, v)
    case Refresh(_) =>
      if out.Rotation? && out.result.Rotated? then Admit(out.result.userId, out.result.refresh)
      else Answered(Spec.Denied)
    case CleanUp(_) => Answered(Spec.Denied)
    case _ => Answered(Spec.Accepted)
  }

  /** The awaits on the user table and the reset keys; k is the number of the event. */
  ghost function Local(w: System, k: nat, id: nat, now: int, drawn: string, task: Task): System {
    match task
    case Login(email, password) =>
      var u := Spec.VerifyCredentials(w.db, email, password);
      if u == None then Reply(w, id, Spec.Denied) else Continue(w, id, OpenSession(u.value, k))
    case ChangePassword(subject, current, next) =>
      if subject == None || !Spec.IsActive(w.db, subject.value) then Reply(w, id, Spec.Denied)
      else Continue(w, id, CheckCurrent(subject.value, w.db.users[subject.value].email, current, next))
    case CheckCurrent(u, email, current, next) =>
      if Spec.VerifyCredentials(w.db, email, current) == None then Reply(w, id, Spec.Denied)
      else Continue(w, id, StorePassword(u, next, Some(k)))
    case StorePassword(u, next, reopen) =>
      if u !in w.db.users then Reply(w, id, Spec.Crashed)
      else Continue(w, id, RevokeSessions(u, reopen)).(db := Spec.WithPassword(w.db, u, next))
    case Admit(u, refresh) =>
      if Spec.IsActive(w.db, u) then Reply(w, id, Spec.Issued(u, refresh)) else Continue(w, id, CleanUp(u))
    case LogoutAll(_) => Reply(w, id, Spec.Denied)
    case RequestReset(email) =>
      var u := Spec.ByEmail(w.db, email);
      if u == None then Reply(w, id, Spec.Accepted) else Continue(w, id, StoreKey(u.value))
    case StoreKey(u) =>
      Reply(w, id, Spec.Accepted).(resets := w.resets[drawn := Spec.ResetKey(u, now + Spec.RESET_TTL_SECONDS)])
    case ResetPassword(token, next) =>
      if token !in w.resets then Reply(w, id, Spec.Rejected)
      else
        var key := w.resets[token];
        var w' := w.(resets := w.resets - {token});
        if now >= key.deadline || key.userId == "" then Reply(w', id, Spec.Rejected)
        else Continue(w', id, StorePassword(key.userId, next, None))
    case _ => w
  }

  ghost function Next(w: System, ttl: int, k: nat, e: Event): System {
    match e
    case Arrive(id, r) => if id in w.tasks || !IsRequest(r) then w else Continue(w, id, r)
    case Advance(id, now, familyId, drawn) =>
      if id !in w.tasks then w
      else
        var task := w.tasks[id];
        (match Calls(task, familyId, drawn)
         case None => Local(w, k, id, now, drawn, task)
         case Some(op) =>
           Continue(w, id, AfterCall(task, ttl, now, familyId, drawn, Answer(w, ttl, now, op)))
             .(log := w.log + [Step(now, op)]))
    case Disable(u) =>
      if u in w.db.users then w.(db := w.db.(users := w.db.users[u := w.db.users[u].(active := false)])) else w
    case Delete(u) => w.(db := w.db.(users := w.db.users - {u}))
  }

  // ------------------------------------------------------------------ runs

  /** Event k takes the system from ws[k] to ws[k + 1]. */
  datatype Run = Run(ttl: int, ws: seq<System>, events: seq<Event>)

  ghost predicate StepOk(run: Run, k: nat)
    requires k < |run.events| && |run.ws| == |run.events| + 1
  {
    run.ws[k + 1] == Next(run.ws[k], run.ttl, k, run.events[k])
  }

  /** A run starts without sessions, reset keys and requests. */
  ghost predicate IsRun(run: Run) {
    && |run.ws| == |run.events| + 1
    && run.ws[0] == System(run.ws[0].db, map[], map[], []) && Spec.UniqueEmails(run.ws[0].db)
    && forall k | 0 <= k < |run.events| :: StepOk(run, k)
  }

  /** Every step the store executes in the run. */
  ghost function Log(run: Run): seq<Step>
    requires IsRun(run)
  {
    run.ws[|run.events|].log
  }

  /** Randomness never repeats and the clock never runs backwards. */
  ghost predicate Sound(run: Run) {
    IsRun(run) && run.ttl > 0 && FreshRun(Log(run)) && ClockRun(Log(run))
  }

  /** The task that event k advances. */
  ghost predicate Advances(run: Run, k: nat, task: Task)
    requires IsRun(run) && k < |run.events|
  {
    run.events[k].Advance? && run.events[k].id in run.ws[k].tasks && run.ws[k].tasks[run.events[k].id] == task
  }

  /** Event k makes the store execute op, for the given task. */
  ghost predicate Executes(run: Run, k: nat, task: Task, op: Op)
    requires IsRun(run) && k < |run.events|
  {
    Advances(run, k, task) && Calls(task, run.events[k].familyId, run.events[k].drawn) == Some(op)
  }

  /** The place in the log of the step that event k executes. */
  ghost function Place(run: Run, k: nat): nat
    requires IsRun(run) && k <= |run.events|
  {
    |run.ws[k].log|
  }

  lemma NextLog(w: System, ttl: int, k: nat, e: Event)
    ensures var w' := Next(w, ttl, k, e);
            if e.Advance? && e.id in w.tasks && Calls(w.tasks[e.id], e.familyId, e.drawn).Some?
            then w'.log == w.log + [Step(e.now, Calls(w.tasks[e.id], e.familyId, e.drawn).value)]
            else w'.log == w.log
  {
  }

  lemma LogStep(run: Run, k: nat)
    requires IsRun(run) && k < |run.events|
    ensures var w, w' := run.ws[k], run.ws[k + 1];
            || w'.log == w.log
            || exists task, op :: Executes(run, k, task, op) && w'.log == w.log + [Step(run.events[k].now, op)]
    ensures forall task, op | Executes(run, k, task, op) ::
              run.ws[k + 1].log == run.ws[k].log + [Step(run.events[k].now, op)]
  {
    assert StepOk(run, k);
    NextLog(run.ws[k], run.ttl, k, run.events[k]);
    var e := run.events[k];
    if e.Advance? && e.id in run.ws[k].tasks && Calls(run.ws[k].tasks[e.id], e.familyId, e.drawn).Some? {
      assert Executes(run, k, run.ws[k].tasks[e.id], Calls(run.ws[k].tasks[e.id], e.familyId, e.drawn).value);
    }
  }

  lemma {:induction false} LogGrows(run: Run, j: nat, k: nat)
    requires IsRun(run) && j <= k <= |run.events|
    ensures run.ws[j].log <= run.ws[k].log
    decreases k
  {
    if j < k {
      LogGrows(run, j, k - 1);
      LogStep(run, k - 1);
    }
  }

  /** A step in the log was put there by some event. */
  lemma {:induction false} EventOf(run: Run, k: nat, c: nat) returns (e: nat, task: Task)
    requires IsRun(run) && k <= |run.events| && c < Place(run, k)
    ensures e < k && Place(run, e) == c && Executes(run, e, task, run.ws[k].log[c].op)
    decreases k
  {
    LogStep(run, k - 1);
    if c < Place(run, k - 1) {
      e, task := EventOf(run, k - 1, c);
    } else {
      e := k - 1;
      var op;
      task, op :| Executes(run, e, task, op) && run.ws[k].log == run.ws[e].log + [Step(run.events[e].now, op)];
    }
  }

  /** The step an event executes is in the log of the run. */
  lemma ExecutedStep(run: Run, k: nat, task: Task, op: Op)
    requires IsRun(run) && k < |run.events| && Executes(run, k, task, op)
    ensures Place(run, k) < |Log(run)| && Log(run)[Place(run, k)] == Step(run.events[k].now, op)
    ensures Log(run)[..Place(run, k)] == run.ws[k].log
  {
    LogStep(run, k);
    LogGrows(run, k + 1, |run.events|);
  }

  // ------------------------------------------------------------------ who vouches for a session

  /** At event v a request presented the password that user u, active then, had then. */
  ghost predicate Verifies(run: Run, v: nat, u: string, password: string)
    requires IsRun(run)
  {
    && v < |run.events| && Spec.IsActive(run.ws[v].db, u) && run.ws[v].db.users[u].password == password
    && exists task :: Advances(run, v, task) && Presents(run.ws[v].db, task, u, password)
  }

  predicate Presents(db: Db, task: Task, u: string, password: string)
    requires u in db.users
  {
    match task
    case Login(email, p) => p == password && email == db.users[u].email
    case CheckCurrent(u', _, current, _) => u' == u && current == password
    case _ => false
  }

  /** Users may vanish, be disabled or change their password; nobody's email changes. */
  ghost predicate SameEmails(db0: Db, db: Db) {
    forall u | u in db.users :: u in db0.users && db.users[u].email == db0.users[u].email
  }

  /** The credentials behind a session that this task will open were verified at an earlier event. */
  ghost predicate Vouched(run: Run, k: nat, task: Task)
    requires IsRun(run)
  {
    match task
    case OpenSession(u, v) => v < k && exists p :: Verifies(run, v, u, p)
    case StorePassword(u, _, Some(v)) => v < k && exists p :: Verifies(run, v, u, p)
    case RevokeSessions(u, Some(v)) => v < k && exists p :: Verifies(run, v, u, p)
    case CheckCurrent(u, email, _, _) => u in run.ws[0].db.users && run.ws[0].db.users[u].email == email
    case _ => true
  }

  ghost predicate AllVouched(run: Run, k: nat)
    requires IsRun(run) && k <= |run.events|
  {
    && SameEmails(run.ws[0].db, run.ws[k].db)
    && forall id | id in run.ws[k].tasks :: Vouched(run, k, run.ws[k].tasks[id])
  }

  /** Only storing a password touches the user table. */
  lemma LocalDb(w: System, k: nat, id: nat, now: int, drawn: string)
    requires id in w.tasks
    ensures var task := w.tasks[id];
            Local(w, k, id, now, drawn, task).db
            == if task.StorePassword? && task.userId in w.db.users
               then Spec.WithPassword(w.db, task.userId, task.next) else w.db
  {
  }

  lemma NextDb(w: System, ttl: int, k: nat, e: Event)
    ensures SameEmails(w.db, Next(w, ttl, k, e).db)
  {
    if e.Advance? && e.id in w.tasks && Calls(w.tasks[e.id], e.familyId, e.drawn) == None {
      LocalDb(w, k, e.id, e.now, e.drawn);
    }
  }

  lemma LocalTask(w: System, k: nat, id: nat, now: int, drawn: string, other: nat)
    requires id in w.tasks && other in Local(w, k, id, now, drawn, w.tasks[id]).tasks
    ensures var task' := Local(w, k, id, now, drawn, w.tasks[id]).tasks[other];
            (other in w.tasks && task' == w.tasks[other]) || (other == id && Follows(w, k, w.tasks[id], task'))
  {
  }

  /** A task that will open a session comes from one that would, or from a check of credentials. */
  lemma NextTask(w: System, ttl: int, k: nat, e: Event, id: nat)
    requires id in Next(w, ttl, k, e).tasks
    ensures var task' := Next(w, ttl, k, e).tasks[id];
            || (id in w.tasks && task' == w.tasks[id])
            || IsRequest(task')
            || (e.Advance? && e.id == id && id in w.tasks && Follows(w, k, w.tasks[id], task'))
  {
    if e.Advance? && e.id in w.tasks && Calls(w.tasks[e.id], e.familyId, e.drawn) == None {
      LocalTask(w, k, e.id, e.now, e.drawn, id);
    }
  }

  ghost predicate Follows(w: System, k: nat, task: Task, task': Task) {
    match task'
    case OpenSession(u, v) =>
      || task == RevokeSessions(u, Some(v))
      || (task.Login? && v == k && Spec.VerifyCredentials(w.db, task.email, task.password) == Some(u))
    case StorePassword(u, next, Some(v)) =>
      && task.CheckCurrent? && task.userId == u && v == k && task.next == next
      && Spec.VerifyCredentials(w.db, task.email, task.current).Some?
    case RevokeSessions(u, Some(v)) =>
      task.StorePassword? && task.userId == u && task.reopen == Some(v) && u in w.db.users
    case CheckCurrent(u, email, _, _) => u in w.db.users && w.db.users[u].email == email
    case _ => true
  }

  /** With unique emails, credentials checked by a user's email are that user's own. */
  lemma CheckedIsOwn(db0: Db, db: Db, u: string, email: string, password: string)
    requires Spec.UniqueEmails(db0) && SameEmails(db0, db) && u in db0.users && db0.users[u].email == email
    requires Spec.VerifyCredentials(db, email, password).Some?
    ensures Spec.IsActive(db, u) && db.users[u].password == password
  {
  }

  lemma FollowerVouched(run: Run, k: nat, task': Task)
    requires IsRun(run) && k < |run.events| && AllVouched(run, k)
    requires run.events[k].Advance? && run.events[k].id in run.ws[k].tasks
    requires Follows(run.ws[k], k, run.ws[k].tasks[run.events[k].id], task')
    ensures Vouched(run, k + 1, task')
  {
    var w, task := run.ws[k], run.ws[k].tasks[run.events[k].id];
    assert Advances(run, k, task) && Vouched(run, k, task);
    match task'
    case OpenSession(u, v) =>
      if task.Login? {
        assert Presents(w.db, task, u, task.password);
        assert Verifies(run, k, u, task.password);
      }
    case StorePassword(u, _, Some(v)) =>
      CheckedIsOwn(run.ws[0].db, w.db, u, task.email, task.current);
      assert Presents(w.db, task, u, task.current);
      assert Verifies(run, k, u, task.current);
    case _ =>
  }

  lemma {:induction false} AlwaysVouched(run: Run, k: nat)
    requires IsRun(run) && k <= |run.events|
    ensures AllVouched(run, k)
  {
    if k > 0 {
      AlwaysVouched(run, k - 1);
      assert StepOk(run, k - 1);
      var w, w', e := run.ws[k - 1], run.ws[k], run.events[k - 1];
      NextDb(w, run.ttl, k - 1, e);
      forall id | id in w'.tasks ensures Vouched(run, k, w'.tasks[id]) {
        TaskVouched(run, k - 1, id);
      }
    }
  }

  lemma TaskVouched(run: Run, k: nat, id: nat)
    requires IsRun(run) && k < |run.events| && AllVouched(run, k) && id in run.ws[k + 1].tasks
    ensures Vouched(run, k + 1, run.ws[k + 1].tasks[id])
  {
    var w, task' := run.ws[k], run.ws[k + 1].tasks[id];
    assert StepOk(run, k);
    NextTask(w, run.ttl, k, run.events[k], id);
    if id in w.tasks && task' == w.tasks[id] {
      assert Vouched(run, k, w.tasks[id]);
    } else if !IsRequest(task') {
      FollowerVouched(run, k, task');
    }
  }

  // ------------------------------------------------------------------ after a revocation

  /** Event r makes the store revoke every session of u that it can reach. */
  ghost predicate Revokes(run: Run, r: nat, u: string)
    requires IsRun(run) && r < |run.events|
  {
    exists task :: Executes(run, r, task, Op.RevokeUser(u))
  }

  /** At event j a refresh of user u succeeds in the store, in family f. */
  ghost predicate Refreshes(run: Run, j: nat, u: string, f: string)
    requires IsRun(run) && j < |run.events|
  {
    var e := run.events[j];
    e.Advance? && exists p, issued :: Executes(run, j, Refresh(p), Op.Rotate(p, e.drawn))
                     && Answer(run.ws[j], run.ttl, e.now, Op.Rotate(p, e.drawn)) == Rotation(Rotated(u, f, issued))
  }

  /** Event c opens family f for user u, whose credentials were verified at event v. */
  ghost predicate Opens(run: Run, c: nat, u: string, f: string, v: nat)
    requires IsRun(run) && c < |run.events|
  {
    Advances(run, c, OpenSession(u, v)) && run.events[c].familyId == f
  }

  /** The revocation at event r misses the session opened at event c: its user was quiet for ttl in between. */
  ghost predicate Misses(run: Run, r: nat, c: nat, u: string)
    requires IsRun(run) && r < |run.events| && c < |run.events|
  {
    c < r && !Reaches(Log(run), run.ttl, Place(run, c), Place(run, r), u)
  }

  lemma AnswerIsOutcome(run: Run, k: nat, task: Task, op: Op)
    requires IsRun(run) && k < |run.events| && Executes(run, k, task, op)
    ensures Place(run, k) < |Log(run)|
    ensures Answer(run.ws[k], run.ttl, run.events[k].now, op) == R.OutcomeAt(Log(run), run.ttl, Place(run, k))
  {
    ExecutedStep(run, k, task, op);
    R.AfterPrefix(run.ws[k].log, Log(run), run.ttl, Place(run, k));
  }

  /** Events execute their steps in order. */
  lemma PlaceOrder(run: Run, a: nat, b: nat, task: Task, op: Op)
    requires IsRun(run) && a < |run.events| && b <= |run.events| && Executes(run, a, task, op)
    ensures a < b <==> Place(run, a) < Place(run, b)
  {
    LogStep(run, a);
    if a < b {
      LogGrows(run, a + 1, b);
    } else {
      LogGrows(run, b, a);
    }
  }

  /** The event behind a sign-in in the log, and the check of credentials behind that event. */
  lemma SignInEvent(run: Run, c: nat, u: string) returns (e: nat, v: nat)
    requires IsRun(run) && SignIn(Log(run), c, u)
    ensures e < |run.events| && Place(run, e) == c && v < e && Opens(run, e, u, Log(run)[c].op.familyId, v)
    ensures Executes(run, e, OpenSession(u, v), Log(run)[c].op)
    ensures exists p :: Verifies(run, v, u, p)
  {
    var task;
    e, task := EventOf(run, |run.events|, c);
    v := task.since;
    AlwaysVouched(run, e);
    assert Vouched(run, e, task);
  }

  /** The tokens alive when event r executes. */
  ghost function AliveAt(run: Run, r: nat): Tokens
    requires IsRun(run) && r < |run.events| && run.events[r].Advance?
  {
    R.Sweep(R.After(run.ws[r].log, run.ttl, Place(run, r)), run.events[r].now).refresh
  }

  /** The tokens left before event k executes. */
  ghost function TokensAt(run: Run, k: nat): Tokens
    requires IsRun(run) && k <= |run.events|
  {
    R.After(run.ws[k].log, run.ttl, Place(run, k)).refresh
  }

  lemma TokensInLog(run: Run, r: nat, task: Task, op: Op)
    requires IsRun(run) && r < |run.events| && Executes(run, r, task, op)
    ensures var log, i := Log(run), Place(run, r);
            && i < |log| && log[i] == Step(run.events[r].now, op)
            && TokensAt(run, r) == R.After(log, run.ttl, i).refresh
            && AliveAt(run, r) == R.Before(log, run.ttl, i).refresh
            && TokensAt(run, r + 1) == R.After(log, run.ttl, i + 1).refresh
  {
    ExecutedStep(run, r, task, op);
    TokensBefore(run, r);
    TokensAlive(run, r, task, op);
    TokensAfter(run, r, task, op);
  }

  lemma TokensBefore(run: Run, r: nat)
    requires IsRun(run) && r <= |run.events|
    ensures Place(run, r) <= |Log(run)| && TokensAt(run, r) == R.After(Log(run), run.ttl, Place(run, r)).refresh
  {
    StoreInLog(run, r);
  }

  lemma TokensAlive(run: Run, r: nat, task: Task, op: Op)
    requires IsRun(run) && r < |run.events| && Executes(run, r, task, op) && Place(run, r) < |Log(run)|
    requires Log(run)[Place(run, r)].now == run.events[r].now
    ensures AliveAt(run, r) == R.Before(Log(run), run.ttl, Place(run, r)).refresh
  {
    StoreInLog(run, r);
  }

  lemma TokensAfter(run: Run, r: nat, task: Task, op: Op)
    requires IsRun(run) && r < |run.events| && Executes(run, r, task, op)
    ensures Place(run, r) < |Log(run)|
    ensures TokensAt(run, r + 1) == R.After(Log(run), run.ttl, Place(run, r) + 1).refresh
  {
    ExecutedStep(run, r, task, op);
    LogStep(run, r);
    TokensBefore(run, r + 1);
  }

  /** The store between events is the one the whole log passes through there. */
  lemma StoreInLog(run: Run, k: nat)
    requires IsRun(run) && k <= |run.events|
    ensures Place(run, k) <= |Log(run)|
    ensures R.After(run.ws[k].log, run.ttl, Place(run, k)) == R.After(Log(run), run.ttl, Place(run, k))
  {
    LogGrows(run, k, |run.events|);
    R.AfterPrefix(run.ws[k].log, Log(run), run.ttl, Place(run, k));
  }

  /** The step that opened a session is in the log at the place of its event. */
  lemma OpenerSignsIn(run: Run, c: nat, u: string, f: string, v: nat)
    requires IsRun(run) && c < |run.events| && Opens(run, c, u, f, v)
    ensures SignIn(Log(run), Place(run, c), u) && Log(run)[Place(run, c)].op.familyId == f
    ensures Executes(run, c, OpenSession(u, v), Create(u, f, run.events[c].drawn))
  {
    ExecutedStep(run, c, OpenSession(u, v), Create(u, f, run.events[c].drawn));
  }

  /**
   * A revocation, whatever request it is part of, leaves its user no token iff it misses no
   * session of the user that still has one. So a password change, a reset, and the refusal of
   * a refresh whose user is gone clean up completely in exactly these cases.
   */
  lemma RevocationCompleteIff(run: Run, r: nat, u: string)
    requires Sound(run) && r < |run.events| && Revokes(run, r, u)
    ensures UserGone(TokensAt(run, r + 1), u)
            <==> forall c: nat, f, v | c < r && Opens(run, c, u, f, v) && !FamilyGone(AliveAt(run, r), f) ::
                   !Misses(run, r, c, u)
  {
    var task :| Executes(run, r, task, Op.RevokeUser(u));
    var log, i, t := Log(run), Place(run, r), AliveAt(run, r);
    TokensInLog(run, r, task, Op.RevokeUser(u));
    RevokeUserCompleteIff(log, run.ttl, i);
    if UserGone(TokensAt(run, r + 1), u) {
      forall c: nat, f, v | c < r && Opens(run, c, u, f, v) && !FamilyGone(t, f) ensures !Misses(run, r, c, u) {
        OpenerSignsIn(run, c, u, f, v);
        PlaceOrder(run, c, r, OpenSession(u, v), Create(u, f, run.events[c].drawn));
      }
    } else {
      var ci: int :| 0 <= ci < i && SignIn(log, ci, u) && !FamilyGone(t, log[ci].op.familyId)
        && !Reaches(log, run.ttl, ci, i, u);
      var c, v := SignInEvent(run, ci, u);
      PlaceOrder(run, c, r, OpenSession(u, v), log[ci].op);
      assert Misses(run, r, c, u);
    }
  }

  /** The task hands token h out, or holds it until the user has been looked up. */
  predicate HoldsToken(task: Task, h: string) {
    match task
    case Answered(Issued(_, refresh)) => refresh.token == h
    case Admit(_, refresh) => refresh.token == h
    case _ => false
  }

  /** A token appears only as the one its request hands out, or will once its user is found. */
  lemma NewTokenIsHeld(run: Run, k: nat, h: string)
    requires Sound(run) && k < |run.events| && h in TokensAt(run, k + 1) && h !in TokensAt(run, k)
    ensures run.events[k].Advance? && run.events[k].id in run.ws[k + 1].tasks
    ensures HoldsToken(run.ws[k + 1].tasks[run.events[k].id], h)
  {
    var task, op := CallAt(run, k);
    TokensInLog(run, k, task, op);
    NewTokenIsDrawn(Log(run), run.ttl, Place(run, k), h);
    assert Answer(run.ws[k], run.ttl, run.events[k].now, op) == R.OutcomeAt(Log(run), run.ttl, Place(run, k)) by {
      AnswerIsOutcome(run, k, task, op);
    }
    CallerHolds(run, k, task, op);
  }

  /** Only a call changes the tokens. */
  lemma CallAt(run: Run, k: nat) returns (task: Task, op: Op)
    requires IsRun(run) && k < |run.events| && TokensAt(run, k + 1) != TokensAt(run, k)
    ensures Executes(run, k, task, op)
  {
    LogStep(run, k);
    task, op :| Executes(run, k, task, op);
  }

  lemma CallerHolds(run: Run, k: nat, task: Task, op: Op)
    requires IsRun(run) && k < |run.events| && Executes(run, k, task, op) && Draws(op)
    ensures run.events[k].Advance? && run.events[k].id in run.ws[k + 1].tasks
    ensures var out := Answer(run.ws[k], run.ttl, run.events[k].now, op);
            op.Create? || (out.Rotation? && out.result.Rotated? && out.result.refresh.token == op.drawn)
            ==> HoldsToken(run.ws[k + 1].tasks[run.events[k].id], op.drawn)
  {
    assert StepOk(run, k);
  }

  lemma NewTokenIsDrawn(log: seq<Step>, ttl: int, i: nat, h: string)
    requires FreshRun(log) && ClockRun(log) && i < |log|
    requires h in R.After(log, ttl, i + 1).refresh && h !in R.After(log, ttl, i).refresh
    ensures Draws(log[i].op) && log[i].op.drawn == h
    ensures var out := R.OutcomeAt(log, ttl, i);
            log[i].op.Create? || (out.Rotation? && out.result.Rotated? && out.result.refresh.token == h)
  {
    assert R.Indexed(R.Before(log, ttl, i)) by {
      R.Reachable(log, ttl, i, log[i].now);
    }
    R.PerformLiveAdds(R.Before(log, ttl, i), ttl, log[i].now, log[i].op);
    R.Unfold(log, ttl, i + 1);
  }

  /** What the store's own theorem says of the two events. */
  lemma RefreshOrigin(run: Run, r: nat, j: nat, u: string, f: string) returns (i: nat)
    requires Sound(run) && r < j < |run.events| && Revokes(run, r, u) && Refreshes(run, j, u, f)
    ensures i < Place(run, j) && SignIn(Log(run), i, u) && Log(run)[i].op.familyId == f
    ensures i > Place(run, r) || (i < Place(run, r) && !Reaches(Log(run), run.ttl, i, Place(run, r), u))
  {
    var log, jj, d := Log(run), Place(run, j), run.events[j].drawn;
    var task :| Executes(run, r, task, Op.RevokeUser(u));
    var p, issued :| Executes(run, j, Refresh(p), Op.Rotate(p, d))
      && Answer(run.ws[j], run.ttl, run.events[j].now, Op.Rotate(p, d)) == Rotation(Rotated(u, f, issued));
    ExecutedStep(run, r, task, Op.RevokeUser(u));
    ExecutedStep(run, j, Refresh(p), Op.Rotate(p, d));
    AnswerIsOutcome(run, j, Refresh(p), Op.Rotate(p, d));
    PlaceOrder(run, r, j, task, Op.RevokeUser(u));
    SessionSafety.RedisFreshStart(log, run.ttl, Place(run, r), jj);
    i :| 0 <= i < jj && SignIn(log, i, u) && log[i].op.familyId == f
         && (i > Place(run, r) || (i < Place(run, r) && !Reaches(log, run.ttl, i, Place(run, r), u)));
  }

  /**
   * Whatever the interleaving: after event r revoked the sessions of u, a refresh that succeeds
   * for u descends from a session opened after r, or from one the revocation missed; and
   * somebody presented the password then in force for u before that session was opened.
   */
  lemma OnlyLaterSessions(run: Run, r: nat, j: nat, u: string, f: string)
    requires Sound(run) && r < j < |run.events| && Revokes(run, r, u) && Refreshes(run, j, u, f)
    ensures exists c: nat, v: nat :: v < c < j && Opens(run, c, u, f, v) && (exists p :: Verifies(run, v, u, p))
              && (c > r || Misses(run, r, c, u))
  {
    var i := RefreshOrigin(run, r, j, u, f);
    var c, v := SignInEvent(run, i, u);
    var task :| Executes(run, r, task, Op.RevokeUser(u));
    PlaceOrder(run, c, j, OpenSession(u, v), Log(run)[i].op);
    PlaceOrder(run, c, r, OpenSession(u, v), Log(run)[i].op);
    PlaceOrder(run, r, c, task, Op.RevokeUser(u));
    assert Opens(run, c, u, f, v);
  }

  // ------------------------------------------------------------------ after a password change

  /** Event w stores a new password for u. */
  ghost predicate Stores(run: Run, w: nat, u: string, next: string)
    requires IsRun(run) && w < |run.events|
  {
    u in run.ws[w].db.users && exists reopen :: Advances(run, w, StorePassword(u, next, reopen))
  }

  /** No other password is stored for u between w and k. */
  ghost predicate KeepsPassword(run: Run, w: nat, k: nat, u: string)
    requires IsRun(run) && k <= |run.events|
  {
    forall i, n | w < i < k :: !Stores(run, i, u, n)
  }

  lemma NextPassword(w: System, ttl: int, k: nat, e: Event, u: string)
    requires u in Next(w, ttl, k, e).db.users
    ensures u in w.db.users
    ensures var password := Next(w, ttl, k, e).db.users[u].password;
            if e.Advance? && e.id in w.tasks && w.tasks[e.id].StorePassword? && w.tasks[e.id].userId == u
            then password == w.tasks[e.id].next
            else password == w.db.users[u].password
  {
    if e.Advance? && e.id in w.tasks && Calls(w.tasks[e.id], e.familyId, e.drawn) == None {
      LocalDb(w, k, e.id, e.now, e.drawn);
    }
  }

  lemma {:induction false} PasswordHolds(run: Run, w: nat, k: nat, u: string, next: string)
    requires IsRun(run) && w < k <= |run.events| && Stores(run, w, u, next) && KeepsPassword(run, w, k, u)
    requires u in run.ws[k].db.users
    ensures run.ws[k].db.users[u].password == next
    decreases k
  {
    assert StepOk(run, k - 1);
    NextPassword(run.ws[k - 1], run.ttl, k - 1, run.events[k - 1], u);
    if k > w + 1 {
      PasswordHolds(run, w, k - 1, u, next);
      var e, task := run.events[k - 1], run.ws[k - 1].tasks;
      if e.Advance? && e.id in task && task[e.id].StorePassword? && task[e.id].userId == u {
        assert Advances(run, k - 1, StorePassword(u, task[e.id].next, task[e.id].reopen));
        assert Stores(run, k - 1, u, task[e.id].next);
      }
    }
  }

  /**
   * A new password was stored for u at event w and the sessions of u revoked at event r. Until
   * the password changes again, a refresh that succeeds for u descends from a session opened
   * after r by somebody who presented the new password, unless the revocation missed the
   * session, or its opener had been verified before w and was still under way.
   */
  lemma NothingOldSurvives(run: Run, w: nat, r: nat, j: nat, u: string, f: string, next: string)
    requires Sound(run) && w < r < j < |run.events| && Stores(run, w, u, next) && Revokes(run, r, u)
    requires Refreshes(run, j, u, f) && KeepsPassword(run, w, j, u)
    ensures exists c: nat, v: nat :: v < c < j && Opens(run, c, u, f, v)
              && (Misses(run, r, c, u) || (r < c && (v < w || (w < v && Verifies(run, v, u, next)))))
  {
    OnlyLaterSessions(run, r, j, u, f);
    var c: nat, v: nat :| v < c < j && Opens(run, c, u, f, v) && (exists p :: Verifies(run, v, u, p))
      && (c > r || Misses(run, r, c, u));
    var p :| Verifies(run, v, u, p);
    VerifiedAfter(run, w, v, u, next, p);
  }

  /** Whoever is verified after a password was stored, and before the next one is, presented that password. */
  lemma VerifiedAfter(run: Run, w: nat, v: nat, u: string, next: string, p: string)
    requires IsRun(run) && w < |run.events| && Stores(run, w, u, next) && Verifies(run, v, u, p)
    requires KeepsPassword(run, w, v, u)
    ensures v != w && (w < v ==> p == next)
  {
    var reopen :| Advances(run, w, StorePassword(u, next, reopen));
    if w < v {
      PasswordHolds(run, w, v, u, next);
    }
  }

  // ------------------------------------------------------------------ reset tokens

  /** Event r stores reset token `token` for user u. */
  ghost predicate StoresKey(run: Run, r: nat, token: string, u: string)
    requires IsRun(run) && r < |run.events|
  {
    Advances(run, r, StoreKey(u)) && run.events[r].drawn == token
  }

  /** No reset token is drawn twice. */
  ghost predicate FreshKeys(run: Run)
    requires IsRun(run)
  {
    forall r, r', token, u, u' | 0 <= r < r' < |run.events| && StoresKey(run, r, token, u) ::
      !StoresKey(run, r', token, u')
  }

  /** Event i uses the reset token up and goes on to store a new password for u. */
  ghost predicate Redeems(run: Run, i: nat, token: string, u: string)
    requires IsRun(run) && i < |run.events|
  {
    exists next :: Advances(run, i, ResetPassword(token, next))
                   && run.events[i].id in run.ws[i + 1].tasks
                   && run.ws[i + 1].tasks[run.events[i].id] == StorePassword(u, next, None)
  }

  lemma NextKeys(w: System, ttl: int, k: nat, e: Event, token: string)
    ensures var w' := Next(w, ttl, k, e);
            var task := if e.Advance? && e.id in w.tasks then Some(w.tasks[e.id]) else None;
            var stored := task.Some? && task.value.StoreKey? && e.drawn == token;
            && (token in w'.resets <==>
                  || stored
                  || (token in w.resets
                      && !(task.Some? && task.value.ResetPassword? && task.value.token == token)))
            && (token in w'.resets ==>
                  w'.resets[token] == if stored then Spec.ResetKey(task.value.userId, e.now + Spec.RESET_TTL_SECONDS)
                                      else w.resets[token])
  {
  }

  lemma {:induction false} KeyOrigin(run: Run, k: nat, token: string) returns (r: nat)
    requires IsRun(run) && k <= |run.events| && token in run.ws[k].resets
    ensures r < k && StoresKey(run, r, token, run.ws[k].resets[token].userId)
    ensures run.ws[k].resets[token].deadline == run.events[r].now + Spec.RESET_TTL_SECONDS
    decreases k
  {
    var w, e := run.ws[k - 1], run.events[k - 1];
    assert StepOk(run, k - 1);
    NextKeys(w, run.ttl, k - 1, e, token);
    if e.Advance? && e.id in w.tasks && w.tasks[e.id].StoreKey? && e.drawn == token {
      assert Advances(run, k - 1, StoreKey(w.tasks[e.id].userId));
      r := k - 1;
    } else {
      r := KeyOrigin(run, k - 1, token);
    }
  }

  lemma RedeemedKey(run: Run, i: nat, token: string, u: string)
    requires IsRun(run) && i < |run.events| && Redeems(run, i, token, u)
    ensures token in run.ws[i].resets && run.ws[i].resets[token].userId == u && token !in run.ws[i + 1].resets
    ensures run.events[i].now < run.ws[i].resets[token].deadline
  {
    assert StepOk(run, i);
  }

  /** A reset token is redeemed only for the user it was stored for, less than 30 minutes after that. */
  lemma ResetComesInTime(run: Run, i: nat, token: string, u: string)
    requires IsRun(run) && i < |run.events| && Redeems(run, i, token, u)
    ensures exists r: nat :: r < i && StoresKey(run, r, token, u)
              && run.events[i].now < run.events[r].now + Spec.RESET_TTL_SECONDS
  {
    RedeemedKey(run, i, token, u);
    var r := KeyOrigin(run, i, token);
  }

  lemma {:induction false} KeyStaysGone(run: Run, r: nat, i: nat, k: nat, token: string, u: string)
    requires IsRun(run) && FreshKeys(run) && r < i < k <= |run.events| && StoresKey(run, r, token, u)
    requires token !in run.ws[i + 1].resets
    ensures token !in run.ws[k].resets
    decreases k
  {
    if k > i + 1 {
      KeyStaysGone(run, r, i, k - 1, token, u);
      var w, e := run.ws[k - 1], run.events[k - 1];
      assert StepOk(run, k - 1);
      NextKeys(w, run.ttl, k - 1, e, token);
      if e.Advance? && e.id in w.tasks && w.tasks[e.id].StoreKey? {
        assert Advances(run, k - 1, StoreKey(w.tasks[e.id].userId));
        assert !StoresKey(run, k - 1, token, w.tasks[e.id].userId);
      }
    }
  }

  /** Of all requests that present a reset token, however they interleave, at most one redeems it. */
  lemma ResetTokenUsedOnce(run: Run, i: nat, j: nat, token: string, u: string, u': string)
    requires IsRun(run) && FreshKeys(run) && i < j < |run.events| && Redeems(run, i, token, u)
    ensures !Redeems(run, j, token, u')
  {
    RedeemedKey(run, i, token, u);
    var r := KeyOrigin(run, i, token);
    KeyStaysGone(run, r, i, j, token, u);
    if Redeems(run, j, token, u') {
      RedeemedKey(run, j, token, u');
    }
  }
}
