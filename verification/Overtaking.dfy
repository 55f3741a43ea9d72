/**
 * Sessions that overtake a password change: requests whose credentials were verified before the
 * new password was stored, and that open a session afterwards. Which requests can still do so
 * is decided by the tasks that wait at that moment, and nothing else.
 */
module Overtaking {
  import opened Prelude
  import opened Tables
  import opened SessionModel
  import opened RedisReach
  import opened Requests
  import R = RedisStore
  import Ledger
  import SessionSafety
  import Spec = Auth

  /** A request of u, verified at event v, is about to open a session, or about to revoke and then open one. */
  ghost predicate Waits(w: System, id: nat, u: string, v: nat) {
    id in w.tasks && (w.tasks[id] == OpenSession(u, v) || w.tasks[id] == RevokeSessions(u, Some(v)))
  }

  /** run' goes on where run ends. */
  ghost predicate GoesOn(run: Run, run': Run) {
    run'.ttl == run.ttl && run.ws <= run'.ws && run.events <= run'.events
  }

  /** From event n on, a session opens for u that was verified before event w, and refreshes; u keeps the password. */
  ghost predicate OldSessionRefreshes(run: Run, w: nat, n: nat, u: string)
    requires IsRun(run)
  {
    exists c: nat, j: nat, v: nat, f :: v < w && n <= c < j < |run.events| && Opens(run, c, u, f, v)
      && Refreshes(run, j, u, f) && KeepsPassword(run, w, j, u)
  }

  // ------------------------------------------------------------------ only waiting requests

  /** A request that waits now, on credentials verified long ago, has waited ever since. */
  lemma {:induction false} WaitedBefore(run: Run, w: nat, n: nat, k: nat, id: nat, u: string, v: nat)
    requires IsRun(run) && v < w < n <= k <= |run.events| && KeepsPassword(run, w, k, u) && Waits(run.ws[k], id, u, v)
    ensures Waits(run.ws[n], id, u, v)
    decreases k
  {
    if k > n {
      WaitedOneBefore(run, w, k - 1, id, u, v);
      WaitedBefore(run, w, n, k - 1, id, u, v);
    }
  }

  lemma WaitedOneBefore(run: Run, w: nat, k: nat, id: nat, u: string, v: nat)
    requires IsRun(run) && v < w < k < |run.events| && KeepsPassword(run, w, k + 1, u) && Waits(run.ws[k + 1], id, u, v)
    ensures Waits(run.ws[k], id, u, v)
  {
    assert StepOk(run, k);
    NextTask(run.ws[k], run.ttl, k, run.events[k], id);
    if !Waits(run.ws[k], id, u, v) {
      var task := run.ws[k].tasks[id];
      assert Follows(run.ws[k], k, task, run.ws[k + 1].tasks[id]);
      assert Advances(run, k, StorePassword(u, task.next, task.reopen));
      assert Stores(run, k, u, task.next);
    }
  }

  // ------------------------------------------------------------------ and every waiting request

  ghost function OneMore(run: Run, e: Event): Run
    requires IsRun(run)
  {
    Run(run.ttl, run.ws + [Next(run.ws[|run.events|], run.ttl, |run.events|, e)], run.events + [e])
  }

  lemma OneMoreIsRun(run: Run, e: Event)
    requires IsRun(run)
    ensures IsRun(OneMore(run, e)) && GoesOn(run, OneMore(run, e))
  {
    var run' := OneMore(run, e);
    forall k | 0 <= k < |run'.events| ensures StepOk(run', k) {
      if k < |run.events| {
        assert StepOk(run, k);
      }
    }
  }

  lemma StoresStill(run: Run, run': Run, i: nat, u: string, next: string)
    requires IsRun(run) && IsRun(run') && GoesOn(run, run') && i < |run.events|
    ensures Stores(run', i, u, next) <==> Stores(run, i, u, next)
  {
    assert forall task :: Advances(run', i, task) <==> Advances(run, i, task);
  }

  /** u keeps the password over an event that stores none. */
  lemma OneMoreKeeps(run: Run, e: Event, w: nat, u: string)
    requires IsRun(run) && IsRun(OneMore(run, e)) && GoesOn(run, OneMore(run, e))
    requires KeepsPassword(run, w, |run.events|, u)
    requires e.Advance? && e.id in run.ws[|run.events|].tasks ==> !run.ws[|run.events|].tasks[e.id].StorePassword?
    ensures KeepsPassword(OneMore(run, e), w, |run.events| + 1, u)
  {
    var run' := OneMore(run, e);
    forall i, next | w < i < |run.events| + 1 ensures !Stores(run', i, u, next) {
      if i < |run.events| {
        StoresStill(run, run', i, u, next);
        assert !Stores(run, i, u, next);
      }
    }
  }

  /** The latest reading of the clock. */
  function Latest(log: seq<Step>): int {
    if log == [] then 0 else log[|log| - 1].now
  }

  /** A step that draws new values at the latest reading of the clock keeps the log sound. */
  lemma SoundLog(log: seq<Step>, op: Op)
    requires FreshRun(log) && ClockRun(log)
    requires Draws(op) ==> !DrawnBefore(log, |log|, op.drawn)
    requires op.Create? ==> !OpenedBefore(log, |log|, op.familyId)
    ensures var log' := log + [Step(Latest(log), op)];
            FreshRun(log') && ClockRun(log') && Latest(log') == Latest(log)
  {
    var log' := log + [Step(Latest(log), op)];
    forall i, j | 0 <= i < j < |log'| ensures log'[i].now <= log'[j].now {
    }
    forall i, j | 0 <= i < j < |log'| && Draws(log'[i].op) && Draws(log'[j].op)
      ensures log'[i].op.drawn != log'[j].op.drawn
    {
    }
  }

  lemma DrawsNew(log: seq<Step>) returns (f: string, t: string)
    ensures !OpenedBefore(log, |log|, f) && !DrawnBefore(log, |log|, t)
  {
    var drawn := set i | 0 <= i < |log| && Draws(log[i].op) :: log[i].op.drawn;
    var families := set i | 0 <= i < |log| && log[i].op.Create? :: log[i].op.familyId;
    f := FreshString(families);
    t := FreshString(drawn);
  }

  lemma NewId(tasks: map<nat, Task>) returns (id: nat)
    ensures id !in tasks
  {
    var top := Highest(tasks.Keys);
    id := top + 1;
  }

  lemma {:induction false} Highest(ids: set<nat>) returns (top: nat)
    ensures forall id | id in ids :: id <= top
    decreases |ids|
  {
    if ids == {} {
      top := 0;
    } else {
      var one :| one in ids;
      var rest := ids - {one};
      var t := Highest(rest);
      top := if t < one then one else t;
      forall id | id in ids ensures id <= top {
        assert id == one || id in rest;
      }
    }
  }

  /** A waiting request comes to the point where it opens its session. */
  lemma ReadyToOpen(run: Run, w: nat, id: nat, u: string, v: nat) returns (run1: Run)
    requires Sound(run) && KeepsPassword(run, w, |run.events|, u) && Waits(run.ws[|run.events|], id, u, v)
    ensures Sound(run1) && GoesOn(run, run1) && KeepsPassword(run1, w, |run1.events|, u)
    ensures id in run1.ws[|run1.events|].tasks && run1.ws[|run1.events|].tasks[id] == OpenSession(u, v)
  {
    run1 := run;
    var last := run.ws[|run.events|];
    if last.tasks[id] != OpenSession(u, v) {
      var e := Advance(id, Latest(last.log), "", "");
      run1 := OneMore(run, e);
      OneMoreIsRun(run, e);
      OneMoreKeeps(run, e, w, u);
      NextLog(last, run.ttl, |run.events|, e);
      SoundLog(last.log, Op.RevokeUser(u));
    }
  }

  /** The session opens. */
  lemma OpensNow(run: Run, w: nat, id: nat, u: string, v: nat) returns (run': Run, f: string, t: string)
    requires Sound(run) && KeepsPassword(run, w, |run.events|, u)
    requires id in run.ws[|run.events|].tasks && run.ws[|run.events|].tasks[id] == OpenSession(u, v)
    ensures Sound(run') && GoesOn(run, run') && |run'.events| == |run.events| + 1
    ensures KeepsPassword(run', w, |run'.events|, u) && Opens(run', |run.events|, u, f, v)
    ensures Log(run') == Log(run) + [Step(Latest(Log(run)), Create(u, f, t))]
  {
    f, t := DrawsNew(Log(run));
    var e := Advance(id, Latest(Log(run)), f, t);
    run' := OneMore(run, e);
    OneMoreIsRun(run, e);
    OneMoreKeeps(run, e, w, u);
    NextLog(run.ws[|run.events|], run.ttl, |run.events|, e);
    SoundLog(Log(run), Create(u, f, t));
    assert Advances(run', |run.events|, OpenSession(u, v));
  }

  /** A token just handed out rotates. */
  lemma RotatesAtOnce(log: seq<Step>, ttl: int, u: string, f: string, t: string, d: string)
    requires |log| >= 2 && FreshRun(log) && ClockRun(log) && ttl > 0
    requires log[|log| - 2].op == Create(u, f, t) && log[|log| - 1].op == Op.Rotate(t, d)
    requires log[|log| - 1].now == log[|log| - 2].now
    ensures R.OutcomeAt(log, ttl, |log| - 1).Rotation? && R.OutcomeAt(log, ttl, |log| - 1).result.Rotated?
    ensures R.OutcomeAt(log, ttl, |log| - 1).result.userId == u && R.OutcomeAt(log, ttl, |log| - 1).result.familyId == f
  {
    var m, j := |log| - 2, |log| - 1;
    assert SessionSafety.Presents(log, j, t);
    SessionSafety.RedisVerdict(log, ttl, m, j, t, f, u);
  }

  /** A request for a refresh arrives and is served at once. */
  lemma RefreshesNow(run: Run, w: nat, u: string, f: string, t: string) returns (run': Run)
    requires Sound(run) && KeepsPassword(run, w, |run.events|, u)
    requires |Log(run)| > 0 && Log(run)[|Log(run)| - 1].op == Create(u, f, t)
    ensures Sound(run') && GoesOn(run, run') && |run'.events| == |run.events| + 2
    ensures KeepsPassword(run', w, |run.events| + 1, u) && Refreshes(run', |run.events| + 1, u, f)
  {
    var id := NewId(run.ws[|run.events|].tasks);
    var run1 := OneMore(run, Arrive(id, Refresh(t)));
    OneMoreIsRun(run, Arrive(id, Refresh(t)));
    OneMoreKeeps(run, Arrive(id, Refresh(t)), w, u);
    assert Log(run1) == Log(run);
    run' := ServesRefresh(run1, w, id, u, f, t);
  }

  lemma ServesRefresh(run: Run, w: nat, id: nat, u: string, f: string, t: string) returns (run': Run)
    requires Sound(run) && KeepsPassword(run, w, |run.events|, u)
    requires |Log(run)| > 0 && Log(run)[|Log(run)| - 1].op == Create(u, f, t)
    requires id in run.ws[|run.events|].tasks && run.ws[|run.events|].tasks[id] == Refresh(t)
    ensures Sound(run') && GoesOn(run, run') && |run'.events| == |run.events| + 1
    ensures KeepsPassword(run', w, |run.events|, u) && Refreshes(run', |run.events|, u, f)
  {
    var log, n := Log(run), |run.events|;
    var g, d := DrawsNew(log);
    var e := Advance(id, Latest(log), "", d);
    run' := OneMore(run, e);
    OneMoreIsRun(run, e);
    OneMoreKeeps(run, e, w, u);
    NextLog(run.ws[n], run.ttl, n, e);
    SoundLog(log, Op.Rotate(t, d));
    assert Advances(run', n, Refresh(t));
    RotatesAtOnce(Log(run'), run.ttl, u, f, t, d);
    AnswerIsOutcome(run', n, Refresh(t), Op.Rotate(t, d));
  }

  lemma GoesOnTwice(a: Run, b: Run, c: Run)
    requires GoesOn(a, b) && GoesOn(b, c)
    ensures GoesOn(a, c)
  {
  }

  /** What a longer run says of the events of a shorter one. */
  lemma OpensStill(run: Run, run': Run, c: nat, u: string, f: string, v: nat)
    requires IsRun(run) && IsRun(run') && GoesOn(run, run') && c < |run.events| && Opens(run, c, u, f, v)
    ensures Opens(run', c, u, f, v)
  {
  }

  /** A waiting request can go on to a session that refreshes. */
  lemma WaitingRefreshes(run: Run, w: nat, id: nat, u: string, v: nat) returns (run': Run)
    requires Sound(run) && v < w && KeepsPassword(run, w, |run.events|, u) && Waits(run.ws[|run.events|], id, u, v)
    ensures GoesOn(run, run') && Sound(run') && OldSessionRefreshes(run', w, |run.events|, u)
  {
    var run1 := ReadyToOpen(run, w, id, u, v);
    var run2, f, t := OpensNow(run1, w, id, u, v);
    run' := RefreshesNow(run2, w, u, f, t);
    GoesOnTwice(run, run1, run2);
    GoesOnTwice(run, run2, run');
    OpensStill(run2, run', |run1.events|, u, f, v);
    assert Refreshes(run', |run2.events| + 1, u, f);
  }

  /**
   * At any moment after a new password was stored at event w, some continuation under that
   * password lets a session refresh that was verified before w and not yet open, iff a request
   * verified before w is waiting to open one. So a password change is complete at its
   * revocation, up to the sessions the revocation missed, iff no such request waits then.
   */
  lemma OldSessionRefreshesIff(run: Run, w: nat, u: string)
    requires Sound(run) && w < |run.events| && KeepsPassword(run, w, |run.events|, u)
    ensures (exists run' :: GoesOn(run, run') && Sound(run') && OldSessionRefreshes(run', w, |run.events|, u))
            <==> exists id: nat, v: nat :: v < w && Waits(run.ws[|run.events|], id, u, v)
  {
    var n := |run.events|;
    if run' :| GoesOn(run, run') && Sound(run') && OldSessionRefreshes(run', w, n, u) {
      var c: nat, j: nat, v: nat, f :| v < w && n <= c < j < |run'.events| && Opens(run', c, u, f, v)
        && Refreshes(run', j, u, f) && KeepsPassword(run', w, j, u);
      WaitedBefore(run', w, n, c, run'.events[c].id, u, v);
      assert Waits(run.ws[n], run'.events[c].id, u, v);
    }
    if id: nat, v: nat :| v < w && Waits(run.ws[n], id, u, v) {
      var run' := WaitingRefreshes(run, w, id, u, v);
    }
  }

  // ------------------------------------------------------------------ a login that overtakes a password change

  /** The events: a login is verified, the password is changed in full, and only then the login's session opens. */
  function RaceEvents(u: string, email: string, first: string, second: string, f: string, t0: string, t1: string)
    : (events: seq<Event>)
    ensures |events| == 10
  {
    [Arrive(0, Login(email, first)), Advance(0, 0, "", ""),
     Arrive(1, ChangePassword(Some(u), first, second)), Advance(1, 0, "", ""), Advance(1, 0, "", ""),
     Advance(1, 0, "", ""), Advance(1, 0, "", ""),
     Advance(0, 0, f, t0),
     Arrive(2, Refresh(t0)), Advance(2, 0, "", t1)]
  }

  ghost function Chain(w: System, ttl: int, events: seq<Event>, n: nat): (ws: seq<System>)
    requires n <= |events|
    ensures |ws| == n + 1 && ws[0] == w
    ensures forall k | 0 <= k < n :: ws[k + 1] == Next(ws[k], ttl, k, events[k])
  {
    if n == 0 then [w] else var ws := Chain(w, ttl, events, n - 1); ws + [Next(ws[n - 1], ttl, n - 1, events[n - 1])]
  }

  ghost function RunFrom(db: Db, ttl: int, events: seq<Event>): (run: Run)
    ensures |run.ws| == |run.events| + 1 && run.ws[0] == System(db, map[], map[], []) && run.events == events
            && run.ttl == ttl
    ensures forall k | 0 <= k < |run.events| :: StepOk(run, k)
  {
    Run(ttl, Chain(System(db, map[], map[], []), ttl, events, |events|), events)
  }

  /** The password change, step by step, while task 0 waits. */
  lemma RaceCheck(db: Db, ttl: int, u: string, email: string, first: string, second: string, t: map<nat, Task>)
    requires Spec.UniqueEmails(db) && Spec.IsActive(db, u) && db.users[u].email == email
            && db.users[u].password == first
    requires 1 !in t
    ensures var w2 := System(db, map[], t, []);
            var w3 := Continue(w2, 1, ChangePassword(Some(u), first, second));
            var w4 := Continue(w2, 1, CheckCurrent(u, email, first, second));
            && Next(w2, ttl, 2, Arrive(1, ChangePassword(Some(u), first, second))) == w3
            && Next(w3, ttl, 3, Advance(1, 0, "", "")) == w4
            && Next(w4, ttl, 4, Advance(1, 0, "", "")) == Continue(w2, 1, StorePassword(u, second, Some(4)))
  {
    Spec.ByEmailFinds(db, u);
  }

  lemma RaceStorePassword(db: Db, ttl: int, u: string, second: string, t: map<nat, Task>)
    requires u in db.users && 1 in t && t[1] == StorePassword(u, second, Some(4))
    ensures var w6 := System(Spec.WithPassword(db, u, second), map[], t[1 := RevokeSessions(u, Some(4))], []);
            && Next(System(db, map[], t, []), ttl, 5, Advance(1, 0, "", "")) == w6
            && Next(w6, ttl, 6, Advance(1, 0, "", ""))
               == Continue(w6, 1, OpenSession(u, 4)).(log := [Step(0, Op.RevokeUser(u))])
  {
  }

  /** The login, verified before and opened after it, and the refresh of its session. */
  lemma RaceLogin(w7: System, w8: System, w9: System, w10: System, ttl: int, u: string, f: string, t0: string,
      t1: string)
    requires 2 !in w7.tasks && 0 in w7.tasks && w7.tasks[0] == OpenSession(u, 1)
    requires w8 == Next(w7, ttl, 7, Advance(0, 0, f, t0)) && w9 == Next(w8, ttl, 8, Arrive(2, Refresh(t0)))
    requires w10 == Next(w9, ttl, 9, Advance(2, 0, "", t1))
    ensures w9.log == w7.log + [Step(0, Create(u, f, t0))] && 2 in w9.tasks && w9.tasks[2] == Refresh(t0)
    ensures w10.log == w7.log + [Step(0, Create(u, f, t0)), Step(0, Op.Rotate(t0, t1))]
  {
    assert w8.log == w7.log + [Step(0, Create(u, f, t0))] && 2 !in w8.tasks;
  }

  lemma RaceStore(ttl: int, u: string, f: string, t0: string, t1: string)
    requires ttl > 0
    ensures var log := [Step(0, Op.RevokeUser(u)), Step(0, Create(u, f, t0))];
            R.Perform(R.After(log, ttl, 2), ttl, 0, Op.Rotate(t0, t1)).1
            == Rotation(Rotated(u, f, IssuedRefreshToken(t1, f, ttl)))
  {
    var log := [Step(0, Op.RevokeUser(u)), Step(0, Create(u, f, t0))];
    assert R.After(log, ttl, 0) == R.EMPTY;
    assert R.After(log, ttl, 1) == R.EMPTY;
    MissSignIn(ttl, u, f, t0);
    assert t0 in R.Sweep(SignedIn(ttl, u, f, t0), 0).refresh;
  }

  ghost predicate IsRace(run: Run, u: string, email: string, first: string, second: string, f: string, t0: string,
      t1: string) {
    && IsRun(run) && run.events == RaceEvents(u, email, first, second, f, t0, t1) && run.ttl > 0 && t0 != t1
    && Spec.IsActive(run.ws[0].db, u) && run.ws[0].db.users[u].email == email && run.ws[0].db.users[u].password == first
  }

  lemma RaceBegins(run: Run, u: string, email: string, first: string, second: string, f: string, t0: string, t1: string)
    requires IsRace(run, u, email, first, second, f, t0, t1)
    ensures run.ws[1] == System(run.ws[0].db, map[], map[0 := Login(email, first)], [])
    ensures run.ws[2] == System(run.ws[0].db, map[], map[0 := OpenSession(u, 1)], [])
  {
    assert StepOk(run, 0) && StepOk(run, 1);
    Spec.ByEmailFinds(run.ws[0].db, u);
  }

  lemma RacePasses(run: Run, u: string, email: string, first: string, second: string, f: string, t0: string, t1: string)
    requires IsRace(run, u, email, first, second, f, t0, t1)
    ensures run.ws[5] == System(run.ws[0].db, map[],
                                map[0 := OpenSession(u, 1)][1 := StorePassword(u, second, Some(4))], [])
  {
    RaceBegins(run, u, email, first, second, f, t0, t1);
    assert StepOk(run, 2) && StepOk(run, 3) && StepOk(run, 4);
    RaceCheck(run.ws[0].db, run.ttl, u, email, first, second, map[0 := OpenSession(u, 1)]);
  }

  lemma RaceChanges(run: Run, u: string, email: string, first: string, second: string, f: string, t0: string,
                    t1: string)
    requires IsRace(run, u, email, first, second, f, t0, t1)
    ensures var db, t := run.ws[0].db, map[0 := OpenSession(u, 1)];
            && run.ws[5] == System(db, map[], t[1 := StorePassword(u, second, Some(4))], [])
            && run.ws[6] == System(Spec.WithPassword(db, u, second), map[], t[1 := RevokeSessions(u, Some(4))], [])
            && run.ws[7] == System(Spec.WithPassword(db, u, second), map[], t[1 := OpenSession(u, 4)],
                                   [Step(0, Op.RevokeUser(u))])
  {
    RacePasses(run, u, email, first, second, f, t0, t1);
    assert StepOk(run, 5) && StepOk(run, 6);
    RaceStorePassword(run.ws[0].db, run.ttl, u, second, run.ws[5].tasks);
  }

  lemma RaceEnds(run: Run, u: string, email: string, first: string, second: string, f: string, t0: string, t1: string)
    requires IsRace(run, u, email, first, second, f, t0, t1)
    ensures run.ws[9].log == [Step(0, Op.RevokeUser(u)), Step(0, Create(u, f, t0))]
    ensures 2 in run.ws[9].tasks && run.ws[9].tasks[2] == Refresh(t0)
    ensures Log(run) == [Step(0, Op.RevokeUser(u)), Step(0, Create(u, f, t0)), Step(0, Op.Rotate(t0, t1))]
  {
    RaceChanges(run, u, email, first, second, f, t0, t1);
    assert StepOk(run, 7) && StepOk(run, 8) && StepOk(run, 9);
    RaceLogin(run.ws[7], run.ws[8], run.ws[9], run.ws[10], run.ttl, u, f, t0, t1);
  }

  lemma RaceOutcome(run: Run, u: string, email: string, first: string, second: string, f: string, t0: string,
                    t1: string)
    requires IsRace(run, u, email, first, second, f, t0, t1)
    ensures Sound(run) && Stores(run, 5, u, second) && Revokes(run, 6, u)
    ensures Verifies(run, 1, u, first) && Opens(run, 7, u, f, 1) && Refreshes(run, 9, u, f)
  {
    assert Sound(run) by {
      RaceEnds(run, u, email, first, second, f, t0, t1);
    }
    RaceChecks(run, u, email, first, second, f, t0, t1);
    RaceRefreshes(run, u, email, first, second, f, t0, t1);
  }

  lemma RaceChecks(run: Run, u: string, email: string, first: string, second: string, f: string, t0: string, t1: string)
    requires IsRace(run, u, email, first, second, f, t0, t1)
    ensures Stores(run, 5, u, second) && Revokes(run, 6, u) && Verifies(run, 1, u, first) && Opens(run, 7, u, f, 1)
  {
    RaceBegins(run, u, email, first, second, f, t0, t1);
    RaceChanges(run, u, email, first, second, f, t0, t1);
    assert Advances(run, 1, Login(email, first)) && Presents(run.ws[1].db, Login(email, first), u, first);
    assert Advances(run, 5, StorePassword(u, second, Some(4)));
    assert Executes(run, 6, RevokeSessions(u, Some(4)), Op.RevokeUser(u));
  }

  lemma RaceRefreshes(run: Run, u: string, email: string, first: string, second: string, f: string, t0: string,
      t1: string)
    requires IsRace(run, u, email, first, second, f, t0, t1)
    ensures Refreshes(run, 9, u, f)
  {
    RaceEnds(run, u, email, first, second, f, t0, t1);
    RaceStore(run.ttl, u, f, t0, t1);
    assert Executes(run, 9, Refresh(t0), Op.Rotate(t0, t1));
  }

  /**
   * The exception for a login under way is needed: from any tables with an active user there is
   * a sound run in which a session verified with the old password before the change, and opened
   * after it, outlives a password change.
   */
  lemma LoginOvertakesChange(db: Db, ttl: int, u: string, second: string, f: string, t0: string, t1: string)
    requires Spec.UniqueEmails(db) && Spec.IsActive(db, u) && ttl > 0 && t0 != t1
    ensures var first := db.users[u].password;
            var run := RunFrom(db, ttl, RaceEvents(u, db.users[u].email, first, second, f, t0, t1));
            && Sound(run) && Stores(run, 5, u, second) && Revokes(run, 6, u)
            && Verifies(run, 1, u, first) && Opens(run, 7, u, f, 1) && Refreshes(run, 9, u, f)
  {
    var email, first := db.users[u].email, db.users[u].password;
    var run := RunFrom(db, ttl, RaceEvents(u, email, first, second, f, t0, t1));
    assert IsRace(run, u, email, first, second, f, t0, t1);
    RaceOutcome(run, u, email, first, second, f, t0, t1);
  }
}
