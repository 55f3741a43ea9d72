/**
 * The two accounts of the auth flows agree: a request that nobody interrupts does what its flow
 * does. It leaves the same tables and reset keys, gives the same answer, and makes the session
 * store execute the operations that the flow performs.
 */
module Served {
  import opened Prelude
  import opened Tables
  import opened SessionModel
  import opened Requests
  import M = MemoryStore
  import Spec = Auth

  /** The flow a request stands for, with the clock and the random values it is served with. */
  function FlowOf(request: Task, now: int, familyId: string, drawn: string): Spec.Flow
    requires IsRequest(request)
  {
    match request
    case Login(email, password) => Spec.Login(now, email, password, familyId, drawn)
    case ChangePassword(subject, current, next) => Spec.ChangePassword(now, subject, current, next, familyId, drawn)
    case Refresh(p) => Spec.Refresh(now, p, drawn)
    case Logout(p) => Spec.Logout(p)
    case LogoutAll(subject) => Spec.LogoutAll(subject)
    case RequestReset(email) => Spec.RequestReset(now, email, drawn)
    case ResetPassword(token, next) => Spec.ResetPassword(now, token, next)
  }

  /** ws are the states through which request id takes its turns, one after the other, at one reading of the clock. */
  datatype Turns = Turns(ws: seq<System>, ttl: int, k: nat, id: nat, now: int, familyId: string, drawn: string)

  ghost predicate TurnOk(r: Turns, i: nat)
    requires i + 1 < |r.ws|
  {
    r.ws[i + 1] == Next(r.ws[i], r.ttl, r.k + i, Advance(r.id, r.now, r.familyId, r.drawn))
  }

  /** No request takes more than five turns. */
  ghost predicate FiveTurns(r: Turns) {
    |r.ws| == 6 && r.id in r.ws[0].tasks && forall i | 0 <= i < 5 :: TurnOk(r, i)
  }

  /** The in-memory store after the same operations. */
  function Replay(s: M.State, ttl: int, steps: seq<Step>): M.State {
    if steps == [] then s
    else M.Perform(Replay(s, ttl, steps[..|steps| - 1]), ttl, steps[|steps| - 1].now, steps[|steps| - 1].op).0
  }

  /** Both stores answer the presented token alike, as far as the flow can tell: it is refused by both or by neither. */
  ghost predicate SameVerdict(w: System, m: Spec.World, ttl: int, now: int, request: Task, drawn: string) {
    request.Refresh? ==>
      var out, r := Answer(w, ttl, now, Op.Rotate(request.presented, drawn)),
                    M.Rotate(m.sessions, ttl, now, request.presented, drawn).1;
      if r.Rotated? then out == Rotation(r) else !(out.Rotation? && out.result.Rotated?)
  }

  /** The request is answered as the flow is, over the same tables and reset keys. */
  ghost predicate Agrees(w: System, w': System, m: Spec.World, ttl: int, id: nat, f: Spec.Flow) {
    var (m', a) := Spec.Perform(m, ttl, f);
    && w'.db == m'.db && w'.resets == m'.resets
    && w'.tasks == w.tasks[id := Answered(a)]
    && w.log <= w'.log && m'.sessions == Replay(m.sessions, ttl, w'.log[|w.log|..])
  }

  lemma ReplayOne(s: M.State, ttl: int, a: Step)
    ensures Replay(s, ttl, [a]) == M.Perform(s, ttl, a.now, a.op).0
  {
    assert [a][..0] == [];
    assert Replay(s, ttl, []) == s;
  }

  lemma ReplayTwo(s: M.State, ttl: int, a: Step, b: Step)
    ensures Replay(s, ttl, [a, b]) == M.Perform(M.Perform(s, ttl, a.now, a.op).0, ttl, b.now, b.op).0
  {
    assert [a, b][..1] == [a];
    ReplayOne(s, ttl, a);
  }

  /** An answered request takes no more turns. */
  lemma {:induction false} AnsweredStays(r: Turns, n: nat, m: nat)
    requires FiveTurns(r) && n <= m <= 5 && r.id in r.ws[n].tasks && r.ws[n].tasks[r.id].Answered?
    ensures r.ws[m] == r.ws[n]
    decreases m
  {
    if n < m {
      AnsweredStays(r, n, m - 1);
      assert TurnOk(r, m - 1);
    }
  }

  ghost function End(r: Turns): System
    requires FiveTurns(r)
  {
    r.ws[5]
  }

  /** A turn that calls the store. */
  lemma CallTurn(r: Turns, i: nat, op: Op)
    requires FiveTurns(r) && i < 5 && r.id in r.ws[i].tasks
    requires Calls(r.ws[i].tasks[r.id], r.familyId, r.drawn) == Some(op)
    ensures var w, w' := r.ws[i], r.ws[i + 1];
            && w'.db == w.db && w'.resets == w.resets && w'.log == w.log + [Step(r.now, op)]
            && w'.tasks == w.tasks[r.id := AfterCall(w.tasks[r.id], r.ttl, r.now, r.familyId, r.drawn,
                                                     Answer(w, r.ttl, r.now, op))]
  {
    assert TurnOk(r, i);
  }

  /** A turn on the tables or the reset keys. */
  lemma LocalTurn(r: Turns, i: nat)
    requires FiveTurns(r) && i < 5 && r.id in r.ws[i].tasks
    requires Calls(r.ws[i].tasks[r.id], r.familyId, r.drawn) == None
    ensures r.ws[i + 1] == Local(r.ws[i], r.k + i, r.id, r.now, r.drawn, r.ws[i].tasks[r.id])
  {
    assert TurnOk(r, i);
  }

  /** What has to be shown once the request is answered at turn n. */
  lemma AgreesAt(r: Turns, m: Spec.World, n: nat, f: Spec.Flow, steps: seq<Step>)
    requires FiveTurns(r) && n <= 5
    requires var (m', a) := Spec.Perform(m, r.ttl, f);
             && r.ws[n].db == m'.db && r.ws[n].resets == m'.resets
             && r.ws[n].tasks == r.ws[0].tasks[r.id := Answered(a)]
             && r.ws[n].log == r.ws[0].log + steps && m'.sessions == Replay(m.sessions, r.ttl, steps)
    ensures Agrees(r.ws[0], End(r), m, r.ttl, r.id, f)
  {
    AnsweredStays(r, n, 5);
    assert r.ws[n].log[|r.ws[0].log|..] == steps;
  }

  ghost predicate Starts(r: Turns, m: Spec.World, request: Task) {
    FiveTurns(r) && r.ws[0].tasks[r.id] == request && m.db == r.ws[0].db && m.resets == r.ws[0].resets
  }

  lemma LoginServed(r: Turns, m: Spec.World, email: string, password: string)
    requires Starts(r, m, Login(email, password))
    ensures Agrees(r.ws[0], End(r), m, r.ttl, r.id, Spec.Login(r.now, email, password, r.familyId, r.drawn))
  {
    var w, f := r.ws[0], Spec.Login(r.now, email, password, r.familyId, r.drawn);
    var u := Spec.VerifyCredentials(w.db, email, password);
    LocalTurn(r, 0);
    if u == None {
      AgreesAt(r, m, 1, f, []);
    } else {
      var op := Create(u.value, r.familyId, r.drawn);
      CallTurn(r, 1, op);
      ReplayOne(m.sessions, r.ttl, Step(r.now, op));
      AgreesAt(r, m, 2, f, [Step(r.now, op)]);
    }
  }

  lemma LogoutServed(r: Turns, m: Spec.World, p: string)
    requires Starts(r, m, Logout(p))
    ensures Agrees(r.ws[0], End(r), m, r.ttl, r.id, Spec.Logout(p))
  {
    CallTurn(r, 0, Op.Revoke(p));
    ReplayOne(m.sessions, r.ttl, Step(r.now, Op.Revoke(p)));
    AgreesAt(r, m, 1, Spec.Logout(p), [Step(r.now, Op.Revoke(p))]);
  }

  lemma LogoutAllServed(r: Turns, m: Spec.World, subject: Option<string>)
    requires Starts(r, m, LogoutAll(subject))
    ensures Agrees(r.ws[0], End(r), m, r.ttl, r.id, Spec.LogoutAll(subject))
  {
    if subject == None {
      LocalTurn(r, 0);
      AgreesAt(r, m, 1, Spec.LogoutAll(subject), []);
    } else {
      var op := Op.RevokeUser(subject.value);
      CallTurn(r, 0, op);
      ReplayOne(m.sessions, r.ttl, Step(r.now, op));
      AgreesAt(r, m, 1, Spec.LogoutAll(subject), [Step(r.now, op)]);
    }
  }

  lemma RequestResetServed(r: Turns, m: Spec.World, email: string)
    requires Starts(r, m, RequestReset(email))
    ensures Agrees(r.ws[0], End(r), m, r.ttl, r.id, Spec.RequestReset(r.now, email, r.drawn))
  {
    var f := Spec.RequestReset(r.now, email, r.drawn);
    LocalTurn(r, 0);
    if Spec.ByEmail(r.ws[0].db, email) == None {
      AgreesAt(r, m, 1, f, []);
    } else {
      LocalTurn(r, 1);
      AgreesAt(r, m, 2, f, []);
    }
  }

  /** The turns after a successful rotation: look the user up, and clean up if the user is gone. */
  lemma AdmitServed(r: Turns, m: Spec.World, p: string, u: string, refresh: IssuedRefreshToken)
    requires FiveTurns(r) && Rotates(r, m, p, u, refresh)
    ensures Agrees(r.ws[0], End(r), m, r.ttl, r.id, Spec.Refresh(r.now, p, r.drawn))
  {
    var rotate := Step(r.now, Op.Rotate(p, r.drawn));
    LocalTurn(r, 1);
    if Spec.IsActive(m.db, u) {
      ReplayOne(m.sessions, r.ttl, rotate);
      AgreesAt(r, m, 2, Spec.Refresh(r.now, p, r.drawn), [rotate]);
    } else {
      CleanUpServed(r, m, p, u, refresh);
    }
  }

  /** After the first turn both stores have rotated the token of user u. */
  ghost predicate Rotates(r: Turns, m: Spec.World, p: string, u: string, refresh: IssuedRefreshToken)
    requires FiveTurns(r)
  {
    var v, w1 := M.Rotate(m.sessions, r.ttl, r.now, p, r.drawn).1, r.ws[1];
    && v.Rotated? && v.userId == u && v.refresh == refresh
    && m.db == r.ws[0].db && m.resets == r.ws[0].resets
    && w1.db == m.db && w1.resets == m.resets && w1.tasks == r.ws[0].tasks[r.id := Admit(u, refresh)]
    && w1.log == r.ws[0].log + [Step(r.now, Op.Rotate(p, r.drawn))]
  }

  lemma CleanUpServed(r: Turns, m: Spec.World, p: string, u: string, refresh: IssuedRefreshToken)
    requires FiveTurns(r) && Rotates(r, m, p, u, refresh) && !Spec.IsActive(m.db, u)
    ensures Agrees(r.ws[0], End(r), m, r.ttl, r.id, Spec.Refresh(r.now, p, r.drawn))
  {
    var rotate, revoke := Step(r.now, Op.Rotate(p, r.drawn)), Step(r.now, Op.RevokeUser(u));
    LocalTurn(r, 1);
    CallTurn(r, 2, revoke.op);
    ReplayTwo(m.sessions, r.ttl, rotate, revoke);
    AgreesAt(r, m, 3, Spec.Refresh(r.now, p, r.drawn), [rotate, revoke]);
  }

  lemma RefreshServed(r: Turns, m: Spec.World, p: string)
    requires Starts(r, m, Refresh(p)) && SameVerdict(r.ws[0], m, r.ttl, r.now, Refresh(p), r.drawn)
    ensures Agrees(r.ws[0], End(r), m, r.ttl, r.id, Spec.Refresh(r.now, p, r.drawn))
  {
    var rotate := Step(r.now, Op.Rotate(p, r.drawn));
    var v := M.Rotate(m.sessions, r.ttl, r.now, p, r.drawn).1;
    CallTurn(r, 0, rotate.op);
    if v.Rotated? {
      AdmitServed(r, m, p, v.userId, v.refresh);
    } else {
      ReplayOne(m.sessions, r.ttl, rotate);
      AgreesAt(r, m, 1, Spec.Refresh(r.now, p, r.drawn), [rotate]);
    }
  }

  lemma ResetServed(r: Turns, m: Spec.World, token: string, next: string)
    requires Starts(r, m, ResetPassword(token, next))
    ensures Agrees(r.ws[0], End(r), m, r.ttl, r.id, Spec.ResetPassword(r.now, token, next))
  {
    var w, f := r.ws[0], Spec.ResetPassword(r.now, token, next);
    LocalTurn(r, 0);
    if token in w.resets && r.now < w.resets[token].deadline && w.resets[token].userId != "" {
      var u := w.resets[token].userId;
      LocalTurn(r, 1);
      if u !in w.db.users {
        AgreesAt(r, m, 2, f, []);
      } else {
        CallTurn(r, 2, Op.RevokeUser(u));
        ReplayOne(m.sessions, r.ttl, Step(r.now, Op.RevokeUser(u)));
        AgreesAt(r, m, 3, f, [Step(r.now, Op.RevokeUser(u))]);
      }
    } else {
      AgreesAt(r, m, 1, f, []);
    }
  }

  lemma ChangeTurns(r: Turns, u: string, next: string, v: nat)
    requires FiveTurns(r) && u in r.ws[0].db.users
    requires r.ws[2] == Continue(r.ws[0], r.id, StorePassword(u, next, Some(v)))
    ensures r.ws[5].db == Spec.WithPassword(r.ws[0].db, u, next) && r.ws[5].resets == r.ws[0].resets
    ensures r.ws[5].log
            == r.ws[0].log + [Step(r.now, Op.RevokeUser(u)), Step(r.now, Create(u, r.familyId, r.drawn))]
    ensures r.ws[5].tasks
            == r.ws[0].tasks[r.id := Answered(Spec.Issued(u, IssuedRefreshToken(r.drawn, r.familyId, r.now + r.ttl)))]
  {
    LocalTurn(r, 2);
    CallTurn(r, 3, Op.RevokeUser(u));
    CallTurn(r, 4, Create(u, r.familyId, r.drawn));
  }

  /** Storing the password, revoking, and opening the new session. */
  lemma ChangeServed(r: Turns, m: Spec.World, u: string, current: string, next: string, v: nat)
    requires FiveTurns(r) && m.db == r.ws[0].db && m.resets == r.ws[0].resets && Spec.IsActive(m.db, u)
    requires Spec.VerifyCredentials(m.db, m.db.users[u].email, current).Some?
    requires r.ws[2] == Continue(r.ws[0], r.id, StorePassword(u, next, Some(v)))
    ensures Agrees(r.ws[0], End(r), m, r.ttl, r.id,
                   Spec.ChangePassword(r.now, Some(u), current, next, r.familyId, r.drawn))
  {
    var revoke, open := Step(r.now, Op.RevokeUser(u)), Step(r.now, Create(u, r.familyId, r.drawn));
    ChangeTurns(r, u, next, v);
    ReplayTwo(m.sessions, r.ttl, revoke, open);
    AgreesAt(r, m, 5, Spec.ChangePassword(r.now, Some(u), current, next, r.familyId, r.drawn), [revoke, open]);
  }

  lemma ChangePasswordServed(r: Turns, m: Spec.World, subject: Option<string>, current: string, next: string)
    requires Starts(r, m, ChangePassword(subject, current, next))
    ensures Agrees(r.ws[0], End(r), m, r.ttl, r.id,
                   Spec.ChangePassword(r.now, subject, current, next, r.familyId, r.drawn))
  {
    var f := Spec.ChangePassword(r.now, subject, current, next, r.familyId, r.drawn);
    LocalTurn(r, 0);
    if subject == None || !Spec.IsActive(m.db, subject.value) {
      AgreesAt(r, m, 1, f, []);
    } else {
      LocalTurn(r, 1);
      if Spec.VerifyCredentials(m.db, m.db.users[subject.value].email, current) == None {
        AgreesAt(r, m, 2, f, []);
      } else {
        ChangeServed(r, m, subject.value, current, next, r.k + 1);
      }
    }
  }

  /** A request served alone does what its flow does. */
  lemma ServedAlone(r: Turns, m: Spec.World)
    requires FiveTurns(r) && IsRequest(r.ws[0].tasks[r.id]) && m.db == r.ws[0].db && m.resets == r.ws[0].resets
    requires SameVerdict(r.ws[0], m, r.ttl, r.now, r.ws[0].tasks[r.id], r.drawn)
    ensures Agrees(r.ws[0], End(r), m, r.ttl, r.id, FlowOf(r.ws[0].tasks[r.id], r.now, r.familyId, r.drawn))
  {
    match r.ws[0].tasks[r.id]
    case Login(email, password) => LoginServed(r, m, email, password);
    case ChangePassword(subject, current, next) => ChangePasswordServed(r, m, subject, current, next);
    case Refresh(p) => RefreshServed(r, m, p);
    case Logout(p) => LogoutServed(r, m, p);
    case LogoutAll(subject) => LogoutAllServed(r, m, subject);
    case RequestReset(email) => RequestResetServed(r, m, email);
    case ResetPassword(token, next) => ResetServed(r, m, token, next);
  }
}
