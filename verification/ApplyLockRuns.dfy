/** Many appliers, one connection pool, one advisory lock. Connections may be lost, and the calls of the driver may
    panic, at any moment. */
module ApplyLockRuns {
  import opened ApplyLock

  type Conn = nat
  type Applier = nat

  /** Where an applier is in the wrapper. */
  datatype Phase =
    | Away
    | Polling(conn: Conn)
    | Locked(conn: Conn)
    | Inside(conn: Conn)
    | RunningHooks(conn: Conn)
    | Leaving(conn: Conn, lockHeld: bool, transactionOpen: bool, discard: bool)

  /** `sessions` holds the connections the server still serves; closing one takes effect there later. */
  datatype System = System(phases: map<Applier, Phase>, sessions: map<Conn, Session>, idle: set<Conn>, closing: set<Conn>)

  datatype Step =
    | Connect(c: Conn)
    | Drop(c: Conn)
    | Take(a: Applier, c: Conn)
    | PollOnce(a: Applier, poll: Poll)
    | Start(a: Applier, begun: Begin)
    | Finish(a: Applier, body: Body, rollback: Rollback, commit: Commit)
    | HooksEnd(a: Applier)
    | CleanUp(a: Applier, unlock: Unlock)

  function PhaseOf(p: System, a: Applier): Phase {
    if a in p.phases then p.phases[a] else Away
  }

  predicate Uses(p: System, a: Applier, c: Conn) {
    PhaseOf(p, a) != Away && PhaseOf(p, a).conn == c
  }

  predicate Holds(p: System, c: Conn) {
    c in p.sessions && p.sessions[c].locks > 0
  }

  /** The server grants the lock only while no other session has it. */
  ghost predicate FreeFor(p: System, c: Conn) {
    c in p.sessions && forall d :: Holds(p, d) ==> d == c
  }

  function Touch(p: System, c: Conn, after: Session): map<Conn, Session> {
    if c in p.sessions then p.sessions[c := after] else p.sessions
  }

  /** The session a step works on; a lost one answers nothing, so only failures can be seen on it. */
  function SessionOf(p: System, c: Conn): Session {
    if c in p.sessions then p.sessions[c] else CLEAN
  }

  predicate Reached(p: System, a: Applier, good: bool) {
    PhaseOf(p, a) != Away && (good ==> PhaseOf(p, a).conn in p.sessions)
  }

  ghost predicate Enabled(p: System, step: Step) {
    match step
    case Connect(c) => c !in p.sessions && c !in p.idle && c !in p.closing && forall a :: !Uses(p, a, c)
    case Drop(c) => c in p.sessions
    case Take(a, c) => PhaseOf(p, a) == Away && c in p.idle
    case PollOnce(a, o) =>
      PhaseOf(p, a).Polling? &&
      (match o
       case Granted => FreeFor(p, PhaseOf(p, a).conn)
       case Busy => PhaseOf(p, a).conn in p.sessions && !FreeFor(p, PhaseOf(p, a).conn)
       case Deadline => true
       case PollFailed(taken) => taken ==> FreeFor(p, PhaseOf(p, a).conn)
       case PollPanicked(taken) => taken ==> FreeFor(p, PhaseOf(p, a).conn))
    case Start(a, o) => PhaseOf(p, a).Locked? && Reached(p, a, o == Began)
    case Finish(a, body, rollback, commit) =>
      PhaseOf(p, a).Inside? && Reached(p, a, (body.end == Errored && !body.ended && rollback == RolledBack)
                                             || (body.end == Returned && !body.ended && commit == Committed))
    case HooksEnd(a) => PhaseOf(p, a).RunningHooks?
    case CleanUp(a, unlock) =>
      PhaseOf(p, a).Leaving? && Reached(p, a, PhaseOf(p, a).lockHeld && unlock == Unlocked)
  }

  /** Which phase the end of the body leads to, and what it leaves of the session. */
  function AfterBody(c: Conn, s: Session, body: Body, rollback: Rollback, commit: Commit): (Phase, Session) {
    var t := BodyEffect(s, body);
    match body.end
    case Panicked => (Leaving(c, true, true, false), t)
    case Errored =>
      if body.ended then (Leaving(c, true, false, false), t)
      else if rollback == RolledBack then (Leaving(c, true, false, false), RollbackEffect(t, rollback))
      else (Leaving(c, true, true, rollback.RollbackFailed?), RollbackEffect(t, rollback))
    case Returned =>
      if body.ended then (Leaving(c, true, true, true), t)
      else if commit == Committed then (RunningHooks(c), CommitEffectOn(t, commit))
      else (Leaving(c, true, true, commit.CommitFailed?), CommitEffectOn(t, commit))
  }

  function AfterPoll(c: Conn, o: Poll): Phase {
    match o
    case Granted => Locked(c)
    case Busy => Polling(c)
    case Deadline => Leaving(c, false, false, false)
    case _ => Leaving(c, false, false, o.PollFailed?)
  }

  function AfterBegin(c: Conn, o: Begin): Phase {
    if o == Began then Inside(c) else Leaving(c, true, false, o.BeginFailed?)
  }

  /** The deferred clean-up hands back only a connection it knows to be clean. */
  predicate HandsBack(f: Phase, unlock: Unlock)
    requires f.Leaving?
  {
    !f.transactionOpen && !f.discard && (f.lockHeld ==> unlock == Unlocked)
  }

  /** A clean-up whose unlock panics neither hands the connection back nor closes it. */
  predicate Abandoned(f: Phase, unlock: Unlock)
    requires f.Leaving?
  {
    !f.transactionOpen && !f.discard && f.lockHeld && unlock.UnlockPanicked?
  }

  function Unlocking(f: Phase, s: Session, unlock: Unlock): Session
    requires f.Leaving?
  {
    if !f.transactionOpen && !f.discard && f.lockHeld then UnlockEffect(s, unlock) else s
  }

  ghost function Next(p: System, step: Step): System
    requires Enabled(p, step)
  {
    match step
    case Connect(c) => p.(sessions := p.sessions[c := CLEAN], idle := p.idle + {c})
    case Drop(c) => p.(sessions := p.sessions - {c})
    case Take(a, c) => p.(phases := p.phases[a := Polling(c)], idle := p.idle - {c})
    case PollOnce(a, o) =>
      var c := PhaseOf(p, a).conn;
      p.(phases := p.phases[a := AfterPoll(c, o)], sessions := Touch(p, c, PollEffect(SessionOf(p, c), o)))
    case Start(a, o) =>
      var c := PhaseOf(p, a).conn;
      p.(phases := p.phases[a := AfterBegin(c, o)],
         sessions := Touch(p, c, BeginEffect(SessionOf(p, c), o)))
    case Finish(a, body, rollback, commit) =>
      var c := PhaseOf(p, a).conn;
      var (f, s) := AfterBody(c, SessionOf(p, c), body, rollback, commit);
      p.(phases := p.phases[a := f], sessions := Touch(p, c, s))
    case HooksEnd(a) => p.(phases := p.phases[a := Leaving(PhaseOf(p, a).conn, true, false, false)])
    case CleanUp(a, unlock) =>
      var f := PhaseOf(p, a);
      var back := HandsBack(f, unlock);
      System(p.phases[a := Away], Touch(p, f.conn, Unlocking(f, SessionOf(p, f.conn), unlock)),
             if back then p.idle + {f.conn} else p.idle,
             if back || Abandoned(f, unlock) then p.closing else p.closing + {f.conn})
  }

  // ---------------------------------------------------------------- the invariant

  /** What an applier's phase says about its session, while the server still serves it. */
  predicate Agrees(f: Phase, s: Session) {
    && s.locks <= 1 && (s.txOpen ==> s.locks == 1)
    && match f
       case Away => true
       case Polling(_) => s == CLEAN
       case Locked(_) => s == Session(1, false)
       case Inside(_) => s == Session(1, true)
       case RunningHooks(_) => s == Session(1, false)
       case Leaving(_, held, tx, discard) => !tx && !discard ==> s == Session(if held then 1 else 0, false)
  }

  ghost predicate Apart(p: System) {
    && (forall a, b, c :: Uses(p, a, c) && Uses(p, b, c) ==> a == b)
    && (forall a, c :: Uses(p, a, c) ==> c !in p.idle && c !in p.closing)
    && p.idle !! p.closing
  }

  /** Whatever holds the lock is in the pool, on its way out, or in use. */
  ghost predicate Accounted(p: System) {
    forall c :: Holds(p, c) ==> c in p.idle || c in p.closing || exists a :: Uses(p, a, c)
  }

  ghost predicate Sound(p: System) {
    && (forall c :: c in p.sessions ==> Agrees(Away, p.sessions[c]))
    && (forall c :: c in p.sessions && c in p.idle ==> p.sessions[c] == CLEAN)
    && (forall a, c :: Uses(p, a, c) && c in p.sessions ==> Agrees(PhaseOf(p, a), p.sessions[c]))
  }

  /** Only the server's own rule is used here: the lock has at most one owner. */
  ghost predicate Exclusive(p: System) {
    forall c, d :: Holds(p, c) && Holds(p, d) ==> c == d
  }

  ghost predicate Inv(p: System) {
    Apart(p) && Accounted(p) && Sound(p) && Exclusive(p)
  }

  predicate Owns(f: Phase) {
    f.Locked? || f.Inside? || f.RunningHooks?
  }

  /** An applier past the lock holds it, as long as the server still serves its connection. */
  ghost predicate Guarded(p: System) {
    forall a, c :: Uses(p, a, c) && c in p.sessions && Owns(PhaseOf(p, a)) ==> Holds(p, c)
  }

  /** What every step keeps, panics and all. */
  ghost predicate Held(p: System) {
    Apart(p) && Guarded(p) && Exclusive(p)
  }

  /** The panics that leave something on the server that the wrapper does not know of: a lock taken or a transaction
      begun inside the panicking call, or a lock not released by it. */
  predicate Slips(p: System, step: Step) {
    match step
    case PollOnce(_, o) => o == PollPanicked(true)
    case Start(a, o) => o == BeginPanicked(true) && PhaseOf(p, a) != Away && PhaseOf(p, a).conn in p.sessions
    case CleanUp(a, unlock) =>
      unlock == UnlockPanicked(false) && PhaseOf(p, a).Leaving? && Abandoned(PhaseOf(p, a), unlock)
      && PhaseOf(p, a).conn in p.sessions
    case _ => false
  }

  /** A step of one applier that keeps its connection leaves every other applier's connection alone. */
  lemma Advance(p: System, a: Applier, f: Phase, ss: map<Conn, Session>)
    requires PhaseOf(p, a) != Away && f != Away && f.conn == PhaseOf(p, a).conn
    ensures var q := p.(phases := p.phases[a := f], sessions := ss);
            && (forall b, c :: Uses(q, b, c) <==> Uses(p, b, c))
            && (forall b :: b != a ==> PhaseOf(q, b) == PhaseOf(p, b)) && PhaseOf(q, a) == f
  {
  }

  lemma NextUses(p: System, step: Step)
    requires Enabled(p, step)
    ensures var q := Next(p, step);
            forall b, c :: Uses(q, b, c) <==>
              match step
              case Take(a, d) => if b == a then c == d else Uses(p, b, c)
              case CleanUp(a, _) => b != a && Uses(p, b, c)
              case _ => Uses(p, b, c)
  {
    hide FreeFor, Touch, SessionOf;
  }

  lemma NextApart(p: System, step: Step)
    requires Apart(p) && Enabled(p, step)
    ensures Apart(Next(p, step))
  {
    NextUses(p, step);
    if step.CleanUp? { assert Uses(p, step.a, PhaseOf(p, step.a).conn); }
    hide Uses, FreeFor, Touch, SessionOf;
  }

  lemma NextAccounted(p: System, step: Step)
    requires Apart(p) && Accounted(p) && Sound(p) && Enabled(p, step) && !Slips(p, step)
    ensures Accounted(Next(p, step))
  {
    NextUses(p, step);
    var q := Next(p, step);
    forall c | Holds(q, c) && c !in q.idle && c !in q.closing
      ensures exists a :: Uses(q, a, c)
    {
      if step.CleanUp? {
        CleanUpReleases(p, step.a, step.unlock);
        assert Holds(p, c);
        var a :| Uses(p, a, c);
        assert Uses(q, a, c);
      } else if step.PollOnce? && c == PhaseOf(p, step.a).conn {
        assert Uses(p, step.a, c) && Uses(q, step.a, c);
      } else {
        assert Holds(p, c);
        var a :| Uses(p, a, c);
        assert Uses(q, a, c);
      }
    }
  }

  /** A connection that a clean-up does not send anywhere no longer holds the lock. */
  lemma CleanUpReleases(p: System, a: Applier, unlock: Unlock)
    requires Apart(p) && Sound(p) && Enabled(p, CleanUp(a, unlock)) && !Slips(p, CleanUp(a, unlock))
    ensures var q, c := Next(p, CleanUp(a, unlock)), PhaseOf(p, a).conn;
            && (c in q.idle || c in q.closing || !Holds(q, c))
            && forall d :: Holds(q, d) ==> Holds(p, d)
  {
    assert Uses(p, a, PhaseOf(p, a).conn);
  }

  lemma AdvanceSound(p: System, a: Applier, f: Phase, s: Session)
    requires Apart(p) && Sound(p) && PhaseOf(p, a) != Away && f != Away && f.conn == PhaseOf(p, a).conn
    requires f.conn in p.sessions ==> Agrees(f, s)
    ensures Sound(p.(phases := p.phases[a := f], sessions := Touch(p, f.conn, s)))
  {
    Advance(p, a, f, Touch(p, f.conn, s));
    assert Uses(p, a, f.conn);
    hide Uses;
  }

  lemma NextSound(p: System, step: Step)
    requires Apart(p) && Sound(p) && Enabled(p, step) && !Slips(p, step)
    ensures Sound(Next(p, step))
  {
    match step
    case PollOnce(a, o) =>
      var c := PhaseOf(p, a).conn;
      assert Uses(p, a, c);
      AdvanceSound(p, a, AfterPoll(c, o), PollEffect(SessionOf(p, c), o));
    case Start(a, o) =>
      var c := PhaseOf(p, a).conn;
      assert Uses(p, a, c);
      AdvanceSound(p, a, Next(p, step).phases[a], BeginEffect(SessionOf(p, c), o));
    case Finish(a, body, rollback, commit) =>
      var c := PhaseOf(p, a).conn;
      assert Uses(p, a, c);
      var (f, s) := AfterBody(c, SessionOf(p, c), body, rollback, commit);
      AdvanceSound(p, a, f, s);
    case HooksEnd(a) =>
      var c := PhaseOf(p, a).conn;
      assert Uses(p, a, c);
      AdvanceSound(p, a, Leaving(c, true, false, false), SessionOf(p, c));
      assert Touch(p, c, SessionOf(p, c)) == p.sessions;
    case CleanUp(a, unlock) => CleanUpSound(p, a, unlock);
    case Take(a, c) =>
      NextUses(p, step);
      hide Uses;
    case _ =>
      NextUses(p, step);
  }

  lemma CleanUpSound(p: System, a: Applier, unlock: Unlock)
    requires Apart(p) && Sound(p) && Enabled(p, CleanUp(a, unlock)) && !Slips(p, CleanUp(a, unlock))
    ensures Sound(Next(p, CleanUp(a, unlock)))
  {
    NextUses(p, CleanUp(a, unlock));
    var q, c := Next(p, CleanUp(a, unlock)), PhaseOf(p, a).conn;
    assert Uses(p, a, c);
    assert forall b :: b != a ==> PhaseOf(q, b) == PhaseOf(p, b);
    hide Uses;
    forall b, d | Uses(q, b, d) && d in q.sessions
      ensures Agrees(PhaseOf(q, b), q.sessions[d])
    {
      assert Uses(p, b, d) && d != c;
    }
  }

  lemma NextExclusive(p: System, step: Step)
    requires Exclusive(p) && Enabled(p, step)
    ensures Exclusive(Next(p, step))
  {
    var q := Next(p, step);
    forall c, d | Holds(q, c) && Holds(q, d)
      ensures c == d
    {
      if step.PollOnce? && step.poll in {Granted, PollFailed(true), PollPanicked(true)} {
        assert c != PhaseOf(p, step.a).conn ==> Holds(p, c);
        assert d != PhaseOf(p, step.a).conn ==> Holds(p, d);
      } else {
        assert Holds(p, c) && Holds(p, d);
      }
    }
  }

  lemma NextGuarded(p: System, step: Step)
    requires Apart(p) && Guarded(p) && Enabled(p, step)
    ensures Guarded(Next(p, step))
  {
    NextUses(p, step);
    var q := Next(p, step);
    forall a, c | Uses(q, a, c) && c in q.sessions && Owns(PhaseOf(q, a))
      ensures Holds(q, c)
    {
      OwnerHolds(p, step, a, c);
    }
  }

  lemma OwnerHolds(p: System, step: Step, a: Applier, c: Conn)
    requires Apart(p) && Guarded(p) && Enabled(p, step)
    requires Uses(Next(p, step), a, c) && c in Next(p, step).sessions && Owns(PhaseOf(Next(p, step), a))
    ensures Holds(Next(p, step), c)
  {
    NextUses(p, step);
    assert Uses(p, a, c);
    match step
    case PollOnce(b, _) => assert b != a ==> Uses(p, b, PhaseOf(p, b).conn);
    case Start(b, _) => assert b != a ==> Uses(p, b, PhaseOf(p, b).conn);
    case Finish(b, _, _, _) => assert b != a ==> Uses(p, b, PhaseOf(p, b).conn);
    case HooksEnd(b) =>
    case CleanUp(b, _) => assert Uses(p, b, PhaseOf(p, b).conn);
    case _ =>
  }

  /** Every step, panics included, keeps what mutual exclusion needs. */
  lemma NextHeld(p: System, step: Step)
    requires Held(p) && Enabled(p, step)
    ensures Held(Next(p, step))
  {
    NextApart(p, step);
    NextGuarded(p, step);
    NextExclusive(p, step);
  }

  /** The whole invariant is kept exactly by the steps that leave nothing unknown behind. */
  lemma NextInv(p: System, step: Step)
    requires Inv(p) && Enabled(p, step)
    ensures Inv(Next(p, step)) <==> !Slips(p, step)
  {
    if Slips(p, step) {
      SlipBreaks(p, step);
    } else {
      NextApart(p, step);
      NextAccounted(p, step);
      NextSound(p, step);
      NextExclusive(p, step);
    }
  }

  lemma SlipBreaks(p: System, step: Step)
    requires Inv(p) && Enabled(p, step) && Slips(p, step)
    ensures !Inv(Next(p, step))
  {
    var q, c := Next(p, step), PhaseOf(p, step.a).conn;
    assert Uses(p, step.a, c);
    NextUses(p, step);
    if step.CleanUp? {
      assert Holds(q, c);
      assert !Accounted(q);
    } else {
      assert Uses(q, step.a, c) && !Agrees(PhaseOf(q, step.a), q.sessions[c]);
    }
  }

  // ---------------------------------------------------------------- runs

  const START := System(map[], map[], {}, {})

  ghost predicate Legal(p: System, steps: seq<Step>)
    decreases |steps|
  {
    steps == [] || (Enabled(p, steps[0]) && Legal(Next(p, steps[0]), steps[1..]))
  }

  ghost function Run(p: System, steps: seq<Step>): System
    requires Legal(p, steps)
    decreases |steps|
  {
    if steps == [] then p else Run(Next(p, steps[0]), steps[1..])
  }

  /** No panic on the way left anything unknown behind. */
  ghost predicate NoSlips(p: System, steps: seq<Step>)
    requires Legal(p, steps)
    decreases |steps|
  {
    steps == [] || (!Slips(p, steps[0]) && NoSlips(Next(p, steps[0]), steps[1..]))
  }

  lemma {:induction false} HeldOverRuns(p: System, steps: seq<Step>)
    requires Held(p) && Legal(p, steps)
    ensures Held(Run(p, steps))
    decreases |steps|
  {
    if steps != [] {
      NextHeld(p, steps[0]);
      HeldOverRuns(Next(p, steps[0]), steps[1..]);
    }
  }

  lemma {:induction false} InvOverRuns(p: System, steps: seq<Step>)
    requires Inv(p) && Legal(p, steps) && NoSlips(p, steps)
    ensures Inv(Run(p, steps))
    decreases |steps|
  {
    if steps != [] {
      NextInv(p, steps[0]);
      InvOverRuns(Next(p, steps[0]), steps[1..]);
    }
  }

  /** In the transaction body, on a connection the server still serves. */
  predicate Works(p: System, a: Applier) {
    PhaseOf(p, a).Inside? && PhaseOf(p, a).conn in p.sessions
  }

  /** After any run, whatever panicked, at most one applier is in the transaction body on a connection the server still
      serves, and it is the lock's owner. */
  lemma OneWorks(steps: seq<Step>)
    requires Legal(START, steps)
    ensures var p := Run(START, steps);
            && (forall a, b :: Works(p, a) && Works(p, b) ==> a == b)
            && (forall a :: Works(p, a) ==> FreeFor(p, PhaseOf(p, a).conn) && Holds(p, PhaseOf(p, a).conn))
  {
    HeldOverRuns(START, steps);
    var p := Run(START, steps);
    hide Legal, Run;
    forall a | Works(p, a)
      ensures Uses(p, a, PhaseOf(p, a).conn) && Holds(p, PhaseOf(p, a).conn)
    {
      assert Uses(p, a, PhaseOf(p, a).conn);
    }
  }

  /** And unless a panic left something unknown behind, an idle connection is clean, and no connection but the working
      applier's has a transaction open. */
  lemma LockProtocol(steps: seq<Step>)
    requires Legal(START, steps)
    ensures var p := Run(START, steps);
            && (forall a, b :: Works(p, a) && Works(p, b) ==> a == b)
            && (NoSlips(START, steps) ==>
                  && (forall c :: c in p.idle && c in p.sessions ==> p.sessions[c] == CLEAN)
                  && (forall a, d :: Works(p, a) && d in p.sessions && p.sessions[d].txOpen ==> d == PhaseOf(p, a).conn))
  {
    OneWorks(steps);
    if NoSlips(START, steps) {
      InvOverRuns(START, steps);
      var p := Run(START, steps);
      hide Legal, Run, NoSlips;
      forall a, d | Works(p, a) && d in p.sessions && p.sessions[d].txOpen
        ensures d == PhaseOf(p, a).conn
      {
        assert Holds(p, d) && Holds(p, PhaseOf(p, a).conn);
      }
    }
  }

  /** The lock is never stranded: once every applier is away, only a connection on its way out can hold it, unless a
      panic left it behind. */
  lemma NeverStranded(steps: seq<Step>, c: Conn)
    requires Legal(START, steps) && Holds(Run(START, steps), c)
    requires forall a :: PhaseOf(Run(START, steps), a) == Away
    ensures NoSlips(START, steps) ==> c in Run(START, steps).closing
  {
    if NoSlips(START, steps) { InvOverRuns(START, steps); }
  }

  /** Taken inside a panicking query, the lock goes back to the pool with its connection. */
  lemma PanicStrands(a: Applier, c: Conn)
    ensures var steps := [Connect(c), Take(a, c), PollOnce(a, PollPanicked(true)), CleanUp(a, Unlocked)];
            && Legal(START, steps) && Holds(Run(START, steps), c) && c in Run(START, steps).idle
            && forall b :: PhaseOf(Run(START, steps), b) == Away
  {
    var p1 := Next(START, Connect(c));
    var p2 := Next(p1, Take(a, c));
    var p3 := Next(p2, PollOnce(a, PollPanicked(true)));
    var p4 := Next(p3, CleanUp(a, Unlocked));
    var steps := [Connect(c), Take(a, c), PollOnce(a, PollPanicked(true)), CleanUp(a, Unlocked)];
    assert steps[1..] == [Take(a, c), PollOnce(a, PollPanicked(true)), CleanUp(a, Unlocked)];
    assert steps[1..][1..] == [PollOnce(a, PollPanicked(true)), CleanUp(a, Unlocked)];
    assert steps[1..][1..][1..] == [CleanUp(a, Unlocked)] && steps[1..][1..][1..][1..] == [];
    assert Legal(p4, []) && Run(p4, []) == p4;
    assert Legal(p3, [CleanUp(a, Unlocked)]) && Run(p3, [CleanUp(a, Unlocked)]) == p4;
    assert Legal(p2, steps[1..][1..]) && Run(p2, steps[1..][1..]) == p4;
    assert Legal(p1, steps[1..]) && Run(p1, steps[1..]) == p4;
  }

  /** A commit is only ever acknowledged to the one owner of the lock. */
  lemma CommitOwnsLock(p: System, a: Applier, body: Body, rollback: Rollback, commit: Commit)
    requires Held(p) && Enabled(p, Finish(a, body, rollback, commit))
    requires PhaseOf(Next(p, Finish(a, body, rollback, commit)), a).RunningHooks?
    ensures FreeFor(p, PhaseOf(p, a).conn) && Holds(p, PhaseOf(p, a).conn)
  {
    assert Uses(p, a, PhaseOf(p, a).conn);
    assert Holds(p, PhaseOf(p, a).conn);
  }

  /** The phases follow the wrapper's own code: after the lock and the transaction are obtained, they reach
      the hooks, and hand the connection back, on exactly the exits the method does. */
  lemma PhasesFollowWrapper(c: Conn, x: Script)
    requires Entered(x)
    ensures var f := AfterBody(c, Session(1, true), x.body, x.rollback, x.commit).0;
            && (f.RunningHooks? <==> Commits(x))
            && (HandsBack(if f.RunningHooks? then Leaving(c, true, false, false) else f, x.unlock) <==> Settles(x))
            && (Abandoned(if f.RunningHooks? then Leaving(c, true, false, false) else f, x.unlock) <==> Abandons(x))
  {
    assert Verdict(x.polls) == Granted;
  }

  /** Before that they follow it as well: polling goes on after an answer exactly when the wrapper's verdict rests on the
      answers to come, the lock and the transaction are reached exactly when it obtains them, and on every other answer
      the connection is handed back or abandoned exactly when it does so. */
  lemma EntryFollowsWrapper(c: Conn, o: Poll, x: Script)
    requires x.acquired
    ensures AfterPoll(c, o).Polling? <==> forall rest :: Verdict([o] + rest) == Verdict(rest)
    ensures x.polls == [o] ==>
              var f := AfterPoll(c, o);
              && (f.Locked? <==> Verdict(x.polls) == Granted)
              && (f.Leaving? ==> (HandsBack(f, x.unlock) <==> Settles(x)) && (Abandoned(f, x.unlock) <==> Abandons(x)))
    ensures Verdict(x.polls) == Granted ==>
              var f := AfterBegin(c, x.begun);
              && (f.Inside? <==> Entered(x))
              && (f.Leaving? ==> (HandsBack(f, x.unlock) <==> Settles(x)) && (Abandoned(f, x.unlock) <==> Abandons(x)))
  {
    var later := if o == Granted then [Deadline] else [Granted];
    assert ([o] + later)[1..] == later && ([o] + later)[0] == o;
    forall rest
      ensures o == Busy ==> Verdict([o] + rest) == Verdict(rest)
    {
      assert ([o] + rest)[1..] == rest;
    }
    assert o != Busy ==> Verdict([o] + later) == o;
    assert Verdict(later) == later[0];
  }
}
