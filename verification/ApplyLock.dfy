/** The session lock and transaction around an apply: one attempt over one pooled connection, with every failure and
    panic exit, panics of the driver's own calls included, and any number of appliers sharing the pool and the server's
    advisory lock. */
module ApplyLock {
  /** What the server keeps for one connection. Session advisory locks are counted. */
  datatype Session = Session(locks: nat, txOpen: bool)

  const CLEAN := Session(0, false)

  datatype Place = NeverTaken | InUse | Pooled | Closed

  /** One try-lock query; a failed or panicking one may have taken the lock on the server all the same. */
  datatype Poll = Granted | Busy | Deadline | PollFailed(taken: bool) | PollPanicked(taken: bool)

  datatype Begin = Began | BeginFailed(open: bool) | BeginPanicked(open: bool)

  datatype BodyEnd = Returned | Errored | Panicked

  /** How the transaction body ends, and whether the transaction was already over by then. */
  datatype Body = Body(end: BodyEnd, ended: bool)

  datatype Rollback = RolledBack | RollbackFailed(stillOpen: bool) | RollbackPanicked(stillOpen: bool)

  datatype CommitEffect = TookEffect | Lost | StillOpen

  datatype Commit = Committed | CommitFailed(effect: CommitEffect) | CommitPanicked(effect: CommitEffect)

  datatype Unlock = Unlocked | UnlockFailed(released: bool) | UnlockPanicked(released: bool)

  /** Everything the outside world decides during one attempt. A hook either returns or panics. */
  datatype Script = Script(
    acquired: bool, polls: seq<Poll>, begun: Begin, body: Body, rollback: Rollback, commit: Commit,
    hookPanics: seq<bool>, unlock: Unlock)

  datatype Outcome = Succeeded | Failed | Panicking

  // ---------------------------------------------------------------- effects on the server

  function PollEffect(s: Session, o: Poll): Session {
    if o in {Granted, PollFailed(true), PollPanicked(true)} then s.(locks := s.locks + 1) else s
  }

  function BeginEffect(s: Session, o: Begin): Session {
    if o in {Began, BeginFailed(true), BeginPanicked(true)} then s.(txOpen := true) else s
  }

  function BodyEffect(s: Session, o: Body): Session {
    if o.ended then s.(txOpen := false) else s
  }

  function RollbackEffect(s: Session, o: Rollback): Session {
    if o in {RollbackFailed(true), RollbackPanicked(true)} then s else s.(txOpen := false)
  }

  function CommitEffectOn(s: Session, o: Commit): Session {
    if o in {CommitFailed(StillOpen), CommitPanicked(StillOpen)} then s else s.(txOpen := false)
  }

  function UnlockEffect(s: Session, o: Unlock): Session {
    if s.locks > 0 && o !in {UnlockFailed(false), UnlockPanicked(false)} then s.(locks := s.locks - 1) else s
  }

  /** On the server a call takes effect when it is answered well, or when it fails or panics having taken effect: a poll
      adds one lock, an unlock takes one off, and a transaction stays open exactly until it ends. */
  lemma EffectsMean(s: Session, p: Poll, b: Begin, o: Body, r: Rollback, c: Commit, u: Unlock)
    ensures PollEffect(s, p) == Session(s.locks + (if p == Granted || ((p.PollFailed? || p.PollPanicked?) && p.taken) then 1 else 0),
                                        s.txOpen)
    ensures BeginEffect(s, b) == Session(s.locks, s.txOpen || b == Began || (b.BeginFailed? && b.open) || (b.BeginPanicked? && b.open))
    ensures BodyEffect(s, o) == Session(s.locks, s.txOpen && !o.ended)
    ensures RollbackEffect(s, r) == Session(s.locks, s.txOpen && r != RolledBack && r.stillOpen)
    ensures CommitEffectOn(s, c) == Session(s.locks, s.txOpen && c != Committed && c.effect == StillOpen)
    ensures UnlockEffect(s, u).txOpen == s.txOpen
    ensures UnlockEffect(s, u).locks == if s.locks > 0 && (u == Unlocked || u.released) then s.locks - 1 else s.locks
  {
  }

  // ---------------------------------------------------------------- one attempt

  /** What polling for the lock comes to: the first answer that is not "busy", or the deadline. */
  function Verdict(polls: seq<Poll>): (r: Poll)
    ensures r != Busy
  {
    if polls == [] then Deadline else if polls[0] == Busy then Verdict(polls[1..]) else polls[0]
  }

  predicate Entered(x: Script) {
    x.acquired && Verdict(x.polls) == Granted && x.begun == Began
  }

  predicate Commits(x: Script) {
    Entered(x) && x.body == Body(Returned, false) && x.commit == Committed
  }

  predicate Undoes(x: Script) {
    Entered(x) && x.body.end == Errored && (x.body.ended || x.rollback == RolledBack)
  }

  /** A panic inside the try-lock query or inside BeginTx, before the wrapper has noted anything. */
  predicate PanicsEarly(x: Script) {
    Verdict(x.polls).PollPanicked? || (Verdict(x.polls) == Granted && x.begun.BeginPanicked?)
  }

  /** The exits on which the wrapper believes the connection clean, but for the lock it may hold. */
  predicate Quiet(x: Script) {
    x.acquired && (Verdict(x.polls) == Deadline || PanicsEarly(x) || Commits(x) || Undoes(x))
  }

  /** The exits on which the connection is handed back. */
  predicate Settles(x: Script) {
    Quiet(x) && (Verdict(x.polls) == Granted ==> x.unlock == Unlocked)
  }

  /** An early panic that took effect on the server, so that the connection carries a lock or a transaction the
      wrapper does not know of. */
  predicate Slips(x: Script) {
    Verdict(x.polls) == PollPanicked(true) || (Verdict(x.polls) == Granted && x.begun == BeginPanicked(true))
  }

  /** The release of the lock panics inside the clean-up itself, which then neither hands back nor closes. */
  predicate Abandons(x: Script) {
    Quiet(x) && Verdict(x.polls) == Granted && x.unlock.UnlockPanicked?
  }

  predicate TookEffectIn(o: Commit) {
    o in {Committed, CommitFailed(TookEffect), CommitPanicked(TookEffect)}
  }

  /** Whether the body's work is durable, known or not. */
  predicate Durable(x: Script) {
    Entered(x) && x.body == Body(Returned, false) && TookEffectIn(x.commit)
  }

  function HooksRun(hookPanics: seq<bool>): nat {
    if hookPanics == [] then 0 else if hookPanics[0] then 1 else 1 + HooksRun(hookPanics[1..])
  }

  /** A panic anywhere before the deferred clean-up. */
  predicate PanicsBefore(x: Script) {
    x.acquired && (PanicsEarly(x) || (Entered(x) &&
      (match x.body.end
       case Panicked => true
       case Errored => !x.body.ended && x.rollback.RollbackPanicked?
       case Returned => !x.body.ended && (x.commit.CommitPanicked? || (x.commit == Committed && true in x.hookPanics)))))
  }

  predicate Panics(x: Script) {
    PanicsBefore(x) || Abandons(x)
  }

  lemma {:induction false} VerdictAt(polls: seq<Poll>, i: nat)
    requires i <= |polls| && forall j :: 0 <= j < i ==> polls[j] == Busy
    ensures Verdict(polls) == Verdict(polls[i..])
  {
    if i == 0 {
      assert polls[0..] == polls;
    } else {
      VerdictAt(polls[1..], i - 1);
      assert polls[1..][i - 1..] == polls[i..];
    }
  }

  lemma {:induction false} HooksRunAt(hookPanics: seq<bool>, i: nat)
    requires i <= |hookPanics| && forall j :: 0 <= j < i ==> !hookPanics[j]
    ensures HooksRun(hookPanics) == i + HooksRun(hookPanics[i..])
  {
    if i == 0 {
      assert hookPanics[0..] == hookPanics;
    } else {
      HooksRunAt(hookPanics[1..], i - 1);
      assert hookPanics[1..][i - 1..] == hookPanics[i..];
    }
  }

  /** One attempt to run a body under the lock. */
  class Attempt {
    var session: Session
    var place: Place
    var durable: bool
    var hooksRun: nat
    var lockHeld: bool
    var transactionOpen: bool
    var discardConnection: bool

    constructor (checkedOut: Session)
      ensures session == checkedOut && place == InUse && !durable && hooksRun == 0
      ensures !lockHeld && !transactionOpen && !discardConnection
    {
      session, place, durable, hooksRun := checkedOut, InUse, false, 0;
      lockHeld, transactionOpen, discardConnection := false, false, false;
    }

    method AcquireLock(polls: seq<Poll>) returns (acquired: bool, uncertain: bool, err: bool, panicked: bool)
      modifies this`session
      ensures session == PollEffect(old(session), Verdict(polls))
      ensures acquired == (Verdict(polls) == Granted) && panicked == Verdict(polls).PollPanicked?
      ensures err == (!acquired && !panicked)
      ensures uncertain == Verdict(polls).PollFailed?
    {
      var i := 0;
      while i < |polls|
        invariant 0 <= i <= |polls| && session == old(session)
        invariant forall j :: 0 <= j < i ==> polls[j] == Busy
      {
        VerdictAt(polls, i);
        session := PollEffect(session, polls[i]);
        if polls[i].PollPanicked? {
          return false, false, false, true;
        }
        if polls[i].PollFailed? {
          return false, true, true, false;
        }
        if polls[i] == Granted {
          return true, false, false, false;
        }
        if polls[i] == Deadline {
          return false, false, true, false;
        }
        i := i + 1;
      }
      VerdictAt(polls, i);
      return false, false, true, false;
    }

    method RunHooks(hookPanics: seq<bool>) returns (panicked: bool)
      modifies this`hooksRun
      ensures panicked == (true in hookPanics)
      ensures hooksRun == old(hooksRun) + HooksRun(hookPanics)
    {
      for i := 0 to |hookPanics|
        invariant hooksRun == old(hooksRun) + i
        invariant forall j :: 0 <= j < i ==> !hookPanics[j]
      {
        HooksRunAt(hookPanics, i);
        hooksRun := hooksRun + 1;
        if hookPanics[i] {
          return true;
        }
      }
      HooksRunAt(hookPanics, |hookPanics|);
      return false;
    }

    /** The deferred clean-up: close what is uncertain, otherwise unlock and hand back. A panic of the unlock leaves the
        connection where it is. */
    method CleanUp(unlock: Unlock) returns (clean: bool, panicked: bool)
      modifies this
      ensures panicked <==> !old(transactionOpen) && !old(discardConnection) && old(lockHeld) && unlock.UnlockPanicked?
      ensures place == if panicked then old(place) else if clean then Pooled else Closed
      ensures clean <==> !old(transactionOpen) && !old(discardConnection)
                         && (old(lockHeld) ==> unlock == Unlocked && old(session).locks > 0)
      ensures clean ==> session == if old(lockHeld) then old(session).(locks := old(session).locks - 1) else old(session)
      ensures durable == old(durable) && hooksRun == old(hooksRun)
    {
      if transactionOpen {
        discardConnection := true;
      }
      if discardConnection {
        place := Closed;
        return false, false;
      }
      if lockHeld {
        var unlocked := unlock == Unlocked && session.locks > 0;
        session := UnlockEffect(session, unlock);
        if unlock.UnlockPanicked? {
          return false, true;
        }
        if !unlocked {
          place := Closed;
          return false, false;
        }
      }
      place := Pooled;
      return true, false;
    }

    /** Everything between taking the connection and the deferred clean-up. */
    method Body(x: Script) returns (o: Outcome)
      requires session == CLEAN && x.acquired && place == InUse
      requires !lockHeld && !transactionOpen && !discardConnection && !durable && hooksRun == 0
      modifies this
      ensures place == InUse && (lockHeld <==> Verdict(x.polls) == Granted)
      ensures !transactionOpen && !discardConnection <==> Quiet(x)
      ensures Quiet(x) ==> session == Session(if lockHeld || Verdict(x.polls) == PollPanicked(true) then 1 else 0,
                                              lockHeld && x.begun == BeginPanicked(true))
      ensures durable <==> Durable(x)
      ensures hooksRun == if Commits(x) then HooksRun(x.hookPanics) else 0
      ensures o == if PanicsBefore(x) then Panicking else if Commits(x) then Succeeded else Failed
    {
      var acquired, uncertain, err, panicked := AcquireLock(x.polls);
      if panicked {
        return Panicking;
      }
      if err {
        discardConnection := uncertain;
        return Failed;
      }
      lockHeld := acquired;
      session := BeginEffect(session, x.begun);
      if x.begun.BeginPanicked? {
        return Panicking;
      }
      if x.begun.BeginFailed? {
        discardConnection := true;
        return Failed;
      }
      transactionOpen := true;
      session := BodyEffect(session, x.body);
      if x.body.end == Panicked {
        return Panicking;
      }
      if x.body.end == Errored {
        if !x.body.ended {
          session := RollbackEffect(session, x.rollback);
          if x.rollback.RollbackPanicked? {
            return Panicking;
          }
          if x.rollback != RolledBack {
            discardConnection := true;
            return Failed;
          }
        }
        transactionOpen := false;
        return Failed;
      }
      if x.body.ended {
        discardConnection := true;
        return Failed;
      }
      session := CommitEffectOn(session, x.commit);
      durable := TookEffectIn(x.commit);
      if x.commit.CommitPanicked? {
        return Panicking;
      }
      if x.commit != Committed {
        discardConnection := true;
        return Failed;
      }
      transactionOpen := false;
      panicked := RunHooks(x.hookPanics);
      return if panicked then Panicking else Succeeded;
    }
  }

  /** The whole wrapper. A connection goes back to the pool exactly on the settled exits. It then holds neither the lock
      nor a transaction, unless a panic inside the try-lock query or inside BeginTx had taken effect on the server. It
      stays checked out exactly when the release of the lock panics, and is closed on every other exit. Hooks run after
      a known commit and never otherwise. A failure to release the lock turns a committed apply into a reported error. */
  method RunApplyTransaction(x: Script) returns (o: Outcome, place: Place, session: Session, durable: bool, hooksRun: nat)
    ensures place == if !x.acquired then NeverTaken else if Settles(x) then Pooled else if Abandons(x) then InUse else Closed
    ensures place == Pooled ==> (session == CLEAN <==> !Slips(x))
    ensures durable <==> Durable(x)
    ensures hooksRun == if Commits(x) then HooksRun(x.hookPanics) else 0
    ensures o == Succeeded <==> Commits(x) && Settles(x) && true !in x.hookPanics
    ensures o == Panicking <==> Panics(x)
  {
    if !x.acquired {
      return Failed, NeverTaken, CLEAN, false, 0;
    }
    var attempt := new Attempt(CLEAN);
    o := attempt.Body(x);
    var clean, panicked := attempt.CleanUp(x.unlock);
    if panicked {
      o := Panicking;
    } else if o == Succeeded && !clean {
      o := Failed;
    }
    return o, attempt.place, attempt.session, attempt.durable, attempt.hooksRun;
  }

  /** What a caller may conclude from the result: success means durable; an error or a panic over durable
      work means exactly that the commit's answer was lost, the lock was not released, or a hook panicked. */
  lemma OutcomeMeans(x: Script)
    ensures Commits(x) ==> Durable(x)
    ensures Undoes(x) ==> !Durable(x) && !Commits(x)
    ensures Durable(x) && !(Commits(x) && Settles(x) && true !in x.hookPanics) <==>
            Entered(x) && x.body == Body(Returned, false) && TookEffectIn(x.commit)
            && (x.commit != Committed || x.unlock != Unlocked || true in x.hookPanics)
  {
  }
}
