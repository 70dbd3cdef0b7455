/** GetIfHashChanged of py_utils/cloud_storage.py: any number of callers want the
    file with hash `want` at one local path, each inside the download lock.

    The state machine composes PseudoLock with the body of the with statement. A
    call's body starts when its client gets the pseudo lock; the client may start
    releasing the lock only when the body is over. */
module OneDownload {
  import opened Basics
  import PL = PseudoLock

  type Content = string
  type Digest = string
  type Client = PL.Client

  /** What all the calls have in common. `hash` stands for CalculateHash and is not
      interpreted; `remote` is the object in cloud storage. */
  datatype Env = Env(hash: Content -> Digest, want: Digest, target: PL.Path, remote: Content)

  /** Where the body of the with statement stands. */
  datatype Body =
    | Waiting
    | MustFetch                      // the file is missing or has another hash
    | Fetched(content: Content)      // downloaded to a temporary file
    | Returned(changed: bool)
    | Raised

  /** A call that returned normally, with the local file as it found it then. */
  datatype Return = Return(client: Client, changed: bool, seen: Option<Content>)

  /** `moves` counts the downloads moved to the local path. */
  datatype State = State(lock: PL.State, body: map<Client, Body>, file: Option<Content>, moves: nat, log: seq<Return>)

  datatype Action =
    | Lock(action: PL.Action)
    | CheckHit
    | CheckMiss
    | Fetch
    | FailFetch
    | MoveIn
    | FailMove

  datatype Event = Event(client: Client, action: Action)

  predicate Matches(env: Env, file: Option<Content>) {
    file.Some? && env.hash(file.value) == env.want
  }

  ghost predicate Enabled(env: Env, s: State, c: Client, a: Action) {
    c in s.lock.pcs && c in s.body &&
    var working := s.lock.pcs[c].Holding?;
    match a
    case Lock(l) =>
      && PL.Enabled(s.lock, c, l)
      && (l.OpenGlobal? ==> l.path == env.target)
      && (l.StartRelease? || l.Abandon? ==> s.body[c].Returned? || s.body[c].Raised?)
    case CheckHit => working && s.body[c].Waiting? && Matches(env, s.file)
    case CheckMiss => working && s.body[c].Waiting? && !Matches(env, s.file)
    case Fetch => working && s.body[c].MustFetch?
    case FailFetch => working && s.body[c].MustFetch?
    case MoveIn => working && s.body[c].Fetched?
    case FailMove => working && s.body[c].Fetched?
  }

  function Apply(env: Env, s: State, c: Client, a: Action): State
    requires c in s.lock.pcs && c in s.body
  {
    match a
    case Lock(l) =>
      var t := s.(lock := PL.Apply(s.lock, c, l));
      if !t.lock.pcs[c].Idle? then t
      else
        var done := t.(body := s.body[c := Waiting]);
        if l.FinishRelease? && s.body[c].Returned? then done.(log := s.log + [Return(c, s.body[c].changed, s.file)])
        else done
    case CheckHit => s.(body := s.body[c := Returned(false)])
    case CheckMiss => s.(body := s.body[c := MustFetch])
    case Fetch => s.(body := s.body[c := Fetched(env.remote)])
    case FailFetch => s.(body := s.body[c := Raised])
    case MoveIn =>
      if s.body[c].Fetched? then
        s.(file := Some(s.body[c].content), moves := s.moves + 1, body := s.body[c := Returned(true)])
      else s
    case FailMove => s.(body := s.body[c := Raised])
  }

  ghost predicate Init(s: State) {
    && PL.Init(s.lock) && s.body.Keys == s.lock.pcs.Keys
    && (forall c :: c in s.body ==> s.body[c].Waiting?)
    && s.moves == 0 && s.log == []
  }

  ghost predicate ValidTrace(env: Env, s: State, trace: seq<Event>)
    decreases trace
  {
    trace == [] ||
    (Enabled(env, s, trace[0].client, trace[0].action) &&
     ValidTrace(env, Apply(env, s, trace[0].client, trace[0].action), trace[1..]))
  }

  ghost function Run(env: Env, s: State, trace: seq<Event>): State
    requires ValidTrace(env, s, trace)
    decreases trace
  {
    if trace == [] then s else Run(env, Apply(env, s, trace[0].client, trace[0].action), trace[1..])
  }

  /** Bodies run only under the lock of `target`. */
  ghost predicate LockInv(env: Env, s: State) {
    && s.body.Keys == s.lock.pcs.Keys
    && (forall c :: c in s.lock.pcs && !s.lock.pcs[c].Idle? ==> s.lock.pcs[c].path == env.target)
    && (forall c :: c in s.body && !s.body[c].Waiting? ==>
          var pc := s.lock.pcs[c];
          pc.Holding? || pc.RelOpenedGlobal? || pc.RelGlobal? || pc.RelUnlocked? || pc.RelClosed? || pc.RelRemoved?)
    && (forall c :: c in s.body && (s.body[c].MustFetch? || s.body[c].Fetched?) ==> s.lock.pcs[c].Holding?)
  }

  /** What is known of the local file, from each body and from the count of moves. */
  ghost predicate FileInv(env: Env, s: State) {
    && (forall c :: c in s.body && (s.body[c].MustFetch? || s.body[c].Fetched?) ==> !Matches(env, s.file))
    && (forall c :: c in s.body && s.body[c].Fetched? ==> s.body[c].content == env.remote)
    && (forall c :: c in s.body && s.body[c].Returned? ==> Matches(env, s.file))
    && s.moves <= 1 && (s.moves == 1 ==> Matches(env, s.file))
  }

  /** Every True, returned already or about to be, accounts for the one move. */
  ghost predicate LogInv(env: Env, s: State) {
    && (forall k :: 0 <= k < |s.log| ==> Matches(env, s.log[k].seen))
    && (forall k :: 0 <= k < |s.log| && s.log[k].changed ==> s.moves == 1)
    && (forall j, k :: 0 <= j < k < |s.log| ==> !(s.log[j].changed && s.log[k].changed))
    && (forall c :: c in s.body && s.body[c] == Returned(true) ==>
          s.moves == 1 && forall k :: 0 <= k < |s.log| ==> !s.log[k].changed)
    && (forall c, d :: c in s.body && d in s.body && s.body[c] == Returned(true) && s.body[d] == Returned(true) ==>
        c == d)
  }

  ghost predicate Inv(env: Env, s: State) {
    PL.Reachable(s.lock) && LockInv(env, s) && FileInv(env, s) && LogInv(env, s)
  }

  /** How one lock operation moves a client between the phases the body cares about. */
  lemma LockPhases(ls: PL.State, c: Client, l: PL.Action)
    requires PL.Enabled(ls, c, l)
    ensures var t := PL.Apply(ls, c, l); var pc := ls.pcs[c]; var pc' := t.pcs[c];
            && t.pcs == ls.pcs[c := pc']
            && (!pc'.Idle? ==> pc'.path == if l.OpenGlobal? then l.path else pc.path)
            && (!pc.Idle? ==> !l.OpenGlobal?)
            && (pc.Holding? ==> pc'.Idle? || (l.StartRelease? && pc'.RelOpenedGlobal?))
            && (pc.Holding? && pc'.Idle? ==> l.Abandon? || l.Crash?)
            && (pc.RelOpenedGlobal? ==> pc'.Idle? || pc'.RelGlobal? || pc'.Holding?)
            && (pc.RelGlobal? ==> pc'.Idle? || pc'.RelUnlocked?)
            && (pc.RelUnlocked? ==> pc'.Idle? || pc'.RelClosed?)
            && (pc.RelClosed? ==> pc'.Idle? || pc'.RelRemoved?)
            && (pc.RelRemoved? ==> pc'.Idle?)
  {
  }

  lemma LockStepKeepsLockInv(env: Env, s: State, c: Client, l: PL.Action)
    requires LockInv(env, s) && Enabled(env, s, c, Lock(l))
    ensures LockInv(env, Apply(env, s, c, Lock(l)))
  {
    LockPhases(s.lock, c, l);
    var t := Apply(env, s, c, Lock(l));
    var pc' := t.lock.pcs[c];
    assert t.lock.pcs == s.lock.pcs[c := pc'];
    assert t.body == if pc'.Idle? then s.body[c := Waiting] else s.body;
  }

  lemma LockStepKeepsLogInv(env: Env, s: State, c: Client, l: PL.Action)
    requires FileInv(env, s) && LogInv(env, s) && Enabled(env, s, c, Lock(l))
    ensures FileInv(env, Apply(env, s, c, Lock(l))) && LogInv(env, Apply(env, s, c, Lock(l)))
  {
    var t := Apply(env, s, c, Lock(l));
    assert t.file == s.file && t.moves == s.moves;
    assert t.body == s.body || t.body == s.body[c := Waiting];
    if t.log != s.log {
      assert t.log == s.log + [Return(c, s.body[c].changed, s.file)] && t.body == s.body[c := Waiting];
    }
  }

  lemma BodyStepKeepsFileInv(env: Env, s: State, c: Client, a: Action)
    requires env.hash(env.remote) == env.want
    requires Inv(env, s) && Enabled(env, s, c, a) && !a.Lock?
    ensures FileInv(env, Apply(env, s, c, a))
  {
    forall d | d in s.body && (s.body[d].MustFetch? || s.body[d].Fetched?) ensures d == c {
      PL.MutualExclusion(s.lock, c, d);
    }
  }

  lemma BodyStepKeepsLockInv(env: Env, s: State, c: Client, a: Action)
    requires LockInv(env, s) && Enabled(env, s, c, a) && !a.Lock?
    ensures LockInv(env, Apply(env, s, c, a)) && Apply(env, s, c, a).lock == s.lock
  {
    var t := Apply(env, s, c, a);
    assert t.body == s.body[c := t.body[c]];
  }

  lemma BodyStepKeepsLogInv(env: Env, s: State, c: Client, a: Action)
    requires FileInv(env, s) && LogInv(env, s) && Enabled(env, s, c, a) && !a.Lock?
    ensures LogInv(env, Apply(env, s, c, a))
  {
    var t := Apply(env, s, c, a);
    assert t.log == s.log;
    if a == MoveIn {
      assert s.moves == 0;
    }
  }

  lemma StepKeepsInv(env: Env, s: State, c: Client, a: Action)
    requires env.hash(env.remote) == env.want
    requires Inv(env, s) && Enabled(env, s, c, a)
    ensures Inv(env, Apply(env, s, c, a))
  {
    if a.Lock? {
      LockStepKeepsInv(env, s, c, a.action);
    } else {
      BodyStepKeepsLockInv(env, s, c, a);
      BodyStepKeepsFileInv(env, s, c, a);
      BodyStepKeepsLogInv(env, s, c, a);
    }
  }

  lemma LockStepKeepsInv(env: Env, s: State, c: Client, l: PL.Action)
    requires Inv(env, s) && Enabled(env, s, c, Lock(l))
    ensures Inv(env, Apply(env, s, c, Lock(l)))
  {
    PL.ReachableStep(s.lock, c, l);
    LockStepKeepsLockInv(env, s, c, l);
    LockStepKeepsLogInv(env, s, c, l);
  }

  lemma {:induction false} RunKeepsInv(env: Env, s: State, trace: seq<Event>)
    requires env.hash(env.remote) == env.want
    requires Inv(env, s) && ValidTrace(env, s, trace)
    ensures Inv(env, Run(env, s, trace))
    decreases trace
  {
    if trace != [] {
      StepKeepsInv(env, s, trace[0].client, trace[0].action);
      RunKeepsInv(env, Apply(env, s, trace[0].client, trace[0].action), trace[1..]);
    }
  }

  lemma InitInv(env: Env, s: State)
    requires Init(s)
    ensures Inv(env, s)
  {
    assert PL.ValidTrace(s.lock, []) && PL.Run(s.lock, []) == s.lock;
  }

  /** However the calls interleave, and whichever of them crash or time out: at most
      one download is completed, at most one call returns True, and every call that
      returns finds a file with the wanted hash. */
  lemma OneDownloadForAll(env: Env, s: State, trace: seq<Event>)
    requires env.hash(env.remote) == env.want
    requires Init(s) && ValidTrace(env, s, trace)
    ensures var t := Run(env, s, trace);
            && t.moves <= 1
            && (forall k :: 0 <= k < |t.log| ==> Matches(env, t.log[k].seen))
            && (forall j, k :: 0 <= j < k < |t.log| ==> !(t.log[j].changed && t.log[k].changed))
            && (forall k :: 0 <= k < |t.log| && t.log[k].changed ==> t.moves == 1)
  {
    InitInv(env, s);
    RunKeepsInv(env, s, trace);
  }

  /** A file that has the wanted hash from the start is never downloaded again. */
  lemma {:induction false} NoNeedlessDownload(env: Env, s: State, trace: seq<Event>)
    requires env.hash(env.remote) == env.want
    requires Inv(env, s) && ValidTrace(env, s, trace) && Matches(env, s.file)
    ensures Run(env, s, trace).moves == s.moves && Run(env, s, trace).file == s.file
    decreases trace
  {
    if trace != [] {
      var e := trace[0];
      StepKeepsInv(env, s, e.client, e.action);
      NoNeedlessDownload(env, Apply(env, s, e.client, e.action), trace[1..]);
    }
  }

  // ----- each download is reported

  /** No client crashes or gives up its lock without releasing it. */
  ghost predicate Completes(trace: seq<Event>) {
    forall k :: 0 <= k < |trace| ==> trace[k].action != Lock(PL.Crash) && trace[k].action != Lock(PL.Abandon)
  }

  /** A completed download has a call that returned True or is about to; before it the file
      is the one found at the start; and a return has seen a file that is still there. */
  ghost predicate Reported(env: Env, start: Option<Content>, s: State) {
    && (s.moves > 0 ==> (exists k :: 0 <= k < |s.log| && s.log[k].changed) || exists c :: ReturnsTrue(s, c))
    && (s.moves == 0 ==> s.file == start)
    && (s.log != [] ==> Matches(env, s.file))
  }

  ghost predicate ReturnsTrue(s: State, c: Client) {
    c in s.body && s.body[c] == Returned(true)
  }

  /** What a lock operation other than a crash changes for the calls. */
  lemma LockStepCalls(env: Env, s: State, c: Client, l: PL.Action)
    requires LockInv(env, s) && Enabled(env, s, c, Lock(l)) && !l.Crash? && !l.Abandon?
    ensures var t := Apply(env, s, c, Lock(l));
            && t.file == s.file && t.moves == s.moves
            && if s.body[c].Returned? && l.FinishRelease? then
                 t.body == s.body[c := Waiting] && t.log == s.log + [Return(c, s.body[c].changed, s.file)]
               else t.log == s.log && forall d :: ReturnsTrue(s, d) ==> ReturnsTrue(t, d)
  {
    LockPhases(s.lock, c, l);
  }

  lemma LockStepReports(env: Env, start: Option<Content>, s: State, c: Client, l: PL.Action)
    requires Inv(env, s) && Enabled(env, s, c, Lock(l)) && !l.Crash? && !l.Abandon? && Reported(env, start, s)
    ensures Reported(env, start, Apply(env, s, c, Lock(l)))
  {
    var t := Apply(env, s, c, Lock(l));
    LockStepCalls(env, s, c, l);
    LogGrows(s.log, t.log);
    if s.body[c].Returned? && l.FinishRelease? {
      assert t.log[|s.log|] == Return(c, s.body[c].changed, s.file);
      forall d | ReturnsTrue(s, d) && d != c ensures ReturnsTrue(t, d) {
      }
    }
  }

  lemma LogGrows(log: seq<Return>, longer: seq<Return>)
    requires log <= longer
    ensures (exists k :: 0 <= k < |log| && log[k].changed) ==> exists k :: 0 <= k < |longer| && longer[k].changed
  {
    if k :| 0 <= k < |log| && log[k].changed {
      assert longer[k].changed;
    }
  }

  lemma BodyStepReports(env: Env, start: Option<Content>, s: State, c: Client, a: Action)
    requires Inv(env, s) && Enabled(env, s, c, a) && !a.Lock? && Reported(env, start, s)
    ensures Reported(env, start, Apply(env, s, c, a))
  {
    var t := Apply(env, s, c, a);
    assert t.log == s.log;
    assert a == MoveIn ==> ReturnsTrue(t, c);
    forall d | ReturnsTrue(s, d) ensures ReturnsTrue(t, d) {
    }
  }

  lemma {:induction false} RunReports(env: Env, start: Option<Content>, s: State, trace: seq<Event>)
    requires env.hash(env.remote) == env.want
    requires Inv(env, s) && ValidTrace(env, s, trace) && Completes(trace) && Reported(env, start, s)
    ensures Reported(env, start, Run(env, s, trace))
    decreases trace
  {
    if trace != [] {
      var e := trace[0];
      StepKeepsInv(env, s, e.client, e.action);
      if e.action.Lock? {
        LockStepReports(env, start, s, e.client, e.action.action);
      } else {
        BodyStepReports(env, start, s, e.client, e.action);
      }
      RunReports(env, start, Apply(env, s, e.client, e.action), trace[1..]);
    }
  }

  /** When all calls are over, none by a crash, and some call has returned: exactly one of
      them returned True if the file had to be replaced, and none if it did not. */
  lemma OneTrueIff(env: Env, s: State, trace: seq<Event>)
    requires env.hash(env.remote) == env.want
    requires Init(s) && ValidTrace(env, s, trace) && Completes(trace)
    requires forall c :: c in Run(env, s, trace).body ==> Run(env, s, trace).body[c].Waiting?
    ensures var t := Run(env, s, trace);
            && (t.moves == 1 <==> exists k :: 0 <= k < |t.log| && t.log[k].changed)
            && (t.log != [] ==> (t.moves == 1 <==> !Matches(env, s.file)))
  {
    InitInv(env, s);
    OneDownloadForAll(env, s, trace);
    RunReports(env, s.file, s, trace);
    if Matches(env, s.file) {
      NoNeedlessDownload(env, s, trace);
    }
  }

  // ----- each call can return

  /** The steps of `c` alone lead from `s` to `t`, without any fault. */
  ghost predicate LeadsAlone(env: Env, s: State, c: Client, t: State) {
    exists trace :: ValidTrace(env, s, trace) && Run(env, s, trace) == t && Faultless(trace, c)
  }

  ghost predicate Faultless(trace: seq<Event>, c: Client) {
    forall k :: 0 <= k < |trace| ==> trace[k].client == c && FaultlessAction(trace[k].action)
  }

  predicate FaultlessAction(a: Action) {
    match a
    case Lock(l) =>
      l.StartRelease? || l.LockGlobal? || l.UnlockPseudo? || l.CloseReleased? || l.RemovePath? || l.FinishRelease?
    case FailFetch => false
    case FailMove => false
    case _ => true
  }

  lemma AloneRefl(env: Env, s: State, c: Client)
    ensures LeadsAlone(env, s, c, s)
  {
    assert ValidTrace(env, s, []) && Run(env, s, []) == s && Faultless([], c);
  }

  lemma AloneStep(env: Env, s: State, c: Client, a: Action, t: State)
    requires Enabled(env, s, c, a) && FaultlessAction(a) && LeadsAlone(env, Apply(env, s, c, a), c, t)
    ensures LeadsAlone(env, s, c, t)
  {
    var s' := Apply(env, s, c, a);
    var trace :| ValidTrace(env, s', trace) && Run(env, s', trace) == t && Faultless(trace, c);
    var longer := [Event(c, a)] + trace;
    assert longer[0] == Event(c, a) && longer[1..] == trace;
    assert ValidTrace(env, s, longer) && Run(env, s, longer) == t && Faultless(longer, c);
  }

  /** How near the release of a lock is to its end. */
  function ReleaseRank(pc: PL.Pc): nat {
    if pc.Holding? then 6 else if pc.RelOpenedGlobal? then 5 else pc.Rank()
  }

  /** The phases of a client that has finished its body. */
  predicate Releasing(pc: PL.Pc) {
    pc.Holding? || pc.RelOpenedGlobal? || pc.RelGlobal? || pc.RelUnlocked? || pc.RelClosed? || pc.RelRemoved?
  }

  lemma NextPhase(ls: PL.State, c: Client)
    requires c in ls.pcs && Releasing(ls.pcs[c])
    requires ls.pcs[c].Holding? || ls.pcs[c].RelOpenedGlobal? ==> ls.global.None?
    ensures var l := ReleaseNext(ls.pcs[c]);
            && PL.Enabled(ls, c, l) && FaultlessAction(Lock(l)) && !l.OpenGlobal?
            && var pc := PL.Apply(ls, c, l).pcs[c];
               if ls.pcs[c].RelRemoved? then l.FinishRelease? && pc.Idle?
               else
                 !pc.Idle? && ReleaseRank(pc) < ReleaseRank(ls.pcs[c]) && !pc.Holding? &&
                 (pc.RelOpenedGlobal? ==> PL.Apply(ls, c, l).global.None?)
  {
  }

  lemma ReleaseStep(env: Env, s: State, c: Client)
    requires Inv(env, s) && c in s.body && s.body[c].Returned?
    requires s.lock.pcs[c].Holding? || s.lock.pcs[c].RelOpenedGlobal? ==> s.lock.global.None?
    ensures var a := Lock(ReleaseNext(s.lock.pcs[c])); var u := Apply(env, s, c, a);
            && Enabled(env, s, c, a) && FaultlessAction(a) && u.file == s.file && u.moves == s.moves
            && if s.lock.pcs[c].RelRemoved? then
                 u.body == s.body[c := Waiting] && u.log == s.log + [Return(c, s.body[c].changed, s.file)]
               else
                 u.body == s.body && u.log == s.log && ReleaseRank(u.lock.pcs[c]) < ReleaseRank(s.lock.pcs[c]) &&
                 (u.lock.pcs[c].RelOpenedGlobal? ==> u.lock.global.None?) && !u.lock.pcs[c].Holding?
  {
    NextPhase(s.lock, c);
  }

  /** A body that is over is followed by the release of the lock and the return. */
  lemma {:induction false} ReleaseReturns(env: Env, s: State, c: Client) returns (t: State)
    requires Inv(env, s) && c in s.body && s.body[c].Returned?
    requires s.lock.pcs[c].Holding? || s.lock.pcs[c].RelOpenedGlobal? ==> s.lock.global.None?
    ensures LeadsAlone(env, s, c, t) && t.file == s.file && t.moves == s.moves
    ensures t.log == s.log + [Return(c, s.body[c].changed, s.file)] && t.body == s.body[c := Waiting]
    decreases ReleaseRank(s.lock.pcs[c])
  {
    var l := ReleaseNext(s.lock.pcs[c]);
    ReleaseStep(env, s, c);
    t := Apply(env, s, c, Lock(l));
    if s.lock.pcs[c].RelRemoved? {
      AloneRefl(env, t, c);
    } else {
      LockStepKeepsInv(env, s, c, l);
      t := ReleaseReturns(env, t, c);
    }
    AloneStep(env, s, c, Lock(l), t);
  }

  function ReleaseNext(pc: PL.Pc): PL.Action {
    match pc
    case Holding(_, _) => PL.StartRelease
    case RelOpenedGlobal(_, _) => PL.LockGlobal
    case RelGlobal(_, _) => PL.UnlockPseudo
    case RelUnlocked(_, _) => PL.CloseReleased
    case RelClosed(_) => PL.RemovePath
    case _ => PL.FinishRelease
  }

  /** A call that has the lock can go on to return when nothing fails: True if it had to
      replace the file, False if not, and with the wanted file in place. */
  lemma CallReturns(env: Env, s: State, c: Client) returns (t: State)
    requires env.hash(env.remote) == env.want
    requires Inv(env, s) && c in s.body && s.body[c].Waiting?
    requires s.lock.pcs[c].Holding? && s.lock.global.None?
    ensures LeadsAlone(env, s, c, t) && Matches(env, t.file)
    ensures t.file == if Matches(env, s.file) then s.file else Some(env.remote)
    ensures t.log == s.log + [Return(c, !Matches(env, s.file), t.file)]
  {
    if Matches(env, s.file) {
      StepKeepsInv(env, s, c, CheckHit);
      t := ReleaseReturns(env, Apply(env, s, c, CheckHit), c);
      AloneStep(env, s, c, CheckHit, t);
    } else {
      var u := Apply(env, s, c, CheckMiss);
      StepKeepsInv(env, s, c, CheckMiss);
      t := FetchReturns(env, u, c);
      AloneStep(env, s, c, CheckMiss, t);
    }
  }

  lemma FetchReturns(env: Env, s: State, c: Client) returns (t: State)
    requires env.hash(env.remote) == env.want
    requires Inv(env, s) && c in s.body && s.body[c].MustFetch?
    requires s.lock.pcs[c].Holding? && s.lock.global.None?
    ensures LeadsAlone(env, s, c, t)
    ensures t.file == Some(env.remote) && t.log == s.log + [Return(c, true, t.file)]
  {
    var u := Apply(env, s, c, Fetch);
    StepKeepsInv(env, s, c, Fetch);
    var v := Apply(env, u, c, MoveIn);
    StepKeepsInv(env, u, c, MoveIn);
    t := ReleaseReturns(env, v, c);
    AloneStep(env, u, c, MoveIn, t);
    AloneStep(env, s, c, Fetch, t);
  }
}
