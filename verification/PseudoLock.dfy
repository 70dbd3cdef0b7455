/** The cross-process download lock of py_utils/cloud_storage.py.

    Each call of _FileLock is a client. A client moves through the individual
    open, flock, unlock, close and unlink operations of _AttemptPseudoLockAcquisition
    and _AttemptPseudoLockRelease; clients interleave freely, any operation that
    can raise may do so, and a client can crash between any two operations. */
module PseudoLock {
  import opened Basics

  type Client = nat
  type Inode = nat
  type Path = string

  /** Where a client stands. `path` names its pseudo lock file, `inode` the file
      its descriptor refers to, which need not be the one `path` names now. */
  datatype Pc =
    | Idle
    | AcqOpenedGlobal(path: Path)                        // global file open, not locked
    | AcqGlobal(path: Path)                              // global file locked
    | AcqOpened(path: Path, inode: Inode)                // pseudo lock file open
    | AcqUnwinding(path: Path, file: Option<Inode>)    // an exception leaves the guarded block
    | AcqClosing(path: Path, inode: Inode)               // global lock gone, pseudo file still open
    | AcqGot(path: Path, inode: Inode)                   // pseudo lock held, still in the guarded block
    | Holding(path: Path, inode: Inode)                  // body of the with statement, or waiting to release
    | RelOpenedGlobal(path: Path, inode: Inode)
    | RelGlobal(path: Path, inode: Inode)
    | RelUnlocked(path: Path, inode: Inode)
    | RelClosed(path: Path)
    | RelRemoved(path: Path)
  {
    /** Inside the block guarded by the global lock. */
    predicate InGuard() {
      AcqGlobal? || AcqOpened? || AcqUnwinding? || AcqGot? || RelGlobal? || RelUnlocked? || RelClosed? || RelRemoved?
    }

    /** Between a successful acquisition of the pseudo lock and its release. */
    predicate Owns() {
      AcqGot? || Holding? || RelOpenedGlobal? || RelGlobal?
    }

    /** The inode the client's pseudo lock descriptor keeps alive. */
    function OpenInode(): Option<Inode> {
      match this
      case AcqOpened(_, i) => Some(i)
      case AcqUnwinding(_, o) => o
      case AcqClosing(_, i) => Some(i)
      case AcqGot(_, i) => Some(i)
      case Holding(_, i) => Some(i)
      case RelOpenedGlobal(_, i) => Some(i)
      case RelGlobal(_, i) => Some(i)
      case RelUnlocked(_, i) => Some(i)
      case _ => None
    }

    /** How many operations the client needs at most to leave the guarded block. */
    function Rank(): nat {
      match this
      case AcqGlobal(_) => 3
      case AcqOpened(_, _) => 2
      case AcqUnwinding(_, _) => 1
      case AcqGot(_, _) => 1
      case RelGlobal(_, _) => 4
      case RelUnlocked(_, _) => 3
      case RelClosed(_) => 2
      case RelRemoved(_) => 1
      case _ => 0
    }
  }

  /** `dir` maps a pseudo lock path to the file it names, `locks` a file to the
      client whose descriptor holds its flock, `global` is the holder of the
      global flock. */
  datatype State = State(dir: map<Path, Inode>, locks: map<Inode, Client>, global: Option<Client>, pcs: map<Client, Pc>)

  /** One operation of one client. The `Fail` operations are the exceptions the
      code catches, LockException and IOError alike. */
  datatype Action =
    | OpenGlobal(path: Path)
    | LockGlobal
    | FailGlobal
    | OpenPseudo(inode: Inode)
    | FailOpenPseudo
    | LockPseudo
    | FailLockPseudo
    | Unwind
    | ClosePseudo
    | ReturnTrue
    | StartRelease
    | UnlockPseudo
    | CloseReleased
    | RemovePath
    | FailRemove
    | FinishRelease
    | Abandon     // the release times out; the descriptor is closed with the frame that owns it
    | Crash

  datatype Event = Event(client: Client, action: Action)

  /** A file that no path names and no descriptor refers to. */
  ghost predicate FreshInode(s: State, i: Inode) {
    && i !in s.dir.Values
    && forall c :: c in s.pcs ==> s.pcs[c].OpenInode() != Some(i)
  }

  /** What the state must be for `a` to happen to a client at `pc`. The flock calls
      are non-blocking: they happen only when the lock is free. */
  ghost predicate Enabled(s: State, c: Client, a: Action) {
    c in s.pcs &&
    var pc := s.pcs[c];
    match a
    case OpenGlobal(_) => pc.Idle?
    case LockGlobal => (pc.AcqOpenedGlobal? || pc.RelOpenedGlobal?) && s.global.None?
    case FailGlobal => pc.AcqOpenedGlobal? || pc.RelOpenedGlobal?
    case OpenPseudo(i) => pc.AcqGlobal? && (if pc.path in s.dir then i == s.dir[pc.path] else FreshInode(s, i))
    case FailOpenPseudo => pc.AcqGlobal?
    case LockPseudo => pc.AcqOpened? && pc.inode !in s.locks
    case FailLockPseudo => pc.AcqOpened?
    case Unwind => pc.AcqUnwinding?
    case ClosePseudo => pc.AcqClosing?
    case ReturnTrue => pc.AcqGot?
    case StartRelease => pc.Holding?
    case UnlockPseudo => pc.RelGlobal?
    case CloseReleased => pc.RelUnlocked?
    case RemovePath => pc.RelClosed?
    case FailRemove => pc.RelClosed?
    case FinishRelease => pc.RelRemoved?
    case Abandon => pc.Holding?
    case Crash => true
  }

  /** The program counter of a client at `pc` after `a`. */
  function NextPc(pc: Pc, a: Action): Pc {
    match a
    case OpenGlobal(p) => AcqOpenedGlobal(p)
    case LockGlobal =>
      if pc.AcqOpenedGlobal? then AcqGlobal(pc.path)
      else if pc.RelOpenedGlobal? then RelGlobal(pc.path, pc.inode) else pc
    case FailGlobal => if pc.RelOpenedGlobal? then Holding(pc.path, pc.inode) else Idle
    case OpenPseudo(i) => if pc.AcqGlobal? then AcqOpened(pc.path, i) else pc
    case FailOpenPseudo => if pc.AcqGlobal? then AcqUnwinding(pc.path, None) else pc
    case LockPseudo => if pc.AcqOpened? then AcqGot(pc.path, pc.inode) else pc
    case FailLockPseudo => if pc.AcqOpened? then AcqUnwinding(pc.path, Some(pc.inode)) else pc
    case Unwind => if pc.AcqUnwinding? && pc.file.Some? then AcqClosing(pc.path, pc.file.value) else Idle
    case ClosePseudo => Idle
    case ReturnTrue => if pc.AcqGot? then Holding(pc.path, pc.inode) else pc
    case StartRelease => if pc.Holding? then RelOpenedGlobal(pc.path, pc.inode) else pc
    case UnlockPseudo => if pc.RelGlobal? then RelUnlocked(pc.path, pc.inode) else pc
    case CloseReleased => if pc.RelUnlocked? then RelClosed(pc.path) else pc
    case RemovePath => if pc.RelClosed? then RelRemoved(pc.path) else pc
    case FailRemove => if pc.RelClosed? then RelRemoved(pc.path) else pc
    case FinishRelease => Idle
    case Abandon => Idle
    case Crash => Idle
  }

  /** Closing descriptors drops the flocks they hold. */
  function DropLocks(locks: map<Inode, Client>, c: Client): map<Inode, Client> {
    map i | i in locks && locks[i] != c :: locks[i]
  }

  /** The state after client `c` performs `a`. */
  function Apply(s: State, c: Client, a: Action): State
    requires c in s.pcs
  {
    var pc := s.pcs[c];
    var t := s.(pcs := s.pcs[c := NextPc(pc, a)]);
    match a
    case LockGlobal => t.(global := Some(c))
    case OpenPseudo(i) => if pc.AcqGlobal? then t.(dir := s.dir[pc.path := i]) else t
    case LockPseudo => if pc.AcqOpened? then t.(locks := s.locks[pc.inode := c]) else t
    case Unwind => t.(global := None)
    case ReturnTrue => t.(global := None)
    case UnlockPseudo => if pc.RelGlobal? then t.(locks := s.locks - {pc.inode}) else t
    case RemovePath => if pc.RelClosed? then t.(dir := s.dir - {pc.path}) else t
    case FinishRelease => t.(global := None)
    case Abandon => t.(locks := DropLocks(s.locks, c))
    case Crash => t.(locks := DropLocks(s.locks, c), global := if s.global == Some(c) then None else s.global)
    case _ => t
  }

  /** Any finite number of clients, nothing locked; pseudo lock files may be left
      over from earlier crashes, no two paths naming one file. */
  ghost predicate Init(s: State) {
    && s.locks == map[] && s.global.None?
    && (forall c :: c in s.pcs ==> s.pcs[c].Idle?)
    && (forall p, q :: p in s.dir && q in s.dir && s.dir[p] == s.dir[q] ==> p == q)
  }

  ghost predicate ValidTrace(s: State, trace: seq<Event>)
    decreases trace
  {
    trace == [] ||
    (Enabled(s, trace[0].client, trace[0].action) &&
     ValidTrace(Apply(s, trace[0].client, trace[0].action), trace[1..]))
  }

  ghost function Run(s: State, trace: seq<Event>): State
    requires ValidTrace(s, trace)
    decreases trace
  {
    if trace == [] then s else Run(Apply(s, trace[0].client, trace[0].action), trace[1..])
  }

  ghost predicate Reachable(s: State) {
    exists s0, trace :: Init(s0) && ValidTrace(s0, trace) && Run(s0, trace) == s
  }

  // ----- safety

  ghost predicate GuardInv(s: State) {
    && (s.global.Some? ==> s.global.value in s.pcs)
    && forall c :: c in s.pcs ==> (s.pcs[c].InGuard() <==> s.global == Some(c))
  }

  /** The holder's inode is the one the path currently names. */
  ghost predicate OwnerInv(s: State) {
    && (forall c :: c in s.pcs && s.pcs[c].Owns() ==>
          && s.pcs[c].path in s.dir && s.dir[s.pcs[c].path] == s.pcs[c].inode
          && s.pcs[c].inode in s.locks && s.locks[s.pcs[c].inode] == c)
    && (forall i :: i in s.locks ==>
          s.locks[i] in s.pcs && s.pcs[s.locks[i]].Owns() && s.pcs[s.locks[i]].inode == i)
  }

  ghost predicate DirInv(s: State) {
    && (forall p, q :: p in s.dir && q in s.dir && s.dir[p] == s.dir[q] ==> p == q)
    && (forall c :: c in s.pcs && s.pcs[c].AcqOpened? ==>
          s.pcs[c].path in s.dir && s.dir[s.pcs[c].path] == s.pcs[c].inode)
    && (forall c :: c in s.pcs && (s.pcs[c].RelUnlocked? || s.pcs[c].RelClosed?) && s.pcs[c].path in s.dir ==>
          s.dir[s.pcs[c].path] !in s.locks)
  }

  ghost predicate Inv(s: State) {
    GuardInv(s) && OwnerInv(s) && DirInv(s)
  }

  lemma LockingKeepsInv(s: State, c: Client)
    requires Inv(s) && Enabled(s, c, LockPseudo)
    ensures Inv(Apply(s, c, LockPseudo))
  {
  }

  lemma UnlockingKeepsInv(s: State, c: Client)
    requires Inv(s) && Enabled(s, c, UnlockPseudo)
    ensures Inv(Apply(s, c, UnlockPseudo))
  {
  }

  lemma LosingLocksKeepsOwners(s: State, c: Client, a: Action)
    requires Inv(s) && Enabled(s, c, a) && (a.Abandon? || a.Crash?)
    ensures OwnerInv(Apply(s, c, a))
  {
  }

  lemma LosingLocksKeepsInv(s: State, c: Client, a: Action)
    requires Inv(s) && Enabled(s, c, a) && (a.Abandon? || a.Crash?)
    ensures Inv(Apply(s, c, a))
  {
    LosingLocksKeepsOwners(s, c, a);
    assert Apply(s, c, a).pcs == s.pcs[c := Idle];
  }

  lemma OpeningKeepsInv(s: State, c: Client, i: Inode)
    requires Inv(s) && Enabled(s, c, OpenPseudo(i))
    ensures Inv(Apply(s, c, OpenPseudo(i)))
  {
  }

  lemma RemovingKeepsInv(s: State, c: Client)
    requires Inv(s) && Enabled(s, c, RemovePath)
    ensures Inv(Apply(s, c, RemovePath))
  {
  }

  lemma GuardingKeepsInv(s: State, c: Client)
    requires Inv(s) && Enabled(s, c, LockGlobal)
    ensures Inv(Apply(s, c, LockGlobal))
  {
  }

  lemma LeavingKeepsInv(s: State, c: Client, a: Action)
    requires Inv(s) && Enabled(s, c, a) && (a.Unwind? || a.ReturnTrue? || a.FinishRelease?)
    ensures Inv(Apply(s, c, a))
  {
    var t := Apply(s, c, a);
    assert s.global == Some(c);
    assert t.dir == s.dir && t.locks == s.locks && t.pcs[c].Owns() == s.pcs[c].Owns();
  }

  /** A client goes on to `pc` without changing a lock or a directory entry. */
  lemma MoveKeepsInv(s: State, c: Client, pc: Pc)
    requires Inv(s) && c in s.pcs && !pc.AcqOpened?
    requires pc.InGuard() == s.pcs[c].InGuard() && pc.Owns() == s.pcs[c].Owns()
    requires pc.Owns() ==> pc.path == s.pcs[c].path && pc.inode == s.pcs[c].inode
    requires pc.RelUnlocked? || pc.RelClosed? ==> s.pcs[c].RelUnlocked? && pc.path == s.pcs[c].path
    ensures Inv(s.(pcs := s.pcs[c := pc]))
  {
    MoveKeepsOwners(s, c, pc);
  }

  lemma MoveKeepsOwners(s: State, c: Client, pc: Pc)
    requires OwnerInv(s) && c in s.pcs && pc.Owns() == s.pcs[c].Owns()
    requires pc.Owns() ==> pc.path == s.pcs[c].path && pc.inode == s.pcs[c].inode
    ensures OwnerInv(s.(pcs := s.pcs[c := pc]))
  {
  }

  /** The operations of an acquisition that change no lock and no directory entry, and a
      failure to lock the global file. */
  lemma AcquiringMoveKeepsInv(s: State, c: Client, a: Action)
    requires Inv(s) && Enabled(s, c, a)
    requires a.OpenGlobal? || a.FailGlobal? || a.FailOpenPseudo? || a.FailLockPseudo? || a.ClosePseudo?
    ensures Inv(Apply(s, c, a))
  {
    MoveKeepsInv(s, c, NextPc(s.pcs[c], a));
  }

  /** The same for a release. */
  lemma ReleasingMoveKeepsInv(s: State, c: Client, a: Action)
    requires Inv(s) && Enabled(s, c, a)
    requires a.StartRelease? || a.CloseReleased? || a.FailRemove?
    ensures Inv(Apply(s, c, a))
  {
    MoveKeepsInv(s, c, NextPc(s.pcs[c], a));
  }

  lemma StepKeepsInv(s: State, c: Client, a: Action)
    requires Inv(s) && Enabled(s, c, a)
    ensures Inv(Apply(s, c, a))
  {
    match a
    case LockPseudo => LockingKeepsInv(s, c);
    case UnlockPseudo => UnlockingKeepsInv(s, c);
    case Abandon => LosingLocksKeepsInv(s, c, a);
    case Crash => LosingLocksKeepsInv(s, c, a);
    case OpenPseudo(i) => OpeningKeepsInv(s, c, i);
    case RemovePath => RemovingKeepsInv(s, c);
    case LockGlobal => GuardingKeepsInv(s, c);
    case Unwind => LeavingKeepsInv(s, c, a);
    case ReturnTrue => LeavingKeepsInv(s, c, a);
    case FinishRelease => LeavingKeepsInv(s, c, a);
    case StartRelease => ReleasingMoveKeepsInv(s, c, a);
    case CloseReleased => ReleasingMoveKeepsInv(s, c, a);
    case FailRemove => ReleasingMoveKeepsInv(s, c, a);
    case _ => AcquiringMoveKeepsInv(s, c, a);
  }

  lemma {:induction false} RunKeepsInv(s: State, trace: seq<Event>)
    requires Inv(s) && ValidTrace(s, trace)
    ensures Inv(Run(s, trace))
    decreases trace
  {
    if trace != [] {
      StepKeepsInv(s, trace[0].client, trace[0].action);
      RunKeepsInv(Apply(s, trace[0].client, trace[0].action), trace[1..]);
    }
  }

  lemma ReachableInv(s: State)
    requires Reachable(s)
    ensures Inv(s)
  {
    var s0, trace :| Init(s0) && ValidTrace(s0, trace) && Run(s0, trace) == s;
    RunKeepsInv(s0, trace);
  }

  lemma {:induction false} RunSnoc(s: State, trace: seq<Event>, e: Event)
    requires ValidTrace(s, trace) && Enabled(Run(s, trace), e.client, e.action)
    ensures ValidTrace(s, trace + [e]) && Run(s, trace + [e]) == Apply(Run(s, trace), e.client, e.action)
    decreases trace
  {
    if trace == [] {
      assert trace + [e] == [e];
      assert ValidTrace(Apply(s, e.client, e.action), []);
    } else {
      assert (trace + [e])[1..] == trace[1..] + [e];
      RunSnoc(Apply(s, trace[0].client, trace[0].action), trace[1..], e);
    }
  }

  lemma ReachableStep(s: State, c: Client, a: Action)
    requires Reachable(s) && Enabled(s, c, a)
    ensures Reachable(Apply(s, c, a))
  {
    var s0, trace :| Init(s0) && ValidTrace(s0, trace) && Run(s0, trace) == s;
    RunSnoc(s0, trace, Event(c, a));
  }

  /** At most one client is between acquisition and release for a given path, and
      the file it has locked is the one the path names. */
  lemma MutualExclusion(s: State, c: Client, d: Client)
    requires Reachable(s)
    requires c in s.pcs && d in s.pcs && s.pcs[c].Owns() && s.pcs[d].Owns() && s.pcs[c].path == s.pcs[d].path
    ensures c == d
    ensures s.pcs[c].path in s.dir && s.dir[s.pcs[c].path] == s.pcs[c].inode
  {
    ReachableInv(s);
  }

  /** A lock attempt meets a held pseudo lock only while some client is really
      between acquisition and release for that same path. */
  lemma ContentionIsReal(s: State, c: Client)
    requires Reachable(s)
    requires c in s.pcs && s.pcs[c].AcqOpened?
    ensures s.pcs[c].inode in s.locks <==>
            exists d :: d in s.pcs && s.pcs[d].Owns() && s.pcs[d].path == s.pcs[c].path
  {
    ReachableInv(s);
    if s.pcs[c].inode in s.locks {
      var d := s.locks[s.pcs[c].inode];
      assert s.pcs[d].Owns() && s.pcs[d].path == s.pcs[c].path;
    }
  }

  /** Only opening and closing change what descriptor a client has for the pseudo lock file:
      also an attempt that fails, and a release, keep it until they close it. */
  lemma DescriptorsKept(s: State, c: Client, a: Action)
    requires Enabled(s, c, a)
    ensures Apply(s, c, a).pcs[c].OpenInode() ==
            match a
            case OpenPseudo(i) => Some(i)
            case ClosePseudo => None
            case CloseReleased => None
            case Abandon => None
            case Crash => None
            case _ => s.pcs[c].OpenInode()
    ensures a.ClosePseudo? || a.CloseReleased? || a.Abandon? ==> s.pcs[c].OpenInode().Some?
    ensures forall d :: d in s.pcs && d != c ==> Apply(s, c, a).pcs[d] == s.pcs[d]
  {
  }

  // ----- progress

  ghost predicate OnlyClient(trace: seq<Event>, c: Client) {
    forall k :: 0 <= k < |trace| ==> trace[k].client == c
  }

  /** Every operation of the global lock's holder, failures included, brings it
      closer to leaving the guarded block. */
  lemma GuardRankDecreases(s: State, c: Client, a: Action)
    requires Enabled(s, c, a) && s.pcs[c].InGuard()
    ensures Apply(s, c, a).pcs[c].Rank() < s.pcs[c].Rank() <= 4
    ensures Apply(s, c, a).global == s.global || Apply(s, c, a).global.None?
  {
  }

  /** However the holder of the global lock proceeds, running alone for four
      operations is enough to free the lock. */
  lemma {:induction false} GuardIsShort(s: State, c: Client, trace: seq<Event>) returns (k: nat)
    requires Reachable(s) && s.global == Some(c) && c in s.pcs
    requires ValidTrace(s, trace) && OnlyClient(trace, c) && |trace| >= s.pcs[c].Rank()
    ensures k <= |trace| && k <= s.pcs[c].Rank() <= 4
    ensures ValidTrace(s, trace[..k]) && Run(s, trace[..k]).global.None?
    decreases trace
  {
    GuardHolder(s, c);
    var s' := Apply(s, c, trace[0].action);
    ReachableStep(s, c, trace[0].action);
    GuardRankDecreases(s, c, trace[0].action);
    if s'.global.None? {
      k := 1;
    } else {
      var k' := GuardIsShort(s', c, trace[1..]);
      k := k' + 1;
      assert trace[..k][1..] == trace[1..][..k'];
    }
  }

  /** Neither a crash nor an I/O error: an attempt fails only on a lock that is held. */
  ghost predicate Faultless(s: State, e: Event)
    requires e.client in s.pcs
  {
    match e.action
    case Crash => false
    case Abandon => false
    case FailOpenPseudo => false
    case FailRemove => false
    case FailGlobal => s.global.Some?
    case FailLockPseudo => s.pcs[e.client].AcqOpened? && s.pcs[e.client].inode in s.locks
    case _ => true
  }

  ghost predicate FaultlessTrace(s: State, trace: seq<Event>)
    decreases trace
  {
    trace == [] ||
    (Enabled(s, trace[0].client, trace[0].action) && Faultless(s, trace[0]) &&
     FaultlessTrace(Apply(s, trace[0].client, trace[0].action), trace[1..]))
  }

  /** The state `t` can be reached from `s` by at most `n` faultless operations. */
  ghost predicate Leads(s: State, t: State, n: nat) {
    exists trace :: |trace| <= n && FaultlessTrace(s, trace) && ValidTrace(s, trace) && Run(s, trace) == t
  }

  lemma LeadsRefl(s: State, n: nat)
    ensures Leads(s, s, n)
  {
    assert FaultlessTrace(s, []) && Run(s, []) == s;
  }

  lemma LeadsStep(s: State, c: Client, a: Action, t: State, n: nat)
    requires Enabled(s, c, a) && Faultless(s, Event(c, a))
    requires Leads(Apply(s, c, a), t, n)
    ensures Leads(s, t, n + 1)
  {
    var s' := Apply(s, c, a);
    var trace :| |trace| <= n && FaultlessTrace(s', trace) && ValidTrace(s', trace) && Run(s', trace) == t;
    var longer := [Event(c, a)] + trace;
    assert longer[0] == Event(c, a) && longer[1..] == trace;
    assert FaultlessTrace(s, longer) && ValidTrace(s, longer) && Run(s, longer) == t;
  }

  lemma LeadsMore(s: State, t: State, m: nat, n: nat)
    requires Leads(s, t, m) && m <= n
    ensures Leads(s, t, n)
  {
    var trace :| |trace| <= m && FaultlessTrace(s, trace) && ValidTrace(s, trace) && Run(s, trace) == t;
    assert |trace| <= n;
  }

  lemma {:induction false} LeadsTrans(s: State, trace: seq<Event>, t: State, u: State, n: nat)
    requires FaultlessTrace(s, trace) && ValidTrace(s, trace) && Run(s, trace) == t && Leads(t, u, n)
    ensures Leads(s, u, |trace| + n)
    decreases trace
  {
    if trace != [] {
      LeadsTrans(Apply(s, trace[0].client, trace[0].action), trace[1..], t, u, n);
      LeadsStep(s, trace[0].client, trace[0].action, u, |trace| - 1 + n);
    }
  }

  lemma LeadsThen(s: State, t: State, u: State, m: nat, n: nat)
    requires Leads(s, t, m) && Leads(t, u, n)
    ensures Leads(s, u, m + n)
  {
    var trace :| |trace| <= m && FaultlessTrace(s, trace) && ValidTrace(s, trace) && Run(s, trace) == t;
    LeadsTrans(s, trace, t, u, n);
    LeadsMore(s, u, |trace| + n, m + n);
  }

  lemma {:induction false} UnusedInode(used: set<Inode>) returns (i: Inode)
    ensures forall j :: j in used ==> j < i
  {
    if used == {} {
      i := 0;
    } else {
      var j :| j in used;
      var k := UnusedInode(used - {j});
      i := if j < k then k else j + 1;
      assert forall l :: l in used ==> l == j || l in used - {j};
    }
  }

  lemma FreshInodeExists(s: State) returns (i: Inode)
    ensures FreshInode(s, i)
  {
    i := UnusedInode(s.dir.Values + (set c | c in s.pcs && s.pcs[c].OpenInode().Some? :: s.pcs[c].OpenInode().value));
  }

  /** The operation a client inside the guarded block performs next when nothing goes wrong. */
  lemma GuardNext(s: State, c: Client) returns (a: Action)
    requires c in s.pcs && s.pcs[c].InGuard()
    ensures Enabled(s, c, a) && Faultless(s, Event(c, a))
    ensures a == match s.pcs[c]
                 case AcqGlobal(_) => a
                 case AcqOpened(_, i) => if i in s.locks then FailLockPseudo else LockPseudo
                 case AcqUnwinding(_, _) => Unwind
                 case AcqGot(_, _) => ReturnTrue
                 case RelGlobal(_, _) => UnlockPseudo
                 case RelUnlocked(_, _) => CloseReleased
                 case RelClosed(_) => RemovePath
                 case _ => FinishRelease
    ensures s.pcs[c].AcqGlobal? ==> a.OpenPseudo?
  {
    var pc := s.pcs[c];
    match pc
    case AcqGlobal(p) =>
      var i := FreshInodeExists(s);
      a := OpenPseudo(if p in s.dir then s.dir[p] else i);
    case AcqOpened(_, i) => a := if i in s.locks then FailLockPseudo else LockPseudo;
    case AcqUnwinding(_, _) => a := Unwind;
    case AcqGot(_, _) => a := ReturnTrue;
    case RelGlobal(_, _) => a := UnlockPseudo;
    case RelUnlocked(_, _) => a := CloseReleased;
    case RelClosed(_) => a := RemovePath;
    case RelRemoved(_) => a := FinishRelease;
  }

  ghost predicate OthersUntouched(s: State, t: State, c: Client) {
    t.pcs.Keys == s.pcs.Keys && forall d :: d in s.pcs && d != c ==> t.pcs[d] == s.pcs[d]
  }

  lemma GuardHolder(s: State, c: Client)
    requires Reachable(s)
    ensures c in s.pcs && s.pcs[c].InGuard() <==> s.global == Some(c)
  {
    ReachableInv(s);
  }

  lemma GuardStep(s: State, c: Client) returns (a: Action, t: State)
    requires Reachable(s) && c in s.pcs && s.pcs[c].InGuard()
    ensures Enabled(s, c, a) && Faultless(s, Event(c, a)) && t == Apply(s, c, a)
    ensures Reachable(t) && OthersUntouched(s, t, c) && t.pcs[c].Rank() < s.pcs[c].Rank() <= 4
    ensures t.global.None? || t.pcs[c].InGuard()
  {
    a := GuardNext(s, c);
    t := Apply(s, c, a);
    ReachableStep(s, c, a);
    GuardHolder(s, c);
    GuardHolder(t, c);
    GuardRankDecreases(s, c, a);
  }

  /** The holder of the global lock can always leave the guarded block on its own:
      nothing inside it waits for another client. */
  lemma {:induction false} LeaveGuard(s: State, c: Client) returns (t: State)
    requires Reachable(s) && c in s.pcs && s.pcs[c].InGuard()
    ensures Leads(s, t, s.pcs[c].Rank()) && Reachable(t) && t.global.None? && OthersUntouched(s, t, c)
    ensures s.pcs[c].Rank() <= 4
    decreases s.pcs[c].Rank()
  {
    var a, s' := GuardStep(s, c);
    var n := s.pcs[c].Rank();
    var m := s'.pcs[c].Rank();
    if s'.global.None? {
      t := s';
      LeadsRefl(s', n - 1);
    } else {
      t := LeaveGuard(s', c);
      LeadsMore(s', t, m, n - 1);
    }
    LeadsStep(s, c, a, t, n - 1);
  }

  /** The rest of a release, from inside the guarded block. */
  lemma {:induction false} FinishInGuard(s: State, c: Client) returns (t: State)
    requires Reachable(s) && c in s.pcs
    requires s.pcs[c].RelGlobal? || s.pcs[c].RelUnlocked? || s.pcs[c].RelClosed? ||
             (s.pcs[c].RelRemoved? && s.pcs[c].path !in s.dir)
    ensures Leads(s, t, s.pcs[c].Rank()) && Reachable(t) && t.global.None? && OthersUntouched(s, t, c)
    ensures t.pcs[c].Idle? && s.pcs[c].path !in t.dir
    decreases s.pcs[c].Rank()
  {
    var a := GuardNext(s, c);
    var s' := Apply(s, c, a);
    ReachableStep(s, c, a);
    if a == FinishRelease {
      t := s';
      LeadsRefl(t, 0);
    } else {
      t := FinishInGuard(s', c);
    }
    LeadsStep(s, c, a, t, s.pcs[c].Rank() - 1);
  }

  /** With the global lock free, a waiting releaser completes its release in five operations. */
  lemma ReleaserCanFinish(s: State, c: Client) returns (t: State)
    requires Reachable(s) && s.global.None? && c in s.pcs && s.pcs[c].RelOpenedGlobal?
    ensures Leads(s, t, 5) && Reachable(t) && t.global.None? && OthersUntouched(s, t, c)
    ensures t.pcs[c].Idle? && s.pcs[c].path !in t.dir
  {
    ReachableStep(s, c, LockGlobal);
    t := FinishInGuard(Apply(s, c, LockGlobal), c);
    LeadsStep(s, c, LockGlobal, t, 4);
  }

  /** With the global lock free, an owner completes its release in six operations. */
  lemma OwnerCanRelease(s: State, c: Client) returns (t: State)
    requires Reachable(s) && s.global.None? && c in s.pcs && s.pcs[c].Owns()
    ensures Leads(s, t, 6) && Reachable(t) && t.global.None? && OthersUntouched(s, t, c)
    ensures t.pcs[c].Idle? && s.pcs[c].path !in t.dir
  {
    GuardHolder(s, c);
    if s.pcs[c].Holding? {
      ReachableStep(s, c, StartRelease);
      t := ReleaserCanFinish(Apply(s, c, StartRelease), c);
      LeadsStep(s, c, StartRelease, t, 5);
    } else {
      t := ReleaserCanFinish(s, c);
      LeadsMore(s, t, 5, 6);
    }
  }

  ghost predicate NobodyOwns(s: State, p: Path) {
    forall d :: d in s.pcs && s.pcs[d].Owns() ==> s.pcs[d].path != p
  }

  /** The rest of an acquisition of a pseudo lock that nobody owns. */
  lemma {:induction false} AcquireInGuard(s: State, c: Client) returns (t: State)
    requires Reachable(s) && c in s.pcs
    requires ((s.pcs[c].AcqGlobal? || s.pcs[c].AcqOpened?) && NobodyOwns(s, s.pcs[c].path)) || s.pcs[c].AcqGot?
    ensures Leads(s, t, s.pcs[c].Rank()) && Reachable(t) && c in t.pcs
    ensures t.pcs[c].Holding? && t.pcs[c].path == s.pcs[c].path
    decreases s.pcs[c].Rank()
  {
    var a := GuardNext(s, c);
    var s' := Apply(s, c, a);
    ReachableStep(s, c, a);
    if a == ReturnTrue {
      t := s';
      LeadsRefl(t, 0);
    } else {
      if s.pcs[c].AcqOpened? {
        ContentionIsReal(s, c);
      }
      t := AcquireInGuard(s', c);
    }
    LeadsStep(s, c, a, t, s.pcs[c].Rank() - 1);
  }

  /** With the global lock free and nobody owning `p`, an idle client acquires it
      in five operations. */
  lemma IdleCanAcquire(s: State, c: Client, p: Path) returns (t: State)
    requires Reachable(s) && s.global.None? && c in s.pcs && s.pcs[c].Idle?
    requires NobodyOwns(s, p)
    ensures Leads(s, t, 5) && Reachable(t) && c in t.pcs && t.pcs[c].Holding? && t.pcs[c].path == p
  {
    var s1 := Apply(s, c, OpenGlobal(p));
    ReachableStep(s, c, OpenGlobal(p));
    var s2 := Apply(s1, c, LockGlobal);
    ReachableStep(s1, c, LockGlobal);
    t := AcquireInGuard(s2, c);
    LeadsStep(s1, c, LockGlobal, t, 3);
    LeadsStep(s, c, OpenGlobal(p), t, 4);
  }

  lemma FreeGuard(s: State) returns (t: State)
    requires Reachable(s)
    ensures Leads(s, t, 4) && Reachable(t) && t.global.None? && t.pcs.Keys == s.pcs.Keys
    ensures forall c :: c in s.pcs && s.pcs[c].Idle? ==> t.pcs[c].Idle?
  {
    t := s;
    if s.global.Some? {
      var c := s.global.value;
      GuardHolder(s, c);
      t := LeaveGuard(s, c);
      LeadsMore(s, t, s.pcs[c].Rank(), 4);
    } else {
      LeadsRefl(s, 4);
    }
  }

  lemma EvictOwner(s: State, p: Path) returns (t: State)
    requires Reachable(s) && s.global.None?
    ensures Leads(s, t, 6) && Reachable(t) && t.global.None? && t.pcs.Keys == s.pcs.Keys && NobodyOwns(t, p)
    ensures forall c :: c in s.pcs && s.pcs[c].Idle? ==> t.pcs[c].Idle?
  {
    t := s;
    if !NobodyOwns(s, p) {
      var d :| d in s.pcs && s.pcs[d].Owns() && s.pcs[d].path == p;
      t := OwnerCanRelease(s, d);
      forall e | e in t.pcs && t.pcs[e].Owns() ensures t.pcs[e].path != p {
        if e != d && s.pcs[e].path == p {
          MutualExclusion(s, d, e);
        }
      }
    } else {
      LeadsRefl(s, 6);
    }
  }

  /** The protocol cannot deadlock: whatever has happened, crashes included, at most
      fifteen operations without any fault let an idle client hold any lock it wants. */
  lemma AlwaysAcquirable(s: State, c: Client, p: Path) returns (t: State)
    requires Reachable(s) && c in s.pcs && s.pcs[c].Idle?
    ensures Leads(s, t, 15) && Reachable(t) && c in t.pcs && t.pcs[c].Holding? && t.pcs[c].path == p
  {
    var s1 := FreeGuard(s);
    var s2 := EvictOwner(s1, p);
    t := IdleCanAcquire(s2, c, p);
    LeadsThen(s, s1, s2, 4, 6);
    LeadsThen(s, s2, t, 10, 5);
  }

  // ----- without the guard

  /** The same operations when locking the global file excludes nobody. */
  ghost predicate EnabledUnguarded(s: State, c: Client, a: Action) {
    if a.LockGlobal? then c in s.pcs && (s.pcs[c].AcqOpenedGlobal? || s.pcs[c].RelOpenedGlobal?) else Enabled(s, c, a)
  }

  ghost predicate StepUnguarded(s: State, t: State) {
    exists c, a :: EnabledUnguarded(s, c, a) && t == Apply(s, c, a)
  }

  ghost predicate ReachableUnguarded(s: State) {
    exists run: seq<State> ::
      && |run| > 0 && Init(run[0]) && run[|run| - 1] == s
      && forall k :: 0 < k < |run| ==> StepUnguarded(run[k - 1], run[k])
  }

  lemma UnguardedStep(s: State, c: Client, a: Action) returns (t: State)
    requires ReachableUnguarded(s) && EnabledUnguarded(s, c, a)
    ensures t == Apply(s, c, a) && ReachableUnguarded(t)
  {
    t := Apply(s, c, a);
    var run :| |run| > 0 && Init(run[0]) && run[|run| - 1] == s
               && forall k :: 0 < k < |run| ==> StepUnguarded(run[k - 1], run[k]);
    var longer := run + [t];
    assert longer[0] == run[0] && longer[|longer| - 1] == t;
    assert forall k :: 0 < k < |longer| ==> StepUnguarded(longer[k - 1], longer[k]);
  }

  /** A client acquires the pseudo lock of `p` with four operations, the global lock
      being no obstacle. */
  lemma AcquireUnguarded(s: State, c: Client, p: Path, i: Inode) returns (t: State)
    requires ReachableUnguarded(s) && c in s.pcs && s.pcs[c].Idle? && i !in s.locks
    requires if p in s.dir then s.dir[p] == i else FreshInode(s, i)
    ensures t == s.(dir := s.dir[p := i], locks := s.locks[i := c], global := Some(c), pcs := s.pcs[c := AcqGot(p, i)])
    ensures ReachableUnguarded(t)
  {
    var t1 := UnguardedStep(s, c, OpenGlobal(p));
    var t2 := UnguardedStep(t1, c, LockGlobal);
    assert t2 == s.(global := Some(c), pcs := s.pcs[c := AcqGlobal(p)]);
    var t3 := UnguardedStep(t2, c, OpenPseudo(i));
    t := UnguardedStep(t3, c, LockPseudo);
    assert t.pcs == s.pcs[c := AcqGot(p, i)];
  }

  /** A client that has the pseudo lock returns, and later enters the guarded block again. */
  lemma ReenterUnguarded(s: State, c: Client, p: Path, i: Inode) returns (t: State)
    requires ReachableUnguarded(s) && c in s.pcs && s.pcs[c] == AcqGot(p, i)
    ensures t == s.(global := Some(c), pcs := s.pcs[c := RelGlobal(p, i)]) && ReachableUnguarded(t)
  {
    var t1 := UnguardedStep(s, c, ReturnTrue);
    var t2 := UnguardedStep(t1, c, StartRelease);
    t := UnguardedStep(t2, c, LockGlobal);
    assert t.pcs == s.pcs[c := RelGlobal(p, i)];
  }

  /** It goes on until it has unlocked and closed the pseudo lock. */
  lemma UnlockUnguarded(s: State, c: Client, p: Path, i: Inode) returns (t: State)
    requires ReachableUnguarded(s) && c in s.pcs && s.pcs[c] == AcqGot(p, i)
    ensures t == s.(locks := s.locks - {i}, global := Some(c), pcs := s.pcs[c := RelClosed(p)])
    ensures ReachableUnguarded(t)
  {
    var t1 := ReenterUnguarded(s, c, p, i);
    var t2 := UnguardedStep(t1, c, UnlockPseudo);
    t := UnguardedStep(t2, c, CloseReleased);
    assert t.pcs == s.pcs[c := RelClosed(p)];
  }

  /** Client 1 has unlocked and closed the pseudo lock file but not yet removed it. */
  lemma ReleaserDelayed(p: Path) returns (t: State)
    ensures ReachableUnguarded(t)
    ensures t == State(map[p := 10], map[], Some(1), map[1 := RelClosed(p), 2 := Idle, 3 := Idle])
  {
    var s := State(map[], map[], None, map[1 := Idle, 2 := Idle, 3 := Idle]);
    assert [s][0] == s && [s][|[s]| - 1] == s;
    assert ReachableUnguarded(s);
    t := AcquireUnguarded(s, 1, p, 10);
    t := UnlockUnguarded(t, 1, p, 10);
    assert t.locks == map[];
    assert t.pcs == map[1 := RelClosed(p), 2 := Idle, 3 := Idle];
  }

  /** Client 2 has locked the file, which client 1 removes only now. */
  lemma RemovedUnderOwner(p: Path) returns (t: State)
    ensures ReachableUnguarded(t)
    ensures t == State(map[], map[10 := 2], Some(2), map[1 := RelRemoved(p), 2 := AcqGot(p, 10), 3 := Idle])
  {
    t := ReleaserDelayed(p);
    t := AcquireUnguarded(t, 2, p, 10);
    t := UnguardedStep(t, 1, RemovePath);
    assert t.dir == map[];
    assert t.pcs == map[1 := RelRemoved(p), 2 := AcqGot(p, 10), 3 := Idle];
  }

  /** The interleaving that the global lock is there to prevent: a process unlinks the
      lock file after another one has opened and locked it, and a third one creates and
      locks a new file under the same name. */
  lemma GuardIsNeeded(p: Path) returns (t: State)
    ensures ReachableUnguarded(t) && t.pcs.Keys == {1, 2, 3}
    ensures t.pcs[2].Owns() && t.pcs[3].Owns() && t.pcs[2].path == t.pcs[3].path == p
  {
    var s := RemovedUnderOwner(p);
    assert FreshInode(s, 11);
    t := AcquireUnguarded(s, 3, p, 11);
  }
}
