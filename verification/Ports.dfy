/** The test server port allocator of devil/android/ports.py, shared by processes through
    a port file and a lock file. */
module Ports {
  import opened Basics

  const FIRST_PORT: nat := 10201
  const LAST_PORT: nat := 30000

  /** The largest port that can be asked for; bind raises OverflowError beyond it. */
  const MAX_PORT: nat := 65535

  // ----- numbers in the port file

  function Digit(n: nat): char
    requires n < 10
  {
    '0' + n as char
  }

  function Decimal(n: nat): (s: string)
    ensures s != ""
  {
    if n < 10 then [Digit(n)] else Decimal(n / 10) + [Digit(n % 10)]
  }

  /** int() of what is read; only plain digits occur. */
  function Parse(s: string): Option<nat> {
    if s == "" || !('0' <= s[|s| - 1] <= '9') then None
    else
      var d := (s[|s| - 1] - '0') as nat;
      if |s| == 1 then Some(d)
      else match Parse(s[..|s| - 1]) case None => None case Some(n) => Some(10 * n + d)
  }

  /** Writing `text` at the start of a file without truncating it. */
  function Overwritten(content: string, text: string): string {
    text + if |content| > |text| then content[|text|..] else ""
  }

  lemma {:induction false} ParseDecimal(n: nat)
    ensures Parse(Decimal(n)) == Some(n)
  {
    if n >= 10 {
      ParseDecimal(n / 10);
      var s := Decimal(n);
      assert s[..|s| - 1] == Decimal(n / 10);
    }
  }

  function Digits(n: nat): nat {
    if n < 10 then 1 else 1 + Digits(n / 10)
  }

  lemma {:induction false} DecimalLength(n: nat)
    ensures |Decimal(n)| == Digits(n)
  {
    if n >= 10 {
      DecimalLength(n / 10);
    }
  }

  lemma FiveDigits(n: nat)
    requires 10000 <= n <= 99999
    ensures Digits(n) == 5
  {
    var a := n / 10;
    var b := a / 10;
    var c := b / 10;
    var d := c / 10;
    assert 1 <= d <= 9 && Digits(d) == 1;
    assert Digits(c) == 2 && Digits(b) == 3 && Digits(a) == 4;
  }

  lemma OverwriteEmpty(text: string)
    ensures Overwritten("", text) == text
  {
  }

  /** Overwriting one number by another leaves a stale digit if and only if it is shorter. */
  lemma OverwriteIff(old': nat, new': nat)
    ensures Overwritten(Decimal(old'), Decimal(new')) == Decimal(new') <==> Digits(old') <= Digits(new')
  {
    DecimalLength(old');
    DecimalLength(new');
  }

  // ----- one call, alone

  /** Where the search for an available port ends: at one of `available`, or beyond the
      last port, where the attempt raises. */
  function Found(port: nat, available: set<nat>): (r: nat)
    ensures port <= r && (r in available || r > MAX_PORT)
    decreases MAX_PORT + 1 - port
  {
    if port > MAX_PORT || port in available then port else Found(port + 1, available)
  }

  lemma FoundIsFirst(port: nat, available: set<nat>, q: nat)
    requires port <= q < Found(port, available)
    ensures q !in available && q <= MAX_PORT
  {
    if port < q {
      FoundLater(port, q, available);
    }
  }

  lemma {:induction false} FoundLater(port: nat, q: nat, available: set<nat>)
    requires port <= q <= Found(port, available)
    ensures Found(q, available) == Found(port, available)
    decreases q - port
  {
    if port < q {
      FoundLater(port + 1, q, available);
    }
  }

  predicate InRange(port: nat) {
    FIRST_PORT <= port <= LAST_PORT
  }

  /** The result of a call and the port file after it. */
  function Allocated(file: Option<string>, available: set<nat>): (nat, Option<string>) {
    var content := match file case Some(text) => text case None => Decimal(FIRST_PORT);
    match Parse(content)
    case None => (0, Some(content))
    case Some(n) =>
      var port := Found(n, available);
      if port > MAX_PORT then (port, Some(content))
      else if !InRange(port) then (0, Some(content))
      else (port, Some(Overwritten(content, Decimal(port + 1))))
  }

  class PortFile {
    /** None when the file does not exist. */
    var content: Option<string>

    method ResetTestServerPortAllocation()
      modifies this
      ensures content == Some(Decimal(FIRST_PORT))
    {
      content := Some("");
      OverwriteEmpty(Decimal(FIRST_PORT));
      content := Some(Overwritten(content.value, Decimal(FIRST_PORT)));
    }

    /** The call between locking and unlocking; `available` holds the ports that can be
        bound at the moment they are tried. */
    method AllocateTestServerPort(available: set<nat>) returns (port: nat)
      modifies this
      ensures (port, content) == Allocated(old(content), available)
    {
      port := 0;
      if content.None? {
        ResetTestServerPortAllocation();
      }
      var read := Parse(content.value);
      if read.None? {
        return;
      }
      port := read.value;
      while port <= MAX_PORT && port !in available
        invariant Found(port, available) == Found(read.value, available)
        decreases MAX_PORT + 1 - port
      {
        port := port + 1;
      }
      if port > MAX_PORT {
        return;
      }
      if port > LAST_PORT || port < FIRST_PORT {
        port := 0;
      } else {
        content := Some(Overwritten(content.value, Decimal(port + 1)));
      }
    }
  }

  /** With a next port stored, or no file yet, a call returns a valid port, or 0 for none, if
      and only if some port from the stored one on can be bound; the port is the first such. */
  lemma ResultIsValidIff(was: Option<string>, n: nat, available: set<nat>)
    requires FIRST_PORT <= n <= LAST_PORT + 1
    requires was == Some(Decimal(n)) || (was.None? && n == 10201)
    ensures var (port, file) := Allocated(was, available);
            && (port == 0 || InRange(port) <==> exists q :: n <= q <= 65535 && q in available)
            && (InRange(port) <==> exists q :: n <= q <= 30000 && q in available)
            && (InRange(port) ==> port in available && (forall q :: n <= q < port ==> q !in available))
            && file == Some(Decimal(if InRange(port) then port + 1 else n))
  {
    ParseDecimal(n);
    var port := Found(n, available);
    forall q | n <= q < port ensures q !in available && q <= MAX_PORT {
      FoundIsFirst(n, available, q);
    }
    if InRange(port) {
      FiveDigits(n);
      FiveDigits(port + 1);
      OverwriteIff(n, port + 1);
    }
  }

  /** A file that holds no number is left as it is, and gives no port. */
  lemma UnreadableGivesNone(text: string, available: set<nat>)
    requires !AllDigits(text)
    ensures Allocated(Some(text), available) == (0, Some(text))
  {
    ParseIff(text);
  }

  predicate AllDigits(s: string) {
    s != "" && forall k :: 0 <= k < |s| ==> '0' <= s[k] <= '9'
  }

  /** Exactly the texts of digits are numbers. */
  lemma {:induction false} ParseIff(s: string)
    ensures Parse(s).Some? <==> AllDigits(s)
  {
    if |s| > 1 {
      var last := |s| - 1;
      ParseIff(s[..last]);
      assert AllDigits(s) <==> AllDigits(s[..last]) && '0' <= s[last] <= '9' by {
        assert forall k :: 0 <= k < last ==> s[..last][k] == s[k];
      }
    }
  }

  // ----- any number of processes

  type Process = nat

  datatype Pc =
    | Idle
    | Locked                   // the lock file is flocked
    | Emptied                  // the port file has been created, with nothing in it yet
    | Ready                    // the port file exists
    | Searching(port: nat)
    | Chosen(port: nat)        // to be stored
    | Done(result: nat)        // to be returned

  /** `given` lists the results other than 0, in the order in which calls end. */
  datatype State = State(file: Option<string>, holder: Option<Process>, pcs: map<Process, Pc>, given: seq<nat>)

  datatype Action =
    | Lock
    | SeeFile
    | CreateFile
    | WriteFirst
    | FailWrite          // the write of a new file fails, which reset catches
    | ReadFile
    | Probe(available: bool)
    | Overflow           // there is no port to be tried any more
    | Store
    | Fail               // the port file cannot be opened
    | Unlock
    | Crash              // the process ends, which drops its lock

  datatype Event = Event(process: Process, action: Action)

  ghost predicate Enabled(s: State, p: Process, a: Action) {
    p in s.pcs &&
    var pc := s.pcs[p];
    match a
    case Lock => pc.Idle? && s.holder.None?
    case SeeFile => pc.Locked? && s.file.Some?
    case CreateFile => pc.Locked? && s.file.None?
    case WriteFirst => pc.Emptied?
    case FailWrite => pc.Emptied?
    case ReadFile => pc.Ready? && s.file.Some?
    case Probe(_) => pc.Searching? && pc.port <= MAX_PORT
    case Overflow => pc.Searching? && pc.port > MAX_PORT
    case Store => pc.Chosen?
    case Fail => pc.Locked? || pc.Ready?
    case Unlock => pc.Done?
    case Crash => true
  }

  function NextPc(s: State, pc: Pc, a: Action): Pc {
    match a
    case Lock => Locked
    case SeeFile => Ready
    case CreateFile => Emptied
    case WriteFirst => Ready
    case FailWrite => Ready
    case ReadFile =>
      if s.file.Some? && Parse(s.file.value).Some? then Searching(Parse(s.file.value).value) else Done(0)
    case Probe(available) =>
      if !pc.Searching? then pc
      else if !available then Searching(pc.port + 1)
      else if InRange(pc.port) then Chosen(pc.port)
      else Done(0)
    case Overflow => if pc.Searching? then Done(pc.port) else pc
    case Store => if pc.Chosen? then Done(pc.port) else pc
    case Fail => Done(0)
    case Unlock => Idle
    case Crash => Idle
  }

  function Apply(s: State, p: Process, a: Action): State
    requires p in s.pcs
  {
    var pc := s.pcs[p];
    var t := s.(pcs := s.pcs[p := NextPc(s, pc, a)]);
    match a
    case Lock => t.(holder := Some(p))
    case CreateFile => t.(file := Some(""))
    case WriteFirst => if s.file.Some? then t.(file := Some(Overwritten(s.file.value, Decimal(FIRST_PORT)))) else t
    case Store =>
      if pc.Chosen? && s.file.Some? then t.(file := Some(Overwritten(s.file.value, Decimal(pc.port + 1)))) else t
    case Unlock =>
      t.(holder := None, given := if pc.Done? && pc.result != 0 then s.given + [pc.result] else s.given)
    case Crash => t.(holder := if s.holder == Some(p) then None else s.holder)
    case _ => t
  }

  /** Nothing locked or given; the port file is missing or has just been reset. */
  ghost predicate Init(s: State) {
    && (s.file.None? || s.file == Some(Decimal(FIRST_PORT)))
    && s.holder.None? && s.given == []
    && forall p :: p in s.pcs ==> s.pcs[p].Idle?
  }

  ghost predicate ValidTrace(s: State, trace: seq<Event>)
    decreases trace
  {
    trace == [] ||
    (Enabled(s, trace[0].process, trace[0].action) &&
     ValidTrace(Apply(s, trace[0].process, trace[0].action), trace[1..]))
  }

  ghost function Run(s: State, trace: seq<Event>): State
    requires ValidTrace(s, trace)
    decreases trace
  {
    if trace == [] then s else Run(Apply(s, trace[0].process, trace[0].action), trace[1..])
  }

  /** How a search that stops at `port` goes on. */
  function Stopped(port: nat): Pc {
    if port > MAX_PORT then Done(port) else if InRange(port) then Chosen(port) else Done(0)
  }

  /** The steps of `p` alone lead from `s` to `t`, without any fault. */
  ghost predicate LeadsAlone(s: State, p: Process, t: State) {
    exists trace :: ValidTrace(s, trace) && Run(s, trace) == t && Faultless(trace, p)
  }

  ghost predicate Faultless(trace: seq<Event>, p: Process) {
    forall k :: 0 <= k < |trace| ==>
      trace[k].process == p && !trace[k].action.FailWrite? && !trace[k].action.Fail? && !trace[k].action.Crash?
  }

  lemma AloneRefl(s: State, p: Process)
    ensures LeadsAlone(s, p, s)
  {
    assert ValidTrace(s, []) && Run(s, []) == s && Faultless([], p);
  }

  lemma AloneStep(s: State, p: Process, a: Action, t: State)
    requires Enabled(s, p, a) && !a.FailWrite? && !a.Fail? && !a.Crash? && LeadsAlone(Apply(s, p, a), p, t)
    ensures LeadsAlone(s, p, t)
  {
    var u := Apply(s, p, a);
    var trace :| ValidTrace(u, trace) && Run(u, trace) == t && Faultless(trace, p);
    var longer := [Event(p, a)] + trace;
    assert longer[0] == Event(p, a) && longer[1..] == trace;
    assert ValidTrace(s, longer) && Run(s, longer) == t && Faultless(longer, p);
  }

  /** The single probes of a search add up to the loop: when the ports that can be bound are
      `available`, the search goes on from where Found says. */
  lemma {:induction false} ProbesFind(s: State, p: Process, available: set<nat>, t: State)
    requires p in s.pcs && s.pcs[p].Searching?
    requires LeadsAlone(s.(pcs := s.pcs[p := Stopped(Found(s.pcs[p].port, available))]), p, t)
    ensures LeadsAlone(s, p, t)
    decreases MAX_PORT + 1 - s.pcs[p].port
  {
    var port := s.pcs[p].port;
    if port > MAX_PORT {
      AloneStep(s, p, Overflow, t);
    } else if port in available {
      AloneStep(s, p, Probe(true), t);
    } else {
      var u := Apply(s, p, Probe(false));
      assert u.pcs[p := Stopped(Found(port, available))] == s.pcs[p := Stopped(Found(port, available))];
      ProbesFind(u, p, available, t);
      AloneStep(s, p, Probe(false), t);
    }
  }

  /** The state after a call on its own. */
  function AfterCall(s: State, available: set<nat>): State {
    var (result, file) := Allocated(s.file, available);
    s.(file := file, given := if result == 0 then s.given else s.given + [result])
  }

  /** The single steps of a call that nothing disturbs add up to Allocated: a call that finds
      the lock free can leave its file and give its result. */
  lemma CallAllocates(s: State, p: Process, available: set<nat>)
    requires p in s.pcs && s.pcs[p].Idle? && s.holder.None?
    ensures LeadsAlone(s, p, AfterCall(s, available))
  {
    var t := AfterCall(s, available);
    var s1 := Apply(s, p, Lock);
    if s.file.Some? {
      ReadyAllocates(Apply(s1, p, SeeFile), p, available, t);
      AloneStep(s1, p, SeeFile, t);
    } else {
      var s2 := Apply(s1, p, CreateFile);
      OverwriteEmpty(Decimal(FIRST_PORT));
      ReadyAllocates(Apply(s2, p, WriteFirst), p, available, t);
      AloneStep(s2, p, WriteFirst, t);
      AloneStep(s1, p, CreateFile, t);
    }
    AloneStep(s, p, Lock, t);
  }

  lemma ReadyAllocates(s: State, p: Process, available: set<nat>, t: State)
    requires p in s.pcs && s.pcs[p].Ready? && s.file.Some?
    requires t == AfterCall(s.(holder := None, pcs := s.pcs[p := Idle]), available)
    ensures LeadsAlone(s, p, t)
  {
    var u := Apply(s, p, ReadFile);
    if Parse(s.file.value).None? {
      DoneReturns(u, p, t);
    } else {
      var n := Parse(s.file.value).value;
      var v := u.(pcs := u.pcs[p := Stopped(Found(n, available))]);
      if v.pcs[p].Chosen? {
        DoneReturns(Apply(v, p, Store), p, t);
        AloneStep(v, p, Store, t);
      } else {
        DoneReturns(v, p, t);
      }
      ProbesFind(u, p, available, t);
    }
    AloneStep(s, p, ReadFile, t);
  }

  lemma DoneReturns(s: State, p: Process, t: State)
    requires p in s.pcs && s.pcs[p].Done?
    requires t == s.(holder := None, pcs := s.pcs[p := Idle],
                     given := if s.pcs[p].result == 0 then s.given else s.given + [s.pcs[p].result])
    ensures LeadsAlone(s, p, t)
  {
    AloneRefl(t, p);
    AloneStep(s, p, Unlock, t);
  }

  // ----- the invariant

  /** Only the holder of the lock is in the middle of a call. */
  ghost predicate LockInv(s: State) {
    && (s.holder.Some? ==> s.holder.value in s.pcs)
    && forall p :: p in s.pcs ==> (s.pcs[p].Idle? <==> s.holder != Some(p))
  }

  /** The file holds the decimal digits of `n` and nothing else. */
  ghost predicate Holds(file: Option<string>, n: nat) {
    file == Some(Decimal(n)) && FIRST_PORT <= n <= LAST_PORT + 1
  }

  ghost predicate Below(given: seq<nat>, n: nat) {
    forall i :: 0 <= i < |given| && given[i] <= MAX_PORT ==> given[i] < n
  }

  /** Before a number is stored nothing has been given; then all given is below it. */
  ghost predicate FileInv(file: Option<string>, given: seq<nat>) {
    if file.None? || file == Some("") then given == []
    else Parse(file.value).Some? && Holds(file, Parse(file.value).value) && Below(given, Parse(file.value).value)
  }

  ghost predicate CallInv(file: Option<string>, given: seq<nat>, pc: Pc) {
    match pc
    case Emptied => file == Some("")
    case Ready => file.Some?
    case Searching(port) =>
      file.Some? && Parse(file.value).Some? && Parse(file.value).value <= port <= MAX_PORT + 1
    case Chosen(port) =>
      file.Some? && Parse(file.value).Some? && Parse(file.value).value <= port <= LAST_PORT
    case Done(r) =>
      r == 0 || (r == MAX_PORT + 1 && file.Some? && file != Some(""))
      || (InRange(r) && file == Some(Decimal(r + 1)) && Below(given, r))
    case _ => true
  }

  /** Results are valid ports, each above those before it, but for overflows. */
  ghost predicate GivenInv(given: seq<nat>) {
    && (forall i :: 0 <= i < |given| ==> InRange(given[i]) || given[i] == MAX_PORT + 1)
    && (forall i, j :: 0 <= i < j < |given| && given[i] <= MAX_PORT && given[j] <= MAX_PORT ==> given[i] < given[j])
  }

  ghost predicate Inv(s: State) {
    && LockInv(s)
    && FileInv(s.file, s.given)
    && GivenInv(s.given)
    && (s.holder.Some? ==> CallInv(s.file, s.given, s.pcs[s.holder.value]))
  }

  lemma InitInv(s: State)
    requires Init(s)
    ensures Inv(s)
  {
    ParseDecimal(FIRST_PORT);
  }

  lemma LockingKeepsInv(s: State, p: Process)
    requires Inv(s) && Enabled(s, p, Lock)
    ensures Inv(Apply(s, p, Lock))
  {
  }

  lemma WritingFirstKeepsInv(s: State, p: Process)
    requires Inv(s) && Enabled(s, p, WriteFirst)
    ensures Inv(Apply(s, p, WriteFirst))
  {
    ParseDecimal(FIRST_PORT);
    assert s.holder == Some(p);
    assert s.file == Some("");
    OverwriteEmpty(Decimal(FIRST_PORT));
  }

  lemma StoringKeepsInv(s: State, p: Process)
    requires Inv(s) && Enabled(s, p, Store)
    ensures Inv(Apply(s, p, Store))
  {
    assert s.holder == Some(p);
    StoredNumber(s.file, s.given, s.pcs[p].port);
  }

  lemma StoredNumber(file: Option<string>, given: seq<nat>, port: nat)
    requires FileInv(file, given) && CallInv(file, given, Chosen(port))
    ensures var stored := Some(Overwritten(file.value, Decimal(port + 1)));
            FileInv(stored, given) && CallInv(stored, given, Done(port))
  {
    var n := Parse(file.value).value;
    assert Holds(file, n);
    ParseDecimal(port + 1);
    FiveDigits(n);
    FiveDigits(port + 1);
    OverwriteIff(n, port + 1);
  }

  lemma ReturningKeepsInv(s: State, p: Process)
    requires Inv(s) && Enabled(s, p, Unlock)
    ensures Inv(Apply(s, p, Unlock))
  {
    assert s.holder == Some(p);
    var r := s.pcs[p].result;
    assert CallInv(s.file, s.given, Done(r));
    if r != 0 {
      GivenGrows(s.file, s.given, r);
    }
  }

  lemma GivenGrows(file: Option<string>, given: seq<nat>, r: nat)
    requires FileInv(file, given) && GivenInv(given) && CallInv(file, given, Done(r)) && r != 0
    ensures FileInv(file, given + [r]) && GivenInv(given + [r])
  {
    var more := given + [r];
    forall i | 0 <= i < |more| ensures more[i] == if i < |given| then given[i] else r {
    }
    if InRange(r) {
      ParseDecimal(r + 1);
    }
  }

  lemma CrashingKeepsInv(s: State, p: Process)
    requires Inv(s) && Enabled(s, p, Crash)
    ensures Inv(Apply(s, p, Crash))
  {
  }

  /** The steps of the holder that neither store nor return anything. */
  lemma MovingKeepsInv(s: State, p: Process, a: Action)
    requires Inv(s) && Enabled(s, p, a)
    requires !a.Lock? && !a.WriteFirst? && !a.Store? && !a.Unlock? && !a.Crash?
    ensures Inv(Apply(s, p, a))
  {
    assert s.holder == Some(p);
  }

  lemma StepKeepsInv(s: State, p: Process, a: Action)
    requires Inv(s) && Enabled(s, p, a)
    ensures Inv(Apply(s, p, a))
  {
    match a
    case Lock => LockingKeepsInv(s, p);
    case WriteFirst => WritingFirstKeepsInv(s, p);
    case Store => StoringKeepsInv(s, p);
    case Unlock => ReturningKeepsInv(s, p);
    case Crash => CrashingKeepsInv(s, p);
    case _ => MovingKeepsInv(s, p, a);
  }

  lemma {:induction false} RunKeepsInv(s: State, trace: seq<Event>)
    requires Inv(s) && ValidTrace(s, trace)
    ensures Inv(Run(s, trace))
    decreases trace
  {
    if trace != [] {
      StepKeepsInv(s, trace[0].process, trace[0].action);
      RunKeepsInv(Apply(s, trace[0].process, trace[0].action), trace[1..]);
    }
  }

  // ----- main results

  /** A port can always be found: no search runs past the last one. */
  ghost predicate NoOverflow(trace: seq<Event>) {
    forall i :: 0 <= i < |trace| ==> !trace[i].action.Overflow?
  }

  ghost predicate Clean(s: State) {
    && (forall i :: 0 <= i < |s.given| ==> s.given[i] <= MAX_PORT)
    && (forall p :: p in s.pcs && s.pcs[p].Done? ==> s.pcs[p].result <= MAX_PORT)
  }

  lemma StepStaysClean(s: State, p: Process, a: Action)
    requires Inv(s) && Enabled(s, p, a) && Clean(s) && !a.Overflow?
    ensures Clean(Apply(s, p, a))
  {
    var t := Apply(s, p, a);
    if s.pcs[p].Chosen? {
      assert s.holder == Some(p);
    }
    forall i | 0 <= i < |t.given| ensures t.given[i] <= MAX_PORT {
      if i < |s.given| {
        assert t.given[i] == s.given[i];
      }
    }
  }

  lemma {:induction false} RunStaysClean(s: State, trace: seq<Event>)
    requires Inv(s) && ValidTrace(s, trace) && Clean(s) && NoOverflow(trace)
    ensures Clean(Run(s, trace))
    decreases trace
  {
    if trace != [] {
      var e := trace[0];
      assert !e.action.Overflow?;
      StepKeepsInv(s, e.process, e.action);
      StepStaysClean(s, e.process, e.action);
      assert forall i :: 0 <= i < |trace[1..]| ==> trace[1..][i] == trace[i + 1];
      RunStaysClean(Apply(s, e.process, e.action), trace[1..]);
    }
  }

  /** Over every interleaving of any number of processes, crashes included, the ports given
      are valid and strictly increasing, as long as some port can be bound. */
  lemma PortsIncrease(s: State, trace: seq<Event>)
    requires Init(s) && ValidTrace(s, trace) && NoOverflow(trace)
    ensures var given := Run(s, trace).given;
            && (forall i :: 0 <= i < |given| ==> 10201 <= given[i] <= 30000)
            && (forall i, j :: 0 <= i < j < |given| ==> given[i] < given[j])
  {
    InitInv(s);
    RunKeepsInv(s, trace);
    RunStaysClean(s, trace);
  }

  /** The one other result that a call can have is the number after the last port. */
  lemma OnlyOverflowIsInvalid(s: State, trace: seq<Event>, i: nat)
    requires Init(s) && ValidTrace(s, trace) && i < |Run(s, trace).given| && !InRange(Run(s, trace).given[i])
    ensures Run(s, trace).given[i] == MAX_PORT + 1 && !NoOverflow(trace)
  {
    InitInv(s);
    RunKeepsInv(s, trace);
    if NoOverflow(trace) {
      RunStaysClean(s, trace);
      assert false;
    }
  }

  /** The port file never holds a stale digit. */
  lemma FileIsANumber(s: State, trace: seq<Event>)
    requires Init(s) && ValidTrace(s, trace)
    ensures var file := Run(s, trace).file;
            file.None? || file == Some("") || exists n :: Holds(file, n)
  {
    InitInv(s);
    RunKeepsInv(s, trace);
    var file := Run(s, trace).file;
    if file.Some? && file != Some("") {
      assert Holds(file, Parse(file.value).value);
    }
  }
}
