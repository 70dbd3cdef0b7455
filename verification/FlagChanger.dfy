/** The class FlagChanger of devil/android/flag_changer.py: a stack of flag sets
    whose top is mirrored in a file on the device. */
module FlagChanger {
  import opened Basics
  import opened FlagQuoting

  const NOUGAT := 24

  /** What the flag changer touches on the device. */
  class Device {
    const hasRoot: bool
    const sdk: int
    var commandLine: Option<string>    // the command line file
    var enforcing: bool                // SELinux mode

    constructor (hasRoot: bool, sdk: int, commandLine: Option<string>, enforcing: bool)
      ensures this.commandLine == commandLine && this.enforcing == enforcing
    {
      this.hasRoot, this.sdk, this.commandLine, this.enforcing := hasRoot, sdk, commandLine, enforcing;
    }
  }

  function StripLeft(s: string): string
    decreases |s|
  {
    if s != "" && IsSpace(s[0]) then StripLeft(s[1..]) else s
  }

  function StripRight(s: string): string
    decreases |s|
  {
    if s != "" && IsSpace(s[|s| - 1]) then StripRight(s[..|s| - 1]) else s
  }

  /** Stripping takes away the blanks at both ends and nothing else. */
  lemma StrippedIs(s: string) returns (before: string, after: string)
    ensures var r := StripRight(StripLeft(s));
            && s == before + r + after && IsGap(before) && IsGap(after)
            && (r != "" ==> !IsBlank(r[0]) && !IsBlank(r[|r| - 1]))
  {
    before := LeftOf(s);
    after := RightOf(StripLeft(s));
    Regroup(before, StripRight(StripLeft(s)), after);
  }

  lemma {:induction false} LeftOf(s: string) returns (before: string)
    ensures s == before + StripLeft(s) && IsGap(before)
    ensures StripLeft(s) != "" ==> !IsBlank(StripLeft(s)[0])
  {
    before := "";
    if s != "" && IsSpace(s[0]) {
      var b := LeftOf(s[1..]);
      before := [s[0]] + b;
      Regroup([s[0]], b, StripLeft(s));
    }
  }

  lemma {:induction false} RightOf(s: string) returns (after: string)
    ensures s == StripRight(s) + after && IsGap(after)
    ensures StripRight(s) != "" ==> StripRight(s)[0] == s[0] && !IsBlank(StripRight(s)[|StripRight(s)| - 1])
    decreases |s|
  {
    after := "";
    if s != "" && IsSpace(s[|s| - 1]) {
      var a := RightOf(s[..|s| - 1]);
      after := a + [s[|s| - 1]];
      Regroup(StripRight(s), a, [s[|s| - 1]]);
    }
  }

  /** The flags in a command line file. */
  function FileFlags(file: Option<string>): seq<string> {
    Parsed(if file.Some? then StripRight(StripLeft(file.value)) else "")
  }

  function ToSet(flags: seq<string>): set<string> {
    set f | f in flags
  }

  predicate GoodSet(flags: set<string>) {
    forall f :: f in flags ==> GoodFlag(f)
  }

  lemma {:induction false} SavedLineIsStripped(flags: seq<string>)
    requires flags != []
    ensures var line := "_" + QuoteAll(flags); line != "" && !IsSpace(line[|line| - 1])
    decreases |flags|
  {
    QuoteFlagEnd(flags[0]);
    if |flags| == 1 {
      assert QuoteAll(flags) == " " + QuoteFlag(flags[0]);
    } else {
      SavedLineIsStripped(flags[1..]);
    }
  }

  lemma QuoteFlagEnd(f: string)
    ensures QuoteFlag(f) != "" && !IsSpace(QuoteFlag(f)[|QuoteFlag(f)| - 1])
  {
    var n := KeyLength(f);
    if f != "" && !NeedsQuoting(f[..n]) && (n == |f| || !NeedsQuoting(f[n + 1..])) {
      UnquotedFlag(f);
    }
  }

  /** Stripping the line in the file changes nothing. */
  lemma FileHoldsLine(flags: seq<string>)
    ensures FileFlags(SerializeFlags(flags)) == Parsed(SavedLine(flags))
  {
    if flags != [] {
      SavedLineIsStripped(flags);
      NothingToStrip("_" + QuoteAll(flags));
    }
  }

  lemma NothingToStrip(s: string)
    requires s != "" && !IsSpace(s[0]) && !IsSpace(s[|s| - 1])
    ensures StripRight(StripLeft(s)) == s
  {
  }

  /** Flags written to the file are the flags in the file exactly when they are good. */
  lemma FileRoundTripIff(flags: seq<string>)
    ensures FileFlags(SerializeFlags(flags)) == flags <==> GoodFlags(flags)
  {
    FileHoldsLine(flags);
    RoundTripIff(flags);
  }

  lemma FileRoundTrip(flags: seq<string>)
    requires GoodFlags(flags)
    ensures FileFlags(SerializeFlags(flags)) == flags
  {
    FileRoundTripIff(flags);
  }

  /** What is found in a file can be written back exactly when no flag in it ends in a
      backslash. */
  lemma FileIsRestorableIff(file: Option<string>)
    ensures FileFlags(SerializeFlags(FileFlags(file))) == FileFlags(file)
       <==> forall k :: 0 <= k < |FileFlags(file)| ==> !EndsInBackslash(FileFlags(file)[k])
  {
    FileRoundTripIff(FileFlags(file));
    TokensNotEmpty(START, if file.Some? then StripRight(StripLeft(file.value)) else "");
  }

  /** In whatever order a good set is written, the file holds that set. */
  lemma FileHoldsSet(order: seq<string>)
    ensures GoodSet(ToSet(order)) ==> ToSet(FileFlags(SerializeFlags(order))) == ToSet(order)
    ensures SerializeFlags(order).None? <==> ToSet(order) == {}
  {
    if GoodSet(ToSet(order)) {
      forall k | 0 <= k < |order| ensures GoodFlag(order[k]) {
        assert order[k] in ToSet(order);
      }
      FileRoundTrip(order);
    }
    if order != [] {
      assert order[0] in ToSet(order);
    }
  }

  // ----- what a run means, as a stack machine

  datatype Op =
    | Replace(flags: set<string>)
    | Push(add: set<string>, remove: set<string>)
    | Restore

  /** Restore needs a second state on the stack. */
  predicate Possible(stack: seq<set<string>>, op: Op) {
    op.Restore? ==> |stack| > 1
  }

  function Do(stack: seq<set<string>>, op: Op): (r: seq<set<string>>)
    requires stack != [] && Possible(stack, op)
    ensures r != []
  {
    match op
    case Replace(flags) => stack + [flags]
    case Push(add, remove) => stack + [stack[|stack| - 1] + add - remove]
    case Restore => stack[..|stack| - 1]
  }

  predicate AllPossible(stack: seq<set<string>>, ops: seq<Op>)
    requires stack != []
    decreases |ops|
  {
    ops == [] || (Possible(stack, ops[0]) && AllPossible(Do(stack, ops[0]), ops[1..]))
  }

  function DoAll(stack: seq<set<string>>, ops: seq<Op>): (r: seq<set<string>>)
    requires stack != [] && AllPossible(stack, ops)
    ensures r != []
    decreases |ops|
  {
    if ops == [] then stack else DoAll(Do(stack, ops[0]), ops[1..])
  }

  /** From nesting depth `depth` the operations never restore more than they pushed
      and end at depth zero. */
  predicate Balanced(ops: seq<Op>, depth: nat)
    decreases |ops|
  {
    if ops == [] then depth == 0
    else if ops[0].Restore? then depth > 0 && Balanced(ops[1..], depth - 1)
    else Balanced(ops[1..], depth + 1)
  }

  /** A balanced segment gives back the flag states it started from. */
  lemma {:induction false} BalancedRestores(stack: seq<set<string>>, above: seq<set<string>>, ops: seq<Op>)
    requires stack != [] && Balanced(ops, |above|)
    ensures AllPossible(stack + above, ops) && DoAll(stack + above, ops) == stack
    decreases |ops|
  {
    if ops == [] {
      assert stack + above == stack;
    } else {
      var after := Do(stack + above, ops[0]);
      var above' := after[|stack|..];
      assert after == stack + above';
      BalancedRestores(stack, above', ops[1..]);
    }
  }

  /** From the bottom state, exactly the balanced sequences are possible and come back to it. */
  lemma {:induction false} BalancedIff(bottom: set<string>, above: seq<set<string>>, ops: seq<Op>)
    ensures Balanced(ops, |above|) <==>
            AllPossible([bottom] + above, ops) && |DoAll([bottom] + above, ops)| == 1
    decreases |ops|
  {
    var stack := [bottom] + above;
    if ops != [] && Possible(stack, ops[0]) {
      var after := Do(stack, ops[0]);
      assert after == [bottom] + after[1..];
      BalancedIff(bottom, after[1..], ops[1..]);
    }
  }

  predicate GoodOp(op: Op) {
    match op
    case Replace(flags) => GoodSet(flags)
    case Push(add, _) => GoodSet(add)
    case Restore => true
  }

  predicate GoodStack(stack: seq<set<string>>) {
    forall k :: 0 <= k < |stack| ==> GoodSet(stack[k])
  }

  // ----- the class

  class FlagChanger {
    const device: Device
    var stateStack: seq<set<string>>
    var shouldResetEnforce: bool
    ghost const original: bool       // the SELinux mode found at the start

    /** The top of the stack is the set of flags in the file, and the mode is the
        original one unless a pending reset says otherwise. */
    ghost predicate Valid()
      reads this, device
    {
      && stateStack != []
      && stateStack[|stateStack| - 1] == ToSet(FileFlags(device.commandLine))
      && (shouldResetEnforce ==> original && !device.enforcing && |stateStack| > 1)
      && (!shouldResetEnforce ==> device.enforcing == original)
    }

    constructor (device: Device)
      ensures Valid() && this.device == device && original == device.enforcing
      ensures stateStack == [ToSet(FileFlags(device.commandLine))]
    {
      this.device := device;
      shouldResetEnforce := false;
      original := device.enforcing;
      stateStack := [ToSet(FileFlags(device.commandLine))];
    }

    method GetCurrentFlags() returns (flags: seq<string>)
      requires stateStack != []
      modifies this`stateStack
      ensures flags == FileFlags(device.commandLine)
      ensures stateStack == old(stateStack)[|old(stateStack)| - 1 := ToSet(flags)]
    {
      var line := if device.commandLine.Some? then StripRight(StripLeft(device.commandLine.value)) else "";
      flags := ParseFlags(line);
      stateStack := stateStack[|stateStack| - 1 := ToSet(flags)];
    }

    /** Iterates over a set in an order nobody promises. */
    static method Enumerate(flags: set<string>) returns (order: seq<string>)
      ensures ToSet(order) == flags && |order| == |flags|
    {
      order := [];
      var rest := flags;
      while rest != {}
        invariant ToSet(order) + rest == flags && ToSet(order) !! rest && |order| + |rest| == |flags|
      {
        var f :| f in rest;
        order, rest := order + [f], rest - {f};
      }
    }

    /** Writes the file, or removes it when there are no flags. */
    method WriteCommandLine(top: set<string>)
      modifies device`commandLine
      ensures GoodSet(top) ==> ToSet(FileFlags(device.commandLine)) == top
      ensures device.commandLine.None? <==> top == {}
    {
      var order := Enumerate(top);
      FileHoldsSet(order);
      device.commandLine := SerializeFlags(order);
    }

    method UpdateCommandLineFile() returns (flags: seq<string>)
      requires stateStack != []
      modifies this`stateStack, device`commandLine
      ensures flags == FileFlags(device.commandLine)
      ensures stateStack == old(stateStack)[|old(stateStack)| - 1 := ToSet(flags)]
      ensures GoodSet(old(stateStack)[|old(stateStack)| - 1]) ==> stateStack == old(stateStack)
      ensures old(stateStack)[|old(stateStack)| - 1] == {} <==> device.commandLine.None?
    {
      WriteCommandLine(stateStack[|stateStack| - 1]);
      flags := GetCurrentFlags();
    }

    method SetPermissive()
      modifies this`shouldResetEnforce, device`enforcing
      ensures var lower := device.hasRoot && device.sdk >= 24 && old(device.enforcing);
              && device.enforcing == (old(device.enforcing) && !lower)
              && shouldResetEnforce == (old(shouldResetEnforce) || lower)
    {
      if !device.hasRoot {
        return;
      }
      if device.sdk >= NOUGAT && device.enforcing {
        device.enforcing := false;
        shouldResetEnforce := true;
      }
    }

    method ResetEnforce()
      modifies this`shouldResetEnforce, device`enforcing
      ensures !shouldResetEnforce && device.enforcing == (old(device.enforcing) || old(shouldResetEnforce))
    {
      if shouldResetEnforce {
        device.enforcing := true;
        shouldResetEnforce := false;
      }
    }

    method ReplaceFlags(newFlags: set<string>) returns (flags: seq<string>)
      requires Valid()
      modifies this`stateStack, this`shouldResetEnforce, device
      ensures Valid() && flags == FileFlags(device.commandLine)
      ensures stateStack == old(stateStack) + [ToSet(flags)]
      ensures GoodSet(newFlags) ==> ToSet(flags) == newFlags
      ensures device.hasRoot && device.sdk >= NOUGAT ==> !device.enforcing
    {
      stateStack := stateStack + [newFlags];
      SetPermissive();
      flags := UpdateCommandLineFile();
    }

    method PushFlags(add: set<string>, remove: set<string>) returns (flags: seq<string>)
      requires Valid()
      modifies this`stateStack, this`shouldResetEnforce, device
      ensures Valid() && flags == FileFlags(device.commandLine)
      ensures stateStack == old(stateStack) + [ToSet(flags)]
      ensures var wanted := old(stateStack)[|old(stateStack)| - 1] + add - remove;
              GoodSet(wanted) ==> ToSet(flags) == wanted
    {
      var newFlags := stateStack[|stateStack| - 1];
      newFlags := newFlags + add;
      newFlags := newFlags - remove;
      flags := ReplaceFlags(newFlags);
    }

    method AddFlags(add: set<string>) returns (flags: seq<string>)
      requires Valid()
      modifies this`stateStack, this`shouldResetEnforce, device
      ensures Valid() && stateStack == old(stateStack) + [ToSet(flags)]
      ensures var wanted := old(stateStack)[|old(stateStack)| - 1] + add;
              GoodSet(wanted) ==> ToSet(flags) == wanted
    {
      flags := PushFlags(add, {});
    }

    method RemoveFlags(remove: set<string>) returns (flags: seq<string>)
      requires Valid()
      modifies this`stateStack, this`shouldResetEnforce, device
      ensures Valid() && stateStack == old(stateStack) + [ToSet(flags)]
      ensures var wanted := old(stateStack)[|old(stateStack)| - 1] - remove;
              GoodSet(wanted) ==> ToSet(flags) == wanted
    {
      flags := PushFlags({}, remove);
    }

    /** None is the assertion error of a Restore without a matching change. */
    method RestoreFlags() returns (flags: Option<seq<string>>)
      requires Valid()
      modifies this`stateStack, this`shouldResetEnforce, device
      ensures Valid() && (flags.Some? <==> |old(stateStack)| > 1)
      ensures flags.None? ==>
                stateStack == old(stateStack) && device.commandLine == old(device.commandLine) &&
                device.enforcing == old(device.enforcing)
      ensures flags.Some? ==> flags.value == FileFlags(device.commandLine)
      ensures flags.Some? ==>
                |stateStack| == |old(stateStack)| - 1 &&
                stateStack[..|stateStack| - 1] == old(stateStack)[..|stateStack| - 1]
      ensures flags.Some? && GoodSet(old(stateStack)[|old(stateStack)| - 2]) ==>
              stateStack == old(stateStack)[..|old(stateStack)| - 1]
      ensures |stateStack| == 1 ==> device.enforcing == original
    {
      if |stateStack| <= 1 {
        return None;
      }
      stateStack := stateStack[..|stateStack| - 1];
      if |stateStack| == 1 {
        ResetEnforce();
      }
      var fs := UpdateCommandLineFile();
      return Some(fs);
    }

    /** With good flags an operation is a step of the stack machine. */
    method Perform(op: Op)
      requires Valid() && GoodStack(stateStack) && Possible(stateStack, op) && GoodOp(op)
      modifies this`stateStack, this`shouldResetEnforce, device
      ensures Valid() && GoodStack(stateStack) && stateStack == Do(old(stateStack), op)
    {
      match op {
        case Replace(flags) => var _ := ReplaceFlags(flags);
        case Push(add, remove) => var _ := PushFlags(add, remove);
        case Restore => var _ := RestoreFlags();
      }
    }

    /** A run with good flags is the stack machine. Together with BalancedRestores:
        balanced segments restore the flags in the file, and a run that ends with one
        state on the stack restores the SELinux mode. */
    method Run(ops: seq<Op>)
      requires Valid() && GoodStack(stateStack)
      requires AllPossible(stateStack, ops) && forall k :: 0 <= k < |ops| ==> GoodOp(ops[k])
      modifies this`stateStack, this`shouldResetEnforce, device
      ensures Valid() && GoodStack(stateStack)
      ensures stateStack == DoAll(old(stateStack), ops)
      ensures ToSet(FileFlags(device.commandLine)) == DoAll(old(stateStack), ops)[|DoAll(old(stateStack), ops)| - 1]
      ensures |stateStack| == 1 ==> device.enforcing == original
    {
      var k := 0;
      while k < |ops|
        invariant 0 <= k <= |ops|
        invariant Valid() && GoodStack(stateStack)
        invariant AllPossible(stateStack, ops[k..]) && DoAll(stateStack, ops[k..]) == DoAll(old(stateStack), ops)
      {
        assert ops[k..][0] == ops[k] && ops[k..][1..] == ops[k + 1..];
        Perform(ops[k]);
        k := k + 1;
      }
    }

    /** Any balanced run leaves the flags, and from the bottom state the mode, as they were. */
    method RunBalanced(ops: seq<Op>)
      requires Valid() && GoodStack(stateStack)
      requires Balanced(ops, 0) && forall k :: 0 <= k < |ops| ==> GoodOp(ops[k])
      modifies this`stateStack, this`shouldResetEnforce, device
      ensures Valid() && stateStack == old(stateStack)
      ensures ToSet(FileFlags(device.commandLine)) == old(ToSet(FileFlags(device.commandLine)))
      ensures |stateStack| == 1 ==> device.enforcing == old(device.enforcing) == original
    {
      BalancedRestores(stateStack, [], ops);
      assert stateStack + [] == stateStack;
      Run(ops);
    }
  }

  /** The initial file has to hold flags that can be written back: a flag ending in a
      backslash can be read from a file but not restored to it. */
  lemma UnrestorableFile()
    ensures var line := "_ a\\";
            FileFlags(Some(line)) == ["a\\"] && FileFlags(SerializeFlags(["a\\"])) != ["a\\"]
  {
    var line := "_ a\\";
    assert StripLeft(line) == line && StripRight(line) == line;
    assert line == "_" + (" " + "a\\");
    OneStep(START, '_');
    StepsConcat(START, "_", " " + "a\\");
    var p := Parser([], None, Some("_"));
    assert Step(START, '_') == p;
    SpaceStep(p, "a\\");
    var q := Between(["_"]);
    assert Steps(q, "a\\") == Steps(Step(q, 'a'), "\\") by {
      assert "a\\"[1..] == "\\";
    }
    OneStep(Step(q, 'a'), '\\');
    assert Step(q, 'a') == Parser(["_"], None, Some("a"));
    assert Step(Step(q, 'a'), '\\') == Parser(["_"], None, Some("a" + ['\\']));
    assert "a" + ['\\'] == "a\\";
    assert Steps(START, line) == Steps(p, " " + "a\\") == Steps(Between(Finish(p)), "a\\");
    assert Tokens(line) == ["_", "a\\"];
    FileRoundTripIff(["a\\"]);
    assert EndsInBackslash(["a\\"][0]);
  }
}
