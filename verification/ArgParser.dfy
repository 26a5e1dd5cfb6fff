/**
 * The CLI's argument parser (pkg/cli/args/parser.go). A reading cuts an argv into the items of
 * ffmpeg's grammar; the parser's loop is proved to return what the reading says.
 */
module ArgGrammar {
  import opened FfmpegOpts

  datatype Item =
    | Input(spelling: string, path: string)
    | Flag(flag: string)
    | Setting(flag: string, value: string)
    | OutputFlag(path: string)
    | Bare(path: string)

  /** What an argv that stops inside an item still needs. */
  datatype Tail = Complete | NeedsInput(spelling: string) | NeedsOutput | NeedsValue(flag: string)

  datatype Reading = Reading(items: seq<Item>, tail: Tail)

  predicate IsInputFlag(arg: string) { arg == "-i" || arg == "--input" }

  predicate IsOption(arg: string) { "-" <= arg && arg != "-" }

  function Push(item: Item, r: Reading): Reading { Reading([item] + r.items, r.tail) }

  function Read(table: ArityTable, args: seq<string>, i: nat): Reading
    requires i <= |args|
    decreases |args| - i
  {
    if i == |args| then Reading([], Complete)
    else
      var arg := args[i];
      var last := i + 1 == |args|;
      if IsInputFlag(arg) then
        if last then Reading([], NeedsInput(arg)) else Push(Input(arg, args[i + 1]), Read(table, args, i + 2))
      else if arg == "-o" then
        if last then Reading([], NeedsOutput) else Push(OutputFlag(args[i + 1]), Read(table, args, i + 2))
      else if !IsOption(arg) then Push(Bare(arg), Read(table, args, i + 1))
      else if IsBoolean(table, arg) then Push(Flag(arg), Read(table, args, i + 1))
      else if last then Reading([], NeedsValue(arg))
      else Push(Setting(arg, args[i + 1]), Read(table, args, i + 2))
  }

  function Words(item: Item): seq<string> {
    match item
    case Input(spelling, path) => [spelling, path]
    case Flag(flag) => [flag]
    case Setting(flag, value) => [flag, value]
    case OutputFlag(path) => ["-o", path]
    case Bare(path) => [path]
  }

  function Render(items: seq<Item>): seq<string> {
    if items == [] then [] else Words(items[0]) + Render(items[1..])
  }

  function RenderTail(tail: Tail): seq<string> {
    match tail
    case Complete => []
    case NeedsInput(spelling) => [spelling]
    case NeedsOutput => ["-o"]
    case NeedsValue(flag) => [flag]
  }

  /** The first item of a reading stands for the words it starts with. */
  lemma ReadStep(table: ArityTable, args: seq<string>, i: nat)
    requires i <= |args|
    ensures
      var r := Read(table, args, i);
      if r.items == [] then RenderTail(r.tail) == args[i..]
      else
        var n := |Words(r.items[0])|;
        && n > 0 && i + n <= |args| && args[i..i + n] == Words(r.items[0])
        && r == Push(r.items[0], Read(table, args, i + n))
  {
    hide IsBoolean, IsOption;
  }

  /** A reading loses nothing: written out again it is the argv. */
  lemma {:induction false} ReadingRenders(table: ArityTable, args: seq<string>, i: nat)
    requires i <= |args|
    ensures Render(Read(table, args, i).items) + RenderTail(Read(table, args, i).tail) == args[i..]
    decreases |args| - i
  {
    hide Read, Words;
    ReadStep(table, args, i);
    var r := Read(table, args, i);
    if r.items != [] {
      var n := |Words(r.items[0])|;
      var rest := Read(table, args, i + n);
      ReadingRenders(table, args, i + n);
      assert r.items[1..] == rest.items;
      assert args[i..] == args[i..i + n] + args[i + n..];
    }
  }

  predicate HasBare(items: seq<Item>) { exists k :: 0 <= k < |items| && items[k].Bare? }
}

module ArgParser {
  import opened FfmpegOpts
  import opened ArgGrammar
  import opened JobArgs

  datatype ParseError =
    | NoInputFile
    | NoOutputFile
    | MultipleOutputs(name: string)
    | MissingValue(option: string)

  datatype Parsed = Parsed(inputFiles: seq<string>, outputFile: string, streaming: bool, allArgs: seq<string>)

  datatype Result = Ok(value: Parsed) | Err(error: ParseError)

  predicate IsPipeOne(s: string) {
    |s| == 6 && s[0] in "pP" && s[1] in "iI" && s[2] in "pP" && s[3] in "eE" && s[4..] == ":1"
  }

  function Normalized(output: string): string { if IsPipeOne(output) then "-" else output }

  function Finished(inputs: seq<string>, all: seq<string>, output: string): Result {
    if inputs == [] then Err(NoInputFile)
    else if output == "" then Err(NoOutputFile)
    else Ok(Parsed(inputs, Normalized(output), Normalized(output) == "-", all))
  }

  function SecondOutput(explicitInput: bool, name: string): Result {
    if explicitInput then Err(MultipleOutputs(name)) else Err(NoInputFile)
  }

  predicate IsOutput(item: Item) { item.OutputFlag? || item.Bare? }

  function InputOf(item: Item): seq<string> { if item.Input? then [item.path] else [] }

  /** The passthrough words of an item: inputs behind a placeholder, output targets left out. */
  function Passed(item: Item): seq<string> {
    match item
    case Input(_, _) => ["-i", PLACEHOLDER]
    case Flag(flag) => [flag]
    case Setting(flag, value) => [flag, value]
    case _ => []
  }

  function TargetOf(item: Item): seq<string> { if IsOutput(item) then [item.path] else [] }

  /** The parse of the items still to come, given what was collected so far. */
  function Outcome(r: Reading, explicitInput: bool, inputs: seq<string>, all: seq<string>, output: string): Result
    decreases |r.items|
  {
    if r.items == [] then
      match r.tail
      case Complete => Finished(inputs, all, output)
      case NeedsInput(_) => Err(NoInputFile)
      case NeedsOutput => Err(NoOutputFile)
      case NeedsValue(flag) => Err(MissingValue(flag))
    else
      var item := r.items[0];
      var rest := Reading(r.items[1..], r.tail);
      if !IsOutput(item) then Outcome(rest, explicitInput, inputs + InputOf(item), all + Passed(item), output)
      else if output != "" || (item.Bare? && HasBare(rest.items)) then SecondOutput(explicitInput, item.path)
      else Outcome(rest, explicitInput, inputs, all, item.path)
  }

  predicate HasInputFlag(args: seq<string>) { exists k :: 0 <= k < |args| && IsInputFlag(args[k]) }

  function ParseSpec(table: ArityTable, args: seq<string>): Result {
    Outcome(Read(table, args, 0), HasInputFlag(args), [], [], "")
  }

  // ----- the parser's loops

  /** The index of the last bare word at or after i, or -1. */
  function LastBare(table: ArityTable, args: seq<string>, i: nat): (c: int)
    ensures c == -1 || i <= c < |args|
    decreases |args| - i
  {
    if i >= |args| then -1
    else if IsInputFlag(args[i]) || args[i] == "-o" then LastBare(table, args, i + 2)
    else if IsOption(args[i]) then LastBare(table, args, if IsBoolean(table, args[i]) then i + 1 else i + 2)
    else
      var rest := LastBare(table, args, i + 1);
      if rest == -1 then i else rest
  }

  lemma PushHasBare(item: Item, r: Reading)
    ensures HasBare(Push(item, r).items) <==> item.Bare? || HasBare(r.items)
  {
    var items := Push(item, r).items;
    if k :| 0 <= k < |r.items| && r.items[k].Bare? {
      assert items[k + 1].Bare?;
    }
    if item.Bare? {
      assert items[0].Bare?;
    }
  }

  /** How the words at i are read, option by option. */
  lemma ReadCases(table: ArityTable, args: seq<string>, i: nat)
    requires i < |args|
    ensures
      var arg, r := args[i], Read(table, args, i);
      var takesTwo := IsInputFlag(arg) || arg == "-o" || (IsOption(arg) && !IsBoolean(table, arg));
      if takesTwo && i + 1 == |args| then
        && LastBare(table, args, i) == -1
        && r == Reading([], if IsInputFlag(arg) then NeedsInput(arg) else if arg == "-o" then NeedsOutput
                            else NeedsValue(arg))
      else if takesTwo then
        && LastBare(table, args, i) == LastBare(table, args, i + 2)
        && r == Push(if IsInputFlag(arg) then Input(arg, args[i + 1]) else if arg == "-o" then OutputFlag(args[i + 1])
                     else Setting(arg, args[i + 1]), Read(table, args, i + 2))
      else if IsOption(arg) then
        && LastBare(table, args, i) == LastBare(table, args, i + 1)
        && r == Push(Flag(arg), Read(table, args, i + 1))
      else
        && LastBare(table, args, i) == (if LastBare(table, args, i + 1) == -1 then i else LastBare(table, args, i + 1))
        && r == Push(Bare(arg), Read(table, args, i + 1))
  {
    hide IsBoolean, IsOption;
  }

  lemma LastBareStep(table: ArityTable, args: seq<string>, i: nat)
    requires i < |args|
    ensures
      var r := Read(table, args, i);
      if r.items == [] then LastBare(table, args, i) == -1
      else
        var n := if r.items[0].Flag? || r.items[0].Bare? then 1 else 2;
        && i + n <= |args| && r == Push(r.items[0], Read(table, args, i + n))
        && LastBare(table, args, i) == if r.items[0].Bare? && LastBare(table, args, i + n) == -1 then i
                                       else LastBare(table, args, i + n)
  {
    ReadCases(table, args, i);
    hide Read, LastBare, IsBoolean, IsOption, IsInputFlag;
  }

  lemma {:induction false} LastBareReads(table: ArityTable, args: seq<string>, i: nat)
    requires i <= |args|
    ensures LastBare(table, args, i) == -1 <==> !HasBare(Read(table, args, i).items)
    decreases |args| - i
  {
    if i < |args| {
      LastBareStep(table, args, i);
      hide Read, LastBare, HasBare;
      var r := Read(table, args, i);
      if r.items == [] {
        NoItemsNoBare(r.items);
      } else {
        var n := if r.items[0].Flag? || r.items[0].Bare? then 1 else 2;
        LastBareReads(table, args, i + n);
        PushHasBare(r.items[0], Read(table, args, i + n));
      }
    }
  }

  lemma NoItemsNoBare(items: seq<Item>)
    ensures items == [] ==> !HasBare(items)
  {
  }

  lemma OutcomeOfPush(item: Item, rest: Reading, explicitInput: bool, inputs: seq<string>, all: seq<string>, output: string)
    ensures
      Outcome(Push(item, rest), explicitInput, inputs, all, output) ==
      if !IsOutput(item) then Outcome(rest, explicitInput, inputs + InputOf(item), all + Passed(item), output)
      else if output != "" || (item.Bare? && HasBare(rest.items)) then SecondOutput(explicitInput, item.path)
      else Outcome(rest, explicitInput, inputs, all, item.path)
  {
    hide HasBare;
    assert Push(item, rest).items[1..] == rest.items;
  }

  /** One turn of the parser's loop, word by word. */
  lemma ParseStep(table: ArityTable, args: seq<string>, i: nat, explicitInput: bool,
                  inputs: seq<string>, all: seq<string>, output: string)
    requires i < |args|
    ensures
      var arg := args[i];
      var two := i + 2 <= |args|;
      var here := Outcome(Read(table, args, i), explicitInput, inputs, all, output);
      var last := LastBare(table, args, i);
      if IsInputFlag(arg) then
        if !two then here == Err(NoInputFile)
        else last == LastBare(table, args, i + 2) &&
             here == Outcome(Read(table, args, i + 2), explicitInput, inputs + [args[i + 1]], all + ["-i", PLACEHOLDER], output)
      else if arg == "-o" then
        if !two then here == Err(NoOutputFile)
        else last == LastBare(table, args, i + 2) &&
             here == if output != "" then SecondOutput(explicitInput, args[i + 1])
                     else Outcome(Read(table, args, i + 2), explicitInput, inputs, all, args[i + 1])
      else if !IsOption(arg) then
        var later := LastBare(table, args, i + 1);
        last == (if later == -1 then i else later) &&
        here == if output != "" || later != -1 then SecondOutput(explicitInput, arg)
                else Outcome(Read(table, args, i + 1), explicitInput, inputs, all, arg)
      else if IsBoolean(table, arg) then
        last == LastBare(table, args, i + 1) &&
        here == Outcome(Read(table, args, i + 1), explicitInput, inputs, all + [arg], output)
      else if !two then here == Err(MissingValue(arg))
      else last == LastBare(table, args, i + 2) &&
           here == Outcome(Read(table, args, i + 2), explicitInput, inputs, all + [arg, args[i + 1]], output)
  {
    ReadCases(table, args, i);
    hide IsBoolean, IsOption, IsInputFlag, Read, LastBare, Outcome, HasBare, Finished, SecondOutput, Words;
    var r := Read(table, args, i);
    if r.items == [] {
      StopsShort(r, explicitInput, inputs, all, output);
    } else {
      var item := r.items[0];
      var next := i + (if item.Flag? || item.Bare? then 1 else 2);
      LastBareReads(table, args, next);
      OutcomeOfPush(item, Read(table, args, next), explicitInput, inputs, all, output);
      assert inputs + [] == inputs && all + [] == all;
    }
  }

  method FindOutputCandidate(table: ArityTable, args: seq<string>) returns (candidate: int)
    ensures candidate == LastBare(table, args, 0)
  {
    hide IsBoolean;
    candidate := -1;
    var i := 0;
    while i < |args|
      invariant LastBare(table, args, 0) == if LastBare(table, args, i) == -1 then candidate else LastBare(table, args, i)
      invariant i >= 0
      decreases |args| - i
    {
      var arg := args[i];
      if IsInputFlag(arg) {
        i := i + 2;
      } else if arg == "-o" {
        i := i + 2;
      } else if IsOption(arg) {
        i := if IsBoolean(table, arg) then i + 1 else i + 2;
      } else {
        candidate := i;
        i := i + 1;
      }
    }
  }

  method HasExplicitInput(args: seq<string>) returns (found: bool)
    ensures found == HasInputFlag(args)
  {
    for i := 0 to |args|
      invariant forall k :: 0 <= k < i ==> !IsInputFlag(args[k])
    {
      if IsInputFlag(args[i]) {
        return true;
      }
    }
    return false;
  }

  method Parse(table: ArityTable, args: seq<string>) returns (result: Result)
    ensures result == ParseSpec(table, args)
  {
    if |args| == 0 {
      return Err(NoInputFile);
    }
    var inputFiles: seq<string>, outputFile, allArgs: seq<string> := [], "", [];
    var candidate := FindOutputCandidate(table, args);
    var explicitInput := HasExplicitInput(args);
    var i := 0;
    ghost var goal := ParseSpec(table, args);
    hide *;
    FollowsAtStart(table, args);
    while i < |args|
      invariant 0 <= i <= |args|
      invariant Follows(table, args, candidate, explicitInput, i, inputFiles, allArgs, outputFile, goal)
      decreases |args| - i
    {
      var arg := args[i];
      FollowStep(table, args, candidate, explicitInput, i, inputFiles, allArgs, outputFile, goal);
      if IsInputFlag(arg) {
        if i + 1 >= |args| {
          return Err(NoInputFile);
        }
        inputFiles := inputFiles + [args[i + 1]];
        allArgs := allArgs + ["-i", PLACEHOLDER];
        i := i + 2;
      } else if arg == "-o" {
        if i + 1 >= |args| {
          return Err(NoOutputFile);
        }
        if outputFile != "" {
          return SecondOutput(explicitInput, args[i + 1]);
        }
        outputFile := args[i + 1];
        i := i + 2;
      } else if candidate >= 0 && i == candidate && !IsOption(arg) {
        if outputFile != "" {
          return SecondOutput(explicitInput, arg);
        }
        outputFile := arg;
        i := i + 1;
      } else if IsOption(arg) {
        if IsBoolean(table, arg) {
          allArgs := allArgs + [arg];
          i := i + 1;
        } else {
          if i + 1 >= |args| {
            return Err(MissingValue(arg));
          }
          allArgs := allArgs + [arg, args[i + 1]];
          i := i + 2;
        }
      } else {
        return SecondOutput(explicitInput, arg);
      }
    }
    FollowsToEnd(table, args, candidate, explicitInput, inputFiles, allArgs, outputFile, goal);
    result := Finished(inputFiles, allArgs, outputFile);
  }

  /** The parser at word i has collected what leads to goal, and candidate is the last bare word. */
  ghost predicate Follows(table: ArityTable, args: seq<string>, candidate: int, explicitInput: bool, i: nat,
                          inputs: seq<string>, all: seq<string>, output: string, goal: Result) {
    && i <= |args|
    && LastBare(table, args, i) == (if i <= candidate then candidate else -1)
    && Outcome(Read(table, args, i), explicitInput, inputs, all, output) == goal
  }

  lemma FollowsAtStart(table: ArityTable, args: seq<string>)
    ensures Follows(table, args, LastBare(table, args, 0), HasInputFlag(args), 0, [], [], "", ParseSpec(table, args))
  {
    hide LastBare, Read, Outcome, HasInputFlag;
  }

  lemma FollowsToEnd(table: ArityTable, args: seq<string>, candidate: int, explicitInput: bool,
                     inputs: seq<string>, all: seq<string>, output: string, goal: Result)
    requires Follows(table, args, candidate, explicitInput, |args|, inputs, all, output, goal)
    ensures goal == Finished(inputs, all, output)
  {
    StopsShort(Read(table, args, |args|), explicitInput, inputs, all, output);
  }

  lemma FollowStep(table: ArityTable, args: seq<string>, candidate: int, explicitInput: bool, i: nat,
                   inputs: seq<string>, all: seq<string>, output: string, goal: Result)
    requires i < |args| && Follows(table, args, candidate, explicitInput, i, inputs, all, output, goal)
    ensures
      var arg := args[i];
      var two := i + 2 <= |args|;
      if IsInputFlag(arg) then
        if !two then goal == Err(NoInputFile)
        else Follows(table, args, candidate, explicitInput, i + 2, inputs + [args[i + 1]], all + ["-i", PLACEHOLDER], output, goal)
      else if arg == "-o" then
        if !two then goal == Err(NoOutputFile)
        else if output != "" then goal == SecondOutput(explicitInput, args[i + 1])
        else Follows(table, args, candidate, explicitInput, i + 2, inputs, all, args[i + 1], goal)
      else if !IsOption(arg) then
        if candidate != i || output != "" then goal == SecondOutput(explicitInput, arg)
        else Follows(table, args, candidate, explicitInput, i + 1, inputs, all, arg, goal)
      else if IsBoolean(table, arg) then
        Follows(table, args, candidate, explicitInput, i + 1, inputs, all + [arg], output, goal)
      else if !two then goal == Err(MissingValue(arg))
      else Follows(table, args, candidate, explicitInput, i + 2, inputs, all + [arg, args[i + 1]], output, goal)
  {
    ParseStep(table, args, i, explicitInput, inputs, all, output);
    hide IsBoolean, IsOption, IsInputFlag, Read, LastBare, Outcome, HasBare, SecondOutput;
  }

  lemma StopsShort(r: Reading, explicitInput: bool, inputs: seq<string>, all: seq<string>, output: string)
    requires r.items == []
    ensures
      Outcome(r, explicitInput, inputs, all, output) ==
      if r.tail.Complete? then Finished(inputs, all, output)
      else if r.tail.NeedsInput? then Err(NoInputFile)
      else if r.tail.NeedsOutput? then Err(NoOutputFile)
      else Err(MissingValue(r.tail.flag))
  {
  }

  // ----- which argvs are accepted, and what is kept of them

  function Inputs(items: seq<Item>): seq<string> {
    if items == [] then [] else InputOf(items[0]) + Inputs(items[1..])
  }

  function Template(items: seq<Item>): seq<string> {
    if items == [] then [] else Passed(items[0]) + Template(items[1..])
  }

  /** The output targets an argv names, in order, by -o or by a bare word. */
  function Targets(items: seq<Item>): seq<string> {
    if items == [] then [] else TargetOf(items[0]) + Targets(items[1..])
  }

  /** One non-empty target, preceded by nothing but empty ones. */
  ghost predicate Single(targets: seq<string>) {
    && targets != [] && targets[|targets| - 1] != ""
    && forall k :: 0 <= k < |targets| - 1 ==> targets[k] == ""
  }

  ghost predicate AtMostOneBare(items: seq<Item>) {
    forall i, j :: 0 <= i < j < |items| ==> !(items[i].Bare? && items[j].Bare?)
  }

  /** The target the parser settles on, and whether it accepts the targets at all. */
  function Chosen(output: string, targets: seq<string>): (bool, string)
    decreases |targets|
  {
    if targets == [] then (output != "", output)
    else if output != "" then (false, output)
    else Chosen(targets[0], targets[1..])
  }

  lemma {:induction false} ChosenIsSingle(output: string, targets: seq<string>)
    ensures output == "" && targets != [] ==> (Chosen(output, targets).0 <==> Single(targets))
    ensures output == "" && targets != [] && Single(targets) ==> Chosen(output, targets).1 == targets[|targets| - 1]
    ensures output != "" ==> (Chosen(output, targets) == (targets == [], output))
    decreases |targets|
  {
    if output == "" && targets != [] {
      ChosenIsSingle(targets[0], targets[1..]);
      if |targets| > 1 {
        SingleStep(targets);
      }
    }
  }

  lemma SingleStep(targets: seq<string>)
    requires |targets| > 1
    ensures Single(targets) <==> targets[0] == "" && Single(targets[1..])
    ensures targets[1..][|targets| - 2] == targets[|targets| - 1]
  {
    var rest := targets[1..];
    assert forall k :: 0 <= k < |rest| ==> rest[k] == targets[k + 1];
    if targets[0] == "" && Single(rest) {
      forall k | 0 <= k < |targets| - 1
        ensures targets[k] == ""
      {
        assert k > 0 ==> targets[k] == rest[k - 1];
      }
    }
  }

  lemma AtMostOneBareStep(items: seq<Item>)
    requires items != []
    ensures AtMostOneBare(items) <==>
            AtMostOneBare(items[1..]) && !(items[0].Bare? && HasBare(items[1..]))
  {
    var rest := items[1..];
    assert forall k :: 0 <= k < |rest| ==> rest[k] == items[k + 1];
    if items[0].Bare? && HasBare(rest) {
      var k :| 0 <= k < |rest| && rest[k].Bare?;
      assert items[k + 1].Bare?;
    }
    if AtMostOneBare(rest) && !(items[0].Bare? && HasBare(rest)) {
      forall i, j | 0 <= i < j < |items|
        ensures !(items[i].Bare? && items[j].Bare?)
      {
        assert items[j] == rest[j - 1];
        if i > 0 {
          assert items[i] == rest[i - 1];
        }
      }
    }
  }

  lemma {:induction false} OutcomeAccepts(r: Reading, explicitInput: bool, inputs: seq<string>, all: seq<string>, output: string)
    ensures
      var (one, target) := Chosen(output, Targets(r.items));
      var result := Outcome(r, explicitInput, inputs, all, output);
      && (result.Ok? <==> r.tail == Complete && inputs + Inputs(r.items) != [] && AtMostOneBare(r.items) && one)
      && (result.Ok? ==>
            result.value == Parsed(inputs + Inputs(r.items), Normalized(target), Normalized(target) == "-", all + Template(r.items)))
    decreases |r.items|
  {
    if r.items == [] {
      StopsShort(r, explicitInput, inputs, all, output);
      assert inputs + [] == inputs && all + [] == all;
    } else {
      var rest := Reading(r.items[1..], r.tail);
      var item := r.items[0];
      assert r == Push(item, rest);
      OutcomeOfPush(item, rest, explicitInput, inputs, all, output);
      AtMostOneBareStep(r.items);
      assert inputs + Inputs(r.items) == inputs + InputOf(item) + Inputs(rest.items);
      assert all + Template(r.items) == all + Passed(item) + Template(rest.items);
      assert Targets(r.items) == TargetOf(item) + Targets(rest.items);
      hide HasBare, Outcome, Normalized, AtMostOneBare, Inputs, Template, Targets, Passed;
      if IsOutput(item) {
        assert (TargetOf(item) + Targets(rest.items))[1..] == Targets(rest.items);
        OutcomeAccepts(rest, explicitInput, inputs, all, item.path);
        assert inputs + [] == inputs && all + [] == all;
      } else {
        OutcomeAccepts(rest, explicitInput, inputs + InputOf(item), all + Passed(item), output);
        assert [] + Targets(rest.items) == Targets(rest.items);
      }
    }
  }

  /** An argv is accepted exactly when it is complete, names an input, has at most one bare word
      and names one non-empty output after any empty ones; what is kept are the inputs in order,
      the passthrough words in order, and that output. */
  lemma ParseAccepts(table: ArityTable, args: seq<string>)
    ensures
      var r := Read(table, args, 0);
      var targets := Targets(r.items);
      var result := ParseSpec(table, args);
      && (result.Ok? <==> r.tail == Complete && Inputs(r.items) != [] && AtMostOneBare(r.items) && Single(targets))
      && (result.Ok? ==> targets != [])
      && (result.Ok? ==>
            result.value == Parsed(Inputs(r.items), Normalized(targets[|targets| - 1]),
                                   Normalized(targets[|targets| - 1]) == "-", Template(r.items)))
  {
    var r := Read(table, args, 0);
    OutcomeAccepts(r, HasInputFlag(args), [], [], "");
    ChosenIsSingle("", Targets(r.items));
    hide Read, Outcome, Single, AtMostOneBare, Inputs, Template, Targets, Normalized;
    assert [] + Inputs(r.items) == Inputs(r.items) && [] + Template(r.items) == Template(r.items);
  }
}
