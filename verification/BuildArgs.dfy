/**
 * The worker's side of the argv (pkg/worker/executor.go): placeholders are replaced by local
 * inputs and the output path is appended unless the arguments already end in one.
 */
module BuildArgs {
  import opened FfmpegOpts
  import opened ArgGrammar
  import opened ArgParser
  import opened JobArgs

  /** The job arguments with the placeholders replaced by the inputs, in order. */
  function Filled(jobArgs: seq<string>, inputs: seq<string>): seq<string> {
    if jobArgs == [] then []
    else if jobArgs[0] == PLACEHOLDER && inputs != [] then [inputs[0]] + Filled(jobArgs[1..], inputs[1..])
    else [jobArgs[0]] + Filled(jobArgs[1..], inputs)
  }

  /** Whether a scan of args in the given state meets a bare word of the output section. */
  predicate MeetsOutput(table: ArityTable, args: seq<string>, expectingValue: bool, seenInput: bool) {
    if args == [] then false
    else
      var arg, rest := args[0], args[1..];
      if expectingValue then MeetsOutput(table, rest, false, seenInput)
      else if IsInputFlag(arg) then MeetsOutput(table, rest, true, true)
      else if !seenInput && !("-" <= arg) then MeetsOutput(table, rest, false, true)
      else if seenInput && !IsOption(arg) then true
      else MeetsOutput(table, rest, IsFlagWithValue(table, arg), seenInput)
  }

  function FirstSeparator(args: seq<string>): int {
    if "--" in args then IndexOf(args, "--") else -1
  }

  function IndexOf(args: seq<string>, word: string): (k: nat)
    requires word in args
    ensures k < |args| && args[k] == word && forall j :: 0 <= j < k ==> args[j] != word
  {
    if args[0] == word then 0 else 1 + IndexOf(args[1..], word)
  }

  function Built(table: ArityTable, jobArgs: seq<string>, inputs: seq<string>, output: string): seq<string> {
    var args := Filled(jobArgs, inputs);
    var separator := FirstSeparator(args);
    if separator >= 0 then (if separator == |args| - 1 then args + [output] else args)
    else if MeetsOutput(table, args, false, false) then args
    else args + [output]
  }

  method FindSeparatorIndex(args: seq<string>) returns (k: int)
    ensures k == FirstSeparator(args)
  {
    for i := 0 to |args|
      invariant "--" !in args[..i]
    {
      if args[i] == "--" {
        return i;
      }
    }
    return -1;
  }

  method HasOutputArg(table: ArityTable, args: seq<string>) returns (found: bool)
    ensures found == MeetsOutput(table, args, false, false)
  {
    hide IsFlagWithValue, IsOption, IsInputFlag;
    var expectingValue, seenInput := false, false;
    var i := 0;
    while i < |args|
      invariant 0 <= i <= |args|
      invariant MeetsOutput(table, args, false, false) == MeetsOutput(table, args[i..], expectingValue, seenInput)
    {
      var arg := args[i];
      assert args[i..][1..] == args[i + 1..];
      i := i + 1;
      if expectingValue {
        expectingValue := false;
        continue;
      }
      if IsInputFlag(arg) {
        seenInput, expectingValue := true, true;
        continue;
      }
      if !seenInput {
        if !("-" <= arg) {
          seenInput := true;
          continue;
        }
        expectingValue := IsFlagWithValue(table, arg);
        continue;
      }
      if !IsOption(arg) {
        return true;
      }
      expectingValue := IsFlagWithValue(table, arg);
    }
    return false;
  }

  lemma FilledAt(jobArgs: seq<string>, inputs: seq<string>, i: nat, k: nat)
    requires i < |jobArgs| && k <= |inputs|
    ensures Filled(jobArgs[i..], inputs[k..])
         == if jobArgs[i] == PLACEHOLDER && k < |inputs| then [inputs[k]] + Filled(jobArgs[i + 1..], inputs[k + 1..])
            else [jobArgs[i]] + Filled(jobArgs[i + 1..], inputs[k..])
  {
  }

  lemma FilledNothing(inputs: seq<string>)
    ensures Filled([], inputs) == []
  {
  }

  lemma BuiltCases(table: ArityTable, jobArgs: seq<string>, inputs: seq<string>, output: string)
    ensures
      var args := Filled(jobArgs, inputs);
      var separator := FirstSeparator(args);
      Built(table, jobArgs, inputs, output) ==
        if separator >= 0 then (if separator == |args| - 1 then args + [output] else args)
        else if MeetsOutput(table, args, false, false) then args
        else args + [output]
  {
  }

  method Build(table: ArityTable, jobArgs: seq<string>, inputPaths: seq<string>, outputPath: string)
    returns (args: seq<string>)
    ensures args == Built(table, jobArgs, inputPaths, outputPath)
  {
    hide *;
    args := [];
    assert jobArgs[0..] == jobArgs && inputPaths[0..] == inputPaths;
    var inputIdx := 0;
    for i := 0 to |jobArgs|
      invariant 0 <= inputIdx <= |inputPaths|
      invariant args + Filled(jobArgs[i..], inputPaths[inputIdx..]) == Filled(jobArgs, inputPaths)
    {
      FilledAt(jobArgs, inputPaths, i, inputIdx);
      if jobArgs[i] == PLACEHOLDER && inputIdx < |inputPaths| {
        args := args + [inputPaths[inputIdx]];
        inputIdx := inputIdx + 1;
      } else {
        args := args + [jobArgs[i]];
      }
    }
    FilledNothing(inputPaths[inputIdx..]);
    assert jobArgs[|jobArgs|..] == [] && args + [] == args;
    BuiltCases(table, jobArgs, inputPaths, outputPath);
    var separator := FindSeparatorIndex(args);
    if separator >= 0 {
      if separator == |args| - 1 {
        args := args + [outputPath];
      }
    } else {
      var found := HasOutputArg(table, args);
      if !found {
        args := args + [outputPath];
      }
    }
  }

  // ----- what the worker runs is what the caller typed

  /** The caller's words without the output targets, with every input spelled -i. */
  function Kept(item: Item): seq<string> { if item.Input? then ["-i", item.path] else Passed(item) }

  function Core(items: seq<Item>): seq<string> {
    if items == [] then [] else Kept(items[0]) + Core(items[1..])
  }

  /** An option value that happens to be the placeholder. */
  predicate IsLiteral(item: Item) { item.Setting? && item.value == PLACEHOLDER }

  /** Every input named after a literal placeholder value is itself the placeholder. */
  ghost predicate PlaceholdersLineUp(items: seq<Item>) {
    forall i, j :: 0 <= i < j < |items| && IsLiteral(items[i]) && items[j].Input? ==> items[j].path == PLACEHOLDER
  }

  ghost predicate AllInputsLiteral(items: seq<Item>) {
    forall j :: 0 <= j < |items| && items[j].Input? ==> items[j].path == PLACEHOLDER
  }

  /** No kept word is "--", unless it is the last one and the only one. */
  ghost predicate SeparatorHarmless(words: seq<string>) {
    forall k :: 0 <= k < |words| && words[k] == "--" ==> k == |words| - 1
  }

  /** The flags of a reading are options, and never an input flag. */
  ghost predicate WellRead(table: ArityTable, items: seq<Item>) {
    forall k :: 0 <= k < |items| ==> ProperItem(table, items[k])
  }

  ghost predicate ProperItem(table: ArityTable, item: Item) {
    && (item.Flag? ==> IsOption(item.flag) && !IsInputFlag(item.flag) && IsBoolean(table, item.flag))
    && (item.Setting? ==> IsOption(item.flag) && !IsInputFlag(item.flag) && !IsBoolean(table, item.flag))
  }

  lemma NothingIsWellRead(table: ArityTable)
    ensures WellRead(table, [])
  {
  }

  lemma PushIsWellRead(table: ArityTable, item: Item, r: Reading)
    requires ProperItem(table, item) && WellRead(table, r.items)
    ensures WellRead(table, Push(item, r).items)
  {
    hide ProperItem;
  }

  lemma {:induction false} ReadIsProper(table: ArityTable, args: seq<string>, i: nat)
    requires i <= |args|
    ensures WellRead(table, Read(table, args, i).items)
    decreases |args| - i
  {
    if i < |args| {
      ReadCases(table, args, i);
      hide IsBoolean, IsOption, IsInputFlag, Read, LastBare, WellRead;
      var r := Read(table, args, i);
      NothingIsWellRead(table);
      if r.items != [] {
        var next := i + (if r.items[0].Flag? || r.items[0].Bare? then 1 else 2);
        ReadIsProper(table, args, next);
        PushIsWellRead(table, r.items[0], Read(table, args, next));
      }
    }
  }

  // ----- filling item by item

  function Taken(inputs: seq<string>): string { if inputs == [] then PLACEHOLDER else inputs[0] }

  function Left(inputs: seq<string>): seq<string> { if inputs == [] then [] else inputs[1..] }

  function FilledItem(item: Item, inputs: seq<string>): seq<string> {
    if item.Input? then ["-i", Taken(inputs)]
    else if IsLiteral(item) then [item.flag, Taken(inputs)]
    else Passed(item)
  }

  function InputsAfter(item: Item, inputs: seq<string>): seq<string> {
    if item.Input? || IsLiteral(item) then Left(inputs) else inputs
  }

  lemma FilledStep(table: ArityTable, item: Item, rest: seq<string>, inputs: seq<string>)
    requires ProperItem(table, item)
    ensures Filled(Passed(item) + rest, inputs) == FilledItem(item, inputs) + Filled(rest, InputsAfter(item, inputs))
  {
    hide IsBoolean;
    var words := Passed(item) + rest;
    if words != rest {
      assert words[0][0] == '-';
      assert PLACEHOLDER[0] == '<' && words[0] != PLACEHOLDER;
      assert Filled(words, inputs) == [words[0]] + Filled(words[1..], inputs);
      if item.Flag? {
        assert words[1..] == rest;
      } else {
        assert words[1..][1..] == rest;
        assert Filled(words[1..], inputs) == [if words[1] == PLACEHOLDER then Taken(inputs) else words[1]]
                                             + Filled(rest, InputsAfter(item, inputs));
      }
    }
  }

  /** Whatever the placeholders are filled with, the passthrough words name no output. */
  lemma {:induction false} NothingMeetsOutput(table: ArityTable, items: seq<Item>, inputs: seq<string>, seen: bool)
    requires WellRead(table, items)
    ensures !MeetsOutput(table, Filled(Template(items), inputs), false, seen)
    decreases |items|
  {
    if items != [] {
      var item := items[0];
      var rest := Filled(Template(items[1..]), InputsAfter(item, inputs));
      assert ProperItem(table, item);
      FilledStep(table, item, Template(items[1..]), inputs);
      NothingMeetsOutput(table, items[1..], InputsAfter(item, inputs), seen);
      NothingMeetsOutput(table, items[1..], InputsAfter(item, inputs), true);
      PassesOver(table, item, inputs, rest, seen);
    }
  }

  lemma PassesOver(table: ArityTable, item: Item, inputs: seq<string>, rest: seq<string>, seen: bool)
    requires ProperItem(table, item)
    ensures MeetsOutput(table, FilledItem(item, inputs) + rest, false, seen)
         == MeetsOutput(table, rest, false, seen || item.Input?)
  {
    var words := FilledItem(item, inputs) + rest;
    hide IsBoolean, IsFlagWithValue;
    if item.Flag? {
      OneArityRule(table, item.flag);
      assert words[1..] == rest;
    } else if item.Setting? || item.Input? {
      if item.Setting? {
        OneArityRule(table, item.flag);
      }
      assert words[1..][1..] == rest;
    } else {
      assert words == rest;
    }
  }

  // ----- when the inputs land where they were typed

  ghost predicate AllPlaceholders(words: seq<string>) { forall k :: 0 <= k < |words| ==> words[k] == PLACEHOLDER }

  lemma AllOfCons(x: string, rest: seq<string>)
    ensures AllPlaceholders([x] + rest) <==> x == PLACEHOLDER && AllPlaceholders(rest)
  {
    var all := [x] + rest;
    assert all[0] == x;
    assert forall k :: 0 <= k < |rest| ==> all[k + 1] == rest[k];
    assert forall k :: 0 < k < |all| ==> all[k] == rest[k - 1];
  }

  lemma {:induction false} LiteralInputs(items: seq<Item>)
    ensures AllInputsLiteral(items) <==> AllPlaceholders(Inputs(items))
  {
    hide AllInputsLiteral;
    if items == [] {
      NothingIsLiteral();
    } else {
      LiteralInputs(items[1..]);
      LiteralStep(items);
      if items[0].Input? {
        assert Inputs(items) == [items[0].path] + Inputs(items[1..]);
        AllOfCons(items[0].path, Inputs(items[1..]));
        hide AllPlaceholders;
      } else {
        assert Inputs(items) == Inputs(items[1..]);
      }
    }
  }

  lemma NothingIsLiteral()
    ensures AllInputsLiteral([])
  {
  }

  lemma LiteralStep(items: seq<Item>)
    requires items != []
    ensures AllInputsLiteral(items) <==>
            AllInputsLiteral(items[1..]) && (items[0].Input? ==> items[0].path == PLACEHOLDER)
    ensures PlaceholdersLineUp(items) <==>
            PlaceholdersLineUp(items[1..]) && (IsLiteral(items[0]) ==> AllInputsLiteral(items[1..]))
    ensures AllInputsLiteral(items) ==> PlaceholdersLineUp(items)
  {
    hide IsLiteral;
    var rest := items[1..];
    assert forall k :: 0 <= k < |rest| ==> rest[k] == items[k + 1];
    assert forall k :: 0 < k < |items| ==> items[k] == rest[k - 1];
  }

  lemma SplitEqual(a: seq<string>, b: seq<string>, c: seq<string>, d: seq<string>)
    requires |a| == |c|
    ensures a + b == c + d <==> a == c && b == d
  {
    if a + b == c + d {
      assert a == (a + b)[..|a|] && c == (c + d)[..|c|];
      assert b == (a + b)[|a|..] && d == (c + d)[|c|..];
    }
  }

  lemma FilledIsKept(table: ArityTable, items: seq<Item>, inputs: seq<string>)
    requires items != [] && ProperItem(table, items[0])
    ensures Filled(Template(items), inputs) == Core(items) <==>
            && FilledItem(items[0], inputs) == Kept(items[0])
            && Filled(Template(items[1..]), InputsAfter(items[0], inputs)) == Core(items[1..])
  {
    FilledStep(table, items[0], Template(items[1..]), inputs);
    SplitEqual(FilledItem(items[0], inputs), Filled(Template(items[1..]), InputsAfter(items[0], inputs)),
               Kept(items[0]), Core(items[1..]));
  }

  function Dropped(inputs: seq<string>, n: nat): seq<string> { if n <= |inputs| then inputs[n..] else [] }

  lemma DroppedSteps(path: string, f: seq<string>, n: nat)
    requires n > 0
    ensures Left(Dropped([path] + f, n)) == Dropped(f, n)
    ensures Taken(Dropped([path] + f, n)) == if n <= |f| then f[n - 1] else PLACEHOLDER
    ensures Left(Dropped(f, n)) == Dropped(f, n + 1)
    ensures Taken(Dropped(f, n)) == if n < |f| then f[n] else PLACEHOLDER
  {
  }

  ghost predicate Fits(items: seq<Item>, inputs: seq<string>) {
    Filled(Template(items), inputs) == Core(items)
  }

  lemma SlippedStep(table: ArityTable, items: seq<Item>, n: nat)
    requires items != [] && ProperItem(table, items[0]) && n > 0
    requires Fits(items[1..], Dropped(Inputs(items[1..]), if IsLiteral(items[0]) then n + 1 else n))
        <==> AllInputsLiteral(items[1..])
    ensures Fits(items, Dropped(Inputs(items), n)) <==> AllInputsLiteral(items)
  {
    var item, rest := items[0], items[1..];
    var inputs := Dropped(Inputs(items), n);
    assert item.Input? ==> Inputs(items) == [item.path] + Inputs(rest);
    assert !item.Input? ==> Inputs(items) == Inputs(rest);
    FilledIsKept(table, items, inputs);
    LiteralStep(items);
    LiteralInputs(rest);
    DroppedSteps(if item.Input? then item.path else "", Inputs(rest), n);
    hide AllInputsLiteral, Template, Core, Filled, Passed, PlaceholdersLineUp, Dropped, Taken, Left, Inputs, ProperItem;
  }

  /** Once the inputs have slipped by n places, everything fits only if nothing can differ. */
  lemma {:induction false} SlippedFit(table: ArityTable, items: seq<Item>, n: nat)
    requires WellRead(table, items) && n > 0
    ensures Fits(items, Dropped(Inputs(items), n)) <==> AllInputsLiteral(items)
    decreases |items|
  {
    hide ProperItem;
    if items != [] {
      assert ProperItem(table, items[0]);
      SlippedFit(table, items[1..], if IsLiteral(items[0]) then n + 1 else n);
      SlippedStep(table, items, n);
    }
  }

  lemma {:induction false} AlignedFit(table: ArityTable, items: seq<Item>)
    requires WellRead(table, items)
    ensures Filled(Template(items), Inputs(items)) == Core(items) <==> PlaceholdersLineUp(items)
    decreases |items|
  {
    hide ProperItem;
    if items != [] {
      var item, rest := items[0], items[1..];
      assert ProperItem(table, item);
      FilledIsKept(table, items, Inputs(items));
      LiteralStep(items);
      if IsLiteral(item) {
        assert Inputs(items) == Inputs(rest);
        assert Left(Inputs(rest)) == Dropped(Inputs(rest), 1);
        SlippedFit(table, rest, 1);
        LiteralInputs(rest);
      } else {
        assert item.Input? ==> Inputs(items)[1..] == Inputs(rest);
        assert !item.Input? ==> Inputs(items) == Inputs(rest);
        AlignedFit(table, rest);
      }
      LineUpOfRest(rest);
    }
  }

  lemma LineUpOfRest(items: seq<Item>)
    ensures AllInputsLiteral(items) ==> PlaceholdersLineUp(items)
  {
  }

  lemma SeparatorDecides(table: ArityTable, jobArgs: seq<string>, inputs: seq<string>, output: string)
    requires !MeetsOutput(table, Filled(jobArgs, inputs), false, false)
    ensures Built(table, jobArgs, inputs, output) == Filled(jobArgs, inputs) + [output]
       <==> SeparatorHarmless(Filled(jobArgs, inputs))
    ensures Built(table, jobArgs, inputs, output)[..|Filled(jobArgs, inputs)|] == Filled(jobArgs, inputs)
  {
    var words := Filled(jobArgs, inputs);
    if FirstSeparator(words) >= 0 {
      assert words[FirstSeparator(words)] == "--";
    }
  }

  /** Parser and builder. For every argv the CLI accepts, the worker never mistakes a passthrough
      word for an output; and what it runs is the caller's words, inputs in place and spelled -i,
      with the one output target moved to the end and "pipe:1" spelled "-", exactly when no input
      follows an option value that reads "<INPUT_FILE>", unless it reads so too, and no "--" is
      kept other than as the last word. */
  lemma ArgvSurvives(table: ArityTable, args: seq<string>)
    requires ParseSpec(table, args).Ok?
    ensures
      var items := Read(table, args, 0).items;
      var p := ParseSpec(table, args).value;
      && Render(items) == args
      && !MeetsOutput(table, Filled(p.allArgs, p.inputFiles), false, false)
      && Targets(items) != [] && p.outputFile == Normalized(Targets(items)[|Targets(items)| - 1])
      && (Built(table, p.allArgs, p.inputFiles, p.outputFile) == Core(items) + [p.outputFile]
          <==> PlaceholdersLineUp(items) && SeparatorHarmless(Core(items)))
  {
    var items := Read(table, args, 0).items;
    var p := ParseSpec(table, args).value;
    ParseAccepts(table, args);
    ReadingRenders(table, args, 0);
    assert args[0..] == args && Render(items) + [] == Render(items);
    ReadIsProper(table, args, 0);
    hide *;
    NothingMeetsOutput(table, items, Inputs(items), false);
    AlignedFit(table, items);
    SeparatorDecides(table, p.allArgs, p.inputFiles, p.outputFile);
    SameLength(table, items, Inputs(items));
    var words := Filled(p.allArgs, p.inputFiles);
    assert (Core(items) + [p.outputFile])[..|words|] == Core(items);
  }

  lemma {:induction false} SameLength(table: ArityTable, items: seq<Item>, inputs: seq<string>)
    requires WellRead(table, items)
    ensures |Filled(Template(items), inputs)| == |Core(items)|
    decreases |items|
  {
    if items != [] {
      assert ProperItem(table, items[0]);
      FilledStep(table, items[0], Template(items[1..]), inputs);
      SameLength(table, items[1..], InputsAfter(items[0], inputs));
    }
  }

  // ----- which arguments already name an output

  /** The items are options, inputs and bare words, and "-" stands behind an input or a bare word. */
  ghost predicate Runnable(table: ArityTable, items: seq<Item>, seen: bool) {
    && WellRead(table, items)
    && (forall k :: 0 <= k < |items| ==>
          && !items[k].OutputFlag?
          && (items[k].Input? ==> IsInputFlag(items[k].spelling))
          && (items[k].Bare? ==> !IsOption(items[k].path)))
    && (forall k :: 0 <= k < |items| && items[k].Bare? && items[k].path == "-" ==> seen || Fed(items, k))
  }

  /** An input, or a bare word that stands for one, precedes item k. */
  ghost predicate Fed(items: seq<Item>, k: int) {
    exists j :: 0 <= j < k && j < |items| && (items[j].Input? || items[j].Bare?)
  }

  ghost predicate OutputAfterInput(items: seq<Item>, seen: bool) {
    exists k :: 0 <= k < |items| && items[k].Bare? && (seen || Fed(items, k))
  }

  lemma FedStep(items: seq<Item>, k: nat)
    requires items != []
    ensures !Fed(items, 0)
    ensures Fed(items, k + 1) <==> items[0].Input? || items[0].Bare? || Fed(items[1..], k)
  {
    var rest := items[1..];
    if j :| 0 <= j < k && j < |rest| && (rest[j].Input? || rest[j].Bare?) {
      assert items[j + 1] == rest[j];
    }
    if j :| 0 <= j < k + 1 && j < |items| && (items[j].Input? || items[j].Bare?) {
      assert j > 0 ==> items[j] == rest[j - 1];
    }
  }

  lemma OutputStep(items: seq<Item>, seen: bool)
    requires items != []
    ensures OutputAfterInput(items, seen) <==>
            (seen && items[0].Bare?) || OutputAfterInput(items[1..], seen || items[0].Input? || items[0].Bare?)
  {
    hide Fed;
    var rest := items[1..];
    forall k | 0 <= k < |rest|
      ensures rest[k] == items[k + 1]
      ensures Fed(items, k + 1) <==> items[0].Input? || items[0].Bare? || Fed(rest, k)
    {
      FedStep(items, k);
    }
    FedStep(items, 0);
    if k :| 0 <= k < |rest| && rest[k].Bare? && (seen || items[0].Input? || items[0].Bare? || Fed(rest, k)) {
      assert items[k + 1].Bare? && (seen || Fed(items, k + 1));
    }
    if k :| 0 <= k < |items| && items[k].Bare? && (seen || Fed(items, k)) {
      assert k > 0 ==> rest[k - 1].Bare?;
    }
  }

  lemma RunnableStep(table: ArityTable, items: seq<Item>, seen: bool)
    requires items != [] && Runnable(table, items, seen)
    ensures Runnable(table, items[1..], seen || items[0].Input? || items[0].Bare?)
    ensures items[0].Bare? && items[0].path == "-" ==> seen
  {
    hide Fed, ProperItem;
    var rest := items[1..];
    FedStep(items, 0);
    forall k | 0 <= k < |rest|
      ensures rest[k] == items[k + 1]
      ensures Fed(items, k + 1) <==> items[0].Input? || items[0].Bare? || Fed(rest, k)
    {
      FedStep(items, k);
    }
  }

  lemma WordsMeet(table: ArityTable, item: Item, rest: seq<string>, seen: bool)
    requires ProperItem(table, item) && !item.OutputFlag?
    requires item.Input? ==> IsInputFlag(item.spelling)
    requires item.Bare? ==> !IsOption(item.path) && (item.path == "-" ==> seen)
    ensures MeetsOutput(table, Words(item) + rest, false, seen)
       <==> (seen && item.Bare?) || MeetsOutput(table, rest, false, seen || item.Input? || item.Bare?)
  {
    hide IsBoolean, IsFlagWithValue;
    var words := Words(item) + rest;
    match item
    case Input(_, _) => assert words[1..][1..] == rest;
    case Setting(flag, _) =>
      OneArityRule(table, flag);
      assert words[1..][1..] == rest;
    case Flag(flag) =>
      OneArityRule(table, flag);
      assert words[1..] == rest;
    case Bare(_) => assert words[1..] == rest;
  }

  /** The scan of the output section finds an output exactly when a bare word follows an input. */
  lemma {:induction false} MeetsOutputExactly(table: ArityTable, items: seq<Item>, seen: bool)
    requires Runnable(table, items, seen)
    ensures MeetsOutput(table, Render(items), false, seen) <==> OutputAfterInput(items, seen)
    decreases |items|
  {
    if items != [] {
      var item, rest := items[0], items[1..];
      assert ProperItem(table, item) && !item.OutputFlag?;
      assert item.Input? ==> IsInputFlag(item.spelling);
      assert item.Bare? ==> !IsOption(item.path);
      RunnableStep(table, items, seen);
      OutputStep(items, seen);
      hide ProperItem, MeetsOutput, Runnable, OutputAfterInput, IsOption, IsInputFlag, Words;
      WordsMeet(table, item, Render(rest), seen);
      MeetsOutputExactly(table, rest, seen || item.Input? || item.Bare?);
    }
  }

  // ----- the two ways an accepted argv is not reproduced

  const Y_ONLY: ArityTable := map["y" := true]

  const SPLIT_ARGV := ["-i", "in", "-b", "--", "-y", "out"]
  const SPLIT_ITEMS := [Input("-i", "in"), Setting("-b", "--"), Flag("-y"), Bare("out")]

  lemma ShortFlags()
    ensures !IsBoolean(Y_ONLY, "-b") && IsBoolean(Y_ONLY, "-y")
    ensures IsOption("-b") && IsOption("-y") && !IsOption("out")
  {
    assert "-b"[1..] == "b" && "b"[1..] == "" && "-y"[1..] == "y" && "y"[1..] == "";
    assert Before("b", ':') == ['b'] + Before("", ':');
    assert Before("y", ':') == ['y'] + Before("", ':');
    assert Before("b", ':') == "b" && Before("y", ':') == "y";
    assert "out"[0] == 'o';
  }

  lemma SplitArgvReads()
    ensures Read(Y_ONLY, SPLIT_ARGV, 0) == Reading(SPLIT_ITEMS, Complete)
  {
    var args := SPLIT_ARGV;
    ShortFlags();
    ReadCases(Y_ONLY, args, 0);
    ReadCases(Y_ONLY, args, 2);
    ReadCases(Y_ONLY, args, 4);
    ReadCases(Y_ONLY, args, 5);
    assert Read(Y_ONLY, args, 6) == Reading([], Complete);
    hide Read, LastBare, IsBoolean, IsOption;
  }

  lemma SplitArgvParts()
    ensures Core(SPLIT_ITEMS) == ["-i", "in", "-b", "--", "-y"]
    ensures Inputs(SPLIT_ITEMS) == ["in"] && Targets(SPLIT_ITEMS) == ["out"]
  {
    var b := SPLIT_ITEMS[1..];
    var c, d := b[1..], [Bare("out")];
    assert c == [Flag("-y"), Bare("out")] && c[1..] == d && d[1..] == [];
    assert Core(d) == [] && Core(c) == ["-y"] && Core(b) == ["-b", "--", "-y"];
    assert Inputs(d) == [] && Inputs(c) == [] && Inputs(b) == [];
    assert Targets(d) == ["out"] && Targets(c) == ["out"] && Targets(b) == ["out"];
  }

  lemma SplitArgvParses()
    ensures ParseSpec(Y_ONLY, SPLIT_ARGV) == Ok(Parsed(["in"], "out", false, Template(SPLIT_ITEMS)))
  {
    SplitArgvReads();
    SplitArgvParts();
    ParseAccepts(Y_ONLY, SPLIT_ARGV);
    assert AtMostOneBare(SPLIT_ITEMS) && Single(["out"]) && Normalized("out") == "out";
    hide *;
  }

  lemma SplitArgvFills()
    ensures Filled(Template(SPLIT_ITEMS), ["in"]) == ["-i", "in", "-b", "--", "-y"]
  {
    SplitArgvReads();
    SplitArgvParts();
    ReadIsProper(Y_ONLY, SPLIT_ARGV, 0);
    AlignedFit(Y_ONLY, SPLIT_ITEMS);
    assert "--"[0] != PLACEHOLDER[0];
    assert PlaceholdersLineUp(SPLIT_ITEMS);
    hide *;
  }

  /** An accepted argv with "--" as an option value: the worker appends no output at all. */
  lemma SeparatorLosesTheOutput()
    ensures ParseSpec(Y_ONLY, SPLIT_ARGV).Ok?
    ensures
      var p := ParseSpec(Y_ONLY, SPLIT_ARGV).value;
      Built(Y_ONLY, p.allArgs, p.inputFiles, p.outputFile) == ["-i", "in", "-b", "--", "-y"]
  {
    SplitArgvParses();
    SplitArgvFills();
    hide ParseSpec, Filled, Template, MeetsOutput;
    var core := ["-i", "in", "-b", "--", "-y"];
    assert core[3] == "--" && core[4][1] != '-';
  }

  const SLIPPED_ARGV := ["-b", PLACEHOLDER, "-i", "in", "out"]
  const SLIPPED_ITEMS := [Setting("-b", PLACEHOLDER), Input("-i", "in"), Bare("out")]

  lemma SlippedArgvReads()
    ensures Read(Y_ONLY, SLIPPED_ARGV, 0) == Reading(SLIPPED_ITEMS, Complete)
  {
    var args := SLIPPED_ARGV;
    ShortFlags();
    ReadCases(Y_ONLY, args, 0);
    ReadCases(Y_ONLY, args, 2);
    ReadCases(Y_ONLY, args, 4);
    assert Read(Y_ONLY, args, 5) == Reading([], Complete);
    hide Read, LastBare, IsBoolean, IsOption;
  }

  lemma SlippedArgvParts()
    ensures Template(SLIPPED_ITEMS) == ["-b", PLACEHOLDER, "-i", PLACEHOLDER]
    ensures Inputs(SLIPPED_ITEMS) == ["in"] && Targets(SLIPPED_ITEMS) == ["out"]
  {
    var b := SLIPPED_ITEMS[1..];
    var c := [Bare("out")];
    assert b == [Input("-i", "in"), Bare("out")] && b[1..] == c && c[1..] == [];
    assert Template(c) == [] && Template(b) == ["-i", PLACEHOLDER];
    assert Inputs(c) == [] && Inputs(b) == ["in"];
    assert Targets(c) == ["out"] && Targets(b) == ["out"];
  }

  lemma SlippedArgvParses()
    ensures ParseSpec(Y_ONLY, SLIPPED_ARGV) == Ok(Parsed(["in"], "out", false, Template(SLIPPED_ITEMS)))
  {
    SlippedArgvReads();
    SlippedArgvParts();
    ParseAccepts(Y_ONLY, SLIPPED_ARGV);
    assert AtMostOneBare(SLIPPED_ITEMS) && Single(["out"]) && Normalized("out") == "out";
    hide *;
  }

  lemma SlippedArgvFills()
    ensures Filled(Template(SLIPPED_ITEMS), ["in"]) == ["-b", "in", "-i", PLACEHOLDER]
  {
    SlippedArgvParts();
    hide Filled, Template;
    var words := ["-b", PLACEHOLDER, "-i", PLACEHOLDER];
    var inputs := ["in"];
    assert words[0..] == words && words[4..] == [] && inputs[0..] == inputs && inputs[1..] == [];
    FilledNothing([]);
    FilledAt(words, inputs, 3, 1);
    assert Filled(words[3..], inputs[1..]) == [PLACEHOLDER];
    FilledAt(words, inputs, 2, 1);
    assert words[2] != PLACEHOLDER && Filled(words[2..], inputs[1..]) == ["-i", PLACEHOLDER];
    FilledAt(words, inputs, 1, 0);
    assert Filled(words[1..], inputs[0..]) == ["in", "-i", PLACEHOLDER];
    FilledAt(words, inputs, 0, 0);
    assert words[0] != PLACEHOLDER;
  }

  /** An accepted argv whose option value reads like the placeholder: the value takes the input, and
      the input the placeholder. */
  lemma PlaceholderTakesTheInput()
    ensures ParseSpec(Y_ONLY, SLIPPED_ARGV).Ok?
    ensures
      var p := ParseSpec(Y_ONLY, SLIPPED_ARGV).value;
      Built(Y_ONLY, p.allArgs, p.inputFiles, p.outputFile) == ["-b", "in", "-i", PLACEHOLDER, "out"]
  {
    SlippedArgvParses();
    SlippedArgvFills();
    SlippedArgvReads();
    ReadIsProper(Y_ONLY, SLIPPED_ARGV, 0);
    NothingMeetsOutput(Y_ONLY, SLIPPED_ITEMS, ["in"], false);
    hide ParseSpec, Filled, Template, MeetsOutput;
    var words := ["-b", "in", "-i", PLACEHOLDER];
    assert "--" !in words by { assert "-b"[1] == 'b' && "-i"[1] == 'i' && "in"[0] == 'i' && PLACEHOLDER[0] == '<'; }
  }
}
