/**
 * The argv parser judged by the words alone: how a word is read, what an option may not disturb, and
 * which rejection an argv gets (pkg/cli/args/parser.go, pkg/ffmpegopts/ffmpegopts.go).
 */
module ArgLaws {
  import opened FfmpegOpts
  import opened ArgGrammar
  import opened ArgParser
  import opened JobArgs

  // ----- how a word is read

  lemma {:induction false} ReadShifts(table: ArityTable, pre: seq<string>, args: seq<string>, i: nat)
    requires i <= |args|
    ensures Read(table, pre + args, |pre| + i) == Read(table, args, i)
    decreases |args| - i
  {
    hide IsBoolean, IsOption, IsInputFlag;
    if i < |args| {
      assert (pre + args)[|pre| + i] == args[i];
      ReadShifts(table, pre, args, i + 1);
      if i + 1 < |args| {
        assert (pre + args)[|pre| + i + 1] == args[i + 1];
        ReadShifts(table, pre, args, i + 2);
      }
    }
  }

  lemma ReadRest(table: ArityTable, args: seq<string>, i: nat)
    requires i <= |args|
    ensures Read(table, args, i) == Read(table, args[i..], 0)
  {
    ReadShifts(table, args[..i], args[i..], 0);
    assert args == args[..i] + args[i..];
  }

  /** The grammar: the input and output flags take the next word whatever it is, a word without a
      leading '-' and "-" itself stand alone, and any other option takes the next word exactly when
      its name needs a value. */
  lemma WordReads(table: ArityTable, args: seq<string>)
    requires args != []
    ensures
      var w, r := args[0], Read(table, args, 0);
      if w == "" || w[0] != '-' || w == "-" then r == Push(Bare(w), Read(table, args[1..], 0))
      else if w != "-i" && w != "--input" && w != "-o" && TakesNoValue(table, w[1..])
      then r == Push(Flag(w), Read(table, args[1..], 0))
      else if |args| == 1
      then r == Reading([], if w == "-i" || w == "--input" then NeedsInput(w)
                            else if w == "-o" then NeedsOutput else NeedsValue(w))
      else r == Push(if w == "-i" || w == "--input" then Input(w, args[1])
                     else if w == "-o" then OutputFlag(args[1]) else Setting(w, args[1]),
                     Read(table, args[2..], 0))
  {
    var w := args[0];
    ReadCases(table, args, 0);
    ReadRest(table, args, 1);
    if |args| > 1 {
      ReadRest(table, args, 2);
    }
    if w != "" && w[0] == '-' {
      assert "-" + w[1..] == w;
      IsBooleanExactly(table, w[1..]);
    }
    hide IsBoolean, TakesNoValue, Read, LastBare;
  }

  // ----- an option disturbs nothing

  /** b with the given words in front of what is passed on. */
  function Prefixed(pre: seq<string>, b: Result): Result {
    match b
    case Ok(p) => Ok(p.(allArgs := pre + p.allArgs))
    case Err(_) => b
  }

  lemma {:induction false} OutcomePrefixed(r: Reading, explicitInput: bool, inputs: seq<string>,
                                           pre: seq<string>, all: seq<string>, output: string)
    ensures Outcome(r, explicitInput, inputs, pre + all, output)
         == Prefixed(pre, Outcome(r, explicitInput, inputs, all, output))
    decreases |r.items|
  {
    hide HasBare, Normalized, Passed, InputOf;
    if r.items != [] {
      var item, rest := r.items[0], Reading(r.items[1..], r.tail);
      assert pre + (all + Passed(item)) == pre + all + Passed(item);
      OutcomePrefixed(rest, explicitInput, inputs + InputOf(item), pre, all + Passed(item), output);
      if IsOutput(item) {
        OutcomePrefixed(rest, explicitInput, inputs, pre, all, item.path);
      }
    }
  }

  lemma ItemPasses(r: Reading, item: Item, explicitInput: bool)
    requires item.Flag? || item.Setting?
    ensures Outcome(Push(item, r), explicitInput, [], [], "")
         == Prefixed(Passed(item), Outcome(r, explicitInput, [], [], ""))
  {
    OutcomeOfPush(item, r, explicitInput, [], [], "");
    var none: seq<string> := [];
    assert none + Passed(item) == Passed(item) + none && none + InputOf(item) == none;
    OutcomePrefixed(r, explicitInput, [], Passed(item), [], "");
    hide Outcome;
  }

  /** The option is neither an input flag nor the output flag, nor "-" alone. */
  predicate Plain(name: string) { name != "" && name != "i" && name != "-input" && name != "o" }

  /** A switch is passed on and nothing else: whatever follows it is parsed as if it were not there. */
  lemma SwitchPasses(table: ArityTable, name: string, rest: seq<string>)
    requires Plain(name) && TakesNoValue(table, name)
    ensures ParseSpec(table, ["-" + name] + rest) == Prefixed(["-" + name], ParseSpec(table, rest))
  {
    var flag := "-" + name;
    var args := [flag] + rest;
    assert flag[0] == '-' && flag[1..] == name && args[1..] == rest;
    assert flag != "-i" && flag != "-o" && flag != "--input" by {
      assert "-i"[1..] == "i" && "-o"[1..] == "o" && "--input"[1..] == "-input";
    }
    WordReads(table, args);
    assert HasInputFlag(args) == HasInputFlag(rest) by { FirstIsNoInput(flag, rest); }
    ItemPasses(Read(table, rest, 0), Flag(flag), HasInputFlag(rest));
    hide Read, Outcome, TakesNoValue, HasInputFlag;
  }

  lemma FirstIsNoInput(word: string, rest: seq<string>)
    requires !IsInputFlag(word)
    ensures HasInputFlag([word] + rest) == HasInputFlag(rest)
  {
    var args := [word] + rest;
    if k :| 0 <= k < |rest| && IsInputFlag(rest[k]) {
      assert args[k + 1] == rest[k];
    }
    if k :| 0 <= k < |args| && IsInputFlag(args[k]) {
      assert args[k] == if k == 0 then word else rest[k - 1];
    }
  }

  /** Any other option is passed on with the next word, whatever that word is. */
  lemma SettingPasses(table: ArityTable, name: string, value: string, rest: seq<string>)
    requires Plain(name) && !TakesNoValue(table, name)
    ensures
      var flag := "-" + name;
      var a, b := ParseSpec(table, [flag, value] + rest), ParseSpec(table, rest);
      && (a.Ok? <==> b.Ok?)
      && (a.Ok? || (value != "-i" && value != "--input") ==> a == Prefixed([flag, value], b))
  {
    var flag := "-" + name;
    var args := [flag, value] + rest;
    assert flag[0] == '-' && flag[1..] == name && args[2..] == rest;
    assert flag != "-i" && flag != "-o" && flag != "--input" by {
      assert "-i"[1..] == "i" && "-o"[1..] == "o" && "--input"[1..] == "-input";
    }
    WordReads(table, args);
    if value != "-i" && value != "--input" {
      assert HasInputFlag(args) == HasInputFlag(rest) by {
        FirstIsNoInput(value, rest);
        FirstIsNoInput(flag, [value] + rest);
        assert args == [flag] + ([value] + rest);
      }
    }
    var r := Read(table, rest, 0);
    ItemPasses(r, Setting(flag, value), HasInputFlag(args));
    OutcomeAccepts(r, HasInputFlag(args), [], [], "");
    OutcomeAccepts(r, HasInputFlag(rest), [], [], "");
    hide Read, Outcome, TakesNoValue, HasInputFlag, Inputs, Targets, Template, AtMostOneBare, Normalized, Chosen;
  }

  // ----- the output's spelling

  function LowerCase(c: char): char {
    if 'A' <= c <= 'Z' then (c as int + 32) as char else c
  }

  /** pipe:1 in any letter case is the standard output, and nothing else is respelled. */
  lemma NormalizedExactly(output: string)
    ensures Normalized(output) ==
      if |output| == 6 && forall k :: 0 <= k < 6 ==> LowerCase(output[k]) == "pipe:1"[k] then "-" else output
  {
    var lower := "pipe:1";
    if |output| == 6 {
      assert output[4..] == [output[4], output[5]];
      assert lower[0] == 'p' && lower[1] == 'i' && lower[2] == 'p' && lower[3] == 'e' && lower[4] == ':' && lower[5] == '1';
    }
  }

  // ----- which rejection

  /** Item k names an output where one is already named, or is a bare word before another one. */
  ghost predicate Extra(items: seq<Item>, k: int, output: string) {
    && 0 <= k < |items| && IsOutput(items[k])
    && (|| output != ""
        || (exists j :: 0 <= j < k && IsOutput(items[j]) && items[j].path != "")
        || (items[k].Bare? && exists j :: k < j < |items| && items[j].Bare?))
  }

  lemma ExtraStep(items: seq<Item>, k: nat, output: string)
    requires items != []
    ensures Extra(items, 0, output) <==> IsOutput(items[0]) && (output != "" || (items[0].Bare? && HasBare(items[1..])))
    ensures !Extra(items, 0, output) ==>
      (Extra(items[1..], k, if IsOutput(items[0]) then items[0].path else output) <==> Extra(items, k + 1, output))
  {
    var rest := items[1..];
    assert forall j :: 0 <= j < |rest| ==> rest[j] == items[j + 1];
    assert forall j :: 1 <= j < |items| ==> items[j] == rest[j - 1];
    if HasBare(rest) {
      var j :| 0 <= j < |rest| && rest[j].Bare?;
      assert items[j + 1].Bare?;
    }
  }

  lemma {:induction false} ExtraRejects(r: Reading, explicitInput: bool, inputs: seq<string>, all: seq<string>,
                                        output: string, k: nat)
    requires Extra(r.items, k, output) && forall j :: 0 <= j < k ==> !Extra(r.items, j, output)
    ensures Outcome(r, explicitInput, inputs, all, output) == SecondOutput(explicitInput, r.items[k].path)
    decreases k
  {
    ExtraIsItem(r.items, k, output);
    hide Extra, HasBare, SecondOutput, Normalized, Passed;
    var item, rest := r.items[0], Reading(r.items[1..], r.tail);
    ExtraStep(r.items, 0, output);
    OutcomeOfPush(item, rest, explicitInput, inputs, all, output);
    assert r == Push(item, rest);
    if k > 0 {
      var next := if IsOutput(item) then item.path else output;
      forall j | 0 <= j < k
        ensures Extra(rest.items, j, next) <==> Extra(r.items, j + 1, output)
      {
        ExtraStep(r.items, j, output);
      }
      if IsOutput(item) {
        ExtraRejects(rest, explicitInput, inputs, all, item.path, k - 1);
      } else {
        ExtraRejects(rest, explicitInput, inputs + InputOf(item), all + Passed(item), output, k - 1);
      }
    }
  }

  /** The output collected once every target was taken in turn. */
  function Settled(targets: seq<string>, output: string): string {
    if targets == [] then output else targets[|targets| - 1]
  }

  lemma {:induction false} NoExtraFinishes(r: Reading, explicitInput: bool, inputs: seq<string>, all: seq<string>, output: string)
    requires forall k :: !Extra(r.items, k, output)
    ensures Outcome(r, explicitInput, inputs, all, output)
         == Outcome(Reading([], r.tail), explicitInput, inputs + Inputs(r.items), all + Template(r.items),
                    Settled(Targets(r.items), output))
    decreases |r.items|
  {
    hide Extra, HasBare, SecondOutput, Normalized, Passed;
    if r.items == [] {
      assert r == Reading([], r.tail) && inputs + [] == inputs && all + [] == all;
    } else {
      var item, rest := r.items[0], Reading(r.items[1..], r.tail);
      var next := if IsOutput(item) then item.path else output;
      ExtraStep(r.items, 0, output);
      forall k: int
        ensures !Extra(rest.items, k, next)
      {
        if k >= 0 {
          ExtraStep(r.items, k, output);
        } else {
          NoNegativeExtra(rest.items, k, next);
        }
      }
      assert inputs + Inputs(r.items) == inputs + InputOf(item) + Inputs(rest.items);
      assert all + Template(r.items) == all + Passed(item) + Template(rest.items);
      NoExtraFinishes(rest, explicitInput, inputs + InputOf(item), all + Passed(item), next);
      OutcomeOfPush(item, rest, explicitInput, inputs, all, output);
      OutputPassesNothing(item);
      assert r == Push(item, rest) && inputs + [] == inputs && all + [] == all;
      hide Outcome, Inputs, Template, InputOf;
      SettledStep(item, Targets(rest.items), output);
    }
  }

  lemma NoNegativeExtra(items: seq<Item>, k: int, output: string)
    requires k < 0
    ensures !Extra(items, k, output)
  {
  }

  lemma OutputPassesNothing(item: Item)
    ensures IsOutput(item) ==> Passed(item) == [] && InputOf(item) == []
  {
  }

  lemma SettledStep(item: Item, rest: seq<string>, output: string)
    ensures Settled(TargetOf(item) + rest, output) == Settled(rest, if IsOutput(item) then item.path else output)
  {
  }

  /** Which rejection an argv gets. The first superfluous output is named, unless no word of the argv
      is an input flag, where the missing input is reported instead; then an option at the end without
      its value; then a missing input; then a missing output. */
  lemma ParseErrorsExactly(table: ArityTable, args: seq<string>)
    ensures
      var r, result := Read(table, args, 0), ParseSpec(table, args);
      var named := "-i" in args || "--input" in args;
      && (forall k :: Extra(r.items, k, "") && (forall j :: 0 <= j < k ==> !Extra(r.items, j, "")) ==>
            result == Err(if named then MultipleOutputs(r.items[k].path) else NoInputFile))
      && ((forall k :: !Extra(r.items, k, "")) ==>
            match r.tail
            case NeedsInput(_) => result == Err(NoInputFile)
            case NeedsOutput => result == Err(NoOutputFile)
            case NeedsValue(flag) => result == Err(MissingValue(flag))
            case Complete =>
              if Inputs(r.items) == [] then result == Err(NoInputFile)
              else if forall target :: target in Targets(r.items) ==> target == "" then result == Err(NoOutputFile)
              else result.Ok?)
  {
    var r := Read(table, args, 0);
    InputFlagIsNamed(args);
    hide Extra, Read, HasInputFlag, Inputs, Targets, Template, Normalized;
    forall k | Extra(r.items, k, "") && forall j :: 0 <= j < k ==> !Extra(r.items, j, "")
      ensures 0 <= k < |r.items| && IsOutput(r.items[k])
           && ParseSpec(table, args) == SecondOutput(HasInputFlag(args), r.items[k].path)
    {
      ExtraIsItem(r.items, k, "");
      ExtraRejects(r, HasInputFlag(args), [], [], "", k);
    }
    if forall k :: !Extra(r.items, k, "") {
      NoExtraFinishes(r, HasInputFlag(args), [], [], "");
      OneTargetAtMost(r.items);
      assert [] + Inputs(r.items) == Inputs(r.items);
    }
  }

  lemma ExtraIsItem(items: seq<Item>, k: int, output: string)
    requires Extra(items, k, output)
    ensures 0 <= k < |items| && IsOutput(items[k])
  {
  }

  lemma InputFlagIsNamed(args: seq<string>)
    ensures HasInputFlag(args) <==> "-i" in args || "--input" in args
  {
  }

  lemma {:induction false} TargetIsItem(items: seq<Item>, n: nat) returns (k: nat)
    requires n < |Targets(items)|
    ensures k < |items| && IsOutput(items[k]) && items[k].path == Targets(items)[n]
    ensures n + 1 < |Targets(items)| ==> exists j :: k < j < |items| && IsOutput(items[j])
  {
    var rest := Targets(items[1..]);
    if IsOutput(items[0]) && n == 0 {
      k := 0;
      if rest != [] {
        var j := TargetIsItem(items[1..], 0);
        assert IsOutput(items[j + 1]);
      }
    } else {
      var at := if IsOutput(items[0]) then n - 1 else n;
      var j := TargetIsItem(items[1..], at);
      k := j + 1;
      if at + 1 < |rest| {
        var m :| j < m < |items[1..]| && IsOutput(items[1..][m]);
        assert IsOutput(items[m + 1]);
      }
    }
  }

  /** Without a superfluous output only the last target can be non-empty. */
  lemma OneTargetAtMost(items: seq<Item>)
    requires forall k :: !Extra(items, k, "")
    ensures Settled(Targets(items), "") == "" <==> forall target :: target in Targets(items) ==> target == ""
  {
    var targets := Targets(items);
    forall n | 0 <= n < |targets| - 1
      ensures targets[n] == ""
    {
      var k := TargetIsItem(items, n);
      var j :| k < j < |items| && IsOutput(items[j]);
      assert !Extra(items, j, "");
    }
    if targets != [] {
      assert targets[|targets| - 1] in targets;
    }
    if Settled(targets, "") == "" {
      forall target | target in targets
        ensures target == ""
      {
        var n :| 0 <= n < |targets| && targets[n] == target;
      }
    }
  }

  // ----- an argv with a negated switch

  const STDIN_TABLE: ArityTable := map["stdin" := true]

  lemma NostdinIsASwitch()
    ensures TakesNoValue(STDIN_TABLE, "nostdin") && Plain("nostdin")
  {
    var base := "nostdin";
    assert base[..|base|] == base && IsBase(base, base);
    assert base == "no" + "stdin" && "stdin"[0] == 's' && Negates(base, "stdin");
  }

  /** -nostdin in front of an ordinary argv takes no word of it. */
  lemma NostdinIsPassed()
    ensures ParseSpec(STDIN_TABLE, ["-nostdin", "-i", "in.mp4", "out.mp4"])
         == Ok(Parsed(["in.mp4"], "out.mp4", false, ["-nostdin", "-i", PLACEHOLDER]))
  {
    var rest := ["-i", "in.mp4", "out.mp4"];
    assert "-" + "nostdin" == "-nostdin" && ["-nostdin"] + rest == ["-nostdin", "-i", "in.mp4", "out.mp4"];
    NostdinIsASwitch();
    SwitchPasses(STDIN_TABLE, "nostdin", rest);
    PlainArgvParses();
    hide *;
    assert ["-nostdin"] + ["-i", PLACEHOLDER] == ["-nostdin", "-i", PLACEHOLDER];
  }

  lemma PlainArgvReads()
    ensures Read(STDIN_TABLE, ["-i", "in.mp4", "out.mp4"], 0)
         == Reading([Input("-i", "in.mp4"), Bare("out.mp4")], Complete)
  {
    var rest := ["-i", "in.mp4", "out.mp4"];
    assert rest[2..] == ["out.mp4"] && ["out.mp4"][1..] == [] && "out.mp4"[0] == 'o';
    WordReads(STDIN_TABLE, rest);
    WordReads(STDIN_TABLE, ["out.mp4"]);
    assert Read(STDIN_TABLE, [], 0) == Reading([], Complete);
    hide Read, TakesNoValue;
  }

  lemma PlainArgvParses()
    ensures ParseSpec(STDIN_TABLE, ["-i", "in.mp4", "out.mp4"])
         == Ok(Parsed(["in.mp4"], "out.mp4", false, ["-i", PLACEHOLDER]))
  {
    var items := [Input("-i", "in.mp4"), Bare("out.mp4")];
    var last := [Bare("out.mp4")];
    PlainArgvReads();
    ParseAccepts(STDIN_TABLE, ["-i", "in.mp4", "out.mp4"]);
    assert items[1..] == last && last[1..] == [];
    assert Inputs(last) == [] && Inputs(items) == ["in.mp4"];
    assert Template(last) == [] && Template(items) == ["-i", PLACEHOLDER];
    assert Targets(last) == ["out.mp4"] && Targets(items) == ["out.mp4"];
    assert AtMostOneBare(items) && Single(["out.mp4"]) && Normalized("out.mp4") == "out.mp4";
    hide *;
  }
}
