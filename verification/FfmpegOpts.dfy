/**
 * Option arity (pkg/ffmpegopts/ffmpegopts.go): whether an option takes the next argument as its
 * value. The generated table is an arbitrary map here, so every result holds for any table.
 */
module FfmpegOpts {

  type ArityTable = map<string, bool>

  function TrimPrefix(s: string, prefix: string): string {
    if prefix <= s then s[|prefix|..] else s
  }

  /** The part of s before the first c, or all of s. */
  function Before(s: string, c: char): string {
    if s == "" || s[0] == c then "" else [s[0]] + Before(s[1..], c)
  }

  predicate Switch(table: ArityTable, name: string) { name in table && table[name] }

  predicate IsBoolean(table: ArityTable, flag: string) {
    var name := TrimPrefix(flag, "-");
    if '=' in name then true
    else
      var base := Before(name, ':');
      if Switch(table, base) then true
      else if "no" <= base && |base| > 2 && !("no" <= base[2..]) then Switch(table, base[2..])
      else false
  }

  /** base is name up to its stream specifier, the part from the first ':' on. */
  ghost predicate IsBase(name: string, base: string) {
    && |base| <= |name| && name[..|base|] == base
    && ':' !in base
    && (|base| < |name| ==> name[|base|] == ':')
  }

  /** The option name needs no separate value: it carries one after '=', or its base is a switch of
      the table, or "no" in front of a switch that does not itself begin with "no". */
  ghost predicate TakesNoValue(table: ArityTable, name: string) {
    || '=' in name
    || (exists base :: IsBase(name, base) && base in table && table[base])
    || (exists base, r :: IsBase(name, base) && Negates(base, r) && r in table && table[r])
  }

  ghost predicate Negates(base: string, r: string) { base == "no" + r && r != "" && !("no" <= r) }

  lemma {:induction false} BeforeIsBase(name: string)
    ensures IsBase(name, Before(name, ':'))
  {
    if name != "" && name[0] != ':' {
      var rest := Before(name[1..], ':');
      BeforeIsBase(name[1..]);
      assert Before(name, ':') == [name[0]] + rest;
      assert name[..|rest| + 1] == [name[0]] + name[1..][..|rest|];
    }
  }

  lemma BaseIsUnique(name: string, a: string, b: string)
    requires IsBase(name, a) && IsBase(name, b)
    ensures a == b
  {
  }

  /** Exactly which options take no value. */
  lemma IsBooleanExactly(table: ArityTable, name: string)
    ensures IsBoolean(table, "-" + name) <==> TakesNoValue(table, name)
  {
    var base := Before(name, ':');
    BeforeIsBase(name);
    assert ("-" + name)[1..] == name && TrimPrefix("-" + name, "-") == name;
    hide Before, IsBase, TrimPrefix;
    forall other | IsBase(name, other)
      ensures other == base
    {
      BaseIsUnique(name, other, base);
    }
    if "no" <= base && |base| > 2 {
      assert base == "no" + base[2..];
      assert !("no" <= base[2..]) ==> Negates(base, base[2..]);
    }
    if r: string :| Negates(base, r) && Switch(table, r) {
      assert base[2..] == r;
    }
  }

  /** The worker's side of the rule (pkg/worker/executor.go). */
  predicate IsFlagWithValue(table: ArityTable, flag: string) {
    if '=' in flag then false else !IsBoolean(table, flag)
  }

  /** The CLI and the worker read the same arity from every option. */
  lemma OneArityRule(table: ArityTable, flag: string)
    ensures IsFlagWithValue(table, flag) <==> !IsBoolean(table, flag)
  {
    if '=' in flag {
      var k :| 0 <= k < |flag| && flag[k] == '=';
      if "-" <= flag {
        assert k > 0 && flag[1..][k - 1] == '=';
      }
    }
  }
}
