/**
 * The canonical form of the ffmpeg arguments inside a cache key (pkg/worker/cache.go): the
 * tokens that matter, in order, each prefixed with its decimal length, joined by spaces.
 */
module CacheKey {
  import opened Decimal
  import opened JobArgs

  predicate Dashed(arg: string) { "-" <= arg }

  /** The tokens the key depends on: every option, and the value that follows an option without
      "=" unless it starts with a dash; placeholders and other positional words are skipped. */
  function Kept(args: seq<string>): seq<string>
    decreases |args|
  {
    if args == [] then []
    else
      var arg := args[0];
      if arg == PLACEHOLDER || !Dashed(arg) then Kept(args[1..])
      else if '=' in arg then [arg] + Kept(args[1..])
      else if |args| > 1 && !Dashed(args[1]) then [arg, args[1]] + Kept(args[2..])
      else [arg] + Kept(args[1..])
  }

  function Encode(token: string): string { Itoa(|token|) + ":" + token }

  function Join(tokens: seq<string>): string {
    if tokens == [] then ""
    else Encode(tokens[0]) + (if |tokens| == 1 then "" else " " + Join(tokens[1..]))
  }

  function Canonical(args: seq<string>): string { Join(Kept(args)) }

  lemma KeptAt(args: seq<string>, i: nat)
    requires i < |args|
    ensures
      var arg, later := args[i], Kept(args[i + 1..]);
      Kept(args[i..]) ==
        if arg == PLACEHOLDER || !Dashed(arg) then later
        else if '=' !in arg && i + 1 < |args| && !Dashed(args[i + 1]) then [arg, args[i + 1]] + Kept(args[i + 2..])
        else [arg] + later
  {
    hide Dashed;
    assert args[i..][1..] == args[i + 1..];
    assert i + 1 < |args| ==> args[i..][2..] == args[i + 2..];
  }

  lemma Regroup(a: seq<string>, b: seq<string>, c: seq<string>)
    ensures (a + b) + c == a + (b + c)
  {
  }

  lemma KeptNothing()
    ensures Kept([]) == []
  {
  }

  lemma CanonicalMeans(args: seq<string>)
    ensures Canonical(args) == Join(Kept(args))
  {
  }

  method CanonicalizeArgs(args: seq<string>) returns (key: string)
    ensures key == Canonical(args)
  {
    if |args| == 0 {
      assert Canonical(args) == "";
      return "";
    }
    var tokens: seq<string> := [];
    var i := 0;
    hide *;
    assert args[0..] == args;
    while i < |args|
      invariant 0 <= i <= |args|
      invariant tokens + Kept(args[i..]) == Kept(args)
      decreases |args| - i
    {
      var arg := args[i];
      KeptAt(args, i);
      if arg == PLACEHOLDER {
        i := i + 1;
        continue;
      }
      if !Dashed(arg) {
        i := i + 1;
        continue;
      }
      if '=' in arg {
        Regroup(tokens, [arg], Kept(args[i + 1..]));
        tokens := tokens + [arg];
      } else if i + 1 < |args| && !Dashed(args[i + 1]) {
        Regroup(tokens, [arg, args[i + 1]], Kept(args[i + 2..]));
        tokens := tokens + [arg, args[i + 1]];
        i := i + 1;
      } else {
        Regroup(tokens, [arg], Kept(args[i + 1..]));
        tokens := tokens + [arg];
      }
      i := i + 1;
    }
    KeptNothing();
    assert args[|args|..] == [] && tokens + [] == tokens;
    CanonicalMeans(args);
    key := Join(tokens);
  }

  // ----- the encoding is uniquely decodable

  ghost predicate NoColon(s: string) { forall k :: 0 <= k < |s| ==> s[k] != ':' }

  function ColonIndex(s: string): nat {
    if s == "" || s[0] == ':' then 0 else 1 + ColonIndex(s[1..])
  }

  lemma {:induction false} ColonFollows(a: string, x: string)
    requires NoColon(a)
    ensures ColonIndex(a + ":" + x) == |a|
  {
    if a != "" {
      assert (a + ":" + x)[1..] == a[1..] + ":" + x;
      ColonFollows(a[1..], x);
    }
  }

  lemma ColonSplits(a: string, b: string, x: string, y: string)
    requires NoColon(a) && NoColon(b) && a + ":" + x == b + ":" + y
    ensures a == b && x == y
  {
    var s, t := a + ":" + x, b + ":" + y;
    ColonFollows(a, x);
    ColonFollows(b, y);
    assert a == s[..|a|] && b == t[..|b|] && x == s[|a| + 1..] && y == t[|b| + 1..];
  }

  /** A text that starts with one encoded token starts with no other, however the token's own
      spaces, colons and digits fall. */
  lemma FirstTokenIsUnique(t: string, u: string, x: string, y: string)
    requires Encode(t) + x == Encode(u) + y
    ensures t == u && x == y
  {
    assert Encode(t) + x == Itoa(|t|) + ":" + (t + x);
    assert Encode(u) + y == Itoa(|u|) + ":" + (u + y);
    ColonSplits(Itoa(|t|), Itoa(|u|), t + x, u + y);
    ItoaInjective(|t|, |u|);
    assert t == (t + x)[..|t|] && u == (u + y)[..|u|];
    assert x == (t + x)[|t|..] && y == (u + y)[|u|..];
  }

  /** What follows the first encoded token. */
  function JoinRest(tokens: seq<string>): string
    requires tokens != []
  {
    if |tokens| == 1 then "" else " " + Join(tokens[1..])
  }

  lemma JoinUnfolds(tokens: seq<string>)
    ensures tokens == [] ==> Join(tokens) == ""
    ensures tokens != [] ==> Join(tokens) == Encode(tokens[0]) + JoinRest(tokens) && Join(tokens) != ""
  {
  }

  lemma RestsInjective(ts: seq<string>, us: seq<string>)
    requires ts != [] && us != [] && JoinRest(ts) == JoinRest(us)
    ensures |ts| == 1 <==> |us| == 1
    ensures |ts| > 1 ==> Join(ts[1..]) == Join(us[1..])
  {
    hide Join;
    assert |ts| > 1 ==> JoinRest(ts)[1..] == Join(ts[1..]);
    assert |us| > 1 ==> JoinRest(us)[1..] == Join(us[1..]);
  }

  lemma {:induction false} JoinInjective(ts: seq<string>, us: seq<string>)
    requires Join(ts) == Join(us)
    ensures ts == us
    decreases |ts|
  {
    hide Itoa, Encode, Join, JoinRest;
    JoinUnfolds(ts);
    JoinUnfolds(us);
    if ts != [] && us != [] {
      FirstTokenIsUnique(ts[0], us[0], JoinRest(ts), JoinRest(us));
      RestsInjective(ts, us);
      if |ts| > 1 {
        JoinInjective(ts[1..], us[1..]);
      }
      assert ts == [ts[0]] + ts[1..] && us == [us[0]] + us[1..];
    }
  }

  // ----- which words are kept

  ghost predicate StartsWithDash(word: string) { |word| > 0 && word[0] == '-' }

  /** Word j is an option, or follows an option that carries no '='. */
  ghost predicate Matters(args: seq<string>, j: int) {
    && 0 <= j < |args|
    && (StartsWithDash(args[j]) || (j > 0 && StartsWithDash(args[j - 1]) && '=' !in args[j - 1]))
  }

  /** The words from i up to n that matter, in order. */
  ghost function Selected(args: seq<string>, i: nat, n: nat): seq<string>
    requires i <= n <= |args|
  {
    if i == n then []
    else Selected(args, i, n - 1) + (if Matters(args, n - 1) then [args[n - 1]] else [])
  }

  lemma {:induction false} SelectedJoins(args: seq<string>, i: nat, m: nat, n: nat)
    requires i <= m <= n <= |args|
    ensures Selected(args, i, n) == Selected(args, i, m) + Selected(args, m, n)
  {
    hide Matters;
    if m < n {
      SelectedJoins(args, i, m, n - 1);
    }
  }

  lemma SelectedFirst(args: seq<string>, i: nat)
    requires i < |args|
    ensures Selected(args, i, |args|)
         == (if Matters(args, i) then [args[i]] else []) + Selected(args, i + 1, |args|)
  {
    hide Matters;
    SelectedJoins(args, i, i + 1, |args|);
    assert Selected(args, i, i) == [];
  }

  /** From a word on that is not the value of the option before it. */
  lemma {:induction false} KeptFrom(args: seq<string>, i: nat)
    requires i <= |args| && (i < |args| ==> (Matters(args, i) <==> StartsWithDash(args[i])))
    ensures Kept(args[i..]) == Selected(args, i, |args|)
    decreases |args| - i
  {
    if i == |args| {
      KeptNothing();
    } else {
      KeptAt(args, i);
      hide Kept, Selected;
      SelectedFirst(args, i);
      var n := |args|;
      if i + 1 < n && StartsWithDash(args[i]) && '=' !in args[i] && !StartsWithDash(args[i + 1]) {
        SelectedFirst(args, i + 1);
        KeptFrom(args, i + 2);
        assert [args[i]] + ([args[i + 1]] + Selected(args, i + 2, n)) == [args[i], args[i + 1]] + Selected(args, i + 2, n);
      } else {
        KeptFrom(args, i + 1);
      }
    }
  }

  /** A word is part of the key exactly when it starts with a dash, or directly follows a word that
      does and carries no '='. */
  lemma KeptExactly(args: seq<string>)
    ensures Kept(args) == Selected(args, 0, |args|)
  {
    KeptFrom(args, 0);
    assert args[0..] == args;
  }

  /** Word k of a is word k + shift of b, and matters in both or in neither. */
  ghost predicate SameAt(a: seq<string>, b: seq<string>, k: int, shift: int)
    requires 0 <= k < |a| && 0 <= k + shift < |b|
  {
    a[k] == b[k + shift] && (Matters(a, k) <==> Matters(b, k + shift))
  }

  lemma {:induction false} SelectedAgrees(a: seq<string>, b: seq<string>, i: nat, n: nat, shift: int)
    requires i <= n <= |a| && 0 <= i + shift && n + shift <= |b|
    requires forall k :: i <= k < n ==> SameAt(a, b, k, shift)
    ensures Selected(a, i, n) == Selected(b, i + shift, n + shift)
    decreases n
  {
    hide Matters;
    if i < n {
      assert SameAt(a, b, n - 1, shift);
      SelectedAgrees(a, b, i, n - 1, shift);
    }
  }

  /** Whether a word matters is settled by it and the word before it. */
  lemma PartsSelected(front: seq<string>, tail: seq<string>)
    ensures Selected(front + tail, 0, |front|) == Selected(front, 0, |front|)
    ensures tail != [] ==>
      Selected(front + tail, |front| + 1, |front + tail|) == Selected(tail, 1, |tail|)
  {
    var args, p, back := front + tail, |front|, -|front|;
    hide *;
    forall k | 0 <= k < p
      ensures SameAt(args, front, k, 0)
    {
      SameWords(args, front, k, 0);
    }
    SelectedAgrees(args, front, 0, p, 0);
    if tail != [] {
      forall k | p + 1 <= k < |args|
        ensures SameAt(args, tail, k, back)
      {
        SameWords(args, tail, k, back);
      }
      SelectedAgrees(args, tail, p + 1, |args|, back);
    }
  }

  lemma SameWords(a: seq<string>, b: seq<string>, k: int, shift: int)
    requires 0 <= k < |a| && 0 <= k + shift < |b| && a[k] == b[k + shift]
    requires if k == 0 then shift == 0 else k + shift > 0 && a[k - 1] == b[k + shift - 1]
    ensures SameAt(a, b, k, shift)
  {
  }

  /** An option's value is part of the key, whatever stands around it. */
  lemma ValueSelected(pre: seq<string>, o: string, v: string, post: seq<string>)
    requires StartsWithDash(o) && '=' !in o && !StartsWithDash(v)
    ensures
      var args := pre + [o, v] + post;
      Kept(args) == Selected(pre, 0, |pre|) + [o, v] + Selected([v] + post, 1, |post| + 1)
  {
    var args := pre + [o, v] + post;
    var p, tail := |pre|, [v] + post;
    KeptExactly(args);
    assert args[p] == o && args[p + 1] == v;
    assert args == pre + ([o, v] + post) && args == (pre + [o]) + tail;
    SelectedJoins(args, 0, p, |args|);
    SelectedFirst(args, p);
    SelectedFirst(args, p + 1);
    PartsSelected(pre, [o, v] + post);
    PartsSelected(pre + [o], tail);
    hide Selected, Kept;
    assert [o] + ([v] + Selected(args, p + 2, |args|)) == [o, v] + Selected(args, p + 2, |args|);
  }

  /** Two values of an option never share a canonical form. */
  lemma ValueIsInForm(pre: seq<string>, o: string, v: string, w: string, post: seq<string>)
    requires StartsWithDash(o) && '=' !in o && !StartsWithDash(v) && !StartsWithDash(w)
    ensures Canonical(pre + [o, v] + post) == Canonical(pre + [o, w] + post) <==> v == w
  {
    var a, b := pre + [o, v] + post, pre + [o, w] + post;
    if Canonical(a) == Canonical(b) {
      JoinInjective(Kept(a), Kept(b));
      ValueSelected(pre, o, v, post);
      ValueSelected(pre, o, w, post);
      var p := |Selected(pre, 0, |pre|)|;
      hide *;
      assert Kept(a)[p + 1] == v && Kept(b)[p + 1] == w;
    }
  }

  lemma {:induction false} SelectedHas(args: seq<string>, n: nat, word: string)
    requires n <= |args|
    ensures word in Selected(args, 0, n) <==> exists j :: 0 <= j < n && Matters(args, j) && args[j] == word
  {
    hide Matters;
    if n > 0 {
      SelectedHas(args, n - 1, word);
    }
  }

  /** The placeholder of an input is kept where it follows an option, as it does after -i; only a
      placeholder that stands elsewhere is left out. */
  lemma MarkerIsKeptExactly(args: seq<string>)
    ensures PLACEHOLDER in Kept(args)
       <==> exists j :: 0 < j < |args| && args[j] == PLACEHOLDER && StartsWithDash(args[j - 1]) && '=' !in args[j - 1]
  {
    KeptExactly(args);
    SelectedHas(args, |args|, PLACEHOLDER);
    assert PLACEHOLDER[0] == '<';
    hide Kept, Selected;
  }

  /** Two argument lists get the same canonical form exactly when the same words matter in both. */
  lemma SameFormIffSameTokens(a: seq<string>, b: seq<string>)
    ensures Canonical(a) == Canonical(b) <==> Selected(a, 0, |a|) == Selected(b, 0, |b|)
  {
    KeptExactly(a);
    KeptExactly(b);
    if Canonical(a) == Canonical(b) {
      JoinInjective(Kept(a), Kept(b));
    }
    hide Kept, Selected, Join;
  }
}
