/** What the parsing loop means: bundles of short flags, stored values, positionals. */
module ArgParserTheorems {
  import opened Options
  import opened ArgParsers

  // ----- Bundles

  /** The short flag takes no value, or is not defined. */
  predicate Valueless(p: Parser, c: char)
    requires Fits(p)
  {
    var flags := p.commands[p.curr].flags;
    var k := ShortFrom(flags, c, 0);
    k == |flags| || !flags[k].hasValue
  }

  function Bundle(a: char, rest: string): string { "-" + [a] + rest }

  function Dashed(rest: string): string { "-" + rest }

  /** One turn inside a bundle does not depend on the symbols before the cursor. */
  lemma TurnShifts(p: Parser, a: char, rest: string, post: seq<string>, k: nat)
    requires Fits(p) && IsShort(Bundle(a, rest)) && IsShort(Dashed(rest)) && 1 <= k <= |rest|
    ensures var t, u := TurnOf(p, [Bundle(a, rest)] + post, k + 1), TurnOf(p, [Dashed(rest)] + post, k);
            if t.Stop? then u == t
            else u.Next? && u.parser == t.parser && u.used == t.used &&
                 if t.used == 0 then t.sym == k + 2 && u.sym == k + 1 && k < |rest| else t.sym == u.sym == 1
  {
    var A, B := Bundle(a, rest), Dashed(rest);
    assert A[k + 1] == B[k];
    if k + 2 <= |rest| { assert A[k + 3..] == B[k + 2..]; }
    if k + 1 <= |rest| { assert A[k + 2..] == B[k + 1..]; }
  }

  lemma RunGoesOn(p: Parser, args: seq<string>, sym: nat, t: Turn)
    requires Fits(p) && SymFits(args, sym) && args != [] && t == TurnOf(p, args, sym)
    ensures Run(p, args, sym) == if t.Stop? then Result(t.status, p.commands) else Run(t.parser, args[t.used..], t.sym)
  {
    assert Run(p, args, sym) == RunOn(p, args, sym);
  }

  lemma TailsAgree(x: string, y: string, post: seq<string>, n: nat)
    requires 1 <= n <= 1 + |post|
    ensures ([x] + post)[n..] == ([y] + post)[n..]
  {
  }

  /** The rest of a bundle is worth the same as the rest with a dash of its own. */
  lemma {:induction false} RunShifts(p: Parser, a: char, rest: string, post: seq<string>, k: nat)
    requires Fits(p) && IsShort(Bundle(a, rest)) && IsShort(Dashed(rest)) && 1 <= k <= |rest|
    ensures Run(p, [Bundle(a, rest)] + post, k + 1) == Run(p, [Dashed(rest)] + post, k)
    decreases |rest| - k
  {
    var A, B := [Bundle(a, rest)] + post, [Dashed(rest)] + post;
    TurnShifts(p, a, rest, post, k);
    var t, u := TurnOf(p, A, k + 1), TurnOf(p, B, k);
    RunGoesOn(p, A, k + 1, t);
    RunGoesOn(p, B, k, u);
    if t.Next? {
      if t.used == 0 {
        assert A[0..] == A && B[0..] == B;
        RunShifts(t.parser, a, rest, post, k + 1);
      } else {
        TailsAgree(Bundle(a, rest), Dashed(rest), post, t.used);
      }
    }
  }

  /** The turn of a valueless flag that is the only one of its argument. */
  lemma TurnOfOne(p: Parser, a: char, post: seq<string>)
    requires Fits(p) && Valueless(p, a)
    ensures var flags := p.commands[p.curr].flags;
            var k := ShortFrom(flags, a, 0);
            TurnOf(p, [Dashed([a])] + post, 1) ==
            if k == |flags| then Stop(UnknownFlag) else Next(WithFlag(p, k, Counted(flags[k])), 1, 1)
  {
    assert Dashed([a])[1] == a;
  }

  lemma RunOfOne(p: Parser, a: char, post: seq<string>)
    requires Fits(p) && Valueless(p, a)
    ensures var flags := p.commands[p.curr].flags;
            var k := ShortFrom(flags, a, 0);
            Run(p, [Dashed([a])] + post, 1) ==
            if k == |flags| then Result(UnknownFlag, p.commands) else Run(WithFlag(p, k, Counted(flags[k])), post, 1)
  {
    var args := [Dashed([a])] + post;
    TurnOfOne(p, a, post);
    RunGoesOn(p, args, 1, TurnOf(p, args, 1));
    assert args[1..] == post;
  }

  /** The turn of a valueless flag at the front of a bundle. */
  lemma TurnOfFront(p: Parser, a: char, rest: string, post: seq<string>)
    requires Fits(p) && Valueless(p, a) && a != '-' && rest != ""
    ensures var flags := p.commands[p.curr].flags;
            var k := ShortFrom(flags, a, 0);
            TurnOf(p, [Bundle(a, rest)] + post, 1) ==
            if k == |flags| then Stop(UnknownFlag) else Next(WithFlag(p, k, Counted(flags[k])), 0, 2)
  {
    assert Bundle(a, rest)[1] == a;
  }

  lemma RunOfFront(p: Parser, a: char, rest: string, post: seq<string>)
    requires Fits(p) && Valueless(p, a) && a != '-' && rest != ""
    ensures var flags := p.commands[p.curr].flags;
            var k := ShortFrom(flags, a, 0);
            Run(p, [Bundle(a, rest)] + post, 1) ==
            if k == |flags| then Result(UnknownFlag, p.commands)
            else Run(WithFlag(p, k, Counted(flags[k])), [Bundle(a, rest)] + post, 2)
  {
    var args := [Bundle(a, rest)] + post;
    TurnOfFront(p, a, rest, post);
    RunGoesOn(p, args, 1, TurnOf(p, args, 1));
    assert args[0..] == args;
  }

  predicate Unbundles(p: Parser, a: char, rest: string, post: seq<string>)
    requires Fits(p)
  {
    Run(p, [Bundle(a, rest)] + post, 1) == Run(p, [Dashed([a]), Dashed(rest)] + post, 1)
  }

  /** Neither the bundle nor its rest with a dash of its own reads as a long flag. */
  predicate StaysShort(a: char, rest: string)
    requires rest != ""
  {
    a != '-' && (rest[0] == '-' ==> |rest| == 1)
  }

  lemma Unbundle(p: Parser, a: char, rest: string, post: seq<string>)
    requires Fits(p) && Valueless(p, a) && rest != "" && StaysShort(a, rest)
    ensures Unbundles(p, a, rest, post)
  {
    var flags := p.commands[p.curr].flags;
    var k := ShortFrom(flags, a, 0);
    assert [Dashed([a]), Dashed(rest)] + post == [Dashed([a])] + ([Dashed(rest)] + post);
    RunOfOne(p, a, [Dashed(rest)] + post);
    RunOfFront(p, a, rest, post);
    if k < |flags| { RunShifts(WithFlag(p, k, Counted(flags[k])), a, rest, post, 1); }
  }

  /** A parser with nothing but the given flags. */
  function OnlyFlags(flags: seq<Flag>): Parser { Parser([Command("", None, [], flags, [])], 0, 0) }

  function Named(short: char, long: string): Flag { Flag(short, long, false, [], 0) }

  /** An argument that is a long flag without value ends the run well. */
  lemma LongFlagAlone(p: Parser, arg: string)
    requires Fits(p) && p.curr == 0 && p.commands[0].positionals == [] && IsLong(arg)
    requires var flags := p.commands[0].flags;
             var k := LongFrom(flags, arg[2..], 0); k < |flags| && !flags[k].hasValue
    ensures Run(p, [arg], 1).status == Success
  {
    var t := TurnOf(p, [arg], 1);
    RunGoesOn(p, [arg], 1, t);
    assert [arg][1..] == [];
    assert !UnmetIn(t.parser.commands[0]);
  }

  /** A long flag named by the rest is found by the bundle `--rest`, not by `--`. */
  lemma DashDoesNotUnbundle(rest: string)
    requires rest != ""
    ensures var p := OnlyFlags([Named('\0', rest)]);
            Fits(p) && Valueless(p, '-') && !Unbundles(p, '-', rest, [])
  {
    var p := OnlyFlags([Named('\0', rest)]);
    var bundle, apart := Bundle('-', rest), [Dashed("-"), Dashed(rest)] + [];
    assert bundle[2..] == rest;
    LongFlagAlone(p, bundle);
    assert [bundle] + [] == [bundle];
    RunGoesOn(p, apart, 1, Stop(UnknownFlag));
  }

  /** A long flag named by the rest after its dash is found by `--x`, not by `-a-x`. */
  lemma DashedRestDoesNotUnbundle(a: char, rest: string)
    requires a != '\0' && a != '-' && |rest| > 1 && rest[0] == '-'
    ensures var p := OnlyFlags([Named(a, ""), Named('\0', rest[1..])]);
            Fits(p) && Valueless(p, a) && !Unbundles(p, a, rest, [])
  {
    var flags := [Named(a, ""), Named('\0', rest[1..])];
    var p := OnlyFlags(flags);
    var q := WithFlag(p, 0, Counted(flags[0]));
    assert q.commands[0].flags == [Counted(flags[0]), flags[1]];
    RunOfFront(p, a, rest, []);
    DashIsUnknown(q, a, rest);
    assert [Dashed([a]), Dashed(rest)] + [] == [Dashed([a])] + [Dashed(rest)];
    RunOfOne(p, a, [Dashed(rest)]);
    assert Dashed(rest)[2..] == rest[1..];
    LongFlagAlone(q, Dashed(rest));
  }

  lemma DashIsUnknown(q: Parser, a: char, rest: string)
    requires Fits(q) && a != '-' && rest != "" && rest[0] == '-'
    requires ShortFrom(q.commands[q.curr].flags, '-', 0) == |q.commands[q.curr].flags|
    ensures Run(q, [Bundle(a, rest)] + [], 2).status == UnknownFlag
  {
    assert Bundle(a, rest)[2] == '-';
    RunGoesOn(q, [Bundle(a, rest)] + [], 2, Stop(UnknownFlag));
  }

  /** Taking a valueless flag off the front of a bundle keeps the meaning for all
      definitions of flags exactly when neither form reads as a long flag. */
  lemma UnbundleIff(a: char, rest: string)
    requires a != '\0' && rest != ""
    ensures (forall p, post :: Fits(p) && Valueless(p, a) ==> Unbundles(p, a, rest, post)) <==> StaysShort(a, rest)
  {
    if StaysShort(a, rest) {
      forall p, post | Fits(p) && Valueless(p, a) ensures Unbundles(p, a, rest, post) { Unbundle(p, a, rest, post); }
    } else if a == '-' {
      DashDoesNotUnbundle(rest);
    } else {
      DashedRestDoesNotUnbundle(a, rest);
    }
  }

  /** Each symbol with a dash of its own. */
  function Apart(symbols: string): seq<string> {
    if symbols == "" then [] else [Dashed([symbols[0]])] + Apart(symbols[1..])
  }

  lemma ValuelessStays(p: Parser, k: nat, c: char)
    requires Fits(p) && k < |p.commands[p.curr].flags|
    ensures var q := WithFlag(p, k, Counted(p.commands[p.curr].flags[k])); Valueless(q, c) == Valueless(p, c)
  {
    var q := WithFlag(p, k, Counted(p.commands[p.curr].flags[k]));
    SameShort(p.commands[p.curr].flags, q.commands[q.curr].flags, c, 0);
  }

  lemma {:induction false} SameShort(flags: seq<Flag>, flags': seq<Flag>, c: char, k: nat)
    requires |flags| == |flags'| && k <= |flags| && forall j :: 0 <= j < |flags| ==> SameFlag(flags[j], flags'[j])
    ensures ShortFrom(flags, c, k) == ShortFrom(flags', c, k)
    decreases |flags| - k
  {
    if k == |flags| {
    } else {
      SameShort(flags, flags', c, k + 1);
    }
  }

  /** A whole bundle means the same as its flags given one by one; the last may take a value. */
  lemma {:induction false} UnbundleAll(p: Parser, symbols: string, post: seq<string>)
    requires Fits(p) && symbols != "" && forall i :: 0 <= i < |symbols| ==> symbols[i] != '-'
    requires forall i :: 0 <= i < |symbols| - 1 ==> Valueless(p, symbols[i])
    ensures Run(p, [Dashed(symbols)] + post, 1) == Run(p, Apart(symbols) + post, 1)
    decreases |symbols|
  {
    var a, rest := symbols[0], symbols[1..];
    if rest == "" {
      assert symbols == [a] && Apart(symbols) == [Dashed(symbols)] + [];
      assert Apart(symbols) == [Dashed(symbols)];
    } else {
      assert Valueless(p, symbols[0]);
      Unbundle(p, a, rest, post);
      assert Dashed(symbols) == Bundle(a, rest);
      assert [Dashed([a]), Dashed(rest)] + post == [Dashed([a])] + ([Dashed(rest)] + post);
      assert Apart(symbols) + post == [Dashed([a])] + (Apart(rest) + post);
      RunOfOne(p, a, [Dashed(rest)] + post);
      RunOfOne(p, a, Apart(rest) + post);
      var flags := p.commands[p.curr].flags;
      var k := ShortFrom(flags, a, 0);
      if k < |flags| {
        forall i | 0 <= i < |rest| - 1 ensures Valueless(WithFlag(p, k, Counted(flags[k])), rest[i]) {
          assert rest[i] == symbols[i + 1];
          ValuelessStays(p, k, rest[i]);
        }
        UnbundleAll(WithFlag(p, k, Counted(flags[k])), rest, post);
      }
    }
  }

  // ----- Spellings of a value

  /** The short name names a value flag. */
  predicate TakesValue(p: Parser, c: char)
    requires Fits(p)
  {
    var flags := p.commands[p.curr].flags;
    var k := ShortFrom(flags, c, 0);
    k < |flags| && flags[k].hasValue
  }

  /** Storing one value and going on with the arguments after it. */
  function RunStoring(p: Parser, k: nat, v: string, post: seq<string>): Result
    requires Fits(p) && k < |p.commands[p.curr].flags|
  {
    Run(WithFlag(p, k, Stored(p.commands[p.curr].flags[k], v)), post, 1)
  }

  lemma ShortApart(p: Parser, c: char, v: string, post: seq<string>)
    requires Fits(p) && TakesValue(p, c)
    ensures Run(p, [Dashed([c]), v] + post, 1) == RunStoring(p, ShortFrom(p.commands[p.curr].flags, c, 0), v, post)
  {
    var args := [Dashed([c]), v] + post;
    assert args[0][1] == c;
    RunGoesOn(p, args, 1, TurnOf(p, args, 1));
    assert args[2..] == post;
  }

  lemma ShortAttached(p: Parser, c: char, v: string, post: seq<string>)
    requires Fits(p) && TakesValue(p, c) && c != '-' && v != "" && (v[0] == '=' ==> v == "=")
    ensures Run(p, [Bundle(c, v)] + post, 1) == RunStoring(p, ShortFrom(p.commands[p.curr].flags, c, 0), v, post)
  {
    var args := [Bundle(c, v)] + post;
    assert args[0][1] == c && args[0][2..] == v;
    RunGoesOn(p, args, 1, TurnOf(p, args, 1));
    assert args[1..] == post;
  }

  lemma ShortEquals(p: Parser, c: char, v: string, post: seq<string>)
    requires Fits(p) && TakesValue(p, c) && c != '-' && v != ""
    ensures Run(p, [Bundle(c, "=" + v)] + post, 1) == RunStoring(p, ShortFrom(p.commands[p.curr].flags, c, 0), v, post)
  {
    var args := [Bundle(c, "=" + v)] + post;
    assert args[0][1] == c && args[0][2] == '=' && args[0][3..] == v;
    RunGoesOn(p, args, 1, TurnOf(p, args, 1));
    assert args[1..] == post;
  }

  /** `-c v`, `-c=v` and `-cv` mean the same; the last one unless `v` begins with an equals
      sign that is not all of it. */
  lemma ShortSpellingsAgree(p: Parser, c: char, v: string, post: seq<string>)
    requires Fits(p) && TakesValue(p, c) && c != '-' && v != ""
    ensures Run(p, [Bundle(c, "=" + v)] + post, 1) == Run(p, [Dashed([c]), v] + post, 1)
    ensures (v[0] == '=' ==> v == "=") ==> Run(p, [Bundle(c, v)] + post, 1) == Run(p, [Dashed([c]), v] + post, 1)
  {
    ShortApart(p, c, v, post);
    ShortEquals(p, c, v, post);
    if v[0] == '=' ==> v == "=" { ShortAttached(p, c, v, post); }
  }

  /** The first flag whose long name begins the text is a value flag with just that name. */
  predicate NamesValue(p: Parser, name: string, text: string)
    requires Fits(p)
  {
    var flags := p.commands[p.curr].flags;
    var k := LongFrom(flags, text, 0);
    k < |flags| && flags[k].hasValue && flags[k].longName == name
  }

  lemma LongApart(p: Parser, name: string, v: string, post: seq<string>)
    requires Fits(p) && NamesValue(p, name, name)
    ensures Run(p, ["--" + name, v] + post, 1) == RunStoring(p, LongFrom(p.commands[p.curr].flags, name, 0), v, post)
  {
    var args := ["--" + name, v] + post;
    assert args[0][2..] == name;
    RunGoesOn(p, args, 1, TurnOf(p, args, 1));
    assert args[2..] == post;
  }

  lemma LongEquals(p: Parser, name: string, v: string, post: seq<string>)
    requires Fits(p) && v != "" && NamesValue(p, name, name + "=" + v)
    ensures Run(p, ["--" + name + "=" + v] + post, 1) ==
            RunStoring(p, LongFrom(p.commands[p.curr].flags, name + "=" + v, 0), v, post)
  {
    var args := ["--" + name + "=" + v] + post;
    assert args[0][2..] == name + "=" + v && args[0][|name| + 2] == '=' && args[0][|name| + 3..] == v;
    RunGoesOn(p, args, 1, TurnOf(p, args, 1));
    assert args[1..] == post;
  }

  /** `--name v` and `--name=v` mean the same when both find the flag of that name: a long
      name is searched for as a beginning of the argument. */
  lemma LongSpellingsAgree(p: Parser, name: string, v: string, post: seq<string>)
    requires Fits(p) && v != "" && NamesValue(p, name, name) && NamesValue(p, name, name + "=" + v)
    ensures Run(p, ["--" + name + "=" + v] + post, 1) == Run(p, ["--" + name, v] + post, 1)
  {
    LongApart(p, name, v, post);
    LongEquals(p, name, v, post);
    FirstOfNameIsOne(p.commands[p.curr].flags, name, name + "=" + v, 0);
  }

  /** Of two texts that begin with the name and find a flag of just that name, both find the
      same one. */
  lemma {:induction false} FirstOfNameIsOne(flags: seq<Flag>, name: string, text: string, k: nat)
    requires k <= |flags| && name <= text
    requires var f := LongFrom(flags, name, k); f < |flags| && flags[f].longName == name
    requires var g := LongFrom(flags, text, k); g < |flags| && flags[g].longName == name
    ensures LongFrom(flags, name, k) == LongFrom(flags, text, k)
    decreases |flags| - k
  {
    var here := flags[k].longName;
    if here != "" && here <= name {
      assert here <= text;
    } else if here == "" || !(here <= text) {
      FirstOfNameIsOne(flags, name, text, k + 1);
    }
  }

  // ----- Stored values

  /** A value flag has counted what it has stored; any other flag has stored nothing. */
  predicate FlagCounts(f: Flag) { if f.hasValue then f.count == |f.storage| else f.storage == [] }

  ghost predicate Counts(commands: seq<Command>) {
    forall c, k :: 0 <= c < |commands| && 0 <= k < |commands[c].flags| ==> FlagCounts(commands[c].flags[k])
  }

  lemma FlagKeepsCounts(p: Parser, k: nat, f: Flag)
    requires Fits(p) && k < |p.commands[p.curr].flags| && SameFlag(p.commands[p.curr].flags[k], f)
    requires Counts(p.commands) && FlagCounts(f)
    ensures Counts(WithFlag(p, k, f).commands) && SameShape(p.commands, WithFlag(p, k, f).commands)
  {
  }

  lemma LongTurnKeepsCounts(p: Parser, args: seq<string>, sym: nat)
    requires Fits(p) && args != [] && IsLong(args[0]) && Counts(p.commands)
    ensures var t := LongTurn(p, args, sym);
            t.Next? ==> Counts(t.parser.commands) && SameShape(p.commands, t.parser.commands)
  {
    var arg, flags := args[0], p.commands[p.curr].flags;
    var k := LongFrom(flags, arg[2..], 0);
    if k < |flags| {
      var f := flags[k];
      if !f.hasValue { FlagKeepsCounts(p, k, Counted(f)); } else {
        if |arg| >= 3 + |f.longName| { FlagKeepsCounts(p, k, Stored(f, arg[|f.longName| + 3..])); }
        if |args| > 1 { FlagKeepsCounts(p, k, Stored(f, args[1])); }
      }
    }
  }

  lemma ShortTurnKeepsCounts(p: Parser, args: seq<string>, sym: nat)
    requires Fits(p) && args != [] && IsShort(args[0]) && 1 <= sym < |args[0]| && Counts(p.commands)
    ensures var t := ShortTurn(p, args, sym);
            t.Next? ==> Counts(t.parser.commands) && SameShape(p.commands, t.parser.commands)
  {
    var arg, flags := args[0], p.commands[p.curr].flags;
    var k := ShortFrom(flags, arg[sym], 0);
    if k < |flags| {
      var f := flags[k];
      if !f.hasValue { FlagKeepsCounts(p, k, Counted(f)); } else {
        if |arg| >= 2 + sym { FlagKeepsCounts(p, k, Stored(f, arg[sym + 1..])); }
        if |arg| >= 3 + sym { FlagKeepsCounts(p, k, Stored(f, arg[sym + 2..])); }
        if |args| > 1 { FlagKeepsCounts(p, k, Stored(f, args[1])); }
      }
    }
  }

  lemma PlainTurnKeepsCounts(p: Parser, args: seq<string>, sym: nat)
    requires Fits(p) && args != [] && Counts(p.commands)
    ensures var t := PlainTurn(p, args, sym);
            t.Next? ==> Counts(t.parser.commands) && SameShape(p.commands, t.parser.commands)
  {
    if p.positionalCount < |p.commands[p.curr].positionals| {
      var q := WithWord(p, args[0]);
      assert Counts(q.commands) && SameShape(p.commands, q.commands);
    }
  }

  lemma TurnKeepsCounts(p: Parser, args: seq<string>, sym: nat)
    requires Fits(p) && args != [] && SymFits(args, sym) && Counts(p.commands)
    ensures var t := TurnOf(p, args, sym);
            t.Next? ==> Counts(t.parser.commands) && SameShape(p.commands, t.parser.commands)
  {
    if IsLong(args[0]) {
      LongTurnKeepsCounts(p, args, sym);
    } else if IsShort(args[0]) {
      ShortTurnKeepsCounts(p, args, sym);
    } else {
      PlainTurnKeepsCounts(p, args, sym);
    }
  }

  lemma {:induction false} RunKeepsCounts(p: Parser, args: seq<string>, sym: nat)
    requires Fits(p) && SymFits(args, sym) && Counts(p.commands)
    ensures Counts(Run(p, args, sym).commands) && SameShape(p.commands, Run(p, args, sym).commands)
    decreases |args|, if args == [] then 0 else |args[0]| - sym
  {
    if args == [] {
    } else {
      TurnKeepsCounts(p, args, sym);
      var t := TurnOf(p, args, sym);
      RunGoesOn(p, args, sym, t);
      if t.Next? { RunKeepsCounts(t.parser, args[t.used..], t.sym); }
    }
  }

  /** After any run, of a flag that is present the last value can be read exactly if the
      flag is defined to take values. */
  lemma LastValueInRangeIff(p: Parser, args: seq<string>, c: nat, k: nat)
    requires Fits(p) && Counts(p.commands) && c < |p.commands| && k < |p.commands[c].flags|
    ensures var commands := Run(p, args, 1).commands;
            |commands| == |p.commands| && |commands[c].flags| == |p.commands[c].flags| &&
            var f := commands[c].flags[k];
            f.count > 0 ==> (f.count - 1 < |f.storage| <==> p.commands[c].flags[k].hasValue)
  {
    RunKeepsCounts(p, args, 1);
    var commands := Run(p, args, 1).commands;
    assert SameFlag(p.commands[c].flags[k], commands[c].flags[k]) && FlagCounts(commands[c].flags[k]);
  }

  /** A run of one short flag without a value. */
  lemma OneValuelessFlag(p: Parser, arg: string)
    requires Fits(p) && IsShort(arg) && |arg| == 2
    requires var k := ShortFrom(p.commands[p.curr].flags, arg[1], 0);
             k < |p.commands[p.curr].flags| && !p.commands[p.curr].flags[k].hasValue
    ensures var k := ShortFrom(p.commands[p.curr].flags, arg[1], 0);
            Run(p, [arg], 1).commands == WithFlag(p, k, Counted(p.commands[p.curr].flags[k])).commands
  {
    var args := [arg];
    var t := TurnOf(p, args, 1);
    assert t.Next? && t.used == 1 && t.sym == 1 && args[1..] == [];
    assert Run(p, args, 1) == RunOn(p, args, 1) == Run(t.parser, args[t.used..], t.sym);
    RunOfNothing(t.parser);
  }

  lemma RunOfNothing(p: Parser)
    requires Fits(p)
    ensures Run(p, [], 1).commands == p.commands
  {
  }

  const SWITCH := Flag('a', "", false, [], 0)
  const SWITCHED := Parser([Command("", None, [], [SWITCH], [])], 0, 0)

  /** With a flag `a` that takes no value, `-a` makes it present and stores nothing: the last
      value is then read one place before the first. */
  lemma SwitchReadsOutOfRange()
    ensures Fits(SWITCHED) && Counts(SWITCHED.commands)
    ensures var commands := Run(SWITCHED, ["-a"], 1).commands;
            |commands| == 1 && commands[0].flags == [SWITCH.(count := 1)] && commands[0].flags[0].storage == []
  {
    OneValuelessFlag(SWITCHED, "-a");
  }

  // ----- Positionals

  /** The positionals before `n` are full, those after it empty, and it has room. */
  ghost predicate FilledTo(ps: seq<Positional>, n: nat) {
    && n <= |ps|
    && (forall k :: 0 <= k < n ==> |ps[k].storage| == ps[k].maxWords)
    && (forall k :: n < k < |ps| ==> ps[k].storage == [])
    && (n < |ps| ==> |ps[n].storage| < ps[n].maxWords || ps[n].maxWords == 0)
  }

  ghost predicate FilledInOrder(comm: Command) { exists n: nat :: FilledTo(comm.positionals, n) }

  ghost predicate Filling(p: Parser)
    requires Fits(p)
  {
    && FilledTo(p.commands[p.curr].positionals, p.positionalCount)
    && (forall c :: p.curr < c < |p.commands| ==> FilledTo(p.commands[c].positionals, 0))
    && (forall c :: 0 <= c < |p.commands| ==> FilledInOrder(p.commands[c]))
  }

  /** The two differ in flags only. */
  ghost predicate SamePositionals(p: Parser, q: Parser) {
    && q.curr == p.curr && q.positionalCount == p.positionalCount && |q.commands| == |p.commands|
    && forall c :: 0 <= c < |p.commands| ==> q.commands[c].positionals == p.commands[c].positionals
  }

  lemma LongTurnFlagsOnly(p: Parser, args: seq<string>, sym: nat)
    requires Fits(p) && args != [] && IsLong(args[0])
    ensures var t := LongTurn(p, args, sym); t.Next? ==> SamePositionals(p, t.parser)
  {
  }

  lemma ShortTurnFlagsOnly(p: Parser, args: seq<string>, sym: nat)
    requires Fits(p) && args != [] && IsShort(args[0]) && 1 <= sym < |args[0]|
    ensures var t := ShortTurn(p, args, sym); t.Next? ==> SamePositionals(p, t.parser)
  {
  }

  lemma SamePositionalsFill(p: Parser, q: Parser)
    requires Fits(p) && Fits(q) && Filling(p) && SamePositionals(p, q)
    ensures Filling(q)
  {
    forall c | 0 <= c < |q.commands| ensures FilledInOrder(q.commands[c]) {
      assert FilledInOrder(p.commands[c]);
      var n: nat :| FilledTo(p.commands[c].positionals, n);
      assert FilledTo(q.commands[c].positionals, n);
    }
  }

  lemma PlainTurnFills(p: Parser, args: seq<string>, sym: nat)
    requires Fits(p) && args != [] && Filling(p)
    ensures var t := PlainTurn(p, args, sym); t.Next? ==> Fits(t.parser) && Filling(t.parser)
  {
    var comm := p.commands[p.curr];
    var k := SubFrom(p.commands, p.curr, args[0], 0);
    if k < |comm.subcommands| {
      assert p.commands[comm.subcommands[k]].parent == Some(p.curr);
    } else if p.positionalCount < |comm.positionals| {
      var q := WithWord(p, args[0]);
      WordFills(comm.positionals, p.positionalCount, args[0]);
      forall c | 0 <= c < |q.commands| ensures FilledInOrder(q.commands[c]) {
        if c == p.curr {
          assert FilledTo(q.commands[c].positionals, q.positionalCount);
        } else {
          assert FilledInOrder(p.commands[c]);
          assert q.commands[c] == p.commands[c];
        }
      }
    }
  }

  lemma WordFills(ps: seq<Positional>, n: nat, word: string)
    requires n < |ps| && FilledTo(ps, n)
    ensures var pos := Filled(ps[n], word);
            FilledTo(ps[n := pos], if |pos.storage| == pos.maxWords then n + 1 else n)
  {
  }

  lemma TurnFillsInOrder(p: Parser, args: seq<string>, sym: nat, t: Turn)
    requires Fits(p) && args != [] && SymFits(args, sym) && Filling(p) && t == TurnOf(p, args, sym) && t.Next?
    ensures Filling(t.parser)
  {
    if IsLong(args[0]) {
      LongTurnFlagsOnly(p, args, sym);
      SamePositionalsFill(p, t.parser);
    } else if IsShort(args[0]) {
      ShortTurnFlagsOnly(p, args, sym);
      SamePositionalsFill(p, t.parser);
    } else {
      PlainTurnFills(p, args, sym);
    }
  }

  /** Every turn, and so every run, fills the positionals of a command in order: each is
      full before the next gets a word. */
  lemma {:induction false} RunFillsInOrder(p: Parser, args: seq<string>, sym: nat)
    requires Fits(p) && SymFits(args, sym) && Filling(p)
    ensures forall c :: 0 <= c < |Run(p, args, sym).commands| ==> FilledInOrder(Run(p, args, sym).commands[c])
    decreases |args|, if args == [] then 0 else |args[0]| - sym
  {
    if args == [] {
    } else {
      var t := TurnOf(p, args, sym);
      RunGoesOn(p, args, sym, t);
      if t.Next? {
        TurnFillsInOrder(p, args, sym, t);
        RunFillsInOrder(t.parser, args[t.used..], t.sym);
      }
    }
  }

  /** A first parse, whatever the arguments and whether it succeeds or not, leaves the
      positionals of every command filled in order. */
  lemma FirstParseFillsInOrder(commands: seq<Command>, args: seq<string>, c: nat)
    requires Tree(commands) && c < |Run(Parser(commands, 0, 0), args, 1).commands|
    requires forall d, k :: 0 <= d < |commands| && 0 <= k < |commands[d].positionals| ==>
        commands[d].positionals[k].storage == []
    ensures FilledInOrder(Run(Parser(commands, 0, 0), args, 1).commands[c])
  {
    forall d | 0 <= d < |commands| ensures FilledTo(commands[d].positionals, 0) && FilledInOrder(commands[d]) {
      assert FilledTo(commands[d].positionals, 0);
    }
    RunFillsInOrder(Parser(commands, 0, 0), args, 1);
  }
}
