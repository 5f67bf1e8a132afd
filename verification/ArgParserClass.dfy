/** The parser as an object: definitions, and the loop over the arguments, proved against
    the turns and runs of `ArgParsers`. */
module ArgParserObjects {
  import opened Options
  import opened ArgParsers
  import opened ArgParserTheorems
  import ArgParserReadings

  /** The arguments from `i` on. */
  function Rest(argv: seq<string>, i: nat): seq<string> { argv[if i < |argv| then i else |argv|..] }

  /** What a visit did: either it stopped with the parser unchanged, or the parser is the
      turn's. `moved` is how far the argument index moves, the loop's own step included. */
  ghost predicate Did(t: Turn, p: Parser, stop: Option<Status>, q: Parser, moved: int, sym: nat) {
    if t.Stop? then stop == Some(t.status) && q == p
    else stop == None && q == t.parser && moved == t.used && sym == t.sym
  }

  method FindLong(flags: seq<Flag>, text: string) returns (k: nat)
    ensures k == LongFrom(flags, text, 0)
  {
    k := 0;
    while k < |flags|
      invariant k <= |flags| && LongFrom(flags, text, 0) == LongFrom(flags, text, k)
    {
      if flags[k].longName != "" {
        if flags[k].longName <= text { return; }
      }
      k := k + 1;
    }
  }

  method FindShort(flags: seq<Flag>, c: char) returns (k: nat)
    ensures k == ShortFrom(flags, c, 0)
  {
    k := 0;
    while k < |flags|
      invariant k <= |flags| && ShortFrom(flags, c, 0) == ShortFrom(flags, c, k)
    {
      if flags[k].shortName != '\0' {
        if flags[k].shortName == c { return; }
      }
      k := k + 1;
    }
  }

  method FindSub(commands: seq<Command>, c: nat, name: string) returns (k: nat)
    requires Tree(commands) && c < |commands|
    ensures k == SubFrom(commands, c, name, 0)
  {
    var subs := commands[c].subcommands;
    k := 0;
    while k < |subs|
      invariant k <= |subs| && SubFrom(commands, c, name, 0) == SubFrom(commands, c, name, k)
    {
      if commands[subs[k]].parent == Some(c) {
        if commands[subs[k]].name == name { return; }
      }
      k := k + 1;
    }
  }

  /** The check at the end: the requirements of the command and of its ancestors. */
  method RequirementsMet(commands: seq<Command>, c: nat) returns (met: bool)
    requires Tree(commands) && c < |commands|
    ensures met <==> !UnmetUp(commands, c)
  {
    var at: Option<nat> := Some(c);
    while at.Some?
      invariant at.Some? ==> at.value < |commands|
      invariant UnmetUp(commands, c) == (at.Some? && UnmetUp(commands, at.value))
      decreases if at.Some? then at.value + 1 else 0
    {
      var ps, k := commands[at.value].positionals, 0;
      while k < |ps|
        invariant 0 <= k <= |ps| && forall j :: 0 <= j < k ==> !Unmet(ps[j])
      {
        if (ps[k].atLeastOne && |ps[k].storage| < 1) || (ps[k].allRequired && |ps[k].storage| != ps[k].maxWords) {
          assert Unmet(ps[k]);
          return false;
        }
        k := k + 1;
      }
      at := commands[at.value].parent;
    }
    return true;
  }

  lemma RestMoves(argv: seq<string>, i: nat, used: nat)
    requires i < |argv| && used <= |Rest(argv, i)|
    ensures Rest(argv, i)[used..] == Rest(argv, i + used)
  {
  }

  lemma TurnInRun(p: Parser, argv: seq<string>, i: nat, sym: nat, t: Turn)
    requires Fits(p) && i < |argv| && SymFits(Rest(argv, i), sym) && t == TurnOf(p, Rest(argv, i), sym)
    ensures t.Stop? ==> Run(p, Rest(argv, i), sym) == Result(t.status, p.commands)
    ensures t.Next? ==> Fits(t.parser) && SymFits(Rest(argv, i + t.used), t.sym) && (t.used == 0 ==> t.sym > sym)
    ensures t.Next? ==> Run(p, Rest(argv, i), sym) == Run(t.parser, Rest(argv, i + t.used), t.sym)
  {
    RunGoesOn(p, Rest(argv, i), sym, t);
    if t.Next? { RestMoves(argv, i, t.used); }
  }

  class ArgParser {
    var commands: seq<Command>

    ghost predicate Valid() reads this { Tree(commands) && Counts(commands) }

    constructor ()
      ensures Valid() && commands == [Command("", None, [], [], [])]
    {
      commands := [Command("", None, [], [], [])];
    }

    /** A new command under the given one, or under the root. */
    method DefineSubcommand(name: string, parentCommand: Option<nat>) returns (c: nat)
      requires Valid() && (parentCommand.Some? ==> parentCommand.value < |commands|)
      modifies this
      ensures Valid() && c == old(|commands|) && |commands| == c + 1
      ensures var parent := if parentCommand.Some? then parentCommand.value else 0;
              commands[c] == Command(name, Some(parent), [], [], []) &&
              commands[parent] == old(commands[parent]).(subcommands := old(commands[parent].subcommands) + [c]) &&
              forall d :: 0 <= d < c && d != parent ==> commands[d] == old(commands[d])
    {
      var parent := if parentCommand.Some? then parentCommand.value else 0;
      c := |commands|;
      var comm := commands[parent];
      commands := commands[parent := comm.(subcommands := comm.subcommands + [c])]
                  + [Command(name, Some(parent), [], [], [])];
    }

    method DefinePositional(maxWords: nat, atLeastOne: bool, allRequired: bool, command: Option<nat>) returns (k: nat)
      requires Valid() && (command.Some? ==> command.value < |commands|)
      modifies this
      ensures Valid()
      ensures var c := if command.Some? then command.value else 0;
              var comm := old(commands[c]);
              k == |comm.positionals| &&
              var pos := Positional(maxWords, atLeastOne, allRequired, []);
              commands == old(commands)[c := comm.(positionals := comm.positionals + [pos])]
    {
      var c := if command.Some? then command.value else 0;
      var comm := commands[c];
      k := |comm.positionals|;
      var pos := Positional(maxWords, atLeastOne, allRequired, []);
      commands := commands[c := comm.(positionals := comm.positionals + [pos])];
    }

    method DefineFlag(shortName: char, longName: string, hasValue: bool, command: Option<nat>) returns (k: nat)
      requires Valid() && (command.Some? ==> command.value < |commands|)
      modifies this
      ensures Valid()
      ensures var c := if command.Some? then command.value else 0;
              var comm := old(commands[c]);
              k == |comm.flags| &&
              commands == old(commands)[c := comm.(flags := comm.flags + [Flag(shortName, longName, hasValue, [], 0)])]
    {
      var c := if command.Some? then command.value else 0;
      var comm := commands[c];
      k := |comm.flags|;
      commands := commands[c := comm.(flags := comm.flags + [Flag(shortName, longName, hasValue, [], 0)])];
    }

    /** Appends the comma-separated values to the flag's storage. */
    method Store(ghost p: Parser, curr: nat, k: nat, text: string)
      requires Fits(p) && p.commands == commands && p.curr == curr && k < |commands[curr].flags|
      modifies this
      ensures commands == WithFlag(p, k, Stored(p.commands[curr].flags[k], text)).commands
    {
      var parsed := ParseCommas(text);
      var comm := commands[curr];
      var flag := comm.flags[k];
      flag := flag.(storage := flag.storage + parsed);
      flag := flag.(count := flag.count + |parsed|);
      commands := commands[curr := comm.(flags := comm.flags[k := flag])];
    }

    method Count(ghost p: Parser, curr: nat, k: nat)
      requires Fits(p) && p.commands == commands && p.curr == curr && k < |commands[curr].flags|
      modifies this
      ensures commands == WithFlag(p, k, Counted(p.commands[curr].flags[k])).commands
    {
      var comm := commands[curr];
      var flag := comm.flags[k];
      commands := commands[curr := comm.(flags := comm.flags[k := flag.(count := flag.count + 1)])];
    }

    /** The visit of a long flag. */
    method VisitLong(ghost p: Parser, argv: seq<string>, i: nat, sym: nat, curr: nat)
      returns (stop: Option<Status>, i': int)
      requires Fits(p) && p.commands == commands && p.curr == curr && i < |argv| && IsLong(argv[i])
      modifies this
      ensures Did(LongTurn(p, Rest(argv, i), sym), p, stop, p.(commands := commands), i' + 1 - i, sym)
    {
      stop, i' := None, i;
      var arg := argv[i];
      var flags := commands[curr].flags;
      var k := FindLong(flags, arg[2..]);
      if k == |flags| { return Some(UnknownFlag), i; }
      var size := |flags[k].longName|;
      if flags[k].hasValue {
        if |arg| >= 4 + size && arg[size + 2] == '=' {
          Store(p, curr, k, arg[size + 3..]);
        } else if |arg| == 2 + size {
          if i + 1 < |argv| {
            Store(p, curr, k, argv[i + 1]);
            i' := i' + 1;
          } else {
            return Some(NoValue), i;
          }
        } else {
          return Some(NoValue), i;
        }
      } else {
        Count(p, curr, k);
      }
    }

    /** The visit of a symbol in a bundle of short flags. */
    method VisitShort(ghost p: Parser, argv: seq<string>, i: nat, sym: nat, curr: nat)
      returns (stop: Option<Status>, i': int, sym': nat)
      requires Fits(p) && p.commands == commands && p.curr == curr && i < |argv| && IsShort(argv[i])
      requires 1 <= sym < |argv[i]|
      modifies this
      ensures Did(ShortTurn(p, Rest(argv, i), sym), p, stop, p.(commands := commands), i' + 1 - i, sym')
    {
      stop, i', sym' := None, i, sym;
      var arg := argv[i];
      var flags := commands[curr].flags;
      var k := FindShort(flags, arg[sym]);
      if k == |flags| { return Some(UnknownFlag), i, sym; }
      if flags[k].hasValue {
        if |arg| >= 3 + sym && arg[sym + 1] == '=' {
          Store(p, curr, k, arg[sym + 2..]);
        } else if |arg| >= 2 + sym {
          Store(p, curr, k, arg[sym + 1..]);
        } else if i + 1 < |argv| {
          Store(p, curr, k, argv[i + 1]);
          i' := i' + 1;
        } else {
          return Some(NoValue), i, sym;
        }
        sym' := 1;
      } else {
        if sym + 1 < |arg| {
          i' := i' - 1;
          sym' := sym' + 1;
        } else {
          sym' := 1;
        }
        Count(p, curr, k);
      }
    }

    /** The visit of a subcommand or a word of a positional. */
    method VisitPlain(ghost p: Parser, argv: seq<string>, i: nat, sym: nat, curr: nat, positionalCount: nat)
      returns (stop: Option<Status>, curr': nat, positionalCount': nat)
      requires Fits(p) && p == Parser(commands, curr, positionalCount) && i < |argv|
      modifies this
      ensures Did(PlainTurn(p, Rest(argv, i), sym), p, stop, Parser(commands, curr', positionalCount'), 1, sym)
    {
      stop, curr', positionalCount' := None, curr, positionalCount;
      var arg := argv[i];
      var comm := commands[curr];
      var k := FindSub(commands, curr, arg);
      if k < |comm.subcommands| {
        curr', positionalCount' := comm.subcommands[k], 0;
      } else if positionalCount < |comm.positionals| {
        var pos := comm.positionals[positionalCount];
        pos := pos.(storage := pos.storage + [arg]);
        commands := commands[curr := comm.(positionals := comm.positionals[positionalCount := pos])];
        if |pos.storage| == pos.maxWords { positionalCount' := positionalCount' + 1; }
      } else {
        stop := Some(PosOverflow);
      }
    }

    /** One visit of an argument. */
    method Visit(ghost p: Parser, argv: seq<string>, i: nat, sym: nat, curr: nat, positionalCount: nat)
      returns (stop: Option<Status>, i': int, sym': nat, curr': nat, positionalCount': nat)
      requires Fits(p) && p == Parser(commands, curr, positionalCount) && i < |argv| && SymFits(Rest(argv, i), sym)
      modifies this
      ensures Did(TurnOf(p, Rest(argv, i), sym), p, stop, Parser(commands, curr', positionalCount'), i' + 1 - i, sym')
    {
      stop, i', sym', curr', positionalCount' := None, i, sym, curr, positionalCount;
      if IsLong(argv[i]) {
        stop, i' := VisitLong(p, argv, i, sym, curr);
      } else if IsShort(argv[i]) {
        stop, i', sym' := VisitShort(p, argv, i, sym, curr);
      } else {
        stop, curr', positionalCount' := VisitPlain(p, argv, i, sym, curr, positionalCount);
      }
    }

    /** A visit leaves the result of the run as it was, and the measure smaller. */
    method VisitInRun(ghost p: Parser, argv: seq<string>, i: nat, sym: nat, curr: nat, positionalCount: nat)
      returns (stop: Option<Status>, i': int, sym': nat, curr': nat, positionalCount': nat)
      requires Fits(p) && p == Parser(commands, curr, positionalCount) && i < |argv| && SymFits(Rest(argv, i), sym)
      modifies this
      ensures stop.Some? ==> Result(stop.value, commands) == Run(p, Rest(argv, i), sym)
      ensures stop.None? ==> i' + 1 > i || (i' + 1 == i && sym' > sym)
      ensures stop.None? ==>
                var q := Parser(commands, curr', positionalCount');
                Fits(q) && SymFits(Rest(argv, i' + 1), sym')
                    && Run(q, Rest(argv, i' + 1), sym') == Run(p, Rest(argv, i), sym)
    {
      TurnInRun(p, argv, i, sym, TurnOf(p, Rest(argv, i), sym));
      stop, i', sym', curr', positionalCount' := Visit(p, argv, i, sym, curr, positionalCount);
    }

    /** After the last argument: whether the requirements are met. */
    method Conclude(ghost p: Parser, argv: seq<string>, i: nat, sym: nat, curr: nat) returns (status: Status)
      requires Fits(p) && p.commands == commands && p.curr == curr && SymFits(Rest(argv, i), sym) && i >= |argv|
      ensures Result(status, commands) == Run(p, Rest(argv, i), sym)
    {
      var met := RequirementsMet(commands, curr);
      return if met then Success else NoRequiredPositional;
    }

    /** The loop: a visit may move the index back so that the argument is visited again. */
    method VisitAll(ghost p: Parser, argv: seq<string>, from: nat, start: nat) returns (status: Status)
      requires Fits(p) && p == Parser(commands, 0, 0) && SymFits(Rest(argv, from), start)
      modifies this
      ensures Result(status, commands) == Run(p, Rest(argv, from), start)
    {
      ghost var result, q := Run(p, Rest(argv, from), start), p;
      var curr, positionalCount, sym, i := 0, 0, start, from;
      while i < |argv|
        invariant Fits(q) && q == Parser(commands, curr, positionalCount) && SymFits(Rest(argv, i), sym)
        invariant Run(q, Rest(argv, i), sym) == result
        decreases |argv| - i, if i < |argv| then |argv[i]| - sym else 0
      {
        var stop: Option<Status>;
        var next: int;
        stop, next, sym, curr, positionalCount := VisitInRun(q, argv, i, sym, curr, positionalCount);
        if stop.Some? { return stop.value; }
        i, q := next + 1, Parser(commands, curr, positionalCount);
      }
      status := Conclude(q, argv, i, sym, curr);
    }

    /** The whole parse: the program's name is passed over. */
    method Parse(argv: seq<string>) returns (status: Status)
      requires Valid()
      modifies this
      ensures Valid() && SameShape(old(commands), commands)
      ensures Result(status, commands) == Run(Parser(old(commands), 0, 0), Rest(argv, 1), 1)
      ensures ArgParserReadings.ParsedRight(old(commands), Rest(argv, 1), status, commands)
    {
      ghost var start := Parser(commands, 0, 0);
      RunKeepsCounts(start, Rest(argv, 1), 1);
      ArgParserReadings.ParseReads(start.commands, Rest(argv, 1));
      status := VisitAll(start, argv, 1, 1);
      SameShapeIsTree(start.commands, commands);
    }
  }
}
