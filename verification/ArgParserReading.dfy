/** What the arguments of a command line say, argument by argument and without a state, and that
    the parsing loop stores just that. */
module ArgParserReadings {
  import opened Options
  import opened ArgParsers
  import opened ArgParserTheorems

  // ----- Reading the arguments

  /** What an argument says: a flag without value, a value of a flag, a word of a positional. */
  datatype Event =
    | Switched(command: nat, flag: nat)
    | Given(command: nat, flag: nat, value: string)
    | Word(command: nat, positional: nat, word: string)

  /** What one flag argument says, whether it takes the next argument as its value, and why the
      reading ends with it, if it does. */
  datatype Part = Part(events: seq<Event>, takesNext: bool, failure: Option<Status>)

  /** What all arguments say, why the reading failed, and the command that it came to. */
  datatype Reading = Reading(events: seq<Event>, failure: Option<Status>, command: nat)

  /** The least number that is hit, or `n`. */
  function FirstWhere(n: nat, hit: nat -> bool): (r: nat)
    ensures r <= n && (r < n ==> hit(r)) && forall i :: 0 <= i < r ==> !hit(i)
  {
    if n == 0 then 0
    else
      var r := FirstWhere(n - 1, hit);
      if r < n - 1 || hit(n - 1) then r else n
  }

  predicate HasLong(f: Flag, text: string) { f.longName != "" && f.longName <= text }

  predicate HasShort(f: Flag, c: char) { f.shortName != '\0' && f.shortName == c }

  function FirstLong(flags: seq<Flag>, text: string): (r: nat)
    ensures r <= |flags| && (r < |flags| ==> HasLong(flags[r], text))
    ensures forall i :: 0 <= i < r ==> !HasLong(flags[i], text)
  {
    var hit := (k: nat) => k < |flags| && HasLong(flags[k], text);
    assert forall i :: 0 <= i < |flags| ==> (hit(i) <==> HasLong(flags[i], text));
    FirstWhere(|flags|, hit)
  }

  function FirstShort(flags: seq<Flag>, c: char): (r: nat)
    ensures r <= |flags| && (r < |flags| ==> HasShort(flags[r], c))
    ensures forall i :: 0 <= i < r ==> !HasShort(flags[i], c)
  {
    var hit := (k: nat) => k < |flags| && HasShort(flags[k], c);
    assert forall i :: 0 <= i < |flags| ==> (hit(i) <==> HasShort(flags[i], c));
    FirstWhere(|flags|, hit)
  }

  predicate IsSub(commands: seq<Command>, d: nat, name: string) { d < |commands| && commands[d].name == name }

  function FirstSub(commands: seq<Command>, subs: seq<nat>, name: string): (r: nat)
    ensures r <= |subs| && (r < |subs| ==> IsSub(commands, subs[r], name))
    ensures forall i :: 0 <= i < r ==> !IsSub(commands, subs[i], name)
  {
    var hit := (k: nat) => k < |subs| && IsSub(commands, subs[k], name);
    assert forall i :: 0 <= i < |subs| ==> (hit(i) <==> IsSub(commands, subs[i], name));
    FirstWhere(|subs|, hit)
  }

  /** The value is the next argument. */
  function NextValue(c: nat, k: nat, next: Option<string>): Part {
    match next
    case Some(v) => Part([Given(c, k, v)], true, None)
    case None => Part([], false, Some(NoValue))
  }

  /** A long flag, without its dashes. */
  function ReadLong(c: nat, flags: seq<Flag>, text: string, next: Option<string>): Part {
    var k := FirstLong(flags, text);
    if k == |flags| then Part([], false, Some(UnknownFlag))
    else if !flags[k].hasValue then Part([Switched(c, k)], false, None)
    else if text == flags[k].longName then NextValue(c, k, next)
    else if |text| > |flags[k].longName| + 1 && text[|flags[k].longName|] == '=' then
      Part([Given(c, k, text[|flags[k].longName| + 1..])], false, None)
    else Part([], false, Some(NoValue))
  }

  /** A bundle of short flags, without its dash. A value flag takes what is left of it. */
  function ReadBundle(c: nat, flags: seq<Flag>, symbols: string, next: Option<string>): Part {
    if symbols == "" then Part([], false, None)
    else
      var k, rest := FirstShort(flags, symbols[0]), symbols[1..];
      if k == |flags| then Part([], false, Some(UnknownFlag))
      else if !flags[k].hasValue then
        var more := ReadBundle(c, flags, rest, next);
        more.(events := [Switched(c, k)] + more.events)
      else if rest == "" then NextValue(c, k, next)
      else if |rest| > 1 && rest[0] == '=' then Part([Given(c, k, rest[1..])], false, None)
      else Part([Given(c, k, rest)], false, None)
  }

  /** A positional that has as many words as it may have, or more, takes all the words there are. */
  predicate Endless(pos: Positional) { |pos.storage| >= pos.maxWords }

  function Room(pos: Positional): nat
    requires !Endless(pos)
  {
    pos.maxWords - |pos.storage|
  }

  /** The positional that word number `w` of a command goes to, or their number. */
  function Home(ps: seq<Positional>, w: nat): (n: nat)
    ensures n <= |ps|
  {
    if ps == [] || Endless(ps[0]) || w < Room(ps[0]) then 0 else 1 + Home(ps[1..], w - Room(ps[0]))
  }

  function NextOf(args: seq<string>): Option<string> { if |args| > 1 then Some(args[1]) else None }

  function ReadFlags(commands: seq<Command>, c: nat, args: seq<string>): (part: Part)
    requires c < |commands| && args != [] && "-" <= args[0]
    ensures part.takesNext ==> |args| > 1
  {
    var arg, flags := args[0], commands[c].flags;
    if "--" <= arg && |arg| > 2 then
      LongTakesWhatIsThere(c, flags, arg[2..], NextOf(args));
      ReadLong(c, flags, arg[2..], NextOf(args))
    else
      BundleTakesWhatIsThere(c, flags, arg[1..], NextOf(args));
      ReadBundle(c, flags, arg[1..], NextOf(args))
  }

  lemma LongTakesWhatIsThere(c: nat, flags: seq<Flag>, text: string, next: Option<string>)
    ensures ReadLong(c, flags, text, next).takesNext ==> next.Some?
  {
  }

  lemma {:induction false} BundleTakesWhatIsThere(c: nat, flags: seq<Flag>, symbols: string, next: Option<string>)
    ensures ReadBundle(c, flags, symbols, next).takesNext ==> next.Some?
  {
    if symbols == "" {
    } else {
      BundleTakesWhatIsThere(c, flags, symbols[1..], next);
    }
  }

  predicate IsFlags(arg: string) { "-" <= arg && |arg| > 1 }

  /** What the arguments say in command `c`, which has got `w` words so far. */
  function Read(commands: seq<Command>, c: nat, w: nat, args: seq<string>): Reading
    requires Tree(commands) && c < |commands|
    decreases |args|
  {
    if args == [] then Reading([], None, c)
    else if IsFlags(args[0]) then
      var part := ReadFlags(commands, c, args);
      if part.failure.Some? then Reading(part.events, part.failure, c)
      else
        var more := Read(commands, c, w, args[if part.takesNext then 2 else 1..]);
        more.(events := part.events + more.events)
    else
      var subs, n := commands[c].subcommands, Home(commands[c].positionals, w);
      var k := FirstSub(commands, subs, args[0]);
      if k < |subs| then Read(commands, subs[k], 0, args[1..])
      else if n < |commands[c].positionals| then
        var more := Read(commands, c, w + 1, args[1..]);
        more.(events := [Word(c, n, args[0])] + more.events)
      else Reading([], Some(PosOverflow), c)
  }

  // ----- What has been said of one flag, or of one positional

  function ValuesOf(events: seq<Event>, c: nat, k: nat): seq<string> {
    if events == [] then []
    else
      var e := events[|events| - 1];
      ValuesOf(events[..|events| - 1], c, k) +
      if e.Given? && e.command == c && e.flag == k then Pieces(e.value) else []
  }

  function SwitchesOf(events: seq<Event>, c: nat, k: nat): nat {
    if events == [] then 0
    else SwitchesOf(events[..|events| - 1], c, k) + if events[|events| - 1] == Switched(c, k) then 1 else 0
  }

  function WordsOf(events: seq<Event>, c: nat, n: nat): seq<string> {
    if events == [] then []
    else
      var e := events[|events| - 1];
      WordsOf(events[..|events| - 1], c, n) +
      if e.Word? && e.command == c && e.positional == n then [e.word] else []
  }

  /** The flag has stored the values given to it, and counted them and its other occurrences. */
  ghost predicate FlagHolds(f: Flag, g: Flag, events: seq<Event>, c: nat, k: nat) {
    && SameFlag(f, g) && g.storage == f.storage + ValuesOf(events, c, k)
    && g.count == f.count + |ValuesOf(events, c, k)| + SwitchesOf(events, c, k)
  }

  ghost predicate PositionalHolds(f: Positional, g: Positional, events: seq<Event>, c: nat, n: nat) {
    g == f.(storage := f.storage + WordsOf(events, c, n))
  }

  ghost predicate CommandHolds(f: Command, g: Command, events: seq<Event>, c: nat) {
    && g.name == f.name && g.parent == f.parent && g.subcommands == f.subcommands
    && |g.flags| == |f.flags| && |g.positionals| == |f.positionals|
    && (forall k :: 0 <= k < |f.flags| ==> FlagHolds(f.flags[k], g.flags[k], events, c, k))
    && (forall n :: 0 <= n < |f.positionals| ==> PositionalHolds(f.positionals[n], g.positionals[n], events, c, n))
  }

  /** Beyond what was there the commands hold what the events say, and nothing else. */
  ghost predicate Holds(base: seq<Command>, commands: seq<Command>, events: seq<Event>) {
    |commands| == |base| && forall c :: 0 <= c < |base| ==> CommandHolds(base[c], commands[c], events, c)
  }

  lemma HeldTree(base: seq<Command>, commands: seq<Command>, events: seq<Event>)
    requires Holds(base, commands, events) && Tree(base)
    ensures Tree(commands)
  {
    forall c | 0 <= c < |base| ensures SameNode(base[c], commands[c]) {
      assert CommandHolds(base[c], commands[c], events, c);
    }
    SameNodesAreTree(base, commands);
  }

  predicate SameNode(f: Command, g: Command) {
    g.name == f.name && g.parent == f.parent && g.subcommands == f.subcommands
  }

  lemma SameNodesAreTree(a: seq<Command>, b: seq<Command>)
    requires Tree(a) && |a| == |b| && forall c :: 0 <= c < |a| ==> SameNode(a[c], b[c])
    ensures Tree(b)
  {
    assert SameNode(a[0], b[0]);
    forall c, k | 0 <= c < |b| && 0 <= k < |b[c].subcommands|
      ensures b[c].subcommands[k] < |b| && b[b[c].subcommands[k]].parent == Some(c)
    {
      assert SameNode(a[c], b[c]) && a[c].subcommands[k] < |a|;
      assert SameNode(a[a[c].subcommands[k]], b[a[c].subcommands[k]]);
    }
  }

  lemma NothingSaid(base: seq<Command>)
    ensures Holds(base, base, [])
  {
    forall c | 0 <= c < |base| ensures CommandHolds(base[c], base[c], [], c) {
      assert forall k :: ValuesOf([], c, k) == [] && SwitchesOf([], c, k) == 0 && WordsOf([], c, k) == [];
    }
  }

  lemma OneMoreSaid(events: seq<Event>, e: Event, c: nat, k: nat)
    ensures ValuesOf(events + [e], c, k) ==
            ValuesOf(events, c, k) + if e.Given? && e.command == c && e.flag == k then Pieces(e.value) else []
    ensures SwitchesOf(events + [e], c, k) == SwitchesOf(events, c, k) + if e == Switched(c, k) then 1 else 0
    ensures WordsOf(events + [e], c, k) ==
            WordsOf(events, c, k) + if e.Word? && e.command == c && e.positional == k then [e.word] else []
  {
    assert (events + [e])[..|events|] == events;
  }

  /** An event is held by the commands when its command holds it and no other has changed. */
  lemma HoldsOneMore(base: seq<Command>, commands: seq<Command>, events: seq<Event>, e: Event, g: Command)
    requires Holds(base, commands, events) && e.command < |base|
    requires CommandHolds(base[e.command], g, events + [e], e.command)
    ensures Holds(base, commands[e.command := g], events + [e])
  {
    var after := commands[e.command := g];
    forall c | 0 <= c < |base| ensures CommandHolds(base[c], after[c], events + [e], c) {
      if c != e.command {
        assert CommandHolds(base[c], commands[c], events, c);
        OtherCommandHolds(base[c], commands[c], events, e, c);
      }
    }
  }

  lemma FlagStays(f: Flag, g: Flag, events: seq<Event>, e: Event, c: nat, k: nat)
    requires FlagHolds(f, g, events, c, k) && !(!e.Word? && e.command == c && e.flag == k)
    ensures FlagHolds(f, g, events + [e], c, k)
  {
    OneMoreSaid(events, e, c, k);
  }

  lemma PositionalStays(f: Positional, g: Positional, events: seq<Event>, e: Event, c: nat, n: nat)
    requires PositionalHolds(f, g, events, c, n) && !(e.Word? && e.command == c && e.positional == n)
    ensures PositionalHolds(f, g, events + [e], c, n)
  {
    OneMoreSaid(events, e, c, n);
  }

  lemma OtherCommandHolds(f: Command, g: Command, events: seq<Event>, e: Event, c: nat)
    requires CommandHolds(f, g, events, c) && e.command != c
    ensures CommandHolds(f, g, events + [e], c)
  {
    forall k | 0 <= k < |f.flags| ensures FlagHolds(f.flags[k], g.flags[k], events + [e], c, k) {
      FlagStays(f.flags[k], g.flags[k], events, e, c, k);
    }
    forall n | 0 <= n < |f.positionals|
      ensures PositionalHolds(f.positionals[n], g.positionals[n], events + [e], c, n)
    {
      PositionalStays(f.positionals[n], g.positionals[n], events, e, c, n);
    }
  }

  lemma Appended<T>(a: seq<T>, b: seq<T>, c: seq<T>)
    ensures (a + b) + c == a + (b + c)
  {
  }

  lemma FlagTakes(f: Flag, g: Flag, events: seq<Event>, e: Event, flag: Flag)
    requires !e.Word? && FlagHolds(f, g, events, e.command, e.flag) && SameFlag(g, flag)
    requires flag.storage == g.storage + if e.Given? then Pieces(e.value) else []
    requires flag.count == g.count + if e.Given? then |Pieces(e.value)| else 1
    ensures FlagHolds(f, flag, events + [e], e.command, e.flag)
  {
    OneMoreSaid(events, e, e.command, e.flag);
    Appended(f.storage, ValuesOf(events, e.command, e.flag), if e.Given? then Pieces(e.value) else []);
  }

  /** The command holds an event when the flag has changed as the event says ... */
  lemma FlagChanges(f: Command, g: Command, events: seq<Event>, e: Event, k: nat, flag: Flag)
    requires CommandHolds(f, g, events, e.command) && !e.Word? && e.flag == k < |f.flags|
    requires SameFlag(g.flags[k], flag)
    requires flag.storage == g.flags[k].storage + if e.Given? then Pieces(e.value) else []
    requires flag.count == g.flags[k].count + if e.Given? then |Pieces(e.value)| else 1
    ensures CommandHolds(f, g.(flags := g.flags[k := flag]), events + [e], e.command)
  {
    var c, after := e.command, g.(flags := g.flags[k := flag]);
    FlagTakes(f.flags[k], g.flags[k], events, e, flag);
    forall i | 0 <= i < |f.flags| ensures FlagHolds(f.flags[i], after.flags[i], events + [e], c, i) {
      if i != k { FlagStays(f.flags[i], g.flags[i], events, e, c, i); }
    }
    forall n | 0 <= n < |f.positionals|
      ensures PositionalHolds(f.positionals[n], after.positionals[n], events + [e], c, n)
    {
      PositionalStays(f.positionals[n], g.positionals[n], events, e, c, n);
    }
  }

  lemma PositionalTakes(f: Positional, g: Positional, events: seq<Event>, e: Event)
    requires e.Word? && PositionalHolds(f, g, events, e.command, e.positional)
    ensures PositionalHolds(f, g.(storage := g.storage + [e.word]), events + [e], e.command, e.positional)
  {
    OneMoreSaid(events, e, e.command, e.positional);
    Appended(f.storage, WordsOf(events, e.command, e.positional), [e.word]);
  }

  /** ... or with a positional that has got the word. */
  lemma PositionalChanges(f: Command, g: Command, events: seq<Event>, e: Event, n: nat, pos: Positional)
    requires CommandHolds(f, g, events, e.command) && e.Word? && e.positional == n < |f.positionals|
    requires pos == g.positionals[n].(storage := g.positionals[n].storage + [e.word])
    ensures CommandHolds(f, g.(positionals := g.positionals[n := pos]), events + [e], e.command)
  {
    var c, after := e.command, g.(positionals := g.positionals[n := pos]);
    PositionalTakes(f.positionals[n], g.positionals[n], events, e);
    forall k | 0 <= k < |f.flags| ensures FlagHolds(f.flags[k], after.flags[k], events + [e], c, k) {
      FlagStays(f.flags[k], g.flags[k], events, e, c, k);
    }
    forall i | 0 <= i < |f.positionals|
      ensures PositionalHolds(f.positionals[i], after.positionals[i], events + [e], c, i)
    {
      if i != n { PositionalStays(f.positionals[i], g.positionals[i], events, e, c, i); }
    }
  }

  // ----- The searches of the loop find the first

  lemma {:induction false} LongFromSkips(flags: seq<Flag>, text: string, k: nat)
    requires k <= |flags|
    ensures forall i :: k <= i < LongFrom(flags, text, k) ==> !HasLong(flags[i], text)
    decreases |flags| - k
  {
    if k == |flags| || HasLong(flags[k], text) {
    } else {
      LongFromSkips(flags, text, k + 1);
    }
  }

  lemma {:induction false} ShortFromSkips(flags: seq<Flag>, c: char, k: nat)
    requires k <= |flags|
    ensures forall i :: k <= i < ShortFrom(flags, c, k) ==> !HasShort(flags[i], c)
    decreases |flags| - k
  {
    if k == |flags| || HasShort(flags[k], c) {
    } else {
      ShortFromSkips(flags, c, k + 1);
    }
  }

  lemma {:induction false} SubFromSkips(commands: seq<Command>, c: nat, name: string, k: nat)
    requires Tree(commands) && c < |commands| && k <= |commands[c].subcommands|
    ensures forall i :: k <= i < SubFrom(commands, c, name, k) ==> !IsSub(commands, commands[c].subcommands[i], name)
    decreases |commands[c].subcommands| - k
  {
    var subs := commands[c].subcommands;
    if k == |subs| || commands[subs[k]].name == name {
    } else {
      SubFromSkips(commands, c, name, k + 1);
    }
  }

  /** Both searches see the same names: what is stored does not matter. */
  lemma LongIsFirst(fs: seq<Flag>, gs: seq<Flag>, text: string)
    requires |fs| == |gs| && forall k :: 0 <= k < |fs| ==> SameFlag(fs[k], gs[k])
    ensures LongFrom(gs, text, 0) == FirstLong(fs, text)
  {
    LongFromSkips(gs, text, 0);
    assert forall k :: 0 <= k < |fs| ==> (HasLong(fs[k], text) <==> HasLong(gs[k], text));
  }

  lemma ShortIsFirst(fs: seq<Flag>, gs: seq<Flag>, c: char)
    requires |fs| == |gs| && forall k :: 0 <= k < |fs| ==> SameFlag(fs[k], gs[k])
    ensures ShortFrom(gs, c, 0) == FirstShort(fs, c)
  {
    ShortFromSkips(gs, c, 0);
    assert forall k :: 0 <= k < |fs| ==> (HasShort(fs[k], c) <==> HasShort(gs[k], c));
  }

  lemma SubIsFirst(base: seq<Command>, commands: seq<Command>, c: nat, name: string)
    requires Tree(base) && Tree(commands) && |base| == |commands| && c < |base|
    requires forall d :: 0 <= d < |base| ==> SameNode(base[d], commands[d])
    ensures SubFrom(commands, c, name, 0) == FirstSub(base, base[c].subcommands, name)
  {
    SubFromSkips(commands, c, name, 0);
    assert SameNode(base[c], commands[c]);
    var subs := base[c].subcommands;
    forall k | 0 <= k < |subs| ensures IsSub(base, subs[k], name) <==> IsSub(commands, subs[k], name) {
      assert SameNode(base[subs[k]], commands[subs[k]]);
    }
  }

  // ----- Where the words go

  /** How many of the first `w` words positional `n` takes. */
  function Share(ps: seq<Positional>, n: nat, w: nat): nat
    requires n < |ps|
  {
    if n == 0 then if Endless(ps[0]) || w < Room(ps[0]) then w else Room(ps[0])
    else if Endless(ps[0]) || w <= Room(ps[0]) then 0
    else Share(ps[1..], n - 1, w - Room(ps[0]))
  }

  lemma {:induction false} ShareGoesOn(ps: seq<Positional>, n: nat, w: nat)
    requires n < |ps|
    ensures Share(ps, n, w + 1) == Share(ps, n, w) + if Home(ps, w) == n then 1 else 0
    decreases n
  {
    if n == 0 {
    } else if Endless(ps[0]) || w < Room(ps[0]) {
    } else if w == Room(ps[0]) {
      ShareGoesOn(ps[1..], n - 1, 0);
      NoShare(ps[1..], n - 1);
    } else {
      ShareGoesOn(ps[1..], n - 1, w - Room(ps[0]));
      assert w + 1 - Room(ps[0]) == (w - Room(ps[0])) + 1;
    }
  }

  lemma {:induction false} NoShare(ps: seq<Positional>, n: nat)
    requires n < |ps|
    ensures Share(ps, n, 0) == 0
  {
  }

  /** The next word goes to the same positional, unless that is full now. */
  lemma {:induction false} HomeGoesOn(ps: seq<Positional>, w: nat)
    requires Home(ps, w) < |ps|
    ensures var n := Home(ps, w);
            Home(ps, w + 1) == if |ps[n].storage| + Share(ps, n, w) + 1 == ps[n].maxWords then n + 1 else n
    decreases |ps|
  {
    if Endless(ps[0]) || w < Room(ps[0]) {
    } else {
      HomeGoesOn(ps[1..], w - Room(ps[0]));
      if w == Room(ps[0]) && Home(ps, w) > 0 { NoShare(ps[1..], Home(ps, w) - 1); }
      assert w + 1 - Room(ps[0]) == (w - Room(ps[0])) + 1;
    }
  }

  // ----- The loop and the reading go together

  /** The current command has got `w` words, those below it none. */
  ghost predicate WordsFit(base: seq<Command>, events: seq<Event>, c: nat, positionalCount: nat, w: nat)
    requires c < |base|
  {
    && positionalCount == Home(base[c].positionals, w)
    && (forall n :: 0 <= n < |base[c].positionals| ==> |WordsOf(events, c, n)| == Share(base[c].positionals, n, w))
    && forall d, n :: c < d < |base| && 0 <= n < |base[d].positionals| ==> WordsOf(events, d, n) == []
  }

  /** The parser has stored what was said, and stands where the reading stands. */
  ghost predicate Agrees(base: seq<Command>, events: seq<Event>, p: Parser, w: nat) {
    && Tree(base) && Fits(p) && Holds(base, p.commands, events) && p.curr < |base|
    && WordsFit(base, events, p.curr, p.positionalCount, w)
  }

  lemma AgreeOnFlags(base: seq<Command>, events: seq<Event>, p: Parser, w: nat)
    requires Agrees(base, events, p, w)
    ensures var fs, gs := base[p.curr].flags, p.commands[p.curr].flags;
            |fs| == |gs| && forall k :: 0 <= k < |fs| ==> SameFlag(fs[k], gs[k])
  {
    assert CommandHolds(base[p.curr], p.commands[p.curr], events, p.curr);
    forall k | 0 <= k < |base[p.curr].flags| ensures SameFlag(base[p.curr].flags[k], p.commands[p.curr].flags[k]) {
      assert FlagHolds(base[p.curr].flags[k], p.commands[p.curr].flags[k], events, p.curr, k);
    }
  }

  lemma FlagEventKeepsWords(base: seq<Command>, events: seq<Event>, e: Event, c: nat, positionalCount: nat, w: nat)
    requires c < |base| && WordsFit(base, events, c, positionalCount, w) && !e.Word?
    ensures WordsFit(base, events + [e], c, positionalCount, w)
  {
    forall d: nat, n: nat ensures WordsOf(events + [e], d, n) == WordsOf(events, d, n) { OneMoreSaid(events, e, d, n); }
  }

  /** A flag that changes as the event says. */
  lemma FlagAgrees(base: seq<Command>, events: seq<Event>, p: Parser, w: nat, e: Event, k: nat, flag: Flag)
    requires Agrees(base, events, p, w) && !e.Word? && e.command == p.curr && e.flag == k < |base[p.curr].flags|
    requires k < |p.commands[p.curr].flags| && SameFlag(p.commands[p.curr].flags[k], flag)
    requires flag.storage == p.commands[p.curr].flags[k].storage + if e.Given? then Pieces(e.value) else []
    requires flag.count == p.commands[p.curr].flags[k].count + if e.Given? then |Pieces(e.value)| else 1
    ensures Agrees(base, events + [e], WithFlag(p, k, flag), w)
  {
    var g := p.commands[p.curr];
    assert CommandHolds(base[p.curr], g, events, p.curr);
    FlagChanges(base[p.curr], g, events, e, k, flag);
    HoldsOneMore(base, p.commands, events, e, g.(flags := g.flags[k := flag]));
    FlagEventKeepsWords(base, events, e, p.curr, p.positionalCount, w);
  }

  lemma SwitchAgrees(base: seq<Command>, events: seq<Event>, p: Parser, w: nat, k: nat)
    requires Agrees(base, events, p, w) && k < |p.commands[p.curr].flags|
    ensures Agrees(base, events + [Switched(p.curr, k)], WithFlag(p, k, Counted(p.commands[p.curr].flags[k])), w)
  {
    AgreeOnFlags(base, events, p, w);
    var f := p.commands[p.curr].flags[k];
    assert f.storage + [] == f.storage;
    FlagAgrees(base, events, p, w, Switched(p.curr, k), k, Counted(f));
  }

  lemma ValueAgrees(base: seq<Command>, events: seq<Event>, p: Parser, w: nat, k: nat, v: string)
    requires Agrees(base, events, p, w) && k < |p.commands[p.curr].flags|
    ensures Agrees(base, events + [Given(p.curr, k, v)], WithFlag(p, k, Stored(p.commands[p.curr].flags[k], v)), w)
  {
    AgreeOnFlags(base, events, p, w);
    FlagAgrees(base, events, p, w, Given(p.curr, k, v), k, Stored(p.commands[p.curr].flags[k], v));
  }

  // ----- The loop, turn by turn

  type Runner = (Parser, seq<string>, nat) -> Result

  ghost predicate At(p: Parser, args: seq<string>, sym: nat) { Fits(p) && SymFits(args, sym) }

  /** The end of the run, or a turn and the run from there. */
  ghost function OneTurn(run: Runner, p: Parser, args: seq<string>, sym: nat): Result
    requires At(p, args, sym)
  {
    if args == [] then Result(if UnmetUp(p.commands, p.curr) then NoRequiredPositional else Success, p.commands)
    else
      var t := TurnOf(p, args, sym);
      if t.Stop? then Result(t.status, p.commands) else run(t.parser, args[t.used..], t.sym)
  }

  ghost predicate RunsByTurns(run: Runner) {
    forall p: Parser, args: seq<string>, sym: nat {:trigger At(p, args, sym)} ::
      At(p, args, sym) ==> run(p, args, sym) == OneTurn(run, p, args, sym)
  }

  ghost function TheRun(): Runner {
    (p: Parser, args: seq<string>, sym: nat) => if At(p, args, sym) then Run(p, args, sym) else Result(Success, [])
  }

  lemma TheRunRunsByTurns()
    ensures RunsByTurns(TheRun())
  {
    var run := TheRun();
    forall p: Parser, args: seq<string>, sym: nat | At(p, args, sym)
      ensures run(p, args, sym) == OneTurn(run, p, args, sym)
    {
      if args != [] { RunGoesOn(p, args, sym, TurnOf(p, args, sym)); }
    }
  }

  // ----- One flag argument

  ghost predicate SameFlags(fs: seq<Flag>, gs: seq<Flag>) {
    |fs| == |gs| && forall k :: 0 <= k < |fs| ==> SameFlag(fs[k], gs[k])
  }

  /** The parser after its command has been told of a flag. */
  ghost function Told(p: Parser, e: Event): (q: Parser)
    requires Fits(p)
    ensures Fits(q) && q.curr == p.curr && SameFlags(p.commands[p.curr].flags, q.commands[q.curr].flags)
  {
    var flags := p.commands[p.curr].flags;
    if e.Word? || e.flag >= |flags| then p
    else WithFlag(p, e.flag, if e.Given? then Stored(flags[e.flag], e.value) else Counted(flags[e.flag]))
  }

  lemma ToldAgrees(base: seq<Command>, events: seq<Event>, p: Parser, w: nat, e: Event)
    requires Agrees(base, events, p, w) && !e.Word? && e.command == p.curr && e.flag < |base[p.curr].flags|
    ensures Agrees(base, events + [e], Told(p, e), w)
  {
    AgreeOnFlags(base, events, p, w);
    if e.Given? { ValueAgrees(base, events, p, w, e.flag, e.value); } else { SwitchAgrees(base, events, p, w, e.flag); }
  }

  lemma NothingMore(events: seq<Event>)
    ensures events + [] == events
  {
  }

  /** The run goes on from `q` behind the flag argument, or ends there, as the part says. */
  ghost predicate Follows(run: Runner, p: Parser, args: seq<string>, sym: nat, part: Part, q: Parser)
    requires args != []
  {
    && (part.takesNext ==> |args| > 1)
    && run(p, args, sym) ==
       if part.failure.Some? then Result(part.failure.value, q.commands)
       else run(q, args[if part.takesNext then 2 else 1..], 1)
  }

  /** The parser after what is said at most once. */
  ghost function ToldOnce(p: Parser, events: seq<Event>): (q: Parser)
    requires Fits(p)
  {
    if events == [] then p else Told(p, events[0])
  }

  /** The event is about one of the `n` flags of command `c`. */
  predicate AboutFlag(e: Event, c: nat, n: nat) { !e.Word? && e.command == c && e.flag < n }

  lemma LongRuns(run: Runner, flags: seq<Flag>, p: Parser, args: seq<string>)
    requires RunsByTurns(run) && Fits(p) && SameFlags(flags, p.commands[p.curr].flags) && args != [] && IsLong(args[0])
    ensures var part := ReadLong(p.curr, flags, args[0][2..], NextOf(args));
            && |part.events| <= 1 && (forall e :: e in part.events ==> AboutFlag(e, p.curr, |flags|))
            && Follows(run, p, args, 1, part, ToldOnce(p, part.events))
  {
    assert At(p, args, 1);
    LongTurnSays(flags, p, args);
  }

  /** What the turn does is what the long flag says. */
  lemma LongTurnSays(flags: seq<Flag>, p: Parser, args: seq<string>)
    requires Fits(p) && SameFlags(flags, p.commands[p.curr].flags) && args != [] && IsLong(args[0])
    ensures var part := ReadLong(p.curr, flags, args[0][2..], NextOf(args));
            if part.failure.Some? then part.events == [] && TurnOf(p, args, 1) == Stop(part.failure.value)
            else
              && |part.events| == 1 && AboutFlag(part.events[0], p.curr, |flags|) && (part.takesNext ==> |args| > 1)
              && TurnOf(p, args, 1) == Next(Told(p, part.events[0]), if part.takesNext then 2 else 1, 1)
  {
    var text := args[0][2..];
    LongIsFirst(flags, p.commands[p.curr].flags, text);
    var k := FirstLong(flags, text);
    if k < |flags| {
      var size := |flags[k].longName|;
      assert |text| > size ==> args[0][size + 3..] == text[size + 1..] && args[0][size + 2] == text[size];
    }
  }

  /** A flag with a value, or an unknown one: the bundle ends. */
  lemma BundleEnds(run: Runner, flags: seq<Flag>, p: Parser, args: seq<string>, sym: nat)
    requires RunsByTurns(run) && Fits(p) && SameFlags(flags, p.commands[p.curr].flags)
    requires args != [] && IsShort(args[0]) && 1 <= sym < |args[0]|
    requires var k := FirstShort(flags, args[0][sym]); k < |flags| ==> flags[k].hasValue
    ensures var part := ReadBundle(p.curr, flags, args[0][sym..], NextOf(args));
            && |part.events| <= 1 && (forall e :: e in part.events ==> AboutFlag(e, p.curr, |flags|))
            && Follows(run, p, args, sym, part, ToldOnce(p, part.events))
  {
    ShortIsFirst(flags, p.commands[p.curr].flags, args[0][sym]);
    assert At(p, args, sym);
    BundleValue(args[0], sym);
  }

  /** Where the value of a short flag is cut out of the argument. */
  lemma BundleValue(arg: string, sym: nat)
    requires sym < |arg|
    ensures var symbols := arg[sym..];
            && (|arg| >= 2 + sym ==> symbols[1..] == arg[sym + 1..] && symbols[1] == arg[sym + 1])
            && (|arg| >= 3 + sym ==> symbols[1..][1..] == arg[sym + 2..])
  {
  }

  lemma SwitchPart(c: nat, flags: seq<Flag>, symbols: string, next: Option<string>, k: nat)
    requires symbols != "" && k == FirstShort(flags, symbols[0]) < |flags| && !flags[k].hasValue
    ensures var more := ReadBundle(c, flags, symbols[1..], next);
            ReadBundle(c, flags, symbols, next) == more.(events := [Switched(c, k)] + more.events)
  {
  }

  /** A flag without value: the run goes on inside the bundle, or behind it. */
  lemma SwitchRuns(run: Runner, flags: seq<Flag>, p: Parser, args: seq<string>, sym: nat, k: nat)
    requires RunsByTurns(run) && Fits(p) && SameFlags(flags, p.commands[p.curr].flags)
    requires args != [] && IsShort(args[0]) && 1 <= sym < |args[0]|
    requires k == FirstShort(flags, args[0][sym]) < |flags| && !flags[k].hasValue
    ensures var q := Told(p, Switched(p.curr, k));
            run(p, args, sym) == if sym + 1 < |args[0]| then run(q, args, sym + 1) else run(q, args[1..], 1)
  {
    ShortIsFirst(flags, p.commands[p.curr].flags, args[0][sym]);
    assert At(p, args, sym);
    assert args[0..] == args;
  }

  /** What goes on holding as the command is told of its flags. */
  ghost predicate Keeps(good: (seq<Event>, Parser) -> bool, c: nat, flags: seq<Flag>) {
    && (forall events: seq<Event>, p: Parser ::
          good(events, p) ==> Fits(p) && p.curr == c && SameFlags(flags, p.commands[c].flags))
    && forall events: seq<Event>, p: Parser, e: Event {:trigger good(events, p), Told(p, e)} ::
         good(events, p) && AboutFlag(e, c, |flags|) ==> good(events + [e], Told(p, e))
  }

  lemma {:induction false} BundleRuns(run: Runner, good: (seq<Event>, Parser) -> bool, c: nat, flags: seq<Flag>,
        events: seq<Event>, p: Parser, args: seq<string>, sym: nat)
    returns (q: Parser)
    requires RunsByTurns(run) && Keeps(good, c, flags) && good(events, p)
    requires args != [] && IsShort(args[0]) && 1 <= sym < |args[0]|
    ensures var part := ReadBundle(c, flags, args[0][sym..], NextOf(args));
            good(events + part.events, q) && Follows(run, p, args, sym, part, q)
    decreases |args[0]| - sym
  {
    var symbols := args[0][sym..];
    var k, part := FirstShort(flags, symbols[0]), ReadBundle(c, flags, symbols, NextOf(args));
    if k == |flags| || flags[k].hasValue {
      BundleEnds(run, flags, p, args, sym);
      q := GoodOnce(good, c, flags, events, p, part.events);
    } else {
      var e := Switched(c, k);
      SwitchRuns(run, flags, p, args, sym, k);
      SwitchPart(c, flags, symbols, NextOf(args), k);
      assert symbols[1..] == args[0][sym + 1..];
      var more := ReadBundle(c, flags, symbols[1..], NextOf(args));
      q := Told(p, e);
      if sym + 1 < |args[0]| {
        q := BundleRuns(run, good, c, flags, events + [e], q, args, sym + 1);
      } else {
        NothingMore(events + [e]);
      }
      Appended(events, [e], more.events);
    }
  }

  lemma GoodOnce(good: (seq<Event>, Parser) -> bool, c: nat, flags: seq<Flag>, events: seq<Event>, p: Parser,
        more: seq<Event>)
    returns (q: Parser)
    requires Keeps(good, c, flags) && good(events, p) && |more| <= 1
    requires forall e :: e in more ==> AboutFlag(e, c, |flags|)
    ensures q == ToldOnce(p, more) && good(events + more, q)
  {
    q := ToldOnce(p, more);
    if more == [] { NothingMore(events); } else { assert more == [more[0]]; }
  }

  // ----- Words and subcommands

  lemma WordAgrees(base: seq<Command>, events: seq<Event>, p: Parser, w: nat, word: string)
    requires Agrees(base, events, p, w) && p.positionalCount < |base[p.curr].positionals|
    ensures p.positionalCount < |p.commands[p.curr].positionals|
    ensures Agrees(base, events + [Word(p.curr, p.positionalCount, word)], WithWord(p, word), w + 1)
  {
    WordIsHeld(base, events, p, word);
    HomeGoesOn(base[p.curr].positionals, w);
    WordsGoOn(base, events, p.curr, p.positionalCount, w, word);
  }

  lemma WordIsHeld(base: seq<Command>, events: seq<Event>, p: Parser, word: string)
    requires Fits(p) && Holds(base, p.commands, events) && p.curr < |base|
    requires p.positionalCount < |base[p.curr].positionals|
    ensures var c, n := p.curr, p.positionalCount;
            && n < |p.commands[c].positionals|
            && Holds(base, WithWord(p, word).commands, events + [Word(c, n, word)])
            && PositionalHolds(base[c].positionals[n], p.commands[c].positionals[n], events, c, n)
  {
    var c, n, g := p.curr, p.positionalCount, p.commands[p.curr];
    assert CommandHolds(base[c], g, events, c);
    assert PositionalHolds(base[c].positionals[n], g.positionals[n], events, c, n);
    var pos := Filled(g.positionals[n], word);
    PositionalChanges(base[c], g, events, Word(c, n, word), n, pos);
    HoldsOneMore(base, p.commands, events, Word(c, n, word), g.(positionals := g.positionals[n := pos]));
  }

  lemma WordsGoOn(base: seq<Command>, events: seq<Event>, c: nat, n: nat, w: nat, word: string)
    requires c < |base| && WordsFit(base, events, c, n, w) && n < |base[c].positionals|
    ensures WordsFit(base, events + [Word(c, n, word)], c, Home(base[c].positionals, w + 1), w + 1)
  {
    var e, ps := Word(c, n, word), base[c].positionals;
    forall i | 0 <= i < |ps| ensures |WordsOf(events + [e], c, i)| == Share(ps, i, w + 1) {
      ShareGrows(ps, events, c, n, w, word, i);
    }
    forall d, i | c < d < |base| && 0 <= i < |base[d].positionals| ensures WordsOf(events + [e], d, i) == [] {
      OneMoreSaid(events, e, d, i);
    }
  }

  lemma ShareGrows(ps: seq<Positional>, events: seq<Event>, c: nat, n: nat, w: nat, word: string, i: nat)
    requires n == Home(ps, w) && i < |ps| && |WordsOf(events, c, i)| == Share(ps, i, w)
    ensures |WordsOf(events + [Word(c, n, word)], c, i)| == Share(ps, i, w + 1)
  {
    OneMoreSaid(events, Word(c, n, word), c, i);
    ShareGoesOn(ps, i, w);
  }

  lemma SubAgrees(base: seq<Command>, events: seq<Event>, p: Parser, w: nat, k: nat)
    requires Agrees(base, events, p, w) && k < |base[p.curr].subcommands|
    ensures var d := base[p.curr].subcommands[k]; Agrees(base, events, Parser(p.commands, d, 0), 0)
  {
    var d := base[p.curr].subcommands[k];
    assert base[d].parent == Some(p.curr) && p.curr < d;
    forall n | 0 <= n < |base[d].positionals| ensures |WordsOf(events, d, n)| == Share(base[d].positionals, n, 0) {
      NoShare(base[d].positionals, n);
    }
  }

  lemma AgreeOnNodes(base: seq<Command>, events: seq<Event>, p: Parser, w: nat)
    requires Agrees(base, events, p, w)
    ensures |base| == |p.commands| && forall c :: 0 <= c < |base| ==> SameNode(base[c], p.commands[c])
    ensures |p.commands[p.curr].positionals| == |base[p.curr].positionals|
  {
    forall c | 0 <= c < |base| ensures SameNode(base[c], p.commands[c]) {
      assert CommandHolds(base[c], p.commands[c], events, c);
    }
    assert CommandHolds(base[p.curr], p.commands[p.curr], events, p.curr);
  }

  /** The status a run ends with. */
  function StatusOf(r: Reading, commands: seq<Command>): Status
    requires Tree(commands) && r.command < |commands|
  {
    if r.failure.Some? then r.failure.value
    else if UnmetUp(commands, r.command) then NoRequiredPositional else Success
  }

  /** The result is what was held before, what the reading says, and its status. */
  ghost predicate Confirms(base: seq<Command>, events: seq<Event>, r: Reading, result: Result) {
    && Holds(base, result.commands, events + r.events) && Tree(result.commands)
    && r.command < |result.commands| && result.status == StatusOf(r, result.commands)
  }

  lemma PlainReads(base: seq<Command>, events: seq<Event>, p: Parser, w: nat, args: seq<string>) returns (t: Turn)
    requires Agrees(base, events, p, w) && args != [] && !IsFlags(args[0])
    ensures t == TurnOf(p, args, 1)
    ensures var subs, n := base[p.curr].subcommands, Home(base[p.curr].positionals, w);
            var k := FirstSub(base, subs, args[0]);
            if k < |subs| then
              t == Next(Parser(p.commands, subs[k], 0), 1, 1) && Agrees(base, events, t.parser, 0)
            else if n < |base[p.curr].positionals| then
              t.Next? && t.used == 1 && t.sym == 1 && t.parser.curr == p.curr &&
              Agrees(base, events + [Word(p.curr, n, args[0])], t.parser, w + 1)
            else t == Stop(PosOverflow)
  {
    t := TurnOf(p, args, 1);
    AgreeOnNodes(base, events, p, w);
    SubIsFirst(base, p.commands, p.curr, args[0]);
    var subs, n := base[p.curr].subcommands, Home(base[p.curr].positionals, w);
    var k := FirstSub(base, subs, args[0]);
    if k < |subs| {
      SubAgrees(base, events, p, w, k);
    } else if n < |base[p.curr].positionals| {
      WordAgrees(base, events, p, w, args[0]);
    }
  }

  lemma FlagsRead(run: Runner, base: seq<Command>, events: seq<Event>, p: Parser, w: nat, args: seq<string>)
    returns (q: Parser)
    requires RunsByTurns(run) && Agrees(base, events, p, w) && args != [] && IsFlags(args[0])
    ensures var part := ReadFlags(base, p.curr, args);
            Agrees(base, events + part.events, q, w) && q.curr == p.curr && Follows(run, p, args, 1, part, q)
  {
    var flags := base[p.curr].flags;
    var good := Agreeing(base, p.curr, w);
    AgreementKeeps(base, p.curr, w);
    if IsLong(args[0]) {
      AgreeOnFlags(base, events, p, w);
      LongRuns(run, flags, p, args);
      q := GoodOnce(good, p.curr, flags, events, p, ReadFlags(base, p.curr, args).events);
    } else {
      q := BundleRuns(run, good, p.curr, flags, events, p, args, 1);
    }
  }

  ghost function Agreeing(base: seq<Command>, c: nat, w: nat): (seq<Event>, Parser) -> bool {
    (events: seq<Event>, p: Parser) => Agrees(base, events, p, w) && p.curr == c
  }

  lemma AgreementKeeps(base: seq<Command>, c: nat, w: nat)
    requires c < |base|
    ensures Keeps(Agreeing(base, c, w), c, base[c].flags)
  {
    var good := Agreeing(base, c, w);
    forall events: seq<Event>, p: Parser | good(events, p)
      ensures Fits(p) && p.curr == c && SameFlags(base[c].flags, p.commands[c].flags)
    {
      AgreeOnFlags(base, events, p, w);
    }
    forall events: seq<Event>, p: Parser, e: Event | good(events, p) && AboutFlag(e, c, |base[c].flags|)
      ensures good(events + [e], Told(p, e))
    {
      ToldAgrees(base, events, p, w, e);
    }
  }

  /** The parsing loop does what the reading says, from any point on. */
  lemma {:induction false} RunReads(run: Runner, base: seq<Command>, events: seq<Event>, p: Parser, w: nat,
        args: seq<string>)
    requires RunsByTurns(run) && Agrees(base, events, p, w)
    ensures Confirms(base, events, Read(base, p.curr, w, args), run(p, args, 1))
    decreases |args|, 1
  {
    if args == [] {
      assert At(p, args, 1);
      NothingMore(events);
    } else if IsFlags(args[0]) {
      var part := ReadFlags(base, p.curr, args);
      var q := FlagsRead(run, base, events, p, w, args);
      if part.failure.None? {
        RunReads(run, base, events + part.events, q, w, args[if part.takesNext then 2 else 1..]);
      }
      FlagsConfirm(run, base, events, p, w, args, q);
    } else {
      WordReads(run, base, events, p, w, args);
    }
  }

  /** ... from an argument that is no flag. */
  lemma {:induction false} WordReads(run: Runner, base: seq<Command>, events: seq<Event>, p: Parser, w: nat,
        args: seq<string>)
    requires RunsByTurns(run) && Agrees(base, events, p, w) && args != [] && !IsFlags(args[0])
    ensures Confirms(base, events, Read(base, p.curr, w, args), run(p, args, 1))
    decreases |args|, 0
  {
    var t := PlainReads(base, events, p, w, args);
    assert At(p, args, 1);
    var subs, n := base[p.curr].subcommands, Home(base[p.curr].positionals, w);
    if FirstSub(base, subs, args[0]) < |subs| {
      RunReads(run, base, events, t.parser, 0, args[1..]);
    } else if n < |base[p.curr].positionals| {
      RunReads(run, base, events + [Word(p.curr, n, args[0])], t.parser, w + 1, args[1..]);
      WordConfirms(run, base, events, p, w, args, n);
    } else {
      NothingMore(events);
    }
  }

  lemma FlagsConfirm(run: Runner, base: seq<Command>, events: seq<Event>, p: Parser, w: nat, args: seq<string>,
        q: Parser)
    requires Agrees(base, events, p, w) && args != [] && IsFlags(args[0])
    requires var part := ReadFlags(base, p.curr, args);
             && Agrees(base, events + part.events, q, w) && q.curr == p.curr && Follows(run, p, args, 1, part, q)
             && var rest := args[if part.takesNext then 2 else 1..];
                part.failure.None? ==>
                  Confirms(base, events + part.events, Read(base, p.curr, w, rest), run(q, rest, 1))
    ensures Confirms(base, events, Read(base, p.curr, w, args), run(p, args, 1))
  {
    var part := ReadFlags(base, p.curr, args);
    if part.failure.None? {
      Appended(events, part.events, Read(base, p.curr, w, args[if part.takesNext then 2 else 1..]).events);
    }
  }

  lemma WordConfirms(run: Runner, base: seq<Command>, events: seq<Event>, p: Parser, w: nat, args: seq<string>, n: nat)
    requires Agrees(base, events, p, w) && args != [] && !IsFlags(args[0])
    requires n == Home(base[p.curr].positionals, w) < |base[p.curr].positionals|
    requires FirstSub(base, base[p.curr].subcommands, args[0]) == |base[p.curr].subcommands|
    requires Confirms(base, events + [Word(p.curr, n, args[0])], Read(base, p.curr, w + 1, args[1..]), run(p, args, 1))
    ensures Confirms(base, events, Read(base, p.curr, w, args), run(p, args, 1))
  {
    Appended(events, [Word(p.curr, n, args[0])], Read(base, p.curr, w + 1, args[1..]).events);
  }

  // ----- The requirements

  /** `a` is `c` or above it in the tree: the parents lead from `c` to `a`. */
  ghost predicate LeadsUp(commands: seq<Command>, path: seq<nat>, c: nat, a: nat) {
    && path != [] && path[0] == c && path[|path| - 1] == a && (forall i :: 0 <= i < |path| ==> path[i] < |commands|)
    && forall i :: 0 < i < |path| ==> commands[path[i - 1]].parent == Some(path[i])
  }

  predicate Lacks(pos: Positional) {
    (pos.atLeastOne && pos.storage == []) || (pos.allRequired && |pos.storage| != pos.maxWords)
  }

  /** Some positional of the command or of one above it lacks words. */
  ghost predicate SomethingLacks(commands: seq<Command>, c: nat) {
    exists path: seq<nat>, a: nat :: LeadsUp(commands, path, c, a) && LacksIn(commands, a)
  }

  ghost predicate LacksIn(commands: seq<Command>, a: nat) {
    a < |commands| && exists k :: 0 <= k < |commands[a].positionals| && Lacks(commands[a].positionals[k])
  }

  lemma {:induction false} UnmetUpIff(commands: seq<Command>, c: nat)
    requires Tree(commands) && c < |commands|
    ensures UnmetUp(commands, c) <==> SomethingLacks(commands, c)
  {
    UnmetInIff(commands, c);
    var parent := commands[c].parent;
    if parent.Some? { UnmetUpIff(commands, parent.value); }
    if LacksIn(commands, c) {
      assert LeadsUp(commands, [c], c, c);
    } else if parent.Some? && SomethingLacks(commands, parent.value) {
      var path: seq<nat>, a: nat :| LeadsUp(commands, path, parent.value, a) && LacksIn(commands, a);
      assert LeadsUp(commands, [c] + path, c, a);
    } else if SomethingLacks(commands, c) {
      var path: seq<nat>, a: nat :| LeadsUp(commands, path, c, a) && LacksIn(commands, a);
      assert |path| > 1 ==> commands[path[1 - 1]].parent == Some(path[1]);
      assert LeadsUp(commands, path[1..], parent.value, a);
    }
  }

  lemma UnmetInIff(commands: seq<Command>, c: nat)
    requires c < |commands|
    ensures UnmetIn(commands[c]) <==> LacksIn(commands, c)
  {
    forall k | 0 <= k < |commands[c].positionals|
      ensures Unmet(commands[c].positionals[k]) <==> Lacks(commands[c].positionals[k])
    {
    }
  }

  // ----- The whole parse

  /** The result of parsing the arguments: beyond what the commands held before they hold what
      the arguments say, and the status tells why the reading failed or whether the command it
      came to, or one above it, lacks words. */
  ghost predicate ParsedRight(before: seq<Command>, args: seq<string>, status: Status, after: seq<Command>)
    requires Tree(before)
  {
    var r := Read(before, 0, 0, args);
    && Holds(before, after, r.events) && r.command < |after|
    && status == if r.failure.Some? then r.failure.value
                 else if SomethingLacks(after, r.command) then NoRequiredPositional else Success
  }

  lemma StartAgrees(commands: seq<Command>)
    requires Tree(commands)
    ensures Agrees(commands, [], Parser(commands, 0, 0), 0)
  {
    NothingSaid(commands);
    HomeOfFirst(commands[0].positionals);
    forall n | 0 <= n < |commands[0].positionals|
      ensures |WordsOf([], 0, n)| == Share(commands[0].positionals, n, 0)
    {
      NoShare(commands[0].positionals, n);
    }
  }

  /** The loop with the index that is moved back parses right. */
  lemma ParseReads(commands: seq<Command>, args: seq<string>)
    requires Tree(commands)
    ensures var out := Run(Parser(commands, 0, 0), args, 1); ParsedRight(commands, args, out.status, out.commands)
  {
    var p, r := Parser(commands, 0, 0), Read(commands, 0, 0, args);
    StartAgrees(commands);
    TheRunRunsByTurns();
    RunReads(TheRun(), commands, [], p, 0, args);
    assert At(p, args, 1);
    assert [] + r.events == r.events;
    UnmetUpIff(Run(p, args, 1).commands, r.command);
  }

  lemma HomeOfFirst(ps: seq<Positional>)
    ensures Home(ps, 0) == 0
  {
  }

  /** At the first flag with the short name, which takes a value: a run of `-c v` stores the
      values of `v` behind those that are there, counts them, and changes nothing else. */
  lemma ShortFlagStores(p: Parser, k: nat, v: string)
    requires Fits(p) && k < |p.commands[p.curr].flags| && p.commands[p.curr].flags[k].hasValue
    requires var fs := p.commands[p.curr].flags;
             fs[k].shortName != '\0' && forall i :: 0 <= i < k ==> fs[i].shortName != fs[k].shortName
    ensures var f := p.commands[p.curr].flags[k];
            var out := Run(p, ["-" + [f.shortName], v], 1).commands;
            && |out| == |p.commands| && |out[p.curr].flags| == |p.commands[p.curr].flags|
            && out[p.curr].flags[k] == f.(storage := f.storage + Pieces(v), count := f.count + |Pieces(v)|)
            && out[p.curr].(flags := []) == p.commands[p.curr].(flags := [])
            && (forall i :: 0 <= i < |out[p.curr].flags| && i != k ==>
                  out[p.curr].flags[i] == p.commands[p.curr].flags[i])
            && forall c :: 0 <= c < |out| && c != p.curr ==> out[c] == p.commands[c]
  {
    var fs := p.commands[p.curr].flags;
    FirstOfItsName(fs, k);
    ShortApart(p, fs[k].shortName, v, []);
    RunOfNothing(WithFlag(p, k, Stored(fs[k], v)));
    assert [Dashed([fs[k].shortName]), v] + [] == ["-" + [fs[k].shortName], v];
  }

  lemma FirstOfItsName(fs: seq<Flag>, k: nat)
    requires k < |fs| && fs[k].shortName != '\0' && forall i :: 0 <= i < k ==> fs[i].shortName != fs[k].shortName
    ensures ShortFrom(fs, fs[k].shortName, 0) == k
  {
    ShortIsFirst(fs, fs, fs[k].shortName);
    assert HasShort(fs[k], fs[k].shortName);
  }
}
