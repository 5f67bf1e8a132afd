/** The command-line parser: one loop over the arguments that visits an argument again while
    a second cursor moves through a bundle of short flags. */
module ArgParsers {
  import opened Options

  datatype Status = Success | UnknownFlag | NoValue | PosOverflow | NoRequiredPositional

  /** A flag; the short name NUL and the empty long name stand for none. */
  datatype Flag = Flag(shortName: char, longName: string, hasValue: bool, storage: seq<string>, count: nat)

  datatype Positional = Positional(maxWords: nat, atLeastOne: bool, allRequired: bool, storage: seq<string>)

  /** A command; parent and subcommands are numbers of commands, and the root is number 0. */
  datatype Command = Command(name: string, parent: Option<nat>, subcommands: seq<nat>, flags: seq<Flag>,
      positionals: seq<Positional>)

  /** The state of a run: the commands with what they have stored, the current command and
      its current positional. */
  datatype Parser = Parser(commands: seq<Command>, curr: nat, positionalCount: nat)

  datatype Result = Result(status: Status, commands: seq<Command>)

  // ----- The command tree

  /** Commands are numbered in order of definition, parents before children. */
  ghost predicate Tree(commands: seq<Command>) {
    && |commands| > 0 && commands[0].parent == None
    && (forall c :: 0 < c < |commands| ==> commands[c].parent.Some? && commands[c].parent.value < c)
    && (forall c, k :: 0 <= c < |commands| && 0 <= k < |commands[c].subcommands| ==>
          commands[c].subcommands[k] < |commands| && commands[commands[c].subcommands[k]].parent == Some(c))
  }

  ghost predicate Fits(p: Parser) { Tree(p.commands) && p.curr < |p.commands| }

  /** The two differ in no definition, only in what is stored. */
  ghost predicate SameShape(a: seq<Command>, b: seq<Command>) {
    |a| == |b| && forall c :: 0 <= c < |a| ==>
      && a[c].name == b[c].name && a[c].parent == b[c].parent && a[c].subcommands == b[c].subcommands
      && |a[c].flags| == |b[c].flags| && (forall k :: 0 <= k < |a[c].flags| ==> SameFlag(a[c].flags[k], b[c].flags[k]))
  }

  ghost predicate SameFlag(a: Flag, b: Flag) {
    a.shortName == b.shortName && a.longName == b.longName && a.hasValue == b.hasValue
  }

  lemma SameShapeIsTree(a: seq<Command>, b: seq<Command>)
    requires SameShape(a, b) && Tree(a)
    ensures Tree(b)
  {
  }

  // ----- Comma-separated values

  /** The place of the first comma, or the length. */
  function Comma(text: string): (k: nat)
    ensures k <= |text| && (k < |text| ==> text[k] == ',')
  {
    if text == "" || text[0] == ',' then 0 else 1 + Comma(text[1..])
  }

  ghost predicate Clean(piece: string) { forall i :: 0 <= i < |piece| ==> piece[i] != ',' }

  lemma {:induction false} CommaIsFirst(text: string)
    ensures Clean(text[..Comma(text)])
  {
    if text == "" || text[0] == ',' {
    } else {
      CommaIsFirst(text[1..]);
      forall i | 0 <= i < Comma(text) ensures text[i] != ',' {
        if i > 0 { assert text[1..][..Comma(text[1..])][i - 1] == text[i]; }
      }
    }
  }

  lemma {:induction false} CommaAfter(piece: string, rest: string)
    requires Clean(piece) && (rest == "" || rest[0] == ',')
    ensures Comma(piece + rest) == |piece|
  {
    if piece == "" {
      assert piece + rest == rest;
    } else {
      CommaAfter(piece[1..], rest);
      assert (piece + rest)[1..] == piece[1..] + rest;
    }
  }

  function Pieces(text: string): seq<string> {
    if text == "" then []
    else if Comma(text) == |text| then [text]
    else [text[..Comma(text)]] + Pieces(text[Comma(text) + 1..])
  }

  /** The end of the piece that starts at `start`. */
  function PieceEnd(text: string, start: nat): (end: nat)
    requires start < |text|
    ensures start <= end <= |text|
  {
    start + Comma(text[start..])
  }

  lemma Regroup(a: seq<string>, b: string, c: seq<string>)
    ensures a + ([b] + c) == (a + [b]) + c
  {
  }

  lemma SliceOfTail(text: string, start: nat, end: nat)
    requires start <= end <= |text|
    ensures text[start..][..end - start] == text[start..end]
    ensures end < |text| ==> text[start..][end - start + 1..] == text[end + 1..]
    ensures end == |text| ==> text[start..] == text[start..end]
  {
  }

  /** One round of the splitting loop. */
  lemma PiecesGoOn(all: seq<string>, values: seq<string>, text: string, start: nat, end: nat)
    requires start < |text| && all == values + Pieces(text[start..]) && end == PieceEnd(text, start)
    ensures end < |text| ==> all == (values + [text[start..end]]) + Pieces(text[end + 1..])
    ensures end == |text| ==> all == values + [text[start..end]]
  {
    SliceOfTail(text, start, end);
    if end < |text| { Regroup(values, text[start..end], Pieces(text[end + 1..])); }
  }

  method ParseCommas(value: string) returns (values: seq<string>)
    ensures values == Pieces(value)
  {
    values := [];
    var start := 0;
    ghost var all := Pieces(value);
    assert value[start..] == value;
    while start < |value|
      invariant 0 <= start <= |value|
      invariant if start < |value| then all == values + Pieces(value[start..]) else all == values
    {
      var end := PieceEnd(value, start);
      PiecesGoOn(all, values, value, start, end);
      values := values + [value[start..end]];
      start := if end < |value| then end + 1 else |value|;
    }
  }

  function Join(pieces: seq<string>): string {
    if pieces == [] then "" else if |pieces| == 1 then pieces[0] else pieces[0] + "," + Join(pieces[1..])
  }

  lemma PiecesOfFirst(piece: string, rest: string)
    requires Clean(piece)
    ensures Pieces(piece + "," + rest) == [piece] + Pieces(rest)
  {
    var text := piece + "," + rest;
    CommaAfter(piece, "," + rest);
    assert text == piece + ("," + rest);
    assert text[..|piece|] == piece && text[|piece| + 1..] == rest;
  }

  lemma PiecesOfOnly(piece: string)
    requires Clean(piece)
    ensures Pieces(piece) == if piece == "" then [] else [piece]
  {
    CommaAfter(piece, "");
    assert piece + "" == piece && piece[..|piece|] == piece;
  }

  ghost predicate AllClean(pieces: seq<string>) { forall i :: 0 <= i < |pieces| ==> Clean(pieces[i]) }

  lemma {:induction false} PiecesAreClean(text: string)
    ensures AllClean(Pieces(text))
  {
    if text == "" {
    } else {
      CommaIsFirst(text);
      if Comma(text) < |text| { PiecesAreClean(text[Comma(text) + 1..]); }
    }
  }

  function WithoutLastEmpty(pieces: seq<string>): seq<string> {
    if pieces != [] && pieces[|pieces| - 1] == "" then pieces[..|pieces| - 1] else pieces
  }

  lemma WithoutLastEmptyOfMore(first: string, rest: seq<string>)
    requires rest != []
    ensures WithoutLastEmpty([first] + rest) == [first] + WithoutLastEmpty(rest)
  {
  }

  lemma {:induction false} SplitOfJoin(pieces: seq<string>)
    requires AllClean(pieces)
    ensures Pieces(Join(pieces)) == WithoutLastEmpty(pieces)
  {
    if pieces == [] {
    } else if |pieces| == 1 {
      PiecesOfOnly(pieces[0]);
    } else {
      var first, rest := pieces[0], pieces[1..];
      SplitOfJoin(rest);
      PiecesOfFirst(first, Join(rest));
      WithoutLastEmptyOfMore(first, rest);
      assert pieces == [first] + rest;
    }
  }

  /** Splitting undoes joining exactly for comma-free pieces that do not end in an empty one. */
  lemma SplitUndoesJoinIff(pieces: seq<string>)
    ensures Pieces(Join(pieces)) == pieces <==> AllClean(pieces) && (pieces != [] ==> pieces[|pieces| - 1] != "")
  {
    PiecesAreClean(Join(pieces));
    if AllClean(pieces) { SplitOfJoin(pieces); }
  }

  function WithoutLastComma(text: string): string {
    if text != "" && text[|text| - 1] == ',' then text[..|text| - 1] else text
  }

  lemma JoinOfFirst(piece: string, rest: seq<string>)
    ensures Join([piece] + rest) == if rest == [] then piece else piece + "," + Join(rest)
  {
    assert ([piece] + rest)[1..] == rest;
  }

  lemma LastCommaOfSuffix(piece: string, text: string)
    requires text != ""
    ensures WithoutLastComma(piece + "," + text) == piece + "," + WithoutLastComma(text)
  {
  }

  lemma TextAtComma(text: string, k: nat)
    requires k < |text| && text[k] == ','
    ensures text == text[..k] + "," + text[k + 1..]
  {
  }

  /** Joining undoes splitting, but for one comma at the end, which is lost. */
  lemma {:induction false} JoinUndoesSplit(text: string)
    ensures Join(Pieces(text)) == WithoutLastComma(text)
  {
    if text == "" {
    } else {
      var k := Comma(text);
      var piece := text[..k];
      if k + 1 < |text| {
        var after := text[k + 1..];
        JoinUndoesSplit(after);
        JoinOfFirst(piece, Pieces(after));
        TextAtComma(text, k);
        LastCommaOfSuffix(piece, after);
      } else {
        JoinOfFirst(piece, []);
        assert [piece] + [] == [piece];
        if k == |text| {
          CommaIsFirst(text);
          assert text[..k] == text;
        }
      }
    }
  }

  // ----- One turn of the loop

  predicate IsLong(arg: string) { |arg| >= 3 && arg[0] == '-' && arg[1] == '-' }

  predicate IsShort(arg: string) { !IsLong(arg) && |arg| >= 2 && arg[0] == '-' }

  /** What one turn does: it goes on, having used up some arguments, or it stops the run. */
  datatype Turn = Next(parser: Parser, used: nat, sym: nat) | Stop(status: Status)

  /** The first flag from `k` on whose long name begins the text, or their number. */
  function LongFrom(flags: seq<Flag>, text: string, k: nat): (f: nat)
    requires k <= |flags|
    ensures k <= f <= |flags| && (f < |flags| ==> flags[f].longName != "" && flags[f].longName <= text)
    decreases |flags| - k
  {
    if k == |flags| || (flags[k].longName != "" && flags[k].longName <= text) then k else LongFrom(flags, text, k + 1)
  }

  /** The first flag from `k` on with the given short name, or their number. */
  function ShortFrom(flags: seq<Flag>, c: char, k: nat): (f: nat)
    requires k <= |flags|
    ensures k <= f <= |flags| && (f < |flags| ==> flags[f].shortName != '\0' && flags[f].shortName == c)
    decreases |flags| - k
  {
    if k == |flags| || (flags[k].shortName != '\0' && flags[k].shortName == c) then k else ShortFrom(flags, c, k + 1)
  }

  /** The first subcommand from `k` on with the given name, or their number. */
  function SubFrom(commands: seq<Command>, c: nat, name: string, k: nat): (f: nat)
    requires Tree(commands) && c < |commands| && k <= |commands[c].subcommands|
    ensures k <= f <= |commands[c].subcommands|
    ensures f < |commands[c].subcommands| ==> commands[commands[c].subcommands[f]].name == name
    decreases |commands[c].subcommands| - k
  {
    var subs := commands[c].subcommands;
    if k == |subs| || (commands[subs[k]].parent == Some(c) && commands[subs[k]].name == name) then k
    else SubFrom(commands, c, name, k + 1)
  }

  function Counted(f: Flag): Flag { f.(count := f.count + 1) }

  function Stored(f: Flag, text: string): Flag {
    f.(storage := f.storage + Pieces(text), count := f.count + |Pieces(text)|)
  }

  /** The parser with flag `k` of the current command replaced. */
  function WithFlag(p: Parser, k: nat, f: Flag): (q: Parser)
    requires Fits(p) && k < |p.commands[p.curr].flags| && SameFlag(p.commands[p.curr].flags[k], f)
    ensures Fits(q)
  {
    var comm := p.commands[p.curr];
    p.(commands := p.commands[p.curr := comm.(flags := comm.flags[k := f])])
  }

  function LongTurn(p: Parser, args: seq<string>, sym: nat): Turn
    requires Fits(p) && args != [] && IsLong(args[0])
  {
    var arg, flags := args[0], p.commands[p.curr].flags;
    var k := LongFrom(flags, arg[2..], 0);
    if k == |flags| then Stop(UnknownFlag)
    else if !flags[k].hasValue then Next(WithFlag(p, k, Counted(flags[k])), 1, sym)
    else
      var size := |flags[k].longName|;
      if |arg| >= 4 + size && arg[size + 2] == '=' then Next(WithFlag(p, k, Stored(flags[k], arg[size + 3..])), 1, sym)
      else if |arg| == 2 + size && |args| > 1 then Next(WithFlag(p, k, Stored(flags[k], args[1])), 2, sym)
      else Stop(NoValue)
  }

  function ShortTurn(p: Parser, args: seq<string>, sym: nat): Turn
    requires Fits(p) && args != [] && IsShort(args[0]) && 1 <= sym < |args[0]|
  {
    var arg, flags := args[0], p.commands[p.curr].flags;
    var k := ShortFrom(flags, arg[sym], 0);
    if k == |flags| then Stop(UnknownFlag)
    else if !flags[k].hasValue then
      if sym + 1 < |arg| then Next(WithFlag(p, k, Counted(flags[k])), 0, sym + 1)
      else Next(WithFlag(p, k, Counted(flags[k])), 1, 1)
    else if |arg| >= 3 + sym && arg[sym + 1] == '=' then Next(WithFlag(p, k, Stored(flags[k], arg[sym + 2..])), 1, 1)
    else if |arg| >= 2 + sym then Next(WithFlag(p, k, Stored(flags[k], arg[sym + 1..])), 1, 1)
    else if |args| > 1 then Next(WithFlag(p, k, Stored(flags[k], args[1])), 2, 1)
    else Stop(NoValue)
  }

  function Filled(pos: Positional, word: string): Positional { pos.(storage := pos.storage + [word]) }

  function WithWord(p: Parser, word: string): (q: Parser)
    requires Fits(p) && p.positionalCount < |p.commands[p.curr].positionals|
    ensures Fits(q)
  {
    var comm, n := p.commands[p.curr], p.positionalCount;
    var pos := Filled(comm.positionals[n], word);
    var commands := p.commands[p.curr := comm.(positionals := comm.positionals[n := pos])];
    Parser(commands, p.curr, if |pos.storage| == pos.maxWords then n + 1 else n)
  }

  function PlainTurn(p: Parser, args: seq<string>, sym: nat): Turn
    requires Fits(p) && args != []
  {
    var comm := p.commands[p.curr];
    var k := SubFrom(p.commands, p.curr, args[0], 0);
    if k < |comm.subcommands| then Next(Parser(p.commands, comm.subcommands[k], 0), 1, sym)
    else if p.positionalCount < |comm.positionals| then Next(WithWord(p, args[0]), 1, sym)
    else Stop(PosOverflow)
  }

  /** The second cursor stands at 1, except while a bundle is visited again. */
  predicate SymFits(args: seq<string>, sym: nat) {
    sym == 1 || (args != [] && IsShort(args[0]) && 1 < sym < |args[0]|)
  }

  function TurnOf(p: Parser, args: seq<string>, sym: nat): (t: Turn)
    requires Fits(p) && args != [] && SymFits(args, sym)
    ensures t.Next? ==> Fits(t.parser) && t.used <= |args| && SymFits(args[t.used..], t.sym)
    ensures t.Next? && t.used == 0 ==> t.sym > sym
  {
    if IsLong(args[0]) then LongTurn(p, args, sym)
    else if IsShort(args[0]) then ShortTurn(p, args, sym)
    else PlainTurn(p, args, sym)
  }

  // ----- The end of a run

  predicate Unmet(pos: Positional) {
    (pos.atLeastOne && |pos.storage| < 1) || (pos.allRequired && |pos.storage| != pos.maxWords)
  }

  predicate UnmetIn(comm: Command) { exists k :: 0 <= k < |comm.positionals| && Unmet(comm.positionals[k]) }

  /** A requirement of the command or of one of its ancestors is not met. */
  predicate UnmetUp(commands: seq<Command>, c: nat)
    requires Tree(commands) && c < |commands|
  {
    UnmetIn(commands[c]) || (commands[c].parent.Some? && UnmetUp(commands, commands[c].parent.value))
  }

  /** What the rest of the arguments leads to. The measure is the number of arguments left
      and then the number of symbols left in the bundle. */
  function Run(p: Parser, args: seq<string>, sym: nat): Result
    requires Fits(p) && SymFits(args, sym)
    decreases |args|, if |args| == 0 then 0 else |args[0]| - sym, 1, p
  {
    if |args| == 0 then Result(if UnmetUp(p.commands, p.curr) then NoRequiredPositional else Success, p.commands)
    else RunOn(p, args, sym)
  }

  function RunOn(p: Parser, args: seq<string>, sym: nat): Result
    requires Fits(p) && SymFits(args, sym) && args != []
    decreases |args|, |args[0]| - sym, 0, p
  {
    var t := TurnOf(p, args, sym);
    if t.Stop? then Result(t.status, p.commands) else Run(t.parser, args[t.used..], t.sym)
  }
}
