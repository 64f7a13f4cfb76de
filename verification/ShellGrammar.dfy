/** The command language of user/sh.c over tokens: the parser as functions, the grammar as derivation
    trees, and that the parser accepts exactly the grammar. */
module ShellGrammar {
  import opened Common

  const MAXARGS := 10

  /** A word of the command line, by where it begins and ends in it. */
  datatype Word = Word(q: nat, eq: nat)

  datatype Token = Bar | Open | Close | Semi | Amp | Less | Greater | Append | Text(word: Word)

  datatype Cmd =
    | Exec(argv: seq<Word>)
    | Redir(cmd: Cmd, file: Word, mode: nat, fd: nat)
    | Pipe(left: Cmd, right: Cmd)
    | List(left: Cmd, right: Cmd)
    | Back(cmd: Cmd)

  /** What the parser panics with. */
  datatype Error = MissingFile | MissingClose | TooManyArgs | Syntax | Leftovers

  datatype Result<T> = Ok(value: T, rest: seq<Token>) | Err(error: Error)

  predicate IsRedir(t: Token) { t == Less || t == Greater || t == Append }

  /** The tokens that end a simple command. */
  predicate Stops(t: Token) { t == Bar || t == Close || t == Amp || t == Semi }

  datatype Redirection = Redirection(mode: Token, file: Word)

  /** How the file of a redirection is opened (O_RDONLY, O_WRONLY|O_CREATE|O_TRUNC, O_WRONLY|O_CREATE),
      and as which descriptor. */
  function OpenMode(t: Token): nat { if t == Less then 0 else if t == Greater then 0x601 else 0x201 }

  function OpenFd(t: Token): nat { if t == Less then 0 else 1 }

  function Redirect(cmd: Cmd, r: Redirection): Cmd { Redir(cmd, r.file, OpenMode(r.mode), OpenFd(r.mode)) }

  /** Redirections wrap a command in the order they are written. */
  function Wrap(cmd: Cmd, redirs: seq<Redirection>): Cmd {
    if redirs == [] then cmd
    else Redirect(Wrap(cmd, redirs[..|redirs| - 1]), redirs[|redirs| - 1])
  }

  // ----- the parser -----

  function ParseRedirs(cmd: Cmd, toks: seq<Token>): (r: Result<Cmd>)
    ensures r.Ok? ==> |r.rest| <= |toks|
    decreases |toks|
  {
    if toks == [] || !IsRedir(toks[0]) then Ok(cmd, toks)
    else if |toks| == 1 || !toks[1].Text? then Err(MissingFile)
    else ParseRedirs(Redirect(cmd, Redirection(toks[0], toks[1].word)), toks[2..])
  }

  /** The words and redirections of a simple command, added to those already seen. */
  function ParseItems(argv: seq<Word>, redirs: seq<Redirection>, toks: seq<Token>): (r: Result<Cmd>)
    ensures r.Ok? ==> |r.rest| <= |toks|
    decreases |toks|
  {
    if toks == [] || Stops(toks[0]) then Ok(Wrap(Exec(argv), redirs), toks)
    else if IsRedir(toks[0]) then
      if |toks| == 1 || !toks[1].Text? then Err(MissingFile)
      else ParseItems(argv, redirs + [Redirection(toks[0], toks[1].word)], toks[2..])
    else if toks[0] == Open then Err(Syntax)
    else if |argv| + 1 >= MAXARGS then Err(TooManyArgs)
    else ParseItems(argv + [toks[0].word], redirs, toks[1..])
  }

  function ParseBlock(toks: seq<Token>): (r: Result<Cmd>)
    requires toks != [] && toks[0] == Open
    ensures r.Ok? ==> |r.rest| < |toks|
    decreases |toks|, 0
  {
    var line := ParseLine(toks[1..]);
    if line.Err? then line
    else if line.rest == [] || line.rest[0] != Close then Err(MissingClose)
    else ParseRedirs(line.value, line.rest[1..])
  }

  function ParseExec(toks: seq<Token>): (r: Result<Cmd>)
    ensures r.Ok? ==> |r.rest| <= |toks|
    decreases |toks|, 1
  {
    if toks != [] && toks[0] == Open then ParseBlock(toks) else ParseItems([], [], toks)
  }

  function ParsePipe(toks: seq<Token>): (r: Result<Cmd>)
    ensures r.Ok? ==> |r.rest| <= |toks|
    decreases |toks|, 2
  {
    var left := ParseExec(toks);
    if left.Err? || left.rest == [] || left.rest[0] != Bar then left
    else
      var right := ParsePipe(left.rest[1..]);
      if right.Err? then right else Ok(Pipe(left.value, right.value), right.rest)
  }

  function ParseBacks(cmd: Cmd, toks: seq<Token>): (r: Result<Cmd>)
    ensures r.Ok? && |r.rest| <= |toks|
    decreases |toks|
  {
    if toks == [] || toks[0] != Amp then Ok(cmd, toks) else ParseBacks(Back(cmd), toks[1..])
  }

  function ParseLine(toks: seq<Token>): (r: Result<Cmd>)
    ensures r.Ok? ==> |r.rest| <= |toks|
    decreases |toks|, 3
  {
    var pipe := ParsePipe(toks);
    if pipe.Err? then pipe
    else
      var left := ParseBacks(pipe.value, pipe.rest);
      if left.rest == [] || left.rest[0] != Semi then left
      else
        var right := ParseLine(left.rest[1..]);
        if right.Err? then right else Ok(List(left.value, right.value), right.rest)
  }

  /** The whole line must be used up. */
  function ParseCmd(toks: seq<Token>): Result<Cmd> {
    var line := ParseLine(toks);
    if line.Ok? && line.rest != [] then Err(Leftovers) else line
  }

  // ----- the grammar -----

  /** line: pipe '&'* [';' line];  pipe: command ['|' pipe];  command: item* or '(' line ')' redirection*;
      item: a word or a redirection;  redirection: '<', '>' or '>>', and a word. */
  datatype LineTree = LineTree(pipe: PipeTree, backs: nat, next: Option<LineTree>)
  datatype PipeTree = PipeTree(command: CommandTree, next: Option<PipeTree>)
  datatype CommandTree = Simple(items: seq<Item>) | Block(line: LineTree, redirs: seq<Redirection>)
  datatype Item = Arg(word: Word) | Dir(redir: Redirection)

  predicate GoodRedir(r: Redirection) { IsRedir(r.mode) }

  function YieldRedir(r: Redirection): seq<Token> { [r.mode, Text(r.file)] }

  function YieldRedirs(rs: seq<Redirection>): seq<Token> {
    if rs == [] then [] else YieldRedir(rs[0]) + YieldRedirs(rs[1..])
  }

  function YieldItem(item: Item): seq<Token> { match item case Arg(w) => [Text(w)] case Dir(r) => YieldRedir(r) }

  function YieldItems(items: seq<Item>): seq<Token> {
    if items == [] then []
    else YieldItem(items[0]) + YieldItems(items[1..])
  }

  function Amps(n: nat): seq<Token> { if n == 0 then [] else [Amp] + Amps(n - 1) }

  function YieldCommand(t: CommandTree): seq<Token> {
    match t
    case Simple(items) => YieldItems(items)
    case Block(line, redirs) => [Open] + YieldLine(line) + [Close] + YieldRedirs(redirs)
  }

  function YieldPipe(t: PipeTree): seq<Token> {
    YieldCommand(t.command) + match t.next case None => [] case Some(next) => [Bar] + YieldPipe(next)
  }

  function YieldLine(t: LineTree): seq<Token> {
    YieldPipe(t.pipe) + Amps(t.backs) + match t.next case None => [] case Some(next) => [Semi] + YieldLine(next)
  }

  function Args(items: seq<Item>): seq<Word> {
    if items == [] then [] else (if items[0].Arg? then [items[0].word] else []) + Args(items[1..])
  }

  function Redirs(items: seq<Item>): seq<Redirection> {
    if items == [] then [] else (if items[0].Dir? then [items[0].redir] else []) + Redirs(items[1..])
  }

  function Backs(cmd: Cmd, n: nat): Cmd
    decreases n
  {
    if n == 0 then cmd else Backs(Back(cmd), n - 1)
  }

  /** The command a tree stands for. */
  function CommandOf(t: CommandTree): Cmd {
    match t
    case Simple(items) => Wrap(Exec(Args(items)), Redirs(items))
    case Block(line, redirs) => Wrap(LineOf(line), redirs)
  }

  function PipeOf(t: PipeTree): Cmd {
    match t.next case None => CommandOf(t.command) case Some(next) => Pipe(CommandOf(t.command), PipeOf(next))
  }

  function LineOf(t: LineTree): Cmd {
    var left := Backs(PipeOf(t.pipe), t.backs);
    match t.next case None => left case Some(next) => List(left, LineOf(next))
  }

  /** Redirections are redirections, and no simple command has MAXARGS words. */
  predicate GoodCommand(t: CommandTree) {
    match t
    case Simple(items) => |Args(items)| < MAXARGS &&
                          forall i | 0 <= i < |items| && items[i].Dir? :: GoodRedir(items[i].redir)
    case Block(line, redirs) => GoodLine(line) && forall i | 0 <= i < |redirs| :: GoodRedir(redirs[i])
  }

  predicate GoodPipe(t: PipeTree) {
    GoodCommand(t.command) && match t.next case None => true case Some(next) => GoodPipe(next)
  }

  predicate GoodLine(t: LineTree) {
    GoodPipe(t.pipe) && match t.next case None => true case Some(next) => GoodLine(next)
  }

  // ----- what the parser accepts is in the grammar -----

  lemma {:induction false} WrapFirst(cmd: Cmd, r: Redirection, rs: seq<Redirection>)
    ensures Wrap(Redirect(cmd, r), rs) == Wrap(cmd, [r] + rs)
    decreases |rs|
  {
    if rs == [] {
      assert [r] + rs == [r] && [r][..0] == [];
      assert Wrap(cmd, [r]) == Redirect(Wrap(cmd, []), r);
    } else {
      var n := |rs| - 1;
      WrapFirst(cmd, r, rs[..n]);
      assert ([r] + rs)[..n + 1] == [r] + rs[..n];
    }
  }

  lemma WrapNone(cmd: Cmd)
    ensures Wrap(cmd, []) == cmd
  {
  }

  ghost predicate RedirsAre(cmd: Cmd, toks: seq<Token>, r: Result<Cmd>, rs: seq<Redirection>) {
    && r.Ok? && toks == YieldRedirs(rs) + r.rest && r.value == Wrap(cmd, rs)
    && (forall i | 0 <= i < |rs| :: GoodRedir(rs[i])) && (r.rest == [] || !IsRedir(r.rest[0]))
  }

  lemma RedirsAreCons(cmd: Cmd, first: Redirection, toks: seq<Token>, r: Result<Cmd>, more: seq<Redirection>)
    requires RedirsAre(Redirect(cmd, first), toks, r, more) && GoodRedir(first)
    ensures RedirsAre(cmd, YieldRedir(first) + toks, r, [first] + more)
  {
    hide Wrap, YieldRedir, GoodRedir, Redirect;
    WrapFirst(cmd, first, more);
    assert ([first] + more)[1..] == more;
    assert YieldRedir(first) + YieldRedirs(more) + r.rest == YieldRedir(first) + (YieldRedirs(more) + r.rest);
  }

  lemma RedirsAreNil(cmd: Cmd, toks: seq<Token>)
    requires toks == [] || !IsRedir(toks[0])
    ensures RedirsAre(cmd, toks, Ok(cmd, toks), [])
  {
    WrapNone(cmd);
    assert [] + toks == toks;
  }

  lemma {:induction false} RedirsSound(cmd: Cmd, toks: seq<Token>) returns (rs: seq<Redirection>)
    requires ParseRedirs(cmd, toks).Ok?
    ensures RedirsAre(cmd, toks, ParseRedirs(cmd, toks), rs)
    decreases |toks|
  {
    hide RedirsAre, Redirect, YieldRedirs;
    if toks == [] || !IsRedir(toks[0]) {
      rs := [];
      RedirsAreNil(cmd, toks);
    } else {
      var first := Redirection(toks[0], toks[1].word);
      var more := RedirsSound(Redirect(cmd, first), toks[2..]);
      assert toks == YieldRedir(first) + toks[2..];
      RedirsAreCons(cmd, first, toks[2..], ParseRedirs(cmd, toks), more);
      rs := [first] + more;
    }
  }

  lemma ItemsCons(item: Item, more: seq<Item>)
    ensures var items := [item] + more;
            && YieldItems(items) == YieldItem(item) + YieldItems(more)
            && Args(items) == (if item.Arg? then [item.word] else []) + Args(more)
            && Redirs(items) == (if item.Dir? then [item.redir] else []) + Redirs(more)
  {
    assert ([item] + more)[1..] == more;
  }

  lemma ItemsNil()
    ensures YieldItems([]) == [] && Args([]) == [] && Redirs([]) == []
  {
  }

  /** `items` is what the parser made of the tokens it took. */
  ghost predicate ItemsAre(argv: seq<Word>, redirs: seq<Redirection>, toks: seq<Token>, r: Result<Cmd>,
                           items: seq<Item>) {
    && r.Ok? && toks == YieldItems(items) + r.rest
    && r.value == Wrap(Exec(argv + Args(items)), redirs + Redirs(items)) && |argv + Args(items)| < MAXARGS
    && (forall i | 0 <= i < |items| && items[i].Dir? :: GoodRedir(items[i].redir)) && (r.rest == [] || Stops(r.rest[0]))
  }

  lemma ItemsAreCons(argv: seq<Word>, redirs: seq<Redirection>, item: Item, toks: seq<Token>, r: Result<Cmd>,
                     more: seq<Item>)
    requires ItemsAre(argv + (if item.Arg? then [item.word] else []),
             redirs + (if item.Dir? then [item.redir] else []), toks, r, more)
    requires item.Dir? ==> GoodRedir(item.redir)
    ensures ItemsAre(argv, redirs, YieldItem(item) + toks, r, [item] + more)
  {
    hide Wrap, YieldItems, Args, Redirs, YieldItem;
    var a, d := if item.Arg? then [item.word] else [], if item.Dir? then [item.redir] else [];
    ItemsCons(item, more);
    assert YieldItem(item) + YieldItems(more) + r.rest == YieldItem(item) + (YieldItems(more) + r.rest);
    assert argv + (a + Args(more)) == argv + a + Args(more) && redirs + (d + Redirs(more)) == redirs + d + Redirs(more);
  }

  lemma ItemsAreNil(argv: seq<Word>, redirs: seq<Redirection>, toks: seq<Token>)
    requires (toks == [] || Stops(toks[0])) && |argv| < MAXARGS
    ensures ItemsAre(argv, redirs, toks, Ok(Wrap(Exec(argv), redirs), toks), [])
  {
    hide Wrap;
    assert argv + [] == argv && redirs + [] == redirs && [] + toks == toks;
  }

  lemma {:induction false} ItemsSound(argv: seq<Word>, redirs: seq<Redirection>, toks: seq<Token>)
    returns (items: seq<Item>)
    requires ParseItems(argv, redirs, toks).Ok? && |argv| < MAXARGS
    ensures ItemsAre(argv, redirs, toks, ParseItems(argv, redirs, toks), items)
    decreases |toks|
  {
    hide Wrap, ItemsAre, YieldItems;
    var r := ParseItems(argv, redirs, toks);
    if toks == [] || Stops(toks[0]) {
      items := [];
      ItemsAreNil(argv, redirs, toks);
    } else {
      var item := if IsRedir(toks[0]) then Dir(Redirection(toks[0], toks[1].word)) else Arg(toks[0].word);
      var rest := if item.Dir? then toks[2..] else toks[1..];
      assert toks == YieldItem(item) + rest && argv + [] == argv && redirs + [] == redirs;
      var more := ItemsSound(argv + (if item.Arg? then [item.word] else []),
                  redirs + (if item.Dir? then [item.redir] else []), rest);
      items := [item] + more;
      ItemsAreCons(argv, redirs, item, rest, r, more);
    }
  }

  lemma {:induction false} BlockSound(toks: seq<Token>) returns (t: CommandTree)
    requires toks != [] && toks[0] == Open && ParseBlock(toks).Ok?
    ensures var r := ParseBlock(toks); toks == YieldCommand(t) + r.rest && r.value == CommandOf(t) && GoodCommand(t)
    decreases |toks|, 0
  {
    hide Wrap, YieldLine, YieldRedirs, LineOf, GoodLine, ParseRedirs, ParseLine;
    var line := ParseLine(toks[1..]);
    var l := LineSound(toks[1..]);
    var rs := RedirsSound(line.value, line.rest[1..]);
    assert RedirsAre(line.value, line.rest[1..], ParseRedirs(line.value, line.rest[1..]), rs);
    t := Block(l, rs);
    assert toks == [Open] + toks[1..] && line.rest == [Close] + line.rest[1..];
    assert toks == [Open] + YieldLine(l) + [Close] + YieldRedirs(rs) + ParseBlock(toks).rest;
  }

  lemma {:induction false} CommandSound(toks: seq<Token>) returns (t: CommandTree)
    requires ParseExec(toks).Ok?
    ensures var r := ParseExec(toks); toks == YieldCommand(t) + r.rest && r.value == CommandOf(t) && GoodCommand(t)
    decreases |toks|, 1
  {
    hide ParseBlock, ParseItems, Wrap, YieldItems, Args, Redirs;
    if toks != [] && toks[0] == Open {
      t := BlockSound(toks);
    } else {
      var items := ItemsSound([], [], toks);
      t := Simple(items);
      assert ItemsAre([], [], toks, ParseItems([], [], toks), items);
      assert [] + Args(items) == Args(items) && [] + Redirs(items) == Redirs(items);
    }
  }

  lemma {:induction false} PipeSound(toks: seq<Token>) returns (t: PipeTree)
    requires ParsePipe(toks).Ok?
    ensures var r := ParsePipe(toks); toks == YieldPipe(t) + r.rest && r.value == PipeOf(t) && GoodPipe(t)
    decreases |toks|, 2
  {
    hide ParseExec, YieldCommand, CommandOf, GoodCommand;
    var left := ParseExec(toks);
    var c := CommandSound(toks);
    if left.rest == [] || left.rest[0] != Bar {
      t := PipeTree(c, None);
    } else {
      var more := PipeSound(left.rest[1..]);
      t := PipeTree(c, Some(more));
      assert toks == YieldCommand(c) + [Bar] + YieldPipe(more) + ParsePipe(toks).rest;
    }
  }

  lemma {:induction false} BacksSound(cmd: Cmd, toks: seq<Token>) returns (n: nat)
    ensures var r := ParseBacks(cmd, toks); toks == Amps(n) + r.rest && r.value == Backs(cmd, n)
    decreases |toks|
  {
    if toks == [] || toks[0] != Amp {
      n := 0;
    } else {
      var more := BacksSound(Back(cmd), toks[1..]);
      n := more + 1;
      assert toks == [Amp] + toks[1..];
    }
  }

  lemma {:induction false} LineSound(toks: seq<Token>) returns (t: LineTree)
    requires ParseLine(toks).Ok?
    ensures var r := ParseLine(toks); toks == YieldLine(t) + r.rest && r.value == LineOf(t) && GoodLine(t)
    decreases |toks|, 3
  {
    hide ParsePipe, ParseBacks, YieldPipe, Amps, PipeOf, Backs, GoodPipe;
    var pipe := ParsePipe(toks);
    var p := PipeSound(toks);
    var n := BacksSound(pipe.value, pipe.rest);
    var left := ParseBacks(pipe.value, pipe.rest);
    if left.rest == [] || left.rest[0] != Semi {
      t := LineTree(p, n, None);
      assert toks == YieldPipe(p) + Amps(n) + left.rest;
    } else {
      var more := LineSound(left.rest[1..]);
      t := LineTree(p, n, Some(more));
      assert toks == YieldPipe(p) + Amps(n) + [Semi] + YieldLine(more) + ParseLine(toks).rest;
    }
  }

  // ----- what is in the grammar, the parser accepts -----

  lemma {:induction false} RedirsComplete(cmd: Cmd, rs: seq<Redirection>, rest: seq<Token>)
    requires (forall i | 0 <= i < |rs| :: GoodRedir(rs[i])) && (rest == [] || !IsRedir(rest[0]))
    ensures ParseRedirs(cmd, YieldRedirs(rs) + rest) == Ok(Wrap(cmd, rs), rest)
    decreases |rs|
  {
    if rs == [] {
      assert YieldRedirs(rs) + rest == rest;
    } else {
      var toks := YieldRedirs(rs) + rest;
      assert toks[2..] == YieldRedirs(rs[1..]) + rest && toks[0] == rs[0].mode && toks[1] == Text(rs[0].file);
      assert forall i | 0 <= i < |rs[1..]| :: rs[1..][i] == rs[i + 1];
      RedirsComplete(Redirect(cmd, rs[0]), rs[1..], rest);
      WrapFirst(cmd, rs[0], rs[1..]);
      assert [rs[0]] + rs[1..] == rs;
    }
  }

  /** The parser takes one item. */
  lemma ItemsStep(argv: seq<Word>, redirs: seq<Redirection>, item: Item, toks: seq<Token>)
    requires if item.Arg? then |argv| + 1 < MAXARGS else GoodRedir(item.redir)
    ensures ParseItems(argv, redirs, YieldItem(item) + toks) ==
            ParseItems(argv + (if item.Arg? then [item.word] else []),
                redirs + (if item.Dir? then [item.redir] else []), toks)
  {
    hide Wrap;
    var all := YieldItem(item) + toks;
    if item.Arg? {
      assert all[0] == Text(item.word) && all[1..] == toks && redirs + [] == redirs;
    } else {
      assert all[0] == item.redir.mode && all[1] == Text(item.redir.file) && all[2..] == toks && argv + [] == argv;
    }
  }

  lemma {:induction false} ItemsComplete(argv: seq<Word>, redirs: seq<Redirection>, items: seq<Item>, rest: seq<Token>)
    requires |argv| + |Args(items)| < MAXARGS && (rest == [] || Stops(rest[0]))
    requires forall i | 0 <= i < |items| && items[i].Dir? :: GoodRedir(items[i].redir)
    ensures ParseItems(argv, redirs, YieldItems(items) + rest) ==
            Ok(Wrap(Exec(argv + Args(items)), redirs + Redirs(items)), rest)
    decreases |items|
  {
    hide Wrap, YieldItems, Args, Redirs, YieldRedir;
    if items == [] {
      ItemsNil();
      assert [] + rest == rest && argv + [] == argv && redirs + [] == redirs;
    } else {
      hide ParseItems, GoodRedir;
      var item, more := items[0], items[1..];
      assert forall i | 0 <= i < |more| :: more[i] == items[i + 1];
      assert items == [item] + more;
      ItemsCons(item, more);
      var a, r := if item.Arg? then [item.word] else [], if item.Dir? then [item.redir] else [];
      ItemsStep(argv, redirs, item, YieldItems(more) + rest);
      assert YieldItems(items) + rest == YieldItem(item) + (YieldItems(more) + rest);
      ItemsComplete(argv + a, redirs + r, more, rest);
      assert argv + (a + Args(more)) == argv + a + Args(more) &&
             redirs + (r + Redirs(more)) == redirs + r + Redirs(more);
    }
  }

  lemma ItemsStart(items: seq<Item>, rest: seq<Token>)
    requires (rest == [] || Stops(rest[0])) && forall i | 0 <= i < |items| && items[i].Dir? :: GoodRedir(items[i].redir)
    ensures var toks := YieldItems(items) + rest; toks != [] ==> toks[0] != Open
  {
  }

  lemma {:induction false} CommandComplete(t: CommandTree, rest: seq<Token>)
    requires GoodCommand(t) && (rest == [] || Stops(rest[0]))
    ensures ParseExec(YieldCommand(t) + rest) == Ok(CommandOf(t), rest)
    decreases t
  {
    hide Wrap, YieldItems, Args, Redirs, ParseItems, ParseRedirs, ParseLine, YieldLine, LineOf, GoodLine, YieldRedirs;
    var toks := YieldCommand(t) + rest;
    match t {
      case Simple(items) =>
        ItemsComplete([], [], items, rest);
        ItemsStart(items, rest);
        assert [] + Args(items) == Args(items) && [] + Redirs(items) == Redirs(items);
      case Block(line, redirs) =>
        var after := [Close] + YieldRedirs(redirs) + rest;
        assert toks == [Open] + (YieldLine(line) + after) && toks[1..] == YieldLine(line) + after;
        LineComplete(line, after);
        assert after[1..] == YieldRedirs(redirs) + rest;
        RedirsComplete(LineOf(line), redirs, rest);
    }
  }

  lemma {:induction false} PipeComplete(t: PipeTree, rest: seq<Token>)
    requires GoodPipe(t) && (rest == [] || (Stops(rest[0]) && rest[0] != Bar))
    ensures ParsePipe(YieldPipe(t) + rest) == Ok(PipeOf(t), rest)
    decreases t
  {
    hide ParseExec, YieldCommand, CommandOf, GoodCommand;
    match t.next {
      case None =>
        CommandComplete(t.command, rest);
        assert YieldPipe(t) + rest == YieldCommand(t.command) + rest;
      case Some(next) =>
        var after := [Bar] + (YieldPipe(next) + rest);
        CommandComplete(t.command, after);
        assert YieldPipe(t) + rest == YieldCommand(t.command) + after;
        assert after[1..] == YieldPipe(next) + rest;
        PipeComplete(next, rest);
    }
  }

  lemma {:induction false} BacksComplete(cmd: Cmd, n: nat, rest: seq<Token>)
    requires rest == [] || rest[0] != Amp
    ensures ParseBacks(cmd, Amps(n) + rest) == Ok(Backs(cmd, n), rest)
    decreases n
  {
    if n == 0 {
      assert Amps(n) + rest == rest;
    } else {
      assert (Amps(n) + rest)[1..] == Amps(n - 1) + rest;
      BacksComplete(Back(cmd), n - 1, rest);
    }
  }

  lemma {:induction false} LineComplete(t: LineTree, rest: seq<Token>)
    requires GoodLine(t) && (rest == [] || rest[0] == Close)
    ensures ParseLine(YieldLine(t) + rest) == Ok(LineOf(t), rest)
    decreases t
  {
    hide ParsePipe, ParseBacks, YieldPipe, PipeOf, GoodPipe, Backs;
    var tail := (match t.next case None => [] case Some(next) => [Semi] + YieldLine(next)) + rest;
    var after := Amps(t.backs) + tail;
    assert YieldLine(t) + rest == YieldPipe(t.pipe) + after;
    PipeComplete(t.pipe, after);
    BacksComplete(PipeOf(t.pipe), t.backs, tail);
    if t.next.Some? {
      assert tail[1..] == YieldLine(t.next.value) + rest;
      LineComplete(t.next.value, rest);
    }
  }

  // ----- runs of redirections -----

  /** A redirection without a file name. */
  predicate NoFile(toks: seq<Token>) { toks != [] && IsRedir(toks[0]) && (|toks| == 1 || !toks[1].Text?) }

  lemma {:induction false} RedirsFail(cmd: Cmd, rs: seq<Redirection>, toks: seq<Token>)
    requires (forall i | 0 <= i < |rs| :: GoodRedir(rs[i])) && NoFile(toks)
    ensures ParseRedirs(cmd, YieldRedirs(rs) + toks) == Err(MissingFile)
    decreases |rs|
  {
    var all := YieldRedirs(rs) + toks;
    if rs == [] {
      assert all == toks;
    } else {
      assert all[2..] == YieldRedirs(rs[1..]) + toks && all[0] == rs[0].mode && all[1] == Text(rs[0].file);
      assert forall i | 0 <= i < |rs[1..]| :: rs[1..][i] == rs[i + 1];
      RedirsFail(Redirect(cmd, rs[0]), rs[1..], toks);
    }
  }

  /** A simple command takes a run of redirections one by one. */
  lemma {:induction false} ItemsRedirs(argv: seq<Word>, redirs: seq<Redirection>, rs: seq<Redirection>,
                                       toks: seq<Token>)
    requires forall i | 0 <= i < |rs| :: GoodRedir(rs[i])
    ensures ParseItems(argv, redirs, YieldRedirs(rs) + toks) == ParseItems(argv, redirs + rs, toks)
    decreases |rs|
  {
    hide Wrap;
    var all := YieldRedirs(rs) + toks;
    if rs == [] {
      assert all == toks && redirs + rs == redirs;
    } else {
      assert all[2..] == YieldRedirs(rs[1..]) + toks && all[0] == rs[0].mode && all[1] == Text(rs[0].file);
      assert forall i | 0 <= i < |rs[1..]| :: rs[1..][i] == rs[i + 1];
      ItemsRedirs(argv, redirs + [rs[0]], rs[1..], toks);
      assert redirs + [rs[0]] + rs[1..] == redirs + rs;
    }
  }

  lemma {:induction false} YieldMore(rs: seq<Redirection>, r: Redirection)
    ensures YieldRedirs(rs + [r]) == YieldRedirs(rs) + YieldRedir(r)
    decreases |rs|
  {
    if rs == [] {
      assert rs + [r] == [r] && [r][1..] == [];
      assert YieldRedirs([r]) == YieldRedir(r) + YieldRedirs([]);
    } else {
      YieldMore(rs[1..], r);
      assert (rs + [r])[1..] == rs[1..] + [r];
    }
  }

  /** The parser accepts a token sequence, with a command, exactly when a tree of the grammar yields the
      tokens and stands for the command. */
  lemma ParseIff(toks: seq<Token>, cmd: Cmd)
    ensures ParseCmd(toks) == Ok(cmd, []) <==> exists t :: GoodLine(t) && YieldLine(t) == toks && LineOf(t) == cmd
  {
    if ParseCmd(toks) == Ok(cmd, []) {
      var t := LineSound(toks);
      assert GoodLine(t) && YieldLine(t) == toks && LineOf(t) == cmd by { assert YieldLine(t) + [] == YieldLine(t); }
    }
    forall t | GoodLine(t) && YieldLine(t) == toks && LineOf(t) == cmd
      ensures ParseCmd(toks) == Ok(cmd, [])
    {
      LineComplete(t, []);
      assert YieldLine(t) + [] == toks;
    }
  }

  lemma Accepts(toks: seq<Token>)
    ensures ParseCmd(toks).Ok? <==> exists t :: GoodLine(t) && YieldLine(t) == toks
    ensures ParseCmd(toks).Ok? ==> ParseCmd(toks).rest == []
  {
    hide ParseLine;
    if ParseCmd(toks).Ok? {
      ParseIff(toks, ParseCmd(toks).value);
    }
    forall t | GoodLine(t) && YieldLine(t) == toks
      ensures ParseCmd(toks).Ok?
    {
      LineComplete(t, []);
      assert YieldLine(t) + [] == toks;
    }
  }

  /** All trees of a line stand for the same command. */
  lemma Unambiguous(t: LineTree, u: LineTree)
    requires GoodLine(t) && GoodLine(u) && YieldLine(t) == YieldLine(u)
    ensures LineOf(t) == LineOf(u)
  {
    LineComplete(t, []);
    LineComplete(u, []);
  }
}
