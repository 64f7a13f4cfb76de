/** The parser of user/sh.c over the characters of a command line: tokens, the mutually recursive parse
    functions with their cursor, and the in-place termination of the words. */
module Shell {
  import opened Common
  import opened ShellGrammar

  predicate IsWhite(c: char) { c == ' ' || c == '\t' || c == '\r' || c == '\n' || c == '\U{0B}' }

  predicate IsSymbol(c: char) { c == '<' || c == '|' || c == '>' || c == '&' || c == ';' || c == '(' || c == ')' }

  predicate Delimits(c: char) { IsWhite(c) || IsSymbol(c) }

  // ----- tokens -----

  function SkipWhite(s: string, i: nat): (j: nat)
    requires i <= |s|
    ensures i <= j <= |s| && (j < |s| ==> !IsWhite(s[j]))
    decreases |s| - i
  {
    if i < |s| && IsWhite(s[i]) then SkipWhite(s, i + 1) else i
  }

  function WordEnd(s: string, i: nat): (j: nat)
    requires i <= |s|
    ensures i <= j <= |s| && (j < |s| ==> Delimits(s[j])) && forall k | i <= k < j :: !Delimits(s[k])
    decreases |s| - i
  {
    if i < |s| && !Delimits(s[i]) then WordEnd(s, i + 1) else i
  }

  /** The token at a character that is not white space, and where it ends. */
  function TokenAt(s: string, i: nat): (r: (Token, nat))
    requires i < |s| && !IsWhite(s[i])
    ensures i < r.1 <= |s|
  {
    match s[i]
    case '|' => (Bar, i + 1)
    case '(' => (Open, i + 1)
    case ')' => (Close, i + 1)
    case ';' => (Semi, i + 1)
    case '&' => (Amp, i + 1)
    case '<' => (Less, i + 1)
    case '>' => if i + 1 < |s| && s[i + 1] == '>' then (Append, i + 2) else (Greater, i + 1)
    case _ => (Text(Word(i, WordEnd(s, i))), WordEnd(s, i))
  }

  /** The tokens of a line from position `i` on. */
  function Lex(s: string, i: nat): seq<Token>
    requires i <= |s|
    decreases |s| - i
  {
    var j := SkipWhite(s, i);
    if j == |s| then [] else [TokenAt(s, j).0] + Lex(s, TokenAt(s, j).1)
  }

  lemma SkipIdempotent(s: string, i: nat)
    requires i <= |s|
    ensures SkipWhite(s, SkipWhite(s, i)) == SkipWhite(s, i) && Lex(s, SkipWhite(s, i)) == Lex(s, i)
  {
  }

  /** A word is a run of characters that delimit nothing, up to one that does or to the end of the line. */
  predicate Placed(s: string, w: Word) {
    && w.q < w.eq <= |s| && (forall k | w.q <= k < w.eq :: !Delimits(s[k]))
    && (w.eq < |s| ==> Delimits(s[w.eq]))
  }

  /** The first token, by the character at the cursor. */
  lemma FirstToken(s: string, i: nat)
    requires i <= |s| && SkipWhite(s, i) == i
    ensures i == |s| ==> Lex(s, i) == []
    ensures i < |s| ==> Lex(s, i) != [] && var t := Lex(s, i)[0];
                        && (t == Bar <==> s[i] == '|') && (t == Open <==> s[i] == '(') && (t == Close <==> s[i] == ')')
                        && (t == Semi <==> s[i] == ';') && (t == Amp <==> s[i] == '&')
                        && (IsRedir(t) <==> s[i] == '<' || s[i] == '>')
                        && (t.Text? ==> Placed(s, t.word))
  {
  }

  /** Takes the next token off the line; none at the end. */
  method GetToken(s: string, i: nat) returns (tok: Option<Token>, j: nat)
    requires i <= |s|
    ensures i <= j <= |s| && (tok.Some? ==> i < j)
    ensures if tok.Some? then Lex(s, i) == [tok.value] + Lex(s, j) else Lex(s, i) == Lex(s, j) == []
    ensures tok.Some? && tok.value.Text? ==> Placed(s, tok.value.word)
  {
    j := i;
    while j < |s| && IsWhite(s[j])
      invariant i <= j <= |s| && SkipWhite(s, j) == SkipWhite(s, i)
    {
      j := j + 1;
    }
    var q := j;
    if j == |s| {
      return None, j;
    }
    match s[j] {
      case '|' => tok := Some(Bar); j := j + 1;
      case '(' => tok := Some(Open); j := j + 1;
      case ')' => tok := Some(Close); j := j + 1;
      case ';' => tok := Some(Semi); j := j + 1;
      case '&' => tok := Some(Amp); j := j + 1;
      case '<' => tok := Some(Less); j := j + 1;
      case '>' =>
        tok := Some(Greater);
        j := j + 1;
        if j < |s| && s[j] == '>' {
          tok := Some(Append);
          j := j + 1;
        }
      case _ =>
        while j < |s| && !IsWhite(s[j]) && !IsSymbol(s[j])
          invariant q <= j <= |s| && WordEnd(s, j) == WordEnd(s, q)
        {
          j := j + 1;
        }
        tok := Some(Text(Word(q, j)));
    }
    ghost var end := j;
    assert TokenAt(s, q) == (tok.value, end);
    while j < |s| && IsWhite(s[j])
      invariant end <= j <= |s| && SkipWhite(s, j) == SkipWhite(s, end)
    {
      j := j + 1;
    }
    SkipIdempotent(s, end);
  }

  /** Skips white space, and tells whether one of `toks` comes next. */
  method Peek(s: string, i: nat, toks: string) returns (found: bool, j: nat)
    requires i <= |s|
    ensures i <= j <= |s| && SkipWhite(s, j) == j && Lex(s, j) == Lex(s, i)
    ensures found <==> j < |s| && s[j] in toks
  {
    j := i;
    while j < |s| && IsWhite(s[j])
      invariant i <= j <= |s| && SkipWhite(s, j) == SkipWhite(s, i)
    {
      j := j + 1;
    }
    SkipIdempotent(s, i);
    found := j < |s| && s[j] in toks;
  }

  // ----- the parse functions -----

  /** What a parse function does: return a command, or panic. */
  datatype Outcome = Done(cmd: Cmd) | Panic(error: Error)

  /** The outcome is that of the parser on tokens, and the cursor stands before the tokens it left. */
  ghost predicate Agrees(spec: Result<Cmd>, r: Outcome, rest: seq<Token>) {
    match r
    case Done(cmd) => spec == Ok(cmd, rest)
    case Panic(error) => spec == Err(error)
  }

  /** Every word of the command is one of the line. */
  predicate AllPlaced(s: string, cmd: Cmd) {
    match cmd
    case Exec(argv) => forall k | 0 <= k < |argv| :: Placed(s, argv[k])
    case Redir(sub, file, _, _) => AllPlaced(s, sub) && Placed(s, file)
    case Pipe(left, right) => AllPlaced(s, left) && AllPlaced(s, right)
    case List(left, right) => AllPlaced(s, left) && AllPlaced(s, right)
    case Back(sub) => AllPlaced(s, sub)
  }

  lemma {:induction false} WrapPlaced(s: string, cmd: Cmd, rs: seq<Redirection>)
    requires AllPlaced(s, cmd) && forall k | 0 <= k < |rs| :: Placed(s, rs[k].file)
    ensures AllPlaced(s, Wrap(cmd, rs))
    decreases |rs|
  {
    if rs != [] {
      WrapPlaced(s, cmd, rs[..|rs| - 1]);
    }
  }

  /** One redirection: its operator and a word. */
  method ReadRedir(s: string, i: nat) returns (ok: bool, r: Redirection, j: nat)
    requires i <= |s| && Lex(s, i) != [] && IsRedir(Lex(s, i)[0])
    ensures i < j <= |s|
    ensures if ok then Lex(s, i) == YieldRedir(r) + Lex(s, j) && GoodRedir(r) && Placed(s, r.file)
            else NoFile(Lex(s, i))
  {
    hide Lex, Placed;
    var op, file;
    op, j := GetToken(s, i);
    file, j := GetToken(s, j);
    if file.None? || !file.value.Text? {
      return false, Redirection(Less, Word(0, 0)), j;
    }
    ok, r := true, Redirection(op.value, file.value.word);
    assert [op.value] + ([file.value] + Lex(s, j)) == YieldRedir(r) + Lex(s, j);
  }

  /** The loop of parseredirs(): a run of redirections. */
  method ReadRedirs(s: string, i: nat) returns (ok: bool, rs: seq<Redirection>, j: nat, ghost left: seq<Token>)
    requires i <= |s|
    ensures i <= j <= |s| && RunOf(s, Lex(s, i), rs, left)
    ensures ok ==> left == Lex(s, j) && SkipWhite(s, j) == j && (left == [] || !IsRedir(left[0]))
    ensures !ok ==> NoFile(left)
  {
    hide Lex, Placed, RunOf, YieldRedir, SkipWhite, NoFile;
    rs, left := [], Lex(s, i);
    EmptyRun(s, left);
    var more;
    more, j := Peek(s, i, "<>");
    FirstToken(s, j);
    while more
      invariant i <= j <= |s| && SkipWhite(s, j) == j && left == Lex(s, j) && RunOf(s, Lex(s, i), rs, left)
      invariant more <==> left != [] && IsRedir(left[0])
      decreases |s| - j
    {
      var r;
      ok, r, j := ReadRedir(s, j);
      if !ok {
        return;
      }
      LongerRun(s, Lex(s, i), rs, r, Lex(s, j));
      rs := rs + [r];
      more, j := Peek(s, j, "<>");
      FirstToken(s, j);
      left := Lex(s, j);
    }
    ok := true;
  }

  /** The tokens begin with the redirections `rs`, whose files are words of the line; `left` is the rest. */
  ghost predicate RunOf(s: string, toks: seq<Token>, rs: seq<Redirection>, left: seq<Token>) {
    toks == YieldRedirs(rs) + left && forall k | 0 <= k < |rs| :: GoodRedir(rs[k]) && Placed(s, rs[k].file)
  }

  lemma EmptyRun(s: string, toks: seq<Token>)
    ensures RunOf(s, toks, [], toks)
  {
    assert [] + toks == toks;
  }

  lemma LongerRun(s: string, toks: seq<Token>, rs: seq<Redirection>, r: Redirection, left: seq<Token>)
    requires RunOf(s, toks, rs, YieldRedir(r) + left) && GoodRedir(r) && Placed(s, r.file)
    ensures RunOf(s, toks, rs + [r], left)
  {
    hide YieldRedirs, YieldRedir, Placed, GoodRedir;
    YieldMore(rs, r);
    assert YieldRedirs(rs) + (YieldRedir(r) + left) == YieldRedirs(rs) + YieldRedir(r) + left;
  }

  method ReadBlock(s: string, i: nat) returns (r: Outcome, j: nat)
    requires i < |s| && SkipWhite(s, i) == i && s[i] == '('
    ensures i < j <= |s| && Lex(s, i) != [] && Lex(s, i)[0] == Open && Agrees(ParseBlock(Lex(s, i)), r, Lex(s, j))
    ensures r.Done? ==> AllPlaced(s, r.cmd)
    decreases |s| - i, 0
  {
    hide Lex, SkipWhite, AllPlaced, Wrap, YieldRedirs, ParseLine, ParseRedirs, NoFile;
    FirstToken(s, i);
    var tok;
    tok, j := GetToken(s, i);
    assert Lex(s, i)[1..] == Lex(s, j);
    r, j := ReadLine(s, j);
    if r.Panic? {
      return;
    }
    var close;
    close, j := Peek(s, j, ")");
    FirstToken(s, j);
    if !close {
      return Panic(MissingClose), j;
    }
    ghost var rest := Lex(s, j);
    tok, j := GetToken(s, j);
    assert rest[1..] == Lex(s, j);
    var ok, rs;
    ghost var left;
    ok, rs, j, left := ReadRedirs(s, j);
    if !ok {
      RedirsFail(r.cmd, rs, left);
      return Panic(MissingFile), j;
    }
    RedirsComplete(r.cmd, rs, left);
    WrapPlaced(s, r.cmd, rs);
    r := Done(Wrap(r.cmd, rs));
  }

  method ReadExec(s: string, i: nat) returns (r: Outcome, j: nat)
    requires i <= |s|
    ensures i <= j <= |s| && Agrees(ParseExec(Lex(s, i)), r, Lex(s, j))
    ensures r.Done? ==> AllPlaced(s, r.cmd)
    decreases |s| - i, 1
  {
    hide Lex, SkipWhite, ParseBlock, ParseItems, AllPlaced;
    var block;
    block, j := Peek(s, i, "(");
    FirstToken(s, j);
    if block {
      r, j := ReadBlock(s, j);
    } else {
      r, j := ReadItems(s, j);
    }
  }

  /** The words and redirections of a simple command. */
  method ReadItems(s: string, i: nat) returns (r: Outcome, j: nat)
    requires i <= |s|
    ensures i <= j <= |s| && Agrees(ParseItems([], [], Lex(s, i)), r, Lex(s, j))
    ensures r.Done? ==> AllPlaced(s, r.cmd)
  {
    hide Lex, SkipWhite, Placed, Wrap, YieldRedirs, ParseItems;
    var argv: seq<Word>, redirs: seq<Redirection> := [], [];
    var ok, rs, stop;
    ghost var left;
    ok, rs, j, left := ReadRedirs(s, i);
    ItemsRedirs([], [], rs, left);
    if !ok {
      ItemsFail([], [] + rs, left);
      return Panic(MissingFile), j;
    }
    redirs := redirs + rs;
    stop, j := Peek(s, j, "|)&;");
    FirstToken(s, j);
    while !stop
      invariant i <= j <= |s| && SkipWhite(s, j) == j && |argv| < MAXARGS
      invariant ParseItems([], [], Lex(s, i)) == ParseItems(argv, redirs, Lex(s, j))
      invariant Lex(s, j) == [] || !IsRedir(Lex(s, j)[0])
      invariant stop <==> Lex(s, j) != [] && Stops(Lex(s, j)[0])
      invariant forall k | 0 <= k < |argv| :: Placed(s, argv[k])
      invariant forall k | 0 <= k < |redirs| :: Placed(s, redirs[k].file)
      decreases |s| - j
    {
      ghost var toks := Lex(s, j);
      var tok;
      tok, j := GetToken(s, j);
      if tok.None? {
        break;
      }
      assert toks[1..] == Lex(s, j);
      ItemsFirst(argv, redirs, toks);
      if !tok.value.Text? {
        return Panic(Syntax), j;
      }
      argv := argv + [tok.value.word];
      if |argv| >= MAXARGS {
        return Panic(TooManyArgs), j;
      }
      ok, rs, j, left := ReadRedirs(s, j);
      ItemsRedirs(argv, redirs, rs, left);
      if !ok {
        ItemsFail(argv, redirs + rs, left);
        return Panic(MissingFile), j;
      }
      redirs := redirs + rs;
      stop, j := Peek(s, j, "|)&;");
      FirstToken(s, j);
    }
    ItemsEnd(argv, redirs, Lex(s, j));
    WrapPlaced(s, Exec(argv), redirs);
    r := Done(Wrap(Exec(argv), redirs));
  }

  lemma ItemsFail(argv: seq<Word>, redirs: seq<Redirection>, toks: seq<Token>)
    requires NoFile(toks)
    ensures ParseItems(argv, redirs, toks) == Err(MissingFile)
  {
  }

  /** One turn of parseexec()'s loop. */
  lemma ItemsFirst(argv: seq<Word>, redirs: seq<Redirection>, toks: seq<Token>)
    requires toks != [] && !Stops(toks[0]) && !IsRedir(toks[0])
    ensures ParseItems(argv, redirs, toks) ==
            if !toks[0].Text? then Err(Syntax)
            else if |argv| + 1 >= MAXARGS then Err(TooManyArgs)
            else ParseItems(argv + [toks[0].word], redirs, toks[1..])
  {
    hide Wrap;
  }

  lemma ItemsEnd(argv: seq<Word>, redirs: seq<Redirection>, toks: seq<Token>)
    requires toks == [] || Stops(toks[0])
    ensures ParseItems(argv, redirs, toks) == Ok(Wrap(Exec(argv), redirs), toks)
  {
  }

  method ReadPipe(s: string, i: nat) returns (r: Outcome, j: nat)
    requires i <= |s|
    ensures i <= j <= |s| && Agrees(ParsePipe(Lex(s, i)), r, Lex(s, j))
    ensures r.Done? ==> AllPlaced(s, r.cmd)
    decreases |s| - i, 2
  {
    hide Lex, SkipWhite, ParseExec;
    r, j := ReadExec(s, i);
    if r.Panic? {
      return;
    }
    var bar;
    bar, j := Peek(s, j, "|");
    FirstToken(s, j);
    if bar {
      ghost var rest := Lex(s, j);
      var tok, right;
      tok, j := GetToken(s, j);
      assert rest[1..] == Lex(s, j);
      right, j := ReadPipe(s, j);
      if right.Panic? {
        return right, j;
      }
      r := Done(Pipe(r.cmd, right.cmd));
    }
  }

  method ReadLine(s: string, i: nat) returns (r: Outcome, j: nat)
    requires i <= |s|
    ensures i <= j <= |s| && Agrees(ParseLine(Lex(s, i)), r, Lex(s, j))
    ensures r.Done? ==> AllPlaced(s, r.cmd)
    decreases |s| - i, 3
  {
    hide Lex, SkipWhite, ParsePipe;
    r, j := ReadPipe(s, i);
    if r.Panic? {
      return;
    }
    ghost var first, after := r.cmd, Lex(s, j);
    var cmd := r.cmd;
    var more, tok;
    more, j := Peek(s, j, "&");
    FirstToken(s, j);
    while more
      invariant i <= j <= |s| && SkipWhite(s, j) == j && AllPlaced(s, cmd)
      invariant ParseBacks(first, after) == ParseBacks(cmd, Lex(s, j))
      invariant more <==> Lex(s, j) != [] && Lex(s, j)[0] == Amp
      decreases |s| - j
    {
      ghost var toks := Lex(s, j);
      tok, j := GetToken(s, j);
      assert toks[1..] == Lex(s, j);
      cmd := Back(cmd);
      more, j := Peek(s, j, "&");
      FirstToken(s, j);
    }
    r := Done(cmd);
    var semi;
    semi, j := Peek(s, j, ";");
    FirstToken(s, j);
    if semi {
      ghost var rest := Lex(s, j);
      tok, j := GetToken(s, j);
      assert rest[1..] == Lex(s, j);
      var right;
      right, j := ReadLine(s, j);
      if right.Panic? {
        return right, j;
      }
      r := Done(List(cmd, right.cmd));
    }
  }

  // ----- termination of the words -----

  /** The positions nulterminate() overwrites: the ends of the words of a command. */
  function Ends(cmd: Cmd): set<nat> {
    match cmd
    case Exec(argv) => set k | 0 <= k < |argv| :: argv[k].eq
    case Redir(sub, file, _, _) => Ends(sub) + {file.eq}
    case Pipe(left, right) => Ends(left) + Ends(right)
    case List(left, right) => Ends(left) + Ends(right)
    case Back(sub) => Ends(sub)
  }

  /** `w` is an argument or a file name in the command. */
  predicate HasWord(cmd: Cmd, w: Word) {
    match cmd
    case Exec(argv) => w in argv
    case Redir(sub, file, _, _) => HasWord(sub, w) || w == file
    case Pipe(left, right) => HasWord(left, w) || HasWord(right, w)
    case List(left, right) => HasWord(left, w) || HasWord(right, w)
    case Back(sub) => HasWord(sub, w)
  }

  lemma PlacedEnds(s: string, cmd: Cmd)
    requires AllPlaced(s, cmd)
    ensures forall e | e in Ends(cmd) :: 0 < e <= |s| && (e < |s| ==> Delimits(s[e]))
    ensures forall w | HasWord(cmd, w) :: Placed(s, w) && w.eq in Ends(cmd)
  {
  }

  /** Puts a NUL at the end of every word, and nowhere else. */
  method Nulterminate(buf: array<char>, cmd: Cmd)
    requires forall e | e in Ends(cmd) :: e < buf.Length
    modifies buf
    ensures forall k | 0 <= k < buf.Length :: buf[k] == if k in Ends(cmd) then '\0' else old(buf[k])
    decreases cmd
  {
    match cmd {
      case Exec(argv) =>
        var i := 0;
        while i < |argv|
          invariant 0 <= i <= |argv|
          invariant forall k | 0 <= k < buf.Length ::
                    buf[k] == if (exists a :: 0 <= a < i && argv[a].eq == k) then '\0' else old(buf[k])
        {
          assert argv[i].eq in Ends(cmd);
          buf[argv[i].eq] := '\0';
          i := i + 1;
        }
      case Redir(sub, file, _, _) =>
        assert Ends(sub) <= Ends(cmd) && file.eq in Ends(cmd);
        Nulterminate(buf, sub);
        buf[file.eq] := '\0';
      case Pipe(left, right) =>
        assert Ends(left) <= Ends(cmd) && Ends(right) <= Ends(cmd);
        Nulterminate(buf, left);
        Nulterminate(buf, right);
      case List(left, right) =>
        assert Ends(left) <= Ends(cmd) && Ends(right) <= Ends(cmd);
        Nulterminate(buf, left);
        Nulterminate(buf, right);
      case Back(sub) =>
        assert Ends(sub) == Ends(cmd);
        Nulterminate(buf, sub);
    }
  }

  /** The string that starts at `q`: up to the first NUL. */
  function CString(buf: seq<char>, q: nat): string
    decreases |buf| - q
  {
    if q >= |buf| || buf[q] == '\0' then "" else [buf[q]] + CString(buf, q + 1)
  }

  lemma {:induction false} CStringIs(buf: seq<char>, q: nat, e: nat)
    requires q <= e < |buf| && buf[e] == '\0' && forall k | q <= k < e :: buf[k] != '\0'
    ensures CString(buf, q) == buf[q..e]
    decreases e - q
  {
    if q < e {
      CStringIs(buf, q + 1, e);
    }
  }

  /** Words end at delimiters, so no word's end lies inside another word: once all are terminated, each
      reads back as it stood in the line. */
  lemma WordsReadBack(s: string, cmd: Cmd, buf: seq<char>, w: Word)
    requires AllPlaced(s, cmd) && |buf| == |s| + 1 && '\0' !in s && HasWord(cmd, w)
    requires forall k | 0 <= k <= |s| :: buf[k] == if k in Ends(cmd) || k == |s| then '\0' else s[k]
    ensures w.q < w.eq <= |s| && CString(buf, w.q) == s[w.q..w.eq]
  {
    PlacedEnds(s, cmd);
    hide AllPlaced, Ends, HasWord, Delimits;
    assert buf[w.q..w.eq] == s[w.q..w.eq];
    CStringIs(buf, w.q, w.eq);
  }

  /** The length of the string in a buffer, as strlen() finds it. */
  method Strlen(buf: array<char>) returns (n: nat)
    requires '\0' in buf[..]
    ensures n < buf.Length && buf[n] == '\0' && '\0' !in buf[..n]
  {
    n := 0;
    while buf[n] != '\0'
      invariant n < buf.Length && forall k | 0 <= k < n :: buf[k] != '\0'
      decreases buf.Length - n
    {
      n := n + 1;
    }
  }

  /** parsecmd(): parses the NUL-terminated line in `buf`. It returns a command exactly when the line is in
      the grammar, and then the one it stands for, with every word terminated where it ends. */
  method Parsecmd(buf: array<char>) returns (r: Outcome, ghost n: nat)
    requires '\0' in buf[..]
    modifies buf
    ensures n < buf.Length && old(buf[n]) == '\0' && '\0' !in old(buf[..n])
    ensures Agrees(ParseCmd(Lex(old(buf[..n]), 0)), r, [])
    ensures r.Done? <==> exists t :: GoodLine(t) && YieldLine(t) == Lex(old(buf[..n]), 0)
    ensures forall w | r.Done? && HasWord(r.cmd, w) ::
              w.q < w.eq <= n && CString(buf[..], w.q) == old(buf[..n])[w.q..w.eq]
  {
    hide Lex, SkipWhite, ParseLine, AllPlaced, Ends, HasWord, CString;
    var len := Strlen(buf);
    n := len;
    var s := buf[..len];
    var j;
    r, j := ReadLine(s, 0);
    var ignore;
    ignore, j := Peek(s, j, "");
    FirstToken(s, j);
    Accepts(Lex(s, 0));
    if r.Done? && j != len {
      r := Panic(Leftovers);
    }
    if r.Done? {
      EndsFit(s, r.cmd);
      Nulterminate(buf, r.cmd);
      forall w | HasWord(r.cmd, w)
        ensures w.q < w.eq <= n && CString(buf[..], w.q) == s[w.q..w.eq]
      {
        WordsReadBack(s, r.cmd, buf[..len + 1], w);
        CStringPrefix(buf[..], len, w.q);
      }
    }
  }

  lemma EndsFit(s: string, cmd: Cmd)
    requires AllPlaced(s, cmd)
    ensures forall e | e in Ends(cmd) :: e <= |s|
  {
    PlacedEnds(s, cmd);
  }

  /** What lies after a NUL does not matter. */
  lemma {:induction false} CStringPrefix(buf: seq<char>, n: nat, q: nat)
    requires q <= n < |buf| && buf[n] == '\0'
    ensures CString(buf, q) == CString(buf[..n + 1], q)
    decreases n - q
  {
    if q < n {
      CStringPrefix(buf, n, q + 1);
    }
  }
}
