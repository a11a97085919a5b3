/** The shell's grammar, on tokens: the parser accepts exactly the lines that have a
    derivation, and gives the command that the derivation means. */
module ShellGrammar {
  import opened Shell

  // Commands with their words as strings.

  datatype Tree =
    | TExec(words: seq<string>)
    | TRedir(cmd: Tree, file: string, mode: Mode)
    | TPipe(left: Tree, right: Tree)
    | TList(left: Tree, right: Tree)
    | TBack(cmd: Tree)

  datatype Red = Red(mode: Mode, file: string)

  function Slice(s: string, x: Span): string {
    if x.q <= x.eq <= |s| then s[x.q..x.eq] else ""
  }

  /** The words that the spans of a command stand for. */
  function Text(c: Cmd, s: string): Tree {
    match c
    case Exec(argv) => TExec(Slices(s, argv))
    case Redir(d, to) => TRedir(Text(d, s), Slice(s, to.file), to.mode)
    case Pipe(l, r) => TPipe(Text(l, s), Text(r, s))
    case List(l, r) => TList(Text(l, s), Text(r, s))
    case Back(d) => TBack(Text(d, s))
  }

  function Slices(s: string, argv: seq<Span>): (words: seq<string>)
    ensures |words| == |argv|
  {
    seq(|argv|, i requires 0 <= i < |argv| => Slice(s, argv[i]))
  }

  function RedSlices(s: string, reds: seq<Redirect>): (r: seq<Red>)
    ensures |r| == |reds|
  {
    seq(|reds|, i requires 0 <= i < |reds| => Red(reds[i].mode, Slice(s, reds[i].file)))
  }

  function Redirected(t: Tree, reds: seq<Red>): Tree
    decreases |reds|
  {
    if reds == [] then t
    else
      var last := |reds| - 1;
      TRedir(Redirected(t, reds[..last]), reds[last].file, reds[last].mode)
  }

  lemma {:induction false} WrapText(s: string, cmd: Cmd, reds: seq<Redirect>)
    ensures Text(Wrap(cmd, reds), s) == Redirected(Text(cmd, s), RedSlices(s, reds))
    decreases |reds|
  {
    if reds != [] {
      var last := |reds| - 1;
      WrapText(s, cmd, reds[..last]);
      assert RedSlices(s, reds)[..last] == RedSlices(s, reds[..last]);
    }
  }

  // Tokens.

  datatype Tok = Word(text: string) | Sym(c: char)

  function TokOf(s: string, t: Token): Tok {
    if t.tok == 'a' then Word(Slice(s, Span(t.q, t.eq))) else Sym(t.tok)
  }

  /** The tokens of s from place i on, one gettoken after the other. */
  function Lex(s: string, i: nat): seq<Tok>
    requires Line(s) && i <= |s|
    decreases |s| - i
  {
    var t := GetToken(s, i);
    if t.tok == '\0' then [] else [TokOf(s, t)] + Lex(s, t.next)
  }

  predicate StartsWith(ts: seq<Tok>, c: char) {
    ts != [] && ts[0] == Sym(c)
  }

  predicate StartsRed(ts: seq<Tok>) {
    StartsWith(ts, '<') || StartsWith(ts, '>') || StartsWith(ts, '+')
  }

  /** What can come after a simple command or a block. */
  predicate Ends(ts: seq<Tok>) {
    ts == [] || StartsWith(ts, '|') || StartsWith(ts, ')') || StartsWith(ts, '&') || StartsWith(ts, ';')
  }

  lemma {:induction false} SkipStops(s: string, i: nat)
    requires i <= |s|
    ensures var q := SkipSpace(s, i); (q < |s| ==> !IsSpace(s[q])) && SkipSpace(s, q) == q
    decreases |s| - i
  {
    if i < |s| && IsSpace(s[i]) {
      SkipStops(s, i + 1);
    }
  }

  /** The first token. */
  lemma First(s: string, i: nat)
    requires Line(s) && i <= |s|
    ensures var ts, t := Lex(s, i), GetToken(s, i);
            && (t.tok == '\0' <==> ts == [])
            && (ts != [] ==> ts[0] == TokOf(s, t) && ts[1..] == Lex(s, t.next) && ts == [TokOf(s, t)] + Lex(s, t.next))
  {
  }

  // What peek sees of it.

  lemma PeekRed(s: string, i: nat)
    requires Line(s) && i <= |s|
    ensures Peeks(s, i, "<>") <==> StartsRed(Lex(s, i))
  {
    SkipStops(s, i);
  }

  lemma PeekEnd(s: string, i: nat)
    requires Line(s) && i <= |s|
    ensures Peeks(s, i, "|)&;") <==> Lex(s, i) != [] && Ends(Lex(s, i))
  {
    SkipStops(s, i);
  }

  lemma PeekSym(s: string, i: nat, c: char, toks: string)
    requires Line(s) && i <= |s| && toks == [c] && c in "()|&;"
    ensures Peeks(s, i, toks) <==> StartsWith(Lex(s, i), c)
  {
    SkipStops(s, i);
  }

  lemma Skipped(s: string, i: nat)
    requires Line(s) && i <= |s|
    ensures Lex(s, SkipSpace(s, i)) == Lex(s, i) && SkipSpace(s, SkipSpace(s, i)) == SkipSpace(s, i)
  {
    SkipStops(s, i);
    assert GetToken(s, SkipSpace(s, i)) == GetToken(s, i);
  }

  lemma AtEnd(s: string, i: nat)
    requires Line(s) && i <= |s| && Lex(s, i) == []
    ensures GetToken(s, i).tok == '\0' && SkipSpace(s, i) == GetToken(s, i).next == |s| && Lex(s, |s|) == []
  {
    SkipStops(s, i);
  }

  lemma SlicesCons(s: string, x: Span, argv: seq<Span>)
    ensures Slices(s, [x] + argv) == [Slice(s, x)] + Slices(s, argv)
  {
  }

  lemma RedSlicesCat(s: string, a: seq<Redirect>, b: seq<Redirect>)
    ensures RedSlices(s, a + b) == RedSlices(s, a) + RedSlices(s, b)
  {
  }

  // The grammar. Each form is given with the tokens that follow it.

  /** A word and the redirections after it. */
  datatype Arg = Arg(word: string, reds: seq<Red>)

  /** exec: redir* (word redir*)*, or a line in parentheses and redir*; then |, & and ;. */
  datatype Syntax =
    | Simple(reds: seq<Red>, args: seq<Arg>)
    | Block(inside: Syntax, reds: seq<Red>)
    | Bar(left: Syntax, right: Syntax)
    | Amp(cmd: Syntax)
    | Semi(left: Syntax, right: Syntax)

  predicate IsExec(t: Syntax) {
    t.Simple? || t.Block?
  }

  predicate IsPipe(t: Syntax) {
    IsExec(t) || t.Bar?
  }

  /** A pipeline with & signs after it. */
  predicate IsJob(t: Syntax) {
    !t.Semi?
  }

  /** | binds tighter than &, and & tighter than ;. | and ; group to the right. */
  predicate Legal(t: Syntax) {
    match t
    case Simple(_, args) => |args| < MAXARGS
    case Block(c, _) => Legal(c)
    case Bar(l, r) => IsExec(l) && IsPipe(r) && Legal(l) && Legal(r)
    case Amp(c) => IsJob(c) && Legal(c)
    case Semi(l, r) => IsJob(l) && Legal(l) && Legal(r)
  }

  function SymOf(mode: Mode): char {
    match mode
    case Input => '<'
    case Output => '>'
    case Append => '+'
  }

  function YieldReds(reds: seq<Red>, rest: seq<Tok>): seq<Tok> {
    if reds == [] then rest
    else [Sym(SymOf(reds[0].mode))] + ([Word(reds[0].file)] + YieldReds(reds[1..], rest))
  }

  function YieldArgs(args: seq<Arg>, rest: seq<Tok>): seq<Tok> {
    if args == [] then rest else [Word(args[0].word)] + YieldReds(args[0].reds, YieldArgs(args[1..], rest))
  }

  function Yield(t: Syntax, rest: seq<Tok>): seq<Tok> {
    match t
    case Simple(reds, args) => YieldReds(reds, YieldArgs(args, rest))
    case Block(c, reds) => [Sym('(')] + Yield(c, [Sym(')')] + YieldReds(reds, rest))
    case Bar(l, r) => Yield(l, [Sym('|')] + Yield(r, rest))
    case Amp(c) => Yield(c, [Sym('&')] + rest)
    case Semi(l, r) => Yield(l, [Sym(';')] + Yield(r, rest))
  }

  function ArgWords(args: seq<Arg>): (words: seq<string>)
    ensures |words| == |args|
  {
    if args == [] then [] else [args[0].word] + ArgWords(args[1..])
  }

  function ArgReds(args: seq<Arg>): seq<Red> {
    if args == [] then [] else args[0].reds + ArgReds(args[1..])
  }

  function Mean(t: Syntax): Tree {
    match t
    case Simple(reds, args) => Redirected(TExec(ArgWords(args)), reds + ArgReds(args))
    case Block(c, reds) => Redirected(Mean(c), reds)
    case Bar(l, r) => TPipe(Mean(l), Mean(r))
    case Amp(c) => TBack(Mean(c))
    case Semi(l, r) => TList(Mean(l), Mean(r))
  }

  // What the parser accepts has a derivation.

  lemma {:induction false} RedirsDerived(s: string, i: nat) returns (reds: seq<Red>)
    requires Line(s) && i <= |s| && ParseRedirs(s, i).Ok?
    ensures var r := ParseRedirs(s, i); Lex(s, i) == YieldReds(reds, Lex(s, r.next)) && reds == RedSlices(s, r.value)
    decreases |s| - i
  {
    PeekRed(s, i);
    if Peeks(s, i, "<>") {
      First(s, i);
      var t := GetToken(s, i);
      var u := GetToken(s, t.next);
      First(s, t.next);
      var rest := RedirsDerived(s, u.next);
      var red := Redirect(Span(u.q, u.eq), ModeOf(t.tok));
      RedSlicesCat(s, [red], ParseRedirs(s, u.next).value);
      reds := [Red(ModeOf(t.tok), Slice(s, Span(u.q, u.eq)))] + rest;
      assert reds[1..] == rest;
    } else {
      reds := [];
      Skipped(s, i);
    }
  }

  /** How parseexec's loop takes a word. */
  lemma WordNext(s: string, i: nat, argc: nat)
    requires Line(s) && i <= |s| && Lex(s, i) != [] && Lex(s, i)[0].Word?
    ensures var t := GetToken(s, i);
            && t.tok == 'a' && !Peeks(s, i, "|)&;")
            && var reds := ParseRedirs(s, t.next);
            var r := ParseWords(s, i, argc);
            if argc + 1 >= MAXARGS || reds.Panic? then r.Panic?
            else
              var rest := ParseWords(s, reds.next, argc + 1);
              if rest.Panic? then r.Panic?
              else
                && r.Ok? && r.next == rest.next
                && Slices(s, r.value.0) == [Lex(s, i)[0].text] + Slices(s, rest.value.0)
                && RedSlices(s, r.value.1) == RedSlices(s, reds.value) + RedSlices(s, rest.value.1)
  {
    First(s, i);
    PeekEnd(s, i);
    var t := GetToken(s, i);
    var reds := ParseRedirs(s, t.next);
    if argc + 1 < MAXARGS && reds.Ok? {
      var rest := ParseWords(s, reds.next, argc + 1);
      if rest.Ok? {
        SlicesCons(s, Span(t.q, t.eq), rest.value.0);
        RedSlicesCat(s, reds.value, rest.value.1);
      }
    }
  }

  /** How it stops. */
  lemma WordsStop(s: string, i: nat, argc: nat)
    requires Line(s) && i <= |s| && !(Lex(s, i) != [] && Lex(s, i)[0].Word?)
    ensures var r := ParseWords(s, i, argc);
            if Ends(Lex(s, i)) then r.Ok? && r.value == ([], []) && Lex(s, r.next) == Lex(s, i) else r.Panic?
  {
    First(s, i);
    PeekEnd(s, i);
    Skipped(s, i);
    if Lex(s, i) == [] {
      AtEnd(s, i);
    }
  }

  lemma {:induction false} WordsDerived(s: string, i: nat, argc: nat) returns (args: seq<Arg>)
    requires Line(s) && i <= |s| && ParseWords(s, i, argc).Ok?
    ensures var r := ParseWords(s, i, argc);
            && Lex(s, i) == YieldArgs(args, Lex(s, r.next))
            && ArgWords(args) == Slices(s, r.value.0) && ArgReds(args) == RedSlices(s, r.value.1)
            && (args != [] ==> argc + |args| < MAXARGS)
    decreases |s| - i
  {
    if Lex(s, i) != [] && Lex(s, i)[0].Word? {
      WordNext(s, i, argc);
      First(s, i);
      var t := GetToken(s, i);
      var reds := RedirsDerived(s, t.next);
      var rest := WordsDerived(s, ParseRedirs(s, t.next).next, argc + 1);
      args := [Arg(Lex(s, i)[0].text, reds)] + rest;
      assert args[1..] == rest;
    } else {
      WordsStop(s, i, argc);
      args := [];
    }
  }

  /** r is the parse of t, which stands at place i of s. */
  ghost predicate Derives(s: string, i: nat, t: Syntax, r: Result<Cmd>)
    requires Line(s) && i <= |s|
  {
    r.Ok? && r.next <= |s| && Legal(t) && Lex(s, i) == Yield(t, Lex(s, r.next)) && Text(r.value, s) == Mean(t)
  }

  lemma SimpleDerived(s: string, i: nat) returns (t: Syntax)
    requires Line(s) && i <= |s| && ParseExec(s, i).Ok? && !StartsWith(Lex(s, i), '(')
    ensures t.Simple? && Derives(s, i, t, ParseExec(s, i))
  {
    PeekSym(s, i, '(', "(");
    var r := ParseRedirs(s, i);
    var reds := RedirsDerived(s, i);
    var w := ParseWords(s, r.next, 0);
    var args := WordsDerived(s, r.next, 0);
    t := Simple(reds, args);
    WrapText(s, Exec(w.value.0), r.value + w.value.1);
    RedSlicesCat(s, r.value, w.value.1);
  }

  lemma {:induction false} ExecDerived(s: string, i: nat) returns (t: Syntax)
    requires Line(s) && i <= |s| && ParseExec(s, i).Ok?
    ensures IsExec(t) && Derives(s, i, t, ParseExec(s, i))
    decreases |s| - i, 0
  {
    if StartsWith(Lex(s, i), '(') {
      PeekSym(s, i, '(', "(");
      t := BlockDerived(s, i);
    } else {
      t := SimpleDerived(s, i);
    }
  }

  lemma {:induction false} BlockDerived(s: string, i: nat) returns (t: Syntax)
    requires Line(s) && i <= |s| && ParseBlock(s, i).Ok?
    ensures t.Block? && Derives(s, i, t, ParseBlock(s, i))
    decreases |s| - i, 0, 0
  {
    PeekSym(s, i, '(', "(");
    First(s, i);
    var open := GetToken(s, i);
    var c := LineDerived(s, open.next);
    var line := ParseLine(s, open.next);
    PeekSym(s, line.next, ')', ")");
    First(s, line.next);
    var close := GetToken(s, line.next);
    var reds := RedirsDerived(s, close.next);
    t := Block(c, reds);
    WrapText(s, line.value, ParseRedirs(s, close.next).value);
  }

  lemma {:induction false} PipeDerived(s: string, i: nat) returns (t: Syntax)
    requires Line(s) && i <= |s| && ParsePipe(s, i).Ok?
    ensures IsPipe(t) && Derives(s, i, t, ParsePipe(s, i))
    decreases |s| - i, 1
  {
    var l := ExecDerived(s, i);
    var left := ParseExec(s, i);
    PeekSym(s, left.next, '|', "|");
    if Peeks(s, left.next, "|") {
      First(s, left.next);
      var r := PipeDerived(s, GetToken(s, left.next).next);
      t := Bar(l, r);
    } else {
      t := l;
      Skipped(s, left.next);
    }
  }

  lemma {:induction false} BacksDerived(s: string, i: nat, t: Syntax, r: Result<Cmd>) returns (u: Syntax)
    requires Line(s) && i <= |s| && IsJob(t) && Derives(s, i, t, r)
    ensures IsJob(u) && Derives(s, i, u, ParseBacks(r.value, s, r.next))
    decreases |s| - r.next
  {
    PeekSym(s, r.next, '&', "&");
    if Peeks(s, r.next, "&") {
      First(s, r.next);
      var next := GetToken(s, r.next).next;
      u := BacksDerived(s, i, Amp(t), Ok(Back(r.value), next));
    } else {
      u := t;
      Skipped(s, r.next);
    }
  }

  lemma SemiDerives(s: string, i: nat, job: Syntax, cmd: Result<Cmd>, next: nat, t: Syntax, rest: Result<Cmd>)
    requires Line(s) && i <= |s| && next <= |s| && IsJob(job) && Derives(s, i, job, cmd) && Derives(s, next, t, rest)
    requires Lex(s, cmd.next) == [Sym(';')] + Lex(s, next)
    ensures Derives(s, i, Semi(job, t), Ok(List(cmd.value, rest.value), rest.next))
  {
  }

  lemma {:induction false} LineDerived(s: string, i: nat) returns (t: Syntax)
    requires Line(s) && i <= |s| && ParseLine(s, i).Ok?
    ensures Derives(s, i, t, ParseLine(s, i))
    decreases |s| - i, 2
  {
    var p := PipeDerived(s, i);
    var first := ParsePipe(s, i);
    var job := BacksDerived(s, i, p, first);
    var cmd := ParseBacks(first.value, s, first.next);
    if StartsWith(Lex(s, cmd.next), ';') {
      var tail := Lex(s, cmd.next)[1..];
      assert Lex(s, cmd.next) == [Sym(';')] + tail;
      var next := JobSemi(s, i, cmd, tail);
      var r := LineDerived(s, next);
      t := Semi(job, r);
      SemiDerives(s, i, job, cmd, next, r, ParseLine(s, next));
    } else {
      t := job;
      JobOnly(s, i, cmd);
      Skipped(s, cmd.next);
    }
  }

  // What has a derivation is accepted.

  /** A parse that succeeds, leaves the tokens `rest` and gives what t means. */
  ghost predicate Parses(s: string, r: Result<Cmd>, t: Syntax, rest: seq<Tok>)
    requires Line(s)
  {
    r.Ok? && r.next <= |s| && Lex(s, r.next) == rest && Text(r.value, s) == Mean(t)
  }

  /** The tokens at i are c and then rest. */
  lemma Eat(s: string, i: nat, c: Tok, rest: seq<Tok>)
    requires Line(s) && i <= |s| && Lex(s, i) == [c] + rest
    ensures var t := GetToken(s, i); t.tok != '\0' && TokOf(s, t) == c && Lex(s, t.next) == rest && i < t.next <= |s|
  {
    First(s, i);
    assert ([c] + rest)[0] == c && ([c] + rest)[1..] == rest;
  }

  /** How parseredirs takes a redirection. */
  lemma RedStep(s: string, i: nat, t: Token, u: Token)
    requires Line(s) && i <= |s| && Peeks(s, i, "<>") && t == GetToken(s, i) && u == GetToken(s, t.next) && u.tok == 'a'
    ensures var rest, r := ParseRedirs(s, u.next), ParseRedirs(s, i);
            rest.Ok? ==> && r.Ok? && r.next == rest.next
                         && r.value == [Redirect(Span(u.q, u.eq), ModeOf(t.tok))] + rest.value
  {
  }

  /** A redirection, and the parse of those after it. */
  lemma RedNext(s: string, i: nat, red: Red, more: seq<Tok>) returns (next: nat)
    requires Line(s) && i <= |s| && Lex(s, i) == [Sym(SymOf(red.mode))] + ([Word(red.file)] + more)
    ensures i < next <= |s| && Lex(s, next) == more
    ensures var rest, r := ParseRedirs(s, next), ParseRedirs(s, i);
            rest.Ok? ==> r.Ok? && r.next == rest.next && RedSlices(s, r.value) == [red] + RedSlices(s, rest.value)
  {
    PeekRed(s, i);
    Eat(s, i, Sym(SymOf(red.mode)), [Word(red.file)] + more);
    var t := GetToken(s, i);
    Eat(s, t.next, Word(red.file), more);
    var u := GetToken(s, t.next);
    next := u.next;
    RedStep(s, i, t, u);
    RedSliced(s, t, u, red, ParseRedirs(s, next));
  }

  lemma RedSliced(s: string, t: Token, u: Token, red: Red, rest: Result<seq<Redirect>>)
    requires TokOf(s, t) == Sym(SymOf(red.mode)) && TokOf(s, u) == Word(red.file)
    ensures rest.Ok? ==>
              RedSlices(s, [Redirect(Span(u.q, u.eq), ModeOf(t.tok))] + rest.value) == [red] + RedSlices(s, rest.value)
  {
    if rest.Ok? {
      RedSlicesCat(s, [Redirect(Span(u.q, u.eq), ModeOf(t.tok))], rest.value);
    }
  }

  lemma {:induction false} RedirsParsed(s: string, i: nat, reds: seq<Red>, rest: seq<Tok>)
    returns (r: Result<seq<Redirect>>)
    requires Line(s) && i <= |s| && Lex(s, i) == YieldReds(reds, rest) && !StartsRed(rest)
    ensures r == ParseRedirs(s, i) && r.Ok? && Lex(s, r.next) == rest && RedSlices(s, r.value) == reds
    decreases |reds|
  {
    r := ParseRedirs(s, i);
    if reds == [] {
      PeekRed(s, i);
      Skipped(s, i);
    } else {
      var next := RedNext(s, i, reds[0], YieldReds(reds[1..], rest));
      var more := RedirsParsed(s, next, reds[1..], rest);
      assert reds == [reds[0]] + reds[1..];
    }
  }

  /** The words parsed by w, and the tokens left. */
  ghost predicate WordsAre(s: string, w: Result<(seq<Span>, seq<Redirect>)>, args: seq<Arg>, rest: seq<Tok>)
    requires Line(s)
  {
    && w.Ok? && w.next <= |s| && Lex(s, w.next) == rest
    && Slices(s, w.value.0) == ArgWords(args) && RedSlices(s, w.value.1) == ArgReds(args)
  }

  predicate IsWords(s: string, i: nat, argc: nat, w: Result<(seq<Span>, seq<Redirect>)>)
    requires Line(s) && i <= |s|
  {
    w == ParseWords(s, i, argc)
  }

  ghost predicate WordsGive(s: string, i: nat, argc: nat, args: seq<Arg>, rest: seq<Tok>)
    requires Line(s) && i <= |s|
  {
    forall w :: IsWords(s, i, argc, w) ==> WordsAre(s, w, args, rest)
  }

  /** The redirections after the first word. */
  lemma ArgRedirs(s: string, i: nat, args: seq<Arg>, tail: seq<Arg>, rest: seq<Tok>)
    returns (r: Result<seq<Redirect>>)
    requires Line(s) && i <= |s| && args != [] && tail == args[1..] && Lex(s, i) == YieldArgs(args, rest) && Ends(rest)
    ensures Lex(s, i) != [] && Lex(s, i)[0] == Word(args[0].word)
    ensures r == ParseRedirs(s, GetToken(s, i).next) && r.Ok? && r.next <= |s| && RedSlices(s, r.value) == args[0].reds
    ensures Lex(s, r.next) == YieldArgs(tail, rest)
  {
    var more := YieldArgs(tail, rest);
    Eat(s, i, Word(args[0].word), YieldReds(args[0].reds, more));
    NotRed(tail, rest);
    r := RedirsParsed(s, GetToken(s, i).next, args[0].reds, more);
  }

  lemma ArgParsed(s: string, i: nat, argc: nat, args: seq<Arg>, tail: seq<Arg>, rest: seq<Tok>,
                  r: Result<seq<Redirect>>)
    requires Line(s) && i <= |s| && args != [] && tail == args[1..] && argc + 1 < MAXARGS
    requires Lex(s, i) != [] && Lex(s, i)[0] == Word(args[0].word)
    requires r == ParseRedirs(s, GetToken(s, i).next) && r.Ok? && RedSlices(s, r.value) == args[0].reds
    requires r.next <= |s| && WordsGive(s, r.next, argc + 1, tail, rest)
    ensures WordsGive(s, i, argc, args, rest)
  {
    WordNext(s, i, argc);
    assert IsWords(s, r.next, argc + 1, ParseWords(s, r.next, argc + 1));
  }

  lemma ArgNext(s: string, i: nat, argc: nat, args: seq<Arg>, tail: seq<Arg>, rest: seq<Tok>) returns (next: nat)
    requires Line(s) && i <= |s| && args != [] && tail == args[1..] && Lex(s, i) == YieldArgs(args, rest) && Ends(rest)
    requires argc + 1 < MAXARGS
    ensures next <= |s| && Lex(s, next) == YieldArgs(tail, rest)
    ensures WordsGive(s, next, argc + 1, tail, rest) ==> WordsGive(s, i, argc, args, rest)
  {
    var r := ArgRedirs(s, i, args, tail, rest);
    next := r.next;
    if WordsGive(s, next, argc + 1, tail, rest) {
      ArgParsed(s, i, argc, args, tail, rest, r);
    }
  }

  lemma NoWords(s: string, i: nat, argc: nat, args: seq<Arg>, rest: seq<Tok>)
    requires Line(s) && i <= |s| && |args| == 0 && Lex(s, i) == YieldArgs(args, rest) && Ends(rest)
    ensures WordsGive(s, i, argc, args, rest)
  {
    WordsStop(s, i, argc);
  }

  lemma {:induction false} WordsParsed(s: string, i: nat, argc: nat, args: seq<Arg>, rest: seq<Tok>, n: nat)
    requires Line(s) && i <= |s| && Lex(s, i) == YieldArgs(args, rest) && Ends(rest)
    requires |args| == n && argc + n < MAXARGS
    ensures WordsGive(s, i, argc, args, rest)
    decreases n, 0
  {
    if n == 0 {
      NoWords(s, i, argc, args, rest);
    } else {
      var tail := args[1..];
      var next := ArgNext(s, i, argc, args, tail, rest);
      WordsAfter(s, i, argc, args, next, tail, rest, n);
    }
  }

  lemma {:induction false} WordsAfter(s: string, i: nat, argc: nat, args: seq<Arg>, next: nat, tail: seq<Arg>,
                                      rest: seq<Tok>, n: nat)
    requires Line(s) && i <= |s| && next <= |s| && Lex(s, next) == YieldArgs(tail, rest) && Ends(rest)
    requires 0 < n == |tail| + 1 && argc + n < MAXARGS
    requires WordsGive(s, next, argc + 1, tail, rest) ==> WordsGive(s, i, argc, args, rest)
    ensures WordsGive(s, i, argc, args, rest)
    decreases n - 1, 1
  {
    WordsParsed(s, next, argc + 1, tail, rest, n - 1);
  }

  lemma NotRed(args: seq<Arg>, rest: seq<Tok>)
    requires Ends(rest)
    ensures !StartsRed(YieldArgs(args, rest)) && !StartsWith(YieldArgs(args, rest), '(')
  {
  }

  lemma SimpleParsed(s: string, i: nat, t: Syntax, rest: seq<Tok>)
    requires Line(s) && i <= |s| && t.Simple? && Legal(t) && Lex(s, i) == Yield(t, rest) && Ends(rest)
    ensures Parses(s, ParseExec(s, i), t, rest)
  {
    var more := YieldArgs(t.args, rest);
    NotRed(t.args, rest);
    PeekSym(s, i, '(', "(");
    var r := RedirsParsed(s, i, t.reds, more);
    WordsParsed(s, r.next, 0, t.args, rest, |t.args|);
    var w := ParseWords(s, r.next, 0);
    assert IsWords(s, r.next, 0, w);
    WrapText(s, Exec(w.value.0), r.value + w.value.1);
    RedSlicesCat(s, r.value, w.value.1);
  }

  /** How parseblock ends: ) and redirections. */
  lemma BlockEnd(s: string, i: nat, reds: seq<Red>, rest: seq<Tok>) returns (r: Result<seq<Redirect>>)
    requires Line(s) && i <= |s| && Lex(s, i) == [Sym(')')] + YieldReds(reds, rest) && Ends(rest)
    ensures Peeks(s, i, ")") && r == ParseRedirs(s, GetToken(s, i).next)
    ensures r.Ok? && r.next <= |s| && Lex(s, r.next) == rest && RedSlices(s, r.value) == reds
  {
    PeekSym(s, i, ')', ")");
    Eat(s, i, Sym(')'), YieldReds(reds, rest));
    r := RedirsParsed(s, GetToken(s, i).next, reds, rest);
  }

  lemma BlockTaken(s: string, i: nat, line: Result<Cmd>, r: Result<seq<Redirect>>)
    requires Line(s) && i <= |s| && StartsWith(Lex(s, i), '(') && line == ParseLine(s, GetToken(s, i).next) && line.Ok?
    requires Peeks(s, line.next, ")") && r == ParseRedirs(s, GetToken(s, line.next).next) && r.Ok?
    ensures ParseExec(s, i) == Ok(Wrap(line.value, r.value), r.next)
  {
    PeekSym(s, i, '(', "(");
  }

  lemma {:induction false} BlockParsed(s: string, i: nat, t: Syntax, rest: seq<Tok>)
    requires Line(s) && i <= |s| && t.Block? && Legal(t) && Lex(s, i) == Yield(t, rest) && Ends(rest)
    ensures Parses(s, ParseExec(s, i), t, rest)
    decreases t, 0, 0
  {
    var after := YieldReds(t.reds, rest);
    Eat(s, i, Sym('('), Yield(t.inside, [Sym(')')] + after));
    var open := GetToken(s, i);
    LineParsed(s, open.next, t.inside, [Sym(')')] + after);
    var line := ParseLine(s, open.next);
    var reds := BlockEnd(s, line.next, t.reds, rest);
    BlockTaken(s, i, line, reds);
    WrapText(s, line.value, reds.value);
  }

  lemma {:induction false} ExecParsed(s: string, i: nat, t: Syntax, rest: seq<Tok>)
    requires Line(s) && i <= |s| && IsExec(t) && Legal(t) && Lex(s, i) == Yield(t, rest) && Ends(rest)
    ensures Parses(s, ParseExec(s, i), t, rest)
    decreases t, 0
  {
    if t.Simple? {
      SimpleParsed(s, i, t, rest);
    } else {
      BlockParsed(s, i, t, rest);
    }
  }

  lemma {:induction false} PipeParsed(s: string, i: nat, t: Syntax, rest: seq<Tok>)
    requires Line(s) && i <= |s| && IsPipe(t) && Legal(t) && Lex(s, i) == Yield(t, rest)
    requires Ends(rest) && !StartsWith(rest, '|')
    ensures Parses(s, ParsePipe(s, i), t, rest)
    decreases t, 1
  {
    if t.Bar? {
      var tail := Yield(t.right, rest);
      ExecParsed(s, i, t.left, [Sym('|')] + tail);
      var left := ParseExec(s, i);
      PeekSym(s, left.next, '|', "|");
      Eat(s, left.next, Sym('|'), tail);
      PipeParsed(s, GetToken(s, left.next).next, t.right, rest);
    } else {
      ExecParsed(s, i, t, rest);
      var left := ParseExec(s, i);
      PeekSym(s, left.next, '|', "|");
      Skipped(s, left.next);
    }
  }

  /** From cmd at place i, the & loop comes to what t means, with the tokens `rest` to go. */
  ghost predicate BacksTo(s: string, cmd: Cmd, i: nat, t: Syntax, rest: seq<Tok>)
    requires Line(s)
    decreases |s| - i
  {
    i <= |s| && ((Lex(s, i) == rest && Text(cmd, s) == Mean(t))
                 || (StartsWith(Lex(s, i), '&') && i < GetToken(s, i).next <= |s|
                     && BacksTo(s, Back(cmd), GetToken(s, i).next, t, rest)))
  }

  /** The pipeline and the & signs of a job. */
  lemma {:induction false} JobParsed(s: string, i: nat, t: Syntax, rest: seq<Tok>)
    requires Line(s) && i <= |s| && IsJob(t) && Legal(t) && Lex(s, i) == Yield(t, rest)
    requires Ends(rest) && !StartsWith(rest, '|')
    ensures var p := ParsePipe(s, i); p.Ok? && BacksTo(s, p.value, p.next, t, rest)
    decreases t, 2
  {
    if t.Amp? {
      JobParsed(s, i, t.cmd, [Sym('&')] + rest);
      var p := ParsePipe(s, i);
      BacksMore(s, p.value, p.next, t.cmd, rest);
    } else {
      PipeParsed(s, i, t, rest);
    }
  }

  lemma {:induction false} BacksMore(s: string, cmd: Cmd, i: nat, t: Syntax, rest: seq<Tok>)
    requires Line(s) && BacksTo(s, cmd, i, t, [Sym('&')] + rest)
    ensures BacksTo(s, cmd, i, Amp(t), rest)
    decreases |s| - i
  {
    if Lex(s, i) == [Sym('&')] + rest && Text(cmd, s) == Mean(t) {
      Eat(s, i, Sym('&'), rest);
      assert BacksTo(s, Back(cmd), GetToken(s, i).next, Amp(t), rest);
    } else {
      BacksMore(s, Back(cmd), GetToken(s, i).next, t, rest);
    }
  }

  lemma {:induction false} BacksParsed(s: string, cmd: Cmd, i: nat, t: Syntax, rest: seq<Tok>)
    requires Line(s) && BacksTo(s, cmd, i, t, rest) && !StartsWith(rest, '&')
    ensures Parses(s, ParseBacks(cmd, s, i), t, rest)
    decreases |s| - i
  {
    PeekSym(s, i, '&', "&");
    if Peeks(s, i, "&") {
      BacksParsed(s, Back(cmd), GetToken(s, i).next, t, rest);
    } else {
      Skipped(s, i);
    }
  }

  /** A job as parseline takes it, and what it does then. */
  lemma {:induction false} JobTaken(s: string, i: nat, t: Syntax, rest: seq<Tok>) returns (cmd: Result<Cmd>)
    requires Line(s) && i <= |s| && IsJob(t) && Legal(t) && Lex(s, i) == Yield(t, rest)
    requires Ends(rest) && !StartsWith(rest, '|') && !StartsWith(rest, '&')
    ensures Parses(s, cmd, t, rest) && TakesJob(s, i, cmd)
    decreases t, 3
  {
    JobParsed(s, i, t, rest);
    var p := ParsePipe(s, i);
    BacksParsed(s, p.value, p.next, t, rest);
    cmd := ParseBacks(p.value, s, p.next);
  }

  predicate TakesJob(s: string, i: nat, cmd: Result<Cmd>)
    requires Line(s) && i <= |s|
  {
    var p := ParsePipe(s, i);
    p.Ok? && cmd == ParseBacks(p.value, s, p.next)
  }

  /** A job and ; and a line. */
  lemma JobSemi(s: string, i: nat, cmd: Result<Cmd>, tail: seq<Tok>) returns (next: nat)
    requires Line(s) && i <= |s| && TakesJob(s, i, cmd) && cmd.next <= |s| && Lex(s, cmd.next) == [Sym(';')] + tail
    ensures next <= |s| && Lex(s, next) == tail
    ensures i < next
    ensures var rest, r := ParseLine(s, next), ParseLine(s, i);
            if rest.Ok? then r == Ok(List(cmd.value, rest.value), rest.next) else r.Panic?
  {
    PeekSym(s, cmd.next, ';', ";");
    Eat(s, cmd.next, Sym(';'), tail);
    next := GetToken(s, cmd.next).next;
  }

  /** A job and nothing after it. */
  lemma JobOnly(s: string, i: nat, cmd: Result<Cmd>)
    requires Line(s) && i <= |s| && TakesJob(s, i, cmd) && cmd.next <= |s| && !StartsWith(Lex(s, cmd.next), ';')
    ensures ParseLine(s, i) == Ok(cmd.value, SkipSpace(s, cmd.next))
  {
    PeekSym(s, cmd.next, ';', ";");
  }

  lemma SemiMeans(s: string, t: Syntax, cmd: Result<Cmd>, more: seq<Tok>, r: Result<Cmd>, rest: seq<Tok>)
    requires Line(s) && t.Semi? && Parses(s, cmd, t.left, more) && Parses(s, r, t.right, rest)
    ensures Parses(s, Ok(List(cmd.value, r.value), r.next), t, rest)
  {
  }

  lemma {:induction false} LineParsed(s: string, i: nat, t: Syntax, rest: seq<Tok>)
    requires Line(s) && i <= |s| && Legal(t) && Lex(s, i) == Yield(t, rest) && (rest == [] || StartsWith(rest, ')'))
    ensures Parses(s, ParseLine(s, i), t, rest)
    decreases t, 4
  {
    if t.Semi? {
      var tail := Yield(t.right, rest);
      var cmd := JobTaken(s, i, t.left, [Sym(';')] + tail);
      var next := JobSemi(s, i, cmd, tail);
      LineParsed(s, next, t.right, rest);
      SemiMeans(s, t, cmd, [Sym(';')] + tail, ParseLine(s, next), rest);
    } else {
      var cmd := JobTaken(s, i, t, rest);
      JobOnly(s, i, cmd);
      Skipped(s, cmd.next);
    }
  }

  // The language of the parser.

  ghost predicate Derivation(s: string, t: Syntax)
    requires Line(s)
  {
    Legal(t) && Lex(s, 0) == Yield(t, [])
  }

  /** A line with a derivation is accepted, and means what the derivation does. */
  lemma Meaning(s: string, t: Syntax)
    requires Line(s) && Derivation(s, t)
    ensures var r := ParseCmd(s); r.Ok? && Text(r.value, s) == Mean(t)
  {
    LineParsed(s, 0, t, []);
    AtEnd(s, ParseLine(s, 0).next);
  }

  /** The parser accepts a line if and only if it has a derivation. */
  lemma AcceptsIff(s: string)
    requires Line(s)
    ensures ParseCmd(s).Ok? <==> exists t :: Derivation(s, t)
  {
    if ParseCmd(s).Ok? {
      var t := LineDerived(s, 0);
      var r := ParseLine(s, 0);
      Skipped(s, r.next);
      assert Lex(s, |s|) == [];
      assert Derivation(s, t);
    }
    forall t | Derivation(s, t)
      ensures ParseCmd(s).Ok?
    {
      Meaning(s, t);
    }
  }

  /** Lines with the same tokens, however spaced, are the same command or both refused. */
  lemma SameTokensSameCommand(s: string, u: string)
    requires Line(s) && Line(u) && Lex(s, 0) == Lex(u, 0)
    ensures ParseCmd(s).Ok? <==> ParseCmd(u).Ok?
    ensures ParseCmd(s).Ok? ==> Text(ParseCmd(s).value, s) == Text(ParseCmd(u).value, u)
  {
    AcceptsIff(s);
    AcceptsIff(u);
    forall t | Derivation(s, t) || Derivation(u, t)
      ensures Derivation(s, t) && Derivation(u, t)
    {
    }
    if ParseCmd(s).Ok? {
      var t :| Derivation(s, t);
      Meaning(s, t);
      Meaning(u, t);
    }
  }

  // Every command can be written.

  ghost predicate LegalWord(w: string) {
    w != "" && forall k :: 0 <= k < |w| ==> IsWordChar(w[k])
  }

  ghost predicate LegalTok(t: Tok) {
    match t
    case Word(w) => LegalWord(w)
    case Sym(c) => c == '+' || IsSymbol(c)
  }

  ghost predicate LegalToks(ts: seq<Tok>) {
    forall k :: 0 <= k < |ts| ==> LegalTok(ts[k])
  }

  function Print(t: Tok): string {
    match t
    case Word(w) => w
    case Sym(c) => if c == '+' then ">>" else [c]
  }

  /** The tokens as text, each with a space after it. */
  function Render(ts: seq<Tok>): string {
    if ts == [] then "" else Print(ts[0]) + " " + Render(ts[1..])
  }

  lemma {:induction false} RenderLine(ts: seq<Tok>)
    requires LegalToks(ts)
    ensures Line(Render(ts))
  {
    if ts != [] {
      RenderLine(ts[1..]);
      assert LegalTok(ts[0]);
    }
  }

  lemma {:induction false} WordEnds(s: string, i: nat, n: nat)
    requires Line(s) && i <= n < |s| && IsSpace(s[n]) && forall k :: i <= k < n ==> IsWordChar(s[k])
    ensures SkipWord(s, i) == n
    decreases n - i
  {
    if i < n {
      WordEnds(s, i + 1, n);
    }
  }

  /** gettoken at a printed token. */
  lemma PrintedToken(s: string, i: nat, t: Tok, n: nat)
    requires Line(s) && LegalTok(t) && i + |Print(t)| == n < |s| && s[i..n] == Print(t) && s[n] == ' '
    ensures var g := GetToken(s, i);
            g.tok != '\0' && g.next == SkipSpace(s, n) && TokOf(s, g) == t
  {
    var p := Print(t);
    assert forall k :: 0 <= k < |p| ==> s[i + k] == s[i..n][k] == p[k];
    assert s[i + 0] == p[0];
    match t
    case Word(w) =>
      WordEnds(s, i, n);
      assert SkipSpace(s, i) == i && Slice(s, Span(i, n)) == w;
    case Sym(c) =>
      assert SkipSpace(s, i) == i;
      if c == '+' {
        assert s[i + 1] == p[1];
      }
  }

  lemma SplitAt(s: string, i: nat, p: string, rest: string)
    requires i <= |s| && s[i..] == p + " " + rest
    ensures i + |p| < |s| && s[i..i + |p|] == p && s[i + |p|] == ' ' && s[i + |p| + 1..] == rest
  {
    var u, n := s[i..], |p|;
    assert u[..n] == p && u[n] == ' ' && u[n + 1..] == rest;
    assert s[i..i + n] == u[..n];
    assert s[i + n + 1..] == u[n + 1..];
  }

  lemma LexAfter(s: string, i: nat, t: Tok, n: nat)
    requires Line(s) && LegalTok(t) && i + |Print(t)| == n < |s| && s[i..n] == Print(t) && s[n] == ' '
    ensures Lex(s, i) == [t] + Lex(s, n + 1)
  {
    PrintedToken(s, i, t, n);
    Skipped(s, n + 1);
    assert SkipSpace(s, n) == SkipSpace(s, n + 1);
  }

  lemma LexCons(s: string, i: nat, t: Tok, p: string, rest: string, n: nat)
    requires Line(s) && i <= |s| && LegalTok(t) && p == Print(t) && s[i..] == p + " " + rest && n == i + |p|
    ensures n < |s| && s[n + 1..] == rest && Lex(s, i) == [t] + Lex(s, n + 1)
  {
    SplitAt(s, i, p, rest);
    LexAfter(s, i, t, n);
  }

  lemma NoTokens(s: string, i: nat)
    requires Line(s) && i <= |s| && s[i..] == ""
    ensures Lex(s, i) == []
  {
    assert i == |s|;
  }

  lemma LegalTail(ts: seq<Tok>)
    requires ts != [] && LegalToks(ts)
    ensures LegalTok(ts[0]) && LegalToks(ts[1..]) && ts == [ts[0]] + ts[1..]
  {
  }

  lemma {:induction false} LexRender(s: string, i: nat, ts: seq<Tok>)
    requires Line(s) && i <= |s| && LegalToks(ts) && s[i..] == Render(ts)
    ensures Lex(s, i) == ts
    decreases |ts|
  {
    if ts == [] {
      NoTokens(s, i);
    } else {
      LegalTail(ts);
      var p, tail := Print(ts[0]), ts[1..];
      LexCons(s, i, ts[0], p, Render(tail), i + |p|);
      LexRender(s, i + |p| + 1, tail);
    }
  }

  ghost predicate WritableReds(reds: seq<Red>) {
    forall k :: 0 <= k < |reds| ==> LegalWord(reds[k].file)
  }

  ghost predicate WritableArg(a: Arg) {
    LegalWord(a.word) && WritableReds(a.reds)
  }

  /** All words of t are words. */
  ghost predicate Writable(t: Syntax) {
    match t
    case Simple(reds, args) => WritableReds(reds) && forall k :: 0 <= k < |args| ==> WritableArg(args[k])
    case Block(c, reds) => Writable(c) && WritableReds(reds)
    case Bar(l, r) => Writable(l) && Writable(r)
    case Amp(c) => Writable(c)
    case Semi(l, r) => Writable(l) && Writable(r)
  }

  lemma ConsLegal(t: Tok, ts: seq<Tok>)
    requires LegalTok(t) && LegalToks(ts)
    ensures LegalToks([t] + ts)
  {
  }

  lemma {:induction false} RedsLegal(reds: seq<Red>, rest: seq<Tok>)
    requires WritableReds(reds) && LegalToks(rest)
    ensures LegalToks(YieldReds(reds, rest))
    decreases |reds|
  {
    if reds != [] {
      RedsLegal(reds[1..], rest);
      ConsLegal(Word(reds[0].file), YieldReds(reds[1..], rest));
      ConsLegal(Sym(SymOf(reds[0].mode)), [Word(reds[0].file)] + YieldReds(reds[1..], rest));
    }
  }

  lemma {:induction false} ArgsLegal(args: seq<Arg>, rest: seq<Tok>)
    requires (forall k :: 0 <= k < |args| ==> WritableArg(args[k])) && LegalToks(rest)
    ensures LegalToks(YieldArgs(args, rest))
    decreases |args|
  {
    if args != [] {
      ArgsLegal(args[1..], rest);
      assert WritableArg(args[0]);
      RedsLegal(args[0].reds, YieldArgs(args[1..], rest));
      ConsLegal(Word(args[0].word), YieldReds(args[0].reds, YieldArgs(args[1..], rest)));
    }
  }

  lemma {:induction false} YieldLegal(t: Syntax, rest: seq<Tok>)
    requires Writable(t) && LegalToks(rest)
    ensures LegalToks(Yield(t, rest))
    decreases t
  {
    match t
    case Simple(reds, args) =>
      ArgsLegal(args, rest);
      RedsLegal(reds, YieldArgs(args, rest));
    case Block(c, reds) =>
      RedsLegal(reds, rest);
      ConsLegal(Sym(')'), YieldReds(reds, rest));
      YieldLegal(c, [Sym(')')] + YieldReds(reds, rest));
      ConsLegal(Sym('('), Yield(c, [Sym(')')] + YieldReds(reds, rest)));
    case Bar(l, r) =>
      YieldLegal(r, rest);
      ConsLegal(Sym('|'), Yield(r, rest));
      YieldLegal(l, [Sym('|')] + Yield(r, rest));
    case Amp(c) =>
      ConsLegal(Sym('&'), rest);
      YieldLegal(c, [Sym('&')] + rest);
    case Semi(l, r) =>
      YieldLegal(r, rest);
      ConsLegal(Sym(';'), Yield(r, rest));
      YieldLegal(l, [Sym(';')] + Yield(r, rest));
  }

  /** Parsing the text of any derivation gives the command it means. */
  lemma RoundTrip(t: Syntax)
    requires Legal(t) && Writable(t)
    ensures var s := Render(Yield(t, []));
            Line(s) && ParseCmd(s).Ok? && Text(ParseCmd(s).value, s) == Mean(t)
  {
    var ts := Yield(t, []);
    YieldLegal(t, []);
    RenderLine(ts);
    var s := Render(ts);
    assert s[0..] == s;
    LexRender(s, 0, ts);
    Meaning(s, t);
  }

  ghost predicate LegalTree(t: Tree) {
    match t
    case TExec(words) => |words| < MAXARGS && forall k :: 0 <= k < |words| ==> LegalWord(words[k])
    case TRedir(c, file, _) => LegalTree(c) && LegalWord(file)
    case TPipe(l, r) => LegalTree(l) && LegalTree(r)
    case TList(l, r) => LegalTree(l) && LegalTree(r)
    case TBack(c) => LegalTree(c)
  }

  function Bare(words: seq<string>): (args: seq<Arg>)
    ensures |args| == |words|
  {
    if words == [] then [] else [Arg(words[0], [])] + Bare(words[1..])
  }

  lemma {:induction false} BareMeans(words: seq<string>)
    requires forall k :: 0 <= k < |words| ==> LegalWord(words[k])
    ensures ArgWords(Bare(words)) == words && ArgReds(Bare(words)) == []
    ensures forall k :: 0 <= k < |words| ==> WritableArg(Bare(words)[k])
  {
    if words != [] {
      BareMeans(words[1..]);
      assert Bare(words)[1..] == Bare(words[1..]);
    }
  }

  /** A redirection goes with a simple command, after other redirections or after a block. */
  function WithRed(x: Syntax, red: Red): Syntax {
    if x.Simple? then Simple(x.reds + [red], x.args)
    else if x.Block? && x.reds != [] then Block(x.inside, x.reds + [red])
    else Block(x, [red])
  }

  function AsExec(t: Syntax): Syntax {
    if IsExec(t) then t else Block(t, [])
  }

  function AsPipe(t: Syntax): Syntax {
    if IsPipe(t) then t else Block(t, [])
  }

  function AsJob(t: Syntax): Syntax {
    if IsJob(t) then t else Block(t, [])
  }

  /** t as a line. */
  function Spell(t: Tree): Syntax {
    match t
    case TExec(words) => Simple([], Bare(words))
    case TRedir(c, file, mode) => WithRed(Spell(c), Red(mode, file))
    case TPipe(l, r) => Bar(AsExec(Spell(l)), AsPipe(Spell(r)))
    case TList(l, r) => Semi(AsJob(Spell(l)), Spell(r))
    case TBack(c) => Amp(AsJob(Spell(c)))
  }

  /** Redirections stand before the words. */
  ghost predicate RedsFirst(t: Syntax) {
    t.Simple? ==> ArgReds(t.args) == []
  }

  lemma RedMeans(x: Syntax, red: Red)
    requires Legal(x) && Writable(x) && RedsFirst(x) && LegalWord(red.file)
    ensures var y := WithRed(x, red);
            Legal(y) && Writable(y) && RedsFirst(y) && Mean(y) == TRedir(Mean(x), red.file, red.mode)
  {
    if x.Simple? || (x.Block? && x.reds != []) {
      var more := x.reds + [red];
      assert more[..|more| - 1] == x.reds;
      if x.Simple? {
        assert x.reds + [] == x.reds && more + [] == more;
      }
    } else {
      assert [red][..0] == [] && Redirected(Mean(x), []) == Mean(x);
    }
  }

  lemma {:induction false} SpellMeans(t: Tree)
    requires LegalTree(t)
    ensures Legal(Spell(t)) && Writable(Spell(t)) && RedsFirst(Spell(t)) && Mean(Spell(t)) == t
    decreases t
  {
    match t
    case TExec(words) =>
      BareMeans(words);
    case TRedir(c, file, mode) =>
      SpellMeans(c);
      RedMeans(Spell(c), Red(mode, file));
    case TPipe(l, r) =>
      SpellMeans(l);
      SpellMeans(r);
    case TList(l, r) =>
      SpellMeans(l);
      SpellMeans(r);
    case TBack(c) =>
      SpellMeans(c);
  }

  /** So every command with at most MAXARGS - 1 words in each part comes back from a text. */
  lemma EveryCommand(t: Tree)
    requires LegalTree(t)
    ensures var s := Render(Yield(Spell(t), []));
            Line(s) && ParseCmd(s).Ok? && Text(ParseCmd(s).value, s) == t
  {
    SpellMeans(t);
    RoundTrip(Spell(t));
  }
}
