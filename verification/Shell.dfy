/** sh.c: what the shell's parser computes. A line is a string without NUL; reading at its
    end gives NUL. Words are spans of the line, as the q and eq pointers are. */
module Shell {
  const MAXARGS := 10

  predicate IsSpace(c: char) {
    c == ' ' || c == '\t' || c == '\r' || c == '\n' || c == '\U{000B}'
  }

  predicate IsSymbol(c: char) {
    c == '<' || c == '|' || c == '>' || c == '&' || c == ';' || c == '(' || c == ')'
  }

  predicate IsWordChar(c: char) {
    c != '\0' && !IsSpace(c) && !IsSymbol(c)
  }

  predicate Line(s: string) {
    forall i :: 0 <= i < |s| ==> s[i] != '\0'
  }

  function At(s: string, i: nat): char {
    if i < |s| then s[i] else '\0'
  }

  // Tokens.

  function SkipSpace(s: string, i: nat): (j: nat)
    requires i <= |s|
    ensures i <= j <= |s|
    decreases |s| - i
  {
    if i < |s| && IsSpace(s[i]) then SkipSpace(s, i + 1) else i
  }

  function SkipWord(s: string, i: nat): (j: nat)
    requires i <= |s|
    ensures i <= j <= |s|
    decreases |s| - i
  {
    if i < |s| && !IsSpace(s[i]) && !IsSymbol(s[i]) then SkipWord(s, i + 1) else i
  }

  /** peek: the next character after spaces is one of toks. */
  predicate Peeks(s: string, i: nat, toks: string)
    requires i <= |s|
  {
    var c := At(s, SkipSpace(s, i));
    c != '\0' && c in toks
  }

  /** tok: NUL at the end, 'a' for a word, '+' for >>, else the symbol. */
  datatype Token = Token(tok: char, q: nat, eq: nat, next: nat)

  function GetToken(s: string, i: nat): (t: Token)
    requires i <= |s|
    ensures i <= t.q <= t.eq <= t.next <= |s|
    ensures t.tok != '\0' && Line(s) ==> i < t.next
  {
    var q := SkipSpace(s, i);
    var c := At(s, q);
    if c == '\0' then Token(c, q, q, SkipSpace(s, q))
    else if c == '>' && At(s, q + 1) == '>' then Token('+', q, q + 2, SkipSpace(s, q + 2))
    else if IsSymbol(c) then Token(c, q, q + 1, SkipSpace(s, q + 1))
    else Token('a', q, SkipWord(s, q), SkipSpace(s, SkipWord(s, q)))
  }

  // Commands.

  datatype Span = Span(q: nat, eq: nat)

  datatype Mode = Input | Output | Append

  datatype Redirect = Redirect(file: Span, mode: Mode)

  datatype Cmd =
    | Exec(argv: seq<Span>)
    | Redir(cmd: Cmd, to: Redirect)
    | Pipe(left: Cmd, right: Cmd)
    | List(left: Cmd, right: Cmd)
    | Back(cmd: Cmd)

  datatype Result<T> = Ok(value: T, next: nat) | Panic

  function ModeOf(tok: char): Mode {
    if tok == '<' then Input else if tok == '>' then Output else Append
  }

  function Wrap(cmd: Cmd, reds: seq<Redirect>): Cmd
    decreases |reds|
  {
    if reds == [] then cmd else Redir(Wrap(cmd, reds[..|reds| - 1]), reds[|reds| - 1])
  }

  /** The redirections from here on. */
  function ParseRedirs(s: string, i: nat): (r: Result<seq<Redirect>>)
    requires Line(s) && i <= |s|
    ensures r.Ok? ==> i <= r.next <= |s|
    decreases |s| - i
  {
    if Peeks(s, i, "<>") then
      var t := GetToken(s, i);
      var u := GetToken(s, t.next);
      if u.tok != 'a' then Panic
      else
        var rest := ParseRedirs(s, u.next);
        if rest.Panic? then Panic else Ok([Redirect(Span(u.q, u.eq), ModeOf(t.tok))] + rest.value, rest.next)
    else Ok([], SkipSpace(s, i))
  }

  /** The words of a simple command, with the redirections among them. */
  function ParseWords(s: string, i: nat, argc: nat): (r: Result<(seq<Span>, seq<Redirect>)>)
    requires Line(s) && i <= |s|
    ensures r.Ok? ==> i <= r.next <= |s|
    decreases |s| - i
  {
    if Peeks(s, i, "|)&;") then Ok(([], []), SkipSpace(s, i))
    else
      var t := GetToken(s, i);
      if t.tok == '\0' then Ok(([], []), t.next)
      else if t.tok != 'a' || argc + 1 >= MAXARGS then Panic
      else
        var reds := ParseRedirs(s, t.next);
        if reds.Panic? then Panic
        else
          var rest := ParseWords(s, reds.next, argc + 1);
          if rest.Panic? then Panic
          else Ok(([Span(t.q, t.eq)] + rest.value.0, reds.value + rest.value.1), rest.next)
  }

  function ParseExec(s: string, i: nat): (r: Result<Cmd>)
    requires Line(s) && i <= |s|
    ensures r.Ok? ==> i <= r.next <= |s|
    decreases |s| - i, 0
  {
    if Peeks(s, i, "(") then ParseBlock(s, i)
    else
      var reds := ParseRedirs(s, i);
      if reds.Panic? then Panic
      else
        var words := ParseWords(s, reds.next, 0);
        if words.Panic? then Panic else Ok(Wrap(Exec(words.value.0), reds.value + words.value.1), words.next)
  }

  function ParseBlock(s: string, i: nat): (r: Result<Cmd>)
    requires Line(s) && i <= |s|
    ensures r.Ok? ==> i < r.next <= |s|
    decreases |s| - i, 0, 0
  {
    if !Peeks(s, i, "(") then Panic
    else
      var t := GetToken(s, i);
      var line := ParseLine(s, t.next);
      if line.Panic? || !Peeks(s, line.next, ")") then Panic
      else
        var u := GetToken(s, line.next);
        var reds := ParseRedirs(s, u.next);
        if reds.Panic? then Panic else Ok(Wrap(line.value, reds.value), reds.next)
  }

  function ParsePipe(s: string, i: nat): (r: Result<Cmd>)
    requires Line(s) && i <= |s|
    ensures r.Ok? ==> i <= r.next <= |s|
    decreases |s| - i, 1
  {
    var left := ParseExec(s, i);
    if left.Panic? then Panic
    else if Peeks(s, left.next, "|") then
      var t := GetToken(s, left.next);
      var right := ParsePipe(s, t.next);
      if right.Panic? then Panic else Ok(Pipe(left.value, right.value), right.next)
    else Ok(left.value, SkipSpace(s, left.next))
  }

  /** The & signs after a command. */
  function ParseBacks(cmd: Cmd, s: string, i: nat): (r: Result<Cmd>)
    requires Line(s) && i <= |s|
    ensures r.Ok? && i <= r.next <= |s|
    decreases |s| - i
  {
    if Peeks(s, i, "&") then ParseBacks(Back(cmd), s, GetToken(s, i).next) else Ok(cmd, SkipSpace(s, i))
  }

  function ParseLine(s: string, i: nat): (r: Result<Cmd>)
    requires Line(s) && i <= |s|
    ensures r.Ok? ==> i <= r.next <= |s|
    decreases |s| - i, 2
  {
    var first := ParsePipe(s, i);
    if first.Panic? then Panic
    else
      var cmd := ParseBacks(first.value, s, first.next);
      if Peeks(s, cmd.next, ";") then
        var t := GetToken(s, cmd.next);
        var rest := ParseLine(s, t.next);
        if rest.Panic? then Panic else Ok(List(cmd.value, rest.value), rest.next)
      else Ok(cmd.value, SkipSpace(s, cmd.next))
  }

  function ParseCmd(s: string): Result<Cmd>
    requires Line(s)
  {
    var r := ParseLine(s, 0);
    if r.Panic? || SkipSpace(s, r.next) != |s| then Panic else Ok(r.value, |s|)
  }
}
