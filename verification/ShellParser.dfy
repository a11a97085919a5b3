/** sh.c: the parser as the recursive loops it is, and nulterminate on the line buffer. */
module ShellParser {
  import opened Shell

  lemma {:induction false} SkipTwice(s: string, i: nat)
    requires i <= |s|
    ensures SkipSpace(s, SkipSpace(s, i)) == SkipSpace(s, i)
    decreases |s| - i
  {
    if i < |s| && IsSpace(s[i]) {
      SkipTwice(s, i + 1);
    }
  }

  lemma {:induction false} SkipsAll(s: string, i: nat, j: nat)
    requires i <= j <= |s| && (forall k :: i <= k < j ==> IsSpace(s[k])) && (j == |s| || !IsSpace(s[j]))
    ensures SkipSpace(s, i) == j
    decreases j - i
  {
    if i < j {
      SkipsAll(s, i + 1, j);
    }
  }

  lemma {:induction false} WordEnds(s: string, i: nat, j: nat)
    requires i <= j <= |s| && (forall k :: i <= k < j ==> !IsSpace(s[k]) && !IsSymbol(s[k]))
    requires j == |s| || IsSpace(s[j]) || IsSymbol(s[j])
    ensures SkipWord(s, i) == j
    decreases j - i
  {
    if i < j {
      WordEnds(s, i + 1, j);
    }
  }

  method Skip(s: string, i: nat) returns (j: nat)
    requires i <= |s|
    ensures j == SkipSpace(s, i)
  {
    j := i;
    while j < |s| && IsSpace(s[j])
      invariant i <= j <= |s| && forall k :: i <= k < j ==> IsSpace(s[k])
    {
      j := j + 1;
    }
    SkipsAll(s, i, j);
  }

  method Gettoken(s: string, i: nat) returns (t: Token)
    requires Line(s) && i <= |s|
    ensures t == GetToken(s, i)
  {
    var q := Skip(s, i);
    var p, ret := q, At(s, q);
    if ret == '\0' {
    } else if ret == '|' || ret == '(' || ret == ')' || ret == ';' || ret == '&' || ret == '<' {
      p := p + 1;
    } else if ret == '>' {
      p := p + 1;
      if At(s, p) == '>' {
        ret := '+';
        p := p + 1;
      }
    } else {
      ret := 'a';
      while p < |s| && !IsSpace(s[p]) && !IsSymbol(s[p])
        invariant q <= p <= |s| && forall k :: q <= k < p ==> !IsSpace(s[k]) && !IsSymbol(s[k])
      {
        p := p + 1;
      }
      WordEnds(s, q, p);
    }
    var n := Skip(s, p);
    t := Token(ret, q, p, n);
  }

  method Peek(s: string, i: nat, toks: string) returns (j: nat, r: bool)
    requires i <= |s|
    ensures j == SkipSpace(s, i) && r == Peeks(s, i, toks)
    ensures GetToken(s, j) == GetToken(s, i)
  {
    j := Skip(s, i);
    SkipTwice(s, i);
    r := At(s, j) != '\0' && At(s, j) in toks;
  }

  function Prepend(acc: seq<Redirect>, r: Result<seq<Redirect>>): Result<seq<Redirect>> {
    if r.Panic? then Panic else Ok(acc + r.value, r.next)
  }

  lemma PrependNone(r: Result<seq<Redirect>>)
    ensures Prepend([], r) == r
  {
    if r.Ok? {
      assert [] + r.value == r.value;
    }
  }

  /** Spaces before a command or its redirections do not matter. */
  lemma RedirsAfterSpaces(s: string, i: nat, j: nat)
    requires Line(s) && i <= |s| && j == SkipSpace(s, i)
    ensures ParseRedirs(s, j) == ParseRedirs(s, i)
  {
    SkipTwice(s, i);
    assert Peeks(s, j, "<>") == Peeks(s, i, "<>") && GetToken(s, j) == GetToken(s, i);
  }

  lemma BlockAfterSpaces(s: string, i: nat, j: nat)
    requires Line(s) && i <= |s| && j == SkipSpace(s, i)
    ensures ParseBlock(s, j) == ParseBlock(s, i)
  {
    SkipTwice(s, i);
    assert Peeks(s, j, "(") == Peeks(s, i, "(") && GetToken(s, j) == GetToken(s, i);
  }

  lemma RedirsStep(s: string, j: nat, t: Token, u: Token, red: Redirect, acc: seq<Redirect>)
    requires Line(s) && j <= |s| && Peeks(s, j, "<>") && t == GetToken(s, j) && u == GetToken(s, t.next) && u.tok == 'a'
    requires red == Redirect(Span(u.q, u.eq), ModeOf(t.tok))
    ensures Prepend(acc, ParseRedirs(s, j)) == Prepend(acc + [red], ParseRedirs(s, u.next))
  {
    var rest := ParseRedirs(s, u.next);
    if rest.Ok? {
      assert acc + ([red] + rest.value) == acc + [red] + rest.value;
    }
  }

  method Parseredirs(s: string, i: nat) returns (r: Result<seq<Redirect>>)
    requires Line(s) && i <= |s|
    ensures r == ParseRedirs(s, i)
  {
    var j, acc := i, [];
    ghost var all := ParseRedirs(s, i);
    PrependNone(all);
    while true
      invariant i <= j <= |s| && all == Prepend(acc, ParseRedirs(s, j))
      decreases |s| - j
    {
      var k, more := Peek(s, j, "<>");
      if !more {
        assert acc + [] == acc;
        return Ok(acc, k);
      }
      var t := Gettoken(s, k);
      var u := Gettoken(s, t.next);
      if u.tok != 'a' {
        return Panic;
      }
      var red := Redirect(Span(u.q, u.eq), ModeOf(t.tok));
      RedirsStep(s, j, t, u, red, acc);
      acc, j := acc + [red], u.next;
    }
  }

  /** ParseWords with what has been found so far in front. */
  function WordsAfter(s: string, j: nat, args: seq<Span>, reds: seq<Redirect>): Result<(seq<Span>, seq<Redirect>)>
    requires Line(s) && j <= |s|
    decreases |s| - j
  {
    if Peeks(s, j, "|)&;") then Ok((args, reds), SkipSpace(s, j))
    else
      var t := GetToken(s, j);
      if t.tok == '\0' then Ok((args, reds), t.next)
      else if t.tok != 'a' || |args| + 1 >= MAXARGS then Panic
      else
        var more := ParseRedirs(s, t.next);
        if more.Panic? then Panic else WordsAfter(s, more.next, args + [Span(t.q, t.eq)], reds + more.value)
  }

  function PrependWords(args: seq<Span>, reds: seq<Redirect>, r: Result<(seq<Span>, seq<Redirect>)>): Result<(seq<Span>,
                        seq<Redirect>)> {
    if r.Panic? then Panic else Ok((args + r.value.0, reds + r.value.1), r.next)
  }

  lemma PrependMore(args: seq<Span>, reds: seq<Redirect>, x: Span, more: seq<Redirect>,
                    rest: Result<(seq<Span>, seq<Redirect>)>)
    ensures PrependWords(args, reds, PrependWords([x], more, rest)) == PrependWords(args + [x], reds + more, rest)
  {
    if rest.Ok? {
      assert args + ([x] + rest.value.0) == args + [x] + rest.value.0;
      assert reds + (more + rest.value.1) == reds + more + rest.value.1;
    }
  }

  /** parseexec goes on after n words. */
  predicate OneMore(s: string, j: nat, n: nat)
    requires Line(s) && j <= |s|
  {
    !Peeks(s, j, "|)&;") && n + 1 < MAXARGS && GetToken(s, j).tok == 'a' && ParseRedirs(s, GetToken(s, j).next).Ok?
  }

  lemma WordsStop(s: string, j: nat, args: seq<Span>, reds: seq<Redirect>)
    requires Line(s) && j <= |s| && !OneMore(s, j, |args|)
    ensures WordsAfter(s, j, args, reds) == PrependWords(args, reds, ParseWords(s, j, |args|))
  {
    assert args + [] == args && reds + [] == reds;
  }

  /** One more word, in both forms. */
  lemma WordsStep(s: string, j: nat, args: seq<Span>, reds: seq<Redirect>)
    returns (x: Span, more: seq<Redirect>, next: nat)
    requires Line(s) && j <= |s| && OneMore(s, j, |args|)
    ensures j < next <= |s| && WordsAfter(s, j, args, reds) == WordsAfter(s, next, args + [x], reds + more)
    ensures ParseWords(s, j, |args|) == PrependWords([x], more, ParseWords(s, next, |args| + 1))
  {
    var t := GetToken(s, j);
    var r := ParseRedirs(s, t.next);
    x, more, next := Span(t.q, t.eq), r.value, r.next;
  }

  lemma {:induction false} WordsAfterIs(s: string, j: nat, args: seq<Span>, reds: seq<Redirect>)
    requires Line(s) && j <= |s|
    ensures WordsAfter(s, j, args, reds) == PrependWords(args, reds, ParseWords(s, j, |args|))
    decreases |s| - j
  {
    if OneMore(s, j, |args|) {
      var x, more, next := WordsStep(s, j, args, reds);
      WordsAfterIs(s, next, args + [x], reds + more);
      PrependMore(args, reds, x, more, ParseWords(s, next, |args| + 1));
    } else {
      WordsStop(s, j, args, reds);
    }
  }

  lemma WordsFromStart(s: string, i: nat)
    requires Line(s) && i <= |s|
    ensures WordsAfter(s, i, [], []) == ParseWords(s, i, 0)
  {
    WordsAfterIs(s, i, [], []);
    var r := ParseWords(s, i, 0);
    if r.Ok? {
      assert [] + r.value.0 == r.value.0 && [] + r.value.1 == r.value.1;
    }
  }

  /** The while loop of parseexec. */
  method Words(s: string, i: nat) returns (r: Result<(seq<Span>, seq<Redirect>)>)
    requires Line(s) && i <= |s|
    ensures r == ParseWords(s, i, 0)
  {
    var j, args, reds := i, [], [];
    WordsFromStart(s, i);
    while true
      invariant i <= j <= |s| && |args| < MAXARGS && ParseWords(s, i, 0) == WordsAfter(s, j, args, reds)
      decreases |s| - j
    {
      var k, stop := Peek(s, j, "|)&;");
      if stop {
        return Ok((args, reds), k);
      }
      var t := Gettoken(s, k);
      if t.tok == '\0' {
        return Ok((args, reds), t.next);
      }
      if t.tok != 'a' {
        return Panic;
      }
      if |args| + 1 >= MAXARGS {
        return Panic;
      }
      var more := Parseredirs(s, t.next);
      if more.Panic? {
        return Panic;
      }
      args, reds, j := args + [Span(t.q, t.eq)], reds + more.value, more.next;
    }
  }

  method Parseexec(s: string, i: nat) returns (r: Result<Cmd>)
    requires Line(s) && i <= |s|
    ensures r == ParseExec(s, i)
    decreases |s| - i, 0
  {
    var j, block := Peek(s, i, "(");
    if block {
      BlockAfterSpaces(s, i, j);
      r := Parseblock(s, j);
      return;
    }
    RedirsAfterSpaces(s, i, j);
    var reds := Parseredirs(s, j);
    if reds.Panic? {
      return Panic;
    }
    var words := Words(s, reds.next);
    if words.Panic? {
      return Panic;
    }
    return Ok(Wrap(Exec(words.value.0), reds.value + words.value.1), words.next);
  }

  method Parseblock(s: string, i: nat) returns (r: Result<Cmd>)
    requires Line(s) && i <= |s|
    ensures r == ParseBlock(s, i)
    decreases |s| - i, 0, 0
  {
    var j, open := Peek(s, i, "(");
    if !open {
      return Panic;
    }
    var t := Gettoken(s, j);
    var line := Parseline(s, t.next);
    if line.Panic? {
      return Panic;
    }
    var k, close := Peek(s, line.next, ")");
    if !close {
      return Panic;
    }
    var u := Gettoken(s, k);
    var reds := Parseredirs(s, u.next);
    if reds.Panic? {
      return Panic;
    }
    return Ok(Wrap(line.value, reds.value), reds.next);
  }

  method Parsepipe(s: string, i: nat) returns (r: Result<Cmd>)
    requires Line(s) && i <= |s|
    ensures r == ParsePipe(s, i)
    decreases |s| - i, 1
  {
    var left := Parseexec(s, i);
    if left.Panic? {
      return Panic;
    }
    var k, more := Peek(s, left.next, "|");
    if !more {
      return Ok(left.value, k);
    }
    var t := Gettoken(s, k);
    var right := Parsepipe(s, t.next);
    if right.Panic? {
      return Panic;
    }
    return Ok(Pipe(left.value, right.value), right.next);
  }

  method Parseline(s: string, i: nat) returns (r: Result<Cmd>)
    requires Line(s) && i <= |s|
    ensures r == ParseLine(s, i)
    decreases |s| - i, 2
  {
    var first := Parsepipe(s, i);
    if first.Panic? {
      return Panic;
    }
    var cmd, j := first.value, first.next;
    while true
      invariant i <= j <= |s| && ParseBacks(first.value, s, first.next) == ParseBacks(cmd, s, j)
      decreases |s| - j
    {
      var k, back := Peek(s, j, "&");
      if !back {
        j := k;
        break;
      }
      var t := Gettoken(s, k);
      cmd, j := Back(cmd), t.next;
    }
    var k, more := Peek(s, j, ";");
    if !more {
      return Ok(cmd, k);
    }
    var t := Gettoken(s, k);
    var rest := Parseline(s, t.next);
    if rest.Panic? {
      return Panic;
    }
    return Ok(List(cmd, rest.value), rest.next);
  }

  // Spans are words of the line.

  /** x is a maximal run of word characters. */
  ghost predicate WordAt(s: string, x: Span) {
    && x.q < x.eq <= |s| && !IsWordChar(At(s, x.eq))
    && forall k :: x.q <= k < x.eq ==> IsWordChar(s[k])
  }

  function Files(reds: seq<Redirect>): seq<Span> {
    seq(|reds|, i requires 0 <= i < |reds| => reds[i].file)
  }

  /** All words and file names of a command. */
  function Spans(c: Cmd): seq<Span> {
    match c
    case Exec(argv) => argv
    case Redir(d, to) => Spans(d) + [to.file]
    case Pipe(l, r) => Spans(l) + Spans(r)
    case List(l, r) => Spans(l) + Spans(r)
    case Back(d) => Spans(d)
  }

  ghost predicate AllWords(s: string, xs: seq<Span>) {
    forall i :: 0 <= i < |xs| ==> WordAt(s, xs[i])
  }

  lemma {:induction false} SkipWordIs(s: string, i: nat)
    requires Line(s) && i <= |s|
    ensures forall k :: i <= k < SkipWord(s, i) ==> IsWordChar(s[k])
    ensures !IsWordChar(At(s, SkipWord(s, i)))
    decreases |s| - i
  {
    if i < |s| && !IsSpace(s[i]) && !IsSymbol(s[i]) {
      SkipWordIs(s, i + 1);
    }
  }

  lemma TokenIsWord(s: string, i: nat)
    requires Line(s) && i <= |s| && GetToken(s, i).tok == 'a'
    ensures WordAt(s, Span(GetToken(s, i).q, GetToken(s, i).eq))
  {
    SkipTwice(s, i);
    SkipWordIs(s, SkipSpace(s, i));
  }

  lemma FilesCat(a: seq<Redirect>, b: seq<Redirect>)
    ensures Files(a + b) == Files(a) + Files(b)
  {
  }

  lemma {:induction false} RedirsAreWords(s: string, i: nat)
    requires Line(s) && i <= |s| && ParseRedirs(s, i).Ok?
    ensures AllWords(s, Files(ParseRedirs(s, i).value))
    decreases |s| - i
  {
    if Peeks(s, i, "<>") {
      var t := GetToken(s, i);
      var u := GetToken(s, t.next);
      TokenIsWord(s, t.next);
      RedirsAreWords(s, u.next);
      FilesCat([Redirect(Span(u.q, u.eq), ModeOf(t.tok))], ParseRedirs(s, u.next).value);
    }
  }

  lemma {:induction false} ArgsAreWords(s: string, i: nat, argc: nat)
    requires Line(s) && i <= |s| && ParseWords(s, i, argc).Ok?
    ensures AllWords(s, ParseWords(s, i, argc).value.0) && AllWords(s, Files(ParseWords(s, i, argc).value.1))
    decreases |s| - i
  {
    if !Peeks(s, i, "|)&;") {
      var t := GetToken(s, i);
      if t.tok != '\0' {
        TokenIsWord(s, i);
        var reds := ParseRedirs(s, t.next);
        RedirsAreWords(s, t.next);
        ArgsAreWords(s, reds.next, argc + 1);
        FilesCat(reds.value, ParseWords(s, reds.next, argc + 1).value.1);
      }
    }
  }

  lemma {:induction false} WrapSpans(c: Cmd, reds: seq<Redirect>)
    ensures Spans(Wrap(c, reds)) == Spans(c) + Files(reds)
    decreases |reds|
  {
    if reds == [] {
      assert Files(reds) == [];
    } else {
      var n := |reds| - 1;
      WrapSpans(c, reds[..n]);
      assert Files(reds) == Files(reds[..n]) + [reds[n].file];
    }
  }

  lemma {:induction false} ExecAreWords(s: string, i: nat)
    requires Line(s) && i <= |s| && ParseExec(s, i).Ok?
    ensures AllWords(s, Spans(ParseExec(s, i).value))
    decreases |s| - i, 0
  {
    if Peeks(s, i, "(") {
      var t := GetToken(s, i);
      LineAreWords(s, t.next);
      var line := ParseLine(s, t.next);
      var u := GetToken(s, line.next);
      RedirsAreWords(s, u.next);
      WrapSpans(line.value, ParseRedirs(s, u.next).value);
    } else {
      var reds := ParseRedirs(s, i);
      RedirsAreWords(s, i);
      ArgsAreWords(s, reds.next, 0);
      var words := ParseWords(s, reds.next, 0);
      FilesCat(reds.value, words.value.1);
      WrapSpans(Exec(words.value.0), reds.value + words.value.1);
    }
  }

  lemma {:induction false} PipeAreWords(s: string, i: nat)
    requires Line(s) && i <= |s| && ParsePipe(s, i).Ok?
    ensures AllWords(s, Spans(ParsePipe(s, i).value))
    decreases |s| - i, 1
  {
    ExecAreWords(s, i);
    var more, j := PipeIs(s, i);
    if more {
      PipeAreWords(s, j);
    }
  }

  lemma PipeIs(s: string, i: nat) returns (more: bool, j: nat)
    requires Line(s) && i <= |s| && ParsePipe(s, i).Ok?
    ensures ParseExec(s, i).Ok? && (!more ==> ParsePipe(s, i).value == ParseExec(s, i).value)
    ensures more ==> i < j <= |s| && ParsePipe(s, j).Ok?
                     && ParsePipe(s, i).value == Pipe(ParseExec(s, i).value, ParsePipe(s, j).value)
  {
    var left := ParseExec(s, i);
    more, j := Peeks(s, left.next, "|"), GetToken(s, left.next).next;
  }

  lemma {:induction false} BacksKeepSpans(cmd: Cmd, s: string, i: nat)
    requires Line(s) && i <= |s|
    ensures Spans(ParseBacks(cmd, s, i).value) == Spans(cmd)
    decreases |s| - i
  {
    if Peeks(s, i, "&") {
      BacksKeepSpans(Back(cmd), s, GetToken(s, i).next);
    }
  }

  /** Every argument and file name that the parser finds is a word of the line. */
  lemma {:induction false} LineAreWords(s: string, i: nat)
    requires Line(s) && i <= |s| && ParseLine(s, i).Ok?
    ensures AllWords(s, Spans(ParseLine(s, i).value))
    decreases |s| - i, 2
  {
    PipeAreWords(s, i);
    var first := ParsePipe(s, i);
    BacksKeepSpans(first.value, s, first.next);
    var cmd := ParseBacks(first.value, s, first.next);
    if Peeks(s, cmd.next, ";") {
      LineAreWords(s, GetToken(s, cmd.next).next);
    }
  }

  // nulterminate.

  /** The positions that nulterminate overwrites. */
  predicate Ends(xs: seq<Span>, k: nat) {
    exists i :: 0 <= i < |xs| && xs[i].eq == k
  }

  predicate InBuffer(xs: seq<Span>, n: nat) {
    forall i :: 0 <= i < |xs| ==> xs[i].eq < n
  }

  lemma EndsCat(xs: seq<Span>, ys: seq<Span>, k: nat)
    ensures Ends(xs + ys, k) <==> Ends(xs, k) || Ends(ys, k)
  {
    if i :| 0 <= i < |xs| && xs[i].eq == k {
      assert (xs + ys)[i].eq == k;
    }
    if i :| 0 <= i < |ys| && ys[i].eq == k {
      assert (xs + ys)[|xs| + i].eq == k;
    }
    if i :| 0 <= i < |xs + ys| && (xs + ys)[i].eq == k {
      assert if i < |xs| then xs[i].eq == k else ys[i - |xs|].eq == k;
    }
  }

  /** Put a NUL after every word, in place. */
  method Nulterminate(c: Cmd, buf: array<char>)
    requires InBuffer(Spans(c), buf.Length)
    modifies buf
    ensures forall k :: 0 <= k < buf.Length ==> buf[k] == if Ends(Spans(c), k) then '\0' else old(buf[k])
    decreases c
  {
    match c
    case Exec(argv) =>
      var i := 0;
      while i < |argv|
        invariant 0 <= i <= |argv|
        invariant forall k :: 0 <= k < buf.Length ==> buf[k] == if Ends(argv[..i], k) then '\0' else old(buf[k])
      {
        buf[argv[i].eq] := '\0';
        forall k | 0 <= k < buf.Length
          ensures Ends(argv[..i + 1], k) <==> Ends(argv[..i], k) || argv[i].eq == k
        {
          assert argv[..i + 1] == argv[..i] + [argv[i]];
          EndsCat(argv[..i], [argv[i]], k);
          assert Ends([argv[i]], k) <==> [argv[i]][0].eq == k;
        }
        i := i + 1;
      }
      assert argv[..i] == argv;
    case Redir(d, to) =>
      EndsOf(Spans(d), [to.file], buf.Length);
      Nulterminate(d, buf);
      buf[to.file.eq] := '\0';
    case Pipe(l, r) =>
      EndsOf(Spans(l), Spans(r), buf.Length);
      Nulterminate(l, buf);
      Nulterminate(r, buf);
    case List(l, r) =>
      EndsOf(Spans(l), Spans(r), buf.Length);
      Nulterminate(l, buf);
      Nulterminate(r, buf);
    case Back(d) =>
      Nulterminate(d, buf);
  }

  lemma EndsOf(xs: seq<Span>, ys: seq<Span>, n: nat)
    requires InBuffer(xs + ys, n)
    ensures InBuffer(xs, n) && InBuffer(ys, n)
    ensures forall k: nat :: Ends(xs + ys, k) <==> Ends(xs, k) || Ends(ys, k)
    ensures |ys| == 1 ==> ys[0].eq < n && forall k: nat :: Ends(ys, k) <==> ys[0].eq == k
  {
    forall i | 0 <= i < |xs|
      ensures xs[i].eq < n
    {
      assert (xs + ys)[i].eq < n;
    }
    forall i | 0 <= i < |ys|
      ensures ys[i].eq < n
    {
      assert (xs + ys)[|xs| + i].eq < n;
    }
    forall k: nat
      ensures Ends(xs + ys, k) <==> Ends(xs, k) || Ends(ys, k)
    {
      EndsCat(xs, ys, k);
    }
  }

  /** The C string at p. */
  ghost predicate StringAt(buf: seq<char>, p: nat, w: string) {
    && p + |w| < |buf| && buf[p + |w|] == '\0'
    && forall k :: 0 <= k < |w| ==> buf[p + k] == w[k] != '\0'
  }

  ghost predicate ReadsBack(s: string, buf: seq<char>, x: Span) {
    x.q <= x.eq <= |s| && StringAt(buf, x.q, s[x.q..x.eq])
  }

  /** After nulterminate every word reads as it did in the line, although the ends were
      overwritten in place. */
  lemma TerminatedWords(s: string, c: Cmd, buf: seq<char>, x: Span)
    requires Line(s) && AllWords(s, Spans(c)) && x in Spans(c) && |s| < |buf|
    requires forall k :: 0 <= k <= |s| ==> buf[k] == if Ends(Spans(c), k) then '\0' else At(s, k)
    ensures ReadsBack(s, buf, x)
  {
    var xs := Spans(c);
    var i :| 0 <= i < |xs| && xs[i] == x;
    assert WordAt(s, x) && Ends(xs, x.eq);
    forall k | x.q <= k < x.eq
      ensures !Ends(xs, k)
    {
      assert IsWordChar(s[k]);
      assert forall j :: 0 <= j < |xs| ==> WordAt(s, xs[j]);
    }
  }

  /** buf holds the line s, ended by NUL. */
  ghost predicate Holds(buf: seq<char>, s: string) {
    |s| < |buf| && forall k :: 0 <= k <= |s| ==> buf[k] == At(s, k)
  }

  /** parsecmd: Panic stands for every syntax error. The words of the command become C
      strings inside the buffer, and nothing past the line changes. */
  method Parsecmd(s: string, buf: array<char>) returns (r: Result<Cmd>)
    requires Line(s) && Holds(buf[..], s)
    modifies buf
    ensures r == ParseCmd(s)
    ensures r.Panic? ==> buf[..] == old(buf[..])
    ensures r.Ok? ==> forall i :: 0 <= i < |Spans(r.value)| ==> ReadsBack(s, buf[..], Spans(r.value)[i])
    ensures forall k :: |s| < k < buf.Length ==> buf[k] == old(buf[k])
  {
    var line := Parseline(s, 0);
    if line.Panic? {
      return Panic;
    }
    var j, _ := Peek(s, line.next, "");
    if j != |s| {
      return Panic;
    }
    LineAreWords(s, 0);
    ghost var xs := Spans(line.value);
    assert forall i :: 0 <= i < |xs| ==> WordAt(s, xs[i]);
    Nulterminate(line.value, buf);
    forall i | 0 <= i < |xs|
      ensures ReadsBack(s, buf[..], xs[i])
    {
      TerminatedWords(s, line.value, buf[..], xs[i]);
    }
    return Ok(line.value, |s|);
  }
}
