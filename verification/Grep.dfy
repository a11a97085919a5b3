/** grep.c: the regular expression matcher and the buffered line loop. Strings are the
    characters before the terminating NUL. */
module Grep {
  // What a pattern means.

  datatype Item = Lit(c: char) | Star(c: char) | End

  /** A starred character, a final '$', or a character by itself. */
  function Items(re: string): seq<Item> {
    if re == "" then []
    else if |re| >= 2 && re[1] == '*' then [Star(re[0])] + Items(re[2..])
    else if re == "$" then [End]
    else [Lit(re[0])] + Items(re[1..])
  }

  predicate Fits(c: char, d: char) {
    c == '.' || c == d
  }

  /** The strings that a list of items denotes. */
  ghost predicate Denotes(items: seq<Item>, w: string) {
    if items == [] then w == ""
    else
      match items[0]
      case Lit(c) => w != "" && Fits(c, w[0]) && Denotes(items[1..], w[1..])
      case Star(c) => exists k :: Stars(c, w, k) && Denotes(items[1..], w[k..])
      case End => w == "" && Denotes(items[1..], w)
  }

  /** The first k characters of w all fit c. */
  predicate Stars(c: char, w: string, k: int) {
    0 <= k <= |w| && forall i :: 0 <= i < k ==> Fits(c, w[i])
  }

  predicate Anchored(re: string) {
    EndsIn(Items(re))
  }

  /** A prefix of text is in the language, all of text if the pattern ends in '$'. */
  ghost predicate Here(re: string, text: string) {
    exists n :: HereAt(re, text, n)
  }

  ghost predicate HereAt(re: string, text: string, n: int) {
    0 <= n <= |text| && Denotes(Items(re), text[..n]) && (Anchored(re) ==> n == |text|)
  }

  /** Some substring of text is in the language; a prefix under '^', a suffix under '$'. */
  ghost predicate Matches(re: string, text: string) {
    if re != "" && re[0] == '^' then Here(re[1..], text)
    else exists i :: 0 <= i <= |text| && Here(re, text[i..])
  }

  // How the meaning unfolds.

  lemma HereEmpty(text: string)
    ensures Here("", text)
  {
    assert HereAt("", text, 0);
  }

  lemma ItemsTail(re: string, k: nat)
    requires re != "" && k <= |re| && Items(re) == [Items(re)[0]] + Items(re[k..]) && !Items(re)[0].End?
    ensures Anchored(re) == Anchored(re[k..])
  {
    SameEnd(Items(re)[0], Items(re[k..]));
  }

  predicate EndsIn(items: seq<Item>) {
    items != [] && items[|items| - 1].End?
  }

  lemma SameEnd(x: Item, rest: seq<Item>)
    requires !x.End?
    ensures EndsIn([x] + rest) == EndsIn(rest)
  {
  }

  lemma HereEnd(text: string)
    ensures Here("$", text) <==> text == ""
  {
    assert Items("$") == [End];
    if text == "" {
      assert Denotes([End][1..], "");
      assert HereAt("$", text, 0);
    }
  }

  lemma HereLit(re: string, text: string)
    requires re != "" && !(|re| >= 2 && re[1] == '*') && re != "$"
    ensures Here(re, text) <==> text != "" && Fits(re[0], text[0]) && Here(re[1..], text[1..])
  {
    var items := Items(re);
    assert items == [Lit(re[0])] + Items(re[1..]) && items[1..] == Items(re[1..]);
    ItemsTail(re, 1);
    if n :| HereAt(re, text, n) {
      assert text[..n][1..] == text[1..][..n - 1];
      assert HereAt(re[1..], text[1..], n - 1);
    }
    if text != "" && Fits(re[0], text[0]) && Here(re[1..], text[1..]) {
      var n :| HereAt(re[1..], text[1..], n);
      assert text[..n + 1][1..] == text[1..][..n];
      assert HereAt(re, text, n + 1);
    }
  }

  lemma HereStar(re: string, text: string)
    requires |re| >= 2 && re[1] == '*'
    ensures Here(re, text) <==> exists k :: Stars(re[0], text, k) && Here(re[2..], text[k..])
  {
    var items := Items(re);
    assert items == [Star(re[0])] + Items(re[2..]) && items[1..] == Items(re[2..]);
    ItemsTail(re, 2);
    if n :| HereAt(re, text, n) {
      var w := text[..n];
      var k :| Stars(re[0], w, k) && Denotes(items[1..], w[k..]);
      assert w[k..] == text[k..][..n - k];
      assert HereAt(re[2..], text[k..], n - k);
      assert Stars(re[0], text, k) && Here(re[2..], text[k..]);
    }
    if k :| Stars(re[0], text, k) && Here(re[2..], text[k..]) {
      var n :| HereAt(re[2..], text[k..], n);
      var w := text[..k + n];
      assert w[k..] == text[k..][..n] && Stars(re[0], w, k);
      assert HereAt(re, text, k + n);
    }
  }

  // The matcher.

  method MatchHere(re: string, text: string) returns (r: bool)
    ensures r <==> Here(re, text)
    decreases |re|, 1
  {
    if re == "" {
      HereEmpty(text);
      return true;
    }
    if |re| >= 2 && re[1] == '*' {
      HereStar(re, text);
      r := MatchStar(re[0], re[2..], text);
      return;
    }
    if re[0] == '$' && |re| == 1 {
      HereEnd(text);
      return text == "";
    }
    HereLit(re, text);
    if text != "" && (re[0] == '.' || re[0] == text[0]) {
      r := MatchHere(re[1..], text[1..]);
      return;
    }
    return false;
  }

  method MatchStar(c: char, re: string, text: string) returns (r: bool)
    ensures r <==> exists k :: Stars(c, text, k) && Here(re, text[k..])
    decreases |re|, 2
  {
    var k := 0;
    while true
      invariant Stars(c, text, k) && forall j :: 0 <= j < k ==> !Here(re, text[j..])
      decreases |text| - k
    {
      r := MatchHere(re, text[k..]);
      if r {
        return;
      }
      if k == |text| || !(text[k] == c || c == '.') {
        assert forall j :: Stars(c, text, j) ==> j <= k;
        return false;
      }
      k := k + 1;
    }
  }

  method Match(re: string, text: string) returns (r: bool)
    ensures r <==> Matches(re, text)
  {
    if re != "" && re[0] == '^' {
      r := MatchHere(re[1..], text);
      return;
    }
    var i := 0;
    while true
      invariant 0 <= i <= |text| && forall j :: 0 <= j < i ==> !Here(re, text[j..])
      decreases |text| - i
    {
      r := MatchHere(re, text[i..]);
      if r {
        return;
      }
      if i == |text| {
        return false;
      }
      i := i + 1;
    }
  }

  /** The same in terms of substrings. */
  lemma MatchesSubstring(re: string, text: string)
    requires re == "" || re[0] != '^'
    ensures Matches(re, text) <==>
              exists i, j :: 0 <= i <= j <= |text| && Denotes(Items(re), text[i..j]) && (Anchored(re) ==> j == |text|)
  {
    if i :| 0 <= i <= |text| && Here(re, text[i..]) {
      var n :| HereAt(re, text[i..], n);
      assert text[i..][..n] == text[i..i + n];
    }
    if i, j :| 0 <= i <= j <= |text| && Denotes(Items(re), text[i..j]) && (Anchored(re) ==> j == |text|) {
      assert text[i..][..j - i] == text[i..j];
      assert HereAt(re, text[i..], j - i);
    }
  }

  // Lines.

  function LineFrom(s: string, i: nat): (q: nat)
    requires i <= |s|
    ensures i <= q <= |s| && (forall k :: i <= k < q ==> s[k] != '\n') && (q < |s| ==> s[q] == '\n')
    decreases |s| - i
  {
    if i == |s| || s[i] == '\n' then i else LineFrom(s, i + 1)
  }

  /** Where the first line of s ends, |s| if it does not. */
  function LineEnd(s: string): (q: nat)
    ensures q <= |s| && (forall i :: 0 <= i < q ==> s[i] != '\n') && (q < |s| ==> s[q] == '\n')
  {
    LineFrom(s, 0)
  }

  /** The lines of s that are kept, each with its newline; a last line without one is left out. */
  ghost function Selected(keep: string -> bool, s: string): string
    decreases |s|
  {
    var q := LineEnd(s);
    if q == |s| then ""
    else (if keep(s[..q]) then s[..q + 1] else "") + Selected(keep, s[q + 1..])
  }

  /** What follows the last newline. */
  function Tail(s: string): string
    decreases |s|
  {
    var q := LineEnd(s);
    if q == |s| then s else Tail(s[q + 1..])
  }

  lemma LineEndIs(s: string, q: nat)
    requires q <= |s| && (forall i :: 0 <= i < q ==> s[i] != '\n') && (q < |s| ==> s[q] == '\n')
    ensures LineEnd(s) == q
  {
  }

  ghost function Printed(keep: string -> bool, line: string): string {
    if keep(line) then line + "\n" else ""
  }

  lemma Peel(keep: string -> bool, s: string, q: nat, line: string, rest: string)
    requires q == LineEnd(s) < |s| && line == s[..q] && rest == s[q + 1..]
    ensures Selected(keep, s) == Printed(keep, line) + Selected(keep, rest) && Tail(s) == Tail(rest)
  {
    assert s[..q + 1] == s[..q] + [s[q]];
  }

  lemma PeelLast(keep: string -> bool, s: string)
    requires LineEnd(s) == |s|
    ensures Selected(keep, s) == "" && Tail(s) == s
  {
  }

  lemma LineEndAppend(s: string, t: string, q: nat)
    requires q == LineEnd(s) < |s|
    ensures LineEnd(s + t) == q && (s + t)[..q] == s[..q] && (s + t)[q + 1..] == s[q + 1..] + t
  {
    LineEndIs(s + t, q);
  }

  lemma PeelAppend(keep: string -> bool, s: string, t: string, q: nat)
    requires q == LineEnd(s) < |s|
    ensures Selected(keep, s + t) == Printed(keep, s[..q]) + Selected(keep, s[q + 1..] + t)
            && Tail(s + t) == Tail(s[q + 1..] + t)
  {
    LineEndAppend(s, t, q);
    Peel(keep, s + t, q, s[..q], s[q + 1..] + t);
  }

  /** More input is more lines after the tail. */
  lemma {:induction false} AppendLines(keep: string -> bool, s: string, t: string)
    ensures Selected(keep, s + t) == Selected(keep, s) + Selected(keep, Tail(s) + t)
    ensures Tail(s + t) == Tail(Tail(s) + t)
    decreases |s|
  {
    var q := LineEnd(s);
    if q < |s| {
      var rest := s[q + 1..];
      AppendLines(keep, rest, t);
      PeelAppend(keep, s, t, q);
      Peel(keep, s, q, s[..q], rest);
      Associates(Printed(keep, s[..q]), Selected(keep, rest), Selected(keep, Tail(rest) + t));
    } else {
      PeelLast(keep, s);
      Associates("", "", Selected(keep, s + t));
    }
  }

  lemma Associates(a: string, b: string, c: string)
    ensures a + (b + c) == a + b + c && "" + c == c
  {
  }

  /** The tail is what s ends with after its last newline. */
  lemma {:induction false} TailIs(s: string)
    ensures |Tail(s)| <= |s| && Tail(s) == s[|s| - |Tail(s)|..] && forall i :: 0 <= i < |Tail(s)| ==> Tail(s)[i] != '\n'
    ensures |Tail(s)| < |s| ==> s[|s| - |Tail(s)| - 1] == '\n'
    decreases |s|
  {
    var q := LineEnd(s);
    if q < |s| {
      TailIs(s[q + 1..]);
    }
  }

  const BUFFER := 1024

  predicate NoNewline(s: string, i: int, j: int) {
    0 <= i <= j <= |s| && forall k :: i <= k < j ==> s[k] != '\n'
  }

  /** A read returns between one and `space` bytes of what is left, or nothing. */
  function ReadSize(want: nat, space: nat, left: nat): (n: nat)
    ensures n <= space && n <= left && (n == 0 <==> space == 0 || left == 0)
  {
    if space == 0 || left == 0 then 0
    else if want == 0 then 1
    else if want <= space && want <= left then want
    else if space <= left then space
    else left
  }

  /** strchr(buf + p, '\n') in a buffer that ends with a NUL at m. */
  method FindNewline(buf: array<char>, p: nat, m: nat) returns (q: nat, found: bool)
    requires p <= m < buf.Length && buf[m] == '\0' && forall i :: p <= i < m ==> buf[i] != '\0'
    ensures q == p + LineEnd(buf[p..m]) && (found <==> q < m)
  {
    q := p;
    while buf[q] != '\0'
      invariant p <= q <= m && forall i :: p <= i < q ==> buf[i] != '\n'
      decreases m - q
    {
      if buf[q] == '\n' {
        LineEndIs(buf[p..m], q - p);
        return q, true;
      }
      q := q + 1;
    }
    LineEndIs(buf[p..m], q - p);
    return q, false;
  }

  /** keep holds of the lines that match re. */
  ghost predicate Keeps(re: string, keep: string -> bool) {
    forall line {:trigger Matches(re, line)} :: Matches(re, line) <==> keep(line)
  }

  ghost function Keep(re: string): (keep: string -> bool)
    ensures Keeps(re, keep)
  {
    line => Matches(re, line)
  }

  /** The string at p is buf[p..m]. */
  ghost predicate Ends(buf: array<char>, p: nat, m: nat)
    reads buf
  {
    p <= m < buf.Length && buf[m] == '\0' && forall i :: p <= i < m ==> buf[i] != '\0'
  }

  /** Match the line buf[p..q] with its newline overwritten, and print it if it matches. */
  method Try(re: string, ghost keep: string -> bool, buf: array<char>, p: nat, q: nat, ghost m: nat)
    returns (out: string)
    requires Keeps(re, keep) && Ends(buf, p, m) && p <= q < m && buf[q] == '\n'
    modifies buf
    ensures Ends(buf, q + 1, m)
    ensures out == Printed(keep, old(buf[p..m])[..q - p]) && buf[q + 1..m] == old(buf[p..m])[q - p + 1..]
  {
    ghost var s := buf[p..m];
    buf[q] := '\0';
    assert buf[p..q] == s[..q - p];
    out := "";
    var hit := Match(re, buf[p..q]);
    if hit {
      buf[q] := '\n';
      out := buf[p..q + 1];
      assert out == s[..q - p] + "\n";
    }
  }

  /** Of the text `all`, `out` has been printed and s is left. */
  ghost predicate Printing(keep: string -> bool, all: string, out: string, s: string) {
    out + Selected(keep, s) == Selected(keep, all) && Tail(s) == Tail(all)
  }

  lemma PrintMore(keep: string -> bool, all: string, out: string, s: string, q: nat, line: string, rest: string)
    requires Printing(keep, all, out, s) && q == LineEnd(s) < |s| && line == Printed(keep, s[..q]) && rest == s[q + 1..]
    ensures Printing(keep, all, out + line, rest)
  {
    Peel(keep, s, q, s[..q], rest);
    assert out + line + Selected(keep, rest) == out + (line + Selected(keep, rest));
  }

  lemma PrintDone(keep: string -> bool, all: string, out: string, s: string)
    requires Printing(keep, all, out, s) && LineEnd(s) == |s|
    ensures out == Selected(keep, all) && s == Tail(all)
  {
    PeelLast(keep, s);
  }

  /** One round of the line loop. */
  method NextLine(re: string, ghost keep: string -> bool, buf: array<char>, p: nat, m: nat, ghost all: string,
                  out: string)
    returns (found: bool, p': nat, out': string)
    requires Keeps(re, keep) && Ends(buf, p, m) && Printing(keep, all, out, buf[p..m])
    modifies buf
    ensures Ends(buf, p', m) && Printing(keep, all, out', buf[p'..m])
    ensures if found then p < p' else p' == p && out' == out && LineEnd(buf[p..m]) == m - p
  {
    var q;
    q, found := FindNewline(buf, p, m);
    if !found {
      return false, p, out;
    }
    ghost var s := buf[p..m];
    var line := Try(re, keep, buf, p, q, m);
    PrintMore(keep, all, out, s, q - p, line, buf[q + 1..m]);
    return true, q + 1, out + line;
  }

  /** Print the complete lines of the buffer that match. */
  method Scan(re: string, ghost keep: string -> bool, buf: array<char>, m: nat) returns (p: nat, out: string)
    requires Keeps(re, keep) && Ends(buf, 0, m)
    modifies buf
    ensures p <= m && buf[p..m] == Tail(old(buf[..m])) && out == Selected(keep, old(buf[..m]))
  {
    p, out := 0, "";
    ghost var all := buf[..m];
    assert buf[0..m] == all;
    var found := true;
    while found
      invariant Ends(buf, p, m) && Printing(keep, all, out, buf[p..m])
      invariant found || LineEnd(buf[p..m]) == m - p
      decreases m - p, found
    {
      found, p, out := NextLine(re, keep, buf, p, m, all, out);
    }
    PrintDone(keep, all, out, buf[p..m]);
  }

  /** Copy a read's bytes into the buffer after the m bytes kept, and the NUL after them. */
  method Fill(buf: array<char>, m: nat, bytes: string)
    requires m + |bytes| < buf.Length && forall i :: 0 <= i < |bytes| ==> bytes[i] != '\0'
    modifies buf
    ensures buf[..m + |bytes|] == old(buf[..m]) + bytes && buf[m + |bytes|] == '\0'
  {
    var k := 0;
    while k < |bytes|
      invariant 0 <= k <= |bytes| && buf[..m] == old(buf[..m]) && buf[m..m + k] == bytes[..k]
    {
      buf[m + k] := bytes[k];
      assert buf[m..m + k + 1] == buf[m..m + k] + [bytes[k]];
      k := k + 1;
    }
    buf[m + k] := '\0';
    assert buf[..m + k] == buf[..m] + buf[m..m + k];
  }

  /** memmove(buf, buf + p, n). */
  method MoveDown(buf: array<char>, p: nat, n: nat)
    requires p + n <= buf.Length
    modifies buf
    ensures buf[..n] == old(buf[p..p + n])
  {
    var k := 0;
    while k < n
      invariant 0 <= k <= n && buf[..k] == old(buf[p..p + k])
      invariant buf[p + k..p + n] == old(buf[p + k..p + n])
    {
      assert buf[p + k] == old(buf[p + k..p + n])[0];
      ghost var rest := buf[p + k + 1..p + n];
      buf[k] := buf[p + k];
      assert buf[p + k + 1..p + n] == rest;
      k := k + 1;
    }
  }

  /** The end of the first k characters, still without a newline, fits in the buffer. */
  ghost predicate Short(input: string, k: nat) {
    k <= |input| && |Tail(input[..k])| < BUFFER - 1
  }

  /** The first place from k on where a line fills the buffer, or the end of the input. */
  ghost function StopFrom(input: string, k: nat): (stop: nat)
    requires k <= |input|
    ensures k <= stop <= |input|
    decreases |input| - k
  {
    if k == |input| || !Short(input, k) then k else StopFrom(input, k + 1)
  }

  lemma {:induction false} StopIs(input: string, k: nat, stop: nat)
    requires k <= stop <= |input| && (stop < |input| ==> !Short(input, stop)) && forall j :: k <= j < stop ==>
               Short(input, j)
    ensures StopFrom(input, k) == stop
    decreases stop - k
  {
    if k < stop {
      StopIs(input, k + 1, stop);
    }
  }

  /** The characters before k fill the buffer without a newline. */
  predicate Full(input: string, k: nat) {
    BUFFER - 1 <= k && NoNewline(input, k - (BUFFER - 1), k)
  }

  lemma ShortIff(input: string, k: nat)
    requires k <= |input|
    ensures Short(input, k) <==> !Full(input, k)
  {
    var s := input[..k];
    var m := |Tail(s)|;
    TailIs(s);
    forall i | k - m <= i < k
      ensures input[i] != '\n'
    {
      assert Tail(s)[i - (k - m)] == s[i];
    }
    assert m < k ==> input[k - m - 1] == '\n';
  }

  /** All of the input is read exactly when every newline-free run that fills the buffer
      is its end. */
  lemma ReadsAllIff(input: string)
    ensures StopFrom(input, 0) == |input| <==> forall k :: 0 <= k < |input| ==> !Full(input, k)
  {
    StopIsFirstFull(input);
  }

  lemma {:induction false} StopsAt(input: string, k: nat)
    requires k <= |input|
    ensures StopFrom(input, k) < |input| ==> !Short(input, StopFrom(input, k))
    ensures forall j :: k <= j < StopFrom(input, k) ==> Short(input, j)
    decreases |input| - k
  {
    if k < |input| && Short(input, k) {
      StopsAt(input, k + 1);
    }
  }

  /** A line with a newline is too long for the buffer. */
  ghost predicate Loses(input: string) {
    exists k: nat, n: nat :: Full(input, k) && EndsLine(input, n) && k <= n
  }

  predicate EndsLine(input: string, n: nat) {
    n < |input| && input[n] == '\n'
  }

  /** What is in the buffer when reading stops, and what is never read. */
  ghost function Lost(input: string): string {
    Tail(input[..StopFrom(input, 0)]) + input[StopFrom(input, 0)..]
  }

  lemma HasLineIff(s: string)
    ensures |Tail(s)| < |s| <==> exists n: nat :: EndsLine(s, n)
  {
    TailIs(s);
    if |Tail(s)| < |s| {
      assert EndsLine(s, |s| - |Tail(s)| - 1);
    } else {
      assert Tail(s) == s;
    }
  }

  ghost predicate IsLost(input: string, stop: nat, tail: string, lost: string) {
    && stop <= |input| && |tail| <= stop && tail == input[stop - |tail|..stop] && lost == tail + input[stop..]
    && forall i :: 0 <= i < |tail| ==> tail[i] != '\n'
  }

  lemma LostIs(input: string, stop: nat)
    requires stop == StopFrom(input, 0)
    ensures IsLost(input, stop, Tail(input[..stop]), Lost(input))
  {
    TailIs(input[..stop]);
  }

  /** The lost text holds a newline exactly when there is one from where reading stops. */
  lemma LostLineIff(input: string, stop: nat, tail: string, lost: string)
    requires IsLost(input, stop, tail, lost)
    ensures (exists n: nat :: EndsLine(lost, n)) <==> exists n: nat :: EndsLine(input, n) && stop <= n
  {
    var d := stop - |tail|;
    if n: nat :| EndsLine(lost, n) {
      assert lost[n] == input[d + n];
      assert EndsLine(input, d + n);
    }
    if n: nat :| EndsLine(input, n) && stop <= n {
      assert lost[n - d] == input[n];
      assert EndsLine(lost, n - d);
    }
  }

  /** Where reading stops: the first place, before the end, where the buffer is full. */
  ghost predicate FirstFull(input: string, stop: nat) {
    stop <= |input| && (stop < |input| ==> Full(input, stop)) && forall k: nat :: k < stop ==> !Full(input, k)
  }

  lemma StopIsFirstFull(input: string)
    ensures FirstFull(input, StopFrom(input, 0))
  {
    StopsAt(input, 0);
    ShortIff(input, StopFrom(input, 0));
    forall k: nat | k < StopFrom(input, 0)
      ensures !Full(input, k)
    {
      ShortIff(input, k);
    }
  }

  lemma LosesFrom(input: string, stop: nat)
    requires FirstFull(input, stop)
    ensures Loses(input) <==> exists n: nat :: EndsLine(input, n) && stop <= n
  {
    if k: nat, n: nat :| Full(input, k) && EndsLine(input, n) && k <= n {
      assert stop <= k;
    }
    if n: nat :| EndsLine(input, n) && stop <= n {
      assert Full(input, stop);
    }
  }

  lemma LosesWhen(input: string, stop: nat, tail: string, lost: string)
    requires FirstFull(input, stop) && IsLost(input, stop, tail, lost)
    ensures Loses(input) <==> |Tail(lost)| < |lost|
  {
    LosesFrom(input, stop);
    LostLineIff(input, stop, tail, lost);
    HasLineIff(lost);
  }

  /** Text is lost with a whole line in it exactly when some line is too long. */
  lemma LosesIff(input: string)
    ensures Loses(input) <==> |Tail(Lost(input))| < |Lost(input)|
  {
    var stop := StopFrom(input, 0);
    StopIsFirstFull(input);
    LostIs(input, stop);
    LosesWhen(input, stop, Tail(input[..stop]), Lost(input));
  }

  /** What is printed of the text read is what would be printed of the whole. */
  ghost predicate Complete(keep: string -> bool, input: string) {
    Selected(keep, input[..StopFrom(input, 0)]) == Selected(keep, input)
  }

  /** That is so exactly when nothing of the lost text would be printed. */
  lemma CompleteIff(keep: string -> bool, input: string)
    ensures Complete(keep, input) <==> Selected(keep, Lost(input)) == ""
  {
    var stop := StopFrom(input, 0);
    assert input == input[..stop] + input[stop..];
    AppendLines(keep, input[..stop], input[stop..]);
  }

  lemma NoLines(keep: string -> bool, s: string)
    requires |Tail(s)| == |s|
    ensures Selected(keep, s) == ""
  {
    var q := LineEnd(s);
    if q < |s| {
      TailIs(s[q + 1..]);
    }
    PeelLast(keep, s);
  }

  lemma SomeLine(keep: string -> bool, s: string)
    requires |Tail(s)| < |s| && forall line :: keep(line)
    ensures Selected(keep, s) != ""
  {
    var q := LineEnd(s);
    if q < |s| {
      Peel(keep, s, q, s[..q], s[q + 1..]);
    } else {
      PeelLast(keep, s);
    }
  }

  lemma ShortLinesAreKept(keep: string -> bool, input: string)
    requires !Loses(input)
    ensures Complete(keep, input)
  {
    LosesIff(input);
    TailIs(Lost(input));
    NoLines(keep, Lost(input));
    CompleteIff(keep, input);
  }

  lemma LongLinesAreLost(keep: string -> bool, input: string)
    requires Loses(input) && forall line :: keep(line)
    ensures !Complete(keep, input)
  {
    LosesIff(input);
    SomeLine(keep, Lost(input));
    CompleteIff(keep, input);
  }

  lemma EmptyKeepsAll(line: string)
    ensures Keep("")(line)
  {
    HereEmpty(line);
    assert line[0..] == line && Here("", line[0..]);
    assert Matches("", line);
  }

  /** Every pattern gets all its lines printed exactly when no line is too long. */
  lemma NothingLostIff(input: string)
    ensures (forall re :: Complete(Keep(re), input)) <==> !Loses(input)
  {
    if Loses(input) {
      forall line
        ensures Keep("")(line)
      {
        EmptyKeepsAll(line);
      }
      LongLinesAreLost(Keep(""), input);
    } else {
      forall re
        ensures Complete(Keep(re), input)
      {
        ShortLinesAreKept(Keep(re), input);
      }
    }
  }

  /** A line of 1023 characters that matches is not printed. */
  lemma LongLineIsLost(line: string)
    requires |line| == BUFFER - 1 && forall i :: 0 <= i < |line| ==> line[i] == 'a'
    ensures Loses(line + "\n") && StopFrom(line + "\n", 0) == |line|
    ensures Matches("a", line) && Selected(Keep("a"), line) == "" && Selected(Keep("a"), line + "\n") == line + "\n"
  {
    var input := line + "\n";
    assert Full(input, |line|) && EndsLine(input, |line|);
    forall k: nat | k < |line|
      ensures Short(input, k)
    {
      ShortIff(input, k);
    }
    ShortIff(input, |line|);
    StopIs(input, 0, |line|);
    HereLit("a", line);
    HereEmpty(line[1..]);
    assert "a"[1..] == "" && line[0..] == line && Here("a", line[0..]);
    LineEndIs(line, |line|);
    PeelLast(Keep("a"), line);
    LineEndIs(input, |line|);
    assert input[|line| + 1..] == "" && input[..|line|] == line;
    Peel(Keep("a"), input, |line|, line, "");
    PeelLast(Keep("a"), "");
  }

  /** grep: read in any pieces, print the lines that match. want(i) is how much the i-th
      read would give. Reading stops where a line first fills the buffer. */
  method Grep(re: string, input: string, want: nat -> nat) returns (out: string)
    requires forall i :: 0 <= i < |input| ==> input[i] != '\0'
    ensures out == Selected(Keep(re), input[..StopFrom(input, 0)])
    ensures out == Selected(Keep(re), input) <==> Selected(Keep(re), Lost(input)) == ""
    ensures !Loses(input) ==> out == Selected(Keep(re), input)
  {
    out := GrepLoop(re, Keep(re), input, want);
    CompleteIff(Keep(re), input);
    if !Loses(input) {
      ShortLinesAreKept(Keep(re), input);
    }
  }

  method GrepLoop(re: string, ghost keep: string -> bool, input: string, want: nat -> nat)
    returns (out: string)
    requires Keeps(re, keep) && forall i :: 0 <= i < |input| ==> input[i] != '\0'
    ensures out == Selected(keep, input[..StopFrom(input, 0)])
  {
    out := "";
    var buf := new char[BUFFER];
    var m, pos, i := 0, 0, 0;
    assert Reading(keep, input[..0], out, buf[..0]);
    while true
      invariant 0 <= m < BUFFER && 0 <= pos <= |input| && Reading(keep, input[..pos], out, buf[..m])
      invariant forall k :: 0 <= k < pos ==> Short(input, k)
      decreases |input| - pos
    {
      var n := ReadSize(want(i), BUFFER - m - 1, |input| - pos);
      if n == 0 {
        StopIs(input, 0, pos);
        return;
      }
      StillShort(input, pos, n, m);
      var lines;
      lines, m := Round(re, keep, buf, m, input, pos, n, out);
      out, pos, i := out + lines, pos + n, i + 1;
    }
  }

  /** A read of n bytes, the lines it completes, and the move to the front. */
  method Round(re: string, ghost keep: string -> bool, buf: array<char>, m: nat, input: string, pos: nat, n: nat,
               ghost out: string)
    returns (lines: string, m': nat)
    requires Keeps(re, keep) && buf.Length == BUFFER && 0 < n && m + n < BUFFER && pos + n <= |input|
    requires (forall i :: 0 <= i < |input| ==> input[i] != '\0') && Reading(keep, input[..pos], out, buf[..m])
    modifies buf
    ensures m' < BUFFER && Reading(keep, input[..pos + n], out + lines, buf[..m'])
  {
    var p;
    p, lines := ReadLines(re, keep, buf, m, input, pos, n, out);
    m' := m + n - p;
    MoveDown(buf, p, m');
  }

  method ReadLines(re: string, ghost keep: string -> bool, buf: array<char>, m: nat, input: string, pos: nat, n: nat,
                   ghost out: string)
    returns (p: nat, lines: string)
    requires Keeps(re, keep) && 0 < n && m + n < buf.Length && pos + n <= |input|
    requires (forall i :: 0 <= i < |input| ==> input[i] != '\0') && Reading(keep, input[..pos], out, buf[..m])
    modifies buf
    ensures p <= m + n && Reading(keep, input[..pos + n], out + lines, buf[p..m + n])
  {
    ghost var tail := buf[..m];
    ReadIn(buf, m, input, pos, n);
    p, lines := Scan(re, keep, buf, m + n);
    ReadMore(keep, input, pos, n, out, tail, lines, buf[p..m + n]);
  }

  /** The read, and the NUL after it. */
  method ReadIn(buf: array<char>, m: nat, input: string, pos: nat, n: nat)
    requires m + n < buf.Length && pos + n <= |input|
    requires (forall i :: 0 <= i < |input| ==> input[i] != '\0') && buf[..m] == Tail(input[..pos])
    modifies buf
    ensures Ends(buf, 0, m + n) && buf[..m + n] == old(buf[..m]) + input[pos..pos + n]
  {
    TailFree(input[..pos]);
    ghost var all := buf[..m] + input[pos..pos + n];
    Fill(buf, m, input[pos..pos + n]);
    assert forall j :: 0 <= j < m + n ==> buf[j] == all[j];
  }

  lemma StillShort(input: string, pos: nat, n: nat, m: nat)
    requires pos + n <= |input| && m == |Tail(input[..pos])| && m + n < BUFFER
    ensures forall k :: pos <= k < pos + n ==> Short(input, k)
  {
    forall k | pos <= k < pos + n
      ensures Short(input, k)
    {
      var s, t := input[..pos], input[pos..k];
      assert input[..k] == s + t;
      AppendLines(_ => true, s, t);
      TailIs(Tail(s) + t);
    }
  }

  /** After the input `seen`, `out` has been printed and `tail` is in the buffer. */
  ghost predicate Reading(keep: string -> bool, seen: string, out: string, tail: string) {
    out == Selected(keep, seen) && tail == Tail(seen)
  }

  lemma ReadMore(keep: string -> bool, input: string, pos: nat, n: nat, out: string, tail: string, lines: string,
                 tail': string)
    requires pos + n <= |input| && Reading(keep, input[..pos], out, tail)
    requires lines == Selected(keep, tail + input[pos..pos + n]) && tail' == Tail(tail + input[pos..pos + n])
    ensures Reading(keep, input[..pos + n], out + lines, tail')
  {
    assert input[..pos + n] == input[..pos] + input[pos..pos + n];
    AppendLines(keep, input[..pos], input[pos..pos + n]);
  }

  lemma TailFree(s: string)
    requires forall i :: 0 <= i < |s| ==> s[i] != '\0'
    ensures forall i :: 0 <= i < |Tail(s)| ==> Tail(s)[i] != '\0'
  {
    TailIs(s);
  }
}
