/** The shell's command grammar as functions from a position in the line to a result. */
module ShellSpec {

  const MAXARGS := 10
  const NUL: char := 0 as char

  predicate IsSpace(c: char) {
    c == ' ' || c == '\t' || c == '\r' || c == '\n' || c == 11 as char
  }

  predicate IsSymbol(c: char) {
    c == '<' || c == '|' || c == '>' || c == '&' || c == ';' || c == '(' || c == ')'
  }

  predicate IsRedir(c: char) {
    c == '<' || c == '>'
  }

  /** The characters that end the words of a simple command. */
  predicate EndsExec(c: char) {
    c == '|' || c == ')' || c == '&' || c == ';'
  }

  predicate IsWordChar(c: char) {
    c != NUL && !IsSpace(c) && !IsSymbol(c)
  }

  /** The character at position i; the line ends with a NUL. */
  function At(s: string, i: nat): char {
    if i < |s| then s[i] else NUL
  }

  // ---- Tokens ----

  function Skip(s: string, i: nat): (j: nat)
    requires i <= |s|
    ensures i <= j <= |s| && (j < |s| ==> !IsSpace(s[j]))
    decreases |s| - i
  {
    if i < |s| && IsSpace(s[i]) then Skip(s, i + 1) else i
  }

  function WordEnd(s: string, i: nat): (j: nat)
    requires i <= |s|
    ensures i <= j <= |s| && (j < |s| ==> IsSpace(s[j]) || IsSymbol(s[j]))
    decreases |s| - i
  {
    if i < |s| && !IsSpace(s[i]) && !IsSymbol(s[i]) then WordEnd(s, i + 1) else i
  }

  /** A token: its kind, where its text is, and where the next one starts. */
  datatype Token = Token(kind: char, q: nat, eq: nat, next: nat)

  function KindAt(s: string, a: nat): (r: (char, nat))
    requires a <= |s| && NoNul(s)
    ensures a <= r.1 <= |s| && (r.0 == NUL <==> a == |s|) && (a < |s| && !IsSpace(s[a]) ==> a < r.1)
  {
    var c := At(s, a);
    assert a < |s| ==> NotNul(s, a);
    if c == NUL then (NUL, a)
    else if c == '>' then (if At(s, a + 1) == '>' then ('+', a + 2) else ('>', a + 1))
    else if IsSymbol(c) then (c, a + 1)
    else ('a', WordEnd(s, a))
  }

  ghost predicate NotNul(s: string, i: nat)
    requires i < |s|
  {
    s[i] != NUL
  }

  ghost predicate NoNul(s: string) {
    forall i: nat {:trigger NotNul(s, i)} | i < |s| :: NotNul(s, i)
  }

  function GetToken(s: string, i: nat): (t: Token)
    requires i <= |s| && NoNul(s)
    ensures i <= t.q <= t.eq <= t.next <= |s|
    ensures t.kind == NUL <==> Skip(s, i) == |s|
    ensures t.kind != NUL ==> t.q < t.eq
  {
    var a := Skip(s, i);
    var (k, e) := KindAt(s, a);
    Token(k, a, e, Skip(s, e))
  }

  datatype Span = Span(q: nat, eq: nat)

  ghost predicate InWord(s: string, k: nat) {
    IsWordChar(At(s, k))
  }

  /** A maximal run of word characters. */
  ghost predicate IsWord(s: string, w: Span) {
    && w.q < w.eq <= |s|
    && (forall k: nat {:trigger InWord(s, k)} | w.q <= k < w.eq :: InWord(s, k))
    && !InWord(s, w.eq)
  }

  lemma {:induction false} WordEndChars(s: string, i: nat, k: nat)
    requires i <= k < |s| && k < WordEnd(s, i) && NoNul(s)
    ensures InWord(s, k)
    decreases k - i
  {
    assert NotNul(s, k);
    if i < k {
      WordEndChars(s, i + 1, k);
    }
  }

  /** The tokens of kind 'a' are the words. */
  lemma TokenIsWord(s: string, i: nat)
    requires i <= |s| && NoNul(s) && GetToken(s, i).kind == 'a'
    ensures IsWord(s, Span(GetToken(s, i).q, GetToken(s, i).eq))
  {
    var t := GetToken(s, i);
    forall k: nat | t.q <= k < t.eq ensures InWord(s, k) {
      WordEndChars(s, t.q, k);
    }
  }

  /** The character that peek looks at. */
  function Ahead(s: string, i: nat): char
    requires i <= |s|
  {
    At(s, Skip(s, i))
  }

  // ---- Commands ----

  /** The three redirections: "<", ">" and ">>". */
  datatype Mode = Input | Output | Append

  datatype Cmd<W> =
    | Exec(argv: seq<W>)
    | Redir(cmd: Cmd<W>, file: W, mode: Mode)
    | Pipe(left: Cmd<W>, right: Cmd<W>)
    | List(left: Cmd<W>, right: Cmd<W>)
    | Back(cmd: Cmd<W>)

  datatype Redirection = Redirection(file: Span, mode: Mode)

  function Wrap(cmd: Cmd<Span>, rs: seq<Redirection>): Cmd<Span>
    decreases |rs|
  {
    if rs == [] then cmd
    else Redir(Wrap(cmd, rs[..|rs| - 1]), rs[|rs| - 1].file, rs[|rs| - 1].mode)
  }

  /** A parse, or the panic of a syntax error. */
  datatype Result<T> = Ok(value: T, next: nat) | Panic

  function ModeOf(kind: char): Mode {
    if kind == '<' then Input else if kind == '>' then Output else Append
  }

  function ParseRedirs(s: string, i: nat): (r: Result<seq<Redirection>>)
    requires i <= |s| && NoNul(s)
    ensures r.Ok? ==> i <= r.next <= |s|
    decreases |s| - i
  {
    if IsRedir(Ahead(s, i)) then
      var t := GetToken(s, i);
      var f := GetToken(s, t.next);
      if f.kind != 'a' then Panic
      else
        var rest := ParseRedirs(s, f.next);
        if rest.Panic? then Panic
        else Ok([Redirection(Span(f.q, f.eq), ModeOf(t.kind))] + rest.value, rest.next)
    else Ok([], Skip(s, i))
  }

  datatype Args = Args(words: seq<Span>, redirs: seq<Redirection>)

  /** The loop of parseexec, when argc words are in already. */
  function ParseArgs(s: string, i: nat, argc: nat): (r: Result<Args>)
    requires i <= |s| && NoNul(s)
    ensures r.Ok? ==> i <= r.next <= |s|
    decreases |s| - i
  {
    if EndsExec(Ahead(s, i)) then Ok(Args([], []), Skip(s, i))
    else
      var t := GetToken(s, i);
      if t.kind == NUL then Ok(Args([], []), t.next)
      else if t.kind != 'a' || argc + 1 >= MAXARGS then Panic
      else
        var rs := ParseRedirs(s, t.next);
        if rs.Panic? then Panic
        else
          var rest := ParseArgs(s, rs.next, argc + 1);
          if rest.Panic? then Panic
          else Ok(Args([Span(t.q, t.eq)] + rest.value.words, rs.value + rest.value.redirs), rest.next)
  }

  function ParseExec(s: string, i: nat): (r: Result<Cmd<Span>>)
    requires i <= |s| && NoNul(s)
    ensures r.Ok? ==> i <= r.next <= |s|
    decreases |s| - i, 1
  {
    if Ahead(s, i) == '(' then ParseBlock(s, i)
    else
      var rs := ParseRedirs(s, i);
      if rs.Panic? then Panic
      else
        var args := ParseArgs(s, rs.next, 0);
        if args.Panic? then Panic
        else Ok(Wrap(Exec(args.value.words), rs.value + args.value.redirs), args.next)
  }

  function ParseBlock(s: string, i: nat): (r: Result<Cmd<Span>>)
    requires i <= |s| && NoNul(s)
    ensures r.Ok? ==> i <= r.next <= |s|
    decreases |s| - i, 0
  {
    if Ahead(s, i) != '(' then Panic
    else
      var line := ParseLine(s, GetToken(s, i).next);
      if line.Panic? || Ahead(s, line.next) != ')' then Panic
      else
        var rs := ParseRedirs(s, GetToken(s, line.next).next);
        if rs.Panic? then Panic else Ok(Wrap(line.value, rs.value), rs.next)
  }

  function ParsePipe(s: string, i: nat): (r: Result<Cmd<Span>>)
    requires i <= |s| && NoNul(s)
    ensures r.Ok? ==> i <= r.next <= |s|
    decreases |s| - i, 2
  {
    var l := ParseExec(s, i);
    if l.Panic? || Ahead(s, l.next) != '|' then l
    else
      var r := ParsePipe(s, GetToken(s, l.next).next);
      if r.Panic? then Panic else Ok(Pipe(l.value, r.value), r.next)
  }

  /** The loop of parseline over "&". */
  function ParseBacks(s: string, i: nat, cmd: Cmd<Span>): (r: Result<Cmd<Span>>)
    requires i <= |s| && NoNul(s)
    ensures r.Ok? && i <= r.next <= |s|
    decreases |s| - i
  {
    if Ahead(s, i) == '&' then ParseBacks(s, GetToken(s, i).next, Back(cmd)) else Ok(cmd, Skip(s, i))
  }

  function ParseLine(s: string, i: nat): (r: Result<Cmd<Span>>)
    requires i <= |s| && NoNul(s)
    ensures r.Ok? ==> i <= r.next <= |s|
    decreases |s| - i, 3
  {
    var c := ParsePipe(s, i);
    if c.Panic? then Panic
    else
      var l := ParseBacks(s, c.next, c.value);
      if Ahead(s, l.next) != ';' then l
      else
        var r := ParseLine(s, GetToken(s, l.next).next);
        if r.Panic? then Panic else Ok(List(l.value, r.value), r.next)
  }

  function ParseCmd(s: string): Result<Cmd<Span>>
    requires NoNul(s)
  {
    var r := ParseLine(s, 0);
    if r.Panic? || Skip(s, r.next) != |s| then Panic else Ok(r.value, |s|)
  }
}
