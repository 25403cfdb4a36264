/** The grammar of the shell, on its own, and that the parser is exact for it: a line is
    accepted with a tree if and only if its tokens spell a sentence with that meaning. */
module ShellGrammar {
  import opened ShellSpec

  // ---- The tokens of a line ----

  datatype Tok = Mark(kind: char) | Word(text: Span)

  function TokOf(t: Token): Tok {
    if t.kind == 'a' then Word(Span(t.q, t.eq)) else Mark(t.kind)
  }

  function Tokens(s: string, i: nat): seq<Tok>
    requires i <= |s| && NoNul(s)
    decreases |s| - i
  {
    var t := GetToken(s, i);
    if t.kind == NUL then [] else [TokOf(t)] + Tokens(s, t.next)
  }

  predicate Starts(ts: seq<Tok>, c: char) {
    ts != [] && ts[0] == Mark(c)
  }

  predicate StartsRedir(ts: seq<Tok>) {
    Starts(ts, '<') || Starts(ts, '>') || Starts(ts, '+')
  }

  /** What may follow a command, a pipeline and a line inside a sentence. */
  predicate EndsUnit(ts: seq<Tok>) {
    EndsPipes(ts) || Starts(ts, '|')
  }

  predicate EndsPipes(ts: seq<Tok>) {
    EndsLine(ts) || Starts(ts, '&') || Starts(ts, ';')
  }

  predicate EndsLine(ts: seq<Tok>) {
    ts == [] || Starts(ts, ')')
  }

  // ---- Sentences ----

  /** A word of a simple command, and the redirections between it and the next. */
  datatype Arg = Arg(word: Span, after: seq<Redirection>)

  datatype Unit = Simple(lead: seq<Redirection>, args: seq<Arg>) | Group(line: Sentence, redirs: seq<Redirection>)

  datatype Pipes = One(unit: Unit) | Into(unit: Unit, rest: Pipes)

  /** Pipelines, each with a number of "&" after it, with ";" between them. */
  datatype Sentence = Last(pipes: Pipes, backs: nat) | Then(pipes: Pipes, backs: nat, rest: Sentence)

  function OpKind(mode: Mode): char {
    match mode
    case Input => '<'
    case Output => '>'
    case Append => '+'
  }

  function RedirToks(rs: seq<Redirection>): seq<Tok> {
    if rs == [] then [] else [Mark(OpKind(rs[0].mode)), Word(rs[0].file)] + RedirToks(rs[1..])
  }

  function ArgToks(args: seq<Arg>): seq<Tok> {
    if args == [] then [] else [Word(args[0].word)] + RedirToks(args[0].after) + ArgToks(args[1..])
  }

  function UnitToks(u: Unit): seq<Tok> {
    match u
    case Simple(lead, args) => RedirToks(lead) + ArgToks(args)
    case Group(line, redirs) => [Mark('(')] + Spelling(line) + [Mark(')')] + RedirToks(redirs)
  }

  function PipesToks(p: Pipes): seq<Tok> {
    match p
    case One(u) => UnitToks(u)
    case Into(u, rest) => UnitToks(u) + [Mark('|')] + PipesToks(rest)
  }

  function BackToks(n: nat): seq<Tok> {
    if n == 0 then [] else [Mark('&')] + BackToks(n - 1)
  }

  /** The tokens of a sentence. */
  function Spelling(y: Sentence): seq<Tok> {
    match y
    case Last(p, n) => PipesToks(p) + BackToks(n)
    case Then(p, n, rest) => PipesToks(p) + BackToks(n) + [Mark(';')] + Spelling(rest)
  }

  function ArgWords(args: seq<Arg>): seq<Span> {
    seq(|args|, i requires 0 <= i < |args| => args[i].word)
  }

  function ArgRedirs(args: seq<Arg>): seq<Redirection> {
    if args == [] then [] else args[0].after + ArgRedirs(args[1..])
  }

  /** The command that a sentence stands for: the words of a simple command in order, inside its
      redirections in order, the first one innermost. */
  function Meaning(y: Sentence): Cmd<Span> {
    match y
    case Last(p, n) => Backs(PipesMeaning(p), n)
    case Then(p, n, rest) => List(Backs(PipesMeaning(p), n), Meaning(rest))
  }

  function PipesMeaning(p: Pipes): Cmd<Span> {
    match p
    case One(u) => UnitMeaning(u)
    case Into(u, rest) => Pipe(UnitMeaning(u), PipesMeaning(rest))
  }

  function UnitMeaning(u: Unit): Cmd<Span> {
    match u
    case Simple(lead, args) => Inside(Exec(ArgWords(args)), lead + ArgRedirs(args))
    case Group(line, redirs) => Inside(Meaning(line), redirs)
  }

  /** cmd inside the redirections rs, the first one innermost. */
  function Inside(cmd: Cmd<Span>, rs: seq<Redirection>): Cmd<Span>
    decreases |rs|
  {
    if rs == [] then cmd else Inside(Redir(cmd, rs[0].file, rs[0].mode), rs[1..])
  }

  function Backs(cmd: Cmd<Span>, n: nat): Cmd<Span> {
    if n == 0 then cmd else Back(Backs(cmd, n - 1))
  }

  /** No simple command has MAXARGS words or more. */
  predicate Fits(y: Sentence) {
    PipesFit(y.pipes) && (y.Then? ==> Fits(y.rest))
  }

  predicate PipesFit(p: Pipes) {
    UnitFits(p.unit) && (p.Into? ==> PipesFit(p.rest))
  }

  predicate UnitFits(u: Unit) {
    match u
    case Simple(lead, args) => |args| < MAXARGS
    case Group(line, redirs) => Fits(line)
  }

  // ---- Tokens and characters ----

  lemma {:induction false} SkipTwice(s: string, i: nat)
    requires i <= |s|
    ensures Skip(s, Skip(s, i)) == Skip(s, i)
  {}

  lemma TokensSkip(s: string, i: nat)
    requires i <= |s| && NoNul(s)
    ensures Tokens(s, Skip(s, i)) == Tokens(s, i)
  {
    SkipTwice(s, i);
  }

  /** peek sees the first token. */
  lemma AheadEnd(s: string, i: nat)
    requires i <= |s| && NoNul(s)
    ensures Tokens(s, i) == [] <==> GetToken(s, i).kind == NUL
    ensures Tokens(s, i) == [] <==> Skip(s, i) == |s|
  {}

  lemma AheadMark(s: string, i: nat, c: char)
    requires i <= |s| && NoNul(s) && (c == '|' || c == ')' || c == '&' || c == ';' || c == '(')
    ensures Ahead(s, i) == c <==> Starts(Tokens(s, i), c)
  {
    var a := Skip(s, i);
    assert a < |s| ==> NotNul(s, a);
  }

  lemma AheadRedir(s: string, i: nat)
    requires i <= |s| && NoNul(s)
    ensures IsRedir(Ahead(s, i)) <==> StartsRedir(Tokens(s, i))
  {
    var a := Skip(s, i);
    assert a < |s| ==> NotNul(s, a);
  }

  lemma AheadExec(s: string, i: nat)
    requires i <= |s| && NoNul(s)
    ensures EndsExec(Ahead(s, i)) || GetToken(s, i).kind == NUL <==> EndsUnit(Tokens(s, i))
  {
    AheadEnd(s, i);
    AheadMark(s, i, '|');
    AheadMark(s, i, ')');
    AheadMark(s, i, '&');
    AheadMark(s, i, ';');
  }

  lemma FirstToken(s: string, i: nat)
    requires i <= |s| && NoNul(s) && Tokens(s, i) != []
    ensures Tokens(s, i) == [TokOf(GetToken(s, i))] + Tokens(s, GetToken(s, i).next)
  {}

  /** What of the line from i on is not white space. */
  function Ink(s: string, i: nat): string
    decreases |s| - i
  {
    if i >= |s| then "" else if IsSpace(s[i]) then Ink(s, i + 1) else [s[i]] + Ink(s, i + 1)
  }

  /** How a token is written. */
  function TokText(s: string, t: Tok): string {
    match t
    case Word(w) => if w.q <= w.eq <= |s| then s[w.q..w.eq] else ""
    case Mark(c) => if c == '+' then ">>" else [c]
  }

  function Written(s: string, ts: seq<Tok>): string {
    if ts == [] then "" else TokText(s, ts[0]) + Written(s, ts[1..])
  }

  lemma {:induction false} InkSkip(s: string, i: nat)
    requires i <= |s|
    ensures Ink(s, Skip(s, i)) == Ink(s, i)
    decreases |s| - i
  {
    if i < |s| && IsSpace(s[i]) {
      InkSkip(s, i + 1);
    }
  }

  lemma {:induction false} InkOf(s: string, i: nat, e: nat)
    requires i <= e <= |s| && forall k | i <= k < e :: !IsSpace(s[k])
    ensures Ink(s, i) == s[i..e] + Ink(s, e)
    decreases e - i
  {
    if i < e {
      InkOf(s, i + 1, e);
      assert s[i..e] == [s[i]] + s[i + 1..e];
      Join([s[i]], s[i + 1..e], Ink(s, e));
    }
  }

  /** A token is the ink from its first character up to its end. */
  lemma TokenInk(s: string, i: nat)
    requires i <= |s| && NoNul(s) && GetToken(s, i).kind != NUL
    ensures Ink(s, i) == TokText(s, TokOf(GetToken(s, i))) + Ink(s, GetToken(s, i).next)
  {
    var t := GetToken(s, i);
    if t.kind == 'a' {
      TokenIsWord(s, i);
      forall k | t.q <= k < t.eq ensures !IsSpace(s[k]) {
        assert InWord(s, k);
      }
    }
    InkSkip(s, i);
    InkOf(s, t.q, t.eq);
    InkSkip(s, t.eq);
    TokenText(s, t.q);
  }

  lemma TokenText(s: string, q: nat)
    requires q < |s| && NoNul(s) && !IsSpace(s[q])
    ensures var (kind, eq) := KindAt(s, q);
            q < eq <= |s| && TokText(s, TokOf(Token(kind, q, eq, eq))) == s[q..eq]
  {
    assert NotNul(s, q);
    var (kind, eq) := KindAt(s, q);
    if kind == '+' {
      assert eq == q + 2 && s[q] == '>' && s[q + 1] == '>';
    } else if kind != 'a' {
      assert eq == q + 1 && s[q] == kind;
    }
  }

  /** No character of the line is lost, and none is used twice. */
  lemma {:induction false} TokensCover(s: string, i: nat)
    requires i <= |s| && NoNul(s)
    ensures Written(s, Tokens(s, i)) == Ink(s, i)
    decreases |s| - i
  {
    var t := GetToken(s, i);
    if t.kind == NUL {
      InkSkip(s, i);
    } else {
      TokenInk(s, i);
      TokensCover(s, t.next);
    }
  }

  // ---- Concatenation ----

  lemma Join<T>(a: seq<T>, b: seq<T>, c: seq<T>)
    ensures (a + b) + c == a + (b + c)
  {}

  lemma Join4<T>(a: seq<T>, b: seq<T>, c: seq<T>, d: seq<T>)
    ensures (a + b + c) + d == a + (b + (c + d))
  {}

  lemma Join5<T>(a: seq<T>, b: seq<T>, c: seq<T>, d: seq<T>, e: seq<T>)
    ensures (a + b + c + d) + e == a + (b + (c + (d + e)))
  {}

  // ---- Redirections ----

  lemma {:induction false} InsideIsWrap(cmd: Cmd<Span>, rs: seq<Redirection>)
    ensures Inside(cmd, rs) == Wrap(cmd, rs)
    decreases |rs|
  {
    if rs != [] {
      var next := Redir(cmd, rs[0].file, rs[0].mode);
      InsideIsWrap(next, rs[1..]);
      WrapFirst(cmd, rs);
    }
  }

  lemma {:induction false} WrapFirst(cmd: Cmd<Span>, rs: seq<Redirection>)
    requires rs != []
    ensures Wrap(cmd, rs) == Wrap(Redir(cmd, rs[0].file, rs[0].mode), rs[1..])
    decreases |rs|
  {
    var n := |rs| - 1;
    if n > 0 {
      WrapFirst(cmd, rs[..n]);
      assert rs[..n][1..] == rs[1..][..n - 1];
    } else {
      assert rs[..0] == [] && Wrap(cmd, rs[..0]) == cmd;
    }
  }

  /** A parse with value v that leaves the tokens `rest`. */
  ghost predicate Leaves<T(!new)>(s: string, r: Result<T>, v: T, rest: seq<Tok>)
    requires NoNul(s)
  {
    r.Ok? && r.value == v && r.next <= |s| && Tokens(s, r.next) == rest
  }

  /** A token is taken off the front. */
  lemma TakeToken(s: string, i: nat, tok: Tok, rest: seq<Tok>) returns (t: Token)
    requires i <= |s| && NoNul(s) && Tokens(s, i) == [tok] + rest
    ensures t == GetToken(s, i) && TokOf(t) == tok && t.kind != NUL && Tokens(s, t.next) == rest
  {
    t := GetToken(s, i);
    FirstToken(s, i);
    assert Tokens(s, i)[1..] == rest && Tokens(s, i)[1..] == Tokens(s, t.next);
  }

  lemma {:induction false} RedirsParse(s: string, i: nat, rs: seq<Redirection>, rest: seq<Tok>)
    requires i <= |s| && NoNul(s) && Tokens(s, i) == RedirToks(rs) + rest && !StartsRedir(rest)
    ensures Leaves(s, ParseRedirs(s, i), rs, rest)
    decreases |rs|
  {
    AheadRedir(s, i);
    if rs == [] {
      TokensSkip(s, i);
    } else {
      var op, file, more := Mark(OpKind(rs[0].mode)), Word(rs[0].file), RedirToks(rs[1..]) + rest;
      assert RedirToks(rs) + rest == [op] + ([file] + more);
      var t := TakeToken(s, i, op, [file] + more);
      var f := TakeToken(s, t.next, file, more);
      RedirsParse(s, f.next, rs[1..], rest);
      assert [rs[0]] + rs[1..] == rs;
    }
  }

  lemma {:induction false} RedirsSpell(s: string, i: nat)
    requires i <= |s| && NoNul(s) && ParseRedirs(s, i).Ok?
    ensures Tokens(s, i) == RedirToks(ParseRedirs(s, i).value) + Tokens(s, ParseRedirs(s, i).next)
    decreases |s| - i
  {
    if IsRedir(Ahead(s, i)) {
      var t := GetToken(s, i);
      var f := GetToken(s, t.next);
      var rest := ParseRedirs(s, f.next);
      RedirsSpell(s, f.next);
      RedirSpells(s, i, rest.value, Tokens(s, rest.next));
    } else {
      TokensSkip(s, i);
    }
  }

  /** One redirection, before those in rs. */
  lemma RedirSpells(s: string, i: nat, rs: seq<Redirection>, rest: seq<Tok>)
    requires i <= |s| && NoNul(s) && IsRedir(Ahead(s, i)) && GetToken(s, GetToken(s, i).next).kind == 'a'
    requires Tokens(s, GetToken(s, GetToken(s, i).next).next) == RedirToks(rs) + rest
    ensures var t := GetToken(s, i);
            var f := GetToken(s, t.next);
            Tokens(s, i) == RedirToks([Redirection(Span(f.q, f.eq), ModeOf(t.kind))] + rs) + rest
  {
    var t := GetToken(s, i);
    var f := GetToken(s, t.next);
    var r := Redirection(Span(f.q, f.eq), ModeOf(t.kind));
    AheadRedir(s, i);
    FirstToken(s, i);
    FirstToken(s, t.next);
    assert ([r] + rs)[1..] == rs;
    Join([Mark(OpKind(r.mode)), Word(r.file)], RedirToks(rs), rest);
    Join([Mark(OpKind(r.mode))], [Word(r.file)], RedirToks(rs) + rest);
  }

  // ---- Simple commands ----

  lemma ArgsSplit(args: seq<Arg>)
    requires args != []
    ensures ArgWords(args) == [args[0].word] + ArgWords(args[1..])
  {}

  lemma {:induction false} ArgsParse(s: string, i: nat, args: seq<Arg>, argc: nat, rest: seq<Tok>)
    requires i <= |s| && NoNul(s) && Tokens(s, i) == ArgToks(args) + rest && EndsUnit(rest)
    requires args == [] || argc + |args| < MAXARGS
    ensures Leaves(s, ParseArgs(s, i, argc), Args(ArgWords(args), ArgRedirs(args)), rest)
    decreases |args|
  {
    AheadExec(s, i);
    if args == [] {
      TokensSkip(s, i);
      assert ArgToks(args) + rest == rest && ArgWords(args) == [];
      AheadEnd(s, i);
    } else {
      var w, after, more := Word(args[0].word), RedirToks(args[0].after), ArgToks(args[1..]) + rest;
      Join4([w], after, ArgToks(args[1..]), rest);
      var t := TakeToken(s, i, w, after + more);
      assert !StartsRedir(more) by { ArgsStart(args[1..], rest); }
      RedirsParse(s, t.next, args[0].after, more);
      ArgsParse(s, ParseRedirs(s, t.next).next, args[1..], argc + 1, rest);
      ArgsSplit(args);
    }
  }

  lemma ArgsStart(args: seq<Arg>, rest: seq<Tok>)
    requires EndsUnit(rest)
    ensures !StartsRedir(ArgToks(args) + rest) && !Starts(ArgToks(args) + rest, '(')
  {
    if args == [] {
      assert ArgToks(args) + rest == rest;
    }
  }

  lemma {:induction false} ArgsSpell(s: string, i: nat, argc: nat) returns (args: seq<Arg>)
    requires i <= |s| && NoNul(s) && ParseArgs(s, i, argc).Ok?
    ensures var r := ParseArgs(s, i, argc);
            && r.value == Args(ArgWords(args), ArgRedirs(args)) && (args == [] || argc + |args| < MAXARGS)
            && Tokens(s, i) == ArgToks(args) + Tokens(s, r.next)
    decreases |s| - i
  {
    var t := GetToken(s, i);
    if EndsExec(Ahead(s, i)) || t.kind == NUL {
      args := [];
      TokensSkip(s, i);
      AheadEnd(s, i);
      assert ArgWords(args) == [];
    } else {
      var rs := ParseRedirs(s, t.next);
      var more := ArgsSpell(s, rs.next, argc + 1);
      var first := Arg(Span(t.q, t.eq), rs.value);
      args := [first] + more;
      assert args[1..] == more;
      RedirsSpell(s, t.next);
      FirstToken(s, i);
      Join4([Word(first.word)], RedirToks(rs.value), ArgToks(more), Tokens(s, ParseArgs(s, i, argc).next));
      ArgsSplit(args);
    }
  }

  // ---- Every sentence is parsed, to what it means ----

  lemma SimpleParses(s: string, i: nat, u: Unit, rest: seq<Tok>)
    requires i <= |s| && NoNul(s) && u.Simple? && UnitFits(u) && Tokens(s, i) == UnitToks(u) + rest && EndsUnit(rest)
    ensures Leaves(s, ParseExec(s, i), UnitMeaning(u), rest)
  {
    var more := ArgToks(u.args) + rest;
    Join(RedirToks(u.lead), ArgToks(u.args), rest);
    ArgsStart(u.args, rest);
    assert !Starts(RedirToks(u.lead) + more, '(') by {
      if u.lead == [] { assert RedirToks(u.lead) + more == more; }
    }
    AheadMark(s, i, '(');
    RedirsParse(s, i, u.lead, more);
    ArgsParse(s, ParseRedirs(s, i).next, u.args, 0, rest);
    InsideIsWrap(Exec(ArgWords(u.args)), u.lead + ArgRedirs(u.args));
  }

  lemma {:induction false} GroupParses(s: string, i: nat, u: Unit, rest: seq<Tok>)
    requires i <= |s| && NoNul(s) && u.Group? && UnitFits(u) && Tokens(s, i) == UnitToks(u) + rest && EndsUnit(rest)
    ensures Leaves(s, ParseExec(s, i), UnitMeaning(u), rest)
    decreases u, 0
  {
    var inner, after := Spelling(u.line), RedirToks(u.redirs) + rest;
    Join5([Mark('(')], inner, [Mark(')')], RedirToks(u.redirs), rest);
    var open := TakeToken(s, i, Mark('('), inner + ([Mark(')')] + after));
    SentenceParses(s, open.next, u.line, [Mark(')')] + after);
    var line := ParseLine(s, open.next);
    var close := TakeToken(s, line.next, Mark(')'), after);
    RedirsParse(s, close.next, u.redirs, rest);
    AheadMark(s, i, '(');
    AheadMark(s, line.next, ')');
    InsideIsWrap(Meaning(u.line), u.redirs);
  }

  lemma {:induction false} PipesParse(s: string, i: nat, p: Pipes, rest: seq<Tok>)
    requires i <= |s| && NoNul(s) && PipesFit(p) && Tokens(s, i) == PipesToks(p) + rest && EndsPipes(rest)
    ensures Leaves(s, ParsePipe(s, i), PipesMeaning(p), rest)
    decreases p, 1
  {
    var more := if p.One? then rest else [Mark('|')] + (PipesToks(p.rest) + rest);
    if p.Into? {
      Join4(UnitToks(p.unit), [Mark('|')], PipesToks(p.rest), rest);
    }
    if p.unit.Simple? {
      SimpleParses(s, i, p.unit, more);
    } else {
      GroupParses(s, i, p.unit, more);
    }
    var l := ParseExec(s, i);
    AheadMark(s, l.next, '|');
    if p.Into? {
      var bar := TakeToken(s, l.next, Mark('|'), PipesToks(p.rest) + rest);
      PipesParse(s, bar.next, p.rest, rest);
    }
  }

  lemma {:induction false} BacksParse(s: string, i: nat, cmd: Cmd<Span>, n: nat, rest: seq<Tok>)
    requires i <= |s| && NoNul(s) && Tokens(s, i) == BackToks(n) + rest && !Starts(rest, '&')
    ensures Leaves(s, ParseBacks(s, i, cmd), Backs(cmd, n), rest)
    decreases n
  {
    AheadMark(s, i, '&');
    if n == 0 {
      TokensSkip(s, i);
    } else {
      Join([Mark('&')], BackToks(n - 1), rest);
      var t := TakeToken(s, i, Mark('&'), BackToks(n - 1) + rest);
      BacksParse(s, t.next, Back(cmd), n - 1, rest);
      BacksShift(cmd, n);
    }
  }

  lemma {:induction false} BacksShift(cmd: Cmd<Span>, n: nat)
    requires n > 0
    ensures Backs(Back(cmd), n - 1) == Backs(cmd, n)
  {
    if n > 1 {
      BacksShift(cmd, n - 1);
    }
  }

  lemma {:induction false} SentenceParses(s: string, i: nat, y: Sentence, rest: seq<Tok>)
    requires i <= |s| && NoNul(s) && Fits(y) && Tokens(s, i) == Spelling(y) + rest && EndsLine(rest)
    ensures Leaves(s, ParseLine(s, i), Meaning(y), rest)
    decreases y, 2
  {
    var more := if y.Last? then rest else [Mark(';')] + (Spelling(y.rest) + rest);
    SentenceParts(y, rest, more);
    PipesParse(s, i, y.pipes, BackToks(y.backs) + more);
    var c := ParsePipe(s, i);
    BacksParse(s, c.next, c.value, y.backs, more);
    var l := ParseBacks(s, c.next, c.value);
    AheadMark(s, l.next, ';');
    if y.Then? {
      var semi := TakeToken(s, l.next, Mark(';'), Spelling(y.rest) + rest);
      SentenceParses(s, semi.next, y.rest, rest);
    }
  }

  lemma SentenceParts(y: Sentence, rest: seq<Tok>, more: seq<Tok>)
    requires EndsLine(rest) && more == if y.Last? then rest else [Mark(';')] + (Spelling(y.rest) + rest)
    ensures Spelling(y) + rest == PipesToks(y.pipes) + (BackToks(y.backs) + more)
    ensures EndsPipes(BackToks(y.backs) + more) && !Starts(more, '&')
  {
    if y.Last? {
      Join(PipesToks(y.pipes), BackToks(y.backs), rest);
    } else {
      Join5(PipesToks(y.pipes), BackToks(y.backs), [Mark(';')], Spelling(y.rest), rest);
    }
    if y.backs == 0 {
      assert BackToks(y.backs) + more == more;
    }
  }

  // ---- Every parse is that of a sentence ----

  /** The tokens of a line from i on are these, and then those from j on. */
  ghost predicate Spells(s: string, i: nat, ts: seq<Tok>, j: nat)
    requires NoNul(s)
  {
    i <= |s| && j <= |s| && Tokens(s, i) == ts + Tokens(s, j)
  }

  lemma SpellsOn(s: string, i: nat, a: seq<Tok>, j: nat, b: seq<Tok>, k: nat)
    requires NoNul(s) && Spells(s, i, a, j) && Spells(s, j, b, k)
    ensures Spells(s, i, a + b, k)
  {
    Join(a, b, Tokens(s, k));
  }

  lemma SpellsMark(s: string, i: nat, c: char)
    requires NoNul(s) && i <= |s| && Ahead(s, i) == c && (c == '|' || c == ')' || c == '&' || c == ';' || c == '(')
    ensures Spells(s, i, [Mark(c)], GetToken(s, i).next)
  {
    AheadMark(s, i, c);
    FirstToken(s, i);
  }

  lemma {:induction false} ExecSpells(s: string, i: nat) returns (u: Unit)
    requires i <= |s| && NoNul(s) && ParseExec(s, i).Ok?
    ensures UnitFits(u) && UnitMeaning(u) == ParseExec(s, i).value
    ensures Spells(s, i, UnitToks(u), ParseExec(s, i).next)
    decreases |s| - i, 1
  {
    if Ahead(s, i) == '(' {
      u := BlockSpells(s, i);
    } else {
      u := SimpleSpells(s, i);
    }
  }

  lemma SimpleSpells(s: string, i: nat) returns (u: Unit)
    requires i <= |s| && NoNul(s) && ParseExec(s, i).Ok? && Ahead(s, i) != '('
    ensures UnitFits(u) && UnitMeaning(u) == ParseExec(s, i).value
    ensures Spells(s, i, UnitToks(u), ParseExec(s, i).next)
  {
    var rs := ParseRedirs(s, i);
    RedirsSpell(s, i);
    var args := ArgsSpell(s, rs.next, 0);
    u := Simple(rs.value, args);
    SpellsOn(s, i, RedirToks(rs.value), rs.next, ArgToks(args), ParseArgs(s, rs.next, 0).next);
    InsideIsWrap(Exec(ArgWords(args)), rs.value + ArgRedirs(args));
  }

  lemma {:induction false} BlockSpells(s: string, i: nat) returns (u: Unit)
    requires i <= |s| && NoNul(s) && ParseBlock(s, i).Ok?
    ensures UnitFits(u) && UnitMeaning(u) == ParseBlock(s, i).value
    ensures Spells(s, i, UnitToks(u), ParseBlock(s, i).next)
    decreases |s| - i, 0
  {
    var j := GetToken(s, i).next;
    var line := ParseLine(s, j);
    var k := GetToken(s, line.next).next;
    var rs := ParseRedirs(s, k);
    var y := LineSpells(s, j);
    u := Group(y, rs.value);
    SpellsMark(s, i, '(');
    SpellsOn(s, i, [Mark('(')], j, Spelling(y), line.next);
    SpellsMark(s, line.next, ')');
    SpellsOn(s, i, [Mark('(')] + Spelling(y), line.next, [Mark(')')], k);
    RedirsSpell(s, k);
    SpellsOn(s, i, [Mark('(')] + Spelling(y) + [Mark(')')], k, RedirToks(rs.value), rs.next);
    InsideIsWrap(Meaning(y), rs.value);
  }

  lemma {:induction false} PipeSpells(s: string, i: nat) returns (p: Pipes)
    requires i <= |s| && NoNul(s) && ParsePipe(s, i).Ok?
    ensures PipesFit(p) && PipesMeaning(p) == ParsePipe(s, i).value
    ensures Spells(s, i, PipesToks(p), ParsePipe(s, i).next)
    decreases |s| - i, 2
  {
    var u := ExecSpells(s, i);
    var l := ParseExec(s, i);
    if Ahead(s, l.next) == '|' {
      var k := GetToken(s, l.next).next;
      var rest := PipeSpells(s, k);
      p := Into(u, rest);
      SpellsMark(s, l.next, '|');
      SpellsOn(s, i, UnitToks(u), l.next, [Mark('|')], k);
      SpellsOn(s, i, UnitToks(u) + [Mark('|')], k, PipesToks(rest), ParsePipe(s, k).next);
    } else {
      p := One(u);
    }
  }

  lemma {:induction false} BacksSpell(s: string, i: nat, cmd: Cmd<Span>) returns (n: nat)
    requires i <= |s| && NoNul(s)
    ensures ParseBacks(s, i, cmd).value == Backs(cmd, n)
    ensures Spells(s, i, BackToks(n), ParseBacks(s, i, cmd).next)
    decreases |s| - i
  {
    if Ahead(s, i) == '&' {
      var k := GetToken(s, i).next;
      var m := BacksSpell(s, k, Back(cmd));
      n := m + 1;
      SpellsMark(s, i, '&');
      SpellsOn(s, i, [Mark('&')], k, BackToks(m), ParseBacks(s, i, cmd).next);
      BacksShift(cmd, n);
    } else {
      n := 0;
      TokensSkip(s, i);
    }
  }

  lemma {:induction false} LineSpells(s: string, i: nat) returns (y: Sentence)
    requires i <= |s| && NoNul(s) && ParseLine(s, i).Ok?
    ensures Fits(y) && Meaning(y) == ParseLine(s, i).value
    ensures Spells(s, i, Spelling(y), ParseLine(s, i).next)
    decreases |s| - i, 3
  {
    var p := PipeSpells(s, i);
    var c := ParsePipe(s, i);
    var n := BacksSpell(s, c.next, c.value);
    var l := ParseBacks(s, c.next, c.value);
    SpellsOn(s, i, PipesToks(p), c.next, BackToks(n), l.next);
    if Ahead(s, l.next) == ';' {
      var k := GetToken(s, l.next).next;
      var rest := LineSpells(s, k);
      y := Then(p, n, rest);
      SpellsMark(s, l.next, ';');
      SpellsOn(s, i, PipesToks(p) + BackToks(n), l.next, [Mark(';')], k);
      SpellsOn(s, i, PipesToks(p) + BackToks(n) + [Mark(';')], k, Spelling(rest), ParseLine(s, k).next);
    } else {
      y := Last(p, n);
    }
  }

  /** The parser is exact: it accepts a line with a tree if and only if the tokens of the line,
      whatever the white space between them, spell a sentence that means that tree and none of
      whose simple commands has MAXARGS words or more. */
  lemma ParserIsExact(s: string, c: Cmd<Span>)
    requires NoNul(s)
    ensures ParseCmd(s) == Ok(c, |s|) <==>
              exists y :: Fits(y) && Spelling(y) == Tokens(s, 0) && Meaning(y) == c
  {
    if ParseCmd(s) == Ok(c, |s|) {
      var y := LineSpells(s, 0);
      AheadEnd(s, ParseLine(s, 0).next);
      assert Spelling(y) == Tokens(s, 0);
    }
    if y :| Fits(y) && Spelling(y) == Tokens(s, 0) && Meaning(y) == c {
      assert Spelling(y) == Spelling(y) + [];
      SentenceParses(s, 0, y, []);
      AheadEnd(s, ParseLine(s, 0).next);
    }
  }
}
