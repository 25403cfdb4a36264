/** Printing a command with parentheses around every part and parsing it again. */
module ShellRoundTrip {
  import opened ShellSpec

  function PrintWords(ws: seq<string>): string {
    if ws == [] then "" else ws[0] + " " + PrintWords(ws[1..])
  }

  function Op(m: Mode): string {
    match m
    case Input => "<"
    case Output => ">"
    case Append => ">>"
  }

  function Print(t: Cmd<string>): string {
    match t
    case Exec(ws) => PrintWords(ws)
    case Redir(c, file, mode) => "(" + Print(c) + ")" + (Op(mode) + file)
    case Pipe(l, r) => "(" + Print(l) + ")" + ("|" + "(" + Print(r) + ")")
    case List(l, r) => "(" + Print(l) + ")" + (";" + "(" + Print(r) + ")")
    case Back(c) => "(" + Print(c) + ")" + "&"
  }

  ghost predicate LegalWord(w: string) {
    w != "" && forall i | 0 <= i < |w| :: IsWordChar(w[i])
  }

  /** Words the shell can read back. */
  ghost predicate Readable(t: Cmd<string>) {
    match t
    case Exec(ws) => forall i | 0 <= i < |ws| :: LegalWord(ws[i])
    case Redir(c, file, mode) => Readable(c) && LegalWord(file)
    case Pipe(l, r) => Readable(l) && Readable(r)
    case List(l, r) => Readable(l) && Readable(r)
    case Back(c) => Readable(c)
  }

  /** At most MAXARGS - 1 words to every command. */
  predicate Short(t: Cmd<string>) {
    match t
    case Exec(ws) => |ws| < MAXARGS
    case Redir(c, file, mode) => Short(c)
    case Pipe(l, r) => Short(l) && Short(r)
    case List(l, r) => Short(l) && Short(r)
    case Back(c) => Short(c)
  }

  ghost predicate Legal(t: Cmd<string>) {
    Readable(t) && Short(t)
  }

  function WordText(s: string, w: Span): string {
    if w.q <= w.eq <= |s| then s[w.q..w.eq] else ""
  }

  function Words(s: string, ws: seq<Span>): seq<string> {
    seq(|ws|, i requires 0 <= i < |ws| => WordText(s, ws[i]))
  }

  /** The command with the text of its words. */
  function Text(s: string, c: Cmd<Span>): Cmd<string> {
    match c
    case Exec(ws) => Exec(Words(s, ws))
    case Redir(d, file, mode) => Redir(Text(s, d), WordText(s, file), mode)
    case Pipe(l, r) => Pipe(Text(s, l), Text(s, r))
    case List(l, r) => List(Text(s, l), Text(s, r))
    case Back(d) => Back(Text(s, d))
  }

  // ---- Pieces of the line ----

  ghost predicate Same(s: string, i: nat, x: string, k: nat)
    requires i + k < |s| && k < |x|
  {
    s[i + k] == x[k]
  }

  /** The text x stands at position i. */
  ghost predicate Has(s: string, i: nat, x: string) {
    i + |x| <= |s| && forall k: nat {:trigger Same(s, i, x, k)} | k < |x| :: Same(s, i, x, k)
  }

  lemma HasParts(s: string, i: nat, a: string, b: string)
    requires Has(s, i, a + b)
    ensures Has(s, i, a) && Has(s, i + |a|, b)
  {
    forall k: nat | k < |a| ensures Same(s, i, a, k) {
      assert Same(s, i, a + b, k);
    }
    var j := i + |a|;
    forall k: nat | k < |b| ensures Same(s, j, b, k) {
      assert Same(s, i, a + b, |a| + k);
    }
  }

  lemma HasAt(s: string, i: nat, x: string, k: nat)
    requires Has(s, i, x) && k < |x|
    ensures i + k < |s| && s[i + k] == x[k]
  {
    assert Same(s, i, x, k);
  }

  lemma HasText(s: string, i: nat, x: string)
    requires Has(s, i, x)
    ensures s[i..i + |x|] == x
  {
    forall k | 0 <= k < |x| ensures s[i..i + |x|][k] == x[k] {
      HasAt(s, i, x, k);
    }
  }

  /** A command ends at the end of the line or at a closing parenthesis. */
  predicate Ends(s: string, i: nat) {
    At(s, i) == NUL || At(s, i) == ')'
  }

  /** Neither a space nor a redirection. */
  predicate Plain(s: string, i: nat) {
    !IsSpace(At(s, i)) && At(s, i) != '<' && At(s, i) != '>'
  }

  lemma SkipNone(s: string, i: nat)
    requires i <= |s| && !IsSpace(At(s, i))
    ensures Skip(s, i) == i
  {}

  lemma NoRedirs(s: string, i: nat)
    requires i <= |s| && NoNul(s) && Plain(s, i)
    ensures ParseRedirs(s, i) == Ok([], i)
  {}

  lemma SymbolAt(s: string, i: nat)
    requires i < |s| && NoNul(s) && IsSymbol(s[i]) && s[i] != '>' && !IsSpace(At(s, i + 1))
    ensures GetToken(s, i) == Token(s[i], i, i + 1, i + 1)
  {}

  lemma {:induction false} WordEndIs(s: string, i: nat, e: nat)
    requires i <= e <= |s| && (forall k: nat {:trigger InWord(s, k)} | i <= k < e :: InWord(s, k))
    requires !InWord(s, e) && NoNul(s)
    ensures WordEnd(s, i) == e
    decreases e - i
  {
    assert e < |s| ==> NotNul(s, e);
    if i < e {
      assert InWord(s, i);
      WordEndIs(s, i + 1, e);
    }
  }

  lemma WordAt(s: string, i: nat, w: string)
    requires NoNul(s) && Has(s, i, w) && LegalWord(w) && !IsWordChar(At(s, i + |w|))
    ensures GetToken(s, i) == Token('a', i, i + |w|, Skip(s, i + |w|)) && WordText(s, Span(i, i + |w|)) == w
  {
    forall k: nat | i <= k < i + |w| ensures InWord(s, k) {
      HasAt(s, i, w, k - i);
    }
    assert InWord(s, i);
    WordEndIs(s, i, i + |w|);
    HasText(s, i, w);
  }

  // ---- Words ----

  lemma PrintWordsStart(ws: seq<string>)
    requires forall i | 0 <= i < |ws| :: LegalWord(ws[i])
    ensures PrintWords(ws) == "" || IsWordChar(PrintWords(ws)[0])
    ensures PrintWords(ws) == "" <==> ws == []
  {}

  /** One round of parseexec's loop, over a word and no redirection. */
  lemma ArgsStep(s: string, i: nat, w: string, argc: nat, e: nat, j: nat, more: Result<Args>)
    requires NoNul(s) && Has(s, i, w) && LegalWord(w) && argc + 1 < MAXARGS && e == i + |w| < j == e + 1 <= |s|
    requires s[e] == ' ' && Plain(s, j) && more == ParseArgs(s, j, argc + 1) && more.Ok?
    ensures ParseArgs(s, i, argc) == Ok(Args([Span(i, e)] + more.value.words, more.value.redirs), more.next)
    ensures WordText(s, Span(i, e)) == w
  {
    HasAt(s, i, w, 0);
    WordAt(s, i, w);
    SkipNone(s, j);
    assert GetToken(s, i).next == j;
    NoRedirs(s, j);
    var redirs := more.value.redirs;
    assert [] + redirs == redirs;
  }

  lemma NoArgs(s: string, i: nat, argc: nat)
    requires i <= |s| && NoNul(s) && Ends(s, i)
    ensures ParseArgs(s, i, argc) == Ok(Args([], []), i)
  {}

  lemma FirstWord(s: string, i: nat, ws: seq<string>, e: nat, j: nat)
    requires ws != [] && Has(s, i, PrintWords(ws)) && e == i + |ws[0]| && j == e + 1
    ensures Has(s, i, ws[0]) && j <= |s| && s[e] == ' ' && Has(s, j, PrintWords(ws[1..]))
    ensures i + |PrintWords(ws)| == j + |PrintWords(ws[1..])|
  {
    var w, rest := ws[0], PrintWords(ws[1..]);
    HasParts(s, i, w + " ", rest);
    HasParts(s, i, w, " ");
    HasAt(s, e, " ", 0);
  }

  ghost predicate ReadsWords(s: string, r: Result<Args>, ws: seq<string>, j: nat) {
    r.Ok? && r.value.redirs == [] && r.next == j && Words(s, r.value.words) == ws
  }

  lemma {:induction false} ArgsAt(s: string, i: nat, ws: seq<string>, argc: nat, end: nat)
    requires NoNul(s) && Has(s, i, PrintWords(ws)) && end == i + |PrintWords(ws)| && Ends(s, end)
    requires (forall k | 0 <= k < |ws| :: LegalWord(ws[k])) && argc + |ws| < MAXARGS
    ensures ReadsWords(s, ParseArgs(s, i, argc), ws, end)
    decreases |ws|
  {
    if ws == [] {
      NoArgs(s, i, argc);
    } else {
      var w, rest := ws[0], ws[1..];
      var e, j := i + |w|, i + |w| + 1;
      FirstWord(s, i, ws, e, j);
      PlainWords(s, j, rest);
      ArgsAt(s, j, rest, argc + 1, end);
      var more := ParseArgs(s, j, argc + 1);
      ArgsStep(s, i, w, argc, e, j, more);
      WordsMore(s, Span(i, e), more.value.words, ws);
    }
  }

  lemma PlainWords(s: string, j: nat, ws: seq<string>)
    requires Has(s, j, PrintWords(ws)) && Ends(s, j + |PrintWords(ws)|) && forall k | 0 <= k < |ws| :: LegalWord(ws[k])
    ensures Plain(s, j) && At(s, j) != '('
  {
    PrintWordsStart(ws);
    if ws != [] {
      HasAt(s, j, PrintWords(ws), 0);
    }
  }

  lemma WordsMore(s: string, w: Span, spans: seq<Span>, ws: seq<string>)
    requires ws != [] && WordText(s, w) == ws[0] && Words(s, spans) == ws[1..]
    ensures Words(s, [w] + spans) == ws
  {
    assert |ws| == 1 + |spans|;
    forall k | 0 <= k < |ws| ensures Words(s, [w] + spans)[k] == ws[k] {
      if k > 0 {
        assert Words(s, spans)[k - 1] == ws[1..][k - 1];
      }
    }
  }

  // ---- Commands ----

  lemma {:induction false} PrintStart(t: Cmd<string>)
    requires Readable(t)
    ensures Print(t) == "" || Print(t)[0] == '(' || IsWordChar(Print(t)[0])
  {
    if t.Exec? {
      PrintWordsStart(t.argv);
    }
  }

  /** A parse that reads back t from position i up to position j. */
  ghost predicate Reads(s: string, r: Result<Cmd<Span>>, t: Cmd<string>, j: nat) {
    r.Ok? && r.next == j && Text(s, r.value) == t
  }

  /** Where a command ends, nothing more is taken. */
  lemma LineEnds(s: string, i: nat)
    requires i <= |s| && NoNul(s)
    requires ParseExec(s, i).Ok? && Ends(s, ParseExec(s, i).next)
    ensures ParseLine(s, i) == ParseExec(s, i)
  {
    var j := ParseExec(s, i).next;
    SkipNone(s, j);
    assert ParsePipe(s, i) == ParseExec(s, i);
  }

  lemma ExecAt(s: string, i: nat, ws: seq<string>)
    requires NoNul(s) && Has(s, i, PrintWords(ws)) && Ends(s, i + |PrintWords(ws)|) && Legal(Exec(ws))
    ensures Reads(s, ParseLine(s, i), Exec(ws), i + |PrintWords(ws)|)
  {
    PlainWords(s, i, ws);
    SkipNone(s, i);
    NoRedirs(s, i);
    ArgsAt(s, i, ws, 0, i + |PrintWords(ws)|);
    var args := ParseArgs(s, i, 0);
    var none: seq<Redirection> := [];
    assert none + args.value.redirs == [];
    assert ParseExec(s, i) == Ok(Exec(args.value.words), args.next);
    LineEnds(s, i);
  }

  lemma BlockChars(s: string, i: nat, c: Cmd<string>, j: nat)
    requires Has(s, i, "(" + Print(c) + ")") && Readable(c) && j == i + 1 + |Print(c)|
    ensures i < j < |s| && s[i] == '(' && s[j] == ')' && Has(s, i + 1, Print(c)) && !IsSpace(At(s, i + 1))
  {
    var open := "(" + Print(c);
    HasParts(s, i, open, ")");
    HasParts(s, i, "(", Print(c));
    HasAt(s, i, "(", 0);
    HasAt(s, j, ")", 0);
    PrintStart(c);
    if Print(c) != "" {
      HasAt(s, i + 1, Print(c), 0);
    }
  }

  /** A parenthesised line, up to its closing parenthesis at j. */
  lemma BlockParse(s: string, i: nat, j: nat, line: Result<Cmd<Span>>, rs: Result<seq<Redirection>>)
    requires NoNul(s) && i < j < |s| && s[i] == '(' && s[j] == ')' && !IsSpace(At(s, i + 1)) && !IsSpace(At(s, j + 1))
    requires line == ParseLine(s, i + 1) && line.Ok? && line.next == j && rs == ParseRedirs(s, j + 1)
    ensures ParseExec(s, i) == if rs.Panic? then Panic else Ok(Wrap(line.value, rs.value), rs.next)
  {
    var open, close := GetToken(s, i), GetToken(s, j);
    assert open.next == i + 1 && close.next == j + 1 by {
      SymbolAt(s, i);
      SymbolAt(s, j);
    }
    assert Ahead(s, i) == '(' && Ahead(s, j) == ')' by {
      SkipNone(s, i);
      SkipNone(s, j);
    }
    assert ParseLine(s, open.next) == line && ParseRedirs(s, close.next) == rs;
  }

  // ---- The round trip ----

  /** A parenthesised line from i to j that reads as t. */
  ghost predicate IsBlock(s: string, i: nat, t: Cmd<string>, j: nat) {
    && i < j < |s| && s[i] == '(' && s[j] == ')' && !IsSpace(At(s, i + 1))
    && NoNul(s) && Reads(s, ParseLine(s, i + 1), t, j)
  }

  /** Unless a redirection follows, a block is a whole command. */
  lemma AfterBlock(s: string, i: nat, t: Cmd<string>, j: nat, k: nat)
    requires IsBlock(s, i, t, j) && k == j + 1 && Plain(s, k)
    ensures Reads(s, ParseExec(s, i), t, k)
  {
    NoRedirs(s, k);
    BlockParse(s, i, j, ParseLine(s, i + 1), ParseRedirs(s, k));
  }

  lemma BackParse(s: string, i: nat, k: nat, cmd: Cmd<Span>)
    requires NoNul(s) && i <= k < |s| && ParseExec(s, i) == Ok(cmd, k) && s[k] == '&' && Ends(s, k + 1)
    ensures ParseLine(s, i) == Ok(Back(cmd), k + 1)
  {
    var m := k + 1;
    SkipNone(s, k);
    SymbolAt(s, k);
    SkipNone(s, m);
    assert ParsePipe(s, i) == Ok(cmd, k);
    assert ParseBacks(s, m, Back(cmd)) == Ok(Back(cmd), m);
    assert ParseBacks(s, k, cmd) == Ok(Back(cmd), m);
  }

  lemma ListParse(s: string, i: nat, k: nat, m: nat, l: Cmd<Span>, r: Result<Cmd<Span>>)
    requires NoNul(s) && i <= k < |s| && m == k + 1 && ParseExec(s, i) == Ok(l, k) && At(s, k) == ';'
    requires !IsSpace(At(s, m))
    requires r == ParseLine(s, m) && r.Ok?
    ensures ParseLine(s, i) == Ok(List(l, r.value), r.next)
  {
    SkipNone(s, k);
    SymbolAt(s, k);
    assert GetToken(s, k).next == m;
    assert ParsePipe(s, i) == Ok(l, k);
    assert ParseBacks(s, k, l) == Ok(l, k);
  }

  lemma PipeParse(s: string, i: nat, k: nat, m: nat, l: Cmd<Span>, r: Cmd<Span>, e: nat)
    requires NoNul(s) && i <= k < |s| && m == k + 1 && ParseExec(s, i) == Ok(l, k) && At(s, k) == '|'
    requires !IsSpace(At(s, m))
    requires ParseExec(s, m) == Ok(r, e) && e <= |s| && Ends(s, e)
    ensures ParseLine(s, i) == Ok(Pipe(l, r), e)
  {
    SkipNone(s, k);
    SymbolAt(s, k);
    SkipNone(s, e);
    assert GetToken(s, k).next == m;
    assert ParsePipe(s, m) == Ok(r, e);
    assert ParsePipe(s, i) == Ok(Pipe(l, r), e);
    assert ParseBacks(s, e, Pipe(l, r)) == Ok(Pipe(l, r), e);
  }

  lemma OpAt(s: string, k: nat, mode: Mode, a: nat)
    requires NoNul(s) && Has(s, k, Op(mode)) && a == k + |Op(mode)| && IsWordChar(At(s, a))
    ensures k < a <= |s| && IsRedir(s[k]) && GetToken(s, k).next == a && ModeOf(GetToken(s, k).kind) == mode
  {
    HasAt(s, k, Op(mode), 0);
    if mode == Append {
      HasAt(s, k, Op(mode), 1);
    }
    SkipNone(s, k);
    SkipNone(s, a);
  }

  /** A redirection at k, to the file named from a to e. */
  lemma RedirsAt(s: string, k: nat, mode: Mode, file: string, a: nat, e: nat)
    requires NoNul(s) && Has(s, k, Op(mode)) && a == k + |Op(mode)| && Has(s, a, file) && LegalWord(file)
    requires e == a + |file| && Ends(s, e)
    ensures k < |s| && !IsSpace(s[k]) && WordText(s, Span(a, e)) == file
    ensures ParseRedirs(s, k) == Ok([Redirection(Span(a, e), mode)], e)
  {
    HasAt(s, a, file, 0);
    OpAt(s, k, mode, a);
    WordAt(s, a, file);
    SkipNone(s, k);
    SkipNone(s, e);
    NoRedirs(s, e);
    var one, none: seq<Redirection> := [Redirection(Span(a, e), mode)], [];
    assert one + none == one;
  }

  lemma RedirPieces(s: string, i: nat, c: Cmd<string>, file: string, mode: Mode, k: nat, a: nat, e: nat)
    requires Has(s, i, Print(Redir(c, file, mode))) && k == i + 2 + |Print(c)| && a == k + |Op(mode)| && e == a + |file|
    ensures Has(s, i, "(" + Print(c) + ")") && Has(s, k, Op(mode)) && Has(s, a, file)
    ensures e == i + |Print(Redir(c, file, mode))|
  {
    var block := "(" + Print(c) + ")";
    HasParts(s, i, block, Op(mode) + file);
    HasParts(s, k, Op(mode), file);
  }

  lemma RedirParse(s: string, i: nat, j: nat, k: nat, line: Result<Cmd<Span>>, w: Span, mode: Mode, e: nat)
    requires NoNul(s) && i < j < |s| && s[i] == '(' && s[j] == ')' && k == j + 1 && !IsSpace(At(s, i + 1))
    requires !IsSpace(At(s, k))
    requires line == ParseLine(s, i + 1) && line.Ok? && line.next == j
    requires ParseRedirs(s, k) == Ok([Redirection(w, mode)], e) && Ends(s, e)
    ensures ParseLine(s, i) == Ok(Redir(line.value, w, mode), e)
  {
    var rs := [Redirection(w, mode)];
    BlockParse(s, i, j, line, ParseRedirs(s, k));
    assert Wrap(line.value, rs) == Redir(line.value, w, mode) by {
      assert rs[..0] == [];
    }
    LineEnds(s, i);
  }

  lemma RedirAt(s: string, i: nat, c: Cmd<string>, file: string, mode: Mode, j: nat, k: nat, a: nat, e: nat)
    requires IsBlock(s, i, c, j) && k == j + 1 && a == k + |Op(mode)| && e == a + |file| && Ends(s, e)
    requires Has(s, k, Op(mode)) && Has(s, a, file) && LegalWord(file)
    ensures Reads(s, ParseLine(s, i), Redir(c, file, mode), e)
  {
    RedirsAt(s, k, mode, file, a, e);
    RedirParse(s, i, j, k, ParseLine(s, i + 1), Span(a, e), mode, e);
  }

  lemma BackAt(s: string, i: nat, c: Cmd<string>, j: nat, k: nat)
    requires IsBlock(s, i, c, j) && k == j + 1 < |s| && s[k] == '&' && Ends(s, k + 1)
    ensures Reads(s, ParseLine(s, i), Back(c), k + 1)
  {
    AfterBlock(s, i, c, j, k);
    BackParse(s, i, k, ParseExec(s, i).value);
  }

  /** Two parenthesised commands with a separator between them. */
  lemma PairChars(s: string, i: nat, l: Cmd<string>, sep: string, r: Cmd<string>, j: nat, n: nat)
    requires |sep| == 1 && Has(s, i, "(" + Print(l) + ")" + (sep + "(" + Print(r) + ")")) && Readable(l) && Readable(r)
    requires j == i + 1 + |Print(l)| && n == j + 3 + |Print(r)|
    ensures Has(s, i, "(" + Print(l) + ")") && Has(s, j + 2, "(" + Print(r) + ")") && n < |s|
    ensures s[j + 1] == sep[0] && s[j + 2] == '('
  {
    var left, right := "(" + Print(l) + ")", "(" + Print(r) + ")";
    assert sep + "(" + Print(r) + ")" == sep + right;
    HasParts(s, i, left, sep + right);
    HasParts(s, j + 1, sep, right);
    HasAt(s, j + 1, sep, 0);
    HasAt(s, j + 2, right, 0);
  }

  lemma PipeAt(s: string, i: nat, l: Cmd<string>, j: nat, k: nat, m: nat, r: Cmd<string>, n: nat, e: nat)
    requires IsBlock(s, i, l, j) && k == j + 1 && m == k + 1 && At(s, k) == '|' && IsBlock(s, m, r, n)
    requires e == n + 1 && Ends(s, e)
    ensures Reads(s, ParseLine(s, i), Pipe(l, r), e)
  {
    AfterBlock(s, i, l, j, k);
    AfterBlock(s, m, r, n, e);
    PipeParse(s, i, k, m, ParseExec(s, i).value, ParseExec(s, m).value, e);
  }

  lemma ListAt(s: string, i: nat, l: Cmd<string>, j: nat, k: nat, m: nat, r: Cmd<string>, n: nat, e: nat)
    requires IsBlock(s, i, l, j) && k == j + 1 && m == k + 1 && At(s, k) == ';' && IsBlock(s, m, r, n)
    requires e == n + 1 && Ends(s, e)
    ensures Reads(s, ParseLine(s, i), List(l, r), e)
  {
    AfterBlock(s, i, l, j, k);
    AfterBlock(s, m, r, n, e);
    LineEnds(s, m);
    ListParse(s, i, k, m, ParseExec(s, i).value, ParseLine(s, m));
  }

  /** Wherever a printed command stands and ends, parseline reads that command. */
  lemma {:induction false} LineAt(s: string, i: nat, t: Cmd<string>, e: nat)
    requires NoNul(s) && Has(s, i, Print(t)) && Legal(t) && e == i + |Print(t)| && Ends(s, e)
    ensures Reads(s, ParseLine(s, i), t, e)
    decreases t, 1
  {
    match t {
      case Exec(ws) => ExecAt(s, i, ws);
      case Redir(c, file, mode) =>
        var j, k := i + 1 + |Print(c)|, i + 2 + |Print(c)|;
        var a := k + |Op(mode)|;
        RedirPieces(s, i, c, file, mode, k, a, e);
        InnerAt(s, i, c, j);
        RedirAt(s, i, c, file, mode, j, k, a, e);
      case Back(c) =>
        var j := i + 1 + |Print(c)|;
        HasParts(s, i, "(" + Print(c) + ")", "&");
        HasAt(s, j + 1, "&", 0);
        InnerAt(s, i, c, j);
        BackAt(s, i, c, j, j + 1);
      case _ => PairLine(s, i, t, e);
    }
  }

  lemma PairLine(s: string, i: nat, t: Cmd<string>, e: nat)
    requires NoNul(s) && Has(s, i, Print(t)) && Legal(t) && e == i + |Print(t)| && Ends(s, e) && (t.Pipe? || t.List?)
    ensures Reads(s, ParseLine(s, i), t, e)
    decreases t, 0
  {
    var j := i + 1 + |Print(t.left)|;
    var k, m, n := j + 1, j + 2, e - 1;
    PairChars(s, i, t.left, if t.Pipe? then "|" else ";", t.right, j, n);
    InnerAt(s, i, t.left, j);
    InnerAt(s, m, t.right, n);
    if t.Pipe? {
      PipeAt(s, i, t.left, j, k, m, t.right, n, e);
    } else {
      ListAt(s, i, t.left, j, k, m, t.right, n, e);
    }
  }

  lemma InnerAt(s: string, i: nat, c: Cmd<string>, j: nat)
    requires NoNul(s) && Has(s, i, "(" + Print(c) + ")") && Legal(c) && j == i + 1 + |Print(c)|
    ensures IsBlock(s, i, c, j)
    decreases c, 2
  {
    BlockChars(s, i, c, j);
    LineAt(s, i + 1, c, j);
  }

  lemma {:induction false} PrintWordsNoNul(ws: seq<string>, i: nat)
    requires i < |PrintWords(ws)| && forall k | 0 <= k < |ws| :: LegalWord(ws[k])
    ensures PrintWords(ws)[i] != NUL
    decreases |ws|
  {
    var n := |ws[0]| + 1;
    assert LegalWord(ws[0]);
    if i >= n {
      PrintWordsNoNul(ws[1..], i - n);
    }
  }

  lemma {:induction false} PrintNoNul(t: Cmd<string>, i: nat)
    requires Readable(t) && i < |Print(t)|
    ensures Print(t)[i] != NUL
    decreases t
  {
    match t {
      case Exec(ws) => PrintWordsNoNul(ws, i);
      case Redir(c, file, mode) =>
        if 0 < i <= |Print(c)| {
          PrintNoNul(c, i - 1);
        }
      case Back(c) =>
        if 0 < i <= |Print(c)| {
          PrintNoNul(c, i - 1);
        }
      case Pipe(l, r) =>
        if 0 < i <= |Print(l)| {
          PrintNoNul(l, i - 1);
        } else if |Print(l)| + 4 <= i < |Print(l)| + 4 + |Print(r)| {
          PrintNoNul(r, i - |Print(l)| - 4);
        }
      case List(l, r) =>
        if 0 < i <= |Print(l)| {
          PrintNoNul(l, i - 1);
        } else if |Print(l)| + 4 <= i < |Print(l)| + 4 + |Print(r)| {
          PrintNoNul(r, i - |Print(l)| - 4);
        }
    }
  }

  /** The bound on words is exact: with MAXARGS of them or more the parser panics. */
  lemma {:induction false} TooManyWords(s: string, i: nat, ws: seq<string>, argc: nat, end: nat)
    requires NoNul(s) && Has(s, i, PrintWords(ws)) && end == i + |PrintWords(ws)| && Ends(s, end)
    requires (forall k | 0 <= k < |ws| :: LegalWord(ws[k])) && argc < MAXARGS <= argc + |ws|
    ensures ParseArgs(s, i, argc) == Panic
    decreases |ws|
  {
    var w, rest := ws[0], ws[1..];
    var e, j := i + |w|, i + |w| + 1;
    FirstWord(s, i, ws, e, j);
    PlainWords(s, i, ws);
    SkipNone(s, i);
    HasAt(s, i, w, 0);
    WordAt(s, i, w);
    if argc + 1 < MAXARGS {
      PlainWords(s, j, rest);
      TooManyWords(s, j, rest, argc + 1, end);
      SkipNone(s, j);
      NoRedirs(s, j);
    }
  }

  // ---- Too many words anywhere in a command ----

  lemma LongExecAt(s: string, i: nat, ws: seq<string>)
    requires NoNul(s) && Has(s, i, PrintWords(ws)) && Ends(s, i + |PrintWords(ws)|)
    requires Readable(Exec(ws)) && !Short(Exec(ws))
    ensures ParseExec(s, i) == Panic
  {
    PlainWords(s, i, ws);
    SkipNone(s, i);
    NoRedirs(s, i);
    TooManyWords(s, i, ws, 0, i + |PrintWords(ws)|);
  }

  /** A parenthesised line that panics. */
  lemma LongBlock(s: string, i: nat)
    requires NoNul(s) && i < |s| && s[i] == '(' && !IsSpace(At(s, i + 1)) && ParseLine(s, i + 1) == Panic
    ensures ParseExec(s, i) == Panic
  {
    SymbolAt(s, i);
    SkipNone(s, i);
  }

  lemma LongLine(s: string, i: nat)
    requires NoNul(s) && i <= |s| && ParseExec(s, i) == Panic
    ensures ParsePipe(s, i) == Panic && ParseLine(s, i) == Panic
  {}

  lemma LongRight(s: string, i: nat, k: nat, m: nat, l: Cmd<Span>)
    requires NoNul(s) && i <= k < |s| && m == k + 1 <= |s| && ParseExec(s, i) == Ok(l, k) && !IsSpace(At(s, m))
    requires (At(s, k) == '|' && ParsePipe(s, m) == Panic) || (At(s, k) == ';' && ParseLine(s, m) == Panic)
    ensures ParseLine(s, i) == Panic
  {
    SkipNone(s, k);
    SymbolAt(s, k);
    assert GetToken(s, k).next == m;
    if At(s, k) == ';' {
      assert ParsePipe(s, i) == Ok(l, k);
      assert ParseBacks(s, k, l) == Ok(l, k);
    }
  }

  /** Wherever a printed command with too many words stands and ends, parseline panics. */
  lemma {:induction false} LongAt(s: string, i: nat, t: Cmd<string>, e: nat)
    requires NoNul(s) && Has(s, i, Print(t)) && Readable(t) && !Short(t) && e == i + |Print(t)| && Ends(s, e)
    ensures ParseLine(s, i) == Panic
    decreases t, 1
  {
    match t {
      case Exec(ws) =>
        LongExecAt(s, i, ws);
        LongLine(s, i);
      case Redir(c, file, mode) =>
        var k := i + 2 + |Print(c)|;
        var a := k + |Op(mode)|;
        RedirPieces(s, i, c, file, mode, k, a, e);
        LongInner(s, i, c);
      case Back(c) =>
        HasParts(s, i, "(" + Print(c) + ")", "&");
        LongInner(s, i, c);
      case _ => LongPair(s, i, t, e);
    }
  }

  lemma LongPair(s: string, i: nat, t: Cmd<string>, e: nat)
    requires NoNul(s) && Has(s, i, Print(t)) && Readable(t) && !Short(t) && e == i + |Print(t)| && Ends(s, e)
    requires t.Pipe? || t.List?
    ensures ParseLine(s, i) == Panic
    decreases t, 0
  {
    var j := i + 1 + |Print(t.left)|;
    var k, m, n := j + 1, j + 2, e - 1;
    PairChars(s, i, t.left, if t.Pipe? then "|" else ";", t.right, j, n);
    if !Short(t.left) {
      LongInner(s, i, t.left);
    } else {
      InnerAt(s, i, t.left, j);
      LongInner(s, m, t.right);
      LongAfter(s, i, t.left, j, k, m);
    }
  }

  lemma LongAfter(s: string, i: nat, l: Cmd<string>, j: nat, k: nat, m: nat)
    requires IsBlock(s, i, l, j) && k == j + 1 && m == k + 1 <= |s| && (At(s, k) == '|' || At(s, k) == ';')
    requires ParsePipe(s, m) == Panic && ParseLine(s, m) == Panic && !IsSpace(At(s, m))
    ensures ParseLine(s, i) == Panic
  {
    AfterBlock(s, i, l, j, k);
    LongRight(s, i, k, m, ParseExec(s, i).value);
  }

  lemma LongInner(s: string, i: nat, c: Cmd<string>)
    requires NoNul(s) && Has(s, i, "(" + Print(c) + ")") && Readable(c) && !Short(c)
    ensures i <= |s| && ParsePipe(s, i) == Panic && ParseLine(s, i) == Panic
    decreases c, 2
  {
    var j := i + 1 + |Print(c)|;
    BlockChars(s, i, c, j);
    LongAt(s, i + 1, c, j);
    LongBlock(s, i);
    LongLine(s, i);
  }

  /** Parsing the printing of a command gives that command and uses up the line, exactly when
      no part of it has MAXARGS words or more; otherwise the parser panics. */
  lemma RoundTripIff(t: Cmd<string>)
    requires Readable(t)
    ensures NoNul(Print(t))
    ensures var r := ParseCmd(Print(t));
            if Short(t) then r.Ok? && r.next == |Print(t)| && Text(Print(t), r.value) == t else r == Panic
  {
    var s := Print(t);
    forall i: nat | i < |s| ensures NotNul(s, i) {
      PrintNoNul(t, i);
    }
    forall k: nat | k < |s| ensures Same(s, 0, s, k) {}
    if Short(t) {
      LineAt(s, 0, t, |s|);
    } else {
      LongAt(s, 0, t, |s|);
    }
  }
}
