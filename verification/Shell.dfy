/** The shell's parser as written, over a line buffer and a cursor, and nulterminate. */
module Shell {
  import opened ShellSpec
  import opened ShellRoundTrip
  import opened ShellWords

  ghost predicate Buffered(buf: seq<char>, line: string) {
    NoNul(line) && buf == line + [NUL]
  }

  function Prepend(rs: seq<Redirection>, more: Result<seq<Redirection>>): Result<seq<Redirection>> {
    if more.Panic? then Panic else Ok(rs + more.value, more.next)
  }

  function PrependArgs(words: seq<Span>, rs: seq<Redirection>, more: Result<Args>): Result<Args> {
    if more.Panic? then Panic else Ok(Args(words + more.value.words, rs + more.value.redirs), more.next)
  }

  /** The loops of parseredirs and parseexec, one round at a time. */
  lemma RedirsRound(s: string, i: nat, rs: seq<Redirection>, r: Redirection, j: nat)
    requires i <= |s| && NoNul(s) && IsRedir(Ahead(s, i))
    requires var f := GetToken(s, GetToken(s, i).next);
             f.kind == 'a' && r == Redirection(Span(f.q, f.eq), ModeOf(GetToken(s, i).kind)) && j == f.next
    ensures Prepend(rs, ParseRedirs(s, i)) == Prepend(rs + [r], ParseRedirs(s, j))
  {
    var more := ParseRedirs(s, j);
    assert ParseRedirs(s, i) == Prepend([r], more);
    if more.Ok? {
      assert rs + ([r] + more.value) == rs + [r] + more.value;
    }
  }

  lemma ArgsRound(s: string, i: nat, argc: nat, w: Span, more: seq<Redirection>, j: nat)
    requires i <= |s| && NoNul(s) && !EndsExec(Ahead(s, i)) && argc + 1 < MAXARGS
    requires var t := GetToken(s, i);
             t.kind == 'a' && w == Span(t.q, t.eq) && ParseRedirs(s, t.next) == Ok(more, j)
    ensures ParseArgs(s, i, argc) == PrependArgs([w], more, ParseArgs(s, j, argc + 1))
  {}

  lemma PrependTwice(words: seq<Span>, rs: seq<Redirection>, w: Span, more: seq<Redirection>, r: Result<Args>)
    ensures PrependArgs(words, rs, PrependArgs([w], more, r)) == PrependArgs(words + [w], rs + more, r)
  {
    if r.Ok? {
      assert words + ([w] + r.value.words) == words + [w] + r.value.words;
      assert rs + (more + r.value.redirs) == rs + more + r.value.redirs;
    }
  }

  /** What one round of parseexec's loop finds. */
  datatype Arg = Stop | Bad | Word(w: Span, redirs: seq<Redirection>)

  lemma RedirsEnd(s: string, i: nat, rs: seq<Redirection>)
    requires i <= |s| && NoNul(s) && !IsRedir(Ahead(s, i))
    ensures Prepend(rs, ParseRedirs(s, i)) == Ok(rs, Skip(s, i))
  {
    assert rs + [] == rs;
  }

  lemma PrependEnd(words: seq<Span>, rs: seq<Redirection>, i: nat)
    ensures PrependArgs(words, rs, Ok(Args([], []), i)) == Ok(Args(words, rs), i)
  {
    assert words + [] == words && rs + [] == rs;
  }

  lemma PrependNoRedirs(r: Result<seq<Redirection>>)
    ensures Prepend([], r) == r
  {
    if r.Ok? {
      assert [] + r.value == r.value;
    }
  }

  lemma RedirChars(c: char)
    ensures c in "<>" <==> IsRedir(c)
  {
    assert "<>" == ['<', '>'];
  }

  lemma ExecEndChars(c: char)
    ensures c in "|)&;" <==> EndsExec(c)
  {
    assert "|)&;" == ['|', ')', '&', ';'];
  }

  /** Skipping spaces first makes no difference to what follows. */
  lemma AfterSkip(s: string, i: nat)
    requires i <= |s| && NoNul(s)
    ensures Skip(s, Skip(s, i)) == Skip(s, i) && GetToken(s, Skip(s, i)) == GetToken(s, i)
    ensures ParseRedirs(s, Skip(s, i)) == ParseRedirs(s, i)
    ensures ParseBlock(s, Skip(s, i)) == ParseBlock(s, i)
  {
    var j := Skip(s, i);
    assert Skip(s, j) == j;
    assert GetToken(s, j) == GetToken(s, i);
  }

  lemma ArgsAfterSkip(s: string, i: nat, argc: nat)
    requires i <= |s| && NoNul(s)
    ensures ParseArgs(s, Skip(s, i), argc) == ParseArgs(s, i, argc)
  {
    AfterSkip(s, i);
  }

  lemma BacksAfterSkip(s: string, i: nat, cmd: Cmd<Span>)
    requires i <= |s| && NoNul(s)
    ensures ParseBacks(s, Skip(s, i), cmd) == ParseBacks(s, i, cmd)
  {
    AfterSkip(s, i);
  }

  lemma PrependNothing(r: Result<Args>)
    ensures PrependArgs([], [], r) == r
  {
    if r.Ok? {
      assert [] + r.value.words == r.value.words && [] + r.value.redirs == r.value.redirs;
    }
  }

  ghost predicate IsEnd(argv: seq<Span>, k: int) {
    exists i | 0 <= i < |argv| :: argv[i].eq == k
  }

  lemma EndMore(argv: seq<Span>, i: nat, k: int)
    requires i < |argv|
    ensures IsEnd(argv[..i + 1], k) <==> IsEnd(argv[..i], k) || k == argv[i].eq
  {
    var more := argv[..i + 1];
    assert more[i] == argv[i];
    if IsEnd(argv[..i], k) {
      var j :| 0 <= j < i && argv[..i][j].eq == k;
      assert more[j].eq == k;
    }
    if IsEnd(more, k) {
      var j :| 0 <= j <= i && more[j].eq == k;
      assert j < i ==> argv[..i][j].eq == k;
    }
  }

  lemma CutBoth(a: seq<char>, b: seq<char>, c: seq<char>, cmd: Cmd<Span>)
    requires (cmd.Pipe? || cmd.List?) && Cut(a, b, cmd.left) && Cut(b, c, cmd.right)
    ensures Cut(a, c, cmd)
  {
    forall k: nat | k < |a| ensures CutAt(a, c, cmd, k) {
      assert CutAt(a, b, cmd.left, k) && CutAt(b, c, cmd.right, k);
    }
  }

  class Parser {
    const buf: array<char>
    var ps: nat
    ghost const line: string

    ghost predicate Valid()
      reads this, buf
    {
      Buffered(buf[..], line) && ps <= |line|
    }

    constructor (buf: array<char>, ghost line: string)
      requires Buffered(buf[..], line)
      ensures Valid() && this.buf == buf && this.line == line && ps == 0
    {
      this.buf, this.line, ps := buf, line, 0;
    }

    method SkipSpaces(i: nat) returns (j: nat)
      requires Valid() && i <= |line|
      ensures j == Skip(line, i)
    {
      j := i;
      while j < buf.Length - 1 && IsSpace(buf[j])
        invariant i <= j <= |line| && Skip(line, j) == Skip(line, i)
      {
        assert buf[..][j] == line[j];
        j := j + 1;
      }
      assert j < |line| ==> buf[..][j] == line[j];
    }

    /** gettoken. */
    method NextToken() returns (kind: char, q: nat, eq: nat)
      requires Valid()
      modifies this`ps
      ensures Valid() && GetToken(line, old(ps)) == Token(kind, q, eq, ps)
    {
      q := SkipSpaces(ps);
      ghost var a := q;
      assert forall k | 0 <= k < buf.Length :: buf[k] == At(line, k) by {
        forall k | 0 <= k < buf.Length ensures buf[k] == At(line, k) {
          assert buf[..][k] == buf[k];
        }
      }
      assert q < |line| ==> NotNul(line, q);
      kind := buf[q];
      eq := q;
      if buf[q] == NUL {
      } else if buf[q] == '>' {
        eq := eq + 1;
        if buf[eq] == '>' {
          kind := '+';
          eq := eq + 1;
        }
      } else if IsSymbol(buf[q]) {
        eq := eq + 1;
      } else {
        kind := 'a';
        while eq < buf.Length - 1 && !IsSpace(buf[eq]) && !IsSymbol(buf[eq])
          invariant q <= eq <= |line| && WordEnd(line, eq) == WordEnd(line, q)
        {
          eq := eq + 1;
        }
      }
      assert KindAt(line, q) == (kind, eq);
      ps := SkipSpaces(eq);
    }

    method Peek(toks: string) returns (found: bool)
      requires Valid()
      modifies this`ps
      ensures Valid() && ps == Skip(line, old(ps))
      ensures found <==> Ahead(line, old(ps)) != NUL && Ahead(line, old(ps)) in toks
    {
      ps := SkipSpaces(ps);
      assert buf[..][ps] == At(line, ps);
      return buf[ps] != NUL && buf[ps] in toks;
    }

    /** peek(ps, es, "<>"). */
    method PeekRedir() returns (found: bool)
      requires Valid()
      modifies this`ps
      ensures Valid() && ps == Skip(line, old(ps)) == Skip(line, ps)
      ensures ParseRedirs(line, ps) == ParseRedirs(line, old(ps))
      ensures found == IsRedir(Ahead(line, ps))
    {
      ghost var at := ps;
      found := Peek("<>");
      RedirChars(Ahead(line, at));
      AfterSkip(line, at);
    }

    /** parseredirs: the redirections to wrap around the command. */
    method Redirs() returns (r: Result<seq<Redirection>>)
      requires Valid()
      modifies this`ps
      ensures Valid() && r == ParseRedirs(line, old(ps)) && (r.Ok? ==> ps == r.next)
    {
      var rs: seq<Redirection> := [];
      PrependNoRedirs(ParseRedirs(line, ps));
      var more := PeekRedir();
      while more
        invariant Valid() && more == IsRedir(Ahead(line, ps)) && ps == Skip(line, ps)
        invariant Prepend(rs, ParseRedirs(line, ps)) == ParseRedirs(line, old(ps))
        decreases |line| - ps
      {
        ghost var at := ps;
        var tok, q, eq := NextToken();
        var kind;
        kind, q, eq := NextToken();
        if kind != 'a' {
          return Panic;
        }
        var redir := Redirection(Span(q, eq), ModeOf(tok));
        RedirsRound(line, at, rs, redir, ps);
        rs := rs + [redir];
        more := PeekRedir();
      }
      RedirsEnd(line, ps, rs);
      return Ok(rs, ps);
    }

    /** peek(ps, es, "|)&;"). */
    method PeekEnd(ghost argc: nat) returns (found: bool)
      requires Valid()
      modifies this`ps
      ensures Valid() && ps == Skip(line, old(ps)) == Skip(line, ps)
      ensures ParseArgs(line, ps, argc) == ParseArgs(line, old(ps), argc)
      ensures found == EndsExec(Ahead(line, ps))
    {
      ghost var at := ps;
      found := Peek("|)&;");
      ExecEndChars(Ahead(line, at));
      AfterSkip(line, at);
      ArgsAfterSkip(line, at, argc);
    }

    /** One round of the loop of parseexec, when argc words are in already. */
    method Argument(argc: nat) returns (a: Arg)
      requires Valid() && argc < MAXARGS
      modifies this`ps
      ensures Valid()
      ensures a.Stop? ==> ParseArgs(line, old(ps), argc) == Ok(Args([], []), ps)
      ensures a.Bad? ==> ParseArgs(line, old(ps), argc) == Panic
      ensures a.Word? ==> argc + 1 < MAXARGS && old(ps) < ps
                          && ParseArgs(line, old(ps), argc)
                             == PrependArgs([a.w], a.redirs, ParseArgs(line, ps, argc + 1))
    {
      var stop := PeekEnd(argc);
      if stop {
        return Stop;
      }
      ghost var at := ps;
      var tok, q, eq := NextToken();
      if tok == NUL {
        return Stop;
      }
      if tok != 'a' {
        return Bad;
      }
      if argc + 1 >= MAXARGS {
        return Bad;
      }
      var more := Redirs();
      if more.Panic? {
        return Bad;
      }
      ArgsRound(line, at, argc, Span(q, eq), more.value, ps);
      return Word(Span(q, eq), more.value);
    }

    /** What is parsed of a simple command, and what is left to parse, make the whole. */
    ghost predicate Toward(words: seq<Span>, rs: seq<Redirection>, whole: Result<Args>)
      requires Valid()
      reads this, buf
    {
      PrependArgs(words, rs, ParseArgs(line, ps, |words|)) == whole
    }

    /** One round, with the words and redirections read so far. */
    method Round(words: seq<Span>, rs: seq<Redirection>, ghost whole: Result<Args>) returns (a: Arg)
      requires Valid() && |words| < MAXARGS && Toward(words, rs, whole)
      modifies this`ps
      ensures Valid()
      ensures a.Stop? ==> whole == Ok(Args(words, rs), ps)
      ensures a.Bad? ==> whole == Panic
      ensures a.Word? ==> |words + [a.w]| < MAXARGS && old(ps) < ps && Toward(words + [a.w], rs + a.redirs, whole)
    {
      a := Argument(|words|);
      match a
      case Stop => PrependEnd(words, rs, ps);
      case Bad =>
      case Word(w, more) => PrependTwice(words, rs, w, more, ParseArgs(line, ps, |words| + 1));
    }

    /** The loop of parseexec. */
    method Arguments() returns (r: Result<Args>)
      requires Valid()
      modifies this`ps
      ensures Valid() && r == ParseArgs(line, old(ps), 0) && (r.Ok? ==> ps == r.next)
    {
      var words: seq<Span>, rs: seq<Redirection> := [], [];
      ghost var whole := ParseArgs(line, ps, 0);
      PrependNothing(whole);
      while true
        invariant Valid() && |words| < MAXARGS && Toward(words, rs, whole)
        decreases |line| - ps
      {
        var a := Round(words, rs, whole);
        match a
        case Stop => return Ok(Args(words, rs), ps);
        case Bad => return Panic;
        case Word(w, more) => words, rs := words + [w], rs + more;
      }
    }

    /** peek(ps, es, ...) for a single character. */
    method PeekIs(c: char) returns (found: bool)
      requires Valid() && c != NUL
      modifies this`ps
      ensures Valid() && ps == Skip(line, old(ps)) == Skip(line, ps)
      ensures found == (Ahead(line, old(ps)) == c)
    {
      ghost var at := ps;
      found := Peek([c]);
      AfterSkip(line, at);
    }

    /** parseexec. */
    method Exec() returns (r: Result<Cmd<Span>>)
      requires Valid()
      modifies this`ps
      ensures Valid() && r == ParseExec(line, old(ps)) && (r.Ok? ==> ps == r.next)
      decreases |line| - ps, 1
    {
      AfterSkip(line, ps);
      var open := PeekIs('(');
      if open {
        r := Block();
        return;
      }
      var rs := Redirs();
      if rs.Panic? {
        return Panic;
      }
      var args := Arguments();
      if args.Panic? {
        return Panic;
      }
      return Ok(Wrap(ShellSpec.Exec(args.value.words), rs.value + args.value.redirs), ps);
    }

    /** parseblock. */
    method Block() returns (r: Result<Cmd<Span>>)
      requires Valid()
      modifies this`ps
      ensures Valid() && r == ParseBlock(line, old(ps)) && (r.Ok? ==> ps == r.next)
      decreases |line| - ps, 0
    {
      AfterSkip(line, ps);
      var open := PeekIs('(');
      if !open {
        return Panic;
      }
      var tok, q, eq := NextToken();
      var inner := Line();
      if inner.Panic? {
        return Panic;
      }
      AfterSkip(line, ps);
      var close := PeekIs(')');
      if !close {
        return Panic;
      }
      tok, q, eq := NextToken();
      var rs := Redirs();
      if rs.Panic? {
        return Panic;
      }
      return Ok(Wrap(inner.value, rs.value), ps);
    }

    /** parsepipe. */
    method PipeLine() returns (r: Result<Cmd<Span>>)
      requires Valid()
      modifies this`ps
      ensures Valid() && r == ParsePipe(line, old(ps)) && (r.Ok? ==> Skip(line, r.next) == Skip(line, ps))
      ensures r.Ok? ==> old(ps) <= ps
      decreases |line| - ps, 2
    {
      var l := Exec();
      if l.Panic? {
        return Panic;
      }
      AfterSkip(line, ps);
      var bar := PeekIs('|');
      if !bar {
        return l;
      }
      var tok, q, eq := NextToken();
      var right := PipeLine();
      if right.Panic? {
        return Panic;
      }
      return Ok(Pipe(l.value, right.value), right.next);
    }

    /** The loop of parseline over "&". */
    method Backs(cmd: Cmd<Span>) returns (r: Cmd<Span>)
      requires Valid()
      modifies this`ps
      ensures Valid() && Ok(r, ps) == ParseBacks(line, old(ps), cmd) && ps == Skip(line, ps)
    {
      r := cmd;
      BacksAfterSkip(line, ps, r);
      AfterSkip(line, ps);
      var more := PeekIs('&');
      while more
        invariant Valid() && more == (Ahead(line, ps) == '&') && ps == Skip(line, ps)
        invariant ParseBacks(line, ps, r) == ParseBacks(line, old(ps), cmd)
        decreases |line| - ps
      {
        var tok, q, eq := NextToken();
        r := Back(r);
        BacksAfterSkip(line, ps, r);
        AfterSkip(line, ps);
        more := PeekIs('&');
      }
    }

    /** parseline. */
    method Line() returns (r: Result<Cmd<Span>>)
      requires Valid()
      modifies this`ps
      ensures Valid() && r == ParseLine(line, old(ps)) && (r.Ok? ==> ps == r.next)
      decreases |line| - ps, 3
    {
      var c := PipeLine();
      if c.Panic? {
        return Panic;
      }
      BacksAfterSkip(line, ps, c.value);
      BacksAfterSkip(line, c.next, c.value);
      var cmd := Backs(c.value);
      AfterSkip(line, ps);
      var semi := PeekIs(';');
      if !semi {
        return Ok(cmd, ps);
      }
      var tok, q, eq := NextToken();
      var right := Line();
      if right.Panic? {
        return Panic;
      }
      return Ok(List(cmd, right.value), ps);
    }

    /** parsecmd, up to nulterminate. */
    method Command() returns (r: Result<Cmd<Span>>)
      requires Valid() && ps == 0
      modifies this`ps
      ensures Valid() && r == ParseCmd(line)
    {
      var l := Line();
      if l.Panic? {
        return Panic;
      }
      var none := Peek("");
      if ps != buf.Length - 1 {
        return Panic;
      }
      return Ok(l.value, ps);
    }

    /** nulterminate. */
    method NulTerminate(cmd: Cmd<Span>)
      requires Within(cmd, buf.Length)
      modifies buf
      ensures Cut(old(buf[..]), buf[..], cmd)
      decreases cmd
    {
      ghost var a := buf[..];
      match cmd
      case Exec(argv) =>
        var i := 0;
        while i < |argv|
          invariant 0 <= i <= |argv|
          invariant forall k | 0 <= k < buf.Length :: buf[k] == if IsEnd(argv[..i], k) then NUL else a[k]
        {
          buf[argv[i].eq] := NUL;
          forall k ensures IsEnd(argv[..i + 1], k) <==> IsEnd(argv[..i], k) || k == argv[i].eq {
            EndMore(argv, i, k);
          }
          i := i + 1;
        }
        assert argv[..i] == argv;
        forall k: nat | k < buf.Length ensures CutAt(a, buf[..], cmd, k) {
          assert IsEnd(argv, k) <==> EndOf(cmd, k);
        }
      case Redir(sub, file, mode) =>
        NulTerminate(sub);
        ghost var b := buf[..];
        buf[file.eq] := NUL;
        forall k: nat | k < buf.Length ensures CutAt(a, buf[..], cmd, k) {
          assert CutAt(a, b, sub, k);
        }
      case Pipe(l, r) =>
        NulTerminate(l);
        ghost var b := buf[..];
        NulTerminate(r);
        CutBoth(a, b, buf[..], cmd);
      case List(l, r) =>
        NulTerminate(l);
        ghost var b := buf[..];
        NulTerminate(r);
        CutBoth(a, b, buf[..], cmd);
      case Back(sub) =>
        NulTerminate(sub);
        forall k: nat | k < buf.Length ensures CutAt(a, buf[..], cmd, k) {
          assert CutAt(a, buf[..], sub, k);
        }
    }

    /** parsecmd: the command that the line means, with every word of it terminated. */
    method ParseCommand() returns (r: Result<Cmd<Span>>)
      requires Valid() && ps == 0
      modifies this`ps, buf
      ensures r == ParseCmd(line)
      ensures r.Ok? ==> forall w | WordOf(r.value, w) :: CString(buf[..], w.q) == WordText(line, w)
    {
      r := Command();
      if r.Ok? {
        LineIsWords(line, 0);
        WordsWithin(line, r.value);
        NulTerminate(r.value);
        forall w | WordOf(r.value, w) ensures CString(buf[..], w.q) == WordText(line, w) {
          WordsAreStrings(line, r.value, buf[..], w);
        }
      }
    }
  }
}
