/** Every word a parse finds is a maximal word of the line, so that cutting the line at the
    end of each of them leaves all of them whole. */
module ShellWords {
  import opened ShellSpec
  import opened ShellRoundTrip

  ghost predicate FilesOk(s: string, rs: seq<Redirection>) {
    forall k | 0 <= k < |rs| :: IsWord(s, rs[k].file)
  }

  ghost predicate WordsOk(s: string, ws: seq<Span>) {
    forall k | 0 <= k < |ws| :: IsWord(s, ws[k])
  }

  ghost predicate AllWords(s: string, c: Cmd<Span>) {
    match c
    case Exec(ws) => WordsOk(s, ws)
    case Redir(d, file, mode) => AllWords(s, d) && IsWord(s, file)
    case Pipe(l, r) => AllWords(s, l) && AllWords(s, r)
    case List(l, r) => AllWords(s, l) && AllWords(s, r)
    case Back(d) => AllWords(s, d)
  }

  lemma {:induction false} WrapWords(s: string, c: Cmd<Span>, rs: seq<Redirection>)
    requires AllWords(s, c) && FilesOk(s, rs)
    ensures AllWords(s, Wrap(c, rs))
    decreases |rs|
  {
    if rs != [] {
      WrapWords(s, c, rs[..|rs| - 1]);
    }
  }

  lemma {:induction false} RedirsAreWords(s: string, i: nat)
    requires i <= |s| && NoNul(s) && ParseRedirs(s, i).Ok?
    ensures FilesOk(s, ParseRedirs(s, i).value)
    decreases |s| - i
  {
    if IsRedir(Ahead(s, i)) {
      var t := GetToken(s, i);
      var f := GetToken(s, t.next);
      TokenIsWord(s, t.next);
      RedirsAreWords(s, f.next);
    }
  }

  lemma {:induction false} ArgsAreWords(s: string, i: nat, argc: nat)
    requires i <= |s| && NoNul(s) && ParseArgs(s, i, argc).Ok?
    ensures WordsOk(s, ParseArgs(s, i, argc).value.words) && FilesOk(s, ParseArgs(s, i, argc).value.redirs)
    decreases |s| - i
  {
    var t := GetToken(s, i);
    if !EndsExec(Ahead(s, i)) && t.kind != NUL {
      TokenIsWord(s, i);
      RedirsAreWords(s, t.next);
      ArgsAreWords(s, ParseRedirs(s, t.next).next, argc + 1);
    }
  }

  lemma {:induction false} ExecIsWords(s: string, i: nat)
    requires i <= |s| && NoNul(s) && ParseExec(s, i).Ok?
    ensures AllWords(s, ParseExec(s, i).value)
    decreases |s| - i, 1
  {
    if Ahead(s, i) == '(' {
      BlockIsWords(s, i);
    } else {
      var rs := ParseRedirs(s, i);
      var args := ParseArgs(s, rs.next, 0);
      RedirsAreWords(s, i);
      ArgsAreWords(s, rs.next, 0);
      WrapWords(s, Exec(args.value.words), rs.value + args.value.redirs);
    }
  }

  lemma {:induction false} BlockIsWords(s: string, i: nat)
    requires i <= |s| && NoNul(s) && ParseBlock(s, i).Ok?
    ensures AllWords(s, ParseBlock(s, i).value)
    decreases |s| - i, 0
  {
    var j := GetToken(s, i).next;
    var line := ParseLine(s, j);
    var k := GetToken(s, line.next).next;
    LineIsWords(s, j);
    RedirsAreWords(s, k);
    WrapWords(s, line.value, ParseRedirs(s, k).value);
  }

  lemma {:induction false} PipeIsWords(s: string, i: nat)
    requires i <= |s| && NoNul(s) && ParsePipe(s, i).Ok?
    ensures AllWords(s, ParsePipe(s, i).value)
    decreases |s| - i, 2
  {
    ExecIsWords(s, i);
    var l := ParseExec(s, i);
    if Ahead(s, l.next) == '|' {
      PipeIsWords(s, GetToken(s, l.next).next);
    }
  }

  lemma {:induction false} BacksIsWords(s: string, i: nat, cmd: Cmd<Span>)
    requires i <= |s| && NoNul(s) && AllWords(s, cmd)
    ensures AllWords(s, ParseBacks(s, i, cmd).value)
    decreases |s| - i
  {
    if Ahead(s, i) == '&' {
      BacksIsWords(s, GetToken(s, i).next, Back(cmd));
    }
  }

  lemma {:induction false} LineIsWords(s: string, i: nat)
    requires i <= |s| && NoNul(s) && ParseLine(s, i).Ok?
    ensures AllWords(s, ParseLine(s, i).value)
    decreases |s| - i, 3
  {
    PipeIsWords(s, i);
    var c := ParsePipe(s, i);
    BacksIsWords(s, c.next, c.value);
    var l := ParseBacks(s, c.next, c.value);
    if Ahead(s, l.next) == ';' {
      LineIsWords(s, GetToken(s, l.next).next);
    }
  }

  // ---- Cutting the line ----

  ghost predicate WordOf(c: Cmd<Span>, w: Span) {
    match c
    case Exec(ws) => w in ws
    case Redir(d, file, mode) => WordOf(d, w) || w == file
    case Pipe(l, r) => WordOf(l, w) || WordOf(r, w)
    case List(l, r) => WordOf(l, w) || WordOf(r, w)
    case Back(d) => WordOf(d, w)
  }

  /** Position k is the end of a word of c. */
  ghost predicate EndOf(c: Cmd<Span>, k: nat) {
    match c
    case Exec(ws) => exists i | 0 <= i < |ws| :: ws[i].eq == k
    case Redir(d, file, mode) => EndOf(d, k) || k == file.eq
    case Pipe(l, r) => EndOf(l, k) || EndOf(r, k)
    case List(l, r) => EndOf(l, k) || EndOf(r, k)
    case Back(d) => EndOf(d, k)
  }

  /** Every word of c ends before position n. */
  ghost predicate Within(c: Cmd<Span>, n: nat) {
    match c
    case Exec(ws) => forall i | 0 <= i < |ws| :: ws[i].eq < n
    case Redir(d, file, mode) => Within(d, n) && file.eq < n
    case Pipe(l, r) => Within(l, n) && Within(r, n)
    case List(l, r) => Within(l, n) && Within(r, n)
    case Back(d) => Within(d, n)
  }

  lemma {:induction false} WordsWithin(s: string, c: Cmd<Span>)
    requires AllWords(s, c)
    ensures Within(c, |s| + 1)
  {
    match c {
      case Exec(ws) =>
      case Redir(d, file, mode) => WordsWithin(s, d);
      case Back(d) => WordsWithin(s, d);
      case _ =>
        WordsWithin(s, c.left);
        WordsWithin(s, c.right);
    }
  }

  lemma {:induction false} EndIsNoWordChar(s: string, c: Cmd<Span>, k: nat)
    requires AllWords(s, c) && EndOf(c, k)
    ensures k <= |s| && !InWord(s, k)
    decreases c
  {
    match c {
      case Exec(ws) =>
        var i :| 0 <= i < |ws| && ws[i].eq == k;
        assert IsWord(s, ws[i]);
      case Redir(d, file, mode) =>
        if EndOf(d, k) {
          EndIsNoWordChar(s, d, k);
        }
      case Back(d) => EndIsNoWordChar(s, d, k);
      case _ =>
        if EndOf(c.left, k) {
          EndIsNoWordChar(s, c.left, k);
        } else {
          EndIsNoWordChar(s, c.right, k);
        }
    }
  }

  lemma {:induction false} WordOfIsWord(s: string, c: Cmd<Span>, w: Span)
    requires AllWords(s, c) && WordOf(c, w)
    ensures IsWord(s, w) && EndOf(c, w.eq)
    decreases c
  {
    match c {
      case Exec(ws) =>
        var i :| 0 <= i < |ws| && ws[i] == w;
        assert ws[i].eq == w.eq;
      case Redir(d, file, mode) =>
        if WordOf(d, w) {
          WordOfIsWord(s, d, w);
        }
      case Back(d) => WordOfIsWord(s, d, w);
      case _ =>
        if WordOf(c.left, w) {
          WordOfIsWord(s, c.left, w);
        } else {
          WordOfIsWord(s, c.right, w);
        }
    }
  }

  ghost predicate CutAt(a: seq<char>, b: seq<char>, c: Cmd<Span>, k: nat)
    requires k < |a| && k < |b|
  {
    b[k] == if EndOf(c, k) then NUL else a[k]
  }

  /** From a to b exactly the ends of the words of c became NUL. */
  ghost predicate Cut(a: seq<char>, b: seq<char>, c: Cmd<Span>) {
    |a| == |b| && forall k: nat {:trigger CutAt(a, b, c, k)} | k < |a| :: CutAt(a, b, c, k)
  }

  /** The C string that starts at q. */
  function CString(b: seq<char>, q: nat): string
    decreases |b| - q
  {
    if q < |b| && b[q] != NUL then [b[q]] + CString(b, q + 1) else ""
  }

  lemma {:induction false} CStringIs(b: seq<char>, q: nat, e: nat)
    requires q <= e < |b| && b[e] == NUL && forall k | q <= k < e :: b[k] != NUL
    ensures CString(b, q) == b[q..e]
    decreases e - q
  {
    if q < e {
      CStringIs(b, q + 1, e);
      assert b[q..e] == [b[q]] + b[q + 1..e];
    }
  }

  /** After nulterminate each word of the command is a C string that is exactly its token. */
  lemma WordsAreStrings(line: string, c: Cmd<Span>, b: seq<char>, w: Span)
    requires NoNul(line) && AllWords(line, c) && Cut(line + [NUL], b, c) && WordOf(c, w)
    ensures CString(b, w.q) == WordText(line, w)
  {
    WordOfIsWord(line, c, w);
    assert CutAt(line + [NUL], b, c, w.eq);
    forall k: nat | w.q <= k < w.eq ensures b[k] == line[k] && b[k] != NUL {
      assert InWord(line, k) && CutAt(line + [NUL], b, c, k);
      if EndOf(c, k) {
        EndIsNoWordChar(line, c, k);
      }
    }
    CStringIs(b, w.q, w.eq);
    assert b[w.q..w.eq] == line[w.q..w.eq];
  }
}
