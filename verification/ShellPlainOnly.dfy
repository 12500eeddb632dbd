/** daggerverse/flash: what the gdb server's line asks of its tokens, read backwards from the
    commands that come out. */
module ShellPlainOnly {
  import opened Text
  import opened ShellGrammar
  import opened ShellQuote
  import opened ShellPlain

  // ------------------------------------------------------------ quoting is lost

  const QUOTING: set<char> := {'\'', '"', '\\'}

  /** The quoting characters in a text. */
  function Tally(s: string): nat {
    if s == "" then 0 else (if s[0] in QUOTING then 1 else 0) + Tally(s[1..])
  }

  lemma {:induction false} TallyConcat(a: string, b: string)
    ensures Tally(a + b) == Tally(a) + Tally(b)
  {
    if a == "" {
      assert a + b == b;
    } else {
      assert (a + b)[1..] == a[1..] + b;
      TallyConcat(a[1..], b);
    }
  }

  lemma {:induction false} TallyNone(s: string)
    ensures Tally(s) == 0 <==> forall k :: 0 <= k < |s| ==> s[k] !in QUOTING
  {
    if s != "" {
      TallyNone(s[1..]);
      assert s == [s[0]] + s[1..];
    }
  }

  function TallyOpen(current: Option<Word>): nat {
    if current.None? then 0 else Tally(Chars(current.value))
  }

  lemma {:induction false} TallyAdd(current: Option<Word>, c: char, quoted: bool)
    ensures TallyOpen(Add(current, c, quoted)) == TallyOpen(current) + if c in QUOTING then 1 else 0
  {
    var w := Open(current).value;
    assert Chars(w + [QuotedChar(c, quoted)]) == Chars(w) + [c];
    TallyConcat(Chars(w), [c]);
    assert current.None? ==> Chars(w) == "";
  }

  function TallyToken(t: Token): nat {
    if t.WordToken? then Tally(Chars(t.word)) else 0
  }

  function TallyTokens(tokens: seq<Token>): nat {
    if tokens == [] then 0 else TallyToken(tokens[0]) + TallyTokens(tokens[1..])
  }

  lemma {:induction false} TallyTokensConcat(a: seq<Token>, b: seq<Token>)
    ensures TallyTokens(a + b) == TallyTokens(a) + TallyTokens(b)
  {
    if a == [] {
      assert a + b == b;
    } else {
      assert (a + b)[1..] == a[1..] + b;
      TallyTokensConcat(a[1..], b);
    }
  }

  /** No more quoting characters come out in words than go in; one fewer when one is met
      outside quotes. */
  function Limit(s: string, mode: Mode, current: Option<Word>): int {
    TallyOpen(current) + Tally(s) + (if mode.DoubleEscaped? then 1 else 0)
    - if (mode.Plain? || mode.Comment?) && Tally(s) > 0 then 1 else 0
  }

  lemma {:induction false} FlushTally(current: Option<Word>, c: char, op: string, tail: Option<seq<Token>>)
    requires tail.Some?
    ensures TallyTokens(Prepend(Flush(current) + [Operator(op)], tail).value) ==
        TallyOpen(current) + TallyTokens(tail.value)
    ensures TallyTokens(Prepend(FlushBefore(current, c) + [Operator(op)], tail).value)
         <= TallyOpen(current) + TallyTokens(tail.value)
    ensures TallyTokens(Prepend(Flush(current), tail).value) == TallyOpen(current) + TallyTokens(tail.value)
  {
    TallyTokensConcat(Flush(current), [Operator(op)]);
    TallyTokensConcat(FlushBefore(current, c), [Operator(op)]);
    TallyTokensConcat(Flush(current) + [Operator(op)], tail.value);
    TallyTokensConcat(FlushBefore(current, c) + [Operator(op)], tail.value);
    TallyTokensConcat(Flush(current), tail.value);
  }

  lemma {:induction false} OperatorTally(s: string)
    requires s != "" && OperatorStart(s[0])
    ensures Tally(s[OperatorLength(s)..]) == Tally(s)
  {
    var n := OperatorLength(s);
    TallyNone(s[..n]);
    assert n >= 2 ==> s[1] == s[..2][1];
    TallyConcat(s[..n], s[n..]);
    assert s == s[..n] + s[n..];
  }

  lemma {:induction false} LexTally(s: string, mode: Mode, current: Option<Word>)
    requires Lex(s, mode, current).Some?
    ensures TallyTokens(Lex(s, mode, current).value) <= Limit(s, mode, current)
    decreases |s|
  {
    if s == "" {
      assert TallyTokens(Flush(current)) == TallyOpen(current);
    } else if mode.Plain? {
      PlainTally(s, current);
    } else {
      var c, rest := s[0], s[1..];
      TallyAdd(current, c, true);
      TallyAdd(Add(current, '\\', true), c, true);
      TallyAdd(current, '\\', true);
      match mode
      case SingleQuoted =>
        if c == '\'' { LexTally(rest, Plain, current); } else { LexTally(rest, SingleQuoted, Add(current, c, true)); }
      case Escaped =>
        if c == '\n' { LexTally(rest, Plain, current); } else { LexTally(rest, Plain, Add(current, c, true)); }
      case DoubleQuoted =>
        if c == '"' { LexTally(rest, Plain, current); }
        else if c == '\\' { LexTally(rest, DoubleEscaped, current); }
        else { LexTally(rest, DoubleQuoted, Add(current, c, true)); }
      case DoubleEscaped =>
        if c == '\n' { LexTally(rest, DoubleQuoted, current); }
        else if c in {'$', '`', '"', '\\'} { LexTally(rest, DoubleQuoted, Add(current, c, true)); }
        else { LexTally(rest, DoubleQuoted, Add(Add(current, '\\', true), c, true)); }
      case Comment =>
        if c == '\n' {
          LexTally(rest, Plain, None);
          FlushTally(None, ' ', "\n", Lex(rest, Plain, None));
          assert Flush(None) + [Operator("\n")] == [Operator("\n")];
        } else {
          LexTally(rest, Comment, current);
        }
    }
  }

  lemma {:induction false} PlainTally(s: string, current: Option<Word>)
    requires s != "" && Lex(s, Plain, current).Some?
    ensures TallyTokens(Lex(s, Plain, current).value) <= Limit(s, Plain, current)
    decreases |s|, 0
  {
    var c, rest := s[0], s[1..];
    if c == '\'' {
      LexTally(rest, SingleQuoted, Open(current));
    } else if c == '"' {
      LexTally(rest, DoubleQuoted, Open(current));
    } else if c == '\\' {
      LexTally(rest, Escaped, current);
    } else if c == '\n' {
      LexTally(rest, Plain, None);
      FlushTally(current, c, "\n", Lex(rest, Plain, None));
    } else if Blank(c) {
      LexTally(rest, Plain, None);
      FlushTally(current, c, "", Lex(rest, Plain, None));
    } else if OperatorStart(c) {
      var n := OperatorLength(s);
      LexTally(s[n..], Plain, None);
      OperatorTally(s);
      FlushTally(current, c, s[..n], Lex(s[n..], Plain, None));
    } else if c == '#' && current.None? {
      LexTally(rest, Comment, None);
    } else {
      LexTally(rest, Plain, Add(current, c, false));
      TallyAdd(current, c, false);
    }
  }

  // ------------------------------------------------------------ without quoting

  /** A word as it comes out when nothing was quoted. */
  predicate BareOnly(w: Word) {
    && w != [] && w[0].c != '#'
    && forall k :: 0 <= k < |w| ==> !w[k].quoted && InWord(w[k].c)
  }

  predicate AllBareOnly(tokens: seq<Token>) {
    forall i :: 0 <= i < |tokens| && tokens[i].WordToken? ==> BareOnly(tokens[i].word)
  }

  lemma {:induction false} BareFlush(current: Option<Word>, c: char, op: string, tail: seq<Token>)
    requires current.Some? ==> BareOnly(current.value)
    requires AllBareOnly(tail)
    ensures AllBareOnly(Flush(current) + [Operator(op)] + tail)
    ensures AllBareOnly(FlushBefore(current, c) + [Operator(op)] + tail)
    ensures AllBareOnly(Flush(current) + tail)
  {
  }

  lemma {:induction false} TallyRest(s: string, n: nat)
    requires n <= |s| && Tally(s) == 0
    ensures Tally(s[n..]) == 0
  {
    assert s == s[..n] + s[n..];
    TallyConcat(s[..n], s[n..]);
  }

  /** Where no quoting character stands, words are made of what needs no quotes. */
  lemma {:induction false} LexBareOnly(s: string, mode: Mode, current: Option<Word>)
    requires Tally(s) == 0 && (mode.Plain? || (mode.Comment? && current.None?))
    requires current.Some? ==> BareOnly(current.value)
    requires Lex(s, mode, current).Some?
    ensures AllBareOnly(Lex(s, mode, current).value)
    decreases |s|
  {
    if s != "" {
      var c, rest := s[0], s[1..];
      TallyRest(s, 1);
      if mode.Comment? {
        LexBareOnly(rest, if c == '\n' then Plain else Comment, None);
        if c == '\n' {
          BareFlush(None, ' ', "\n", Lex(rest, Plain, None).value);
          assert Flush(None) + [Operator("\n")] == [Operator("\n")];
        }
      } else if c == '\n' || Blank(c) {
        LexBareOnly(rest, Plain, None);
        BareFlush(current, c, "\n", Lex(rest, Plain, None).value);
      } else if OperatorStart(c) {
        var n := OperatorLength(s);
        TallyRest(s, n);
        LexBareOnly(s[n..], Plain, None);
        BareFlush(current, c, s[..n], Lex(s[n..], Plain, None).value);
      } else if c == '#' && current.None? {
        LexBareOnly(rest, Comment, None);
      } else {
        assert InWord(c);
        LexBareOnly(rest, Plain, Add(current, c, false));
      }
    }
  }

  // ------------------------------------------------------------ parsing, read backwards

  function WordTokens(words: seq<Word>): (tokens: seq<Token>)
    ensures |tokens| == |words|
  {
    seq(|words|, i requires 0 <= i < |words| => WordToken(words[i]))
  }

  function CharsAll(words: seq<Word>): (texts: seq<string>)
    ensures |texts| == |words|
  {
    seq(|words|, i requires 0 <= i < |words| => Chars(words[i]))
  }

  predicate AllLiteral(words: seq<Word>) {
    forall i :: 0 <= i < |words| ==> Literal(words[i])
  }

  lemma {:induction false} WordInFront(w: Word, others: seq<Word>, argv: seq<string>, rest: seq<Token>)
    ensures WordTokens([w] + others) + rest == [WordToken(w)] + (WordTokens(others) + rest)
    ensures argv + CharsAll([w] + others) == (argv + [Chars(w)]) + CharsAll(others)
  {
    assert WordTokens([w] + others) == [WordToken(w)] + WordTokens(others);
    assert CharsAll([w] + others) == [Chars(w)] + CharsAll(others);
  }

  /** A command without redirections was read from its own words and nothing else. */
  lemma {:induction false} CommandWords(tokens: seq<Token>, sofar: Command) returns (words: seq<Word>, rest: seq<Token>)
    requires ParseCommand(tokens, sofar).Some? && ParseCommand(tokens, sofar).value.0.redirects == []
    ensures rest == ParseCommand(tokens, sofar).value.1 && tokens == WordTokens(words) + rest
    ensures ParseCommand(tokens, sofar).value.0 == Command(sofar.argv + CharsAll(words), [])
    ensures sofar.redirects == [] && AllLiteral(words)
    ensures sofar.argv == [] && words != [] ==> NamesCommand(words[0])
    decreases |tokens|
  {
    hide Literal, NamesCommand, Chars, RedirectOperator;
    if tokens == [] || (tokens[0].Operator? && !RedirectOperator(tokens[0].op)) {
      words, rest := [], tokens;
      assert WordTokens([]) + tokens == tokens;
      assert sofar.argv + CharsAll([]) == sofar.argv;
    } else if tokens[0].WordToken? {
      var w := tokens[0].word;
      var others;
      others, rest := CommandWords(tokens[1..], sofar.(argv := sofar.argv + [Chars(w)]));
      words := [w] + others;
      WordInFront(w, others, sofar.argv, rest);
      assert tokens == [tokens[0]] + tokens[1..];
    } else {
      RedirectsStay(tokens, sofar);
    }
  }

  /** Redirections are only ever added. */
  lemma {:induction false} RedirectsGrow(tokens: seq<Token>, sofar: Command)
    requires ParseCommand(tokens, sofar).Some?
    ensures |ParseCommand(tokens, sofar).value.0.redirects| >= |sofar.redirects|
    decreases |tokens|
  {
    if tokens != [] {
      match tokens[0]
      case WordToken(w) => RedirectsGrow(tokens[1..], sofar.(argv := sofar.argv + [Chars(w)]));
      case IoNumber(digits) =>
        var redirect := Redirect(digits, tokens[1].op, Chars(tokens[2].word));
        RedirectsGrow(tokens[3..], sofar.(redirects := sofar.redirects + [redirect]));
      case Operator(op) =>
        if RedirectOperator(op) {
          var redirect := Redirect(if op[0] == '<' then "0" else "1", op, Chars(tokens[1].word));
          RedirectsGrow(tokens[2..], sofar.(redirects := sofar.redirects + [redirect]));
        }
    }
  }

  lemma {:induction false} RedirectsStay(tokens: seq<Token>, sofar: Command)
    requires ParseCommand(tokens, sofar).Some? && tokens != []
    requires tokens[0].IoNumber? || (tokens[0].Operator? && RedirectOperator(tokens[0].op))
    ensures ParseCommand(tokens, sofar).value.0.redirects != []
  {
    match tokens[0]
    case IoNumber(digits) =>
      var redirect := Redirect(digits, tokens[1].op, Chars(tokens[2].word));
      RedirectsGrow(tokens[3..], sofar.(redirects := sofar.redirects + [redirect]));
    case Operator(op) =>
      var redirect := Redirect(if op[0] == '<' then "0" else "1", op, Chars(tokens[1].word));
      RedirectsGrow(tokens[2..], sofar.(redirects := sofar.redirects + [redirect]));
  }

  /** An AND-OR list that was begun keeps what it has and gets more. */
  lemma {:induction false} ListGrows(tokens: seq<Token>, list: AndOr, op: string)
    requires ParseJobs(tokens, Some((list, op))).Some?
    ensures var jobs := ParseJobs(tokens, Some((list, op))).value;
      jobs != [] && |jobs[0].list.rest| > |list.rest|
    decreases |tokens|
  {
    var (c, rest) := ParseCommand(tokens, NO_COMMAND).value;
    var longer := AndOr(list.first, list.rest + [(op, c)]);
    if rest != [] && rest[0].op in {"&&", "||"} {
      ListGrows(rest[1..], longer, rest[0].op);
    }
  }

  /** The first command of a list of simple commands, and where the others are read. */
  lemma {:induction false} FirstJob(tokens: seq<Token>, c: Command, more: seq<Job>)
      returns (words: seq<Word>, rest: seq<Token>)
    requires c.redirects == [] && c.argv != []
    requires ParseJobs(tokens, None) == Some([Job(AndOr(c, []), false)] + more)
    ensures tokens == WordTokens(words) + rest && CharsAll(words) == c.argv && AllLiteral(words)
    ensures words != [] && NamesCommand(words[0])
    ensures more != [] ==> |rest| > 1 && rest[0].Operator? && ParseJobs(rest[1..], None) == Some(more)
    ensures more == [] ==> |rest| <= 1 && (rest != [] ==> rest[0].Operator?)
  {
    var (d, r) := ParseCommand(tokens, NO_COMMAND).value;
    var jobs := ParseJobs(tokens, None).value;
    if r != [] && r[0].op in {"&&", "||"} {
      ListGrows(r[1..], AndOr(d, []), r[0].op);
    }
    assert jobs[0] == Job(AndOr(c, []), false) && jobs[1..] == more;
    assert d == c;
    words, rest := CommandWords(tokens, NO_COMMAND);
    assert [] + CharsAll(words) == CharsAll(words);
    if |r| > 1 {
      var tail := ParseJobs(r[1..], None);
      assert jobs == [jobs[0]] + tail.value;
      JobsNotEmpty(r[1..], None);
    }
  }

  lemma {:induction false} JobsNotEmpty(tokens: seq<Token>, sofar: Option<(AndOr, string)>)
    requires ParseJobs(tokens, sofar).Some?
    ensures ParseJobs(tokens, sofar).value != []
    decreases |tokens|
  {
    var (c, rest) := ParseCommand(tokens, NO_COMMAND).value;
    if rest != [] && rest[0].op in {"&&", "||"} {
      var list := if sofar.None? then AndOr(c, [])
                  else AndOr(sofar.value.0.first, sofar.value.0.rest + [(sofar.value.1, c)]);
      JobsNotEmpty(rest[1..], Some((list, rest[0].op)));
    }
  }

  /** The two commands come from their words, an operator, and perhaps one more at the end. */
  lemma {:induction false} LineWords(tokens: seq<Token>, attach: seq<string>, server: seq<string>)
      returns (a: seq<Word>, mid: Token, b: seq<Word>, end: seq<Token>)
    requires attach != [] && server != []
    requires ParseJobs(tokens, None)
          == Some([Foreground(attach), Foreground(server)])
    ensures tokens == WordTokens(a) + [mid] + WordTokens(b) + end && mid.Operator?
    ensures |end| <= 1 && (end != [] ==> end[0].Operator?)
    ensures CharsAll(a) == attach && CharsAll(b) == server && AllLiteral(a) && AllLiteral(b)
    ensures NamesCommand(a[0])
  {
    var first, second := Foreground(attach), Foreground(server);
    assert [first, second] == [first] + [second] && [second] == [second] + [];
    var rest;
    a, rest := FirstJob(tokens, Command(attach, []), [second]);
    mid := rest[0];
    b, end := FirstJob(rest[1..], Command(server, []), []);
    assert rest == [mid] + rest[1..];
  }

  // ------------------------------------------------------------ the condition

  lemma {:induction false} JoinTally(words: seq<Word>)
    ensures Tally(Join(CharsAll(words), " ")) == TallyTokens(WordTokens(words))
  {
    if words != [] {
      var texts := CharsAll(words);
      assert texts[1..] == CharsAll(words[1..]);
      assert WordTokens(words)[1..] == WordTokens(words[1..]);
      JoinTally(words[1..]);
      if |words| > 1 {
        TallyConcat(texts[0] + " ", Join(texts[1..], " "));
        TallyConcat(texts[0], " ");
      }
    }
  }

  lemma {:induction false} TallyLine(a: seq<Word>, mid: Token, b: seq<Word>, end: seq<Token>)
    requires mid.Operator? && |end| <= 1 && (end != [] ==> end[0].Operator?)
    ensures TallyTokens(WordTokens(a) + [mid] + WordTokens(b) + end)
         == Tally(Join(CharsAll(a), " ") + ("; " + Join(CharsAll(b), " ")))
  {
    var x, y := Join(CharsAll(a), " "), Join(CharsAll(b), " ");
    JoinTally(a);
    JoinTally(b);
    TallyConcat(x, "; " + y);
    TallyConcat("; ", y);
    TallyNone("; ");
    TallyTokensConcat(WordTokens(a) + [mid] + WordTokens(b), end);
    TallyTokensConcat(WordTokens(a) + [mid], WordTokens(b));
    TallyTokensConcat(WordTokens(a), [mid]);
  }

  lemma {:induction false} WordIsPlain(w: Word)
    requires BareOnly(w) && Literal(w)
    ensures PlainToken(Chars(w)) && w == BareWord(Chars(w))
  {
    var t := Chars(w);
    assert forall k :: 0 <= k < |w| ==> t[k] == w[k].c && !w[k].quoted;
    assert w == BareWord(t);
    BareLiteral(t);
  }

  /** Words out of a line where nothing is quoted spell plain tokens. */
  lemma {:induction false} WordsArePlain(words: seq<Word>)
    requires AllLiteral(words) && forall i :: 0 <= i < |words| ==> BareOnly(words[i])
    ensures AllPlain(CharsAll(words))
    ensures words != [] ==> words[0] == BareWord(CharsAll(words)[0])
  {
    forall i | 0 <= i < |words| ensures PlainToken(CharsAll(words)[i]) && words[i] == BareWord(CharsAll(words)[i]) {
      WordIsPlain(words[i]);
    }
  }

  lemma {:induction false} LineWordsBare(a: seq<Word>, mid: Token, b: seq<Word>, end: seq<Token>)
    requires AllBareOnly(WordTokens(a) + [mid] + WordTokens(b) + end)
    ensures forall i :: 0 <= i < |a| ==> BareOnly(a[i])
    ensures forall i :: 0 <= i < |b| ==> BareOnly(b[i])
  {
    var all := WordTokens(a) + [mid] + WordTokens(b) + end;
    forall i | 0 <= i < |a| ensures BareOnly(a[i]) {
      assert all[i] == WordToken(a[i]);
    }
    forall i | 0 <= i < |b| ensures BareOnly(b[i]) {
      assert all[|a| + 1 + i] == WordToken(b[i]);
    }
  }

  /** If the line means the two commands, every token was plain. */
  lemma {:induction false} OnlyPlain(attach: seq<string>, server: seq<string>)
    requires attach != [] && server != []
    requires Parse(Join(attach, " ") + ("; " + Join(server, " ")))
          == Some([Foreground(attach), Foreground(server)])
    ensures AllPlain(attach) && AllPlain(server) && NamesCommand(BareWord(attach[0]))
  {
    var line := Join(attach, " ") + ("; " + Join(server, " "));
    var tokens := Tokens(line).value;
    var a, mid, b, end := LineWords(tokens, attach, server);
    LexTally(line, Plain, None);
    TallyLine(a, mid, b, end);
    LexBareOnly(line, Plain, None);
    LineWordsBare(a, mid, b, end);
    WordsArePlain(a);
    WordsArePlain(b);
  }

  /** The unquoted line means the attach and then the server exactly when every token is plain
      and the attach names a command. */
  lemma {:induction false} PlainLineExactly(attach: seq<string>, gdb: seq<string>)
    requires attach != [] && gdb != []
    ensures Parse(AttachThenExec(attach, gdb)) == Some(Meant(attach, gdb))
       <==> AllPlain(attach) && AllPlain(gdb) && NamesCommand(BareWord(attach[0]))
  {
    if Parse(AttachThenExec(attach, gdb)) == Some(Meant(attach, gdb)) {
      ExecLine(attach, gdb);
      OnlyPlain(attach, ["exec"] + gdb);
      ExecIsPlain(gdb);
    } else if AllPlain(attach) && AllPlain(gdb) && NamesCommand(BareWord(attach[0])) {
      PlainLineParses(attach, gdb);
    }
  }

  // ------------------------------------------------------------ the usbip transport

  /** What `ProbeRs` attaches with. */
  function UsbipAttach(host: string, port: string, busid: string): seq<string> {
    ["usbip", "--tcp-port", port, "attach", "-r", host, "-b", busid]
  }

  lemma {:induction false} PlainText(t: string)
    requires t != "" && forall k :: 0 <= k < |t| ==>
      'a' <= t[k] <= 'z' || '0' <= t[k] <= '9' || t[k] in {'-', '.', ':'}
    ensures PlainToken(t)
  {
  }

  lemma {:induction false} AttachPlain(host: string, port: string, busid: string)
    ensures AllPlain(UsbipAttach(host, port, busid)) <==> PlainToken(host) && PlainToken(port) && PlainToken(busid)
    ensures NamesCommand(BareWord(UsbipAttach(host, port, busid)[0]))
  {
    var attach := UsbipAttach(host, port, busid);
    PlainText("usbip");
    PlainText("--tcp-port");
    PlainText("attach");
    PlainText("-r");
    PlainText("-b");
    assert attach[2] == port && attach[5] == host && attach[7] == busid;
    NotReserved("usbip");
  }

  lemma {:induction false} AddressPlain(port: int)
    ensures PlainToken("0.0.0.0:" + Itoa(port))
  {
    var text := Itoa(port);
    assert forall k :: 0 <= k < |text| ==> '0' <= text[k] <= '9' || text[k] == '-';
    PlainText("0.0.0.0:" + text);
  }

  lemma {:induction false} AllPlainConcat(a: seq<string>, b: seq<string>)
    ensures AllPlain(a + b) <==> AllPlain(a) && AllPlain(b)
  {
    assert forall i :: 0 <= i < |a| ==> (a + b)[i] == a[i];
    assert forall i :: 0 <= i < |b| ==> (a + b)[|a| + i] == b[i];
  }

  lemma {:induction false} EndsPlain(port: int)
    ensures AllPlain(["probe-rs", "gdb"]) && AllPlain(["--gdb-connection-string", "0.0.0.0:" + Itoa(port)])
  {
    hide PlainToken;
    PlainText("probe-rs");
    PlainText("gdb");
    PlainText("--gdb-connection-string");
    AddressPlain(port);
  }

  lemma {:induction false} GdbPlain(fl: Flasher, port: int)
    ensures AllPlain(GdbArgv(fl, port)) <==> AllPlain(fl.probeArgs)
  {
    hide PlainToken, AllPlain;
    var server, address := ["probe-rs", "gdb"], ["--gdb-connection-string", "0.0.0.0:" + Itoa(port)];
    EndsPlain(port);
    AllPlainConcat(server, fl.probeArgs);
    AllPlainConcat(server + fl.probeArgs, address);
  }

  lemma {:induction false} AttachedLine(fl: Flasher, port: int, host: string, tcpPort: string, busid: string)
    requires fl.attach == UsbipAttach(host, tcpPort, busid)
    ensures Parse(AttachThenExec(fl.attach, GdbArgv(fl, port))) == Some(Meant(fl.attach, GdbArgv(fl, port)))
       <==> PlainToken(host) && PlainToken(tcpPort) && PlainToken(busid) && AllPlain(fl.probeArgs)
  {
    PlainLineExactly(fl.attach, GdbArgv(fl, port));
    AttachPlain(host, tcpPort, busid);
    GdbPlain(fl, port);
  }

  /** Over USB/IP the service runs the attach and then the server in the shell's place, each with
      its exact argv, exactly when host, port, bus id and probe options are plain. */
  lemma {:induction false} GdbServerLine(
      fl: Flasher, port: int, text: string, host: string, tcpPort: string, busid: string)
    requires fl.attach == ["usbip", "--tcp-port", tcpPort, "attach", "-r", host, "-b", busid] && PortText(text, port)
    ensures
      var gdb := ["probe-rs", "gdb"] + fl.probeArgs + ["--gdb-connection-string", "0.0.0.0:" + text];
      var attach := Job(AndOr(Command(fl.attach, []), []), false);
      var serve := Job(AndOr(Command(["exec"] + gdb, []), []), false);
      var line := Join(fl.attach, " ") + "; exec " + Join(gdb, " ");
      Parse(line) == Some([attach, serve]) <==>
        && PlainToken(host) && PlainToken(tcpPort) && PlainToken(busid)
        && forall i :: 0 <= i < |fl.probeArgs| ==> PlainToken(fl.probeArgs[i])
  {
    hide Parse, PlainToken, Join, PortText;
    ItoaExactly(text, port);
    AttachedLine(fl, port, host, tcpPort, busid);
  }

  // ------------------------------------------------------------ where it means something else

  lemma {:induction false} JoinExtends(front: seq<string>, x: string, y: string)
    ensures Join(front + [x + y], " ") == Join(front + [x], " ") + y
  {
    if front == [] {
      assert front + [x + y] == [x + y] && front + [x] == [x];
    } else {
      assert (front + [x + y])[1..] == front[1..] + [x + y] && (front + [x])[1..] == front[1..] + [x];
      JoinExtends(front[1..], x, y);
      var tail := Join(front[1..] + [x], " ");
      assert front[0] + " " + (tail + y) == (front[0] + " " + tail) + y;
    }
  }

  lemma {:induction false} LexTightSemicolon(w: Word, tail: string)
    requires tail != "" && tail[0] != ';'
    ensures Lex(";" + tail, Plain, Some(w)) == Prepend([WordToken(w), Operator(";")], Tokens(tail))
  {
    var s := ";" + tail;
    assert s[..1] == ";" && s[1..] == tail && s[1] == tail[0];
    assert OperatorLength(s) == 1 by {
      assert s[..2][0] == ';' && s[..2][1] == tail[0];
    }
    assert FlushBefore(Some(w), ';') + [Operator(";")] == [WordToken(w), Operator(";")];
  }

  /** A command, a semicolon, and the jobs of what follows. */
  lemma {:induction false} JobInFront(argv: seq<string>, rest: seq<Token>, jobs: seq<Job>)
    requires argv != [] && AllPlain(argv) && NamesCommand(BareWord(argv[0]))
    requires rest != [] && ParseJobs(rest, None) == Some(jobs)
    ensures ParseJobs(BareTokens(argv) + ([Operator(";")] + rest), None)
         == Some([Foreground(argv)] + jobs)
  {
    var tail := [Operator(";")] + rest;
    AllPlainLiteral(argv);
    ParseBare(argv, tail, NO_COMMAND);
    assert [] + argv == argv && tail[1..] == rest && tail[0] == Operator(";");
    assert ParseCommand(tail, Command(argv, [])) == Some((Command(argv, []), tail));
  }

  /** A semicolon right behind the last word of a plain command, and a line behind it. */
  lemma {:induction false} TokensTight(argv: seq<string>, tail: string)
    requires argv != [] && AllPlain(argv) && tail != "" && tail[0] != ';'
    ensures Tokens(Join(argv, " ") + (";" + tail))
         == Prepend(BareTokens(argv) + [Operator(";")], Tokens(tail))
  {
    var last, before := BareWord(argv[|argv| - 1]), BareTokens(argv[..|argv| - 1]);
    LexPlain(argv, ";" + tail);
    LexTightSemicolon(last, tail);
    BareSnoc(argv);
    var r := Tokens(tail);
    assert before + [WordToken(last), Operator(";")] == BareTokens(argv) + [Operator(";")];
    assert r.Some? ==>
      before + ([WordToken(last), Operator(";")] + r.value) == (BareTokens(argv) + [Operator(";")]) + r.value;
  }

  const HOST := "10.0.0.1"
  const PORT := "3240"

  lemma {:induction false} JoinTwo()
    ensures Join(["2"], " ") == "2"
  {
  }

  lemma {:induction false} SplitTexts(x: string, server: string)
    ensures (x + ";2") + server == x + (";" + ("2" + server))
  {
    assert ";2" == ";" + "2";
  }

  lemma {:induction false} SplitAttach()
    ensures Join(UsbipAttach(HOST, PORT, "1-1;2"), " ") == Join(UsbipAttach(HOST, PORT, "1-1"), " ") + ";2"
  {
    hide Join;
    var front := UsbipAttach(HOST, PORT, "1-1")[..7];
    assert "1-1" + ";2" == "1-1;2";
    assert UsbipAttach(HOST, PORT, "1-1;2") == front + ["1-1" + ";2"];
    assert UsbipAttach(HOST, PORT, "1-1") == front + ["1-1"];
    JoinExtends(front, "1-1", ";2");
  }

  lemma {:induction false} SplitLine(gdb: seq<string>)
    requires gdb != []
    ensures AttachThenExec(UsbipAttach(HOST, PORT, "1-1;2"), gdb)
         == Join(UsbipAttach(HOST, PORT, "1-1"), " ") + (";" + (Join(["2"], " ") + ("; " + Join(["exec"] + gdb, " "))))
  {
    hide Join, UsbipAttach, AttachThenExec;
    ExecLine(UsbipAttach(HOST, PORT, "1-1;2"), gdb);
    SplitAttach();
    JoinTwo();
    SplitTexts(Join(UsbipAttach(HOST, PORT, "1-1"), " "), "; " + Join(["exec"] + gdb, " "));
  }

  lemma {:induction false} TwoIsCommand()
    ensures NamesCommand(BareWord("2"))
  {
    assert Chars(BareWord("2")) == "2" && |"2"| == 1;
    assert "2"[0] != "!"[0] && "2"[0] != "{"[0] && "2"[0] != "}"[0];
  }

  lemma {:induction false} LastJob(argv: seq<string>)
    requires argv != [] && AllPlain(argv) && NamesCommand(BareWord(argv[0]))
    ensures ParseJobs(BareTokens(argv), None) == Some([Foreground(argv)])
  {
    AllPlainLiteral(argv);
    ParseBare(argv, [], NO_COMMAND);
    assert BareTokens(argv) + [] == BareTokens(argv) && [] + argv == argv;
  }

  lemma {:induction false} ThreeJobs(a: seq<string>, b: seq<string>, c: seq<string>)
    requires a != [] && AllPlain(a) && NamesCommand(BareWord(a[0]))
    requires b != [] && AllPlain(b) && NamesCommand(BareWord(b[0]))
    requires c != [] && AllPlain(c) && NamesCommand(BareWord(c[0]))
    ensures ParseJobs(BareTokens(a) + ([Operator(";")] + (BareTokens(b) + ([Operator(";")] + BareTokens(c)))), None)
         == Some([Foreground(a), Foreground(b), Foreground(c)])
  {
    hide ParseJobs, Foreground, BareTokens, AllPlain, NamesCommand;
    LastJob(c);
    JobInFront(b, BareTokens(c), [Foreground(c)]);
    JobInFront(a, BareTokens(b) + ([Operator(";")] + BareTokens(c)), [Foreground(b)] + [Foreground(c)]);
    assert [Foreground(a)] + ([Foreground(b)] + [Foreground(c)]) == [Foreground(a), Foreground(b), Foreground(c)];
  }

  lemma {:induction false} SplitTokens(attach: seq<string>, server: seq<string>)
    requires attach != [] && server != [] && AllPlain(attach) && AllPlain(server)
    ensures Tokens(Join(attach, " ") + (";" + (Join(["2"], " ") + ("; " + Join(server, " ")))))
         == Some(BareTokens(attach) + ([Operator(";")] + (BareTokens(["2"]) + ([Operator(";")] + BareTokens(server)))))
  {
    var tail := Join(["2"], " ") + ("; " + Join(server, " "));
    var rest := BareTokens(["2"]) + ([Operator(";")] + BareTokens(server));
    PlainText("2");
    TokensOfLine(["2"], server);
    assert Join(["2"], " ") == "2" && tail[0] == '2';
    TokensTight(attach, tail);
    assert (BareTokens(attach) + [Operator(";")]) + rest == BareTokens(attach) + ([Operator(";")] + rest);
  }

  lemma {:induction false} SplitPlain()
    ensures AllPlain(UsbipAttach(HOST, PORT, "1-1")) && AllPlain(["2"])
    ensures NamesCommand(BareWord(UsbipAttach(HOST, PORT, "1-1")[0]))
  {
    hide PlainToken, NamesCommand;
    PlainText(HOST);
    PlainText(PORT);
    PlainText("1-1");
    PlainText("2");
    AttachPlain(HOST, PORT, "1-1");
  }

  /** A bus id with a semicolon is not handed on as it is: the line means three commands, and
      the second is what stands behind the semicolon. */
  lemma {:induction false} SemicolonSplits(fl: Flasher, port: int)
    requires fl.attach == UsbipAttach(HOST, PORT, "1-1;2") && AllPlain(fl.probeArgs)
    ensures Parse(AttachThenExec(fl.attach, GdbArgv(fl, port)))
         == Some([Foreground(UsbipAttach(HOST, PORT, "1-1")), Foreground(["2"]),
                  Foreground(["exec"] + GdbArgv(fl, port))])
  {
    hide PlainToken, AllPlain, AttachThenExec, Tokens, ParseJobs, Join, BareTokens, BareWord, NamesCommand, Foreground;
    var attach, server := UsbipAttach(HOST, PORT, "1-1"), ["exec"] + GdbArgv(fl, port);
    GdbPlain(fl, port);
    ExecIsPlain(GdbArgv(fl, port));
    SplitPlain();
    TwoIsCommand();
    SplitLine(GdbArgv(fl, port));
    SplitTokens(attach, server);
    ThreeJobs(attach, ["2"], server);
  }

  /** And so it is not what was meant, whatever the probe options. */
  lemma {:induction false} SemicolonNotMeant(fl: Flasher, port: int)
    requires fl.attach == UsbipAttach(HOST, PORT, "1-1;2")
    ensures Parse(AttachThenExec(fl.attach, GdbArgv(fl, port))) != Some(Meant(fl.attach, GdbArgv(fl, port)))
  {
    assert "1-1;2"[3] == ';';
    AttachedLine(fl, port, HOST, PORT, "1-1;2");
  }

  lemma {:induction false} TildeIsPlain()
    ensures PlainToken("a~b")
  {
    assert forall k :: 0 <= k < |"a~b"| ==> "a~b"[k] in {'a', '~', 'b'};
  }

  lemma {:induction false} BracketIsPlain()
    ensures PlainToken("1-1[2")
  {
    assert forall k :: 0 <= k < |"1-1[2"| ==> "1-1[2"[k] in {'1', '-', '[', '2'};
  }

  /** A tilde inside a host and a bracket that nothing closes in a bus id are handed on. */
  lemma {:induction false} TildeAndBracketKept(fl: Flasher, port: int)
    requires fl.attach == UsbipAttach("a~b", PORT, "1-1[2") && AllPlain(fl.probeArgs)
    ensures Parse(AttachThenExec(fl.attach, GdbArgv(fl, port))) == Some(Meant(fl.attach, GdbArgv(fl, port)))
  {
    hide PlainToken, AllPlain, Parse;
    TildeIsPlain();
    BracketIsPlain();
    PlainText(PORT);
    AttachedLine(fl, port, "a~b", PORT, "1-1[2");
  }
}
