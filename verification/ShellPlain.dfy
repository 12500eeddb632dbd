/** daggerverse/flash: the one command line that is joined without quoting, the gdb server's. */
module ShellPlain {
  import opened Text
  import opened ShellGrammar
  import opened ShellQuote

  // ------------------------------------------------------------ GdbServer

  /** `%d`. */
  function Itoa(n: int): string {
    if n < 0 then "-" + Decimal(-n) else Decimal(n)
  }

  function GdbArgv(fl: Flasher, port: int): seq<string> {
    ["probe-rs", "gdb"] + fl.probeArgs + ["--gdb-connection-string", "0.0.0.0:" + Itoa(port)]
  }

  /** A port as it is written out, with a sign in front of a negative one. */
  predicate PortText(text: string, port: int) {
    if port < 0 then text != "" && text[0] == '-' && Numeral(text[1..], -port) else Numeral(text, port)
  }

  lemma {:induction false} ItoaExactly(text: string, port: int)
    ensures PortText(text, port) <==> text == Itoa(port)
  {
    if port >= 0 {
      DecimalExactly(text, port);
    } else if text != "" {
      DecimalExactly(text[1..], -port);
      assert text == [text[0]] + text[1..];
    }
  }

  /** The text handed to `sh -c` when something is to be attached first. */
  function AttachThenExec(attach: seq<string>, gdb: seq<string>): string {
    Join(attach, " ") + "; exec " + Join(gdb, " ")
  }

  /** `GdbServer`: the service's arguments. */
  method GdbServerArgs(fl: Flasher, port: int) returns (args: seq<string>)
    ensures forall text :: PortText(text, port) ==>
      var gdb := ["probe-rs", "gdb"] + fl.probeArgs + ["--gdb-connection-string", "0.0.0.0:" + text];
      args == if fl.attach == [] then gdb
              else ["sh", "-c", Join(fl.attach, " ") + "; exec " + Join(gdb, " ")]
    ensures PortText(Itoa(port), port)
  {
    var gdb := ["probe-rs", "gdb"] + fl.probeArgs;
    gdb := gdb + ["--gdb-connection-string", "0.0.0.0:" + Itoa(port)];
    if |fl.attach| > 0 {
      args := ["sh", "-c", Join(fl.attach, " ") + "; exec " + Join(gdb, " ")];
    } else {
      args := gdb;
    }
    forall text ensures PortText(text, port) <==> text == Itoa(port) {
      ItoaExactly(text, port);
    }
  }

  // ------------------------------------------------------------ plain tokens

  /** A bracket pattern: `[` and a later `]`, with something but no slash in between. */
  predicate Bracketed(t: string) {
    exists i, j ::
      && 0 <= i && i + 1 < j < |t| && t[i] == '[' && t[j] == ']'
      && (t[i + 1] == '!' ==> i + 2 < j) && '/' !in t[i..j]
  }

  /** A token that needs no quotes: a word of ordinary characters that opens no comment and no
      tilde prefix and holds no pattern. */
  predicate PlainToken(t: string) {
    && t != "" && t[0] !in {'#', '~'}
    && (forall k :: 0 <= k < |t| ==> InWord(t[k]) && t[k] !in {'*', '?'})
    && !Bracketed(t)
  }

  lemma {:induction false} BareBracket(t: string, i: int, j: int)
    requires 0 <= i && i + 1 < j < |t|
    ensures BracketAt(BareWord(t), i, j)
       <==> t[i] == '[' && t[j] == ']' && (t[i + 1] == '!' ==> i + 2 < j) && '/' !in t[i..j]
  {
    var w, inner := BareWord(t), t[i..j];
    if t[i] == '[' && '/' in inner {
      var k :| 0 <= k < |inner| && inner[k] == '/';
      assert i < i + k < j && w[i + k].c == '/';
    }
    if k :| i < k < j && w[k].c == '/' {
      assert inner[k - i] == '/';
    }
  }

  /** An unquoted token stays as it is exactly when it is no pattern and has no tilde in front. */
  lemma {:induction false} BareLiteral(t: string)
    ensures Literal(BareWord(t))
       <==> && (t != "" ==> t[0] != '~')
            && (forall k :: 0 <= k < |t| ==> t[k] !in {'*', '?'})
            && !Bracketed(t)
  {
    var w := BareWord(t);
    assert TildePrefix(w) <==> t != "" && t[0] == '~';
    assert (forall k :: 0 <= k < |w| ==> w[k].quoted || w[k].c !in {'*', '?'})
        <==> forall k :: 0 <= k < |t| ==> t[k] !in {'*', '?'} by {
      assert forall k :: 0 <= k < |t| ==> w[k].c == t[k] && !w[k].quoted;
    }
    if Bracketed(t) {
      var i, j :| 0 <= i && i + 1 < j < |t| && t[i] == '[' && t[j] == ']'
        && (t[i + 1] == '!' ==> i + 2 < j) && '/' !in t[i..j];
      BareBracket(t, i, j);
    }
    if i, j :| 0 <= i < j < |w| && BracketAt(w, i, j) {
      BareBracket(t, i, j);
    }
  }

  lemma {:induction false} AllPlainLiteral(tokens: seq<string>)
    requires AllPlain(tokens)
    ensures forall i :: 0 <= i < |tokens| ==> Literal(BareWord(tokens[i]))
  {
    forall i | 0 <= i < |tokens| ensures Literal(BareWord(tokens[i])) {
      assert PlainToken(tokens[i]);
      BareLiteral(tokens[i]);
    }
  }

  predicate AllPlain(tokens: seq<string>) {
    forall i :: 0 <= i < |tokens| ==> PlainToken(tokens[i])
  }

  /** One command on its own, waited for. */
  function Foreground(argv: seq<string>): Job {
    Job(AndOr(Command(argv, []), []), false)
  }

  /** The two commands meant: the attach, and then the server in the shell's place. */
  function Meant(attach: seq<string>, gdb: seq<string>): seq<Job> {
    [Foreground(attach), Foreground(["exec"] + gdb)]
  }

  // ------------------------------------------------------------ reading plain tokens

  /** Plain tokens joined by blanks, up to the end of the last. */
  lemma {:induction false} LexPlain(words: seq<string>, rest: string)
    requires words != [] && AllPlain(words)
    ensures Lex(Join(words, " ") + rest, Plain, None)
         == Prepend(BareTokens(words[..|words| - 1]), Lex(rest, Plain, Some(BareWord(words[|words| - 1]))))
  {
    hide PlainToken;
    var w := words[0];
    if |words| == 1 {
      LexWordThen(w, rest);
      assert BareTokens(words[..0]) == [];
      var r := Lex(rest, Plain, Some(BareWord(w)));
      assert r.Some? ==> [] + r.value == r.value;
    } else {
      var tail := Join(words[1..], " ") + rest;
      assert Join(words, " ") + rest == w + (" " + tail);
      LexWordThen(w, " " + tail);
      assert (" " + tail)[1..] == tail;
      LexPlain(words[1..], rest);
      var r := Lex(rest, Plain, Some(BareWord(words[|words| - 1])));
      var head, others := [WordToken(BareWord(w))], BareTokens(words[1..][..|words| - 2]);
      assert words[1..][..|words| - 2] == words[..|words| - 1][1..];
      assert BareTokens(words[..|words| - 1]) == head + others;
      assert r.Some? ==> head + (others + r.value) == (head + others) + r.value;
    }
  }

  lemma {:induction false} LexWordThen(w: string, rest: string)
    requires PlainToken(w)
    ensures Lex(w + rest, Plain, None) == Lex(rest, Plain, Some(BareWord(w)))
  {
    var first := [QuotedChar(w[0], false)];
    assert (w + rest)[1..] == w[1..] + rest;
    assert [] + first == first;
    assert Ordinary(w[0]);
    LexBare(w[1..], rest, first);
    assert first + BareWord(w[1..]) == BareWord(w);
  }

  lemma {:induction false} LexSemicolon(w: Word, tail: string)
    ensures Lex("; " + tail, Plain, Some(w)) == Prepend([WordToken(w), Operator(";")], Tokens(tail))
  {
    var s := "; " + tail;
    assert s[1] == ' ' && s[..1] == ";" && s[1..] == " " + tail && s[1..][1..] == tail;
    assert OperatorLength(s) == 1 by {
      assert s[..2][1] == ' ';
      assert forall op :: op in {"&&", "||", ";;", "<<", ">>", "<&", ">&", "<>", ">|"} ==> op[1] != ' ';
    }
    assert FlushBefore(Some(w), ';') + [Operator(";")] == [WordToken(w), Operator(";")];
    var r := Tokens(tail);
    assert Lex(" " + tail, Plain, None) == Prepend([], r);
    assert r.Some? ==> [] + r.value == r.value;
  }

  lemma {:induction false} BareSnoc(words: seq<string>)
    requires words != []
    ensures BareTokens(words) == BareTokens(words[..|words| - 1]) + [WordToken(BareWord(words[|words| - 1]))]
  {
  }

  lemma {:induction false} TokensOfPlain(words: seq<string>)
    requires words != [] && AllPlain(words)
    ensures Tokens(Join(words, " ")) == Some(BareTokens(words))
  {
    LexPlain(words, "");
    assert Join(words, " ") + "" == Join(words, " ");
    BareSnoc(words);
  }

  /** Both halves of the line, when every token is plain. */
  lemma {:induction false} TokensOfLine(attach: seq<string>, server: seq<string>)
    requires attach != [] && server != [] && AllPlain(attach) && AllPlain(server)
    ensures Tokens(Join(attach, " ") + ("; " + Join(server, " ")))
         == Some(BareTokens(attach) + ([Operator(";")] + BareTokens(server)))
  {
    var last := BareWord(attach[|attach| - 1]);
    LexPlain(attach, "; " + Join(server, " "));
    LexSemicolon(last, Join(server, " "));
    TokensOfPlain(server);
    BareSnoc(attach);
    var before, tail := BareTokens(attach[..|attach| - 1]), BareTokens(server);
    assert before + ([WordToken(last), Operator(";")] + tail)
        == (before + [WordToken(last)]) + ([Operator(";")] + tail);
  }

  lemma {:induction false} ExecLine(attach: seq<string>, gdb: seq<string>)
    requires gdb != []
    ensures AttachThenExec(attach, gdb) == Join(attach, " ") + ("; " + Join(["exec"] + gdb, " "))
  {
    var server := ["exec"] + gdb;
    assert server[1..] == gdb;
    assert Join(server, " ") == "exec" + " " + Join(gdb, " ");
    assert "; exec " == "; " + ("exec" + " ");
  }

  lemma {:induction false} ExecIsPlain(gdb: seq<string>)
    ensures AllPlain(["exec"] + gdb) <==> AllPlain(gdb)
    ensures NamesCommand(BareWord("exec"))
  {
    var server := ["exec"] + gdb;
    assert forall i :: 0 <= i < |gdb| ==> server[i + 1] == gdb[i];
    var w := "exec";
    assert Chars(BareWord(w)) == w;
    assert |w| == 4 && w[0] == 'e' && w[1] == 'x';
    assert "else"[1] == 'l' && "esac"[1] == 's' && "case"[0] == 'c' && "done"[0] == 'd' && "elif"[1] == 'l'
        && "then"[0] == 't';
  }

  /** Plain tokens come through unquoted. */
  lemma {:induction false} PlainLineParses(attach: seq<string>, gdb: seq<string>)
    requires attach != [] && gdb != [] && AllPlain(attach) && AllPlain(gdb) && NamesCommand(BareWord(attach[0]))
    ensures Parse(AttachThenExec(attach, gdb)) == Some(Meant(attach, gdb))
  {
    var server := ["exec"] + gdb;
    ExecLine(attach, gdb);
    ExecIsPlain(gdb);
    TokensOfLine(attach, server);
    var first, second := BareTokens(attach), BareTokens(server);
    AllPlainLiteral(attach);
    AllPlainLiteral(server);
    ParseBare(attach, [Operator(";")] + second, NO_COMMAND);
    ParseBare(server, [], NO_COMMAND);
    assert second + [] == second && [] + attach == attach && [] + server == server;
    ParseTwoJobs(first, Command(attach, []), ";", second, Command(server, []));
  }
}
