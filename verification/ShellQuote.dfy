/** daggerverse/flash: the shell quoting of the probe and bridge command lines. */
module ShellQuote {
  import opened Text
  import opened ShellGrammar

  /** `strings.ReplaceAll(s, "'", `'\''`)`. */
  function SpliceQuotes(s: string): string {
    if s == "" then ""
    else (if s[0] == '\'' then "'\\''" else [s[0]]) + SpliceQuotes(s[1..])
  }

  function ShQuote(s: string): string {
    "'" + SpliceQuotes(s) + "'"
  }

  function ShQuoteAll(argv: seq<string>): (quoted: seq<string>)
    ensures |quoted| == |argv|
  {
    seq(|argv|, i requires 0 <= i < |argv| => ShQuote(argv[i]))
  }

  function ShArgs(argv: seq<string>): string {
    Join(ShQuoteAll(argv), " ")
  }

  /** `shArgs`: fill a slice with the quoted tokens, then join it. */
  method RenderShArgs(argv: seq<string>) returns (line: string)
    ensures line == ShArgs(argv)
  {
    var quoted := new string[|argv|];
    for i := 0 to |argv|
      invariant quoted[..i] == ShQuoteAll(argv)[..i]
    {
      quoted[i] := ShQuote(argv[i]);
    }
    assert quoted[..] == ShQuoteAll(argv);
    line := Join(quoted[..], " ");
  }

  /** The word a string becomes when every one of its characters is quoted. */
  function QuotedWord(s: string): (w: Word)
    ensures |w| == |s|
  {
    seq(|s|, k requires 0 <= k < |s| => QuotedChar(s[k], true))
  }

  function BareWord(s: string): (w: Word)
    ensures |w| == |s|
  {
    seq(|s|, k requires 0 <= k < |s| => QuotedChar(s[k], false))
  }

  // ------------------------------------------------------------ tokenising

  /** An apostrophe leaves the quotes, comes escaped, and enters them again. */
  lemma {:induction false} LexApostrophe(tail: string, current: Word)
    ensures Lex("'\\''" + tail, SingleQuoted, Some(current))
         == Lex(tail, SingleQuoted, Some(current + [QuotedChar('\'', true)]))
  {
    var s0 := "'\\''" + tail;
    var s1, s2, s3 := "\\''" + tail, "''" + tail, "'" + tail;
    assert s0[0] == '\'' && s0[1..] == s1;
    assert s1[0] == '\\' && s1[1..] == s2;
    assert s2[0] == '\'' && s2[1..] == s3;
    assert s3[0] == '\'' && s3[1..] == tail;
    assert Lex(s0, SingleQuoted, Some(current)) == Lex(s1, Plain, Some(current));
    assert Lex(s1, Plain, Some(current)) == Lex(s2, Escaped, Some(current));
    assert Lex(s2, Escaped, Some(current)) == Lex(s3, Plain, Some(current + [QuotedChar('\'', true)]));
  }

  lemma {:induction false} LexSpliced(s: string, rest: string, current: Word)
    ensures Lex(SpliceQuotes(s) + "'" + rest, SingleQuoted, Some(current))
         == Lex(rest, Plain, Some(current + QuotedWord(s)))
  {
    if s == "" {
      assert SpliceQuotes(s) + "'" + rest == "'" + rest;
      assert ("'" + rest)[1..] == rest;
      assert current + QuotedWord(s) == current;
    } else {
      var tail := SpliceQuotes(s[1..]) + "'" + rest;
      var word := current + [QuotedChar(s[0], true)];
      assert word + QuotedWord(s[1..]) == current + QuotedWord(s);
      var all := SpliceQuotes(s) + "'" + rest;
      if s[0] == '\'' {
        assert all == "'\\''" + tail;
        LexApostrophe(tail, current);
      } else {
        assert all == [s[0]] + tail;
        assert all[1..] == tail;
      }
      LexSpliced(s[1..], rest, word);
    }
  }

  /** A quoted string adds exactly its own characters, all quoted, to the word being read. */
  lemma {:induction false} LexQuoted(s: string, rest: string)
    ensures Lex(ShQuote(s) + rest, Plain, None) == Lex(rest, Plain, Some(QuotedWord(s)))
  {
    assert ShQuote(s) + rest == "'" + (SpliceQuotes(s) + "'" + rest);
    assert ("'" + (SpliceQuotes(s) + "'" + rest))[1..] == SpliceQuotes(s) + "'" + rest;
    LexSpliced(s, rest, []);
    assert [] + QuotedWord(s) == QuotedWord(s);
  }

  function QuotedTokens(argv: seq<string>): (tokens: seq<Token>)
    ensures |tokens| == |argv|
  {
    seq(|argv|, i requires 0 <= i < |argv| => WordToken(QuotedWord(argv[i])))
  }

  /** The tokens of `shArgs(argv)` followed by a blank and anything else. */
  lemma {:induction false} LexArgs(argv: seq<string>, rest: string)
    requires argv != []
    requires rest == "" || Blank(rest[0])
    ensures Lex(ShArgs(argv) + rest, Plain, None) == Prepend(QuotedTokens(argv), Lex(rest, Plain, None))
  {
    var head := WordToken(QuotedWord(argv[0]));
    if |argv| == 1 {
      assert ShArgs(argv) == ShQuote(argv[0]);
      LexQuoted(argv[0], rest);
      assert QuotedTokens(argv) == [head];
      if rest != "" {
        var r := Lex(rest[1..], Plain, None);
        assert Lex(rest, Plain, None) == Prepend([], r);
        assert r.Some? ==> [head] + ([] + r.value) == [head] + r.value;
      } else {
        assert [head] + [] == [head];
      }
    } else {
      var tail := ShArgs(argv[1..]) + rest;
      assert ShQuoteAll(argv)[1..] == ShQuoteAll(argv[1..]);
      assert ShArgs(argv) + rest == ShQuote(argv[0]) + (" " + tail);
      LexQuoted(argv[0], " " + tail);
      assert (" " + tail)[1..] == tail;
      LexArgs(argv[1..], rest);
      assert QuotedTokens(argv) == [head] + QuotedTokens(argv[1..]);
      var r := Lex(rest, Plain, None);
      assert r.Some? ==> [head] + (QuotedTokens(argv[1..]) + r.value) == QuotedTokens(argv) + r.value;
    }
  }

  lemma {:induction false} CharsOfQuoted(s: string)
    ensures Chars(QuotedWord(s)) == s
    ensures Literal(QuotedWord(s))
    ensures Unquoted(QuotedWord(s)) <==> s == ""
    ensures NamesCommand(QuotedWord(s))
  {
    if s != "" {
      assert QuotedWord(s)[0].quoted;
    }
  }

  lemma {:induction false} WordsOfQuoted(argv: seq<string>)
    ensures Words(QuotedTokens(argv)) == Some(argv)
  {
    if argv != [] {
      CharsOfQuoted(argv[0]);
      WordsOfQuoted(argv[1..]);
      assert QuotedTokens(argv)[1..] == QuotedTokens(argv[1..]);
      assert [argv[0]] + argv[1..] == argv;
    }
  }

  /** Tokenising undoes `shArgs`, for every argv. */
  lemma {:induction false} ShArgsRoundTrip(argv: seq<string>)
    ensures Tokens(ShArgs(argv)).Some?
    ensures Words(Tokens(ShArgs(argv)).value) == Some(argv)
  {
    if argv == [] {
      assert ShArgs(argv) == "";
    } else {
      LexArgs(argv, "");
      assert ShArgs(argv) + "" == ShArgs(argv);
      assert QuotedTokens(argv) + [] == QuotedTokens(argv);
    }
    WordsOfQuoted(argv);
  }

  /** So quoting loses nothing: two argument lists with one rendering are the same list. */
  lemma {:induction false} ShArgsInjective(a: seq<string>, b: seq<string>)
    requires ShArgs(a) == ShArgs(b)
    ensures a == b
  {
    ShArgsRoundTrip(a);
    ShArgsRoundTrip(b);
  }

  // ------------------------------------------------------------ one command

  /** Parsing quoted tokens collects them all, whatever characters they hold. */
  lemma {:induction false} ParseQuoted(argv: seq<string>, rest: seq<Token>, sofar: Command)
    ensures ParseCommand(QuotedTokens(argv) + rest, sofar)
         == ParseCommand(rest, sofar.(argv := sofar.argv + argv))
  {
    if argv == [] {
      assert QuotedTokens(argv) + rest == rest;
      assert sofar.argv + argv == sofar.argv;
    } else {
      CharsOfQuoted(argv[0]);
      var tokens := QuotedTokens(argv) + rest;
      assert tokens[1..] == QuotedTokens(argv[1..]) + rest;
      ParseQuoted(argv[1..], rest, sofar.(argv := sofar.argv + [argv[0]]));
      assert sofar.argv + [argv[0]] + argv[1..] == sofar.argv + argv;
    }
  }

  // ------------------------------------------------------------ runProbe

  datatype Flasher = Flasher(probeArgs: seq<string>, formatArgs: seq<string>, attach: seq<string>)

  const FIRMWARE_PATH := "/fw/firmware"

  /** `downloadArgv`: probe options, format flags, firmware operand. */
  function DownloadArgv(fl: Flasher): seq<string> {
    [] + fl.probeArgs + fl.formatArgs + [FIRMWARE_PATH]
  }

  const MERGE := Redirect("2", ">&", "1")

  /** The tokens of ` 2>&1`. */
  lemma {:induction false} LexOne()
    ensures Lex("1", Plain, None) == Some([WordToken(BareWord("1"))])
  {
    var one := [QuotedChar('1', false)];
    assert "1"[1..] == "" && [] + one == one && BareWord("1") == one;
    calc {
      Lex("1", Plain, None);
      Lex("", Plain, Some(one));
      Some([WordToken(one)]);
    }
  }

  lemma {:induction false} LexMerge()
    ensures Lex(" 2>&1", Plain, None)
         == Some([IoNumber("2"), Operator(">&"), WordToken(BareWord("1"))])
  {
    var two := [QuotedChar('2', false)];
    var one := [QuotedChar('1', false)];
    assert " 2>&1"[1..] == "2>&1" && "2>&1"[1..] == ">&1" && ">&1"[2..] == "1" && "1"[1..] == "";
    assert [] + two == two && [] + one == one;
    assert ">&1"[..2] == ">&";
    assert OperatorLength(">&1") == 2;
    assert Chars(two) == "2";
    assert FlushBefore(Some(two), '>') + [Operator(">&")] == [IoNumber("2"), Operator(">&")];
    assert BareWord("1") == one;
    calc {
      Lex(" 2>&1", Plain, None);
      Prepend([], Lex("2>&1", Plain, None));
      Prepend([], Lex(">&1", Plain, Some(two)));
      Prepend([], Prepend([IoNumber("2"), Operator(">&")], Lex("1", Plain, None)));
      { LexOne(); }
      Prepend([], Prepend([IoNumber("2"), Operator(">&")], Some([WordToken(one)])));
    }
    assert [] + ([IoNumber("2"), Operator(">&")] + [WordToken(one)])
        == [IoNumber("2"), Operator(">&"), WordToken(one)];
  }

  /** The last command of the line: quoted tokens, then the redirection. */
  lemma {:induction false} ParseMerged(argv: seq<string>)
    requires argv != []
    ensures Tokens(ShArgs(argv) + " 2>&1").Some?
    ensures ParseCommand(Tokens(ShArgs(argv) + " 2>&1").value, NO_COMMAND) == Some((Command(argv, [MERGE]), []))
  {
    LexMerge();
    LexArgs(argv, " 2>&1");
    var merge := [IoNumber("2"), Operator(">&"), WordToken(BareWord("1"))];
    ParseQuoted(argv, merge, NO_COMMAND);
    assert [] + argv == argv;
    var sofar := NO_COMMAND.(argv := argv);
    assert Literal(BareWord("1")) && Chars(BareWord("1")) == "1";
    assert merge[3..] == [];
    assert sofar.redirects + [MERGE] == [MERGE];
    assert ParseCommand(merge, sofar) == ParseCommand([], Command(argv, [MERGE]));
  }

  /** The string `runProbe` hands to the inner `sh -c`, built step by step as there. */
  method ProbeCommandLine(attach: seq<string>, probeArgv: seq<string>) returns (inner: string)
    ensures attach == [] ==>
      Parse(inner) == Some([Job(AndOr(Command(["probe-rs"] + probeArgv, [Redirect("2", ">&", "1")]), []), false)])
    ensures attach != [] ==>
      Parse(inner) == Some([Job(AndOr(Command(attach, []),
                                      [("&&", Command(["probe-rs"] + probeArgv, [Redirect("2", ">&", "1")]))]), false)])
  {
    var probe := ["probe-rs"] + probeArgv;
    inner := RenderShArgs(probe);
    if |attach| > 0 {
      var prefix := RenderShArgs(attach);
      inner := prefix + " && " + inner;
    }
    inner := inner + " 2>&1";
    if attach == [] {
      ParseMerged(probe);
    } else {
      assert inner == ShArgs(attach) + " && " + (ShArgs(probe) + " 2>&1");
      ParseAttachThenProbe(attach, probe);
    }
  }

  /** `Run` and `Verify`: the firmware is the last operand, after the probe and format flags. */
  method FirmwareCommandLine(fl: Flasher, verb: string) returns (inner: string)
    ensures
      var argv := ["probe-rs", verb] + fl.probeArgs + fl.formatArgs + ["/fw/firmware"];
      var run := Command(argv, [Redirect("2", ">&", "1")]);
      var list := if fl.attach == [] then AndOr(run, []) else AndOr(Command(fl.attach, []), [("&&", run)]);
      Parse(inner) == Some([Job(list, false)])
  {
    inner := ProbeCommandLine(fl.attach, [verb] + DownloadArgv(fl));
    assert ["probe-rs"] + ([verb] + DownloadArgv(fl))
        == ["probe-rs", verb] + fl.probeArgs + fl.formatArgs + [FIRMWARE_PATH];
  }

  lemma {:induction false} ParseAttachThenProbe(attach: seq<string>, probe: seq<string>)
    requires attach != [] && probe != []
    ensures Parse(ShArgs(attach) + " && " + (ShArgs(probe) + " 2>&1"))
         == Some([Job(AndOr(Command(attach, []), [("&&", Command(probe, [MERGE]))]), false)])
  {
    var tail := ShArgs(probe) + " 2>&1";
    var and := [Operator("&&")];
    ParseMerged(probe);
    var probeTokens := Tokens(tail).value;
    LexAnd(tail);
    assert ShArgs(attach) + " && " + tail == ShArgs(attach) + (" && " + tail);
    LexArgs(attach, " && " + tail);
    var tokens := QuotedTokens(attach) + (and + probeTokens);
    assert Tokens(ShArgs(attach) + " && " + tail) == Some(tokens);
    ParseQuoted(attach, and + probeTokens, NO_COMMAND);
    assert [] + attach == attach;
    assert ParseCommand(tokens, NO_COMMAND) == Some((Command(attach, []), and + probeTokens));
    assert (and + probeTokens)[1..] == probeTokens;
    var first := AndOr(Command(attach, []), []);
    calc {
      ParseJobs(tokens, None);
      ParseJobs(probeTokens, Some((first, "&&")));
      { assert [] + [("&&", Command(probe, [MERGE]))] == [("&&", Command(probe, [MERGE]))]; }
      Some([Job(AndOr(Command(attach, []), [("&&", Command(probe, [MERGE]))]), false)]);
    }
  }

  lemma {:induction false} LexAnd(tail: string)
    ensures Lex(" && " + tail, Plain, None) == Prepend([Operator("&&")], Tokens(tail))
  {
    var s := " && " + tail;
    assert s[1..] == "&& " + tail;
    assert s[1..][..2] == "&&";
    assert s[1..][2..] == " " + tail;
    assert s[1..][2..][1..] == tail;
    assert OperatorLength(s[1..]) == 2;
    assert Lex(s, Plain, None) == Prepend([], Lex(s[1..], Plain, None));
    assert FlushBefore(None, '&') + [Operator("&&")] == [Operator("&&")];
    var r := Tokens(tail);
    assert Lex(" " + tail, Plain, None) == Prepend([], r);
    assert r.Some? ==> [] + ([Operator("&&")] + ([] + r.value)) == [Operator("&&")] + r.value;
  }

  // ------------------------------------------------------------ BridgeCommand

  function BridgeCommand(busid: string, port: string): string {
    "usbipd -tcp-port " + ShQuote(port) + " & usbip bind --busid " + ShQuote(busid)
  }

  /** Inside a word even `#` is a character like others. */
  predicate InWord(c: char) {
    Ordinary(c) || c == '#'
  }

  lemma {:induction false} LexBare(w: string, rest: string, current: Word)
    requires forall k :: 0 <= k < |w| ==> InWord(w[k])
    ensures Lex(w + rest, Plain, Some(current)) == Lex(rest, Plain, Some(current + BareWord(w)))
  {
    if w == "" {
      assert w + rest == rest;
      assert current + BareWord(w) == current;
    } else {
      assert (w + rest)[1..] == w[1..] + rest;
      var next := current + [QuotedChar(w[0], false)];
      LexBare(w[1..], rest, next);
      assert next + BareWord(w[1..]) == current + BareWord(w);
    }
  }

  /** An unquoted word of ordinary characters, ended by a blank. */
  lemma {:induction false} LexBareWord(w: string, tail: string)
    requires w != "" && forall k :: 0 <= k < |w| ==> Ordinary(w[k])
    ensures Lex(w + " " + tail, Plain, None) == Prepend([WordToken(BareWord(w))], Lex(tail, Plain, None))
  {
    var s := w + " " + tail;
    assert s[1..] == w[1..] + (" " + tail);
    var first := [QuotedChar(w[0], false)];
    assert [] + first == first;
    LexBare(w[1..], " " + tail, first);
    assert first + BareWord(w[1..]) == BareWord(w);
    assert (" " + tail)[1..] == tail;
  }

  lemma {:induction false} LiteralText(w: string)
    requires forall k :: 0 <= k < |w| ==> w[k] !in {'*', '?', '[', '~'}
    ensures Literal(BareWord(w))
  {
  }

  function BareTokens(words: seq<string>): (tokens: seq<Token>)
    ensures |tokens| == |words|
  {
    seq(|words|, i requires 0 <= i < |words| => WordToken(BareWord(words[i])))
  }

  /** Unquoted words that name a command and its options read back as themselves. */
  lemma {:induction false} ParseBare(words: seq<string>, rest: seq<Token>, sofar: Command)
    requires forall i :: 0 <= i < |words| ==> Literal(BareWord(words[i]))
    requires sofar.argv == [] && words != [] ==> NamesCommand(BareWord(words[0]))
    ensures ParseCommand(BareTokens(words) + rest, sofar)
         == ParseCommand(rest, sofar.(argv := sofar.argv + words))
  {
    if words == [] {
      assert BareTokens(words) + rest == rest;
      assert sofar.argv + words == sofar.argv;
    } else {
      var tokens := BareTokens(words) + rest;
      assert tokens[1..] == BareTokens(words[1..]) + rest;
      assert Chars(BareWord(words[0])) == words[0];
      ParseBare(words[1..], rest, sofar.(argv := sofar.argv + [words[0]]));
      assert sofar.argv + [words[0]] + words[1..] == sofar.argv + words;
    }
  }

  const SERVE := ["usbipd", "-tcp-port"]
  const BIND := ["usbip", "bind", "--busid"]

  /** One half of the bridge line: bare words, one quoted token, then `rest`. */
  lemma {:induction false} LexBareThenQuoted(words: seq<string>, text: string, rest: string)
    requires forall i :: 0 <= i < |words| ==> words[i] != ""
    requires forall i, k :: 0 <= i < |words| && 0 <= k < |words[i]| ==> Ordinary(words[i][k])
    requires rest == "" || Blank(rest[0])
    ensures Lex(Join(words + [ShQuote(text)], " ") + rest, Plain, None)
         == Prepend(BareTokens(words) + QuotedTokens([text]), Lex(rest, Plain, None))
  {
    var r := Lex(rest, Plain, None);
    if words == [] {
      assert words + [ShQuote(text)] == ShQuoteAll([text]);
      LexArgs([text], rest);
      assert BareTokens(words) + QuotedTokens([text]) == QuotedTokens([text]);
    } else {
      var tail := Join(words[1..] + [ShQuote(text)], " ") + rest;
      assert (words + [ShQuote(text)])[1..] == words[1..] + [ShQuote(text)];
      assert Join(words + [ShQuote(text)], " ") + rest == words[0] + " " + tail;
      LexBareWord(words[0], tail);
      LexBareThenQuoted(words[1..], text, rest);
      var head := [WordToken(BareWord(words[0]))];
      assert BareTokens(words) == head + BareTokens(words[1..]);
      var own := BareTokens(words) + QuotedTokens([text]);
      assert own == head + (BareTokens(words[1..]) + QuotedTokens([text]));
      if r.Some? {
        assert own + r.value == head + ((BareTokens(words[1..]) + QuotedTokens([text])) + r.value);
      }
    }
  }

  lemma {:induction false} LexAmpersand(tail: string)
    ensures Lex(" & " + tail, Plain, None) == Prepend([Operator("&")], Tokens(tail))
  {
    var s := " & " + tail;
    assert s[1..] == "& " + tail;
    assert s[1..][..1] == "&" && s[1..][1] == ' ';
    assert s[1..][1..] == " " + tail;
    assert s[1..][1..][1..] == tail;
    assert OperatorLength(s[1..]) == 1 by {
      assert s[1..][..2][1] == ' ';
      assert forall op :: op in {"&&", "||", ";;", "<<", ">>", "<&", ">&", "<>", ">|"} ==> op[1] != ' ';
    }
    assert Lex(s, Plain, None) == Prepend([], Lex(s[1..], Plain, None));
    assert FlushBefore(None, '&') + [Operator("&")] == [Operator("&")];
    var r := Tokens(tail);
    assert Lex(" " + tail, Plain, None) == Prepend([], r);
    assert r.Some? ==> [] + ([Operator("&")] + ([] + r.value)) == [Operator("&")] + r.value;
  }

  /** The literal words of the bridge line are ordinary, and its commands are named by them. */
  lemma {:induction false} BridgeWords()
    ensures forall i, k :: 0 <= i < |SERVE| && 0 <= k < |SERVE[i]| ==>
      Ordinary(SERVE[i][k]) && SERVE[i][k] !in {'*', '?', '[', '~', '='}
    ensures forall i, k :: 0 <= i < |BIND| && 0 <= k < |BIND[i]| ==>
      Ordinary(BIND[i][k]) && BIND[i][k] !in {'*', '?', '[', '~', '='}
    ensures NamesCommand(BareWord(SERVE[0])) && NamesCommand(BareWord(BIND[0]))
  {
    NotReserved(SERVE[0]);
    NotReserved(BIND[0]);
  }

  lemma {:induction false} NotReserved(w: string)
    requires |w| >= 2 && w[0] == 'u' && w[1] == 's' && '=' !in w
    ensures NamesCommand(BareWord(w))
  {
    assert Chars(BareWord(w)) == w;
    assert w != "until" by { assert "until"[1] == 'n'; }
    assert forall k :: 0 <= k < |w| ==> BareWord(w)[k].c in w;
  }

  lemma {:induction false} JoinThree(a: string, b: string, c: string)
    ensures Join([a, b, c], " ") == a + " " + b + " " + c
  {
    assert [a, b, c][1..] == [b, c] && [b, c][1..] == [c];
    assert Join([b, c], " ") == b + " " + Join([c], " ");
  }

  lemma {:induction false} JoinFour(a: string, b: string, c: string, d: string)
    ensures Join([a, b, c, d], " ") == a + " " + b + " " + c + " " + d
  {
    assert [a, b, c, d][1..] == [b, c, d];
    JoinThree(b, c, d);
  }

  lemma {:induction false} BridgeShape(busid: string, port: string)
    ensures BridgeCommand(busid, port)
         == Join(SERVE + [ShQuote(port)], " ") + (" & " + Join(BIND + [ShQuote(busid)], " "))
  {
    var x, y := ShQuote(port), ShQuote(busid);
    assert SERVE + [x] == [SERVE[0], SERVE[1], x];
    assert BIND + [y] == [BIND[0], BIND[1], BIND[2], y];
    JoinThree(SERVE[0], SERVE[1], x);
    JoinFour(BIND[0], BIND[1], BIND[2], y);
    assert SERVE[0] + " " + SERVE[1] + " " == "usbipd -tcp-port ";
    assert " & " + (BIND[0] + " " + BIND[1] + " " + BIND[2] + " ") == " & usbip bind --busid ";
    Reassociate("usbipd -tcp-port ", x, " & ", BIND[0] + " " + BIND[1] + " " + BIND[2] + " ", y);
  }

  lemma {:induction false} Reassociate(p: string, x: string, amp: string, q: string, y: string)
    ensures p + x + (amp + q) + y == (p + x) + (amp + (q + y))
  {
  }

  /** The emitted bridge line is two commands, the first one in the background. */
  lemma {:induction false} BridgeCommandParses(busid: string, port: string)
    ensures Parse(BridgeCommand(busid, port))
         == Some([Job(AndOr(Command(["usbipd", "-tcp-port", port], []), []), true),
                  Job(AndOr(Command(["usbip", "bind", "--busid", busid], []), []), false)])
  {
    BridgeWords();
    BridgeShape(busid, port);
    BridgeLineParses(SERVE, port, BIND, busid);
    assert SERVE + [port] == ["usbipd", "-tcp-port", port];
    assert BIND + [busid] == ["usbip", "bind", "--busid", busid];
  }

  lemma {:induction false} BridgeLineParses(a: seq<string>, x: string, b: seq<string>, y: string)
    requires a != [] && b != []
    requires forall i :: 0 <= i < |a| ==> a[i] != ""
    requires forall i :: 0 <= i < |b| ==> b[i] != ""
    requires forall i, k :: 0 <= i < |a| && 0 <= k < |a[i]| ==>
      Ordinary(a[i][k]) && a[i][k] !in {'*', '?', '[', '~', '='}
    requires forall i, k :: 0 <= i < |b| && 0 <= k < |b[i]| ==>
      Ordinary(b[i][k]) && b[i][k] !in {'*', '?', '[', '~', '='}
    requires NamesCommand(BareWord(a[0])) && NamesCommand(BareWord(b[0]))
    ensures Parse(Join(a + [ShQuote(x)], " ") + (" & " + Join(b + [ShQuote(y)], " ")))
         == Some([Job(AndOr(Command(a + [x], []), []), true),
                  Job(AndOr(Command(b + [y], []), []), false)])
  {
    var first, second := Join(a + [ShQuote(x)], " "), Join(b + [ShQuote(y)], " ");
    var firstTokens := BareTokens(a) + QuotedTokens([x]);
    var secondTokens := BareTokens(b) + QuotedTokens([y]);
    assert Tokens(second) == Some(secondTokens) by {
      LexBareThenQuoted(b, y, "");
      assert second + "" == second;
      assert secondTokens + [] == secondTokens;
    }
    assert Tokens(first + (" & " + second)) == Some(firstTokens + ([Operator("&")] + secondTokens)) by {
      LexAmpersand(second);
      LexBareThenQuoted(a, x, " & " + second);
    }
    ParseBareThenQuoted(a, x, [Operator("&")] + secondTokens);
    ParseBareThenQuoted(b, y, []);
    assert secondTokens + [] == secondTokens;
    ParseTwoJobs(firstTokens, Command(a + [x], []), "&", secondTokens, Command(b + [y], []));
  }

  lemma {:induction false} ParseTwoJobs(first: seq<Token>, c: Command, op: string, second: seq<Token>, d: Command)
    requires c.argv != [] && d.argv != [] && op in {"&", ";"}
    requires ParseCommand(first + ([Operator(op)] + second), NO_COMMAND)
          == ParseCommand([Operator(op)] + second, c)
    requires ParseCommand(second, NO_COMMAND) == ParseCommand([], d)
    ensures ParseJobs(first + ([Operator(op)] + second), None)
         == Some([Job(AndOr(c, []), op == "&"), Job(AndOr(d, []), false)])
  {
    var tail := [Operator(op)] + second;
    assert tail[1..] == second && second != [];
    assert ParseJobs(second, None) == Some([Job(AndOr(d, []), false)]);
    assert tail[0].op == op && |op| == 1 && |"&&"| == 2;
    assert [Job(AndOr(c, []), op == "&")] + [Job(AndOr(d, []), false)]
        == [Job(AndOr(c, []), op == "&"), Job(AndOr(d, []), false)];
  }

  lemma {:induction false} ParseBareThenQuoted(words: seq<string>, text: string, rest: seq<Token>)
    requires words != [] && NamesCommand(BareWord(words[0]))
    requires forall i, k :: 0 <= i < |words| && 0 <= k < |words[i]| ==>
      words[i][k] !in {'*', '?', '[', '~', '='}
    ensures ParseCommand(BareTokens(words) + QuotedTokens([text]) + rest, NO_COMMAND)
         == ParseCommand(rest, Command(words + [text], []))
  {
    assert BareTokens(words) + QuotedTokens([text]) + rest == BareTokens(words) + (QuotedTokens([text]) + rest);
    forall i | 0 <= i < |words| ensures Literal(BareWord(words[i])) {
      LiteralText(words[i]);
    }
    ParseBare(words, QuotedTokens([text]) + rest, NO_COMMAND);
    assert [] + words == words;
    ParseQuoted([text], rest, Command(words, []));
  }
}
