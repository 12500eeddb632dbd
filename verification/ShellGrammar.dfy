/** The Shell Command Language of IEEE Std 1003.1-2017, as far as a command line made of
    simple commands needs it: quoting (section 2.2), token recognition (section 2.3), the
    words that are special when unquoted (sections 2.4, 2.6 and 2.9.1), redirection
    (section 2.7) and lists (section 2.9.3). The parser answers `None` whenever the meaning
    of the input is not a list of simple commands with literal arguments, for instance when
    a parameter, a pattern or a pipeline is left unquoted, or is not specified. A pattern is
    no literal argument even where no file matches it now, since another directory makes it
    one. */
module ShellGrammar {
  import opened Text

  /** A character of a word, and whether quoting took its special meaning away. */
  datatype QuotedChar = QuotedChar(c: char, quoted: bool)

  type Word = seq<QuotedChar>

  datatype Token = WordToken(word: Word) | IoNumber(digits: string) | Operator(op: string)

  /** The state of token recognition between two characters. */
  datatype Mode = Plain | Escaped | SingleQuoted | DoubleQuoted | DoubleEscaped | Comment

  predicate OperatorStart(c: char) {
    c in {'&', '|', ';', '<', '>', '(', ')'}
  }

  predicate Blank(c: char) {
    c == ' ' || c == '\t'
  }

  /** Characters an unquoted word may hold without starting anything else. */
  predicate Ordinary(c: char) {
    !OperatorStart(c) && !Blank(c) && c !in {'\n', '\'', '"', '\\', '$', '`', '#'}
  }

  /** Rules 2 and 3 of section 2.3: the longest operator wins. */
  function OperatorLength(s: string): (n: nat)
    requires s != ""
    ensures 1 <= n <= |s|
  {
    if |s| >= 3 && s[0] == '<' && s[1] == '<' && s[2] == '-' then 3
    else if |s| >= 2 && s[..2] in {"&&", "||", ";;", "<<", ">>", "<&", ">&", "<>", ">|"} then 2
    else 1
  }

  /** An opening quote starts a word even when nothing ends up between the quotes. */
  function Open(current: Option<Word>): Option<Word> {
    if current.None? then Some([]) else current
  }

  function Add(current: Option<Word>, c: char, quoted: bool): Option<Word> {
    Some(Open(current).value + [QuotedChar(c, quoted)])
  }

  predicate AllUnquotedDigits(w: Word) {
    w != [] && forall k :: 0 <= k < |w| ==> !w[k].quoted && '0' <= w[k].c <= '9'
  }

  function Chars(w: Word): (s: string)
    ensures |s| == |w|
  {
    seq(|w|, k requires 0 <= k < |w| => w[k].c)
  }

  function Flush(current: Option<Word>): seq<Token> {
    if current.None? then [] else [WordToken(current.value)]
  }

  /** Digits right before a redirection name a file descriptor (section 2.10.1). */
  function FlushBefore(current: Option<Word>, operatorStart: char): seq<Token> {
    if current.Some? && AllUnquotedDigits(current.value) && operatorStart in {'<', '>'}
    then [IoNumber(Chars(current.value))]
    else Flush(current)
  }

  function Prepend(tokens: seq<Token>, rest: Option<seq<Token>>): Option<seq<Token>> {
    if rest.None? then None else Some(tokens + rest.value)
  }

  /** Token recognition, one character at a time. */
  function Lex(s: string, mode: Mode, current: Option<Word>): Option<seq<Token>>
    decreases |s|
  {
    if s == "" then
      if mode.Plain? || mode.Comment? then Some(Flush(current)) else None
    else
      var c, rest := s[0], s[1..];
      match mode
      case SingleQuoted =>
        if c == '\'' then Lex(rest, Plain, current) else Lex(rest, SingleQuoted, Add(current, c, true))
      case Escaped =>
        if c == '\n' then Lex(rest, Plain, current) else Lex(rest, Plain, Add(current, c, true))
      case DoubleQuoted =>
        if c == '"' then Lex(rest, Plain, current)
        else if c == '\\' then Lex(rest, DoubleEscaped, current)
        else if c == '$' || c == '`' then None
        else Lex(rest, DoubleQuoted, Add(current, c, true))
      case DoubleEscaped =>
        if c == '\n' then Lex(rest, DoubleQuoted, current)
        else if c in {'$', '`', '"', '\\'} then Lex(rest, DoubleQuoted, Add(current, c, true))
        else Lex(rest, DoubleQuoted, Add(Add(current, '\\', true), c, true))
      case Comment =>
        if c == '\n' then Prepend([Operator("\n")], Lex(rest, Plain, None)) else Lex(rest, Comment, current)
      case Plain =>
        if c == '\'' then Lex(rest, SingleQuoted, Open(current))
        else if c == '"' then Lex(rest, DoubleQuoted, Open(current))
        else if c == '\\' then Lex(rest, Escaped, current)
        else if c == '$' || c == '`' then None
        else if c == '\n' then Prepend(Flush(current) + [Operator("\n")], Lex(rest, Plain, None))
        else if Blank(c) then Prepend(Flush(current), Lex(rest, Plain, None))
        else if OperatorStart(c) then
          var n := OperatorLength(s);
          Prepend(FlushBefore(current, c) + [Operator(s[..n])], Lex(s[n..], Plain, None))
        else if c == '#' && current.None? then Lex(rest, Comment, None)
        else Lex(rest, Plain, Add(current, c, false))
  }

  function Tokens(s: string): Option<seq<Token>> {
    Lex(s, Plain, None)
  }

  // ------------------------------------------------------------------ words

  /** Section 2.6.1: an unquoted tilde at the start of a word, and nothing quoted from there to
      the first unquoted slash. */
  predicate TildePrefix(w: Word) {
    && w != [] && w[0] == QuotedChar('~', false)
    && forall k :: 0 <= k < |w| && w[k].quoted ==> exists j :: 0 < j < k && w[j] == QuotedChar('/', false)
  }

  /** Section 2.13.1: an unquoted `[` with its `]`, at least one character apart, not counting
      a `!` behind the `[`. By section 2.13.3 there is no slash in between. */
  predicate BracketAt(w: Word, i: int, j: int) {
    && 0 <= i && i + 1 < j < |w| && w[i] == QuotedChar('[', false) && w[j] == QuotedChar(']', false)
    && (w[i + 1] == QuotedChar('!', false) ==> i + 2 < j)
    && forall k :: i < k < j ==> w[k].c != '/'
  }

  /** A word no expansion of section 2.6 can change: no tilde prefix and no pattern. */
  predicate Literal(w: Word) {
    && !TildePrefix(w)
    && (forall k :: 0 <= k < |w| ==> w[k].quoted || w[k].c !in {'*', '?'})
    && (forall i, j :: 0 <= i < j < |w| ==> !BracketAt(w, i, j))
  }

  predicate Unquoted(w: Word) {
    forall k :: 0 <= k < |w| ==> !w[k].quoted
  }

  /** A first word that is a reserved word does not name a command, nor one that is, or by
      rule 7 of section 2.10.2 may be, an assignment. */
  predicate NamesCommand(w: Word) {
    && !(Unquoted(w) && Chars(w) in {
           "!", "{", "}", "case", "do", "done", "elif", "else", "esac", "fi", "for", "if", "in",
           "then", "until", "while"})
    && ((w != [] && w[0] == QuotedChar('=', false)) || forall k :: 0 <= k < |w| ==> w[k].quoted || w[k].c != '=')
  }

  /** The words of a line that holds nothing but literal words. */
  function Words(tokens: seq<Token>): Option<seq<string>> {
    if tokens == [] then Some([])
    else
      var tail := Words(tokens[1..]);
      if tokens[0].WordToken? && Literal(tokens[0].word) && tail.Some?
      then Some([Chars(tokens[0].word)] + tail.value)
      else None
  }

  // ------------------------------------------------------------------ lists

  datatype Redirect = Redirect(fd: string, op: string, target: string)

  datatype Command = Command(argv: seq<string>, redirects: seq<Redirect>)

  /** An AND-OR list: a first command, then (operator, command) pairs. */
  datatype AndOr = AndOr(first: Command, rest: seq<(string, Command)>)

  /** One element of a list: an AND-OR list, run in the background when ended by `&`. */
  datatype Job = Job(list: AndOr, background: bool)

  predicate RedirectOperator(op: string) {
    op in {"<", ">", ">>", "<&", ">&", "<>", ">|"}
  }

  /** Reads one simple command; answers it with the tokens it leaves. */
  function ParseCommand(tokens: seq<Token>, sofar: Command): (r: Option<(Command, seq<Token>)>)
    ensures r.Some? ==> |r.value.1| <= |tokens|
    ensures r.Some? && r.value.1 != [] ==> r.value.1[0].Operator?
    decreases |tokens|
  {
    if tokens == [] then Some((sofar, []))
    else
      match tokens[0]
      case WordToken(w) =>
        if Literal(w) && (sofar.argv != [] || NamesCommand(w))
        then ParseCommand(tokens[1..], sofar.(argv := sofar.argv + [Chars(w)]))
        else None
      case IoNumber(digits) =>
        if |tokens| >= 3 && tokens[1].Operator? && RedirectOperator(tokens[1].op)
           && tokens[2].WordToken? && Literal(tokens[2].word)
        then
          var redirect := Redirect(digits, tokens[1].op, Chars(tokens[2].word));
          ParseCommand(tokens[3..], sofar.(redirects := sofar.redirects + [redirect]))
        else None
      case Operator(op) =>
        if RedirectOperator(op) then
          if |tokens| >= 2 && tokens[1].WordToken? && Literal(tokens[1].word) then
            var fd := if op[0] == '<' then "0" else "1";
            var redirect := Redirect(fd, op, Chars(tokens[1].word));
            ParseCommand(tokens[2..], sofar.(redirects := sofar.redirects + [redirect]))
          else None
        else Some((sofar, tokens))
  }

  const NO_COMMAND := Command([], [])

  /** Reads AND-OR lists; `sofar` is the one being read, if any. */
  function ParseJobs(tokens: seq<Token>, sofar: Option<(AndOr, string)>): Option<seq<Job>>
    decreases |tokens|
  {
    var command := ParseCommand(tokens, NO_COMMAND);
    if command.None? || command.value.0.argv == [] then None
    else
      var (c, rest) := command.value;
      var list := if sofar.None? then AndOr(c, [])
                  else AndOr(sofar.value.0.first, sofar.value.0.rest + [(sofar.value.1, c)]);
      if rest == [] then Some([Job(list, false)])
      else if rest[0].op in {"&&", "||"} then ParseJobs(rest[1..], Some((list, rest[0].op)))
      else if rest[0].op in {";", "&", "\n"} then
        var job := Job(list, rest[0].op == "&");
        if rest[1..] == [] then Some([job])
        else
          var tail := ParseJobs(rest[1..], None);
          if tail.None? then None else Some([job] + tail.value)
      else None
  }

  /** What `sh -c` makes of a command string. */
  function Parse(s: string): Option<seq<Job>> {
    var tokens := Tokens(s);
    if tokens.None? then None else ParseJobs(tokens.value, None)
  }
}
