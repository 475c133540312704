/** Shell quoting (internal/scan/ssh.go): shellArg, the commands that nest it, and a lexer for the shell
    language they must survive (POSIX Shell Command Language, sections 2.2 and 2.3). */
module ShellQuoting {
  import opened Sequences
  import opened Wrappers

  // ---------------------------------------------------------------- the shell's lexer

  /** literal: the word holds nothing the shell would expand. Operators are reported one character at a time. */
  datatype Token = Word(text: string, literal: bool) | Operator(c: char) | Newline

  datatype Mode = Bare | Single | Double | BareEscape | DoubleEscape | Comment

  datatype Part = NoWord | Part(text: string, literal: bool)

  /** Bad: a NUL, which no shell word can hold, has been read. */
  datatype Lexer = Lexer(tokens: seq<Token>, part: Part, mode: Mode) | Bad

  const NUL: char := '\0'

  function Opened(p: Part): Part {
    if p.NoWord? then Part("", true) else p
  }

  function With(p: Part, s: string, literal: bool): Part {
    Part(Opened(p).text + s, Opened(p).literal && literal)
  }

  /** The tokens so far, with the word being read as the last one. */
  function AllTokens(l: Lexer): seq<Token>
    requires l.Lexer?
  {
    if l.part.NoWord? then l.tokens else l.tokens + [Word(l.part.text, l.part.literal)]
  }

  function Ended(l: Lexer): Lexer
    requires l.Lexer?
  {
    l.(tokens := AllTokens(l), part := NoWord)
  }

  function Emitted(l: Lexer, token: Token): Lexer
    requires l.Lexer?
  {
    l.(tokens := AllTokens(l) + [token], part := NoWord)
  }

  predicate IsOperator(c: char) {
    c == '|' || c == '&' || c == ';' || c == '<' || c == '>' || c == '(' || c == ')'
  }

  /** Characters that start an expansion when they are not quoted. */
  predicate Expands(c: char) {
    c == '$' || c == '`' || c == '*' || c == '?' || c == '[' || c == '~'
  }

  /** Section 2.3 with the quoting rules of 2.2. */
  function BareStep(l: Lexer, c: char): Lexer
    requires l.Lexer?
  {
    if c == '\'' then l.(part := Opened(l.part), mode := Single)
    else if c == '"' then l.(part := Opened(l.part), mode := Double)
    else if c == '\\' then l.(mode := BareEscape)
    else if c == ' ' || c == '\t' then Ended(l)
    else if c == '\n' then Emitted(l, Newline)
    else if IsOperator(c) then Emitted(l, Operator(c))
    else if c == '#' && l.part.NoWord? then l.(mode := Comment)
    else l.(part := With(l.part, [c], !Expands(c)))
  }

  function Step(l: Lexer, c: char): Lexer {
    if l.Bad? || c == NUL then Bad else
      match l.mode
      case Bare => BareStep(l, c)
      case Single => if c == '\'' then l.(mode := Bare) else l.(part := With(l.part, [c], true))
      case Double =>
        if c == '"' then l.(mode := Bare)
        else if c == '\\' then l.(mode := DoubleEscape)
        else l.(part := With(l.part, [c], c != '$' && c != '`'))
      case BareEscape => if c == '\n' then l.(mode := Bare) else l.(part := With(l.part, [c], true), mode := Bare)
      case DoubleEscape =>
        if c == '\n' then l.(mode := Double)
        else if c == '$' || c == '`' || c == '"' || c == '\\' then l.(part := With(l.part, [c], true), mode := Double)
        else l.(part := With(l.part, ['\\', c], true), mode := Double)
      case Comment => if c == '\n' then l.(tokens := l.tokens + [Newline], mode := Bare) else l
  }

  function Run(l: Lexer, s: string): Lexer
    decreases |s|
  {
    if s == "" then l else Run(Step(l, s[0]), s[1..])
  }

  const START := Lexer([], NoWord, Bare)

  /** The tokens of a complete text; None for an unterminated quote or a NUL. */
  function Tokens(s: string): Option<seq<Token>> {
    var l := Run(START, s);
    if l.Bad? || (l.mode != Bare && l.mode != Comment) then None else Some(AllTokens(l))
  }

  lemma {:induction false} RunConcat(l: Lexer, a: string, b: string)
    ensures Run(l, a + b) == Run(Run(l, a), b)
    decreases |a|
  {
    if a == "" {
      assert a + b == b;
    } else {
      RunConcat(Step(l, a[0]), a[1..], b);
      assert (a + b)[1..] == a[1..] + b;
    }
  }

  /** An open quote is no complete text. (Section 2.2.2.) */
  lemma {:induction false} InsideQuotes(l: Lexer, s: string)
    requires l.Lexer? && l.mode == Single && '\'' !in s && NulFree(s)
    ensures Run(l, s).Lexer? && Run(l, s).mode == Single
    decreases |s|
  {
    if s == "" {
    } else {
      InsideQuotes(Step(l, s[0]), s[1..]);
    }
  }

  lemma OpenQuoteIsNoText(s: string)
    requires '\'' !in s && NulFree(s)
    ensures Tokens("'" + s) == None
  {
    assert ("'" + s)[1..] == s;
    InsideQuotes(Step(START, '\''), s);
  }

  lemma RunFour(l: Lexer, a: char, b: char, c: char, d: char)
    ensures Run(l, [a, b, c, d]) == Step(Step(Step(Step(l, a), b), c), d)
  {
    assert [a, b, c, d] == [a] + [b, c, d] && [b, c, d] == [b] + [c, d] && [c, d] == [c] + [d];
    RunNext(l, a, [b, c, d]);
    RunNext(Step(l, a), b, [c, d]);
    RunNext(Step(Step(l, a), b), c, [d]);
    RunOne(Step(Step(Step(l, a), b), c), d);
  }

  /** Inside double quotes a backslash is kept, except before the four characters it quotes. (Section 2.2.3.) */
  lemma BackslashInDoubleQuotes(c: char)
    requires c != NUL && c != '\n'
    ensures Tokens(['"', '\\', c, '"'])
            == Some([Word(if c == '$' || c == '`' || c == '"' || c == '\\' then [c] else ['\\', c], true)])
  {
    var kept := if c == '$' || c == '`' || c == '"' || c == '\\' then [c] else ['\\', c];
    var open, closing := Lexer([], Part("", true), Double), Lexer([], Part(kept, true), Double);
    assert Step(START, '"') == open;
    assert Step(open.(mode := DoubleEscape), c) == closing by { assert "" + kept == kept; }
    RunFour(START, '"', '\\', c, '"');
    assert [] + [Word(kept, true)] == [Word(kept, true)];
  }

  // ---------------------------------------------------------------- shellArg

  predicate NulFree(s: string) {
    NUL !in s
  }

  function EscapedChar(c: char): string {
    if c == '\'' then "'\\''" else [c]
  }

  /** strings.ReplaceAll(s, "'", `'\''`). */
  function Escaped(s: string): string {
    if s == "" then "" else EscapedChar(s[0]) + Escaped(s[1..])
  }

  function ShellArg(s: string): string {
    "'" + Escaped(s) + "'"
  }

  /** Out of the quotes, an escaped quote, and back. */
  lemma QuoteByQuote(l: Lexer)
    requires l.Lexer? && l.mode == Single && l.part.Part?
    ensures Run(l, "'\\''") == l.(part := With(l.part, "'", true))
  {
    var l1, l2 := l.(mode := Bare), l.(mode := BareEscape);
    var l3 := l.(part := With(l.part, "'", true), mode := Bare);
    assert Step(l, '\'') == l1 && Step(l1, '\\') == l2 && Step(l2, '\'') == l3;
    RunNext(l, '\'', "\\''");
    RunNext(l1, '\\', "''");
    RunNext(l2, '\'', "'");
    RunNext(l3, '\'', "");
  }

  lemma RunNext(l: Lexer, c: char, rest: string)
    ensures Run(l, [c] + rest) == Run(Step(l, c), rest)
  {
    assert ([c] + rest)[1..] == rest;
  }

  lemma QuoteStep(l: Lexer, c: char)
    requires l.Lexer? && l.mode == Single && c != NUL && l.part.Part?
    ensures Run(l, EscapedChar(c)) == l.(part := With(l.part, [c], true))
  {
    if c == '\'' {
      QuoteByQuote(l);
    } else {
      RunNext(l, c, "");
      assert [c] + "" == [c];
    }
  }

  lemma {:induction false} EscapedRun(l: Lexer, s: string)
    requires l.Lexer? && l.mode == Single && NulFree(s) && l.part.Part?
    ensures Run(l, Escaped(s)) == l.(part := With(l.part, s, true))
    decreases |s|
  {
    if s == "" {
    } else {
      RunConcat(l, EscapedChar(s[0]), Escaped(s[1..]));
      QuoteStep(l, s[0]);
      EscapedRun(l.(part := With(l.part, [s[0]], true)), s[1..]);
      Associate(l.part.text, [s[0]], s[1..]);
      assert s == [s[0]] + s[1..];
    }
  }

  lemma RunOne(l: Lexer, c: char)
    ensures Run(l, [c]) == Step(l, c)
  {
    assert [c][1..] == "";
    assert Run(Step(l, c), "") == Step(l, c);
  }

  /** Wherever the shell is reading unquoted text, a quoted string adds exactly that string to the current
      word, with nothing left to expand, and leaves the shell reading unquoted text. */
  lemma QuotedIsVerbatim(l: Lexer, s: string)
    requires l.Lexer? && l.mode == Bare && NulFree(s)
    ensures Run(l, ShellArg(s)) == l.(part := With(l.part, s, true))
  {
    var open := Step(l, '\'');
    RunConcat(l, "'", Escaped(s) + "'");
    assert "'" + (Escaped(s) + "'") == ShellArg(s);
    RunOne(l, '\'');
    RunConcat(open, Escaped(s), "'");
    EscapedRun(open, s);
    RunOne(open.(part := With(open.part, s, true)), '\'');
  }

  // ---------------------------------------------------------------- words and blanks

  predicate IsPlain(c: char) {
    c != NUL && c != '\'' && c != '"' && c != '\\' && c != ' ' && c != '\t' && c != '\n' && c != '#' && !IsOperator(c)
      && !Expands(c)
  }

  predicate IsPlainWord(w: string) {
    w != "" && forall k :: 0 <= k < |w| ==> IsPlain(w[k])
  }

  lemma {:induction false} PlainRun(l: Lexer, w: string)
    requires l.Lexer? && l.mode == Bare && IsPlainWord(w)
    ensures Run(l, w) == l.(part := With(l.part, w, true))
    decreases |w|
  {
    var next := l.(part := With(l.part, [w[0]], true));
    assert w == [w[0]] + w[1..];
    RunConcat(l, [w[0]], w[1..]);
    RunOne(l, w[0]);
    if w[1..] != "" {
      PlainRun(next, w[1..]);
      assert Opened(l.part).text + [w[0]] + w[1..] == Opened(l.part).text + w;
    } else {
      assert w == [w[0]];
    }
  }

  /** The shell between two words: nothing pending, no quote open. */
  function Between(tokens: seq<Token>): Lexer {
    Lexer(tokens, NoWord, Bare)
  }

  /** The text of words separated, and followed, by blanks. */
  function Spaced(words: seq<string>): string {
    if words == [] then "" else words[0] + " " + Spaced(words[1..])
  }

  function Literals(words: seq<string>): seq<Token> {
    seq(|words|, k requires 0 <= k < |words| => Word(words[k], true))
  }

  predicate ArePlainWords(words: seq<string>) {
    forall k :: 0 <= k < |words| ==> IsPlainWord(words[k])
  }

  lemma PlainThenBlank(tokens: seq<Token>, w: string)
    requires IsPlainWord(w)
    ensures Run(Between(tokens), w + " ") == Between(tokens + [Word(w, true)])
  {
    RunConcat(Between(tokens), w, " ");
    PlainRun(Between(tokens), w);
    RunOne(Run(Between(tokens), w), ' ');
    assert "" + w == w;
  }

  lemma {:induction false} SpacedRun(tokens: seq<Token>, words: seq<string>)
    requires ArePlainWords(words)
    ensures Run(Between(tokens), Spaced(words)) == Between(tokens + Literals(words))
    decreases |words|
  {
    if words == [] {
      assert tokens + Literals(words) == tokens;
    } else {
      RunConcat(Between(tokens), words[0] + " ", Spaced(words[1..]));
      PlainThenBlank(tokens, words[0]);
      SpacedRun(tokens + [Word(words[0], true)], words[1..]);
      assert tokens + [Word(words[0], true)] + Literals(words[1..]) == tokens + Literals(words);
    }
  }

  lemma QuotedRun(tokens: seq<Token>, s: string)
    requires NulFree(s)
    ensures Run(Between(tokens), ShellArg(s)) == Lexer(tokens, Part(s, true), Bare)
  {
    QuotedIsVerbatim(Between(tokens), s);
    assert "" + s == s;
  }

  /** A quoted string is one literal word, the string itself, whatever text follows after a delimiter. */
  lemma QuotedIsOneWord(tokens: seq<Token>, s: string, c: char, rest: string)
    requires NulFree(s) && (c == ' ' || c == '\t')
    ensures Run(Between(tokens), ShellArg(s) + [c] + rest) == Run(Between(tokens + [Word(s, true)]), rest)
  {
    RunConcat(Between(tokens), ShellArg(s) + [c], rest);
    RunConcat(Between(tokens), ShellArg(s), [c]);
    QuotedRun(tokens, s);
    RunOne(Lexer(tokens, Part(s, true), Bare), c);
  }

  lemma {:induction false} BadStaysBad(s: string)
    ensures Run(Bad, s) == Bad
    decreases |s|
  {
    if s == "" {
    } else {
      BadStaysBad(s[1..]);
    }
  }

  lemma {:induction false} NulIsFatal(l: Lexer, s: string)
    requires !NulFree(s)
    ensures Run(l, s) == Bad
    decreases |s|
  {
    if s[0] == NUL {
      BadStaysBad(s[1..]);
    } else {
      assert s == [s[0]] + s[1..];
      NulIsFatal(Step(l, s[0]), s[1..]);
    }
  }

  lemma {:induction false} EscapedKeepsNul(s: string)
    requires !NulFree(s)
    ensures !NulFree(Escaped(s))
  {
    if s[0] == NUL {
    } else {
      assert s == [s[0]] + s[1..];
      EscapedKeepsNul(s[1..]);
    }
  }

  /** Quoting is undone by the shell exactly for the strings an argument can hold. */
  lemma UnquotingExactlyWhenNulFree(s: string)
    ensures Tokens(ShellArg(s)) == Some([Word(s, true)]) <==> NulFree(s)
  {
    if NulFree(s) {
      QuotedRun([], s);
      assert [] + [Word(s, true)] == [Word(s, true)];
    } else {
      EscapedKeepsNul(s);
      var k :| 0 <= k < |Escaped(s)| && Escaped(s)[k] == NUL;
      assert ShellArg(s)[k + 1] == NUL;
      NulIsFatal(START, ShellArg(s));
    }
  }

  // ---------------------------------------------------------------- nested shells

  function ShC(script: string): string {
    "sh -c " + ShellArg(script)
  }

  /** A command of plain words and one quoted argument. */
  lemma CommandTokens(tokens: seq<Token>, words: seq<string>, s: string)
    requires ArePlainWords(words) && NulFree(s)
    ensures Run(Between(tokens), Spaced(words) + ShellArg(s)) == Lexer(tokens + Literals(words), Part(s, true), Bare)
  {
    RunConcat(Between(tokens), Spaced(words), ShellArg(s));
    SpacedRun(tokens, words);
    QuotedRun(tokens + Literals(words), s);
  }

  const SH_C: seq<string> := ["sh", "-c"]

  lemma SpacedShC()
    ensures ArePlainWords(SH_C) && Spaced(SH_C) == "sh -c " && Literals(SH_C) == [Word("sh", true), Word("-c", true)]
  {
    assert SH_C[1..] == ["-c"] && SH_C[1..][1..] == [];
    assert Spaced(SH_C[1..]) == "-c ";
  }

  /** sh -c receives the script as its single argument, character for character. */
  lemma ShCPassesScript(script: string)
    requires NulFree(script)
    ensures Tokens(ShC(script)) == Some([Word("sh", true), Word("-c", true), Word(script, true)])
  {
    SpacedShC();
    CommandTokens([], SH_C, script);
    var tokens := [Word("sh", true), Word("-c", true), Word(script, true)];
    assert [] + Literals(SH_C) + [Word(script, true)] == tokens;
  }

  function Nested(n: nat, script: string): string {
    if n == 0 then script else ShC(Nested(n - 1, script))
  }

  /** What the innermost of n shells is given to run. */
  function Unnested(n: nat, command: string): Option<string> {
    if n == 0 then Some(command) else
      match Tokens(command)
      case None => None
      case Some(ts) =>
        if |ts| == 3 && ts[0] == Word("sh", true) && ts[1] == Word("-c", true) && ts[2].Word? && ts[2].literal
        then Unnested(n - 1, ts[2].text) else None
  }

  lemma {:induction false} EscapedIsNulFree(s: string)
    requires NulFree(s)
    ensures NulFree(ShellArg(s)) && NulFree(Escaped(s))
  {
    if s == "" {
    } else {
      EscapedIsNulFree(s[1..]);
    }
  }

  lemma {:induction false} NestedIsNulFree(n: nat, script: string)
    requires NulFree(script)
    ensures NulFree(Nested(n, script))
  {
    if n == 0 {
    } else {
      NestedIsNulFree(n - 1, script);
      EscapedIsNulFree(Nested(n - 1, script));
    }
  }

  /** n-fold quoting is undone by n shells, for every depth. */
  lemma {:induction false} NestingIsUndone(n: nat, script: string)
    requires NulFree(script)
    ensures Unnested(n, Nested(n, script)) == Some(script)
  {
    if n == 0 {
    } else {
      NestedIsNulFree(n - 1, script);
      ShCPassesScript(Nested(n - 1, script));
      NestingIsUndone(n - 1, script);
    }
  }

  // ---------------------------------------------------------------- the scripts around the quoted arguments

  /** A piece of script text: an unquoted word (perhaps empty), a quoted string or a quoted variable, each
      with the blank, newline or operator that ends it. */
  datatype Piece = Plain(word: string, end: char) | Quote(text: string, end: char) | Var(name: string, end: char)

  predicate IsPiece(p: Piece) {
    && (p.end == ' ' || p.end == '\n' || IsOperator(p.end))
    && match p
       case Plain(word, _) => word == "" || IsPlainWord(word)
       case Quote(text, _) => NulFree(text)
       case Var(name, _) => IsPlainWord(name)
  }

  function PieceBody(p: Piece): string {
    match p case Plain(word, _) => word case Quote(text, _) => ShellArg(text) case Var(name, _) => "\"$" + name + "\""
  }

  function PieceWord(p: Piece): seq<Token> {
    match p
    case Plain(word, _) => if word == "" then [] else [Word(word, true)]
    case Quote(text, _) => [Word(text, true)]
    case Var(name, _) => [Word("$" + name, false)]
  }

  function Ending(c: char): seq<Token> {
    if c == ' ' then [] else if c == '\n' then [Newline] else [Operator(c)]
  }

  function PieceText(p: Piece): string {
    PieceBody(p) + [p.end]
  }

  function PieceTokens(p: Piece): seq<Token> {
    PieceWord(p) + Ending(p.end)
  }

  lemma DoubleQuotedRun(tokens: seq<Token>, name: string)
    requires IsPlainWord(name)
    ensures Run(Between(tokens), "\"$" + name + "\"") == Lexer(tokens, Part("$" + name, false), Bare)
  {
    var open := Lexer(tokens, Part("", true), Double);
    RunOne(Between(tokens), '"');
    RunConcat(Between(tokens), "\"", "$" + name + "\"");
    assert "\"" + ("$" + name + "\"") == "\"$" + name + "\"";
    RunOne(open, '$');
    assert "" + "$" == "$";
    RunConcat(open, "$", name + "\"");
    assert "$" + (name + "\"") == "$" + name + "\"";
    InDoubleQuotes(tokens, "$", name);
    RunConcat(Lexer(tokens, Part("$", false), Double), name, "\"");
    RunOne(Lexer(tokens, Part("$" + name, false), Double), '"');
  }

  lemma {:induction false} InDoubleQuotes(tokens: seq<Token>, before: string, w: string)
    requires forall k :: 0 <= k < |w| ==> IsPlain(w[k])
    ensures Run(Lexer(tokens, Part(before, false), Double), w) == Lexer(tokens, Part(before + w, false), Double)
    decreases |w|
  {
    if w == "" {
      assert before + w == before;
    } else {
      InDoubleQuotes(tokens, before + [w[0]], w[1..]);
      assert before + [w[0]] + w[1..] == before + w;
    }
  }

  lemma BodyRun(tokens: seq<Token>, p: Piece)
    requires IsPiece(p)
    ensures var l := Run(Between(tokens), PieceBody(p));
            l.Lexer? && l.mode == Bare && AllTokens(l) == tokens + PieceWord(p)
  {
    match p
    case Plain(word, _) => if word != "" { PlainRun(Between(tokens), word); assert "" + word == word; }
    case Quote(text, _) => QuotedRun(tokens, text);
    case Var(name, _) => DoubleQuotedRun(tokens, name);
  }

  lemma EndRun(l: Lexer, c: char)
    requires l.Lexer? && l.mode == Bare && (c == ' ' || c == '\n' || IsOperator(c))
    ensures Run(l, [c]) == Between(AllTokens(l) + Ending(c))
  {
    RunOne(l, c);
  }

  lemma PieceRun(tokens: seq<Token>, p: Piece)
    requires IsPiece(p)
    ensures Run(Between(tokens), PieceText(p)) == Between(tokens + PieceTokens(p))
  {
    RunConcat(Between(tokens), PieceBody(p), [p.end]);
    BodyRun(tokens, p);
    EndRun(Run(Between(tokens), PieceBody(p)), p.end);
    assert tokens + PieceWord(p) + Ending(p.end) == tokens + PieceTokens(p);
  }

  /** Three pieces of script text and the tokens they stand for. */
  predicate Reads(a: Piece, b: Piece, c: Piece, text: string, tokens: seq<Token>) {
    && IsPiece(a) && IsPiece(b) && IsPiece(c)
    && text == PieceText(a) + PieceText(b) + PieceText(c)
    && tokens == PieceTokens(a) + PieceTokens(b) + PieceTokens(c)
  }

  lemma ReadPiece(before: seq<Token>, p: Piece, rest: string)
    requires IsPiece(p)
    ensures Run(Between(before), PieceText(p) + rest) == Run(Between(before + PieceTokens(p)), rest)
  {
    RunConcat(Between(before), PieceText(p), rest);
    PieceRun(before, p);
  }

  lemma ReadThree(before: seq<Token>, a: Piece, b: Piece, c: Piece, text: string, tokens: seq<Token>, rest: string)
    requires Reads(a, b, c, text, tokens)
    ensures Run(Between(before), text + rest) == Run(Between(before + tokens), rest)
  {
    ThreeTexts(PieceText(a), PieceText(b), PieceText(c), rest);
    ThreeTexts(before, PieceTokens(a), PieceTokens(b), PieceTokens(c));
    ReadPiece(before, a, PieceText(b) + (PieceText(c) + rest));
    ReadPiece(before + PieceTokens(a), b, PieceText(c) + rest);
    ReadPiece(before + PieceTokens(a) + PieceTokens(b), c, rest);
  }

  lemma EmptyFirst<T>(a: seq<T>)
    ensures [] + a == a
  {
  }

  lemma FiveTexts<T>(a: seq<T>, b: seq<T>, c: seq<T>, d: seq<T>, e: seq<T>)
    ensures a + b + c + d + e == a + (b + (c + (d + e)))
  {
  }

  lemma ThreeTexts<T>(a: seq<T>, b: seq<T>, c: seq<T>, d: seq<T>)
    ensures a + b + c + d == a + (b + (c + d)) && a + b + c + d == a + (b + c + d)
  {
  }

  // ---------------------------------------------------------------- wrapSudo

  const READ_PW := "read -r PW\n"
  const PRINTF := "printf "
  const FORMAT := "'%s\\n' "
  const PASSWORD := "\"$PW\" "
  const PRINT_PW := PRINTF + FORMAT + PASSWORD
  const PIPE_SUDO := "| sudo "
  const SUDO_ARGS := "-S sh -c "

  /** The command text, and what is sent on standard input. */
  function WrapSudo(pw: string, cmd: string): (string, Option<string>) {
    if pw == "" then (cmd, None)
    else (ShC(SudoScript(cmd)), Some(pw + "\n"))
  }

  const PW_TOKENS: seq<Token> := [Word("read", true), Word("-r", true), Word("PW", true), Newline]
  const PRINT_TOKENS: seq<Token> := [Word("printf", true), Word("%s\\n", true), Word("$PW", false)]
  const PIPE_TOKENS: seq<Token> := [Operator('|'), Word("sudo", true)]
  const ARGS_TOKENS: seq<Token> := [Word("-S", true), Word("sh", true), Word("-c", true)]

  lemma ReadPW(before: seq<Token>, rest: string)
    ensures Run(Between(before), READ_PW + rest) == Run(Between(before + PW_TOKENS), rest)
  {
    assert Reads(Plain("read", ' '), Plain("-r", ' '), Plain("PW", '\n'), READ_PW, PW_TOKENS);
    ReadThree(before, Plain("read", ' '), Plain("-r", ' '), Plain("PW", '\n'), READ_PW, PW_TOKENS, rest);
  }

  lemma FormatIsQuoted()
    ensures ShellArg("%s\\n") == "'%s\\n'"
  {
    var s := "%s\\n";
    assert s[1..] == "s\\n" && s[1..][1..] == "\\n" && s[1..][1..][1..] == "n" && s[1..][1..][1..][1..] == "";
  }

  lemma FormatText()
    ensures PieceText(Quote("%s\\n", ' ')) == FORMAT
  {
    FormatIsQuoted();
  }

  lemma PasswordText()
    ensures PieceText(Var("PW", ' ')) == PASSWORD
  {
  }

  lemma PrintText()
    ensures PRINT_PW == PieceText(Plain("printf", ' ')) + PieceText(Quote("%s\\n", ' ')) + PieceText(Var("PW", ' '))
  {
    assert PieceText(Plain("printf", ' ')) == PRINTF;
    FormatText();
    PasswordText();
  }

  lemma PrintIsPieces()
    ensures IsPiece(Plain("printf", ' ')) && IsPiece(Quote("%s\\n", ' ')) && IsPiece(Var("PW", ' '))
  {
    assert NulFree("%s\\n");
  }

  lemma PrintTokens()
    ensures PRINT_TOKENS
            == PieceTokens(Plain("printf", ' ')) + PieceTokens(Quote("%s\\n", ' ')) + PieceTokens(Var("PW", ' '))
  {
    assert "$" + "PW" == "$PW";
    assert PieceTokens(Plain("printf", ' ')) == [Word("printf", true)];
    assert PieceTokens(Quote("%s\\n", ' ')) == [Word("%s\\n", true)];
    assert PieceTokens(Var("PW", ' ')) == [Word("$PW", false)];
  }

  lemma PrintReads()
    ensures Reads(Plain("printf", ' '), Quote("%s\\n", ' '), Var("PW", ' '), PRINT_PW, PRINT_TOKENS)
  {
    PrintText();
    PrintIsPieces();
    PrintTokens();
  }

  lemma PrintPW(before: seq<Token>, rest: string)
    ensures Run(Between(before), PRINT_PW + rest) == Run(Between(before + PRINT_TOKENS), rest)
  {
    PrintReads();
    ReadThree(before, Plain("printf", ' '), Quote("%s\\n", ' '), Var("PW", ' '), PRINT_PW, PRINT_TOKENS, rest);
  }

  lemma PipeSudo(before: seq<Token>, rest: string)
    ensures Run(Between(before), PIPE_SUDO + rest) == Run(Between(before + PIPE_TOKENS), rest)
  {
    assert Reads(Plain("", '|'), Plain("", ' '), Plain("sudo", ' '), PIPE_SUDO, PIPE_TOKENS);
    ReadThree(before, Plain("", '|'), Plain("", ' '), Plain("sudo", ' '), PIPE_SUDO, PIPE_TOKENS, rest);
  }

  lemma SudoArgs(before: seq<Token>, rest: string)
    ensures Run(Between(before), SUDO_ARGS + rest) == Run(Between(before + ARGS_TOKENS), rest)
  {
    assert Reads(Plain("-S", ' '), Plain("sh", ' '), Plain("-c", ' '), SUDO_ARGS, ARGS_TOKENS);
    ReadThree(before, Plain("-S", ' '), Plain("sh", ' '), Plain("-c", ' '), SUDO_ARGS, ARGS_TOKENS, rest);
  }

  function SudoScript(cmd: string): string {
    READ_PW + PRINT_PW + PIPE_SUDO + SUDO_ARGS + ShellArg(cmd)
  }

  /** Inside the script, sudo's shell is given the whole of cmd as one argument, however many commands it
      holds, and nothing but the password variable is expanded. */
  lemma SudoScriptPassesCommand(cmd: string)
    requires NulFree(cmd)
    ensures Tokens(SudoScript(cmd)) == Some(PW_TOKENS + PRINT_TOKENS + PIPE_TOKENS + ARGS_TOKENS + [Word(cmd, true)])
  {
    var q := ShellArg(cmd);
    FiveTexts(READ_PW, PRINT_PW, PIPE_SUDO, SUDO_ARGS, q);
    ReadPW([], PRINT_PW + (PIPE_SUDO + (SUDO_ARGS + q)));
    EmptyFirst(PW_TOKENS);
    PrintPW(PW_TOKENS, PIPE_SUDO + (SUDO_ARGS + q));
    PipeSudo(PW_TOKENS + PRINT_TOKENS, SUDO_ARGS + q);
    SudoArgs(PW_TOKENS + PRINT_TOKENS + PIPE_TOKENS, q);
    QuotedRun(PW_TOKENS + PRINT_TOKENS + PIPE_TOKENS + ARGS_TOKENS, cmd);
  }

  lemma SudoScriptIsNulFree(cmd: string)
    requires NulFree(cmd)
    ensures NulFree(SudoScript(cmd))
  {
    EscapedIsNulFree(cmd);
  }

  /** wrapSudo: without a password the command goes out as it is. With one, the remote shell hands the
      script to sh -c unchanged, the script hands cmd to sudo's shell as a single argument, and the password
      travels on standard input only: the command text is the same for every password. */
  lemma WrapSudoPassesCommand(pw: string, cmd: string)
    requires NulFree(cmd)
    ensures pw == "" ==> WrapSudo(pw, cmd) == (cmd, None)
    ensures pw != "" ==>
              && WrapSudo(pw, cmd).1 == Some(pw + "\n")
              && Tokens(WrapSudo(pw, cmd).0) == Some([Word("sh", true), Word("-c", true), Word(SudoScript(cmd), true)])
              && Tokens(SudoScript(cmd))
                == Some(PW_TOKENS + PRINT_TOKENS + PIPE_TOKENS + ARGS_TOKENS + [Word(cmd, true)])
              && forall other :: other != "" ==> WrapSudo(other, cmd).0 == WrapSudo(pw, cmd).0
  {
    SudoScriptPassesCommand(cmd);
    SudoScriptIsNulFree(cmd);
    ShCPassesScript(SudoScript(cmd));
  }

  // ---------------------------------------------------------------- probeCommand

  function Text(pieces: seq<Piece>): string {
    if pieces == [] then "" else PieceText(pieces[0]) + Text(pieces[1..])
  }

  function TokensOf(pieces: seq<Piece>): seq<Token> {
    if pieces == [] then [] else PieceTokens(pieces[0]) + TokensOf(pieces[1..])
  }

  predicate ArePieces(pieces: seq<Piece>) {
    forall k :: 0 <= k < |pieces| ==> IsPiece(pieces[k])
  }

  /** Script text made of pieces is lexed piece by piece. */
  lemma {:induction false} TextRun(before: seq<Token>, pieces: seq<Piece>, rest: string)
    requires ArePieces(pieces)
    ensures Run(Between(before), Text(pieces) + rest) == Run(Between(before + TokensOf(pieces)), rest)
    decreases |pieces|
  {
    if pieces == [] {
      assert before + TokensOf(pieces) == before && Text(pieces) + rest == rest;
    } else {
      var head, tail := pieces[0], pieces[1..];
      Associate(PieceText(head), Text(tail), rest);
      Associate(before, PieceTokens(head), TokensOf(tail));
      ReadPiece(before, head, Text(tail) + rest);
      TextRun(before + PieceTokens(head), tail, rest);
    }
  }

  /** `>/dev/null 2>&1; ` */
  const QUIET: seq<Piece> :=
    [Plain("", '>'), Plain("/dev/null", ' '), Plain("2", '>'), Plain("", '&'), Plain("1", ';'), Plain("", ' ')]

  /** `if sudo -n -l sh ` */
  const IF_SUDO: seq<Piece> :=
    [Plain("if", ' '), Plain("sudo", ' '), Plain("-n", ' '), Plain("-l", ' '), Plain("sh", ' ')]

  /** The function that feeds the variable to sudo, and its two uses. */
  const READ: seq<Piece> := [Plain("read", ' '), Plain("-r", ' '), Plain("PW", '\n')]
  const FEED: seq<Piece> := [
    Plain("feed", '('), Plain("", ')'), Plain("", ' '), Plain("{", ' '), Plain("printf", ' '), Quote("%s\\n", ' '),
    Var("PW", ';'), Plain("", ' '), Plain("}", '\n')]
  const FED_SUDO: seq<Piece> := [
    Plain("feed", ' '), Plain("", '|'), Plain("", ' '), Plain("sudo", ' '), Plain("-S", ' '), Plain("-p", ' '),
    Quote("", ' ')]

  function Argument(s: string): seq<Piece> {
    [Plain("sh", ' '), Plain("-c", ' '), Quote(s, ';'), Plain("", ' ')]
  }

  /** Without a sudo password: sudo's shell with the privileged script, or else the locked one. */
  function TrySudo(priv: string, locked: string): seq<Piece> {
    IF_SUDO + QUIET + [Plain("then", ' '), Plain("sudo", ' '), Plain("-n", ' ')] + Argument(priv) + [Plain("else", ' ')]
      + Argument(locked)
  }

  /** With one. */
  function FeedSudo(priv: string, locked: string): seq<Piece> {
    READ + FEED + [Plain("if", ' ')] + FED_SUDO + [Plain("-l", ' '), Plain("sh", ' ')] + QUIET
    + [Plain("then", ' ')] + FED_SUDO + Argument(priv) + [Plain("else", ' ')] + Argument(locked)
  }

  lemma QuietPieces()
    ensures ArePieces(QUIET)
  {
    DevNull();
    OneDigit();
  }

  lemma DevNull()
    ensures IsPlainWord("/dev/null")
  {
  }

  lemma OneDigit()
    ensures IsPlainWord("1") && IsPlainWord("2")
  {
  }

  lemma IfSudoPieces()
    ensures ArePieces(IF_SUDO)
  {
    SudoWords();
    ThenSudoWords();
  }

  lemma ReadWords()
    ensures IsPlainWord("read") && IsPlainWord("-r") && IsPlainWord("PW")
  {
  }

  lemma ReadPieces()
    ensures ArePieces(READ)
  {
    ReadWords();
  }

  lemma FeedPieces()
    ensures ArePieces(FEED)
  {
    assert NulFree("%s\\n");
  }

  lemma SudoWords()
    ensures IsPlainWord("feed") && IsPlainWord("sudo") && IsPlainWord("-S") && IsPlainWord("-p") && NulFree("")
  {
  }

  lemma FedSudoPieces()
    ensures ArePieces(FED_SUDO)
  {
    SudoWords();
  }

  lemma ArgumentPieces(s: string)
    requires NulFree(s)
    ensures ArePieces(Argument(s))
  {
  }

  /** priv and locked are the privileged and the unprivileged probe scripts; for root only the latter is used. */
  function ProbeCommand(user: string, pw: string, priv: string, locked: string): (string, Option<string>) {
    if user == "root" then (ShC(locked), None)
    else if pw == "" then (Text(TrySudo(priv, locked)) + "fi", None)
    else (ShC(Text(FeedSudo(priv, locked)) + "fi"), Some(pw + "\n"))
  }

  lemma PiecesThenFi(pieces: seq<Piece>)
    requires ArePieces(pieces)
    ensures Tokens(Text(pieces) + "fi") == Some(TokensOf(pieces) + [Word("fi", true)])
  {
    assert IsPlainWord("fi") by { assert "fi"[0] == 'f' && "fi"[1] == 'i'; }
    TextRun([], pieces, "fi");
    assert [] + TokensOf(pieces) == TokensOf(pieces);
    PlainRun(Between(TokensOf(pieces)), "fi");
    assert "" + "fi" == "fi";
  }

  lemma {:induction false} TextIsNulFree(pieces: seq<Piece>)
    requires ArePieces(pieces)
    ensures NulFree(Text(pieces))
  {
    if pieces == [] {
    } else {
      TextIsNulFree(pieces[1..]);
      if pieces[0].Quote? { EscapedIsNulFree(pieces[0].text); }
    }
  }

  lemma Joined(a: seq<Piece>, b: seq<Piece>, c: seq<Piece>, d: seq<Piece>, e: seq<Piece>, f: seq<Piece>)
    requires ArePieces(a) && ArePieces(b) && ArePieces(c) && ArePieces(d) && ArePieces(e) && ArePieces(f)
    ensures ArePieces(a + b + c + d + e + f)
  {
  }

  lemma ThenSudoWords()
    ensures IsPlainWord("then") && IsPlainWord("-n")
  {
  }

  lemma ThenSudoPieces()
    ensures ArePieces([Plain("then", ' '), Plain("sudo", ' '), Plain("-n", ' ')])
  {
    SudoWords();
    ThenSudoWords();
  }

  lemma SmallPieces()
    ensures ArePieces([Plain("if", ' ')]) && ArePieces([Plain("then", ' ')]) && ArePieces([Plain("else", ' ')])
    ensures ArePieces([Plain("-l", ' '), Plain("sh", ' ')])
  {
  }

  lemma TrySudoPieces(priv: string, locked: string)
    requires NulFree(priv) && NulFree(locked)
    ensures ArePieces(TrySudo(priv, locked))
  {
    QuietPieces();
    IfSudoPieces();
    ThenSudoPieces();
    SmallPieces();
    ArgumentPieces(priv);
    ArgumentPieces(locked);
    Joined(IF_SUDO, QUIET, [Plain("then", ' '), Plain("sudo", ' '), Plain("-n", ' ')], Argument(priv),
           [Plain("else", ' ')], Argument(locked));
  }

  lemma FeedSudoPieces(priv: string, locked: string)
    requires NulFree(priv) && NulFree(locked)
    ensures ArePieces(FeedSudo(priv, locked))
  {
    ReadPieces();
    FeedPieces();
    FedSudoPieces();
    QuietPieces();
    SmallPieces();
    ArgumentPieces(priv);
    ArgumentPieces(locked);
    var head := READ + FEED + [Plain("if", ' ')] + FED_SUDO + [Plain("-l", ' '), Plain("sh", ' ')] + QUIET;
    Joined(READ, FEED, [Plain("if", ' ')], FED_SUDO, [Plain("-l", ' '), Plain("sh", ' ')], QUIET);
    Joined(head, [Plain("then", ' ')], FED_SUDO, Argument(priv), [Plain("else", ' ')], Argument(locked));
  }

  lemma PiecesInShC(pieces: seq<Piece>)
    requires ArePieces(pieces)
    ensures Tokens(ShC(Text(pieces) + "fi"))
            == Some([Word("sh", true), Word("-c", true), Word(Text(pieces) + "fi", true)])
  {
    TextIsNulFree(pieces);
    ShCPassesScript(Text(pieces) + "fi");
  }

  // ---------------------------------------------------------------- what the shells are told to do

  lemma {:induction false} TokensOfBoth(a: seq<Piece>, b: seq<Piece>)
    ensures TokensOf(a + b) == TokensOf(a) + TokensOf(b)
  {
    if a == [] {
      assert a + b == b;
    } else {
      assert (a + b)[1..] == a[1..] + b;
      TokensOfBoth(a[1..], b);
    }
  }

  lemma TokensOfSix(a: seq<Piece>, b: seq<Piece>, c: seq<Piece>, d: seq<Piece>, e: seq<Piece>, f: seq<Piece>)
    ensures TokensOf(a + b + c + d + e + f)
            == TokensOf(a) + TokensOf(b) + TokensOf(c) + TokensOf(d) + TokensOf(e) + TokensOf(f)
  {
    TokensOfBoth(a, b);
    TokensOfBoth(a + b, c);
    TokensOfBoth(a + b + c, d);
    TokensOfBoth(a + b + c + d, e);
    TokensOfBoth(a + b + c + d + e, f);
  }

  /** `>/dev/null 2>&1;` */
  function Quietly(): seq<Token> {
    [Operator('>'), Word("/dev/null", true), Word("2", true), Operator('>'), Operator('&'), Word("1", true),
     Operator(';')]
  }

  /** `feed | sudo -S -p ''` */
  function FedSudo(): seq<Token> {
    [Word("feed", true), Operator('|')] + [Word("sudo", true), Word("-S", true), Word("-p", true)] + [Word("", true)]
  }

  /** A shell with this script as its only argument. */
  function Shell(script: string): seq<Token> {
    [Word("sh", true), Word("-c", true), Word(script, true), Operator(';')]
  }

  /** If sudo allows it without a password, sudo's shell runs priv; otherwise the user's shell runs locked. */
  function WithoutPassword(priv: string, locked: string): seq<Token> {
    [Word("if", true), Word("sudo", true), Word("-n", true), Word("-l", true), Word("sh", true)] + Quietly()
    + [Word("then", true), Word("sudo", true), Word("-n", true)] + Shell(priv)
    + [Word("else", true)] + Shell(locked) + [Word("fi", true)]
  }

  /** `read -r PW`, and the function that prints the variable. */
  function Preamble(): seq<Token> {
    [Word("read", true), Word("-r", true), Word("PW", true), Newline]
    + FeedFunction()
  }

  /** `feed() { printf '%s\n' "$PW"; }` */
  function FeedFunction(): seq<Token> {
    [Word("feed", true), Operator('('), Operator(')')] + [Word("{", true), Word("printf", true), Word("%s\\n", true)]
    + [Word("$PW", false), Operator(';'), Word("}", true), Newline]
  }

  /** The same, with the password that was read fed to each sudo. */
  function WithPassword(priv: string, locked: string): seq<Token> {
    Preamble() + [Word("if", true)] + FedSudo() + [Word("-l", true), Word("sh", true)] + Quietly()
    + [Word("then", true)] + FedSudo() + Shell(priv) + [Word("else", true)] + Shell(locked) + [Word("fi", true)]
  }

  lemma TokensOfOne(p: Piece)
    ensures TokensOf([p]) == PieceTokens(p)
  {
    assert [p][1..] == [];
  }

  lemma TokensOfThree(p: Piece, q: Piece, r: Piece)
    ensures TokensOf([p, q, r]) == PieceTokens(p) + PieceTokens(q) + PieceTokens(r)
  {
    assert [p, q, r] == [p] + [q] + [r];
    TokensOfBoth([p] + [q], [r]);
    TokensOfBoth([p], [q]);
    TokensOfOne(p);
    TokensOfOne(q);
    TokensOfOne(r);
  }

  lemma QuietTokens()
    ensures TokensOf(QUIET) == Quietly()
  {
    var a := [Plain("", '>'), Plain("/dev/null", ' '), Plain("2", '>')];
    var b := [Plain("", '&'), Plain("1", ';'), Plain("", ' ')];
    assert QUIET == a + b;
    TokensOfBoth(a, b);
    TokensOfThree(a[0], a[1], a[2]);
    TokensOfThree(b[0], b[1], b[2]);
  }

  lemma IfSudoTokens()
    ensures TokensOf(IF_SUDO)
            == [Word("if", true), Word("sudo", true), Word("-n", true), Word("-l", true), Word("sh", true)]
  {
  }

  lemma FedSudoTokens()
    ensures TokensOf(FED_SUDO) == FedSudo()
  {
    var a := [Plain("feed", ' '), Plain("", '|'), Plain("", ' ')];
    var b := [Plain("sudo", ' '), Plain("-S", ' '), Plain("-p", ' ')];
    assert FED_SUDO == a + b + [Quote("", ' ')];
    TokensOfBoth(a, b);
    TokensOfBoth(a + b, [Quote("", ' ')]);
    FedSudoParts();
  }

  lemma FedSudoParts()
    ensures TokensOf([Plain("feed", ' '), Plain("", '|'), Plain("", ' ')]) == [Word("feed", true), Operator('|')]
    ensures TokensOf([Plain("sudo", ' '), Plain("-S", ' '), Plain("-p", ' ')])
            == [Word("sudo", true), Word("-S", true), Word("-p", true)]
    ensures TokensOf([Quote("", ' ')]) == [Word("", true)]
  {
    TokensOfThree(Plain("feed", ' '), Plain("", '|'), Plain("", ' '));
    TokensOfThree(Plain("sudo", ' '), Plain("-S", ' '), Plain("-p", ' '));
    TokensOfOne(Quote("", ' '));
  }

  lemma ShellTokens(script: string)
    ensures TokensOf(Argument(script)) == Shell(script)
  {
    assert Argument(script) == [Plain("sh", ' '), Plain("-c", ' '), Quote(script, ';')] + [Plain("", ' ')];
    TokensOfBoth([Plain("sh", ' '), Plain("-c", ' '), Quote(script, ';')], [Plain("", ' ')]);
    TokensOfThree(Plain("sh", ' '), Plain("-c", ' '), Quote(script, ';'));
    TokensOfOne(Plain("", ' '));
  }

  lemma ReadTokens()
    ensures TokensOf(READ) == [Word("read", true), Word("-r", true), Word("PW", true), Newline]
  {
    TokensOfThree(Plain("read", ' '), Plain("-r", ' '), Plain("PW", '\n'));
    assert PieceTokens(Plain("read", ' ')) == [Word("read", true)];
    assert PieceTokens(Plain("-r", ' ')) == [Word("-r", true)];
    assert PieceTokens(Plain("PW", '\n')) == [Word("PW", true), Newline];
  }

  lemma FeedTokens()
    ensures TokensOf(FEED) == FeedFunction()
  {
    var a := [Plain("feed", '('), Plain("", ')'), Plain("", ' ')];
    var b := [Plain("{", ' '), Plain("printf", ' '), Quote("%s\\n", ' ')];
    var c := [Var("PW", ';'), Plain("", ' '), Plain("}", '\n')];
    assert FEED == a + b + c;
    TokensOfBoth(a + b, c);
    TokensOfBoth(a, b);
    FeedParts();
  }

  lemma FeedParts()
    ensures TokensOf([Plain("feed", '('), Plain("", ')'), Plain("", ' ')])
            == [Word("feed", true), Operator('('), Operator(')')]
    ensures TokensOf([Plain("{", ' '), Plain("printf", ' '), Quote("%s\\n", ' ')])
            == [Word("{", true), Word("printf", true), Word("%s\\n", true)]
    ensures TokensOf([Var("PW", ';'), Plain("", ' '), Plain("}", '\n')])
            == [Word("$PW", false), Operator(';'), Word("}", true), Newline]
  {
    TokensOfThree(Plain("feed", '('), Plain("", ')'), Plain("", ' '));
    TokensOfThree(Plain("{", ' '), Plain("printf", ' '), Quote("%s\\n", ' '));
    TokensOfThree(Var("PW", ';'), Plain("", ' '), Plain("}", '\n'));
    assert "$" + "PW" == "$PW";
    assert PieceTokens(Var("PW", ';')) == [Word("$PW", false), Operator(';')];
    assert PieceTokens(Plain("}", '\n')) == [Word("}", true), Newline];
  }

  lemma FewTokens()
    ensures TokensOf([Plain("if", ' ')]) == [Word("if", true)] && TokensOf([Plain("then", ' ')]) == [Word("then", true)]
    ensures TokensOf([Plain("else", ' ')]) == [Word("else", true)]
    ensures TokensOf([Plain("-l", ' '), Plain("sh", ' ')]) == [Word("-l", true), Word("sh", true)]
    ensures TokensOf([Plain("then", ' '), Plain("sudo", ' '), Plain("-n", ' ')])
            == [Word("then", true), Word("sudo", true), Word("-n", true)]
  {
  }

  lemma WithoutPasswordTokens(priv: string, locked: string)
    ensures TokensOf(TrySudo(priv, locked)) + [Word("fi", true)] == WithoutPassword(priv, locked)
  {
    TokensOfSix(IF_SUDO, QUIET, [Plain("then", ' '), Plain("sudo", ' '), Plain("-n", ' ')], Argument(priv),
                [Plain("else", ' ')], Argument(locked));
    IfSudoTokens();
    QuietTokens();
    FewTokens();
    ShellTokens(priv);
    ShellTokens(locked);
  }

  lemma HeadTokens()
    ensures TokensOf(READ + FEED + [Plain("if", ' ')] + FED_SUDO + [Plain("-l", ' '), Plain("sh", ' ')] + QUIET)
            == Preamble() + [Word("if", true)] + FedSudo() + [Word("-l", true), Word("sh", true)] + Quietly()
  {
    TokensOfSix(READ, FEED, [Plain("if", ' ')], FED_SUDO, [Plain("-l", ' '), Plain("sh", ' ')], QUIET);
    ReadTokens();
    FeedTokens();
    FedSudoTokens();
    QuietTokens();
    FewTokens();
  }

  lemma WithPasswordTokens(priv: string, locked: string)
    ensures TokensOf(FeedSudo(priv, locked)) + [Word("fi", true)] == WithPassword(priv, locked)
  {
    TokensOfSix(READ + FEED + [Plain("if", ' ')] + FED_SUDO + [Plain("-l", ' '), Plain("sh", ' ')] + QUIET,
                [Plain("then", ' ')], FED_SUDO, Argument(priv), [Plain("else", ' ')], Argument(locked));
    HeadTokens();
    FedSudoTokens();
    FewTokens();
    ShellTokens(priv);
    ShellTokens(locked);
  }

  /** probeCommand: for each kind of account, sudo's shell receives the privileged script and the user's the
      locked one as single arguments of their sh -c, unchanged; the password goes to standard input only. */
  lemma ProbeCommandPassesScripts(user: string, pw: string, priv: string, locked: string)
    requires NulFree(priv) && NulFree(locked)
    ensures var (command, stdin) := ProbeCommand(user, pw, priv, locked);
            if user == "root" then
              stdin == None && Tokens(command) == Some([Word("sh", true), Word("-c", true), Word(locked, true)])
            else if pw == "" then
              stdin == None && Tokens(command) == Some(WithoutPassword(priv, locked))
            else
              var script := Text(FeedSudo(priv, locked)) + "fi";
              && stdin == Some(pw + "\n")
              && Tokens(command) == Some([Word("sh", true), Word("-c", true), Word(script, true)])
              && Tokens(script) == Some(WithPassword(priv, locked))
  {
    TrySudoPieces(priv, locked);
    FeedSudoPieces(priv, locked);
    ShCPassesScript(locked);
    PiecesThenFi(TrySudo(priv, locked));
    PiecesThenFi(FeedSudo(priv, locked));
    PiecesInShC(FeedSudo(priv, locked));
    WithoutPasswordTokens(priv, locked);
    WithPasswordTokens(priv, locked);
  }
}
