/** Quoting for the Android shell (`openadb/core/path_utils.py`, `shell_quote`;
    `openadb/core/adb.py`, `root_shell_script`), against the token recognition of a POSIX shell
    (IEEE Std 1003.1, XCU sections 2.2 and 2.3). */
module ShellQuote {
  import opened Wrappers

  const QUOTE: char := '\''
  const BACKSLASH: char := '\\'
  const NUL: char := '\0'

  // ---------------------------------------------------------------- the program's side

  /** `value.replace("'", "'\\''")` */
  function Escaped(value: string): string {
    if value == [] then [] else (if value[0] == QUOTE then "'\\''" else [value[0]]) + Escaped(value[1..])
  }

  function Quote(value: string): string {
    "'" + Escaped(value) + "'"
  }

  /** A command line of quoted arguments. */
  function CommandLine(args: seq<string>): string {
    if args == [] then [] else " " + Quote(args[0]) + CommandLine(args[1..])
  }

  function RootShellScript(command: string): string {
    "su -c " + Quote(command)
  }

  // ---------------------------------------------------------------- the shell's side

  /** A word after quote removal, and whether all that a later expansion would act on was quoted;
      an operator; the end of a line. */
  datatype Token = Word(text: string, literal: bool) | Operator(text: string) | Newline

  predicate IsBlank(c: char) {
    c == ' ' || c == '\t'
  }

  predicate StartsOperator(c: char) {
    c in {'&', '|', ';', '<', '>', '(', ')'}
  }

  /** The control and redirection operators; a here-document is not read. */
  predicate IsOperator(s: string) {
    s in {"&", "&&", "(", ")", ";", ";;", "|", "||", "<", ">", ">|", ">>", "<&", ">&", "<>"}
  }

  /** What ends a word. */
  predicate IsDelimiter(c: char) {
    IsBlank(c) || c == '\n' || StartsOperator(c)
  }

  /** Unquoted, these mean something to pathname or tilde expansion, or as a reserved word. */
  predicate IsPattern(c: char) {
    c in {'*', '?', '[', ']', '~', '!', '{', '}'}
  }

  datatype Mode =
    | Between                        // between tokens
    | Plain                          // in a word, outside quotes
    | InQuotes
    | InDouble                       // within double quotes
    | AfterBackslash(inWord: bool)
    | InDoubleAfterBackslash
    | InOperator(op: string)
    | Comment
    | Failed                         // NUL, an expansion, or a here-document

  /** `word` and `literal` are the word so far. */
  datatype State = State(tokens: seq<Token>, mode: Mode, word: string, literal: bool)

  const START: State := State([], Between, [], true)

  function Fail(s: State): State {
    s.(mode := Failed)
  }

  function Opened(s: State, mode: Mode): State {
    s.(mode := mode, word := [], literal := true)
  }

  /** A character between tokens. */
  function Begin(s: State, c: char): State {
    if c == '\n' then s.(tokens := s.tokens + [Newline], mode := Between)
    else if IsBlank(c) then s.(mode := Between)
    else if c == '#' then s.(mode := Comment)
    else if c == QUOTE then Opened(s, InQuotes)
    else if c == '"' then Opened(s, InDouble)
    else if c == BACKSLASH then Opened(s, AfterBackslash(false))
    else if c == '$' || c == '`' then Fail(s)
    else if StartsOperator(c) then s.(mode := InOperator([c]))
    else s.(mode := Plain, word := [c], literal := !IsPattern(c))
  }

  /** The token that is under way is complete. */
  function Flushed(s: State): State {
    match s.mode
    case Plain => s.(tokens := s.tokens + [Word(s.word, s.literal)], mode := Between)
    case InOperator(op) => s.(tokens := s.tokens + [Operator(op)], mode := Between)
    case _ => s
  }

  function Step(s: State, c: char): State {
    if c == NUL then Fail(s) else
    match s.mode
    case Between => Begin(s, c)
    case Comment => if c == '\n' then Begin(s, c) else s
    case Plain =>
      if IsDelimiter(c) then Begin(Flushed(s), c)
      else if c == QUOTE then s.(mode := InQuotes)
      else if c == '"' then s.(mode := InDouble)
      else if c == BACKSLASH then s.(mode := AfterBackslash(true))
      else if c == '$' || c == '`' then Fail(s)
      else s.(word := s.word + [c], literal := s.literal && !IsPattern(c))
    case InQuotes => if c == QUOTE then s.(mode := Plain) else s.(word := s.word + [c])
    case InDouble =>
      if c == '"' then s.(mode := Plain)
      else if c == BACKSLASH then s.(mode := InDoubleAfterBackslash)
      else if c == '$' || c == '`' then Fail(s)
      else s.(word := s.word + [c])
    case AfterBackslash(inWord) =>
      if c == '\n' then s.(mode := if inWord then Plain else Between)
      else s.(mode := Plain, word := s.word + [c])
    case InDoubleAfterBackslash =>
      if c == '\n' then s.(mode := InDouble)
      else if c in {'$', '`', '"', BACKSLASH} then s.(mode := InDouble, word := s.word + [c])
      else s.(mode := InDouble, word := s.word + [BACKSLASH, c])
    case InOperator(op) =>
      if IsOperator(op + [c]) then s.(mode := InOperator(op + [c]))
      else if op + [c] == "<<" then Fail(s)
      else Begin(Flushed(s), c)
    case Failed => s
  }

  function Run(s: State, input: string): State
    decreases input
  {
    if input == [] then s else Run(Step(s, input[0]), input[1..])
  }

  /** The tokens of a whole input, if it holds nothing that the lexer gives up on and no quote or
      escape is left open. */
  function Lex(input: string): Option<seq<Token>> {
    var end := Run(START, input);
    if end.mode in {Between, Comment, Plain} || end.mode.InOperator? then Some(Flushed(end).tokens) else None
  }

  predicate NulFree(s: string) {
    NUL !in s
  }

  lemma {:induction false} RunConcat(s: State, a: string, b: string)
    ensures Run(s, a + b) == Run(Run(s, a), b)
    decreases a
  {
    if a == [] {
      assert a + b == b;
    } else {
      RunConcat(Step(s, a[0]), a[1..], b);
      assert (a + b)[1..] == a[1..] + b;
    }
  }

  lemma RunOne(s: State, c: char)
    ensures Run(s, [c]) == Step(s, c)
  {
    assert [c][1..] == [];
  }

  // ---------------------------------------------------------------- tokens that are there stay

  function Shifted(ts: seq<Token>, s: State): State {
    s.(tokens := ts + s.tokens)
  }

  lemma BeginShifts(ts: seq<Token>, s: State, c: char)
    ensures Begin(Shifted(ts, s), c) == Shifted(ts, Begin(s, c))
  {
    assert (ts + s.tokens) + [Newline] == ts + (s.tokens + [Newline]);
  }

  lemma FlushShifts(ts: seq<Token>, s: State)
    ensures Flushed(Shifted(ts, s)) == Shifted(ts, Flushed(s))
  {
    match s.mode
    case Plain => assert (ts + s.tokens) + [Word(s.word, s.literal)] == ts + (s.tokens + [Word(s.word, s.literal)]);
    case InOperator(op) => assert (ts + s.tokens) + [Operator(op)] == ts + (s.tokens + [Operator(op)]);
    case _ =>
  }

  lemma StepShifts(ts: seq<Token>, s: State, c: char)
    ensures Step(Shifted(ts, s), c) == Shifted(ts, Step(s, c))
  {
    BeginShifts(ts, s, c);
    BeginShifts(ts, Flushed(s), c);
    FlushShifts(ts, s);
    hide Begin, Flushed, IsOperator, IsPattern, IsDelimiter;
  }

  /** What was read before does not change what is read after it. */
  lemma {:induction false} RunShifts(ts: seq<Token>, s: State, input: string)
    ensures Run(Shifted(ts, s), input) == Shifted(ts, Run(s, input))
    decreases input
  {
    if input != [] {
      StepShifts(ts, s, input[0]);
      RunShifts(ts, Step(s, input[0]), input[1..]);
    }
  }

  // ---------------------------------------------------------------- one quoted value

  /** Within the quotes, the escaped value adds exactly itself to the word. */
  lemma {:induction false} EscapedReadsBack(s: State, value: string)
    requires NulFree(value) && s.mode.InQuotes?
    ensures Run(s, Escaped(value)) == s.(word := s.word + value)
    decreases value
  {
    if value == [] {
      assert s.word + value == s.word;
    } else {
      var c, next := value[0], s.(word := s.word + [value[0]]);
      EscapedReadsBack(next, value[1..]);
      assert s.word + [c] + value[1..] == s.word + value;
      var piece := if c == QUOTE then "'\\''" else [c];
      RunConcat(s, piece, Escaped(value[1..]));
      if c == QUOTE {
        LeaveAndReenter(s);
      } else {
        RunOne(s, c);
      }
    }
  }

  /** Close the quotes, an escaped quote, open them again. */
  lemma LeaveAndReenter(s: State)
    requires s.mode.InQuotes?
    ensures Run(s, "'\\''") == s.(word := s.word + [QUOTE])
  {
    var a := "'\\''";
    assert a[1..] == "\\''" && a[1..][1..] == "''" && a[1..][1..][1..] == "'" && a[1..][1..][1..][1..] == [];
    var s1 := Step(s, QUOTE);
    var s2 := Step(s1, BACKSLASH);
    var s3 := Step(s2, QUOTE);
    assert Run(s, a) == Run(s1, a[1..]) == Run(s2, a[1..][1..]) == Run(s3, a[1..][1..][1..]);
    RunOne(s3, QUOTE);
  }

  /** Only operator characters extend an operator. */
  lemma NotOperator(op: string, c: char)
    requires !StartsOperator(c)
    ensures !IsOperator(op + [c]) && op + [c] != "<<"
  {
    var longer := op + [c];
    assert longer[|longer| - 1] == c;
  }

  predicate AtBoundary(s: State) {
    s.mode.Between? || s.mode.InOperator?
  }

  /** A quoted value adds exactly itself to the word under way, or opens a word that is it. */
  lemma QuotedReadsBack(s: State, value: string)
    requires NulFree(value) && (AtBoundary(s) || s.mode.Plain?)
    ensures s.mode.Plain? ==> Run(s, Quote(value)) == s.(word := s.word + value)
    ensures AtBoundary(s) ==> Run(s, Quote(value)) == Flushed(s).(mode := Plain, word := value, literal := true)
  {
    QuoteOpens(s);
    var none: string := [];
    assert none + value == value;
    hide Step, Begin, Flushed;
    var inner := Run(s, "'");
    RunConcat(s, "'" + Escaped(value), "'");
    RunConcat(s, "'", Escaped(value));
    EscapedReadsBack(inner, value);
    LeaveQuotes(Run(inner, Escaped(value)));
  }

  lemma QuoteOpens(s: State)
    requires AtBoundary(s) || s.mode.Plain?
    ensures Run(s, "'") == if s.mode.Plain? then s.(mode := InQuotes) else Opened(Flushed(s), InQuotes)
  {
    RunOne(s, QUOTE);
    if s.mode.InOperator? {
      NotOperator(s.mode.op, QUOTE);
    }
  }

  lemma LeaveQuotes(s: State)
    requires s.mode.InQuotes?
    ensures Run(s, "'") == s.(mode := Plain)
  {
    RunOne(s, QUOTE);
  }

  /** What follows is read as if it stood alone. */
  lemma WordEnds(s: State, rest: string)
    requires s.mode.Plain? && (rest == [] || IsDelimiter(rest[0]))
    ensures rest == [] ==> Flushed(Run(s, rest)).tokens == s.tokens + [Word(s.word, s.literal)]
    ensures rest != [] ==> Run(s, rest) == Run(Flushed(s), rest)
  {
  }

  function Joined(a: Option<seq<Token>>, ts: seq<Token>, b: Option<seq<Token>>): Option<seq<Token>> {
    if a.None? || b.None? then None else Some(a.value + ts + b.value)
  }

  /** From a state between tokens, only the mode and the tokens matter. */
  lemma BetweenIsStart(s: State, rest: string)
    requires s.mode.Between?
    ensures var end := Run(START, rest);
      Run(s, rest).tokens == s.tokens + end.tokens && Run(s, rest).mode == end.mode
      && (end.mode.Plain? ==> Run(s, rest).word == end.word && Run(s, rest).literal == end.literal)
  {
    StartsAgree(START, s.(tokens := []), rest);
    RunShifts(s.tokens, s.(tokens := []), rest);
    assert s.tokens + [] == s.tokens;
    assert Shifted(s.tokens, s.(tokens := [])) == s;
  }

  /** The leftover word of an earlier token is never looked at. */
  ghost predicate Agree(s: State, t: State) {
    s.tokens == t.tokens && s.mode == t.mode
    && (s.mode in {Plain, InQuotes, InDouble, InDoubleAfterBackslash} || s.mode.AfterBackslash? ==>
          s.word == t.word && s.literal == t.literal)
  }

  lemma {:induction false} StartsAgree(s: State, t: State, input: string)
    requires Agree(s, t)
    ensures Agree(Run(s, input), Run(t, input))
    decreases input
  {
    if input != [] {
      StartsAgree(Step(s, input[0]), Step(t, input[0]), input[1..]);
    }
  }

  /** Between any two delimiters (blanks, newlines, operators, the ends), a quoted NUL-free value
      is exactly one word token, itself, and changes nothing in what is read before and after,
      however far into the rest the lexer gets. */
  lemma QuotedIsOneWord(before: string, value: string, after: string)
    requires NulFree(value) && AtBoundary(Run(START, before)) && (after == [] || IsDelimiter(after[0]))
    ensures Lex(before + Quote(value) + after) == Joined(Lex(before), [Word(value, true)], Lex(after))
    ensures var all, rest := Run(START, before + Quote(value) + after), Run(START, after);
      after != [] ==>
        && all.mode == rest.mode
        && all.tokens == Flushed(Run(START, before)).tokens + [Word(value, true)] + rest.tokens
  {
    var s := Run(START, before);
    var word := Flushed(s).(mode := Plain, word := value, literal := true);
    RunConcat(START, before + Quote(value), after);
    RunConcat(START, before, Quote(value));
    QuotedReadsBack(s, value);
    WordEnds(word, after);
    if after == [] {
      assert Lex(after) == Some([]);
      assert Flushed(s).tokens + [Word(value, true)] == Flushed(s).tokens + [Word(value, true)] + [];
    } else {
      BetweenIsStart(Flushed(word), after);
      var ts := Flushed(s).tokens + [Word(value, true)];
      EndsAlike(ts, Run(Flushed(word), after), Run(START, after));
    }
  }

  lemma EndsAlike(ts: seq<Token>, s: State, end: State)
    requires s.tokens == ts + end.tokens && s.mode == end.mode
    requires end.mode.Plain? ==> s.word == end.word && s.literal == end.literal
    ensures Flushed(s).tokens == ts + Flushed(end).tokens
  {
  }

  lemma QuotedAlone(value: string)
    requires NulFree(value)
    ensures Lex(Quote(value)) == Some([Word(value, true)])
  {
    QuotedIsOneWord([], value, []);
    assert [] + Quote(value) + [] == Quote(value);
    assert [] + [Word(value, true)] + [] == [Word(value, true)];
  }

  /** Quoting is injective. */
  lemma QuoteIsInjective(a: string, b: string)
    requires NulFree(a) && NulFree(b) && Quote(a) == Quote(b)
    ensures a == b
  {
    QuotedAlone(a);
    QuotedAlone(b);
    assert [Word(a, true)][0] == [Word(b, true)][0];
  }

  lemma {:induction false} FailedStays(s: State, input: string)
    requires s.mode.Failed?
    ensures Run(s, input).mode.Failed?
    decreases input
  {
    if input != [] {
      FailedStays(Step(s, input[0]), input[1..]);
    }
  }

  lemma {:induction false} NulFails(s: State, input: string)
    requires !NulFree(input)
    ensures Run(s, input).mode.Failed?
    decreases input
  {
    if input[0] == NUL {
      FailedStays(Step(s, NUL), input[1..]);
    } else {
      NulFails(Step(s, input[0]), input[1..]);
    }
  }

  lemma {:induction false} EscapedKeepsNul(value: string)
    requires !NulFree(value)
    ensures !NulFree(Escaped(value))
  {
    if value[0] == NUL {
      assert Escaped(value)[0] == NUL;
    } else {
      EscapedKeepsNul(value[1..]);
    }
  }

  /** Exactly the values without NUL survive. */
  lemma QuoteWorksUnlessNul(value: string)
    ensures Lex(Quote(value)) == Some([Word(value, true)]) <==> NulFree(value)
  {
    if NulFree(value) {
      QuotedAlone(value);
    } else {
      EscapedKeepsNul(value);
      assert !NulFree(Quote(value));
      NulFails(START, Quote(value));
    }
  }

  // ---------------------------------------------------------------- assignments

  predicate IsOrdinary(c: char) {
    !IsDelimiter(c) && !IsPattern(c) && c !in {NUL, QUOTE, BACKSLASH, '"', '$', '`', '#'}
  }

  predicate AllOrdinary(text: string) {
    forall i :: 0 <= i < |text| ==> IsOrdinary(text[i])
  }

  /** Ordinary characters add themselves to a word. */
  lemma {:induction false} OrdinaryReadsBack(s: State, text: string)
    requires s.mode.Plain? && AllOrdinary(text)
    ensures Run(s, text) == s.(word := s.word + text)
    decreases text
  {
    if text == [] {
      assert s.word + text == s.word;
    } else {
      var next := Step(s, text[0]);
      assert IsOrdinary(text[0]) && next == s.(word := s.word + [text[0]]);
      OrdinaryReadsBack(next, text[1..]);
      assert s.word + [text[0]] + text[1..] == s.word + text;
    }
  }

  /** Between tokens they open a word. */
  lemma OrdinaryWord(s: State, text: string)
    requires AtBoundary(s) && text != [] && AllOrdinary(text)
    ensures Run(s, text) == Flushed(s).(mode := Plain, word := text, literal := true)
  {
    assert IsOrdinary(text[0]);
    if s.mode.InOperator? {
      NotOperator(s.mode.op, text[0]);
    }
    var begun := Step(s, text[0]);
    assert begun == Flushed(s).(mode := Plain, word := [text[0]], literal := true);
    OrdinaryReadsBack(begun, text[1..]);
    assert [text[0]] + text[1..] == text;
  }

  /** `name='value'` between tokens is one word, the assignment of exactly that value. */
  lemma AssignmentReadsBack(s: State, name: string, value: string)
    requires AtBoundary(s) && NulFree(value) && AllOrdinary(name)
    ensures Run(s, name + "=" + Quote(value)) == Flushed(s).(mode := Plain, word := name + "=" + value, literal := true)
  {
    var text := name + "=";
    OrdinaryWord(s, text);
    RunConcat(s, text, Quote(value));
    QuotedReadsBack(Run(s, text), value);
  }

  /** How the transfer scripts begin: two assignments in one line.  Whatever follows, the shell
      has read exactly these tokens. */
  lemma ScriptPrefixReadsBack(target: string, tmp: string, rest: string)
    requires NulFree(target) && NulFree(tmp)
    ensures var prefix := "target=" + Quote(target) + "; tmp=" + Quote(tmp) + "; ";
      var s, all := Run(START, prefix), Run(START, prefix + rest);
      && s.mode.Between?
      && s.tokens == [Word("target=" + target, true), Operator(";"), Word("tmp=" + tmp, true), Operator(";")]
      && all.mode == Run(START, rest).mode
      && all.tokens == s.tokens + Run(START, rest).tokens
  {
    hide Step, Run, Flushed, Quote;
    var first, second := "target=" + Quote(target), "tmp=" + Quote(tmp);
    var script := "target=" + Quote(target) + "; tmp=" + Quote(tmp) + "; ";
    assert "target" + "=" + Quote(target) == first && "target" + "=" + target == "target=" + target;
    assert "tmp" + "=" + Quote(tmp) == second && "tmp" + "=" + tmp == "tmp=" + tmp;
    assert script == first + ("; " + (second + "; "));
    StartIsBetween();
    BetweenIsComplete(START);
    AssignmentReadsBack(START, "target", target);
    RunConcat(START, first, "; " + (second + "; "));
    var s1 := Run(START, first);
    SemicolonBlank(s1);
    RunConcat(s1, "; ", second + "; ");
    var s2 := Run(s1, "; ");
    BetweenIsComplete(s2);
    AssignmentReadsBack(s2, "tmp", tmp);
    RunConcat(s2, second, "; ");
    SemicolonBlank(Run(s2, second));
    var s := Run(START, script);
    RunConcat(START, script, rest);
    BetweenIsStart(s, rest);
  }

  lemma SemicolonBlank(s: State)
    requires s.mode.Plain?
    ensures Run(s, "; ") == s.(tokens := s.tokens + [Word(s.word, s.literal)] + [Operator(";")], mode := Between)
  {
    assert "; "[1..] == " ";
    RunOne(Step(s, ';'), ' ');
    assert ";" + [' '] == "; " && !IsOperator("; ");
  }

  // ---------------------------------------------------------------- command lines

  ghost predicate AllNulFree(args: seq<string>) {
    forall i :: 0 <= i < |args| ==> NulFree(args[i])
  }

  function AsWords(args: seq<string>): (words: seq<Token>)
    ensures |words| == |args| && forall i :: 0 <= i < |args| ==> words[i] == Word(args[i], true)
  {
    seq(|args|, i requires 0 <= i < |args| => Word(args[i], true))
  }

  /** A line of quoted arguments is read back as exactly those arguments. */
  lemma {:induction false} CommandLineReadsBack(args: seq<string>)
    requires AllNulFree(args)
    ensures Lex(CommandLine(args)) == Some(AsWords(args))
  {
    if args != [] {
      CommandLineReadsBack(args[1..]);
      RunOne(START, ' ');
      QuotedIsOneWord(" ", args[0], CommandLine(args[1..]));
      assert [] + [Word(args[0], true)] + AsWords(args[1..]) == AsWords(args);
    }
  }

  lemma {:induction false} EscapedIsNulFree(value: string)
    requires NulFree(value)
    ensures NulFree(Escaped(value))
  {
    if value != [] {
      EscapedIsNulFree(value[1..]);
    }
  }

  lemma {:induction false} CommandLineIsNulFree(args: seq<string>)
    requires AllNulFree(args)
    ensures NulFree(CommandLine(args))
  {
    if args != [] {
      EscapedIsNulFree(args[0]);
      CommandLineIsNulFree(args[1..]);
    }
  }

  /** The outer shell sees three words; the third is the inner command unchanged. */
  lemma RootScriptReadsBack(command: string)
    requires NulFree(command)
    ensures Lex(RootShellScript(command)) == Some(AsWords(["su", "-c", command]))
  {
    SuPrefix();
    QuotedIsOneWord("su -c ", command, []);
    assert "su -c " + Quote(command) + [] == RootShellScript(command);
    assert AsWords(["su", "-c"]) + [Word(command, true)] + [] == AsWords(["su", "-c", command]);
  }

  lemma SuPrefix()
    ensures Run(START, "su -c ").mode.Between? && Lex("su -c ") == Some(AsWords(["su", "-c"]))
  {
    SuTokens();
    BetweenIsComplete(Run(START, "su -c "));
    hide Run, Flushed;
    assert [Word("su", true), Word("-c", true)] == AsWords(["su", "-c"]);
  }

  lemma SuTokens()
    ensures Run(START, "su -c ").mode.Between?
    ensures Run(START, "su -c ").tokens == [Word("su", true), Word("-c", true)]
  {
    StartIsBetween();
    SuIsOrdinary();
    hide *;
    assert "su" + " " == "su " && "-c" + " " == "-c " && "su " + "-c " == "su -c ";
    var s := Run(START, "su ");
    OrdinaryThenBlank(START, "su");
    OrdinaryThenBlank(s, "-c");
    RunConcat(START, "su ", "-c ");
  }

  lemma SuIsOrdinary()
    ensures AllOrdinary("su") && AllOrdinary("-c")
  {
  }

  lemma OrdinaryThenBlank(s: State, text: string)
    requires s.mode.Between? && text != [] && AllOrdinary(text)
    ensures Run(s, text + " ").mode.Between? && Run(s, text + " ").tokens == s.tokens + [Word(text, true)]
  {
    BetweenIsComplete(s);
    OrdinaryWord(s, text);
    RunConcat(s, text, " ");
    BlankEnds(Run(s, text));
  }

  lemma StartIsBetween()
    ensures START.mode == Between && START.tokens == []
  {
  }

  lemma BetweenIsComplete(s: State)
    requires s.mode.Between?
    ensures Flushed(s) == s
  {
  }

  lemma BlankEnds(s: State)
    requires s.mode.Plain?
    ensures Run(s, " ") == s.(tokens := s.tokens + [Word(s.word, s.literal)], mode := Between)
  {
    RunOne(s, ' ');
  }

  /** Through both shells: the inner command, and then its own quoted arguments. */
  lemma NestedArgumentsReadBack(args: seq<string>)
    requires AllNulFree(args)
    ensures Lex(RootShellScript(CommandLine(args))) == Some(AsWords(["su", "-c", CommandLine(args)]))
    ensures Lex(CommandLine(args)) == Some(AsWords(args))
  {
    CommandLineIsNulFree(args);
    RootScriptReadsBack(CommandLine(args));
    CommandLineReadsBack(args);
  }
}
