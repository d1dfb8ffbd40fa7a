// Quoting an argument vector for the shell (core/executor.go), and the shell's
// own splitting of the result.
module ShellQuoting {
  import opened Pipelines

  // ---- Quoting ---------------------------------------------------------------------

  function EscapedChar(c: char): string {
    if c == '\'' then ['\'', '\\', '\'', '\''] else [c]
  }

  /** Each single quote closed, escaped and reopened. */
  function Escaped(arg: string): string {
    if arg == [] then [] else Escaped(arg[..|arg| - 1]) + EscapedChar(arg[|arg| - 1])
  }

  function QuotedArg(arg: string): string {
    ['\''] + Escaped(arg) + ['\'']
  }

  function Quoted(argv: seq<string>): string {
    if argv == [] then []
    else if |argv| == 1 then QuotedArg(argv[0])
    else Quoted(argv[..|argv| - 1]) + [' '] + QuotedArg(argv[|argv| - 1])
  }

  /** Every argument stands in single quotes; a quote in it closes them, is escaped
      and opens them again, and nothing else changes. */
  lemma QuotesEscaped(text: string, c: char)
    ensures QuotedArg(text) == "'" + Escaped(text) + "'" && Escaped("") == ""
    ensures Escaped(text + "'") == Escaped(text) + "'\\''"
    ensures c as int != 39 ==> Escaped(text + [c]) == Escaped(text) + [c]
  {
    assert (text + [c])[..|text|] == text && (text + "'")[..|text|] == text;
  }

  /** One blank stands between two arguments. */
  lemma ArgumentsJoined(argv: seq<string>, arg: string)
    requires argv != []
    ensures Quoted(argv + [arg]) == Quoted(argv) + " " + QuotedArg(arg) && Quoted([arg]) == QuotedArg(arg)
  {
    assert (argv + [arg])[..|argv|] == argv;
  }

  /** The shell splits the quoted text back into the arguments it came from. */
  method ShellQuote(argv: seq<string>) returns (out: string)
    ensures out == Quoted(argv)
    ensures Split(out) == Some(argv)
  {
    out := [];
    for i := 0 to |argv|
      invariant out == Quoted(argv[..i])
    {
      assert argv[..i + 1][..i] == argv[..i];
      if i > 0 {
        out := out + [' '];
      }
      out := out + QuotedArg(argv[i]);
    }
    assert argv[..|argv|] == argv;
    SplitsBack(argv);
  }

  // ---- Splitting ---------------------------------------------------------------------

  datatype Mode = Unquoted | InQuotes | AfterBackslash

  /** The words completed so far and the word being read, if one has begun. */
  datatype Splitter =
    | Reading(words: seq<string>, word: Option<string>, mode: Mode)
    | Rejected

  /** Characters that section 2.2 of the IEEE Std 1003.1 Shell Command Language
      requires to be quoted, blanks, backslash and single quote apart. */
  predicate Special(c: char) {
    c in {'|', '&', ';', '<', '>', '(', ')', '$', '`', '"', '\n', '*', '?', '[', '#', '~', '=', '%'}
  }

  function Letter(s: Splitter, c: char, mode: Mode): Splitter
    requires s.Reading?
  {
    Reading(s.words, Some((if s.word.Some? then s.word.value else []) + [c]), mode)
  }

  function EndWord(s: Splitter): Splitter
    requires s.Reading?
  {
    if s.word.Some? then Reading(s.words + [s.word.value], None, Unquoted) else s.(mode := Unquoted)
  }

  /** Sections 2.2.1 and 2.2.2: a backslash preserves the next character, except
      that it joins lines; single quotes preserve everything up to the next one. */
  function Step(s: Splitter, c: char): Splitter {
    if s.Rejected? then Rejected
    else
      match s.mode
      case InQuotes => if c == '\'' then s.(mode := Unquoted) else Letter(s, c, InQuotes)
      case AfterBackslash => if c == '\n' then s.(mode := Unquoted) else Letter(s, c, Unquoted)
      case Unquoted =>
        if c == '\'' then Reading(s.words, Some(if s.word.Some? then s.word.value else []), InQuotes)
        else if c == '\\' then s.(mode := AfterBackslash)
        else if c == ' ' || c == '\t' then EndWord(s)
        else if Special(c) then Rejected
        else Letter(s, c, Unquoted)
  }

  function ReadOn(s: Splitter, text: string): Splitter {
    if text == [] then s else Step(ReadOn(s, text[..|text| - 1]), text[|text| - 1])
  }

  const START: Splitter := Reading([], None, Unquoted)

  /** The words of a simple command line; nothing when a quotation is left open
      or an unquoted character has another meaning to the shell. */
  function Split(text: string): Option<seq<string>> {
    var s := ReadOn(START, text);
    if s.Reading? && s.mode == Unquoted then Some(EndWord(s).words) else None
  }

  // ---- Round trip --------------------------------------------------------------------

  lemma {:induction false} ReadOnConcat(s: Splitter, a: string, b: string)
    ensures ReadOn(s, a + b) == ReadOn(ReadOn(s, a), b)
  {
    if b == [] {
      assert a + b == a;
    } else {
      ReadOnConcat(s, a, b[..|b| - 1]);
      assert (a + b)[..|a + b| - 1] == a + b[..|b| - 1];
    }
  }

  lemma ReadOnChar(s: Splitter, text: string, c: char)
    ensures ReadOn(s, text + [c]) == Step(ReadOn(s, text), c)
  {
    assert (text + [c])[..|text|] == text;
  }

  lemma ReadsEscapedChar(s: Splitter, text: string, c: char)
    requires ReadOn(s, text).Reading? && ReadOn(s, text).mode == InQuotes && ReadOn(s, text).word.Some?
    ensures var t := ReadOn(s, text); ReadOn(s, text + EscapedChar(c)) == t.(word := Some(t.word.value + [c]))
  {
    ReadOnChar(s, text, c);
    if c == '\'' {
      ReadOnChar(s, text + ['\''], '\\');
      ReadOnChar(s, text + ['\''] + ['\\'], '\'');
      ReadOnChar(s, text + ['\''] + ['\\'] + ['\''], '\'');
      assert text + ['\''] + ['\\'] + ['\''] + ['\''] == text + EscapedChar(c);
    }
  }

  lemma LastApart(a: string, b: string)
    requires b != []
    ensures a + b == (a + b[..|b| - 1]) + [b[|b| - 1]]
  {
  }

  lemma {:induction false} ReadsEscaped(s: Splitter, arg: string)
    requires s.Reading? && s.mode == InQuotes && s.word.Some?
    ensures ReadOn(s, Escaped(arg)) == s.(word := Some(s.word.value + arg))
  {
    if arg == [] {
      assert s.word.value + [] == s.word.value;
    } else {
      var n := |arg| - 1;
      ReadsEscaped(s, arg[..n]);
      ReadsEscapedChar(s, Escaped(arg[..n]), arg[n]);
      LastApart(s.word.value, arg);
    }
  }

  /** A quoted argument, empty ones included, is read as one word. */
  lemma ReadsArg(words: seq<string>, arg: string)
    ensures ReadOn(Reading(words, None, Unquoted), QuotedArg(arg)) == Reading(words, Some(arg), Unquoted)
  {
    var s := Reading(words, None, Unquoted);
    var open := Reading(words, Some([]), InQuotes);
    ReadOnChar(s, [], '\'');
    assert [] + ['\''] == ['\''];
    ReadOnConcat(s, ['\''], Escaped(arg));
    ReadsEscaped(open, arg);
    assert [] + arg == arg;
    ReadOnChar(s, ['\''] + Escaped(arg), '\'');
  }

  lemma ReadsNextArg(front: string, words: seq<string>, word: string, arg: string)
    requires ReadOn(START, front) == Reading(words, Some(word), Unquoted)
    ensures ReadOn(START, front + [' '] + QuotedArg(arg)) == Reading(words + [word], Some(arg), Unquoted)
  {
    ReadOnChar(START, front, ' ');
    ReadOnConcat(START, front + [' '], QuotedArg(arg));
    ReadsArg(words + [word], arg);
  }

  lemma {:induction false} ReadsQuoted(argv: seq<string>)
    requires argv != []
    ensures ReadOn(START, Quoted(argv)) == Reading(argv[..|argv| - 1], Some(argv[|argv| - 1]), Unquoted)
  {
    var n := |argv| - 1;
    if n == 0 {
      ReadsArg([], argv[0]);
      assert argv[..0] == [];
    } else {
      ReadsQuoted(argv[..n]);
      assert argv[..n] == argv[..n][..n - 1] + [argv[n - 1]];
      ReadsNextArg(Quoted(argv[..n]), argv[..n][..n - 1], argv[n - 1], argv[n]);
    }
  }

  lemma Rejoined(argv: seq<string>)
    requires argv != []
    ensures argv[..|argv| - 1] + [argv[|argv| - 1]] == argv
  {
  }

  /** For every argument vector, empty arguments, blanks, line breaks and
      embedded quotes included. */
  lemma SplitsBack(argv: seq<string>)
    ensures Split(Quoted(argv)) == Some(argv)
  {
    if argv != [] {
      ReadsQuoted(argv);
      Rejoined(argv);
    }
  }
}
