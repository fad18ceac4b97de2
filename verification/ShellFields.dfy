/** splitPOSIXFields (Cliant/cmake.go): takes a command line apart and undoes its quoting, and how far that is what
    section 2.2 of the POSIX Shell Command Language says about quoting. */
module ShellFields {
  import opened Prelude

  // ---------------------------------------------------------------- the tokeniser

  datatype Lexer = Lexer(fields: seq<string>, current: string, inSingle: bool, inDouble: bool, escaped: bool)

  const START := Lexer([], "", false, false, false)

  /** flush: an empty field is dropped. */
  function Flush(l: Lexer): Lexer {
    if l.current == "" then l else l.(fields := l.fields + [l.current], current := "")
  }

  function Feed(l: Lexer, ch: char): Lexer {
    if l.escaped then l.(current := l.current + [ch], escaped := false)
    else if ch == '\\' && !l.inSingle then l.(escaped := true)
    else if ch == '\'' && !l.inDouble then l.(inSingle := !l.inSingle)
    else if ch == '"' && !l.inSingle then l.(inDouble := !l.inDouble)
    else if (ch == ' ' || ch == '\t') && !l.inSingle && !l.inDouble then Flush(l)
    else l.(current := l.current + [ch])
  }

  function FeedAll(l: Lexer, input: string): Lexer
    decreases |input|
  {
    if input == "" then l else FeedAll(Feed(l, input[0]), input[1..])
  }

  /** The fields, unless a quotation is left open. */
  function Fields(l: Lexer): Option<seq<string>> {
    if l.escaped || l.inSingle || l.inDouble then None else Some(Flush(l).fields)
  }

  method SplitPOSIXFields(input: string) returns (r: Option<seq<string>>)
    ensures r == Fields(FeedAll(START, input))
  {
    var fields: seq<string>, current := [], "";
    var inSingle, inDouble, escaped := false, false, false;
    var i := 0;
    while i < |input|
      invariant i <= |input|
      invariant FeedAll(Lexer(fields, current, inSingle, inDouble, escaped), input[i..]) == FeedAll(START, input)
    {
      var ch := input[i];
      assert input[i..][0] == ch && input[i..][1..] == input[i + 1..];
      if escaped {
        current, escaped := current + [ch], false;
      } else if ch == '\\' && !inSingle {
        escaped := true;
      } else if ch == '\'' && !inDouble {
        inSingle := !inSingle;
      } else if ch == '"' && !inSingle {
        inDouble := !inDouble;
      } else if (ch == ' ' || ch == '\t') && !inSingle && !inDouble {
        if current != "" {
          fields, current := fields + [current], "";
        }
      } else {
        current := current + [ch];
      }
      i := i + 1;
    }
    if escaped || inSingle || inDouble {
      return None;
    }
    if current != "" {
      fields := fields + [current];
    }
    return Some(fields);
  }

  // ---------------------------------------------------------------- quoting is undone

  /** The text between single quotes that stands for f. */
  function Inner(f: string): string {
    if f == "" then ""
    else (if f[0] == '\'' then ['\'', '\\', '\'', '\''] else [f[0]]) + Inner(f[1..])
  }

  /** How a shell is given any word (section 2.2.2 of the POSIX Shell Command Language). */
  function Quote(f: string): string {
    ['\''] + Inner(f) + ['\'']
  }

  function Command(words: seq<string>): string {
    if words == [] then "" else Quote(words[0]) + [' '] + Command(words[1..])
  }

  function NonEmpty(words: seq<string>): seq<string> {
    if words == [] then [] else (if words[0] == "" then [] else [words[0]]) + NonEmpty(words[1..])
  }

  lemma {:induction false} FeedConcat(l: Lexer, a: string, b: string)
    ensures FeedAll(l, a + b) == FeedAll(FeedAll(l, a), b)
    decreases |a|
  {
    if a == "" {
      assert a + b == b;
    } else {
      assert (a + b)[1..] == a[1..] + b;
      FeedConcat(Feed(l, a[0]), a[1..], b);
    }
  }

  lemma FeedOne(l: Lexer, c: char)
    ensures FeedAll(l, [c]) == Feed(l, c)
  {
    assert [c][1..] == "";
  }

  lemma {:induction false} FeedInner(l: Lexer, f: string)
    requires l.inSingle && !l.inDouble && !l.escaped
    ensures FeedAll(l, Inner(f)) == l.(current := l.current + f)
    decreases |f|
  {
    if f == "" {
      assert l.current + f == l.current;
    } else {
      var c := f[0];
      var piece := if c == '\'' then ['\'', '\\', '\'', '\''] else [c];
      FeedConcat(l, piece, Inner(f[1..]));
      FeedPiece(l, c);
      FeedInner(l.(current := l.current + [c]), f[1..]);
      assert l.current + [c] + f[1..] == l.current + f;
    }
  }

  lemma FeedPiece(l: Lexer, c: char)
    requires l.inSingle && !l.inDouble && !l.escaped
    ensures FeedAll(l, if c == '\'' then ['\'', '\\', '\'', '\''] else [c]) == l.(current := l.current + [c])
  {
    if c == '\'' {
      var q := ['\'', '\\', '\'', '\''];
      assert q == ['\''] + (['\\'] + (['\''] + ['\'']));
      var open := l.(inSingle := false);
      FeedConcat(l, ['\''], ['\\'] + (['\''] + ['\'']));
      FeedConcat(open, ['\\'], ['\''] + ['\'']);
      FeedConcat(open.(escaped := true), ['\''], ['\'']);
      FeedOne(l, '\'');
      FeedOne(open, '\\');
      FeedOne(open.(escaped := true), '\'');
      FeedOne(open.(current := l.current + [c]), '\'');
    } else {
      FeedOne(l, c);
    }
  }

  /** A quoted word adds exactly itself to the current field. */
  lemma FeedQuote(l: Lexer, f: string)
    requires !l.inSingle && !l.inDouble && !l.escaped
    ensures FeedAll(l, Quote(f)) == l.(current := l.current + f)
  {
    FeedConcat(l, ['\''] + Inner(f), ['\'']);
    FeedConcat(l, ['\''], Inner(f));
    FeedOne(l, '\'');
    FeedInner(l.(inSingle := true), f);
    FeedOne(l.(inSingle := true, current := l.current + f), '\'');
  }

  lemma {:induction false} FeedCommand(l: Lexer, words: seq<string>)
    requires !l.inSingle && !l.inDouble && !l.escaped && l.current == ""
    ensures FeedAll(l, Command(words)) == l.(fields := l.fields + NonEmpty(words))
    decreases |words|
  {
    hide Quote, Feed, NonEmpty;
    NothingNonEmpty();
    if words == [] {
      assert l.fields + [] == l.fields;
    } else {
      var w := words[0];
      FeedConcat(l, Quote(w) + [' '], Command(words[1..]));
      FeedConcat(l, Quote(w), [' ']);
      FeedQuote(l, w);
      assert l.current + w == w;
      FeedSpace(l.(current := w));
      var next := Flush(l.(current := w));
      FeedCommand(next, words[1..]);
      FlushAdds(l, words);
    }
  }

  lemma NothingNonEmpty()
    ensures NonEmpty([]) == []
  {
  }

  lemma FlushAdds(l: Lexer, words: seq<string>)
    requires words != []
    ensures Flush(l.(current := words[0])).fields + NonEmpty(words[1..]) == l.fields + NonEmpty(words)
  {
    var rest := NonEmpty(words[1..]);
    if words[0] == "" {
      assert NonEmpty(words) == [] + rest == rest;
    } else {
      assert NonEmpty(words) == [words[0]] + rest;
      Regroup(l.fields, [words[0]], rest);
    }
  }

  lemma Regroup(a: seq<string>, b: seq<string>, c: seq<string>)
    ensures a + b + c == a + (b + c)
  {
  }

  lemma FeedSpace(l: Lexer)
    requires !l.inSingle && !l.inDouble && !l.escaped
    ensures FeedAll(l, [' ']) == Flush(l)
  {
    FeedOne(l, ' ');
  }

  /** Quoted words come back as they were, whatever they contain, but for empty ones: those a shell keeps are lost. */
  lemma SplitUndoesQuoting(words: seq<string>)
    ensures Fields(FeedAll(START, Command(words))) == Some(NonEmpty(words))
    ensures Fields(FeedAll(START, Command(words))) == Some(words) <==> "" !in words
  {
    FeedCommand(START, words);
    assert [] + NonEmpty(words) == NonEmpty(words);
    NonEmptyIs(words);
  }

  lemma {:induction false} NonEmptyIs(words: seq<string>)
    ensures |NonEmpty(words)| <= |words|
    ensures NonEmpty(words) == words <==> "" !in words
    ensures "" in words ==> |NonEmpty(words)| < |words|
  {
    if words != [] {
      NonEmptyIs(words[1..]);
      assert words == [words[0]] + words[1..];
    }
  }

  // ---------------------------------------------------------------- the words of a shell

  /** A shell on one line without expansions and operators. A word starts with its first character or quotation
      mark; kept counts the backslashes that stay because they stand in double quotes before an ordinary
      character (section 2.2.3). */
  datatype Shell = Shell(words: seq<string>, current: string, started: bool, inSingle: bool, inDouble: bool, escaped: bool,
                         kept: nat)

  const SHELL := Shell([], "", false, false, false, false, 0)

  function Put(h: Shell, text: string): Shell {
    h.(current := h.current + text, started := true)
  }

  function EndWord(h: Shell): Shell {
    if h.started then h.(words := h.words + [h.current], current := "", started := false) else h
  }

  predicate EscapedInDouble(ch: char) {
    ch == '$' || ch == '`' || ch == '"' || ch == '\\'
  }

  function ShellFeed(h: Shell, ch: char): Shell {
    if h.inSingle then
      if ch == '\'' then h.(inSingle := false) else Put(h, [ch])
    else if h.inDouble then
      if h.escaped then
        if EscapedInDouble(ch) then Put(h, [ch]).(escaped := false)
        else Put(h, ['\\', ch]).(escaped := false, kept := h.kept + 1)
      else if ch == '"' then h.(inDouble := false)
      else if ch == '\\' then h.(escaped := true)
      else Put(h, [ch])
    else if h.escaped then Put(h, [ch]).(escaped := false)
    else if ch == '\\' then h.(escaped := true)
    else if ch == '\'' then Put(h, "").(inSingle := true)
    else if ch == '"' then Put(h, "").(inDouble := true)
    else if ch == ' ' || ch == '\t' then EndWord(h)
    else Put(h, [ch])
  }

  function ShellAll(h: Shell, input: string): Shell
    decreases |input|
  {
    if input == "" then h else ShellAll(ShellFeed(h, input[0]), input[1..])
  }

  function Words(h: Shell): Option<seq<string>> {
    if h.escaped || h.inSingle || h.inDouble then None else Some(EndWord(h).words)
  }

  lemma {:induction false} ShellConcat(h: Shell, a: string, b: string)
    ensures ShellAll(h, a + b) == ShellAll(ShellAll(h, a), b)
    decreases |a|
  {
    if a == "" {
      assert a + b == b;
    } else {
      assert (a + b)[1..] == a[1..] + b;
      ShellConcat(ShellFeed(h, a[0]), a[1..], b);
    }
  }

  lemma ShellOne(h: Shell, c: char)
    ensures ShellAll(h, [c]) == ShellFeed(h, c)
  {
    assert [c][1..] == "";
  }

  lemma ShellPiece(h: Shell, c: char)
    requires h.inSingle && !h.inDouble && !h.escaped && h.started
    ensures ShellAll(h, if c == '\'' then ['\'', '\\', '\'', '\''] else [c]) == h.(current := h.current + [c])
  {
    if c == '\'' {
      assert ['\'', '\\', '\'', '\''] == ['\''] + (['\\'] + (['\''] + ['\'']));
      var open := h.(inSingle := false);
      var put := open.(current := h.current + [c]);
      ShellConcat(h, ['\''], ['\\'] + (['\''] + ['\'']));
      ShellConcat(open, ['\\'], ['\''] + ['\'']);
      ShellConcat(open.(escaped := true), ['\''], ['\'']);
      ShellOne(h, '\'');
      ShellOne(open, '\\');
      ShellOne(open.(escaped := true), '\'');
      ShellOne(put, '\'');
      assert put.current + "" == put.current;
    } else {
      ShellOne(h, c);
    }
  }

  lemma {:induction false} ShellInner(h: Shell, f: string)
    requires h.inSingle && !h.inDouble && !h.escaped && h.started
    ensures ShellAll(h, Inner(f)) == h.(current := h.current + f)
    decreases |f|
  {
    hide ShellFeed;
    if f == "" {
      assert h.current + f == h.current;
    } else {
      var c := f[0];
      ShellConcat(h, if c == '\'' then ['\'', '\\', '\'', '\''] else [c], Inner(f[1..]));
      ShellPiece(h, c);
      ShellInner(h.(current := h.current + [c]), f[1..]);
      assert h.current + [c] + f[1..] == h.current + f;
    }
  }

  lemma ShellQuote(h: Shell, f: string)
    requires !h.inSingle && !h.inDouble && !h.escaped && !h.started && h.current == ""
    ensures ShellAll(h, Quote(f) + [' ']) == h.(words := h.words + [f])
  {
    var within := h.(started := true, inSingle := true);
    var read := within.(current := f);
    assert Quote(f) + [' '] == ['\''] + (Inner(f) + (['\''] + [' '])) && h.current + "" == h.current && within.current + f == f;
    ShellConcat(h, ['\''], Inner(f) + (['\''] + [' ']));
    ShellConcat(within, Inner(f), ['\''] + [' ']);
    ShellConcat(read, ['\''], [' ']);
    ShellOne(h, '\'');
    ShellInner(within, f);
    ShellOne(read, '\'');
    ShellOne(read.(inSingle := false), ' ');
    hide ShellAll, Inner, Quote;
  }

  /** The shell itself keeps quoted words as they are, empty ones included. */
  lemma ShellKeepsQuoted(words: seq<string>)
    ensures Words(ShellAll(SHELL, Command(words))) == Some(words)
  {
    ShellCommand(SHELL, words);
    assert [] + words == words;
  }

  lemma {:induction false} ShellCommand(h: Shell, words: seq<string>)
    requires !h.inSingle && !h.inDouble && !h.escaped && !h.started && h.current == ""
    ensures ShellAll(h, Command(words)) == h.(words := h.words + words)
    decreases |words|
  {
    hide ShellFeed, Quote;
    if words == [] {
      assert h.words + [] == h.words;
    } else {
      ShellConcat(h, Quote(words[0]) + [' '], Command(words[1..]));
      ShellQuote(h, words[0]);
      ShellCommand(h.(words := h.words + [words[0]]), words[1..]);
      assert h.words + [words[0]] + words[1..] == h.words + words;
    }
  }

  function Total(words: seq<string>): nat {
    if words == [] then 0 else |words[0]| + Total(words[1..])
  }

  /** The tokeniser is where the shell is, in every kept backslash behind it, and without the empty words. */
  predicate InStep(l: Lexer, h: Shell) {
    && l.inSingle == h.inSingle && l.inDouble == h.inDouble && l.escaped == h.escaped
    && !(h.inSingle && (h.inDouble || h.escaped))
    && (h.current != "" ==> h.started)
    && Total(l.fields) + |l.current| + h.kept == Total(h.words) + |h.current|
    && (h.kept == 0 ==> l.fields == NonEmpty(h.words) && l.current == h.current)
  }

  lemma {:induction false} TotalConcat(a: seq<string>, w: string)
    ensures Total(a + [w]) == Total(a) + |w|
    ensures NonEmpty(a + [w]) == NonEmpty(a) + if w == "" then [] else [w]
  {
    if a == [] {
      assert a + [w] == [w] && [w][1..] == [];
    } else {
      assert (a + [w])[1..] == a[1..] + [w];
      TotalConcat(a[1..], w);
    }
  }

  lemma EndInStep(l: Lexer, h: Shell)
    requires InStep(l, h)
    ensures InStep(Flush(l), EndWord(h))
  {
    TotalConcat(l.fields, l.current);
    TotalConcat(h.words, h.current);
    assert h.current == "" ==> NonEmpty(h.words) + [] == NonEmpty(h.words);
    hide Total, NonEmpty;
  }

  lemma StepInStep(l: Lexer, h: Shell, ch: char)
    requires InStep(l, h)
    ensures InStep(Feed(l, ch), ShellFeed(h, ch))
  {
    hide Total, NonEmpty, Flush, EndWord;
    EndInStep(l, h);
    Nothing(h.current);
  }

  lemma Nothing(s: string)
    ensures s + "" == s
  {
  }

  lemma {:induction false} AllInStep(l: Lexer, h: Shell, input: string)
    requires InStep(l, h)
    ensures InStep(FeedAll(l, input), ShellAll(h, input))
    decreases |input|
  {
    if input != "" {
      StepInStep(l, h, input[0]);
      AllInStep(Feed(l, input[0]), ShellFeed(h, input[0]), input[1..]);
    }
  }

  /** The tokeniser and the shell refuse the same lines; otherwise the fields are the shell's words exactly when
      no word is empty and no backslash in double quotes stands before an ordinary character. */
  lemma FieldsAreWords(input: string)
    ensures var l, h := FeedAll(START, input), ShellAll(SHELL, input);
            && (Fields(l).None? <==> Words(h).None?)
            && (Words(h).Some? ==> (Fields(l) == Words(h) <==> h.kept == 0 && "" !in Words(h).value))
  {
    var l, h := FeedAll(START, input), ShellAll(SHELL, input);
    AllInStep(START, SHELL, input);
    EndInStep(l, h);
    NonEmptyIs(EndWord(h).words);
    hide FeedAll, ShellAll, Total, NonEmpty;
  }

  /** Both kinds of lines exist: two double quotes, and a backslash before a letter in double quotes. */
  lemma WordsLost()
    ensures var line := ['"', '"']; Fields(FeedAll(START, line)) == Some([]) && Words(ShellAll(SHELL, line)) == Some([""])
    ensures var line := ['"', '\\', 'a', '"'];
            Fields(FeedAll(START, line)) == Some([['a']]) && Words(ShellAll(SHELL, line)) == Some([['\\', 'a']])
  {
    hide FeedAll, ShellAll;
    forall w: string ensures [] + [w] == [w] && "" + w == w {}
    var l, h := Feed(START, '"'), ShellFeed(SHELL, '"');
    Unfold(START, SHELL, ['"', '"']);
    Unfold(l, h, ['"']);
    Unfold(START, SHELL, ['"', '\\', 'a', '"']);
    Unfold(l, h, ['\\', 'a', '"']);
    Unfold(Feed(l, '\\'), ShellFeed(h, '\\'), ['a', '"']);
    Unfold(Feed(Feed(l, '\\'), 'a'), ShellFeed(ShellFeed(h, '\\'), 'a'), ['"']);
  }

  lemma Unfold(l: Lexer, h: Shell, input: string)
    requires input != ""
    ensures FeedAll(l, input) == if |input| == 1 then Feed(l, input[0]) else FeedAll(Feed(l, input[0]), input[1..])
    ensures ShellAll(h, input) == if |input| == 1 then ShellFeed(h, input[0]) else ShellAll(ShellFeed(h, input[0]), input[1..])
  {
  }
}
