/** Shell-word splitting as done by Python's `shlex.split(s)` (POSIX mode,
    splitting on whitespace only, no comment characters), the subset of the
    quoting rules of section 2.2 of the POSIX Shell Command Language that
    `shlex` implements:
      - space, tab, CR and LF separate words;
      - a backslash outside quotes takes the next character literally;
      - single quotes take everything up to the next single quote literally;
      - inside double quotes a backslash escapes only '"' and '\' and is kept
        before any other character;
      - quotes may appear inside a word and do not end it, and a quoted empty
        string is a word of its own.
    A quote left open, or a backslash as the last character, is an error
    carrying `shlex`'s message. */
module ShellWords {
  import opened Wrappers
  import opened PyStr

  /** The characters `shlex` splits on. */
  predicate IsShellSpace(c: char) {
    c == ' ' || c == '\t' || c == '\r' || c == '\n'
  }

  /** A character that is neither a separator, a quote nor the escape character. */
  predicate IsPlain(c: char) {
    !IsShellSpace(c) && c != '\'' && c != '"' && c != '\\'
  }

  const NoClosingQuotation := "No closing quotation"
  const NoEscapedCharacter := "No escaped character"

  /** Where the lexer is: between words, or inside a word (outside quotes,
      inside single quotes, inside double quotes) whose text so far is `word`. */
  datatype LexState = Between | InWord(word: string) | InSingle(word: string) | InDouble(word: string)

  function Cons(w: string, r: Result<seq<string>, string>): Result<seq<string>, string> {
    match r
    case Success(ws) => Success([w] + ws)
    case Failure(e) => Failure(e)
  }

  /** The words of `s` read from state `st`. */
  function Lex(s: string, st: LexState): (r: Result<seq<string>, string>)
    ensures r.Failure? ==> r.error == NoClosingQuotation || r.error == NoEscapedCharacter
    decreases |s|
  {
    if |s| == 0 then
      match st
      case Between => Success([])
      case InWord(w) => Success([w])
      case InSingle(_) => Failure(NoClosingQuotation)
      case InDouble(_) => Failure(NoClosingQuotation)
    else
      var c := s[0];
      if st.InSingle? then
        if c == '\'' then Lex(s[1..], InWord(st.word)) else Lex(s[1..], InSingle(st.word + [c]))
      else if st.InDouble? then
        if c == '"' then Lex(s[1..], InWord(st.word))
        else if c == '\\' then
          if |s| == 1 then Failure(NoEscapedCharacter)
          else if s[1] == '"' || s[1] == '\\' then Lex(s[2..], InDouble(st.word + [s[1]]))
          else Lex(s[2..], InDouble(st.word + ['\\', s[1]]))
        else Lex(s[1..], InDouble(st.word + [c]))
      else
        // between words, or inside a word outside quotes
        var w := if st.InWord? then st.word else "";
        if IsShellSpace(c) then
          if st.InWord? then Cons(w, Lex(s[1..], Between)) else Lex(s[1..], Between)
        else if c == '\'' then Lex(s[1..], InSingle(w))
        else if c == '"' then Lex(s[1..], InDouble(w))
        else if c == '\\' then
          if |s| == 1 then Failure(NoEscapedCharacter) else Lex(s[2..], InWord(w + [s[1]]))
        else Lex(s[1..], InWord(w + [c]))
  }

  /** `shlex.split(command)`: the words, or the message of the ValueError. */
  function Tokenise(command: string): (r: Result<seq<string>, string>)
    ensures r.Failure? ==> r.error == NoClosingQuotation || r.error == NoEscapedCharacter
    ensures r == Success([]) <==> forall k :: 0 <= k < |command| ==> IsShellSpace(command[k])
  {
    NoWordsIffBlank(command);
    Lex(command, Between)
  }

  // ------------------------------------------------------------ lemmas

  /** Plain characters inside a word are copied into it one by one. */
  lemma {:induction false} LexPlainRun(w: string, rest: string, cur: string)
    requires forall k :: 0 <= k < |w| ==> IsPlain(w[k])
    ensures Lex(w + rest, InWord(cur)) == Lex(rest, InWord(cur + w))
    decreases |w|
  {
    if |w| > 0 {
      assert (w + rest)[0] == w[0];
      assert (w + rest)[1..] == w[1..] + rest;
      LexPlainRun(w[1..], rest, cur + [w[0]]);
      assert cur + [w[0]] + w[1..] == cur + w;
    } else {
      assert w + rest == rest;
      assert cur + w == cur;
    }
  }

  /** Characters other than a single quote are copied inside single quotes. */
  lemma {:induction false} LexSingleRun(w: string, rest: string, cur: string)
    requires forall k :: 0 <= k < |w| ==> w[k] != '\''
    ensures Lex(w + rest, InSingle(cur)) == Lex(rest, InSingle(cur + w))
    decreases |w|
  {
    if |w| > 0 {
      assert (w + rest)[0] == w[0];
      assert (w + rest)[1..] == w[1..] + rest;
      LexSingleRun(w[1..], rest, cur + [w[0]]);
      assert cur + [w[0]] + w[1..] == cur + w;
    } else {
      assert w + rest == rest;
      assert cur + w == cur;
    }
  }

  /** If each piece, read from between words, leaves the lexer inside the
      corresponding word, then the pieces joined by single spaces read back as
      exactly those words. */
  lemma {:induction false} LexJoined(pieces: seq<string>, words: seq<string>)
    requires |pieces| == |words| >= 1
    requires forall i, rest :: 0 <= i < |pieces| ==> Lex(pieces[i] + rest, Between) == Lex(rest, InWord(words[i]))
    ensures Lex(Join(pieces, " "), Between) == Success(words)
    decreases |pieces|
  {
    if |pieces| == 1 {
      assert pieces[0] + "" == pieces[0];
      assert Lex(pieces[0] + "", Between) == Lex("", InWord(words[0]));
      assert words == [words[0]];
    } else {
      var tail := Join(pieces[1..], " ");
      LexJoined(pieces[1..], words[1..]);
      assert Join(pieces, " ") == pieces[0] + (" " + tail);
      assert Lex(pieces[0] + (" " + tail), Between) == Lex(" " + tail, InWord(words[0]));
      assert (" " + tail)[1..] == tail;
      assert words == [words[0]] + words[1..];
    }
  }

  /** A non-empty run of plain characters is read as one word. */
  lemma PlainWordPiece(w: string, rest: string)
    requires |w| > 0 && forall k :: 0 <= k < |w| ==> IsPlain(w[k])
    ensures Lex(w + rest, Between) == Lex(rest, InWord(w))
  {
    assert (w + rest)[0] == w[0];
    assert (w + rest)[1..] == w[1..] + rest;
    assert "" + [w[0]] == [w[0]];
    LexPlainRun(w[1..], rest, [w[0]]);
    assert [w[0]] + w[1..] == w;
  }

  /** Round trip: words made of plain characters, joined by spaces, split back
      into the same words. */
  lemma TokeniseUnwords(words: seq<string>)
    requires |words| >= 1
    requires forall i :: 0 <= i < |words| ==> |words[i]| > 0
    requires forall i, k :: 0 <= i < |words| && 0 <= k < |words[i]| ==> IsPlain(words[i][k])
    ensures Tokenise(Join(words, " ")) == Success(words)
  {
    forall i, rest | 0 <= i < |words|
      ensures Lex(words[i] + rest, Between) == Lex(rest, InWord(words[i]))
    {
      PlainWordPiece(words[i], rest);
    }
    LexJoined(words, words);
  }

  /** A word wrapped in single quotes. */
  function SingleQuoted(w: string): string {
    "'" + w + "'"
  }

  lemma SingleQuotedPiece(w: string, rest: string)
    requires forall k :: 0 <= k < |w| ==> w[k] != '\''
    ensures Lex(SingleQuoted(w) + rest, Between) == Lex(rest, InWord(w))
  {
    var s := SingleQuoted(w) + rest;
    assert s[0] == '\'';
    assert s[1..] == w + ("'" + rest);
    LexSingleRun(w, "'" + rest, "");
    assert "" + w == w;
    assert ("'" + rest)[1..] == rest;
  }

  /** Round trip: any words free of single quotes, even empty ones or ones
      holding spaces, survive single-quoting and joining with spaces. */
  lemma TokeniseSingleQuoted(words: seq<string>)
    requires |words| >= 1
    requires forall i, k :: 0 <= i < |words| && 0 <= k < |words[i]| ==> words[i][k] != '\''
    ensures Tokenise(Join(seq(|words|, i requires 0 <= i < |words| => SingleQuoted(words[i])), " ")) == Success(words)
  {
    var pieces := seq(|words|, i requires 0 <= i < |words| => SingleQuoted(words[i]));
    forall i, rest | 0 <= i < |pieces|
      ensures Lex(pieces[i] + rest, Between) == Lex(rest, InWord(words[i]))
    {
      SingleQuotedPiece(words[i], rest);
    }
    LexJoined(pieces, words);
  }

  /** Once a word has been started, a successful read yields at least one word. */
  lemma {:induction false} StartedWordIsKept(s: string, st: LexState)
    requires !st.Between? && Lex(s, st).Success?
    ensures |Lex(s, st).value| >= 1
    decreases |s|
  {
    if |s| > 0 {
      var c := s[0];
      match st
      case InSingle(w) =>
        if c == '\'' { StartedWordIsKept(s[1..], InWord(w)); }
        else { StartedWordIsKept(s[1..], InSingle(w + [c])); }
      case InDouble(w) =>
        if c == '"' { StartedWordIsKept(s[1..], InWord(w)); }
        else if c == '\\' {
          if s[1] == '"' || s[1] == '\\' { StartedWordIsKept(s[2..], InDouble(w + [s[1]])); }
          else { StartedWordIsKept(s[2..], InDouble(w + ['\\', s[1]])); }
        } else { StartedWordIsKept(s[1..], InDouble(w + [c])); }
      case InWord(w) =>
        if IsShellSpace(c) {
        } else if c == '\'' { StartedWordIsKept(s[1..], InSingle(w)); }
        else if c == '"' { StartedWordIsKept(s[1..], InDouble(w)); }
        else if c == '\\' { StartedWordIsKept(s[2..], InWord(w + [s[1]])); }
        else { StartedWordIsKept(s[1..], InWord(w + [c])); }
    }
  }

  /** A command splits into no words exactly when it is all separators. */
  lemma {:induction false} NoWordsIffBlank(s: string)
    ensures Lex(s, Between) == Success([]) <==> forall k :: 0 <= k < |s| ==> IsShellSpace(s[k])
    decreases |s|
  {
    if |s| > 0 {
      NoWordsIffBlank(s[1..]);
      assert forall k :: 1 <= k < |s| ==> s[k] == s[1..][k - 1];
      var c := s[0];
      if !IsShellSpace(c) {
        if c == '\'' {
          if Lex(s[1..], InSingle("")).Success? { StartedWordIsKept(s[1..], InSingle("")); }
        } else if c == '"' {
          if Lex(s[1..], InDouble("")).Success? { StartedWordIsKept(s[1..], InDouble("")); }
        } else if c == '\\' {
          if |s| > 1 { assert "" + [s[1]] == [s[1]]; }
          if |s| > 1 && Lex(s[2..], InWord([s[1]])).Success? { StartedWordIsKept(s[2..], InWord([s[1]])); }
        } else {
          assert "" + [c] == [c];
          if Lex(s[1..], InWord([c])).Success? { StartedWordIsKept(s[1..], InWord([c])); }
        }
      }
    }
  }
}
