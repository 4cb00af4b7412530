/**
  Quoting an argument for the login shell (agent.rs, shell_quote), against a reading of the POSIX.1-2017
  Shell Command Language: sections 2.2.1 (escape character), 2.2.2 (single-quotes) and 2.3 (token
  recognition).
 */
module ShellWords {
  import opened Common

  /** A word, and whether no part of it was quoted; or the control operator `;`. */
  datatype Token = Word(text: string, bare: bool) | Semicolon

  /** `Unread` is text whose meaning lies outside those sections, or an unfinished quotation. */
  datatype Lexed = Tokens(tokens: seq<Token>) | Unread

  const QUOTE := '\''
  const BACKSLASH := '\\'

  /** The characters section 2.2 says to quote if they are to represent themselves. */
  predicate Special(c: char) {
    c in "|&;<>()$`\\\"' \t\n*?[#~=%"
  }

  function FirstQuote(s: string): (r: Option<nat>)
    ensures r.Some? ==> r.value < |s|
  {
    if s == "" then None
    else if s[0] == QUOTE then Some(0)
    else
      var later := FirstQuote(s[1..]);
      if later.Some? then Some(later.value + 1) else None
  }

  /** The word read so far, if one has begun. */
  datatype Pending = NoWord | Begun(text: string, bare: bool) {
    function Add(more: string, quoted: bool): Pending {
      match this
      case NoWord => Begun(more, !quoted)
      case Begun(text, bare) => Begun(text + more, bare && !quoted)
    }

    function Flushed(): seq<Token> {
      match this
      case NoWord => []
      case Begun(text, bare) => [Word(text, bare)]
    }
  }

  function Before(tokens: seq<Token>, rest: Lexed): Lexed {
    match rest
    case Tokens(more) => Tokens(tokens + more)
    case Unread => Unread
  }

  function Lex(s: string, word: Pending): Lexed
    decreases |s|
  {
    if s == "" then Tokens(word.Flushed())
    else if s[0] == QUOTE then
      match FirstQuote(s[1..])
      case None => Unread
      case Some(n) => Lex(s[n + 2..], word.Add(s[1..][..n], true))
    else if s[0] == BACKSLASH then
      if |s| == 1 then Unread
      else if s[1] == '\n' then Lex(s[2..], word)
      else Lex(s[2..], word.Add([s[1]], true))
    else if s[0] == ' ' || s[0] == '\t' then Before(word.Flushed(), Lex(s[1..], NoWord))
    else if s[0] == ';' then
      if |s| > 1 && s[1] == ';' then Unread
      else Before(word.Flushed() + [Semicolon], Lex(s[1..], NoWord))
    else if Special(s[0]) then Unread
    else Lex(s[1..], word.Add([s[0]], false))
  }

  /** Each `'` becomes `'\''`: close, an escaped quote, open again. */
  function Escaped(value: string): string {
    if value == "" then "" else (if value[0] == QUOTE then "'\\''" else [value[0]]) + Escaped(value[1..])
  }

  function ShellQuote(value: string): string {
    "'" + Escaped(value) + "'"
  }

  lemma {:induction false} EscapedUpToQuote(value: string, k: nat)
    requires k <= |value| && QUOTE !in value[..k]
    ensures Escaped(value) == value[..k] + Escaped(value[k..])
  {
    if k > 0 {
      assert value[..k][0] == value[0] && value[..k][1..] == value[1..][..k - 1];
      EscapedUpToQuote(value[1..], k - 1);
      assert value[1..][k - 1..] == value[k..];
    }
  }

  lemma {:induction false} FirstQuoteAfter(plain: string, rest: string)
    requires QUOTE !in plain
    ensures FirstQuote(plain + [QUOTE] + rest) == Some(|plain|)
  {
    if plain != "" {
      assert (plain + [QUOTE] + rest)[1..] == plain[1..] + [QUOTE] + rest;
      FirstQuoteAfter(plain[1..], rest);
    }
  }

  /** A quotation with no quote inside adds exactly its text. */
  lemma LexQuotation(plain: string, rest: string, word: Pending)
    requires QUOTE !in plain
    ensures Lex([QUOTE] + plain + [QUOTE] + rest, word) == Lex(rest, word.Add(plain, true))
  {
    var s := [QUOTE] + plain + [QUOTE] + rest;
    assert s[1..] == plain + [QUOTE] + rest;
    FirstQuoteAfter(plain, rest);
    assert s[1..][..|plain|] == plain && s[|plain| + 2..] == rest;
  }

  lemma {:induction false} SplitAtQuote(value: string) returns (k: nat)
    requires QUOTE in value
    ensures k < |value| && value[k] == QUOTE && QUOTE !in value[..k]
  {
    if value[0] == QUOTE {
      k := 0;
    } else {
      assert QUOTE in value[1..];
      var j := SplitAtQuote(value[1..]);
      k := j + 1;
      assert value[..k] == [value[0]] + value[1..][..j];
    }
  }

  /** A quotation, an escaped quote, and whatever follows. */
  lemma LexUpToQuote(head: string, more: string, word: Pending)
    requires QUOTE !in head
    ensures Lex([QUOTE] + head + [QUOTE] + ([BACKSLASH, QUOTE] + more), word)
            == Lex(more, word.Add(head, true).Add([QUOTE], true))
  {
    LexQuotation(head, [BACKSLASH, QUOTE] + more, word);
    assert ([BACKSLASH, QUOTE] + more)[2..] == more;
  }

  lemma QuoteSplit(value: string, k: nat, rest: string)
    requires k < |value| && value[k] == QUOTE && QUOTE !in value[..k]
    ensures ShellQuote(value) + rest
            == [QUOTE] + value[..k] + [QUOTE] + ([BACKSLASH, QUOTE] + (ShellQuote(value[k + 1..]) + rest))
  {
    EscapedUpToQuote(value, k);
    assert value[k..][1..] == value[k + 1..];
  }

  /**
    Whatever the argument, its quotation adds exactly the argument to the word being read, and
    nothing of it is taken as syntax.
   */
  lemma {:induction false} LexShellQuote(value: string, rest: string, word: Pending)
    ensures Lex(ShellQuote(value) + rest, word) == Lex(rest, word.Add(value, true))
    decreases |value|
  {
    if QUOTE !in value {
      assert value[..|value|] == value;
      EscapedUpToQuote(value, |value|);
      assert ShellQuote(value) + rest == [QUOTE] + value + [QUOTE] + rest;
      LexQuotation(value, rest, word);
    } else {
      var k := SplitAtQuote(value);
      QuoteSplit(value, k, rest);
      LexUpToQuote(value[..k], ShellQuote(value[k + 1..]) + rest, word);
      LexShellQuote(value[k + 1..], rest, word.Add(value[..k], true).Add([QUOTE], true));
      if word.Begun? {
        assert word.text + value[..k] + [QUOTE] + value[k + 1..] == word.text + (value[..k] + [QUOTE] + value[k + 1..]);
      }
      assert value[..k] + [QUOTE] + value[k + 1..] == value;
    }
  }

  /** The arguments quoted and separated by spaces. */
  function QuotedArguments(argv: seq<string>): string {
    if argv == [] then ""
    else if |argv| == 1 then ShellQuote(argv[0])
    else ShellQuote(argv[0]) + " " + QuotedArguments(argv[1..])
  }

  /** The command line the login shell is started with. */
  function LoginCommand(argv: seq<string>, shell: string): string {
    QuotedArguments(argv) + "; exec " + ShellQuote(shell) + " -i -l"
  }

  function QuotedWords(argv: seq<string>): (r: seq<Token>) {
    seq(|argv|, i requires 0 <= i < |argv| => Word(argv[i], false))
  }

  lemma LexBlank(rest: string, word: Pending)
    ensures Lex(" " + rest, word) == Before(word.Flushed(), Lex(rest, NoWord))
  {
    assert (" " + rest)[1..] == rest;
  }

  predicate Plain(s: string) {
    forall i :: 0 <= i < |s| ==> !Special(s[i])
  }

  lemma {:induction false} LexPlain(s: string, rest: string, word: Pending)
    requires Plain(s) && s != ""
    ensures Lex(s + rest, word) == Lex(rest, word.Add(s, false))
  {
    assert !Special(s[0]);
    assert (s + rest)[1..] == s[1..] + rest;
    if |s| == 1 {
      assert s[1..] + rest == rest && [s[0]] == s;
    } else {
      LexPlain(s[1..], rest, word.Add([s[0]], false));
      assert [s[0]] + s[1..] == s;
      if word.Begun? {
        assert word.text + [s[0]] + s[1..] == word.text + s;
      }
    }
  }

  lemma {:induction false} LexArguments(argv: seq<string>, rest: string)
    requires argv != []
    ensures Lex(QuotedArguments(argv) + rest, NoWord)
            == Before(QuotedWords(argv)[..|argv| - 1], Lex(rest, Begun(argv[|argv| - 1], false)))
  {
    if |argv| == 1 {
      LexShellQuote(argv[0], rest, NoWord);
      assert QuotedWords(argv)[..0] == [];
      BeforeTwice([], [], Lex(rest, Begun(argv[0], false)));
    } else {
      var tail := argv[1..];
      var more := QuotedArguments(tail) + rest;
      assert QuotedArguments(argv) + rest == ShellQuote(argv[0]) + (" " + more);
      LexShellQuote(argv[0], " " + more, NoWord);
      LexBlank(more, Begun(argv[0], false));
      LexArguments(tail, rest);
      assert QuotedWords(argv)[..|argv| - 1] == [Word(argv[0], false)] + QuotedWords(tail)[..|tail| - 1];
      BeforeTwice([Word(argv[0], false)], QuotedWords(tail)[..|tail| - 1], Lex(rest, Begun(argv[|argv| - 1], false)));
    }
  }

  lemma BeforeTwice(a: seq<Token>, b: seq<Token>, rest: Lexed)
    ensures Before(a, Before(b, rest)) == Before(a + b, rest)
    ensures Before([], rest) == rest
  {
    if rest.Tokens? {
      assert a + (b + rest.tokens) == a + b + rest.tokens;
      assert [] + rest.tokens == rest.tokens;
    }
  }

  lemma LexSemicolon(rest: string, word: Pending)
    requires rest != "" && rest[0] != ';'
    ensures Lex(";" + rest, word) == Before(word.Flushed() + [Semicolon], Lex(rest, NoWord))
  {
    assert (";" + rest)[1..] == rest;
  }

  /** A blank and a bare word. */
  lemma LexBareWord(w: string, rest: string, word: Pending)
    requires Plain(w) && w != ""
    ensures Lex(" " + (w + rest), word) == Before(word.Flushed(), Lex(rest, Begun(w, true)))
  {
    LexBlank(w + rest, word);
    LexPlain(w, rest, NoWord);
  }

  /** A blank and a quoted word. */
  lemma LexQuotedWord(value: string, rest: string, word: Pending)
    ensures Lex(" " + (ShellQuote(value) + rest), word) == Before(word.Flushed(), Lex(rest, Begun(value, false)))
  {
    LexBlank(ShellQuote(value) + rest, word);
    LexShellQuote(value, rest, NoWord);
  }

  lemma LexFlags(a: string, b: string, word: Pending)
    requires Plain(a) && a != "" && Plain(b) && b != ""
    ensures Lex(" " + (a + (" " + b)), word) == Tokens(word.Flushed() + [Word(a, true), Word(b, true)])
  {
    LexBareWord(b, "", Begun(a, true));
    assert b + "" == b;
    LexBareWord(a, " " + b, word);
  }

  /** The words of `name value a b`, the value quoted. */
  function CommandWords(name: string, value: string, a: string, b: string): seq<Token> {
    [Word(name, true), Word(value, false), Word(a, true), Word(b, true)]
  }

  lemma LexNextCommand(name: string, value: string, a: string, b: string)
    requires Plain(name) && name != "" && Plain(a) && a != "" && Plain(b) && b != ""
    ensures Lex(" " + (name + (" " + (ShellQuote(value) + (" " + (a + (" " + b)))))), NoWord)
            == Tokens(CommandWords(name, value, a, b))
  {
    LexFlags(a, b, Begun(value, false));
    LexQuotedWord(value, " " + (a + (" " + b)), Begun(name, true));
    var rest := " " + (ShellQuote(value) + (" " + (a + (" " + b))));
    LexBareWord(name, rest, NoWord);
    BeforeTwice([], [], Lex(rest, Begun(name, true)));
    assert CommandWords(name, value, a, b) == [Word(name, true)] + [Word(value, false), Word(a, true), Word(b, true)];
  }

  lemma Reassociated(shell: string)
    ensures "; exec " + ShellQuote(shell) + " -i -l"
            == ";" + (" " + ("exec" + (" " + (ShellQuote(shell) + (" " + ("-i" + (" " + "-l")))))))
  {
  }

  lemma LexAfterSemicolon(name: string, value: string, a: string, b: string, word: Pending)
    requires Plain(name) && name != "" && Plain(a) && a != "" && Plain(b) && b != ""
    ensures Lex(";" + (" " + (name + (" " + (ShellQuote(value) + (" " + (a + (" " + b))))))), word)
            == Tokens(word.Flushed() + [Semicolon] + CommandWords(name, value, a, b))
  {
    LexNextCommand(name, value, a, b);
    LexSemicolon(" " + (name + (" " + (ShellQuote(value) + (" " + (a + (" " + b)))))), word);
  }

  /** What follows the arguments: `; exec <shell> -i -l`. */
  lemma LexReturnToShell(shell: string, word: Pending)
    ensures Lex("; exec " + ShellQuote(shell) + " -i -l", word)
            == Tokens(word.Flushed() + [Semicolon] + CommandWords("exec", shell, "-i", "-l"))
  {
    Reassociated(shell);
    LexAfterSemicolon("exec", shell, "-i", "-l", word);
  }

  /**
    The shell reads the command line as exactly the original arguments, each one quoted (so none is
    a reserved word, an alias or a pattern), and then `;`, `exec`, the shell, `-i` and `-l`.
   */
  lemma LoginCommandReadsBack(argv: seq<string>, shell: string)
    requires argv != []
    ensures Lex(LoginCommand(argv, shell), NoWord)
            == Tokens(QuotedWords(argv) + [Semicolon] + CommandWords("exec", shell, "-i", "-l"))
  {
    var rest := "; exec " + ShellQuote(shell) + " -i -l";
    assert LoginCommand(argv, shell) == QuotedArguments(argv) + rest;
    LexArguments(argv, rest);
    LexReturnToShell(shell, Begun(argv[|argv| - 1], false));
    assert QuotedWords(argv) == QuotedWords(argv)[..|argv| - 1] + [Word(argv[|argv| - 1], false)];
  }
}
