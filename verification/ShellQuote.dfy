/** Commands handed to a shell (crates/mc-github/src/git.rs), read back by the token rules of
    sections 2.2.1, 2.2.2 and 2.3 of the POSIX.1-2017 Shell Command Language.

    The reader is strict: it gives up on any unquoted character the shell could take for
    something else than itself, so what it accepts means the same to every shell. */
module ShellQuote {
  import opened Basics

  // ---------------------------------------------------------------- quoting

  /** Every single quote becomes: close, escaped quote, open. */
  function Escape(raw: string): string {
    if raw == "" then ""
    else (if raw[0] == '\'' then "'\\''" else [raw[0]]) + Escape(raw[1..])
  }

  function Quote(raw: string): string { "'" + Escape(raw) + "'" }

  function QuoteAll(args: seq<string>): seq<string> {
    if args == [] then [] else [Quote(args[0])] + QuoteAll(args[1..])
  }

  function JoinSpaces(words: seq<string>): string {
    if words == [] then "" else if |words| == 1 then words[0] else words[0] + " " + JoinSpaces(words[1..])
  }

  const GIT_SETTINGS: seq<string> := ["-c", "core.createObject=rename"]

  function GitCommand(dir: string, args: seq<string>): string {
    "cd " + Quote(dir) + " && " + JoinSpaces(["git"] + QuoteAll(GIT_SETTINGS + args))
  }

  // ---------------------------------------------------------------- reading tokens

  datatype Token = Word(text: string) | AndIf

  /** Characters that section 2.2 says mean, or may mean, something when not quoted. */
  predicate Special(c: char) { c in "|&;<>()$`\\\"' \t\n*?[#~=%" }

  function Finish(word: Option<string>): seq<Token> { if word.Some? then [Word(word.value)] else [] }

  function Extend(word: Option<string>, c: char): Option<string> {
    Some((if word.Some? then word.value else "") + [c])
  }

  /** The tokens of `s`, `word` being the one under way; nothing when `s` is not plain words. */
  function Tokens(s: string, quoted: bool, word: Option<string>): Option<seq<Token>>
    decreases |s|
  {
    if quoted then
      if s == "" then None
      else if s[0] == '\'' then Tokens(s[1..], false, word)
      else Tokens(s[1..], true, Extend(word, s[0]))
    else if s == "" then Some(Finish(word))
    else if s[0] == '\'' then Tokens(s[1..], true, Some(if word.Some? then word.value else ""))
    else if s[0] == '\\' then
      if |s| == 1 then None
      else if s[1] == '\n' then Tokens(s[2..], false, word)
      else Tokens(s[2..], false, Extend(word, s[1]))
    else if s[0] == ' ' || s[0] == '\t' then Prefix(Finish(word), Tokens(s[1..], false, None))
    else if s[0] == '&' then
      if |s| >= 2 && s[1] == '&' then Prefix(Finish(word) + [AndIf], Tokens(s[2..], false, None)) else None
    else if Special(s[0]) then None
    else Tokens(s[1..], false, Extend(word, s[0]))
  }

  function Prefix(first: seq<Token>, rest: Option<seq<Token>>): Option<seq<Token>> {
    if rest.Some? then Some(first + rest.value) else None
  }

  function Read(s: string): Option<seq<Token>> { Tokens(s, false, None) }

  function Words(args: seq<string>): seq<Token> {
    if args == [] then [] else [Word(args[0])] + Words(args[1..])
  }

  // ---------------------------------------------------------------- reading what was quoted

  lemma InsideQuotes(c: char, rest: string, word: string)
    ensures Tokens((if c == '\'' then "'\\''" else [c]) + rest, true, Some(word)) == Tokens(rest, true, Some(word + [c]))
  {
    if c == '\'' {
      var s := "'\\''" + rest;
      assert s[1..] == "\\''" + rest;
      assert ("\\''" + rest)[2..] == "'" + rest;
      assert ("'" + rest)[1..] == rest;
      assert Tokens(s, true, Some(word)) == Tokens("\\''" + rest, false, Some(word));
      assert Tokens("\\''" + rest, false, Some(word)) == Tokens("'" + rest, false, Some(word + [c]));
    } else {
      assert ([c] + rest)[1..] == rest;
    }
  }

  lemma {:induction false} EscapedReads(raw: string, rest: string, word: string)
    ensures Tokens(Escape(raw) + rest, true, Some(word)) == Tokens(rest, true, Some(word + raw))
    decreases |raw|
  {
    hide Tokens;
    if raw == "" {
      assert "" + rest == rest && word + "" == word;
    } else {
      var head := if raw[0] == '\'' then "'\\''" else [raw[0]];
      assert Escape(raw) + rest == head + (Escape(raw[1..]) + rest);
      InsideQuotes(raw[0], Escape(raw[1..]) + rest, word);
      EscapedReads(raw[1..], rest, word + [raw[0]]);
      assert word + [raw[0]] + raw[1..] == word + raw;
    }
  }

  /** A quoted argument reads as itself, whatever it contains, even nothing. */
  lemma QuotedReads(raw: string, rest: string)
    ensures Tokens(Quote(raw) + rest, false, None) == Tokens(rest, false, Some(raw))
  {
    assert Quote(raw) + rest == "'" + (Escape(raw) + ("'" + rest));
    assert ("'" + (Escape(raw) + ("'" + rest)))[1..] == Escape(raw) + ("'" + rest);
    EscapedReads(raw, "'" + rest, "");
    assert "" + raw == raw;
    assert ("'" + rest)[1..] == rest;
  }

  lemma SpaceEnds(rest: string, word: string)
    ensures Tokens(" " + rest, false, Some(word)) == Prefix([Word(word)], Tokens(rest, false, None))
  {
    assert (" " + rest)[1..] == rest;
  }

  /** The joined words of any list of arguments read back as exactly that list. */
  lemma {:induction false} QuotedListReads(args: seq<string>)
    ensures Read(JoinSpaces(QuoteAll(args))) == Some(Words(args))
    decreases |args|
  {
    hide Tokens, Quote;
    if args == [] {
      EmptyReads(None);
    } else if |args| == 1 {
      assert QuoteAll(args[1..]) == [] && QuoteAll(args) == [Quote(args[0])];
      QuotedReads(args[0], "");
      assert Quote(args[0]) + "" == Quote(args[0]);
      EmptyReads(Some(args[0]));
      assert Words(args[1..]) == [] && Words(args) == [Word(args[0])];
    } else {
      var rest := JoinSpaces(QuoteAll(args[1..]));
      QuoteAllTail(args);
      assert JoinSpaces(QuoteAll(args)) == Quote(args[0]) + (" " + rest);
      QuotedReads(args[0], " " + rest);
      SpaceEnds(rest, args[0]);
      QuotedListReads(args[1..]);
    }
  }

  lemma EmptyReads(word: Option<string>)
    ensures Tokens("", false, word) == Some(Finish(word))
  {
  }

  lemma QuoteAllTail(args: seq<string>)
    requires |args| > 1
    ensures QuoteAll(args)[0] == Quote(args[0]) && QuoteAll(args)[1..] == QuoteAll(args[1..]) && |QuoteAll(args)| > 1
  {
    hide Quote;
    assert QuoteAll(args[1..]) != [];
  }

  lemma PlainReads(c: char, rest: string, word: Option<string>)
    requires !Special(c)
    ensures Tokens([c] + rest, false, word) == Tokens(rest, false, Extend(word, c))
  {
    assert ([c] + rest)[1..] == rest;
  }

  predicate Plain(s: string) { forall i :: 0 <= i < |s| ==> !Special(s[i]) }

  lemma {:induction false} PlainWordReads(s: string, rest: string, word: string)
    requires Plain(s)
    ensures Tokens(s + rest, false, Some(word)) == Tokens(rest, false, Some(word + s))
    decreases |s|
  {
    hide Tokens, Special;
    if s == "" {
      assert s + rest == rest && word + s == word;
    } else {
      assert s + rest == [s[0]] + (s[1..] + rest);
      PlainReads(s[0], s[1..] + rest, Some(word));
      PlainWordReads(s[1..], rest, word + [s[0]]);
      assert word + [s[0]] + s[1..] == word + s;
    }
  }

  lemma PlainStarts(s: string, rest: string)
    requires Plain(s) && s != ""
    ensures Tokens(s + " " + rest, false, None) == Prefix([Word(s)], Tokens(rest, false, None))
  {
    hide Tokens, Special;
    assert s + " " + rest == [s[0]] + (s[1..] + (" " + rest));
    PlainReads(s[0], s[1..] + (" " + rest), None);
    assert "" + [s[0]] == [s[0]];
    PlainWordReads(s[1..], " " + rest, [s[0]]);
    assert [s[0]] + s[1..] == s;
    SpaceEnds(rest, s);
  }

  lemma AndReads(rest: string)
    ensures Tokens("&& " + rest, false, None) == Prefix([AndIf], Tokens(rest, false, None))
  {
    assert ("&& " + rest)[2..] == " " + rest && (" " + rest)[1..] == rest;
    assert [] + [AndIf] == [AndIf];
    var inner := Tokens(rest, false, None);
    assert Tokens(" " + rest, false, None) == Prefix([], inner);
    if inner.Some? { assert [] + inner.value == inner.value; }
  }

  /** The whole command a git call becomes: enter the directory, then git with its settings and
      the caller's arguments, each exactly as given and nothing else. */
  lemma GitCommandReads(dir: string, args: seq<string>)
    ensures Read(GitCommand(dir, args))
         == Some([Word("cd"), Word(dir), AndIf, Word("git")] + Words(GIT_SETTINGS + args))
  {
    hide Tokens, Quote, QuoteAll, JoinSpaces, Words;
    var all := GIT_SETTINGS + args;
    var git := JoinSpaces(QuoteAll(all));
    GitFirst(all);
    var second := "git" + " " + git;
    assert GitCommand(dir, args) == "cd " + Quote(dir) + " && " + second;
    CdReads(dir, second);
    PlainStarts("git", git);
    QuotedListReads(all);
    FourThen(Word("cd"), Word(dir), AndIf, Word("git"), Words(all));
  }

  lemma CdReads(dir: string, second: string)
    ensures Read("cd " + Quote(dir) + " && " + second)
            == Prefix([Word("cd")], Prefix([Word(dir)], Prefix([AndIf], Read(second))))
  {
    hide Tokens, Quote;
    var rest := " " + ("&& " + second);
    assert "cd " + Quote(dir) + " && " + second == "cd" + " " + (Quote(dir) + rest);
    PlainStarts("cd", Quote(dir) + rest);
    QuotedReads(dir, rest);
    SpaceEnds("&& " + second, dir);
    AndReads(second);
  }

  lemma FourThen(a: Token, b: Token, c: Token, d: Token, rest: seq<Token>)
    ensures [a] + ([b] + ([c] + ([d] + rest))) == [a, b, c, d] + rest
  {
  }

  lemma GitFirst(all: seq<string>)
    requires all != []
    ensures JoinSpaces(["git"] + QuoteAll(all)) == "git" + " " + JoinSpaces(QuoteAll(all))
  {
    hide Quote;
    var words := ["git"] + QuoteAll(all);
    assert words[1..] == QuoteAll(all) && |words| > 1;
  }

  lemma {:induction false} WordsDiffer(a: seq<string>, b: seq<string>)
    requires Words(a) == Words(b)
    ensures a == b
    decreases |a|
  {
    if a == [] || b == [] {
    } else {
      assert Words(a)[0] == Words(b)[0] && Words(a)[1..] == Words(b)[1..];
      assert Words(a)[1..] == Words(a[1..]) && Words(b)[1..] == Words(b[1..]);
      WordsDiffer(a[1..], b[1..]);
      assert a == [a[0]] + a[1..] && b == [b[0]] + b[1..];
    }
  }

  /** Two argument lists are never written the same way. */
  lemma QuotingIsInjective(a: seq<string>, b: seq<string>)
    requires JoinSpaces(QuoteAll(a)) == JoinSpaces(QuoteAll(b))
    ensures a == b
  {
    hide Tokens, QuoteAll, JoinSpaces, Words;
    QuotedListReads(a);
    QuotedListReads(b);
    WordsDiffer(a, b);
  }

  /** Without quotes an argument can be a command: this one ends the word and starts another. */
  lemma UnquotedSplits(a: string, b: string)
    requires Plain(a) && a != ""
    ensures Read(a + " && " + b) != Some([Word(a + " && " + b)])
  {
    hide Tokens, Special;
    var rest := "&& " + b;
    assert a + " && " + b == a + " " + rest;
    PlainStarts(a, rest);
    if Read(a + " " + rest).Some? {
      assert Read(a + " " + rest).value[0] == Word(a);
      assert |a + " && " + b| > |a|;
    }
  }
}
