/** Concrete runs of the scanner, worked a few characters at a time. */
module TokenizerExamples {
  import opened Wrappers
  import opened Strings
  import opened Types
  import opened Tokenizer

  /** Any entry will do: the scanner only looks at the keys. */
  const Entry: SearchContextConfig := SearchContextConfig([], None, None, "", [])

  /** A config map with the keys `#` and `is:`. */
  const HashAndIs: ConfigMap := map["#" := Entry, "is:" := Entry]

  /** The state after `i + 1` characters is one step past the state after `i`. */
  lemma RunPrefix(s: Scan, text: string, i: nat, configMap: ConfigMap)
    requires i < |text|
    ensures Run(s, text[..i + 1], configMap) == Step(Run(s, text[..i], configMap), text[i], configMap)
  {
    assert text[..i + 1][..i] == text[..i];
  }

  lemma LowerHash()
    ensures Lower("#") == "#"
  {
  }

  /** `#` is recognised as a modifier by its first character. */
  lemma HashStep()
    ensures Step(Start, '#', HashAndIs) == Scan([], "#", "", Default)
  {
    LowerHash();
    assert "" + ['#'] == "#";
  }

  lemma RunHash()
    ensures Run(Start, "#", HashAndIs) == Scan([], "#", "", Default)
  {
    HashStep();
    assert "#"[..0] == [];
    assert "#"[0] == '#';
  }

  lemma RunHashBug()
    ensures Run(Start, "#bug", HashAndIs) == Scan([], "#", "bug", Default)
  {
    RunHash();
    ModifierRun(Scan([], "#", "", Default), "bug", HashAndIs);
    RunAppend(Start, "#", "bug", HashAndIs);
    assert "#" + "bug" == "#bug";
  }

  /** A space ends `#bug` and is held alone. */
  lemma SpaceAfterHash()
    ensures Step(Scan([], "#", "bug", Default), ' ', HashAndIs)
      == Scan([Lexeme("#", "bug")], "", " ", Whitespace)
  {
    assert HasNonSpace("bug") by { assert "bug"[0] != ' '; }
  }

  lemma RunHashBugSpace()
    ensures Run(Start, "#bug ", HashAndIs) == Scan([Lexeme("#", "bug")], "", " ", Whitespace)
  {
    RunHashBug();
    SpaceAfterHash();
    RunPrefix(Start, "#bug ", 4, HashAndIs);
    assert "#bug "[..4] == "#bug";
  }

  /** The `i` that ends the run of spaces pushes the space as a token. */
  lemma RunHashBugSpaceI()
    ensures Run(Start, "#bug i", HashAndIs) == Scan([Lexeme("#", "bug"), Lexeme("", " ")], "", "i", Default)
  {
    RunHashBugSpace();
    RunPrefix(Start, "#bug i", 5, HashAndIs);
    assert "#bug i"[..5] == "#bug ";
  }

  lemma IsStep()
    ensures Step(Scan([Lexeme("#", "bug"), Lexeme("", " ")], "", "i", Default), 's', HashAndIs)
      == Scan([Lexeme("#", "bug"), Lexeme("", " ")], "", "is", Default)
  {
    assert Lower("is") == "is" && "i" + ['s'] == "is";
  }

  lemma RunHashBugSpaceIs()
    ensures Run(Start, "#bug is", HashAndIs) == Scan([Lexeme("#", "bug"), Lexeme("", " ")], "", "is", Default)
  {
    RunHashBugSpaceI();
    IsStep();
    RunPrefix(Start, "#bug is", 6, HashAndIs);
    assert "#bug is"[..6] == "#bug i";
  }

  /** `is:` is recognised once its colon is typed. */
  lemma IsColonStep()
    ensures Step(Scan([Lexeme("#", "bug"), Lexeme("", " ")], "", "is", Default), ':', HashAndIs)
      == Scan([Lexeme("#", "bug"), Lexeme("", " ")], "is:", "", Default)
  {
    assert Lower("is:") == "is:" && "is" + [':'] == "is:";
  }

  lemma RunHashBugSpaceIsColon()
    ensures Run(Start, "#bug is:", HashAndIs) == Scan([Lexeme("#", "bug"), Lexeme("", " ")], "is:", "", Default)
  {
    RunHashBugSpaceIs();
    IsColonStep();
    RunPrefix(Start, "#bug is:", 7, HashAndIs);
    assert "#bug is:"[..7] == "#bug is";
  }

  lemma RunHashBugSpaceIsOpen()
    ensures Run(Start, "#bug is:open", HashAndIs)
      == Scan([Lexeme("#", "bug"), Lexeme("", " ")], "is:", "open", Default)
  {
    RunHashBugSpaceIsColon();
    ModifierRun(Scan([Lexeme("#", "bug"), Lexeme("", " ")], "is:", "", Default), "open", HashAndIs);
    RunAppend(Start, "#bug is:", "open", HashAndIs);
    assert "#bug is:" + "open" == "#bug is:open";
    assert "" + "open" == "open";
  }

  /** `#bug is:open` over the keys `#` and `is:`: the space that ends the `#`
      token becomes a token of its own, and `is:` is recognised after it. */
  lemma HashThenIs()
    ensures Lex("#bug is:open", HashAndIs)
      == [Lexeme("#", "bug"), Lexeme("", " "), Lexeme("is:", "open")]
  {
    RunHashBugSpaceIsOpen();
  }

  lemma RunHello()
    ensures Run(Start, "hello", map[]) == Scan([], "", "hello", Default)
  {
    BareRun(Start, "hello", map[]);
    assert "" + "hello" == "hello";
  }

  lemma RunHelloSpace()
    ensures Run(Start, "hello ", map[]) == Scan([Lexeme("", "hello")], "", " ", Whitespace)
  {
    RunHello();
    RunPrefix(Start, "hello ", 5, map[]);
    assert "hello "[..5] == "hello";
  }

  lemma RunHelloSpaceW()
    ensures Run(Start, "hello w", map[]) == Scan([Lexeme("", "hello"), Lexeme("", " ")], "", "w", Default)
  {
    RunHelloSpace();
    RunPrefix(Start, "hello w", 6, map[]);
    assert "hello w"[..6] == "hello ";
  }

  lemma RunOrld()
    ensures Run(Scan([Lexeme("", "hello"), Lexeme("", " ")], "", "w", Default), "orld", map[])
      == Scan([Lexeme("", "hello"), Lexeme("", " ")], "", "world", Default)
  {
    BareRun(Scan([Lexeme("", "hello"), Lexeme("", " ")], "", "w", Default), "orld", map[]);
    assert "w" + "orld" == "world";
  }

  lemma RunHelloWorld()
    ensures Run(Start, "hello world", map[]) == Scan([Lexeme("", "hello"), Lexeme("", " ")], "", "world", Default)
  {
    RunHelloSpaceW();
    RunOrld();
    RunAppend(Start, "hello w", "orld", map[]);
    assert "hello w" + "orld" == "hello world";
  }

  /** `hello world` with no keys: the separating space is a token of its own. */
  lemma TwoWords()
    ensures Lex("hello world", map[])
      == [Lexeme("", "hello"), Lexeme("", " "), Lexeme("", "world")]
  {
    RunHelloWorld();
  }

  lemma RunA()
    ensures Run(Start, "a", map[]) == Scan([], "", "a", Default)
  {
    RunOne(Start, 'a', map[]);
    assert "" + ['a'] == "a" == ['a'];
  }

  lemma RunASpace()
    ensures Run(Start, "a ", map[]) == Scan([Lexeme("", "a")], "", " ", Whitespace)
  {
    RunA();
    RunPrefix(Start, "a ", 1, map[]);
    assert "a "[..1] == "a";
  }

  /** The quote after the space is pushed along with nothing else; no quote
      is opened. */
  lemma RunASpaceQuoteB()
    ensures Run(Start, "a \"b", map[]) == Scan([Lexeme("", "a"), Lexeme("", " ")], "", "\"b", Default)
  {
    RunASpace();
    var s2 := Scan([Lexeme("", "a")], "", " ", Whitespace);
    var s3 := Scan([Lexeme("", "a"), Lexeme("", " ")], "", "\"", Default);
    assert Step(s2, '"', map[]) == s3;
    RunPrefix(Start, "a \"", 2, map[]);
    assert "a \""[..2] == "a ";
    assert Step(s3, 'b', map[]) == Scan([Lexeme("", "a"), Lexeme("", " ")], "", "\"b", Default);
    RunPrefix(Start, "a \"b", 3, map[]);
    assert "a \"b"[..3] == "a \"";
  }

  lemma RunASpaceQuoteBSpace()
    ensures Run(Start, "a \"b ", map[])
      == Scan([Lexeme("", "a"), Lexeme("", " "), Lexeme("", "\"b")], "", " ", Whitespace)
  {
    RunASpaceQuoteB();
    RunPrefix(Start, "a \"b ", 4, map[]);
    assert "a \"b "[..4] == "a \"b";
  }

  /** A quote that follows a space does not open a quote (the whitespace mode
      does not look for quotes), so `a "b c"` is split inside the quotes. */
  lemma QuoteAfterSpace()
    ensures Lex("a \"b c\"", map[])
      == [Lexeme("", "a"), Lexeme("", " "), Lexeme("", "\"b"), Lexeme("", " "), Lexeme("", "c\"")]
  {
    RunASpaceQuoteBSpace();
    var s5 := Scan([Lexeme("", "a"), Lexeme("", " "), Lexeme("", "\"b")], "", " ", Whitespace);
    var s6 := Scan([Lexeme("", "a"), Lexeme("", " "), Lexeme("", "\"b"), Lexeme("", " ")], "", "c", Default);
    assert Step(s5, 'c', map[]) == s6;
    RunPrefix(Start, "a \"b c", 5, map[]);
    assert "a \"b c"[..5] == "a \"b ";
    assert Step(s6, '"', map[])
      == Scan([Lexeme("", "a"), Lexeme("", " "), Lexeme("", "\"b"), Lexeme("", " ")], "", "c\"", InQuote);
    RunPrefix(Start, "a \"b c\"", 6, map[]);
    assert "a \"b c\""[..6] == "a \"b c";
  }
}
