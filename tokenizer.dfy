/** The query scanner `tokenize` of src/utils/token.ts: a pure step function
    that specifies one iteration of its loop, the lexeme sequence it yields,
    the properties of that sequence, and the imperative scanner proved to
    produce it. */
module Tokenizer {

  import opened Strings
  import opened Seqs
  import opened Types
  import opened Tokens

  /** The `(modifier, value)` pair a pushed token is constructed from. */
  datatype Lexeme = Lexeme(modifier: string, value: string)

  /** The scanner's `mode` variable. */
  datatype Mode = Default | Whitespace | InQuote

  /** The scanner's variables: the tokens pushed so far and the pending
      `modifier`, `value` and `mode`. */
  datatype Scan = Scan(done: seq<Lexeme>, modifier: string, value: string, mode: Mode)

  const Start: Scan := Scan([], "", "", Default)

  /** Push the pending pair and reset it. */
  function Push(s: Scan, mode: Mode): Scan {
    Scan(s.done + [Lexeme(s.modifier, s.value)], "", "", mode)
  }

  /** One iteration of the scanner's loop, for character `c`. */
  function Step(s: Scan, c: char, configMap: ConfigMap): Scan {
    match s.mode
    case Default =>
      var mode := if c == '"' then InQuote else Default;
      if s.modifier != "" then
        // a space ends the token once the value holds a non-space, or at once after `#`;
        // the space itself is appended after the reset
        var t := if c == ' ' && (HasNonSpace(s.value) || s.modifier == "#") then Push(s, Whitespace)
                 else s.(mode := mode);
        t.(value := t.value + [c])
      else
        var t := if c == ' ' then (if |s.value| > 0 then Push(s, Whitespace) else s.(mode := Whitespace))
                 else s.(mode := mode);
        var v := t.value + [c];
        // promotion: the value, in its original case, becomes the modifier
        if Lower(v) in configMap then t.(modifier := v, value := "") else t.(value := v)
    case Whitespace =>
      // the character that ends a run of spaces is appended without a key check
      var t := if c == ' ' then s
               else if s.modifier != "" || |s.value| > 0 then Push(s, Default)
               else s.(mode := Default);
      t.(value := t.value + [c])
    case InQuote =>
      s.(value := s.value + [c], mode := if c == '"' then Default else InQuote)
  }

  /** The scanner's state after consuming `chars` from `s`. */
  function Run(s: Scan, chars: string, configMap: ConfigMap): Scan
    decreases |chars|
  {
    if chars == [] then s
    else Step(Run(s, chars[..|chars| - 1], configMap), chars[|chars| - 1], configMap)
  }

  /** The virtual step past the end of the text: push what is pending. */
  function Flush(s: Scan): seq<Lexeme> {
    if s.modifier != "" || |s.value| > 0 then s.done + [Lexeme(s.modifier, s.value)] else s.done
  }

  /** The lexemes `tokenize` constructs its tokens from. */
  function Lex(text: string, configMap: ConfigMap): seq<Lexeme> {
    if text == "" then [] else Flush(Run(Start, text, configMap))
  }

  /** The text of a lexeme sequence, modifier before value, in order. */
  function Concat(ls: seq<Lexeme>): string {
    if ls == [] then "" else Concat(ls[..|ls| - 1]) + ls[|ls| - 1].modifier + ls[|ls| - 1].value
  }

  lemma ConcatPush(ls: seq<Lexeme>, l: Lexeme)
    ensures Concat(ls + [l]) == Concat(ls) + l.modifier + l.value
  {
    assert (ls + [l])[..|ls|] == ls;
  }

  predicate NonEmpty(l: Lexeme) {
    l.modifier != "" || l.value != ""
  }

  /** What holds of the scanner's variables after every iteration. */
  predicate Good(s: Scan, consumed: string, configMap: ConfigMap) {
    && Concat(s.done) + s.modifier + s.value == consumed
    && (forall j :: 0 <= j < |s.done| ==> NonEmpty(s.done[j]))
    && (forall j :: 0 <= j < |s.done| && s.done[j].modifier != "" ==> Lower(s.done[j].modifier) in configMap)
    && (s.modifier != "" ==> Lower(s.modifier) in configMap)
    && (s.modifier == "" && s.value == "" ==> s.done == [] && consumed == "")
    && (forall j :: 0 < j < |s.done| && |s.done[j].modifier| == 1 ==> s.done[j].modifier == " ")
    && (|s.modifier| == 1 && s.modifier != " " ==> s.done == [])
  }

  lemma PushGood(s: Scan, consumed: string, configMap: ConfigMap, mode: Mode)
    requires Good(s, consumed, configMap) && NonEmpty(Lexeme(s.modifier, s.value))
    requires |s.modifier| == 1 && s.done != [] ==> s.modifier == " "
    ensures var t := Push(s, mode);
            && Concat(t.done) == consumed
            && (forall j :: 0 <= j < |t.done| ==> NonEmpty(t.done[j]))
            && (forall j :: 0 <= j < |t.done| && t.done[j].modifier != "" ==> Lower(t.done[j].modifier) in configMap)
            && (forall j :: 0 < j < |t.done| && |t.done[j].modifier| == 1 ==> t.done[j].modifier == " ")
  {
    var l := Lexeme(s.modifier, s.value);
    var t := Push(s, mode);
    assert t.done == s.done + [l];
    ConcatPush(s.done, l);
    forall j | 0 <= j < |t.done|
      ensures NonEmpty(t.done[j])
      ensures t.done[j].modifier != "" ==> Lower(t.done[j].modifier) in configMap
      ensures 0 < j && |t.done[j].modifier| == 1 ==> t.done[j].modifier == " "
    {
      if j < |s.done| {
        assert t.done[j] == s.done[j];
      } else {
        assert t.done[j] == l;
      }
    }
  }

  /** Appending a character to the pending value keeps the invariant. */
  lemma AppendGood(s: Scan, c: char, consumed: string, configMap: ConfigMap, mode: Mode)
    requires Good(s, consumed, configMap)
    ensures Good(s.(value := s.value + [c], mode := mode), consumed + [c], configMap)
  {
    assert Concat(s.done) + s.modifier + (s.value + [c]) == consumed + [c];
  }

  /** Pushing the pending pair, then appending a character, keeps the invariant. */
  lemma PushAppendGood(s: Scan, c: char, consumed: string, configMap: ConfigMap, mode: Mode)
    requires Good(s, consumed, configMap) && NonEmpty(Lexeme(s.modifier, s.value))
    requires |s.modifier| == 1 && s.done != [] ==> s.modifier == " "
    ensures Good(Push(s, mode).(value := [c]), consumed + [c], configMap)
  {
    PushGood(s, consumed, configMap, mode);
    var t := Push(s, mode).(value := [c]);
    assert Concat(t.done) + t.modifier + t.value == consumed + [c];
  }

  /** The pending value is extended by `c`, and possibly promoted to the
      modifier. */
  lemma BareGrowGood(s: Scan, t: Scan, c: char, consumed: string, configMap: ConfigMap)
    requires Good(s, consumed, configMap) && s.modifier == ""
    requires t.done == s.done && t.modifier == "" && t.value == s.value
    ensures var v := t.value + [c];
            Good(if Lower(v) in configMap then t.(modifier := v, value := "") else t.(value := v),
                 consumed + [c], configMap)
  {
    var v := t.value + [c];
    AppendGood(s, c, consumed, configMap, t.mode);
    assert Concat(t.done) + v == consumed + [c];
    if s.value == "" {
      assert s.done == [];
    }
  }

  /** A space after a bare value pushes it, and the space starts the next
      value, possibly promoted to the modifier. */
  lemma BarePushGood(s: Scan, consumed: string, configMap: ConfigMap)
    requires Good(s, consumed, configMap) && s.modifier == "" && |s.value| > 0
    ensures var t := Push(s, Whitespace);
            Good(if Lower([' ']) in configMap then t.(modifier := [' '], value := "") else t.(value := [' ']),
                 consumed + [' '], configMap)
  {
    PushAppendGood(s, ' ', consumed, configMap, Whitespace);
    PushGood(s, consumed, configMap, Whitespace);
  }

  lemma StepDefaultBareGood(s: Scan, c: char, consumed: string, configMap: ConfigMap)
    requires Good(s, consumed, configMap) && s.mode == Default && s.modifier == ""
    ensures Good(Step(s, c, configMap), consumed + [c], configMap)
  {
    if c == ' ' && |s.value| > 0 {
      assert Push(s, Whitespace).value + [c] == [' '];
      BarePushGood(s, consumed, configMap);
    } else {
      var t := if c == ' ' then s.(mode := Whitespace) else s.(mode := if c == '"' then InQuote else Default);
      BareGrowGood(s, t, c, consumed, configMap);
    }
  }

  lemma StepDefaultModifierGood(s: Scan, c: char, consumed: string, configMap: ConfigMap)
    requires Good(s, consumed, configMap) && s.mode == Default && s.modifier != ""
    ensures Good(Step(s, c, configMap), consumed + [c], configMap)
  {
    var mode := if c == '"' then InQuote else Default;
    if c == ' ' && (HasNonSpace(s.value) || s.modifier == "#") {
      assert Step(s, c, configMap) == Push(s, Whitespace).(value := [c]);
      PushAppendGood(s, c, consumed, configMap, Whitespace);
    } else {
      assert Step(s, c, configMap) == s.(value := s.value + [c], mode := mode);
      AppendGood(s, c, consumed, configMap, mode);
    }
  }

  lemma StepWhitespaceGood(s: Scan, c: char, consumed: string, configMap: ConfigMap)
    requires Good(s, consumed, configMap) && s.mode == Whitespace
    ensures Good(Step(s, c, configMap), consumed + [c], configMap)
  {
    if c == ' ' {
      assert Step(s, c, configMap) == s.(value := s.value + [c], mode := Whitespace);
      AppendGood(s, c, consumed, configMap, Whitespace);
    } else if s.modifier != "" || |s.value| > 0 {
      assert Step(s, c, configMap) == Push(s, Default).(value := [c]);
      PushAppendGood(s, c, consumed, configMap, Default);
    } else {
      assert Step(s, c, configMap) == s.(value := s.value + [c], mode := Default);
      AppendGood(s, c, consumed, configMap, Default);
    }
  }

  lemma StepGood(s: Scan, c: char, consumed: string, configMap: ConfigMap)
    requires Good(s, consumed, configMap)
    ensures Good(Step(s, c, configMap), consumed + [c], configMap)
  {
    match s.mode
    case Default =>
      if s.modifier != "" {
        StepDefaultModifierGood(s, c, consumed, configMap);
      } else {
        StepDefaultBareGood(s, c, consumed, configMap);
      }
    case Whitespace =>
      StepWhitespaceGood(s, c, consumed, configMap);
    case InQuote =>
      AppendGood(s, c, consumed, configMap, if c == '"' then Default else InQuote);
  }

  lemma {:induction false} RunGood(text: string, configMap: ConfigMap)
    ensures Good(Run(Start, text, configMap), text, configMap)
    decreases |text|
  {
    if text != [] {
      var init := text[..|text| - 1];
      RunGood(init, configMap);
      StepGood(Run(Start, init, configMap), text[|text| - 1], init, configMap);
      assert init + [text[|text| - 1]] == text;
    }
  }

  /** Round trip: the lexemes spell the text exactly, every lexeme is
      non-empty, and every modifier is a config key once lower-cased (in the
      case it was typed). */
  lemma LexSpec(text: string, configMap: ConfigMap)
    ensures Concat(Lex(text, configMap)) == text
    ensures forall j :: 0 <= j < |Lex(text, configMap)| ==> NonEmpty(Lex(text, configMap)[j])
    ensures forall j :: 0 <= j < |Lex(text, configMap)| && Lex(text, configMap)[j].modifier != "" ==>
      Lower(Lex(text, configMap)[j].modifier) in configMap
    ensures text == "" ==> Lex(text, configMap) == []
  {
    if text != "" {
      var s := Run(Start, text, configMap);
      RunGood(text, configMap);
      var ls := Lex(text, configMap);
      // after a character something is always pending
      assert s.modifier != "" || |s.value| > 0;
      ConcatPush(s.done, Lexeme(s.modifier, s.value));
      assert ls == s.done + [Lexeme(s.modifier, s.value)];
    }
  }

  /** A one-character modifier is recognised only in the first token, except
      a one-space key, which can be recognised right after a token ends. */
  lemma SingleCharModifiers(text: string, configMap: ConfigMap)
    ensures forall j :: 0 < j < |Lex(text, configMap)| && |Lex(text, configMap)[j].modifier| == 1 ==>
      Lex(text, configMap)[j].modifier == " "
  {
    if text != "" {
      RunGood(text, configMap);
    }
  }

  /** After a committed modifier, a space ends the token exactly when the
      value already holds a non-space or the modifier is `#`; otherwise it
      joins the value. */
  lemma ModifierSpace(s: Scan, configMap: ConfigMap)
    requires s.mode == Default && s.modifier != ""
    ensures Step(s, ' ', configMap)
      == if AllSpaces(s.value) && s.modifier != "#" then s.(value := s.value + [' '])
         else Push(s, Whitespace).(value := [' '])
  {
    if !AllSpaces(s.value) {
      var i :| 0 <= i < |s.value| && s.value[i] != ' ';
      assert HasNonSpace(s.value);
    }
  }

  /** The shape of spaces in the scanner's state: a pushed value that ends in
      a space is all spaces, so is the pending value in the whitespace mode,
      and outside a quote a pending value ending in a space is all spaces. */
  predicate SpaceShape(s: Scan) {
    && (forall j :: 0 <= j < |s.done| && EndsWithSpace(s.done[j].value) ==> AllSpaces(s.done[j].value))
    && (s.mode == Whitespace ==> AllSpaces(s.value))
    && (s.mode == Default && EndsWithSpace(s.value) ==> AllSpaces(s.value))
  }

  /** Pushing the pending pair keeps the shape of the pushed values. */
  lemma PushSpaceShape(s: Scan, mode: Mode)
    requires SpaceShape(s) && s.mode != InQuote
    ensures forall j :: 0 <= j < |Push(s, mode).done| && EndsWithSpace(Push(s, mode).done[j].value) ==>
      AllSpaces(Push(s, mode).done[j].value)
  {
    var t := Push(s, mode);
    forall j | 0 <= j < |t.done| && EndsWithSpace(t.done[j].value)
      ensures AllSpaces(t.done[j].value)
    {
      if j < |s.done| {
        assert t.done[j] == s.done[j];
      } else {
        assert t.done[j].value == s.value;
      }
    }
  }

  lemma StepModifierSpaceShape(s: Scan, c: char, configMap: ConfigMap)
    requires SpaceShape(s) && s.mode == Default && s.modifier != ""
    ensures SpaceShape(Step(s, c, configMap))
  {
    if c == ' ' {
      ModifierSpace(s, configMap);
      if !(AllSpaces(s.value) && s.modifier != "#") {
        PushSpaceShape(s, Whitespace);
      }
    } else {
      var r := Step(s, c, configMap);
      assert r.done == s.done && r.value == s.value + [c];
    }
  }

  lemma StepBareSpaceShape(s: Scan, c: char, configMap: ConfigMap)
    requires SpaceShape(s) && s.mode == Default && s.modifier == ""
    ensures SpaceShape(Step(s, c, configMap))
  {
    var r := Step(s, c, configMap);
    if c == ' ' {
      if |s.value| > 0 {
        PushSpaceShape(s, Whitespace);
        assert r.done == Push(s, Whitespace).done;
      }
      assert AllSpaces(r.value) && r.mode == Whitespace;
    } else {
      assert r.done == s.done && (r.value == "" || r.value == s.value + [c]);
    }
  }

  lemma StepWhitespaceSpaceShape(s: Scan, c: char, configMap: ConfigMap)
    requires SpaceShape(s) && s.mode == Whitespace
    ensures SpaceShape(Step(s, c, configMap))
  {
    var r := Step(s, c, configMap);
    if c == ' ' {
      assert r == s.(value := s.value + [c]);
    } else {
      if s.modifier != "" || |s.value| > 0 {
        PushSpaceShape(s, Default);
        assert r == Push(s, Default).(value := [c]);
      } else {
        assert r == s.(value := s.value + [c], mode := Default);
      }
    }
  }

  lemma StepSpaceShape(s: Scan, c: char, configMap: ConfigMap)
    requires SpaceShape(s)
    ensures SpaceShape(Step(s, c, configMap))
  {
    match s.mode
    case Default =>
      if s.modifier != "" {
        StepModifierSpaceShape(s, c, configMap);
      } else {
        StepBareSpaceShape(s, c, configMap);
      }
    case Whitespace => StepWhitespaceSpaceShape(s, c, configMap);
    case InQuote =>
  }

  lemma {:induction false} RunSpaceShape(text: string, configMap: ConfigMap)
    ensures SpaceShape(Run(Start, text, configMap))
    decreases |text|
  {
    if text != [] {
      RunSpaceShape(text[..|text| - 1], configMap);
      StepSpaceShape(Run(Start, text[..|text| - 1], configMap), text[|text| - 1], configMap);
    }
  }

  /** Runs of spaces become tokens of their own: every lexeme but the last
      whose value ends in a space holds only spaces. */
  lemma SpaceRuns(text: string, configMap: ConfigMap)
    ensures var ls := Lex(text, configMap);
      forall j :: 0 <= j < |ls| - 1 && EndsWithSpace(ls[j].value) ==> AllSpaces(ls[j].value)
  {
    if text != "" {
      var s := Run(Start, text, configMap);
      RunSpaceShape(text, configMap);
      var ls := Lex(text, configMap);
      forall j | 0 <= j < |ls| - 1 && EndsWithSpace(ls[j].value)
        ensures AllSpaces(ls[j].value)
      {
        assert j < |s.done| && ls[j] == s.done[j];
      }
    }
  }

  /** Consuming `a + b` is consuming `a`, then `b`. */
  lemma {:induction false} RunAppend(s: Scan, a: string, b: string, configMap: ConfigMap)
    ensures Run(s, a + b, configMap) == Run(Run(s, a, configMap), b, configMap)
    decreases |b|
  {
    if b == [] {
      assert a + b == a;
    } else {
      var n := |b| - 1;
      RunAppend(s, a, b[..n], configMap);
      assert (a + b)[..|a + b| - 1] == a + b[..n];
    }
  }

  /** Inside a quote a segment without quote characters is appended to the
      pending value as it stands: no token ends, no modifier is recognised. */
  lemma {:induction false} QuotedRun(s: Scan, q: string, configMap: ConfigMap)
    requires s.mode == InQuote
    requires forall i :: 0 <= i < |q| ==> q[i] != '"'
    ensures Run(s, q, configMap) == s.(value := s.value + q)
    decreases |q|
  {
    if q == [] {
      assert s.value + q == s.value;
    } else {
      var n := |q| - 1;
      QuotedRun(s, q[..n], configMap);
      assert s.value + q == (s.value + q[..n]) + [q[n]];
    }
  }

  /** With a modifier committed, characters other than spaces and quotes are
      appended to the value. */
  lemma {:induction false} ModifierRun(s: Scan, w: string, configMap: ConfigMap)
    requires s.mode == Default && s.modifier != ""
    requires forall i :: 0 <= i < |w| ==> w[i] != ' ' && w[i] != '"'
    ensures Run(s, w, configMap) == s.(value := s.value + w)
    decreases |w|
  {
    if w == [] {
      assert s.value + w == s.value;
    } else {
      var n := |w| - 1;
      ModifierRun(s, w[..n], configMap);
      assert s.value + w == (s.value + w[..n]) + [w[n]];
    }
  }

  /** With no modifier committed, characters other than spaces and quotes are
      appended to the value as long as no value they form names a key. */
  lemma {:induction false} BareRun(s: Scan, w: string, configMap: ConfigMap)
    requires s.mode == Default && s.modifier == ""
    requires forall i :: 0 <= i < |w| ==> w[i] != ' ' && w[i] != '"'
    requires forall k :: 1 <= k <= |w| ==> Lower(s.value + w[..k]) !in configMap
    ensures Run(s, w, configMap) == s.(value := s.value + w)
    decreases |w|
  {
    if w == [] {
      assert s.value + w == s.value;
    } else {
      var n := |w| - 1;
      forall k | 1 <= k <= n
        ensures Lower(s.value + w[..n][..k]) !in configMap
      {
        assert w[..n][..k] == w[..k];
      }
      BareRun(s, w[..n], configMap);
      assert s.value + w == (s.value + w[..n]) + [w[n]];
      assert w[..|w|] == w;
    }
  }

  /** Running one character is one step. */
  lemma RunOne(s: Scan, c: char, configMap: ConfigMap)
    ensures Run(s, [c], configMap) == Step(s, c, configMap)
  {
    assert [c][..0] == [];
  }

  /** An opening quote in the default mode keeps the pushed tokens and enters
      the quoted mode. */
  lemma OpenQuote(s: Scan, configMap: ConfigMap)
    requires s.mode == Default
    ensures var open := Step(s, '"', configMap);
            open.done == s.done && open.mode == InQuote
  {
  }

  /** Quote containment, for a quote opened in the default mode: the quote
      character, the quoted text and the closing quote all join the pending
      token, and the scanner is back in the default mode with nothing pushed. */
  lemma QuoteContainment(s: Scan, q: string, configMap: ConfigMap)
    requires s.mode == Default
    requires forall i :: 0 <= i < |q| ==> q[i] != '"'
    ensures var r := Run(s, ['"'] + q + ['"'], configMap);
      && r.done == s.done && r.mode == Default
      && |r.value| >= |q| + 1 && r.value[|r.value| - |q| - 1..] == q + ['"']
  {
    var open := Step(s, '"', configMap);
    OpenQuote(s, configMap);
    RunOne(s, '"', configMap);
    RunAppend(s, ['"'], q, configMap);
    QuotedRun(open, q, configMap);
    var inner := open.(value := open.value + q);
    RunAppend(s, ['"'] + q, ['"'], configMap);
    RunOne(inner, '"', configMap);
    var r := Step(inner, '"', configMap);
    assert r == inner.(value := open.value + (q + ['"']), mode := Default);
    assert r.value[|open.value|..] == q + ['"'];
  }

  /** The tokens hold the lexemes, in order, over the given config map, with
      nothing announced yet. */
  predicate Represents(tokens: seq<Token>, ls: seq<Lexeme>, configMap: ConfigMap)
    reads tokens
  {
    && |tokens| == |ls|
    && forall j :: 0 <= j < |tokens| ==>
         && tokens[j].modifier == ls[j].modifier && tokens[j].value == ls[j].value
         && tokens[j].configMap == configMap && tokens[j].events == []
  }

  /** The concatenated `fullText` of a token sequence. */
  function FullTexts(tokens: seq<Token>): string
    reads tokens
  {
    if tokens == [] then "" else FullTexts(tokens[..|tokens| - 1]) + tokens[|tokens| - 1].FullText()
  }

  lemma {:induction false} FullTextsConcat(tokens: seq<Token>, ls: seq<Lexeme>, configMap: ConfigMap)
    requires Represents(tokens, ls, configMap)
    ensures FullTexts(tokens) == Concat(ls)
    decreases |tokens|
  {
    if tokens != [] {
      var n := |tokens| - 1;
      FullTextsConcat(tokens[..n], ls[..n], configMap);
    }
  }

  /** `tokens.push(new Token(modifier, value, configMap))`. */
  method Emit(tokens: seq<Token>, modifier: string, value: string, configMap: ConfigMap,
              ghost ls: seq<Lexeme>) returns (r: seq<Token>)
    requires Represents(tokens, ls, configMap) && NoDuplicates(tokens)
    ensures Represents(r, ls + [Lexeme(modifier, value)], configMap)
    ensures r[..|tokens|] == tokens
    ensures fresh(r[|tokens|]) && r[|tokens|] !in tokens
    ensures NoDuplicates(r)
  {
    var t := new Token(modifier, value, configMap);
    r := tokens + [t];
    assert r[..|tokens|] == tokens;
  }

  /** One iteration of `tokenize`'s loop for `character`, on the scanner's
      variables, pushing at most one fresh token. */
  method Advance(tokens: seq<Token>, modifier: string, value: string, mode: Mode, character: char,
                 configMap: ConfigMap, ghost done: seq<Lexeme>)
    returns (tokens': seq<Token>, modifier': string, value': string, mode': Mode)
    requires Represents(tokens, done, configMap) && NoDuplicates(tokens)
    ensures var t := Step(Scan(done, modifier, value, mode), character, configMap);
      && t.modifier == modifier' && t.value == value' && t.mode == mode'
      && Represents(tokens', t.done, configMap)
    ensures NoDuplicates(tokens')
    ensures |tokens| <= |tokens'| && tokens'[..|tokens|] == tokens
    ensures forall j :: |tokens| <= j < |tokens'| ==> fresh(tokens'[j])
  {
    tokens', modifier', value', mode' := tokens, modifier, value, mode;
    match mode
    case Default =>
      if character == '"' {
        mode' := InQuote;
      }
      if modifier' != "" {
        if character == ' ' && (HasNonSpace(value') || modifier' == "#") {
          tokens' := Emit(tokens', modifier', value', configMap, done);
          modifier' := "";
          value' := "";
          mode' := Whitespace;
        }
        value' := value' + [character];
      } else {
        if character == ' ' {
          if |value'| > 0 {
            tokens' := Emit(tokens', modifier', value', configMap, done);
            modifier' := "";
            value' := "";
          }
          mode' := Whitespace;
        }
        value' := value' + [character];
        if Lower(value') in configMap {
          modifier' := value';
          value' := "";
        }
      }
    case Whitespace =>
      if character != ' ' {
        if modifier' != "" || |value'| > 0 {
          tokens' := Emit(tokens', modifier', value', configMap, done);
          modifier' := "";
          value' := "";
        }
        mode' := Default;
      }
      value' := value' + [character];
    case InQuote =>
      if character == '"' {
        mode' := Default;
      }
      value' := value' + [character];
  }

  /** The step past the end of the text: push what is pending. */
  method Finish(tokens: seq<Token>, modifier: string, value: string, configMap: ConfigMap,
                ghost s: Scan) returns (tokens': seq<Token>)
    requires Represents(tokens, s.done, configMap) && NoDuplicates(tokens)
    requires s.modifier == modifier && s.value == value
    ensures Represents(tokens', Flush(s), configMap)
    ensures NoDuplicates(tokens')
    ensures |tokens| <= |tokens'| && tokens'[..|tokens|] == tokens
    ensures forall j :: |tokens| <= j < |tokens'| ==> fresh(tokens'[j])
  {
    tokens' := tokens;
    if modifier != "" || |value| > 0 {
      tokens' := Emit(tokens, modifier, value, configMap, s.done);
    }
  }

  /** `tokenize(text, configMap)`: every token is a new object, each a
      different one. */
  method Tokenize(text: string, configMap: ConfigMap) returns (tokens: seq<Token>)
    ensures Represents(tokens, Lex(text, configMap), configMap)
    ensures FullTexts(tokens) == text
    ensures text == "" ==> tokens == []
    ensures NoDuplicates(tokens)
    ensures forall j :: 0 <= j < |tokens| ==> fresh(tokens[j])
  {
    if text == "" {
      return [];
    }
    tokens := [];
    var value := "";
    var modifier := "";
    var mode := Default;
    for i := 0 to |text|
      invariant var s := Run(Start, text[..i], configMap);
        && s.modifier == modifier && s.value == value && s.mode == mode
        && Represents(tokens, s.done, configMap)
      invariant NoDuplicates(tokens)
      invariant forall j :: 0 <= j < |tokens| ==> fresh(tokens[j])
    {
      assert text[..i + 1][..i] == text[..i];
      ghost var before := tokens;
      tokens, modifier, value, mode :=
        Advance(tokens, modifier, value, mode, text[i], configMap, Run(Start, text[..i], configMap).done);
      forall j | 0 <= j < |tokens| ensures fresh(tokens[j]) {
        if j < |before| {
          assert tokens[j] == tokens[..|before|][j] == before[j];
        }
      }
    }
    assert text[..|text|] == text;
    ghost var before := tokens;
    tokens := Finish(tokens, modifier, value, configMap, Run(Start, text, configMap));
    forall j | 0 <= j < |tokens| ensures fresh(tokens[j]) {
      if j < |before| {
        assert tokens[j] == tokens[..|before|][j] == before[j];
      }
    }
    LexSpec(text, configMap);
    FullTextsConcat(tokens, Lex(text, configMap), configMap);
  }
}
