/** The token entity of src/utils/token.ts (a copy of which, differing only in
    decorators, is src/models/token.ts): a mutable `(modifier, value)` pair over
    a shared config map, with derived getters and three mutators. */
module Tokens {

  import opened Wrappers
  import opened Strings
  import opened Seqs
  import opened Types
  import opened ListSource

  /** The one event a token emits. */
  const ModelAssigned: string := "modelAssigned"

  /** The modifier the `fullText` setter picks for `text` under `config`: `+`
      for text starting with `+`, otherwise the first property name of the
      entry that prefixes `text`; the empty string stands for "none" (an empty
      matching name is falsy too). */
  function ChosenModifier(config: Option<SearchContextConfig>, text: string): (m: string)
    ensures config.None? ==> m == ""
    ensures m != "" ==> IsPrefix(m, text)
    ensures config.Some? && IsPrefix("+", text) ==> m == "+"
    ensures config.Some? && !IsPrefix("+", text) && m != "" ==>
      exists i :: 0 <= i < |config.value.propertyNames| && config.value.propertyNames[i] == m &&
                  forall j :: 0 <= j < i ==> !IsPrefix(config.value.propertyNames[j], text)
    ensures config.Some? && !IsPrefix("+", text) && (forall k :: k in config.value.propertyNames ==> !IsPrefix(k, text))
            ==> m == ""
  {
    match config
    case None => ""
    case Some(c) =>
      if IsPrefix("+", text) then "+"
      else match FindIndex(c.propertyNames, (k: string) => IsPrefix(k, text))
        case None => ""
        case Some(i) => c.propertyNames[i]
  }

  /** The predicate of `firstHint`'s `find`. */
  predicate MatchesTyped(u: Helpers, normalizedValue: string, h: Hint) {
    |normalizedValue| == 0 || IsPrefix(normalizedValue, u.normalized(Serialize(h)))
  }

  /** The text `subHint` completes: a plain hint itself, else its serialisation. */
  function CompletionText(h: Hint): (s: string)
    ensures h.Plain? ==> s == h.text
    ensures h.Modifier? ==> s == h.value
  {
    if h.Plain? then h.text else Serialize(h)
  }

  class Token {
    var modifier: string
    var value: string
    const configMap: ConfigMap
    /** The names `trigger` has announced, oldest first. */
    var events: seq<string>

    constructor (modifier: string, value: string, configMap: ConfigMap)
      ensures this.modifier == modifier && this.value == value
      ensures this.configMap == configMap && events == []
    {
      this.modifier := modifier;
      this.value := value;
      this.configMap := configMap;
      events := [];
    }

    /** `config`: the entry of the lower-cased modifier; for a modifier-less
        token, the `_default` entry unless the value is empty or one space. */
    function Config(): (r: Option<SearchContextConfig>)
      reads this
      ensures r.Some? <==>
        if modifier != "" then Lower(modifier) in configMap
        else value != "" && value != " " && DefaultKey in configMap
      ensures r.Some? && modifier != "" ==> r.value == configMap[Lower(modifier)]
      ensures r.Some? && modifier == "" ==> r.value == configMap[DefaultKey]
    {
      if modifier != "" then Get(configMap, Lower(modifier))
      else if value != "" && value != " " then Get(configMap, DefaultKey)
      else None
    }

    /** `type`: the entry's type tag, `space` when there is no entry or the
        tag is empty. */
    function Type(): (r: string)
      reads this
      ensures r != ""
      ensures Config().None? ==> r == "space"
      ensures Config().Some? && Config().value.typeTag != "" ==> r == Config().value.typeTag
      ensures Config().Some? && Config().value.typeTag == "" ==> r == "space"
    {
      var c := Config();
      if c.Some? && c.value.typeTag != "" then c.value.typeTag else "space"
    }

    /** `sectionTitle`: dereferences the entry, so it throws without one. */
    function SectionTitle(): (r: Outcome<Option<string>>)
      reads this
      ensures r.ThrowsTypeError? <==> Config().None?
      ensures r.Returns? ==> r.value == Config().value.sectionTitle
    {
      match Config()
      case None => ThrowsTypeError
      case Some(c) => Returns(c.sectionTitle)
    }

    /** `content`: dereferences the entry, so it throws without one. */
    function Content(): (r: Outcome<seq<Hint>>)
      reads this
      ensures r.ThrowsTypeError? <==> Config().None?
      ensures r.Returns? ==> r.value == Config().value.content
    {
      match Config()
      case None => ThrowsTypeError
      case Some(c) => Returns(c.content)
    }

    /** `fullText` getter: the modifier followed by the value. */
    function FullText(): (r: string)
      reads this
      ensures |r| == |modifier| + |value|
      ensures r[..|modifier|] == modifier && r[|modifier|..] == value
    {
      modifier + value
    }

    /** `length`. */
    function Length(): (n: nat)
      reads this
      ensures n == |modifier| + |value|
    {
      |FullText()|
    }

    function NormalizedValue(u: Helpers): string
      reads this
    {
      u.normalized(value)
    }

    /** `isValueValid`: the value validates against the entry's content. */
    function IsValueValid(u: Helpers): (r: Outcome<bool>)
      reads this
      ensures r.ThrowsTypeError? <==> Config().None?
      ensures r.Returns? ==>
        (r.value <==> exists h :: h in Config().value.content &&
                                  u.normalized(Serialize(h)) == u.normalized(value))
    {
      match Content()
      case ThrowsTypeError => ThrowsTypeError
      case Returns(c) => Returns(Validate(u, value, Some(c)))
    }

    /** `hints`: the matching structured hints of the entry's content. */
    function Hints(u: Helpers): (r: Outcome<seq<Hint>>)
      reads this
      ensures r.ThrowsTypeError? <==> Config().None?
      ensures r.Returns? ==> NoDuplicates(r.value)
      ensures r.Returns? ==> forall i :: 0 <= i < |r.value| ==> r.value[i].Modifier? && r.value[i].value != value
      ensures r.Returns? && Config().value.content == [] ==> r.value == []
    {
      match Content()
      case ThrowsTypeError => ThrowsTypeError
      case Returns(c) => Returns(GetHints(u, value, Some(c)))
    }

    /** `firstHint`: the first hint whose normalised text starts with the
        normalised value (any hint when that is empty). */
    function FirstHint(u: Helpers): (r: Outcome<Option<Hint>>)
      reads this
      ensures r.ThrowsTypeError? <==> Config().None?
      ensures r.Returns? && r.value.Some? ==>
        exists k :: 0 <= k < |Hints(u).value| && Hints(u).value[k] == r.value.value &&
                    MatchesTyped(u, NormalizedValue(u), r.value.value) &&
                    forall j :: 0 <= j < k ==> !MatchesTyped(u, NormalizedValue(u), Hints(u).value[j])
      ensures r.Returns? && r.value.None? ==>
        forall h :: h in Hints(u).value ==> !MatchesTyped(u, NormalizedValue(u), h)
      ensures r.Returns? && NormalizedValue(u) == "" ==>
        r.value == if Hints(u).value == [] then None else Some(Hints(u).value[0])
    {
      match Hints(u)
      case ThrowsTypeError => ThrowsTypeError
      case Returns(hs) =>
        var nv := NormalizedValue(u);
        Returns(Find(hs, (h: Hint) => MatchesTyped(u, nv, h)))
    }

    /** `subHint`: the ghost completion shown after the caret. */
    function SubHint(u: Helpers): (r: Outcome<Option<string>>)
      reads this
      ensures r.ThrowsTypeError? <==> Config().None?
      ensures r.Returns? && value == "" ==> r.value == None
      ensures IsValueValid(u) == Returns(true) && EndsWithQuote(value) ==> r == Returns(None)
      ensures FirstHint(u) == Returns(None) ==> r == Returns(None)
    {
      match IsValueValid(u)
      case ThrowsTypeError => ThrowsTypeError
      case Returns(valid) =>
        if valid && EndsWithQuote(value) then Returns(None)
        else
          var lowered := Lower(value);
          if |lowered| == 0 then Returns(None)
          // the entry exists here, so `firstHint` does not throw
          else match FirstHint(u).value
            case None => Returns(None)
            case Some(first) =>
              var text := CompletionText(first);
              if IsPrefix(u.normalized(lowered), u.normalized(text))
              then Returns(Some(Substr(u.unquoted(text), |u.normalized(lowered)|)))
              else Returns(None)
    }

    /** `hint`: the placeholder text; the sub-hint once something is typed,
        the entry's default hint before. */
    function Hint(u: Helpers): (r: Outcome<Option<string>>)
      reads this
      ensures r.ThrowsTypeError? <==> Config().None?
      ensures r.Returns? && value != "" ==> r == SubHint(u)
      ensures r.Returns? && value == "" ==> r.value == Config().value.defaultHint
    {
      if |value| > 0 then SubHint(u)
      else match Config()
        case None => ThrowsTypeError
        case Some(c) => Returns(c.defaultHint)
    }

    /** `model` getter: the content item owning the normalised value, only
        when the value is valid. */
    function Model(u: Helpers): (r: Outcome<Option<Types.Hint>>)
      reads this
      ensures r.ThrowsTypeError? <==> Config().None?
      ensures r.Returns? && !IsValueValid(u).value ==> r.value == None
      ensures r.Returns? && r.value.Some? ==>
        && IsValueValid(u).value
        && r.value.value.Modifier?
        && r.value.value.value == NormalizedValue(u)
        && exists k :: 0 <= k < |Config().value.content| && Config().value.content[k] == r.value.value &&
                       forall j :: 0 <= j < k ==> !OwnsValue(Config().value.content[j], NormalizedValue(u))
      ensures r.Returns? && IsValueValid(u).value ==>
        (r.value.Some? <==> exists h :: h in Config().value.content && OwnsValue(h, NormalizedValue(u)))
    {
      match IsValueValid(u)
      case ThrowsTypeError => ThrowsTypeError
      case Returns(valid) =>
        if valid then Returns(Deserialize(NormalizedValue(u), Some(Content().value)))
        else Returns(None)
    }

    /** `fullText` setter. */
    method SetFullText(text: string)
      modifies this`modifier, this`value
      ensures var m := ChosenModifier(old(Config()), text);
        if m != "" then modifier == m && value == text[|m|..]
        else if old(Config()).Some? && text != "" then modifier == old(modifier) && value == text
        else modifier == old(modifier) && value == old(value)
      ensures ChosenModifier(old(Config()), text) != "" ==> FullText() == text
      ensures old(Config()).None? ==> modifier == old(modifier) && value == old(value)
    {
      var configs := Config();
      if configs.Some? {
        var chosen := "";
        if IsPrefix("+", text) {
          chosen := "+";
        } else {
          var names := configs.value.propertyNames;
          var i := 0;
          while i < |names|
            invariant 0 <= i <= |names|
            invariant forall j :: 0 <= j < i ==> !IsPrefix(names[j], text)
            invariant chosen == ""
          {
            if IsPrefix(names[i], text) {
              chosen := names[i];
              break;
            }
            i := i + 1;
          }
          assert chosen == ChosenModifier(configs, text);
        }
        if chosen != "" {
          modifier := chosen;
          value := text[|chosen|..];
        } else if text != "" {
          value := text;
        }
      }
    }

    /** `model` setter: every branch announces `modelAssigned` once. */
    method SetModel(newModel: Types.Hint)
      modifies this`modifier, this`value, this`events
      ensures events == old(events) + [ModelAssigned]
      ensures newModel.Plain? ==> modifier == old(modifier) && value == ""
      ensures newModel.Modifier? && !newModel.fullText && !newModel.modifier ==>
        modifier == old(modifier) && value == newModel.value
      ensures newModel.Modifier? && (newModel.fullText || newModel.modifier) ==>
        var m := ChosenModifier(old(Config()), newModel.value);
        if m != "" then modifier == m && value == newModel.value[|m|..]
        else if old(Config()).Some? && newModel.value != "" then modifier == old(modifier) && value == newModel.value
        else modifier == old(modifier) && value == old(value)
    {
      var val := Serialize(newModel);
      if newModel.Plain? {
        value := val;
        events := events + [ModelAssigned];
        return;
      }
      if newModel.fullText || newModel.modifier {
        SetFullText(val);
      } else {
        value := val;
      }
      events := events + [ModelAssigned];
    }

    /** `autoComplete`: adopt the first hint when it has a non-empty
        completion, reporting whether it did. */
    method AutoComplete(u: Helpers) returns (r: Outcome<bool>)
      modifies this`modifier, this`value
      ensures r.ThrowsTypeError? <==> old(Config()).None?
      ensures r == Returns(false) ==> modifier == old(modifier) && value == old(value)
      ensures r.ThrowsTypeError? ==> modifier == old(modifier) && value == old(value)
      ensures r.Returns? ==>
        (r.value <==> old(FirstHint(u)).value.Some? && Truthy(old(FirstHint(u)).value.value) &&
                      old(SubHint(u)).value.Some? && old(SubHint(u)).value.value != "")
      ensures r == Returns(true) ==>
        var h := old(FirstHint(u)).value.value;
        if h.Modifier? && h.modifier then
          var m := ChosenModifier(old(Config()), h.value);
          if m != "" then modifier == m && value == h.value[|m|..]
          else modifier == old(modifier) && value == (if h.value != "" then h.value else old(value))
        else modifier == old(modifier) && value == CompletionText(h)
    {
      var hint := FirstHint(u);
      if hint.ThrowsTypeError? {
        return ThrowsTypeError;
      }
      var subHint := SubHint(u);
      if hint.value.Some? && Truthy(hint.value.value) && subHint.value.Some? && subHint.value.value != "" {
        var h := hint.value.value;
        // `typeof hint === 'string' ? hint : hint.value`
        var hintValue := CompletionText(h);
        if h.Modifier? && h.modifier {
          SetFullText(hintValue);
        } else {
          value := hintValue;
        }
        return Returns(true);
      }
      return Returns(false);
    }
  }

  /** A sub-hint exists exactly when the value is non-empty, is not a valid
      value closed by a quote, and its lower-cased normalised form starts the
      normalised text of the first hint; it is then the rest of the unquoted
      hint text after as many characters as were typed. */
  lemma SubHintCompletion(t: Token, u: Helpers)
    requires t.Config().Some?
    ensures var sub := t.SubHint(u).value;
            var typed := u.normalized(Lower(t.value));
            var first := t.FirstHint(u).value;
            sub.Some? <==>
              && t.value != ""
              && !(t.IsValueValid(u).value && EndsWithQuote(t.value))
              && first.Some?
              && IsPrefix(typed, u.normalized(CompletionText(first.value)))
    ensures var sub := t.SubHint(u).value;
            sub.Some? ==>
              sub.value == Substr(u.unquoted(CompletionText(t.FirstHint(u).value.value)),
                                  |u.normalized(Lower(t.value))|)
  {
  }
}
