/** The config registry builder of src/utils/search-context.ts (and its copy in
    src/models/search-context.ts). */
module Context {

  import opened Wrappers
  import opened Types

  /** A raw modifier descriptor as supplied by the embedding page. */
  datatype RawModifier = RawModifier(hint: string, modifier: string, title: string, values: seq<Hint>)

  /** The property names of an entry object literal, in `for…in` order. */
  const EntryPropertyNames: seq<string> := ["content", "defaultHint", "sectionTitle", "type"]

  /** The registry key of a descriptor: `#` stays as is, anything else gets a
      trailing colon. */
  function KeyOf(m: RawModifier): (k: string)
    ensures m.modifier == "#" ==> k == "#"
    ensures m.modifier != "#" ==> k == m.modifier + ":"
  {
    if m.modifier != "#" then m.modifier + ":" else m.modifier
  }

  /** The entry a descriptor contributes. */
  function EntryOf(m: RawModifier): (e: SearchContextConfig)
    ensures e.content == m.values && e.defaultHint == Some(m.hint)
    ensures e.sectionTitle == Some(m.title) && e.typeTag == "list"
    ensures e.propertyNames == EntryPropertyNames
  {
    SearchContextConfig(m.values, Some(m.hint), Some(m.title), "list", EntryPropertyNames)
  }

  /** The map after the `forEach` has visited `mods` in order. */
  function BuildConfig(mods: seq<RawModifier>): ConfigMap
  {
    if mods == [] then map[]
    else
      var last := mods[|mods| - 1];
      BuildConfig(mods[..|mods| - 1])[KeyOf(last) := EntryOf(last)]
  }

  /** The keys of the built map are exactly the descriptors' keys. */
  lemma {:induction false} BuildConfigKeys(mods: seq<RawModifier>)
    ensures BuildConfig(mods).Keys == set m | m in mods :: KeyOf(m)
  {
    if mods != [] {
      var init := mods[..|mods| - 1];
      BuildConfigKeys(init);
      assert mods == init + [mods[|mods| - 1]];
    }
  }

  /** `e` is the entry of the last descriptor in `mods` whose key is `k`. */
  predicate LastWith(mods: seq<RawModifier>, k: string, e: SearchContextConfig) {
    exists i :: 0 <= i < |mods| && KeyOf(mods[i]) == k && e == EntryOf(mods[i]) &&
                forall j :: i < j < |mods| ==> KeyOf(mods[j]) != k
  }

  /** A later descriptor with another key does not change which one is last. */
  lemma LastWithExtend(init: seq<RawModifier>, last: RawModifier, k: string, e: SearchContextConfig)
    requires LastWith(init, k, e) && KeyOf(last) != k
    ensures LastWith(init + [last], k, e)
  {
    var mods := init + [last];
    var i :| 0 <= i < |init| && KeyOf(init[i]) == k && e == EntryOf(init[i]) &&
             forall j :: i < j < |init| ==> KeyOf(init[j]) != k;
    assert mods[i] == init[i];
    assert forall j :: i < j < |mods| ==> KeyOf(mods[j]) != k by {
      forall j | i < j < |mods| ensures KeyOf(mods[j]) != k {
        if j < |init| { assert mods[j] == init[j]; }
      }
    }
  }

  /** Each key of the built map holds the entry of the LAST descriptor with
      that key. */
  lemma {:induction false} BuildConfigLastWins(mods: seq<RawModifier>)
    ensures forall k :: k in BuildConfig(mods) ==> LastWith(mods, k, BuildConfig(mods)[k])
  {
    if mods != [] {
      var init := mods[..|mods| - 1];
      var last := mods[|mods| - 1];
      BuildConfigLastWins(init);
      assert mods == init + [last];
      var c := BuildConfig(mods);
      forall k | k in c ensures LastWith(mods, k, c[k]) {
        if k == KeyOf(last) {
          assert KeyOf(mods[|mods| - 1]) == k && c[k] == EntryOf(mods[|mods| - 1]);
        } else {
          assert k in BuildConfig(init) && c[k] == BuildConfig(init)[k];
          LastWithExtend(init, last, k, c[k]);
        }
      }
    }
  }

  /** The search context: its descriptors and its scope, both set from
      outside. */
  class SearchContext {
    var modifiers: seq<RawModifier>
    var scope: string

    /** `queryScope`. */
    function QueryScope(): (s: string)
      reads this
      ensures s == scope
    {
      scope
    }

    /** `config`: fills a fresh dictionary, one descriptor at a time. */
    method Config() returns (config: ConfigMap)
      ensures config == BuildConfig(modifiers)
      ensures modifiers == [] ==> config == map[]
      ensures config.Keys == set m | m in modifiers :: KeyOf(m)
    {
      config := map[];
      for i := 0 to |modifiers|
        invariant config == BuildConfig(modifiers[..i])
      {
        var m := modifiers[i];
        var key := if m.modifier != "#" then m.modifier + ":" else m.modifier;
        config := config[key := SearchContextConfig(m.values, Some(m.hint), Some(m.title), "list", EntryPropertyNames)];
        assert modifiers[..i + 1][..i] == modifiers[..i];
      }
      assert modifiers[..|modifiers|] == modifiers;
      BuildConfigKeys(modifiers);
    }
  }
}
