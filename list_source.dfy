/** The hint matcher of src/utils/list-source.ts: static, stateless functions
    over hints and optional hint lists. */
module ListSource {

  import opened Wrappers
  import opened Seqs
  import opened Types

  /** `serialize`: the comparison text of a hint. A plain string serialises to
      the empty string, not to itself. */
  function Serialize(h: Hint): (r: string)
    ensures h.Modifier? ==> r == h.value
    ensures h.Plain? ==> r == ""
  {
    match h
    case Plain(_) => ""
    case Modifier(v, _, _, _, _, _) => v
  }

  /** The predicate of `deserialize`'s `find`: an item that owns a `value`
      equal to `label`. */
  predicate OwnsValue(h: Hint, key: string) {
    h.Modifier? && h.value == key
  }

  /** `deserialize(label, list?)`. */
  function Deserialize(key: string, list: Option<seq<Hint>>): (r: Option<Hint>)
    ensures list.None? ==> r == Some(Plain(key))
    ensures list.Some? && r.Some? ==>
      exists k :: 0 <= k < |list.value| && list.value[k] == r.value && OwnsValue(r.value, key) &&
                  forall j :: 0 <= j < k ==> !OwnsValue(list.value[j], key)
    ensures list.Some? && r.None? ==> forall h :: h in list.value ==> !OwnsValue(h, key)
  {
    match list
    case None => Some(Plain(key))
    case Some(items) => Find(items, (h: Hint) => OwnsValue(h, key))
  }

  /** `validate(str, list?)`. */
  function Validate(u: Helpers, str: string, list: Option<seq<Hint>>): (r: bool)
    ensures list.None? ==> (r <==> str != "")
    ensures list.Some? ==>
      (r <==> exists h :: h in list.value && u.normalized(Serialize(h)) == u.normalized(str))
  {
    match list
    case None => str != ""
    case Some(items) =>
      var p := (h: Hint) => u.normalized(Serialize(h)) == u.normalized(str);
      var b := Any(items, p);
      assert b ==> exists h :: h in items && p(h);
      assert (exists h :: h in items && p(h)) ==> b by {
        if h :| h in items && p(h) {
          var k :| 0 <= k < |items| && items[k] == h;
          assert p(items[k]);
        }
      }
      b
  }

  /** Every serialised member of a present list validates against it. */
  lemma ValidateSerialized(u: Helpers, list: seq<Hint>, h: Hint)
    requires h in list
    ensures Validate(u, Serialize(h), Some(list))
  {
  }

  /** The filter predicate of `getHints`, at position `i` of the concatenated
      match list `self`: the first occurrence of a structured hint whose value is
      not exactly the typed text. */
  predicate Keep(self: seq<Hint>, i: nat, str: string)
    requires i < |self|
  {
    && IndexOf(self, self[i]) == i
    && self[i].Modifier?
    && self[i].value != str
  }

  /** `self.filter(Keep)` over the first `n` elements of `self`. */
  function FilterSelf(self: seq<Hint>, str: string, n: nat): (r: seq<Hint>)
    requires n <= |self|
    ensures |r| <= n
  {
    if n == 0 then []
    else
      var prev := FilterSelf(self, str, n - 1);
      if Keep(self, n - 1, str) then prev + [self[n - 1]] else prev
  }

  /** The filter keeps exactly the structured hints whose value is not the
      typed text. */
  lemma {:induction false} FilterSelfMembers(self: seq<Hint>, str: string, n: nat)
    requires n <= |self|
    ensures forall x :: x in FilterSelf(self, str, n) <==> x in self[..n] && x.Modifier? && x.value != str
  {
    if n > 0 {
      FilterSelfMembers(self, str, n - 1);
      assert self[..n] == self[..n - 1] + [self[n - 1]];
      FirstOccurrence(self, n - 1);
    }
  }

  /** The filter keeps each hint once. */
  lemma {:induction false} FilterSelfDistinct(self: seq<Hint>, str: string, n: nat)
    requires n <= |self|
    ensures NoDuplicates(FilterSelf(self, str, n))
  {
    if n > 0 {
      FilterSelfDistinct(self, str, n - 1);
      FilterSelfMembers(self, str, n - 1);
      FirstOccurrence(self, n - 1);
      var prev := FilterSelf(self, str, n - 1);
      if Keep(self, n - 1, str) {
        assert self[n - 1] !in prev;
        assert FilterSelf(self, str, n) == prev + [self[n - 1]];
      }
    }
  }

  /** The filter keeps the original order. */
  lemma {:induction false} FilterSelfOrder(self: seq<Hint>, str: string, n: nat)
    requires n <= |self|
    ensures Subseq(FilterSelf(self, str, n), self[..n])
  {
    if n > 0 {
      FilterSelfOrder(self, str, n - 1);
      var prev := FilterSelf(self, str, n - 1);
      var x := self[n - 1];
      assert self[..n] == self[..n - 1] + [x];
      if Keep(self, n - 1, str) {
        SubseqBoth(prev, self[..n - 1], x);
      } else {
        SubseqExtend(prev, self[..n - 1], x);
      }
    }
  }

  /** The filter keeps exactly the structured hints whose value is not the
      typed text, each once, in their original order. */
  lemma FilterSelfSpec(self: seq<Hint>, str: string, n: nat)
    requires n <= |self|
    ensures var r := FilterSelf(self, str, n);
            && (forall x :: x in r <==> x in self[..n] && x.Modifier? && x.value != str)
            && NoDuplicates(r)
            && Subseq(r, self[..n])
  {
    FilterSelfMembers(self, str, n);
    FilterSelfDistinct(self, str, n);
    FilterSelfOrder(self, str, n);
  }

  /** Position `i` is the first occurrence of its element exactly when the
      element does not occur earlier. */
  lemma FirstOccurrence(self: seq<Hint>, i: nat)
    requires i < |self|
    ensures IndexOf(self, self[i]) == i <==> self[i] !in self[..i]
  {
  }

  /** `getHints(str, list?)`. */
  function GetHints(u: Helpers, str: string, list: Option<seq<Hint>>): (r: seq<Hint>)
    ensures list.None? || list.value == [] ==> r == []
    ensures forall i :: 0 <= i < |r| ==> r[i].Modifier? && r[i].value != str
    ensures NoDuplicates(r)
  {
    if list.Some? && |list.value| > 0 then
      var labelMatches := u.getMatch(str, list.value, ByLabel);
      var valueMatches := u.getMatch(str, list.value, ByValue);
      var self := labelMatches + valueMatches;
      var matches := FilterSelf(self, str, |self|);
      FilterSelfSpec(self, str, |self|);
      assert forall i :: 0 <= i < |matches| ==> matches[i] in matches;
      if |matches| > 0 then matches else []
    else []
  }

  /** What `getHints` keeps of the two match lists: a duplicate-free ordered
      subsequence of their concatenation holding exactly its structured hints
      whose value is not the typed text, label matches first. */
  lemma {:induction false} GetHintsSpec(u: Helpers, str: string, list: seq<Hint>)
    requires list != []
    ensures var labelMatches := u.getMatch(str, list, ByLabel);
            var self := labelMatches + u.getMatch(str, list, ByValue);
            var r := GetHints(u, str, Some(list));
            && Subseq(r, self)
            && (forall x :: x in r <==> x in self && x.Modifier? && x.value != str)
            && FirstFrom(r, labelMatches)
  {
    var labelMatches := u.getMatch(str, list, ByLabel);
    var self := labelMatches + u.getMatch(str, list, ByValue);
    assert self[..|self|] == self;
    FilterSelfSpec(self, str, |self|);
    LabelMatchesFirst(self, str, |labelMatches|, |self|);
    assert self[..|labelMatches|] == labelMatches;
  }

  /** Elements of `r` that occur in `pre` come before all others. */
  predicate FirstFrom(r: seq<Hint>, pre: seq<Hint>) {
    forall i, j :: 0 <= i < j < |r| && r[j] in pre ==> r[i] in pre
  }

  /** While the filter is still inside `self[..m]`, all it keeps is there. */
  lemma KeptInside(self: seq<Hint>, str: string, m: nat, n: nat)
    requires n <= m <= |self|
    ensures forall x :: x in FilterSelf(self, str, n) ==> x in self[..m]
  {
    FilterSelfMembers(self, str, n);
    forall x | x in FilterSelf(self, str, n) ensures x in self[..m] {
      var k :| 0 <= k < n && self[..n][k] == x;
      assert self[..m][k] == x;
    }
  }

  /** Elements that first occur in `self[..m]` come before all others. */
  lemma {:induction false} LabelMatchesFirst(self: seq<Hint>, str: string, m: nat, n: nat)
    requires m <= |self| && n <= |self|
    ensures FirstFrom(FilterSelf(self, str, n), self[..m])
  {
    if n > 0 {
      LabelMatchesFirst(self, str, m, n - 1);
      var prev := FilterSelf(self, str, n - 1);
      var r := FilterSelf(self, str, n);
      var x := self[n - 1];
      var pre := self[..m];
      if Keep(self, n - 1, str) {
        assert r == prev + [x];
        if n - 1 < m {
          KeptInside(self, str, m, n);
        } else {
          FirstOccurrence(self, n - 1);
          assert x !in pre by {
            assert pre == self[..n - 1][..m];
          }
          forall i, j | 0 <= i < j < |r| && r[j] in pre ensures r[i] in pre {
            assert j < |prev| && r[i] == prev[i] && r[j] == prev[j];
          }
        }
      }
    }
  }
}
