/** Grouping the findings of the review that speak of the same place. */
module Correlation {
  import opened Tokens
  import opened Ordering
  import opened Graphs

  /** What a finding brings along; absent entries are None. */
  datatype Facts = Facts(caseId: Option<Name>, rule: Option<Name>, file: Option<Name>, line: Option<int>,
      source: Option<Name>)

  datatype Key = Key(what: Option<Name>, file: Option<Name>, line: Option<int>)

  /** The case if there is one that is not empty, else the rule. */
  function KeyOf(f: Facts): Key {
    Key(if f.caseId.Some? && f.caseId.value != Name("") then f.caseId else f.rule, f.file, f.line)
  }

  function SourceText(f: Facts): Name {
    if f.source.Some? then f.source.value else Name("None")
  }

  class Item {
    const facts: Facts
    var correlationId: string
    var correlatedSources: seq<Name>
    var overlapCount: nat

    constructor (f: Facts)
      ensures facts == f
    {
      facts, correlationId, correlatedSources, overlapCount := f, "", [], 0;
    }
  }

  function Digit(d: nat): char
    requires d < 10
  {
    '0' + d as char
  }

  function Decimal(n: nat): string {
    if n < 10 then [Digit(n)] else Decimal(n / 10) + [Digit(n % 10)]
  }

  /** Zeros in front up to four characters. */
  function Padded(s: string): string
    decreases 4 - |s|
  {
    if |s| < 4 then Padded("0" + s) else s
  }

  function Label(n: nat): string { "CORR-" + Padded(Decimal(n)) }

  function Value(s: string): int {
    if s == "" then 0 else Value(s[..|s| - 1]) * 10 + (s[|s| - 1] as int - '0' as int)
  }

  lemma {:induction false} ValueOfDecimal(n: nat)
    ensures Value(Decimal(n)) == n
  {
    if n >= 10 {
      ValueOfDecimal(n / 10);
      assert Decimal(n)[..|Decimal(n)| - 1] == Decimal(n / 10);
    } else {
      assert Decimal(n)[..0] == "";
    }
  }

  lemma {:induction false} ZeroInFront(s: string)
    ensures Value("0" + s) == Value(s)
  {
    if s == "" {
      assert "0"[..0] == "";
    } else {
      ZeroInFront(s[..|s| - 1]);
      assert ("0" + s)[..|s|] == "0" + s[..|s| - 1];
    }
  }

  lemma {:induction false} ValueOfPadded(s: string)
    ensures Value(Padded(s)) == Value(s)
    decreases 4 - |s|
  {
    if |s| < 4 {
      ZeroInFront(s);
      ValueOfPadded("0" + s);
    }
  }

  lemma LabelsDiffer(m: nat, n: nat)
    ensures Label(m) == Label(n) <==> m == n
  {
    hide Decimal, Padded, Value;
    var p, q := Padded(Decimal(m)), Padded(Decimal(n));
    ValueOfDecimal(m);
    ValueOfDecimal(n);
    ValueOfPadded(Decimal(m));
    ValueOfPadded(Decimal(n));
    assert ("CORR-" + p)[5..] == p && ("CORR-" + q)[5..] == q;
  }

  /** The distinct keys in the order of their first occurrence. */
  function Firsts(ks: seq<Key>): seq<Key> {
    if ks == [] then []
    else
      var before, k := Firsts(ks[..|ks| - 1]), ks[|ks| - 1];
      if k in before then before else before + [k]
  }

  lemma {:induction false} FirstsAreTheKeys(ks: seq<Key>)
    ensures forall k :: k in Firsts(ks) <==> k in ks
    ensures forall i, j :: 0 <= i < j < |Firsts(ks)| ==> Firsts(ks)[i] != Firsts(ks)[j]
  {
    if ks != [] {
      var n := |ks| - 1;
      FirstsAreTheKeys(ks[..n]);
      assert ks == ks[..n] + [ks[n]];
    }
  }

  lemma {:induction false} FirstsGrow(ks: seq<Key>, n: nat)
    requires n <= |ks|
    ensures Firsts(ks[..n]) <= Firsts(ks)
    decreases |ks| - n
  {
    if n == |ks| {
      assert ks[..n] == ks;
    } else {
      FirstsGrow(ks, n + 1);
      assert ks[..n + 1][..n] == ks[..n];
    }
  }

  function KeysOf(items: seq<Item>): seq<Key> {
    seq(|items|, i requires 0 <= i < |items| => KeyOf(items[i].facts))
  }

  function Members(items: seq<Item>, k: Key): seq<Item> {
    if items == [] then []
    else
      var last := items[|items| - 1];
      Members(items[..|items| - 1], k) + if KeyOf(last.facts) == k then [last] else []
  }

  ghost function Sources(items: seq<Item>, k: Key): set<Name> {
    set item | item in items && KeyOf(item.facts) == k :: SourceText(item.facts)
  }

  lemma {:induction false} MembersAre(items: seq<Item>, k: Key)
    ensures forall item :: item in Members(items, k) <==> item in items && KeyOf(item.facts) == k
  {
    if items != [] {
      var n := |items| - 1;
      MembersAre(items[..n], k);
      assert items == items[..n] + [items[n]];
    }
  }

  /** What is written into an item whose key is the g-th distinct key. */
  ghost predicate Marked(item: Item, items: seq<Item>, g: nat)
    reads item
  {
    && item.correlationId == Label(g + 1)
    && item.overlapCount == |Members(items, KeyOf(item.facts))|
    && IsListing(NameLe, Sources(items, KeyOf(item.facts)), item.correlatedSources)
  }

  /** An item's key is the g-th distinct key for some g, and it is marked so. */
  ghost predicate Correlated(item: Item, items: seq<Item>)
    reads item
  {
    var order := Firsts(KeysOf(items));
    exists g: nat :: g < |order| && order[g] == KeyOf(item.facts) && Marked(item, items, g)
  }

  /** Puts each item into the group of its key; the groups in the order of their first item. */
  method Groups(items: seq<Item>) returns (order: seq<Key>, groups: map<Key, seq<Item>>)
    ensures order == Firsts(KeysOf(items))
    ensures forall k :: k in order <==> k in groups
    ensures forall k :: k in groups ==> groups[k] == Members(items, k)
  {
    hide Firsts, KeysOf, Members;
    order, groups := [], map[];
    NothingGrouped(items[..0]);
    for n := 0 to |items|
      invariant order == Firsts(KeysOf(items[..n]))
      invariant forall k :: k in order <==> k in groups
      invariant forall k :: k in groups ==> groups[k] == Members(items[..n], k)
      invariant forall k :: k !in groups ==> Members(items[..n], k) == []
    {
      var item := items[n];
      var key := KeyOf(item.facts);
      GroupStep(items, n);
      if key !in groups {
        groups := groups[key := []];
        order := order + [key];
      }
      groups := groups[key := groups[key] + [item]];
    }
    assert items[..|items|] == items;
  }

  lemma NothingGrouped(items: seq<Item>)
    requires items == []
    ensures Firsts(KeysOf(items)) == [] && forall k :: Members(items, k) == []
  {
  }

  lemma GroupStep(items: seq<Item>, n: nat)
    requires n < |items|
    ensures KeysOf(items[..n + 1]) == KeysOf(items[..n]) + [KeyOf(items[n].facts)]
    ensures var before, k := Firsts(KeysOf(items[..n])), KeyOf(items[n].facts);
            Firsts(KeysOf(items[..n + 1])) == if k in before then before else before + [k]
    ensures forall k ::
      Members(items[..n + 1], k) == Members(items[..n], k) + if KeyOf(items[n].facts) == k then [items[n]] else []
  {
    assert items[..n + 1][..n] == items[..n];
    var ks := KeysOf(items[..n + 1]);
    assert ks[..n] == KeysOf(items[..n]);
  }

  method Correlate(items: seq<Item>)
    modifies items
    ensures forall item :: item in items ==> Correlated(item, items)
  {
    var order, groups := Groups(items);
    ghost var ks := KeysOf(items);
    FirstsAreTheKeys(ks);
    hide Firsts, KeysOf, Members, Label, IsListing;
    for g := 0 to |order|
      invariant forall item, h :: item in items && 0 <= h < g && KeyOf(item.facts) == order[h] ==>
        Marked(item, items, h)
    {
      var group := groups[order[g]];
      MembersAre(items, order[g]);
      NamesAreOrdered();
      var sources := Sorted(NameLe, set item: Item | item in group :: SourceText(item.facts));
      assert (set item: Item | item in group :: SourceText(item.facts)) == Sources(items, order[g]);
      var correlationId := Label(g + 1);
      for n := 0 to |group|
        invariant forall item, h :: item in items && 0 <= h < g && KeyOf(item.facts) == order[h] ==>
          Marked(item, items, h)
        invariant forall j :: 0 <= j < n ==> Marked(group[j], items, g)
      {
        var item := group[n];
        assert item in group;
        item.correlationId := correlationId;
        item.correlatedSources := sources;
        item.overlapCount := |group|;
      }
    }
    forall item | item in items ensures Correlated(item, items) {
      KeyIsListed(items, item);
      var g: nat :| g < |order| && order[g] == KeyOf(item.facts);
      assert Marked(item, items, g);
    }
  }

  lemma KeyIsListed(items: seq<Item>, item: Item)
    requires item in items
    ensures KeyOf(item.facts) in Firsts(KeysOf(items))
  {
    FirstsAreTheKeys(KeysOf(items));
    var i :| 0 <= i < |items| && items[i] == item;
    assert KeysOf(items)[i] == KeyOf(item.facts);
  }

  // ----- what the marks mean -----

  /** Two items carry the same id exactly when their keys agree. */
  lemma SameIdIffSameKey(items: seq<Item>, a: Item, b: Item)
    requires Correlated(a, items) && Correlated(b, items)
    ensures a.correlationId == b.correlationId <==> KeyOf(a.facts) == KeyOf(b.facts)
    ensures KeyOf(a.facts) == KeyOf(b.facts) ==> a.overlapCount == b.overlapCount
  {
    var order := Firsts(KeysOf(items));
    FirstsAreTheKeys(KeysOf(items));
    hide Firsts, KeysOf, Label, Members;
    var g: nat :| g < |order| && order[g] == KeyOf(a.facts) && Marked(a, items, g);
    var h: nat :| h < |order| && order[h] == KeyOf(b.facts) && Marked(b, items, h);
    LabelsDiffer(g + 1, h + 1);
  }

  lemma KeysOfPrefix(items: seq<Item>, n: nat)
    requires n <= |items|
    ensures |KeysOf(items)| == |items| && KeysOf(items)[..n] == KeysOf(items[..n])
  {
  }

  lemma NewKeyIsNext(items: seq<Item>, n: nat)
    requires n < |items| && KeyOf(items[n].facts) !in KeysOf(items[..n])
    ensures var order, before := Firsts(KeysOf(items)), Firsts(KeysOf(items[..n]));
            |before| < |order| && order[|before|] == KeyOf(items[n].facts)
  {
    hide Firsts, KeysOf, Members;
    FirstsAreTheKeys(KeysOf(items[..n]));
    KeysOfPrefix(items, n);
    KeysOfPrefix(items, n + 1);
    GroupStep(items, n);
    FirstsGrow(KeysOf(items), n + 1);
  }

  /** The ids are dense and in the order of first occurrence: an item whose key
      is new is marked with one more than the number of distinct keys before it. */
  lemma NewKeyGetsNextId(items: seq<Item>, n: nat)
    requires n < |items| && Correlated(items[n], items) && KeyOf(items[n].facts) !in KeysOf(items[..n])
    ensures items[n].correlationId == Label(|Firsts(KeysOf(items[..n]))| + 1)
  {
    hide Firsts, KeysOf, Label, Members, IsListing;
    NewKeyIsNext(items, n);
    FirstsAreTheKeys(KeysOf(items));
  }

  function Sum(sizes: seq<nat>): nat {
    if sizes == [] then 0 else Sum(sizes[..|sizes| - 1]) + sizes[|sizes| - 1]
  }

  function Sizes(items: seq<Item>, order: seq<Key>): seq<nat> {
    seq(|order|, i requires 0 <= i < |order| => |Members(items, order[i])|)
  }

  /** No item is lost: the group sizes add up to the number of items. */
  lemma {:induction false} GroupsAddUp(items: seq<Item>, order: seq<Key>)
    requires forall i, j :: 0 <= i < j < |order| ==> order[i] != order[j]
    requires forall item :: item in items ==> KeyOf(item.facts) in order
    ensures Sum(Sizes(items, order)) == |items|
  {
    if items == [] {
      EmptyAddsUp(items, Sizes(items, order));
    } else {
      var n := |items| - 1;
      GroupsAddUp(items[..n], order);
      assert items[n] in items;
      var g :| 0 <= g < |order| && order[g] == KeyOf(items[n].facts);
      SumBump(Sizes(items[..n], order), Sizes(items, order), g);
    }
  }

  lemma {:induction false} EmptyAddsUp(items: seq<Item>, sizes: seq<nat>)
    requires forall i :: 0 <= i < |sizes| ==> sizes[i] == 0
    ensures Sum(sizes) == 0
  {
    if sizes != [] { EmptyAddsUp(items, sizes[..|sizes| - 1]); }
  }

  lemma {:induction false} SumBump(before: seq<nat>, after: seq<nat>, g: nat)
    requires |before| == |after| && g < |before|
    requires after[g] == before[g] + 1 && forall i :: 0 <= i < |before| && i != g ==> after[i] == before[i]
    ensures Sum(after) == Sum(before) + 1
  {
    var n := |before| - 1;
    if g < n {
      SumBump(before[..n], after[..n], g);
    } else {
      assert before[..n] == after[..n];
    }
  }

  // ----- in terms of the findings -----

  /** The two findings name the same case, or without a case name the same rule. */
  predicate SameSubject(f: Facts, g: Facts) {
    Subject(f) == Subject(g)
  }

  function Subject(f: Facts): Option<Name> {
    match f.caseId
    case Some(c) => if c.text == "" then f.rule else Some(c)
    case None => f.rule
  }

  predicate SamePlace(f: Facts, g: Facts) {
    SameSubject(f, g) && f.file == g.file && f.line == g.line
  }

  lemma KeySpelled(f: Facts, g: Facts)
    ensures KeyOf(f) == KeyOf(g) <==> SamePlace(f, g)
  {
  }

  /** Two findings carry the same id exactly when they speak of the same subject at the
      same file and line. */
  lemma SameIdIffSamePlace(items: seq<Item>, a: Item, b: Item)
    requires Correlated(a, items) && Correlated(b, items)
    ensures a.correlationId == b.correlationId <==> SamePlace(a.facts, b.facts)
  {
    SameIdIffSameKey(items, a, b);
    KeySpelled(a.facts, b.facts);
    hide Correlated;
  }

  /** Who reported something at the same place; the name None stands for nobody. */
  ghost predicate Reports(item: Item, name: Name) {
    item.facts.source == Some(name) || (item.facts.source.None? && name.text == "None")
  }

  /** The sources written into an item are those of the items at its place, each once and
      in the order of their names. */
  lemma SourcesSpelled(items: seq<Item>, a: Item)
    requires a in items && Correlated(a, items)
    ensures forall name :: name in a.correlatedSources <==>
      exists b :: b in items && SamePlace(a.facts, b.facts) && Reports(b, name)
    ensures forall i, j :: 0 <= i < j < |a.correlatedSources| ==>
      a.correlatedSources[i] != a.correlatedSources[j] &&
      TextLe(a.correlatedSources[i].text, a.correlatedSources[j].text)
  {
    hide Label, Members, Firsts;
    var found := Sources(items, KeyOf(a.facts));
    ListingSpelled(found, a.correlatedSources);
    forall name
      ensures name in found <==> exists b :: b in items && SamePlace(a.facts, b.facts) && Reports(b, name)
    {
      if name in found {
        var b :| b in items && KeyOf(b.facts) == KeyOf(a.facts) && SourceText(b.facts) == name;
        KeySpelled(a.facts, b.facts);
        assert Reports(b, name);
      }
      if b :| b in items && SamePlace(a.facts, b.facts) && Reports(b, name) {
        KeySpelled(a.facts, b.facts);
        assert SourceText(b.facts) == name;
      }
    }
    hide Sources, SamePlace, Reports;
  }

  lemma ListingSpelled(s: set<Name>, names: seq<Name>)
    requires IsListing(NameLe, s, names)
    ensures forall name :: name in names <==> name in s
    ensures forall i, j :: 0 <= i < j < |names| ==> names[i] != names[j] && TextLe(names[i].text, names[j].text)
  {
  }

  /** The overlap count is the number of items at the place. */
  lemma OverlapIsCount(items: seq<Item>, a: Item)
    requires Correlated(a, items)
    ensures a.overlapCount == |set i | 0 <= i < |items| && SamePlace(a.facts, items[i].facts)|
  {
    MembersCount(items, KeyOf(a.facts));
    forall i | 0 <= i < |items| { KeySpelled(a.facts, items[i].facts); }
    hide Label, Members, Firsts, IsListing, SamePlace;
    assert (set i | 0 <= i < |items| && SamePlace(a.facts, items[i].facts)) ==
      (set i | 0 <= i < |items| && KeyOf(items[i].facts) == KeyOf(a.facts));
  }

  lemma {:induction false} MembersCount(items: seq<Item>, k: Key)
    ensures |Members(items, k)| == |set i | 0 <= i < |items| && KeyOf(items[i].facts) == k|
  {
    hide KeyOf;
    var all := set i | 0 <= i < |items| && KeyOf(items[i].facts) == k;
    if items == [] {
      assert all == {};
    } else {
      var n := |items| - 1;
      var front := items[..n];
      MembersCount(front, k);
      var before := set i | 0 <= i < |front| && KeyOf(front[i].facts) == k;
      assert n !in before;
      assert all == before + if KeyOf(items[n].facts) == k then {n} else {};
    }
  }

  /** The label of the n-th group: a prefix, zeros up to four digits, and the number. */
  lemma LabelSpelled(n: nat)
    ensures exists zeros :: Label(n) == "CORR-" + zeros + Decimal(n) && Fills(zeros, Decimal(n))
    ensures Value(Decimal(n)) == n && (n > 0 ==> Decimal(n)[0] != '0')
  {
    ValueOfDecimal(n);
    NoLeadingZero(n);
    hide Decimal, Value;
    var zeros := PaddedSpelled(Decimal(n));
    assert "CORR-" + (zeros + Decimal(n)) == "CORR-" + zeros + Decimal(n);
  }

  /** As many zeros as the digits lack to four. */
  ghost predicate Fills(zeros: string, digits: string) {
    && (forall k :: 0 <= k < |zeros| ==> zeros[k] == '0')
    && |zeros| == if |digits| < 4 then 4 - |digits| else 0
  }

  lemma {:induction false} PaddedSpelled(s: string) returns (zeros: string)
    ensures Padded(s) == zeros + s && Fills(zeros, s)
    decreases 4 - |s|
  {
    if |s| < 4 {
      var fewer := PaddedSpelled("0" + s);
      zeros := fewer + "0";
      assert zeros + s == fewer + ("0" + s);
    } else {
      zeros := "";
    }
  }

  lemma {:induction false} NoLeadingZero(n: nat)
    ensures n > 0 ==> Decimal(n)[0] != '0'
  {
    if n >= 10 { NoLeadingZero(n / 10); }
  }
}
