/** Flattening an item into one ingredient list, and the test whether every
    restricted ingredient occurs in it. The handler computes the flattened
    list twice, once in each of the two functions below; the lemma
    FlagUsesReturnedList shows that both computations agree. */
module Ingredients {
  import opened Wrappers
  import opened Catalog
  import opened Linq

  /** `batters.Select(b => (string)b["type"])` */
  function BatterNames(bs: seq<Batter>): seq<string> {
    seq(|bs|, i requires 0 <= i < |bs| => bs[i].typ)
  }

  /** `topping.Select(t => (string)t["type"])` */
  function ToppingNames(ts: seq<Topping>): seq<string> {
    seq(|ts|, i requires 0 <= i < |ts| => ts[i].typ)
  }

  /** `filling.Select(f => (string)f["name"])` */
  function FillingNames(fs: seq<Filling>): seq<string> {
    seq(|fs|, i requires 0 <= i < |fs| => fs[i].name)
  }

  /** Every restricted name occurs at least once among the ingredients. */
  predicate ContainsAll(restricted: seq<string>, ingredients: seq<string>) {
    forall x :: x in restricted ==> x in ingredients
  }

  /** The item's ingredient list: the batter names, then the topping names,
      then the filling names, each group in its own order and with its
      duplicates. A missing batters or topping group, or a "fillings" object
      without its "filling" array, fails with the first such group; a
      missing "fillings" object counts as no fillings. */
  function GetAllIngredients(item: Item): (r: Result<seq<string>, Group>)
    ensures r.Success? <==> WellFormed(item)
    ensures r.Failure? ==> r.error == MissingGroup(item)
    ensures r.Success? ==>
      var bs, ts, fs := BatterEntries(item), ToppingEntries(item), FillingEntries(item);
      |r.value| == |bs| + |ts| + |fs| &&
      (forall i :: 0 <= i < |bs| ==> r.value[i] == bs[i].typ) &&
      (forall j :: 0 <= j < |ts| ==> r.value[|bs| + j] == ts[j].typ) &&
      (forall k :: 0 <= k < |fs| ==> r.value[|bs| + |ts| + k] == fs[k].name)
  {
    if item.batters.None? || item.batters.value.None? then Failure(Batters)
    else if item.topping.None? then Failure(Toppings)
    else if item.fillings.Some? && item.fillings.value.None? then Failure(Fillings)
    else
      var batters := BatterNames(item.batters.value.value);
      var toppings := ToppingNames(item.topping.value);
      var fillings := if item.fillings.None? then [] else FillingNames(item.fillings.value.value);
      Success(batters + toppings + fillings)
  }

  /** Whether every restricted name occurs in the item, computed as
      `!restricted.Except(batters ++ toppings ++ fillings).Any()` over a
      flattening of its own. It fails exactly where GetAllIngredients fails. */
  function CheckForRestrictedIngredients(item: Item, restricted: seq<string>): (r: Result<bool, Group>)
    ensures r.Success? <==> WellFormed(item)
    ensures r.Failure? ==> r.error == MissingGroup(item)
    ensures r.Success? ==> (r.value <==> forall x :: x in restricted ==> Mentions(item, x))
  {
    if item.batters.None? || item.batters.value.None? then Failure(Batters)
    else if item.topping.None? then Failure(Toppings)
    else if item.fillings.Some? && item.fillings.value.None? then Failure(Fillings)
    else
      var batters := BatterNames(item.batters.value.value);
      var toppings := ToppingNames(item.topping.value);
      var fillings := if item.fillings.None? then [] else FillingNames(item.fillings.value.value);
      var allIngredients := batters + toppings + fillings;
      ExceptEmptyIffContained(restricted, allIngredients);
      MentionsIffListed(item, allIngredients);
      Success(Except(restricted, allIngredients) == [])
  }

  /** A name is in the flattened list exactly when the item mentions it in some group. */
  lemma MentionsIffListed(item: Item, all: seq<string>)
    requires WellFormed(item)
    requires all == BatterNames(BatterEntries(item)) + ToppingNames(ToppingEntries(item))
                    + FillingNames(FillingEntries(item))
    ensures forall x :: x in all <==> Mentions(item, x)
  {
    var bs, ts, fs := BatterEntries(item), ToppingEntries(item), FillingEntries(item);
    forall x
      ensures x in all <==> Mentions(item, x)
    {
      if x in all {
        var n :| 0 <= n < |all| && all[n] == x;
        if n < |bs| {
          assert bs[n] in bs;
        } else if n < |bs| + |ts| {
          assert ts[n - |bs|] in ts;
        } else {
          assert fs[n - |bs| - |ts|] in fs;
        }
      }
      if Mentions(item, x) {
        if b :| b in bs && b.typ == x {
          var i :| 0 <= i < |bs| && bs[i] == b;
          assert all[i] == x;
        } else if t :| t in ts && t.typ == x {
          var j :| 0 <= j < |ts| && ts[j] == t;
          assert all[|bs| + j] == x;
        } else {
          var f :| f in fs && f.name == x;
          var k :| 0 <= k < |fs| && fs[k] == f;
          assert all[|bs| + |ts| + k] == x;
        }
      }
    }
  }

  /** The flag is computed from the very list that is returned for the item:
      the two flattenings fail together, and when they succeed the test is
      containment of the restricted names in GetAllIngredients' list. */
  lemma FlagUsesReturnedList(item: Item, restricted: seq<string>)
    ensures CheckForRestrictedIngredients(item, restricted).Success?
            <==> GetAllIngredients(item).Success?
    ensures GetAllIngredients(item).Failure? ==>
            CheckForRestrictedIngredients(item, restricted).error == GetAllIngredients(item).error
    ensures GetAllIngredients(item).Success? ==>
            CheckForRestrictedIngredients(item, restricted).value
            == ContainsAll(restricted, GetAllIngredients(item).value)
  {
    if WellFormed(item) {
      var all := GetAllIngredients(item).value;
      MentionsIffListed(item, all);
    }
  }

  /** An item without a "fillings" object flattens to its batter names
      followed by its topping names; the absence is not an error. */
  lemma NoFillingsGroup(item: Item)
    requires HasBatters(item) && item.topping.Some? && item.fillings.None?
    ensures GetAllIngredients(item)
            == Success(BatterNames(item.batters.value.value) + ToppingNames(item.topping.value))
  {
    var bt := BatterNames(item.batters.value.value) + ToppingNames(item.topping.value);
    assert bt + [] == bt;
  }

  /** No ingredient is dropped or added: each name occurs in the flattened
      list as often as in the three groups together. */
  lemma OccurrencesKept(item: Item)
    requires WellFormed(item)
    ensures multiset(GetAllIngredients(item).value)
            == multiset(BatterNames(BatterEntries(item)))
             + multiset(ToppingNames(ToppingEntries(item)))
             + multiset(FillingNames(FillingEntries(item)))
  {
  }

  /** With no restricted names the test holds vacuously, so the item is flagged red. */
  lemma EmptyRestrictedHolds(item: Item)
    requires WellFormed(item)
    ensures CheckForRestrictedIngredients(item, []) == Success(true)
  {
  }

  /** The test depends only on which names are restricted: reordering or
      repeating restricted names does not change it. */
  lemma OnlyRestrictedNamesMatter(item: Item, r1: seq<string>, r2: seq<string>)
    requires forall x :: x in r1 <==> x in r2
    ensures CheckForRestrictedIngredients(item, r1) == CheckForRestrictedIngredients(item, r2)
  {
  }

  /** A plain "Regular" batter with a "Glazed" topping and no fillings is
      flagged when "Glazed" is restricted, and not when "Chocolate" is. */
  lemma GlazedExample()
    ensures var item := Item("0001", "donut", Some(Some([Batter("Regular")])),
                             Some([Topping("Glazed")]), None);
            GetAllIngredients(item) == Success(["Regular", "Glazed"]) &&
            CheckForRestrictedIngredients(item, ["Glazed"]) == Success(true) &&
            CheckForRestrictedIngredients(item, ["Chocolate"]) == Success(false)
  {
    var item := Item("0001", "donut", Some(Some([Batter("Regular")])),
                     Some([Topping("Glazed")]), None);
    assert GetAllIngredients(item).value == ["Regular", "Glazed"];
    FlagUsesReturnedList(item, ["Chocolate"]);
    assert "Chocolate" !in ["Regular", "Glazed"];
  }
}
