/** The request handler's classification loop: every catalog item, in
    order, becomes an entry with its id, its type, a red/green flag and its
    flattened ingredient list. */
module Classifier {
  import opened Wrappers
  import opened Catalog
  import opened Ingredients

  /** "red" when every restricted ingredient occurs in the item, "green" otherwise. */
  datatype Flag = Red | Green {
    /** The flag as it appears in the response. */
    function Label(): string {
      if Red? then "red" else "green"
    }
  }

  /** One entry of the response: `{ id, type, flag, ingredients }`. */
  datatype FlaggedItem = FlaggedItem(id: string, typ: string, flag: Flag, ingredients: seq<string>)

  /** Why a request fails as a whole. */
  datatype Error =
    | MalformedDocument                        // no "items" object or no "item" array
    | MalformedItem(index: nat, group: Group)  // the item at `index` lacks `group`

  /** The document contains the "items" object and its "item" array. */
  predicate HasItems(doc: Document) {
    doc.items.Some? && doc.items.value.Some?
  }

  /** `entry` is the response entry for `item`: id and type passed through,
      the item's flattened ingredients, and the flag red exactly when every
      restricted name occurs in those ingredients. */
  predicate ClassifiedAs(entry: FlaggedItem, item: Item, restricted: seq<string>) {
    entry.id == item.id &&
    entry.typ == item.typ &&
    GetAllIngredients(item) == Success(entry.ingredients) &&
    (entry.flag == Red <==> ContainsAll(restricted, entry.ingredients))
  }

  /** The first `n` items can all be flattened. */
  predicate PrefixWellFormed(items: seq<Item>, n: nat)
    requires n <= |items|
  {
    forall j :: 0 <= j < n ==> WellFormed(items[j])
  }

  /** Classifies every item of `doc` against `restricted`. A document without
      `items.item` fails before any item is read; otherwise the first item
      that cannot be flattened fails the whole request, and no entries are
      returned. On success there is one entry per item, in item order, with
      id and type passed through, the item's flattened ingredients, and the
      flag red exactly when every restricted name occurs in those ingredients. */
  method Run(doc: Document, restricted: seq<string>) returns (r: Result<seq<FlaggedItem>, Error>)
    ensures !HasItems(doc) ==> r == Failure(MalformedDocument)
    ensures HasItems(doc) ==>
      var items := doc.items.value.value;
      (r.Success? <==> PrefixWellFormed(items, |items|)) &&
      (r.Failure? ==>
        r.error.MalformedItem? && r.error.index < |items| &&
        PrefixWellFormed(items, r.error.index) &&
        !WellFormed(items[r.error.index]) &&
        r.error.group == MissingGroup(items[r.error.index])) &&
      (r.Success? ==>
        |r.value| == |items| &&
        forall j :: 0 <= j < |items| ==> ClassifiedAs(r.value[j], items[j], restricted))
  {
    if doc.items.None? || doc.items.value.None? {
      return Failure(MalformedDocument);
    }
    var items := doc.items.value.value;
    var flaggedItems: seq<FlaggedItem> := [];
    var i := 0;
    while i < |items|
      invariant 0 <= i <= |items|
      invariant |flaggedItems| == i
      invariant PrefixWellFormed(items, i)
      invariant forall j :: 0 <= j < i ==> ClassifiedAs(flaggedItems[j], items[j], restricted)
    {
      var item := items[i];
      var allIngredients := GetAllIngredients(item);
      if allIngredients.Failure? {
        return Failure(MalformedItem(i, allIngredients.error));
      }
      FlagUsesReturnedList(item, restricted);
      var isRestricted := CheckForRestrictedIngredients(item, restricted).value;
      var flag := if isRestricted then Red else Green;
      flaggedItems := flaggedItems + [FlaggedItem(item.id, item.typ, flag, allIngredients.value)];
      i := i + 1;
    }
    return Success(flaggedItems);
  }

  /** With no restricted names, every entry of a response is flagged red. */
  lemma EmptyRestrictedAllRed(entries: seq<FlaggedItem>, items: seq<Item>)
    requires |entries| == |items|
    requires forall j :: 0 <= j < |items| ==> ClassifiedAs(entries[j], items[j], [])
    ensures forall j :: 0 <= j < |entries| ==> entries[j].flag == Red
  {
  }

  /** A response entry stays correct when the restricted names are
      reordered or repeated: only the set of names matters. */
  lemma ClassificationIgnoresRestrictedOrder(entry: FlaggedItem, item: Item, r1: seq<string>, r2: seq<string>)
    requires forall x :: x in r1 <==> x in r2
    requires ClassifiedAs(entry, item, r1)
    ensures ClassifiedAs(entry, item, r2)
  {
  }
}
