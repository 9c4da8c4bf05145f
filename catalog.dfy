/** The catalog document, already decoded from JSON into typed records.

    The document has the shape
      { "items": { "item": [ item, ... ] } }
    and every item has the shape
      { "id": ..., "type": ...,
        "batters": { "batter": [ { "type": name }, ... ] },
        "topping": [ { "type": name }, ... ],
        "fillings": { "filling": [ { "name": name }, ... ] } }
    Each JSON key that the classifier looks up may be absent, so every level
    of nesting it walks through is an `Option`. */
module Catalog {
  import opened Wrappers

  /** An entry of `batters.batter`; its ingredient name is read from the key "type". */
  datatype Batter = Batter(typ: string)

  /** An entry of `topping`; its ingredient name is read from the key "type". */
  datatype Topping = Topping(typ: string)

  /** An entry of `fillings.filling`; its ingredient name is read from the key "name". */
  datatype Filling = Filling(name: string)

  /** One catalog item.
      `batters` is the "batters" object (outer Option) and its "batter" array (inner Option);
      `topping` is the "topping" array;
      `fillings` is the "fillings" object (outer Option) and its "filling" array (inner Option). */
  datatype Item = Item(
    id: string,
    typ: string,
    batters: Option<Option<seq<Batter>>>,
    topping: Option<seq<Topping>>,
    fillings: Option<Option<seq<Filling>>>)

  /** The whole document: the "items" object and its "item" array. */
  datatype Document = Document(items: Option<Option<seq<Item>>>)

  /** The three ingredient groups of an item, in the order they are read. */
  datatype Group = Batters | Toppings | Fillings

  /** The "batters" object and its "batter" array are both present. */
  predicate HasBatters(item: Item) {
    item.batters.Some? && item.batters.value.Some?
  }

  /** The "fillings" object is absent, or it is present together with its "filling" array. */
  predicate FillingsReadable(item: Item) {
    item.fillings.Some? ==> item.fillings.value.Some?
  }

  /** Every group the classifier reads can be read: batters and toppings are
      required, fillings are optional. */
  predicate WellFormed(item: Item) {
    HasBatters(item) && item.topping.Some? && FillingsReadable(item)
  }

  /** The first group that cannot be read, in the order batters, toppings, fillings. */
  function MissingGroup(item: Item): Group
    requires !WellFormed(item)
  {
    if !HasBatters(item) then Batters
    else if item.topping.None? then Toppings
    else Fillings
  }

  function BatterEntries(item: Item): seq<Batter>
    requires WellFormed(item)
  {
    item.batters.value.value
  }

  function ToppingEntries(item: Item): seq<Topping>
    requires WellFormed(item)
  {
    item.topping.value
  }

  /** The filling entries; an absent "fillings" group holds no entries. */
  function FillingEntries(item: Item): seq<Filling>
    requires WellFormed(item)
  {
    if item.fillings.None? then [] else item.fillings.value.value
  }

  /** The item names ingredient `x` in some entry of some group, reading
      batters and toppings by their "type" key and fillings by their "name" key. */
  predicate Mentions(item: Item, x: string)
    requires WellFormed(item)
  {
    (exists b :: b in BatterEntries(item) && b.typ == x) ||
    (exists t :: t in ToppingEntries(item) && t.typ == x) ||
    (exists f :: f in FillingEntries(item) && f.name == x)
  }
}
