/** The expense store and the key-value slot it persists to. The platform's defaults
    database becomes the `Defaults` class, and the JSON encoder and decoder become the two
    functions of a `Codec`; the decoder may fail, and so may the encoder. */
module Persistence {
  import opened ExpenseItems

  /** Serialised bytes, as held in a defaults slot. */
  type Data = seq<bv8>

  /** The key under which the expense list is stored. */
  const ItemsKey: string := "Items"

  datatype Codec = Codec(encode: seq<ExpenseItem> -> Option<Data>, decode: Data -> Option<seq<ExpenseItem>>)

  /** A codec whose decoder reads back exactly what its encoder wrote. */
  ghost predicate RoundTrips(codec: Codec)
  {
    forall xs :: codec.encode(xs).Some? ==> codec.decode(codec.encode(xs).value) == Some(xs)
  }

  /** The process-wide defaults database: named slots of data. */
  class Defaults {
    var slots: map<string, Data>

    constructor (slots: map<string, Data>)
      ensures this.slots == slots
    {
      this.slots := slots;
    }
  }

  /** The list the store starts with: the decoded contents of the "Items" slot, or the
      empty list when the slot is missing or does not decode. */
  function Loaded(slots: map<string, Data>, codec: Codec): (r: seq<ExpenseItem>)
    ensures ItemsKey in slots && codec.decode(slots[ItemsKey]).Some? ==> r == codec.decode(slots[ItemsKey]).value
    ensures r != [] ==> ItemsKey in slots && codec.decode(slots[ItemsKey]) == Some(r)
    ensures ItemsKey !in slots ==> r == []
    ensures ItemsKey in slots && codec.decode(slots[ItemsKey]).None? ==> r == []
  {
    if ItemsKey in slots then
      match codec.decode(slots[ItemsKey])
      case Some(decoded) => decoded
      case None => []
    else []
  }

  /** The slots after the list `items` is persisted: the "Items" slot holds its encoding
      when encoding succeeds, and nothing changes when it fails. No other slot changes. */
  function Persisted(slots: map<string, Data>, codec: Codec, items: seq<ExpenseItem>): (s: map<string, Data>)
    ensures forall k :: k != ItemsKey ==> (k in s <==> k in slots)
    ensures forall k :: k != ItemsKey && k in s ==> s[k] == slots[k]
    ensures codec.encode(items).Some? ==> ItemsKey in s && s[ItemsKey] == codec.encode(items).value
    ensures codec.encode(items).None? ==> s == slots
  {
    match codec.encode(items)
    case Some(encoded) => slots[ItemsKey := encoded]
    case None => slots
  }

  /** A list persisted with a faithful codec is the list a new store loads. */
  lemma LoadAfterPersist(slots: map<string, Data>, codec: Codec, items: seq<ExpenseItem>)
    requires RoundTrips(codec) && codec.encode(items).Some?
    ensures Loaded(Persisted(slots, codec, items), codec) == items
  {
  }

  /** When encoding fails, a new store loads whatever was persisted before. */
  lemma LoadAfterFailedPersist(slots: map<string, Data>, codec: Codec, items: seq<ExpenseItem>)
    requires codec.encode(items).None?
    ensures Loaded(Persisted(slots, codec, items), codec) == Loaded(slots, codec)
  {
  }

  /** The expense store (`Expenses`). Every assignment to `items` goes through `SetItems`,
      which is the property's `didSet` observer: it re-persists the whole list. */
  class Expenses {
    var items: seq<ExpenseItem>
    const defaults: Defaults
    const codec: Codec

    /** `init()`: loads the saved list. Loading is taken to write nothing back to the slot,
        as for a plain class, whose own initializer does not run `didSet`. */
    constructor (defaults: Defaults, codec: Codec)
      ensures this.defaults == defaults && this.codec == codec
      ensures items == Loaded(defaults.slots, codec)
      ensures defaults.slots == old(defaults.slots)
      ensures ItemsKey in defaults.slots && codec.decode(defaults.slots[ItemsKey]).Some? ==> items == codec.decode(defaults.slots[ItemsKey]).value
      ensures ItemsKey in defaults.slots && codec.decode(defaults.slots[ItemsKey]).None? ==> items == []
      ensures ItemsKey !in defaults.slots ==> items == []
    {
      this.defaults := defaults;
      this.codec := codec;
      var loaded: seq<ExpenseItem> := [];
      if ItemsKey in defaults.slots {
        var decoded := codec.decode(defaults.slots[ItemsKey]);
        if decoded.Some? {
          loaded := decoded.value;
        }
      }
      items := loaded;
    }

    /** An assignment to `items` and its `didSet`: the list is replaced and then written to
        the "Items" slot, unless encoding fails. */
    method SetItems(newItems: seq<ExpenseItem>)
      modifies this, defaults
      ensures items == newItems
      ensures defaults.slots == Persisted(old(defaults.slots), codec, newItems)
      ensures RoundTrips(codec) && codec.encode(newItems).Some? ==> Loaded(defaults.slots, codec) == items
    {
      items := newItems;
      var encoded := codec.encode(items);
      if encoded.Some? {
        defaults.slots := defaults.slots[ItemsKey := encoded.value];
      }
    }
  }
}
