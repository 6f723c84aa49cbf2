/** The dictionary-backed key-value store that stands in for the device's
    settings store. Keys are typed: reading a key whose stored value has
    another type gives nil, as a failed `as? T` cast does. */
module Defaults {
  import opened Models

  /** Leaf values of a flattened task record. */
  datatype Value = Text(text: string) | Flag(flag: bool)

  /** A flattened task record. */
  type Dictionary = map<string, Value>

  /** The value types keys can be declared with. */
  datatype ValueType = DictionaryListType | TextType | FlagType

  /** A value held in the store (the store's `Any`). */
  datatype Stored = DictionaryList(dicts: seq<Dictionary>) | StoredText(text: string) | StoredFlag(flag: bool)

  function TypeOf(v: Stored): ValueType {
    match v
    case DictionaryList(_) => DictionaryListType
    case StoredText(_) => TextType
    case StoredFlag(_) => FlagType
  }

  /** A key names an entry and fixes the type of value it holds. */
  datatype Key = Key(name: string, valueType: ValueType)

  /** What `value(forKey:)` reads from a store: the entry when it is
      present and has the key's type, otherwise nil. */
  function Lookup(store: map<string, Stored>, key: Key): (r: Option<Stored>)
    ensures r.Some? ==> key.name in store && store[key.name] == r.value && TypeOf(r.value) == key.valueType
    ensures r.None? ==> key.name !in store || TypeOf(store[key.name]) != key.valueType
  {
    if key.name in store && TypeOf(store[key.name]) == key.valueType then Some(store[key.name]) else None
  }

  class MockUserDefaultsService {
    var store: map<string, Stored>

    constructor()
      ensures store == map[]
    {
      store := map[];
    }

    /** `value(forKey:)`. Reading never changes the store. */
    function Value(key: Key): Option<Stored>
      reads this
    {
      Lookup(store, key)
    }

    /** `set(value:forKey:)`: a value is stored under the key, nil removes
        the key; every other key keeps its entry. The value's type is the
        key's type (the generic signature demands it). */
    method Set(value: Option<Stored>, key: Key)
      requires value.Some? ==> TypeOf(value.value) == key.valueType
      modifies this
      ensures value.Some? ==> store == old(store)[key.name := value.value]
      ensures value.None? ==> store == old(store) - {key.name}
      ensures Value(key) == value
      ensures value.None? ==> key.name !in store
      ensures forall k :: k != key.name ==> (k in store <==> k in old(store))
      ensures forall k :: k != key.name && k in store ==> store[k] == old(store)[k]
    {
      if value.Some? {
        store := store[key.name := value.value];
      } else {
        store := store - {key.name};
      }
    }
  }
}
