/** The module-level state of index.js (`apiKeys`, `currentIndex`) as an object whose
    methods change it in place, and the wrapper that rotates on every send. */
module ApiRotay {
  import opened JsString
  import opened Rotation

  class KeyStore {
    var apiKeys: seq<string>
    var currentIndex: int

    /** The pointer is never negative and points into the list unless it is 0. */
    ghost predicate Valid()
      reads this
    {
      Inv(Model())
    }

    /** The store's contents as a value. */
    function Model(): State
      reads this
    {
      State(apiKeys, currentIndex)
    }

    /** Start-up: the keys read back from storage, if any, and the pointer at 0. */
    constructor (stored: Option<seq<string>>)
      ensures Valid() && Model() == Initial(stored)
    {
      apiKeys := if stored.Some? then stored.value else [];
      currentIndex := 0;
    }

    /** `addKey`: trim the typed text and append it when something is left. */
    method AddKey(input: string)
      requires Valid()
      modifies this
      ensures Valid() && Model() == Add(old(Model()), input)
    {
      var newKey := Trim(input);
      if newKey != [] {
        apiKeys := apiKeys + [newKey];
      }
    }

    /** `removeKey`: splice one key out and reset a pointer that fell off the end. */
    method RemoveKey(index: int)
      requires Valid()
      modifies this
      ensures Valid() && Model() == Remove(old(Model()), index)
    {
      apiKeys := SpliceOne(apiKeys, index);
      if currentIndex >= |apiKeys| {
        currentIndex := 0;
      }
    }

    /** `getNextApiKey`: `None` (JavaScript's `null`) on an empty list, otherwise
        advance the pointer round the list and return the key it lands on. */
    method GetNextApiKey() returns (key: Option<string>)
      requires Valid()
      modifies this
      ensures Valid() && (Model(), key) == Next(old(Model()))
    {
      if |apiKeys| == 0 {
        return None;
      }
      currentIndex := (currentIndex + 1) % |apiKeys|;
      key := Some(apiKeys[currentIndex]);
    }

    /** The wrapped `sentMessage`: rotate, notify with the new key, forward. The
        effects are returned in the order they happen. */
    method SentMessage() returns (effects: seq<Effect>)
      requires Valid()
      modifies this
      ensures Valid() && (Model(), effects) == Send(old(Model()))
    {
      ghost var before := Model();
      var newKey := GetNextApiKey();
      assert Send(before) == (Model(), [Connect(newKey), Forward]);
      effects := [Connect(newKey), Forward];
    }
  }

  /** Two keys, the first one active: three sends notify the backend of the second,
      the first and the second key, each right before its message goes out. */
  method ThreeSends() returns (trace: seq<Effect>)
    ensures trace == [Connect(Some("k2")), Forward, Connect(Some("k1")), Forward, Connect(Some("k2")), Forward]
  {
    var store := new KeyStore(Some(["k1", "k2"]));
    var first := store.SentMessage();
    var second := store.SentMessage();
    var third := store.SentMessage();
    trace := first + second + third;
  }
}
