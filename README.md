# apirotay key store and rotation engine, in Dafny

apirotay is a browser extension for a chat client. It keeps a list of API keys
(`apiKeys`) and a pointer to the active one (`currentIndex`). Every time a message
is sent, it moves the pointer to the next key, tells a backend which key is now
active, and then lets the message go out. This project models that key store and
rotation engine, which lives in `index.js`:

- `js_string.dfy`, module `JsString`: `String.prototype.trim`, which strips leading
  and trailing ECMAScript white space and line terminators. It is proved to have
  exactly one possible result (`TrimUnique`), to be idempotent, and to return
  nothing exactly for blank input.
- `rotation.dfy`, module `Rotation`: the store as a value, `State(keys, index)`.
  `Add`, `Remove` (with the full semantics of `Array.prototype.splice(i, 1)`),
  `Next` (for `getNextApiKey`) and `Send` (for the send wrapper) are functions.
  Lemmas cover the pointer invariant, what each operation does, and the rotation
  cycle.
- `key_store.dfy`, module `ApiRotay`: class `KeyStore` with the two mutable fields
  of `index.js`. Its methods update those fields in place, as the source does. Each
  method's postcondition ties the new state to the matching `Rotation` function of
  the old state. `ThreeSends` is a client that runs three sends on a store object.

The pointer invariant is `0 <= currentIndex && (currentIndex < |apiKeys| ||
currentIndex == 0)`. The constructor establishes it and every method keeps it.

Behaviour of the code worth knowing, modelled as written:

- `removeKey(-1)` is not a no-op. The index goes straight to `splice`, which counts
  a negative index from the end, so `-1` removes the last key and any index below
  `-length` removes the first (`Rotation.RemoveNegative`). Indices at or past the
  end remove nothing (`Rotation.RemovePastEnd`).
- The settings panel has an enable toggle (`toggleAutoRotation`, index.js:23-26),
  but nothing reads the flag it stores, and the wrapper rotates on every send
  (index.js:80). So the model has no flag.
- The pointer is not shifted when a key before it is removed. If the active key is
  not the last one, the active key silently becomes the key that followed it
  (`Rotation.RemoveBeforeActive`); if it is the last one, the pointer falls off the
  end and goes back to 0 (`Rotation.RemoveInRange`).
- When the list is empty, the wrapper still calls the notifier, with a `null` key.
  That is `Connect(None)`.

## Model

| member | source | states |
|---|---|---|
| JsString.TrimStart | index.js:48 | the result is a suffix of the input, everything dropped is white space, and it does not start with white space |
| JsString.TrimEnd | index.js:48 | the result is a prefix of the input, everything dropped is white space, and it does not end with white space |
| JsString.Trim | index.js:48 | `.trim()`: the result is no longer than the input and neither starts nor ends with white space |
| JsString.TrimIsSlice | index.js:48 | `trim()` returns a slice `s[i..j]` with only white space outside it and no white space at either end of it |
| JsString.TrimUnique | index.js:48 | any slice with only white space cut off and no white space at its ends is the result of `trim()`, so trim is fully determined by that description |
| JsString.TrimEmptyIff | index.js:48-49 | `trim()` gives the empty string exactly when the input is all white space (the falsy case of `if (newKey)`) |
| JsString.TrimmedFixpoint | index.js:48 | trimming a string that has no white space at its ends changes nothing |
| JsString.TrimIdempotent | index.js:48 | trimming twice is the same as trimming once |
| Rotation.Initial | index.js:3-4 | the start-up state: the pointer is 0, the list is empty when nothing was stored, and the invariant holds |
| Rotation.Add | index.js:47-54 | `addKey` as a value: the pointer and the existing keys are kept, and at most one key is appended, which is non-empty and has no white space at its ends |
| Rotation.SpliceOne | index.js:57 | `apiKeys.splice(index, 1)`: one key fewer exactly when the list is non-empty and the index is below its length (any negative index removes one); the keys left are among the old ones |
| Rotation.Remove | index.js:56-62 | `removeKey` as a value: at most one key removed, the keys left are among the old ones, the pointer is kept or reset to 0, and the invariant holds afterwards |
| Rotation.Next | index.js:64-69 | `getNextApiKey` as a value: the list is never changed; a key is returned exactly when the list is non-empty, and it is the key at the new pointer, which lies inside the list; on an empty list nothing changes |
| Rotation.Send | index.js:78-83 | the send wrapper as a value: exactly two effects, a `Connect` carrying the key one rotation returns, then `Forward`; the new state is that rotation's |
| Rotation.InitialInv | index.js:3-4 | start-up state: the stored list, or empty when nothing was stored; the pointer is 0; the invariant holds |
| Rotation.AddPreservesInv | index.js:47-54 | `addKey` keeps the pointer invariant |
| Rotation.RemovePreservesInv | index.js:56-62 | `removeKey` keeps the pointer invariant for every integer index, in range or not |
| Rotation.NextPreservesInv | index.js:64-69 | `getNextApiKey` keeps the pointer invariant |
| Rotation.AddAppends | index.js:47-53 | for non-blank input, exactly the trimmed text (non-empty, no white space at its ends) is appended at the end; earlier keys and the pointer are unchanged |
| Rotation.AddUnchangedIff | index.js:48-49 | `addKey` leaves the list and the pointer unchanged if and only if the input is empty or all white space |
| Rotation.AddKeepsKeysTrimmed | index.js:47-50 | if every stored key is non-empty and trimmed, that still holds after `addKey` |
| Rotation.RemoveKeepsKeysTrimmed | index.js:57 | if every stored key is non-empty and trimmed, that still holds after `removeKey` |
| Rotation.SpliceStart | index.js:57 | where `splice` starts: an in-range start is kept, a negative start counts from the end and stops at 0, and a start past the end is the end |
| Rotation.RemoveInRange | index.js:57-60 | for an in-range index the list becomes `keys[..i] + keys[i+1..]`: one shorter, with the rest in order. The pointer becomes 0 exactly when it is at or past the new length; otherwise it is unchanged |
| Rotation.RemovePastEnd | index.js:57-60 | an index at or past the end changes neither the list nor the pointer |
| Rotation.RemoveNegative | index.js:57 | a negative index removes the key that many places from the end; an index below `-length` removes the first key |
| Rotation.RemoveBeforeActive | index.js:57-60 | removing a key before the active one, when the active one is not the last, keeps the pointer, so the active key becomes the key that followed it (when it is the last, the pointer goes to 0: `RemoveInRange`) |
| Rotation.NextEmpty | index.js:65 | on an empty list, `getNextApiKey` returns `null` and changes nothing |
| Rotation.NextStep | index.js:66-68 | on a non-empty list the list is untouched, the pointer moves one place (from the last position to 0), and the key at the new pointer is returned |
| Rotation.Advance | index.js:64-69 | repeated `getNextApiKey` calls never change the list and never make the pointer negative |
| Rotation.AdvanceIndex | index.js:66 | after `k <= N` calls on a list of N keys, the pointer is `k` places on from where it started, wrapping once past the end |
| Rotation.ReturnedAt | index.js:66-68 | the j-th of several consecutive calls returns the key at the position it moved the pointer to |
| Rotation.FullCycle | index.js:66 | N calls on N keys bring the pointer back to its start. The positions visited are all different and cover the whole list, so each key is returned exactly once |
| Rotation.ThreeKeyRotation | index.js:66-68 | on `["a","b","c"]` starting at 0, three calls return "b", "c", "a" and bring the pointer back to 0 |
| Rotation.SendTrace | index.js:78-83 | k sends produce exactly two effects each |
| Rotation.SendTraceRotates | index.js:78-83 | in k sends, send j notifies with exactly the key returned by rotation j, and its message is forwarded right after |
| Rotation.TwoKeySends | index.js:78-83 | with `["k1","k2"]` starting at 0, three sends notify "k2", "k1", "k2", each followed by its forward |
| ApiRotay.KeyStore.constructor | index.js:3-4 | the fields start as `Rotation.Initial` of the stored list, so the invariant holds |
| ApiRotay.KeyStore.AddKey | index.js:47-54 | appends the trimmed input in place when it is not empty, as `Rotation.Add` says, and keeps the invariant |
| ApiRotay.KeyStore.RemoveKey | index.js:56-62 | splices in place and resets an out-of-range pointer, as `Rotation.Remove` says, and keeps the invariant |
| ApiRotay.KeyStore.GetNextApiKey | index.js:64-69 | advances the pointer in place and returns the new key (or `None` on an empty list), as `Rotation.Next` says |
| ApiRotay.KeyStore.SentMessage | index.js:78-83 | rotates exactly once, then notifies with the key that rotation returned, then forwards, as `Rotation.Send` says |
| ApiRotay.ThreeSends | index.js:78-83 | a client of the class: three sends on a fresh store holding `["k1","k2"]` notify "k2", "k1", "k2" in that order, each before its forward |

## Left out

- Rendering the settings panel is not modelled (`loadUI` and the HTML built by `updateKeyList`, index.js:13-21 and 28-42). Neither is clearing the input box after an add (index.js:51). These are DOM and jQuery UI work.
- Persistence through `localStorage` and `JSON.parse`/`JSON.stringify` (index.js:3, 25, 44) is host library I/O. The constructor takes the parsed list as a parameter: `None` when nothing was stored. Stored entries are assumed to be strings. `currentIndex` is never persisted, so it always starts at 0.
- The `fetch` POST in `autoConnectNewKey` (index.js:86-100) is asynchronous network I/O, and its success or failure is only logged. It appears only as the `Connect(key)` effect, in its place in the order.
- Installing the hook (the `load` listener and reassigning `window.sentMessage`, index.js:7-10 and 71-77) is host plumbing, and so is the error logged when the hook is missing. The wrapper's arguments, `this` and promise result are passed through untouched; the model reduces them to the `Forward` effect.
- `toggleAutoRotation` (index.js:23-26) only stores a flag that nothing reads, so it has no effect on the store.
- Rotation.Next: requires a non-negative pointer. Without one, JavaScript's `%` would give a negative index and `apiKeys[-1]` would be `undefined`. Every reachable state has a non-negative pointer (`Rotation.InitialInv` and the preservation lemmas).
- ApiRotay.KeyStore.GetNextApiKey: requires the pointer invariant (`Valid()`). The constructor establishes it and every method keeps it.
- Rotation.AdvanceIndex: only covers up to one full lap (`k <= N`). That is all the cycle property needs. The general `(start + k) mod N` form is not stated.
- Rotation.SpliceStart: only integer indices are modelled. JavaScript's conversion of fractional, `NaN` or non-numeric arguments to integers is not; the UI only passes list positions (index.js:38).
- Strings are sequences of Unicode scalar values, while JavaScript strings are sequences of UTF-16 code units, so a key holding a lone surrogate cannot be represented. Trimming is unaffected: every white-space character is a single non-surrogate code unit.
- Console logging (index.js:73, 79, 87, 95, 97) is not modelled.
