/** The key store and rotation engine of the apirotay extension, as values: the list of
    API keys, the rotation pointer, and what adding, removing and rotating do to them.
    The class in key_store.dfy changes its fields exactly as these functions say. */
module Rotation {
  import opened JsString

  datatype Option<T> = None | Some(value: T)

  /** `apiKeys` and `currentIndex` of index.js. */
  datatype State = State(keys: seq<string>, index: int)

  /** The pointer is never negative, and it is inside the list unless it is 0. */
  predicate Inv(s: State) {
    0 <= s.index && (s.index < |s.keys| || s.index == 0)
  }

  /** Every stored key is non-empty and has no surrounding white space. */
  predicate KeysTrimmed(keys: seq<string>) {
    forall k :: 0 <= k < |keys| ==> keys[k] != [] && Trimmed(keys[k])
  }

  /** Start-up: the list read back from storage, or `[]` when nothing was stored
      (`JSON.parse(...) || []`), and a pointer that always starts at 0. */
  function Initial(stored: Option<seq<string>>): (r: State)
    ensures Inv(r) && r.index == 0
    ensures stored.None? ==> r.keys == []
  {
    State(if stored.Some? then stored.value else [], 0)
  }

  /** `addKey`: the trimmed input is appended when it is not empty. */
  function Add(s: State, input: string): (r: State)
    ensures r.index == s.index && |s.keys| <= |r.keys| && r.keys[..|s.keys|] == s.keys
    ensures |r.keys| == |s.keys| || (|r.keys| == |s.keys| + 1 && Trimmed(r.keys[|s.keys|]) && r.keys[|s.keys|] != [])
  {
    var key := Trim(input);
    if key != [] then s.(keys := s.keys + [key]) else s
  }

  /** Where `Array.prototype.splice(start, ...)` starts on an array of length `len`:
      a negative start counts from the end (and stops at 0), a start beyond the end
      is the end. */
  function SpliceStart(len: nat, start: int): (r: nat)
    ensures r <= len
    ensures 0 <= start <= len ==> r == start
    ensures start < 0 && start + len >= 0 ==> r == len + start
    ensures start + len < 0 ==> r == 0
    ensures start > len ==> r == len
  {
    if start < 0 then (if len + start < 0 then 0 else len + start)
    else if start > len then len
    else start
  }

  /** `keys.splice(start, 1)`: removes one element, if there is one at the start. */
  function SpliceOne(keys: seq<string>, start: int): (r: seq<string>)
    ensures |r| == if keys != [] && start < |keys| then |keys| - 1 else |keys|
    ensures multiset(r) <= multiset(keys)
  {
    var a := SpliceStart(|keys|, start);
    if a < |keys| then
      assert keys == keys[..a] + [keys[a]] + keys[a + 1..];
      keys[..a] + keys[a + 1..]
    else keys
  }

  /** `removeKey(index)`: splice, then send the pointer back to 0 if it has fallen
      off the end. The pointer is not shifted when an earlier key is removed. */
  function Remove(s: State, index: int): (r: State)
    ensures |s.keys| - 1 <= |r.keys| <= |s.keys|
    ensures multiset(r.keys) <= multiset(s.keys)
    ensures r.index == s.index || r.index == 0
    ensures 0 <= s.index ==> Inv(r)
  {
    var keys := SpliceOne(s.keys, index);
    State(keys, if s.index >= |keys| then 0 else s.index)
  }

  /** `getNextApiKey`: on an empty list nothing changes and the result is `null`;
      otherwise the pointer moves one step round the list and the key it lands on is
      returned. */
  function Next(s: State): (r: (State, Option<string>))
    requires 0 <= s.index
    ensures r.0.keys == s.keys
    ensures r.1.Some? <==> s.keys != []
    ensures r.1.Some? ==> 0 <= r.0.index < |s.keys| && r.1.value == s.keys[r.0.index]
    ensures r.1.None? ==> r.0 == s
  {
    if |s.keys| == 0 then (s, None)
    else
      var i := (s.index + 1) % |s.keys|;
      (s.(index := i), Some(s.keys[i]))
  }

  /** What one call of the wrapped `sentMessage` does, in order. */
  datatype Effect =
    | Connect(key: Option<string>)  // `autoConnectNewKey(newKey)`, also with a null key
    | Forward                       // the original `sentMessage` is called with the same arguments

  /** The send wrapper: rotate once, hand the new key to the notifier, then forward. */
  function Send(s: State): (r: (State, seq<Effect>))
    requires 0 <= s.index
    ensures |r.1| == 2 && r.1[1] == Forward
    ensures r.1[0] == Connect(Next(s).1) && r.0 == Next(s).0
  {
    var (t, key) := Next(s);
    (t, [Connect(key), Forward])
  }

  // ----- Invariant -----

  lemma InitialInv(stored: Option<seq<string>>)
    ensures Inv(Initial(stored)) && Initial(stored).index == 0
    ensures Initial(stored).keys == (if stored.Some? then stored.value else [])
  {
  }

  lemma AddPreservesInv(s: State, input: string)
    requires Inv(s)
    ensures Inv(Add(s, input))
  {
  }

  lemma RemovePreservesInv(s: State, index: int)
    requires Inv(s)
    ensures Inv(Remove(s, index))
  {
  }

  lemma NextPreservesInv(s: State)
    requires Inv(s)
    ensures Inv(Next(s).0)
  {
  }

  // ----- addKey -----

  /** Non-blank input: exactly its trimmed form is appended; the earlier keys and the
      pointer stay as they were. */
  lemma AddAppends(s: State, input: string)
    requires !Blank(input)
    ensures Add(s, input).keys == s.keys + [Trim(input)]
    ensures Trim(input) != [] && Trimmed(Trim(input))
    ensures Add(s, input).index == s.index
  {
    TrimEmptyIff(input);
    var _, _ := TrimIsSlice(input);
  }

  /** `addKey` leaves the store untouched exactly when the input is empty or all
      white space. */
  lemma AddUnchangedIff(s: State, input: string)
    ensures Add(s, input) == s <==> Blank(input)
  {
    TrimEmptyIff(input);
    if !Blank(input) {
      assert |Add(s, input).keys| == |s.keys| + 1;
    }
  }

  /** Keys that enter through `addKey` are non-empty and trimmed, and `removeKey`
      keeps the rest as they were, so a store that starts with such keys keeps them. */
  lemma AddKeepsKeysTrimmed(s: State, input: string)
    requires KeysTrimmed(s.keys)
    ensures KeysTrimmed(Add(s, input).keys)
  {
    var _, _ := TrimIsSlice(input);
  }

  lemma RemoveKeepsKeysTrimmed(s: State, index: int)
    requires KeysTrimmed(s.keys)
    ensures KeysTrimmed(Remove(s, index).keys)
  {
    var a := SpliceStart(|s.keys|, index);
    if a < |s.keys| {
      var keys := Remove(s, index).keys;
      forall k | 0 <= k < |keys| ensures keys[k] != [] && Trimmed(keys[k]) {
        if k < a { assert keys[k] == s.keys[k]; } else { assert keys[k] == s.keys[k + 1]; }
      }
    }
  }

  // ----- removeKey -----

  /** An in-range index removes that one key and keeps the others in order; the
      pointer goes to 0 exactly when it is no longer inside the shorter list. */
  lemma RemoveInRange(s: State, index: int)
    requires 0 <= index < |s.keys|
    ensures Remove(s, index).keys == s.keys[..index] + s.keys[index + 1..]
    ensures |Remove(s, index).keys| == |s.keys| - 1
    ensures forall k :: 0 <= k < index ==> Remove(s, index).keys[k] == s.keys[k]
    ensures forall k :: index <= k < |s.keys| - 1 ==> Remove(s, index).keys[k] == s.keys[k + 1]
    ensures Remove(s, index).index == if s.index >= |s.keys| - 1 then 0 else s.index
  {
  }

  /** An index at or past the end removes nothing, and on a store that keeps the
      invariant the pointer stays too. */
  lemma RemovePastEnd(s: State, index: int)
    requires Inv(s) && index >= |s.keys|
    ensures Remove(s, index) == s
  {
  }

  /** A negative index counts from the end, as in `splice`: -1 removes the last key,
      and an index below -length removes the first. */
  lemma RemoveNegative(s: State, index: int)
    requires index < 0 && s.keys != []
    ensures Remove(s, index).keys ==
      if index + |s.keys| < 0 then s.keys[1..]
      else s.keys[..|s.keys| + index] + s.keys[|s.keys| + index + 1..]
  {
    if index + |s.keys| < 0 {
      assert s.keys[..0] == [];
    }
  }

  /** Removing a key before the active one, when the active one is not the last,
      leaves the pointer where it was, so the active key becomes the one that followed
      it. (When the active key is the last, the pointer falls off the end and goes
      back to 0: see RemoveInRange.) */
  lemma RemoveBeforeActive(s: State, index: int)
    requires 0 <= index < s.index < |s.keys| - 1
    ensures Remove(s, index).index == s.index
    ensures Remove(s, index).keys[s.index] == s.keys[s.index + 1]
  {
    RemoveInRange(s, index);
  }

  // ----- getNextApiKey -----

  lemma NextEmpty(s: State)
    requires 0 <= s.index && s.keys == []
    ensures Next(s) == (s, None)
  {
  }

  /** On a non-empty list the pointer moves to the following position, wrapping from
      the last to the first, the list is untouched, and the key returned is the key
      at the new pointer. */
  lemma NextStep(s: State)
    requires Inv(s) && s.keys != []
    ensures Next(s).0.keys == s.keys
    ensures Next(s).0.index == if s.index == |s.keys| - 1 then 0 else s.index + 1
    ensures Next(s).1 == Some(s.keys[Next(s).0.index])
  {
  }

  /** The state after `k` consecutive calls of `getNextApiKey`. */
  function Advance(s: State, k: nat): (t: State)
    requires 0 <= s.index
    ensures 0 <= t.index && t.keys == s.keys
  {
    if k == 0 then s else Next(Advance(s, k - 1)).0
  }

  /** The keys returned by `k` consecutive calls of `getNextApiKey`, in order. */
  function Returned(s: State, k: nat): (r: seq<Option<string>>)
    requires 0 <= s.index
    ensures |r| == k
  {
    if k == 0 then [] else Returned(s, k - 1) + [Next(Advance(s, k - 1)).1]
  }

  /** Where the pointer lands after `k` calls, for at most one lap: `k` positions
      on from the start, wrapping once past the end. */
  function Lap(start: int, k: int, n: int): int {
    if start + k < n then start + k else start + k - n
  }

  /** After `k <= n` calls from a pointer inside a list of length n the pointer is
      `k` positions on, modulo n. */
  lemma {:induction false} AdvanceIndex(s: State, k: nat)
    requires Inv(s) && s.keys != [] && k <= |s.keys|
    ensures Advance(s, k).index == Lap(s.index, k, |s.keys|)
  {
    if k > 0 {
      AdvanceIndex(s, k - 1);
      NextStep(Advance(s, k - 1));
    }
  }

  /** The positions the pointer lands on during `k` consecutive calls, in order. */
  function Visited(s: State, k: nat): (r: seq<int>)
    requires 0 <= s.index
    ensures |r| == k
    ensures forall j :: 0 <= j < k ==> r[j] == Advance(s, j + 1).index
  {
    if k == 0 then [] else Visited(s, k - 1) + [Advance(s, k).index]
  }

  /** The j-th call (counting from 0) returns the key at the position it lands on. */
  lemma {:induction false} ReturnedAt(s: State, k: nat, j: nat)
    requires Inv(s) && s.keys != [] && j < k
    ensures Returned(s, k)[j] == Some(s.keys[Advance(s, j + 1).index])
  {
    if j < k - 1 {
      ReturnedAt(s, k - 1, j);
    }
  }

  /** N calls on a list of N keys: the pointer is back where it started, the list is
      unchanged, and the positions landed on are all different and cover every
      position of the list, so every key is returned exactly once. */
  lemma FullCycle(s: State)
    requires Inv(s) && s.keys != []
    ensures Advance(s, |s.keys|) == s
    ensures forall j :: 0 <= j < |s.keys| ==> 0 <= Visited(s, |s.keys|)[j] < |s.keys|
    ensures forall j1, j2 :: 0 <= j1 < j2 < |s.keys| ==> Visited(s, |s.keys|)[j1] != Visited(s, |s.keys|)[j2]
    ensures forall p :: 0 <= p < |s.keys| ==> p in Visited(s, |s.keys|)
    ensures forall j :: 0 <= j < |s.keys| ==> Returned(s, |s.keys|)[j] == Some(s.keys[Visited(s, |s.keys|)[j]])
  {
    var n := |s.keys|;
    var v := Visited(s, n);
    AdvanceIndex(s, n);
    forall j | 0 <= j < n ensures v[j] == Lap(s.index, j + 1, n) {
      AdvanceIndex(s, j + 1);
    }
    forall p | 0 <= p < n ensures p in v {
      var j := if p > s.index then p - s.index - 1 else p - s.index + n - 1;
      assert v[j] == p;
    }
    forall j | 0 <= j < n ensures Returned(s, n)[j] == Some(s.keys[v[j]]) {
      ReturnedAt(s, n, j);
    }
  }

  /** The example of three keys: from the first, three calls return the second, the
      third and the first key, and the pointer is back at the start. */
  lemma ThreeKeyRotation()
    ensures Returned(State(["a", "b", "c"], 0), 3) == [Some("b"), Some("c"), Some("a")]
    ensures Advance(State(["a", "b", "c"], 0), 3) == State(["a", "b", "c"], 0)
  {
    var s := State(["a", "b", "c"], 0);
    assert Advance(s, 1).index == 1;
    assert Advance(s, 2).index == 2;
  }

  // ----- The send wrapper -----

  /** The effects of `k` consecutive sends, in order. */
  function SendTrace(s: State, k: nat): (r: seq<Effect>)
    requires 0 <= s.index
    ensures |r| == 2 * k
  {
    if k == 0 then [] else SendTrace(s, k - 1) + Send(Advance(s, k - 1)).1
  }

  /** Each send rotates exactly once and the notifier receives the very key that
      rotation returned, before the original send is forwarded. */
  lemma {:induction false} SendTraceRotates(s: State, k: nat)
    requires 0 <= s.index
    ensures forall j :: 0 <= j < k ==>
      SendTrace(s, k)[2 * j] == Connect(Returned(s, k)[j]) && SendTrace(s, k)[2 * j + 1] == Forward
  {
    if k > 0 {
      SendTraceRotates(s, k - 1);
      assert SendTrace(s, k)[..2 * (k - 1)] == SendTrace(s, k - 1);
      assert Returned(s, k)[..k - 1] == Returned(s, k - 1);
    }
  }

  /** Two keys, starting at the first: three sends notify the second, the first and
      the second key, each right before its message is forwarded. */
  lemma TwoKeySends()
    ensures SendTrace(State(["k1", "k2"], 0), 3) ==
      [Connect(Some("k2")), Forward, Connect(Some("k1")), Forward, Connect(Some("k2")), Forward]
  {
    var s := State(["k1", "k2"], 0);
    assert Advance(s, 1).index == 1;
    assert Advance(s, 2).index == 0;
  }
}
