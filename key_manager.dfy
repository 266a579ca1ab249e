/**
 * Rotation of the AI service's API keys: the configured keys are used in order, moving
 * one key further each time the current one is used up, and the manager is one shared
 * instance that a second construction does not reset.
 */
module KeyManager {
  import opened Wrappers

  /** The key at position `index`; `None` once the position is past the last key. */
  function KeyAt(keys: seq<string>, index: nat): (r: Option<string>)
    ensures r.Some? <==> index < |keys|
    ensures r.Some? ==> r.value == keys[index]
  {
    if index < |keys| then Some(keys[index]) else None
  }

  /** Once the keys run out they stay out: a later position has no key either. */
  lemma ExhaustedStaysExhausted(keys: seq<string>, index: nat, later: nat)
    requires index <= later && KeyAt(keys, index).None?
    ensures KeyAt(keys, later).None?
  {
  }

  /**
   * What `n` successive `switch_to_next_key` calls return, starting from position
   * `index`: each call moves one position on and reports the key found there.
   */
  function Switches(keys: seq<string>, index: nat, n: nat): seq<Option<string>>
    decreases n
  {
    if n == 0 then [] else [KeyAt(keys, index + 1)] + Switches(keys, index + 1, n - 1)
  }

  /**
   * Repeated switching walks the keys in their configured order: the `i`-th call
   * returns the key `i + 1` places on, and after the first `None` every call returns `None`.
   */
  lemma {:induction false} SwitchesWalkKeys(keys: seq<string>, index: nat, n: nat)
    ensures |Switches(keys, index, n)| == n
    ensures forall i :: 0 <= i < n ==> Switches(keys, index, n)[i] == KeyAt(keys, index + 1 + i)
    ensures forall i, j :: 0 <= i <= j < n && Switches(keys, index, n)[i].None? ==> Switches(keys, index, n)[j].None?
    decreases n
  {
    if n > 0 {
      SwitchesWalkKeys(keys, index + 1, n - 1);
      var r := Switches(keys, index, n);
      assert forall i :: 1 <= i < n ==> r[i] == Switches(keys, index + 1, n - 1)[i - 1];
    }
  }

  /** `ApiKeyManager`. */
  class ApiKeyManager {
    var keys: seq<string>
    var currentKeyIndex: nat

    /** The first `__init__`: the configured keys, starting from the first. */
    constructor (configured: seq<string>)
      ensures keys == configured && currentKeyIndex == 0
    {
      keys := configured;
      currentKeyIndex := 0;
    }

    /** `get_current_key`. */
    function CurrentKey(): Option<string>
      reads this
    {
      KeyAt(keys, currentKeyIndex)
    }

    /** `switch_to_next_key`: one position further, and the key found there. */
    method SwitchToNextKey() returns (key: Option<string>)
      modifies this
      ensures keys == old(keys)
      ensures currentKeyIndex == old(currentKeyIndex) + 1
      ensures key == KeyAt(keys, currentKeyIndex)
    {
      currentKeyIndex := currentKeyIndex + 1;
      key := CurrentKey();
    }
  }

  /** The class attribute `_instance`: the one manager every construction returns. */
  class KeyManagerRegistry {
    var instance: ApiKeyManager?

    constructor ()
      ensures instance == null
    {
      instance := null;
    }

    /**
     * `ApiKeyManager()`: the first call builds the manager from the configured keys;
     * every later call returns that same manager with its keys and position untouched.
     */
    method Obtain(configured: seq<string>) returns (m: ApiKeyManager)
      modifies this
      ensures instance == m
      ensures old(instance) == null ==> fresh(m) && m.keys == configured && m.currentKeyIndex == 0
      ensures old(instance) != null ==> m == old(instance)
      ensures old(instance) != null ==>
        m.keys == old(instance.keys) && m.currentKeyIndex == old(instance.currentKeyIndex)
    {
      if instance == null {
        instance := new ApiKeyManager(configured);
      }
      m := instance;
    }
  }
}
