/** The dotted-namespace rule of event-emitter.js: which registry keys an
    event name addresses, and which names `on` and `emit` refuse. */
module Namespaces {
  import opened Strings
  import opened Arrays

  const Dot: string := "."

  /** The test of disallowBareNamespaces: `value.indexOf('.') === 0`. */
  function IsBareNamespace(name: string): (b: bool)
    ensures b <==> |name| > 0 && name[0] == '.'
  {
    IndexOfChar(name, '.');
    IndexOf(name, Dot) == 0
  }

  /** A name with a dot after its first character: eachEventMatching hands
      the action `listeners(eventName)`, so the key is created if absent. */
  function IsNamespacedName(name: string): (b: bool)
    ensures b <==> |name| > 0 && name[0] != '.' && '.' in name
  {
    IndexOfChar(name, '.');
    IndexOf(name, Dot) > 0
  }

  /** The per-key test of eachEventMatching, with the three branches of the
      source: a bare namespace matches every key that contains it, a
      namespaced name matches itself only, a plain name matches itself and
      every key that starts with the name and a dot. */
  predicate Selects(eventName: string, key: string) {
    var i := IndexOf(eventName, Dot);
    if i == 0 then IndexOf(key, eventName) != -1
    else if i != -1 then key == eventName
    else key == eventName || IndexOf(key, eventName + Dot) == 0
  }

  lemma BareNamespaceSelectsContaining(eventName: string, key: string)
    requires |eventName| > 0 && eventName[0] == '.'
    ensures Selects(eventName, key) <==> exists j :: OccursAt(key, eventName, j)
  {
    IndexOfChar(eventName, '.');
    IndexOfIsFirst(key, eventName);
  }

  lemma NamespacedNameSelectsItself(eventName: string, key: string)
    requires |eventName| > 0 && eventName[0] != '.' && '.' in eventName
    ensures Selects(eventName, key) <==> key == eventName
  {
    IndexOfChar(eventName, '.');
  }

  lemma PlainNameSelectsFamily(eventName: string, key: string)
    requires '.' !in eventName
    ensures Selects(eventName, key) <==> key == eventName || eventName + Dot <= key
  {
    IndexOfChar(eventName, '.');
    IndexOfZeroIffPrefix(key, eventName + Dot);
  }

  /** The keys, among `keys` taken in enumeration order, that eachEventMatching
      hands to its action. */
  function SelectKeys(eventName: string, keys: seq<string>): (r: seq<string>)
    ensures forall k :: k in r <==> k in keys && Selects(eventName, k)
    ensures Distinct(keys) ==> Distinct(r)
    ensures |r| <= |keys|
  {
    if keys == [] then []
    else
      var last := keys[|keys| - 1];
      assert keys == keys[..|keys| - 1] + [last];
      SelectKeys(eventName, keys[..|keys| - 1]) + (if Selects(eventName, last) then [last] else [])
  }

  /** One more key in the enumeration adds it at the end when selected. */
  lemma SelectKeysSnoc(eventName: string, keys: seq<string>, key: string)
    ensures SelectKeys(eventName, keys + [key]) ==
            SelectKeys(eventName, keys) + (if Selects(eventName, key) then [key] else [])
  {
    assert (keys + [key])[..|keys|] == keys;
  }

  /** A step of the enumeration for a bare namespace: the next key is
      selected when it contains the namespace. */
  lemma SelectContainingStep(namespace: string, keys: seq<string>, i: nat)
    requires IndexOf(namespace, Dot) == 0 && i < |keys|
    ensures SelectKeys(namespace, keys[..i + 1]) ==
            SelectKeys(namespace, keys[..i]) + (if IndexOf(keys[i], namespace) != -1 then [keys[i]] else [])
  {
    assert keys[..i + 1] == keys[..i] + [keys[i]];
    SelectKeysSnoc(namespace, keys[..i], keys[i]);
  }

  /** A step of the enumeration for a name without a dot: the next key is
      selected when it is the name or starts with the name and a dot. */
  lemma SelectFamilyStep(eventName: string, keys: seq<string>, i: nat)
    requires IndexOf(eventName, Dot) == -1 && i < |keys|
    ensures SelectKeys(eventName, keys[..i + 1]) ==
            SelectKeys(eventName, keys[..i]) +
            (if keys[i] == eventName || IndexOf(keys[i], eventName + Dot) == 0 then [keys[i]] else [])
  {
    assert keys[..i + 1] == keys[..i] + [keys[i]];
    SelectKeysSnoc(eventName, keys[..i], keys[i]);
  }

  /** A namespaced name addresses exactly its own key, once. */
  lemma NamespacedNameSelectsOneKey(eventName: string, keys: seq<string>)
    requires |eventName| > 0 && eventName[0] != '.' && '.' in eventName
    requires Distinct(keys) && eventName in keys
    ensures SelectKeys(eventName, keys) == [eventName]
  {
    var r := SelectKeys(eventName, keys);
    forall k | k in r ensures k == eventName {
      NamespacedNameSelectsItself(eventName, k);
    }
    NamespacedNameSelectsItself(eventName, eventName);
    OnlyElement(r, eventName);
  }
}
