/** The EventEmitter object of event-emitter.js: the listener dictionary is
    state that `on`, `off`, `listeners` and `emit` update in place. */
module Emitter {
  import opened Wrappers
  import opened Strings
  import opened Arrays
  import opened Namespaces
  import opened EmitterSpec

  /** What `listeners(eventName)` hands back: the whole dictionary (no name,
      or the empty name), or the list of one name. */
  datatype View<L> = Dictionary(lists: map<string, seq<Entry<L>>>) | List(entries: seq<Entry<L>>)

  /** One invocation `listener.apply(null, [sender, args])`. */
  datatype Call<L(==), A> = Call(listener: L, sender: EventEmitter<L>, args: A)

  /** The invocations emit makes: each listener called, in order, with the
      emitter and the event's argument. */
  function Deliver<L(==), A>(invoked: seq<L>, sender: EventEmitter<L>, args: A): (calls: seq<Call<L, A>>)
    ensures |calls| == |invoked|
    ensures forall j :: 0 <= j < |calls| ==> calls[j] == Call(invoked[j], sender, args)
  {
    seq(|invoked|, j requires 0 <= j < |invoked| => Call(invoked[j], sender, args))
  }

  class EventEmitter<L(==)> {
    /** `__listeners`: a list of stored values per event name. */
    var lists: map<string, seq<Entry<L>>>
    /** The order in which `for..in` enumerates the names: insertion order. */
    var order: seq<string>
    /** How many invokeOnce wrappers exist so far; the identity of the next. */
    var nextId: nat

    function State(): Registry<L>
      reads this
    {
      Registry(lists, order, nextId)
    }

    ghost predicate Valid()
      reads this
    {
      State().Valid()
    }

    /** `new EventEmitter()`: no name is registered. */
    constructor()
      ensures Valid()
      ensures State() == Registry(map[], [], 0)
    {
      lists := map[];
      order := [];
      nextId := 0;
    }

    /** `listeners(eventName)`: a falsy name gets the dictionary; any other
        name gets its list, created empty (and enumerated last) if absent. */
    method Listeners(name: Option<string>) returns (v: View<L>)
      requires Valid()
      modifies this
      ensures Valid()
      ensures name.None? || name.value == "" ==> State() == old(State()) && v == Dictionary(lists)
      ensures name.Some? && name.value != "" ==>
                State() == Touch(old(State()), name.value) && v == List(lists[name.value])
    {
      if name.None? || name.value == "" {
        return Dictionary(lists);
      }
      var key := name.value;
      if key !in lists {
        lists := lists[key := []];
        order := order + [key];
      }
      v := List(lists[key]);
    }

    /** `addListener` inside `on`: push the listener, or a new invokeOnce
        wrapper around it, onto `listeners(key)`. For the empty key that is
        the dictionary, which has no `push`: TypeError, nothing stored. */
    method AddListener(key: string, listener: Option<L>, once: bool) returns (failed: bool)
      requires Valid()
      modifies this
      ensures Valid()
      ensures failed <==> key == ""
      ensures failed ==> State() == old(State())
      ensures !failed ==> State() == Add(old(State()), key, listener, once)
    {
      if key == "" {
        return true;
      }
      ghost var before := State();
      var list := if key in lists then lists[key] else [];
      if key !in lists {
        order := order + [key];
      }
      lists := lists[key := list + [Wrap(listener, once, nextId)]];
      if once {
        nextId := nextId + 1;
      }
      AddValid(before, key, listener, once);
      return false;
    }

    /** `on(eventName, listener, options)` with a name: the name must be
        defined and not a bare namespace; then the listener is added. */
    method On(name: Option<string>, listener: Option<L>, once: bool) returns (r: Result<EventEmitter<L>, Error>)
      requires Valid()
      modifies this
      ensures Valid()
      ensures CheckEventName(name).Failure? ==>
                r == Failure(CheckEventName(name).error) && State() == old(State())
      ensures CheckEventName(name).Success? && name.value == "" ==>
                r == Failure(TypeError) && State() == old(State())
      ensures CheckEventName(name).Success? && name.value != "" ==>
                r == Success(this) && State() == Add(old(State()), name.value, listener, once)
    {
      var checked := CheckEventName(name);
      if checked.Failure? {
        return Failure(checked.error);
      }
      var failed := AddListener(checked.value, listener, once);
      if failed {
        return Failure(TypeError);
      }
      return Success(this);
    }

    /** `on(hash, options)`: each name of the hash, in enumeration order, gets
        its value. The names are not checked; an empty one throws the
        TypeError of AddListener, after the pairs before it were added. */
    method OnHash(hash: seq<(string, Option<L>)>, once: bool) returns (r: Result<EventEmitter<L>, Error>)
      requires Valid()
      modifies this
      ensures Valid()
      ensures State() == AddAll(old(State()), hash, once, 0)
      ensures r.Failure? <==> exists j :: 0 <= j < |hash| && hash[j].0 == ""
      ensures r.Failure? ==> r.error == TypeError
      ensures r.Success? ==> r.value == this
    {
      ghost var before := State();
      var i := 0;
      while i < |hash|
        invariant 0 <= i <= |hash|
        invariant Valid()
        invariant NamedPrefix(hash, i)
        invariant State() == AddPrefix(before, hash, once, i)
      {
        var (key, listener) := hash[i];
        var failed := AddListener(key, listener, once);
        if failed {
          AddAllAfterPrefix(before, hash, once, i);
          NamedPrefixAll(hash, i);
          return Failure(TypeError);
        }
        i := i + 1;
      }
      AddAllAfterPrefix(before, hash, once, i);
      NamedPrefixAll(hash, i);
      return Success(this);
    }

    /** eachEventMatching(this, name, action), as the keys it hands to the
        action in turn. A namespaced name goes through `listeners(name)`. */
    method EachEventMatching(name: string) returns (keys: seq<string>)
      requires Valid()
      modifies this
      ensures Valid()
      ensures State() == Scope(old(State()), name)
      ensures keys == Matching(old(State()), name)
    {
      var dot := IndexOf(name, Dot);
      if dot == 0 {
        keys := KeysContaining(order, name);
      } else if dot != -1 {
        ghost var before := State();
        if name !in lists {
          lists := lists[name := []];
          order := order + [name];
        }
        assert State() == Touch(before, name);
        keys := [name];
        MatchingSelects(before, name);
      } else {
        keys := KeysOfFamily(order, name);
      }
    }

    /** `off()`: every list is emptied in place; the names stay. */
    method OffAll()
      requires Valid()
      modifies this
      ensures Valid()
      ensures State() == ClearAll(old(State()))
    {
      ghost var before := State();
      var emptied := EmptyLists(lists, order);
      lists := emptied;
      ReplaceListsValid(before, lists);
      assert State() == Registry(lists, before.order, before.nextId);
      assert lists == ClearAll(before).lists;
    }

    /** `off(name)`: the lists of the matching keys are emptied in place. */
    method OffMatching(name: string)
      requires Valid()
      modifies this
      ensures Valid()
      ensures State() == ClearMatching(old(State()), name)
    {
      ghost var before := State();
      var keys := EachEventMatching(name);
      MatchingKeysPresent(before, name);
      var emptied := EmptyLists(lists, keys);
      EmptiedMatching(before, name, emptied);
      lists := emptied;
    }

    /** `off(name, listener)`: the first stored value identical to the
        listener argument leaves `listeners(name)`. The argument is any
        value as it would be stored: `Plain(Some(f))` for a function `f`, or
        a once-wrapper read back from `listeners(name)`. The empty name
        yields the dictionary, which has no `indexOf`: TypeError, nothing
        changes. */
    method OffListener(name: string, value: Entry<L>) returns (failed: bool)
      requires Valid()
      modifies this
      ensures Valid()
      ensures failed <==> name == ""
      ensures failed ==> State() == old(State())
      ensures !failed ==> State() == Unsubscribe(old(State()), name, value)
    {
      if name == "" {
        return true;
      }
      ghost var before := State();
      UnsubscribeShape(before, name, value);
      var list := if name in lists then lists[name] else [];
      if name !in lists {
        order := order + [name];
      }
      var kept := Splice(list, value);
      lists := lists[name := kept];
      return false;
    }

    /** `off(eventName, listener)`: no name clears everything, a name alone
        clears what it matches, both remove one listener. The listener
        argument is a value as it would be stored, `Plain(None)` being
        `undefined`. */
    method Off(name: Option<string>, listener: Entry<L>) returns (r: Result<EventEmitter<L>, Error>)
      requires Valid()
      modifies this
      ensures Valid()
      ensures name.None? ==> r == Success(this) && State() == ClearAll(old(State()))
      ensures name.Some? && listener == Plain(None) ==>
                r == Success(this) && State() == ClearMatching(old(State()), name.value)
      ensures name.Some? && listener != Plain(None) && name.value == "" ==>
                r == Failure(TypeError) && State() == old(State())
      ensures name.Some? && listener != Plain(None) && name.value != "" ==>
                r == Success(this) && State() == Unsubscribe(old(State()), name.value, listener)
    {
      if name.None? {
        OffAll();
      } else if listener == Plain(None) {
        OffMatching(name.value);
      } else {
        var failed := OffListener(name.value, listener);
        if failed {
          return Failure(TypeError);
        }
      }
      return Success(this);
    }

    /** The action of emit: walk every matching key's list, key after key,
        and stop at the first TypeError. */
    method DispatchMatching(name: string, live: bool) returns (invoked: seq<L>, failed: bool)
      requires Valid()
      modifies this
      ensures Valid()
      ensures lists == EmitDispatch(old(State()), name, live).lists
      ensures order == Scope(old(State()), name).order && nextId == old(nextId)
      ensures invoked == EmitDispatch(old(State()), name, live).invoked
      ensures failed == EmitDispatch(old(State()), name, live).failed
    {
      ghost var before := State();
      var keys := EachEventMatching(name);
      MatchingSelects(before, name);
      var d := DispatchEach(lists, keys, live);
      assert d == EmitDispatch(before, name, live);
      ghost var scoped := State();
      DispatchShrinks(scoped.lists, keys, live);
      lists := d.lists;
      ReplaceListsValid(scoped, lists);
      assert State() == Registry(lists, scoped.order, scoped.nextId);
      invoked, failed := d.invoked, d.failed;
    }

    /** `emit(eventName, args)` as written: the name is checked as in `on`,
        then every matching list is walked live. */
    method EmitAsWritten<A>(name: Option<string>, args: A) returns (r: Result<EventEmitter<L>, Error>, calls: seq<Call<L, A>>)
      requires Valid()
      modifies this
      ensures Valid()
      ensures CheckEventName(name).Failure? ==>
                r == Failure(CheckEventName(name).error) && calls == [] && State() == old(State())
      ensures CheckEventName(name).Success? ==>
                && lists == EmitDispatch(old(State()), name.value, true).lists
                && order == Scope(old(State()), name.value).order && nextId == old(nextId)
                && calls == Deliver(EmitDispatch(old(State()), name.value, true).invoked, this, args)
                && r == if EmitDispatch(old(State()), name.value, true).failed then Failure(TypeError) else Success(this)
    {
      var checked := CheckEventName(name);
      if checked.Failure? {
        return Failure(checked.error), [];
      }
      var invoked, failed := DispatchMatching(checked.value, true);
      calls := Deliver(invoked, this, args);
      r := if failed then Failure(TypeError) else Success(this);
    }

    /** `emit(eventName, args)` with each list walked over a copy, so that a
        once-wrapper removing itself does not shift the listeners behind it. */
    method Emit<A>(name: Option<string>, args: A) returns (r: Result<EventEmitter<L>, Error>, calls: seq<Call<L, A>>)
      requires Valid()
      modifies this
      ensures Valid()
      ensures CheckEventName(name).Failure? ==>
                r == Failure(CheckEventName(name).error) && calls == [] && State() == old(State())
      ensures CheckEventName(name).Success? ==>
                && lists == EmitDispatch(old(State()), name.value, false).lists
                && order == Scope(old(State()), name.value).order && nextId == old(nextId)
                && calls == Deliver(EmitDispatch(old(State()), name.value, false).invoked, this, args)
                && r == if EmitDispatch(old(State()), name.value, false).failed then Failure(TypeError) else Success(this)
    {
      var checked := CheckEventName(name);
      if checked.Failure? {
        return Failure(checked.error), [];
      }
      var invoked, failed := DispatchMatching(checked.value, false);
      calls := Deliver(invoked, this, args);
      r := if failed then Failure(TypeError) else Success(this);
    }

    /** `emit(eventName, args, { async: true })`: the walk only schedules;
        every stored value of every matching key is pending, in order, and
        no list changes before emit returns. */
    method EmitAsync(name: Option<string>) returns (r: Result<EventEmitter<L>, Error>, scheduled: seq<Entry<L>>)
      requires Valid()
      modifies this
      ensures Valid()
      ensures CheckEventName(name).Failure? ==>
                r == Failure(CheckEventName(name).error) && scheduled == [] && State() == old(State())
      ensures CheckEventName(name).Success? ==>
                && r == Success(this)
                && State() == Scope(old(State()), name.value)
                && scheduled == Pending(State().lists, Matching(old(State()), name.value))
    {
      var checked := CheckEventName(name);
      if checked.Failure? {
        return Failure(checked.error), [];
      }
      ghost var before := State();
      var keys := EachEventMatching(checked.value);
      MatchingSelects(before, checked.value);
      scheduled := Schedule(lists, keys);
      r := Success(this);
    }
  }

  /** The loop of eachEventMatching for a bare namespace: every key that
      contains it, in enumeration order. */
  method KeysContaining(order: seq<string>, namespace: string) returns (keys: seq<string>)
    requires IndexOf(namespace, Dot) == 0
    ensures keys == SelectKeys(namespace, order)
  {
    keys := [];
    var i := 0;
    while i < |order|
      invariant 0 <= i <= |order|
      invariant keys == SelectKeys(namespace, order[..i])
    {
      var key := order[i];
      if IndexOf(key, namespace) != -1 {
        keys := keys + [key];
      }
      SelectContainingStep(namespace, order, i);
      i := i + 1;
    }
    assert order[..i] == order;
  }

  /** The loop of eachEventMatching for a name without a dot: the key equal
      to it and the keys that start with it and a dot. */
  method KeysOfFamily(order: seq<string>, name: string) returns (keys: seq<string>)
    requires IndexOf(name, Dot) == -1
    ensures keys == SelectKeys(name, order)
  {
    keys := [];
    var i := 0;
    while i < |order|
      invariant 0 <= i <= |order|
      invariant keys == SelectKeys(name, order[..i])
    {
      var key := order[i];
      if key == name || IndexOf(key, name + Dot) == 0 {
        keys := keys + [key];
      }
      SelectFamilyStep(name, order, i);
      i := i + 1;
    }
    assert order[..i] == order;
  }

  /** `var i = listeners.indexOf(value); if (~i) listeners.splice(i, 1);` */
  method Splice<L(==)>(list: seq<Entry<L>>, value: Entry<L>) returns (kept: seq<Entry<L>>)
    ensures kept == RemoveFirst(list, value)
  {
    var i := IndexOfElem(list, value);
    kept := list;
    if i != -1 {
      kept := list[..i] + list[i + 1..];
    }
  }

  /** `empty(value)` for each of the given keys. */
  method EmptyLists<L>(lists: map<string, seq<Entry<L>>>, keys: seq<string>) returns (r: map<string, seq<Entry<L>>>)
    requires forall k :: k in keys ==> k in lists
    ensures r.Keys == lists.Keys
    ensures forall k :: k in r ==> r[k] == if k in keys then [] else lists[k]
  {
    r := lists;
    var i := 0;
    while i < |keys|
      invariant 0 <= i <= |keys|
      invariant r.Keys == lists.Keys
      invariant forall k :: k in r ==> r[k] == if k in keys[..i] then [] else lists[k]
    {
      assert keys[..i + 1] == keys[..i] + [keys[i]];
      r := r[keys[i] := []];
      i := i + 1;
    }
    assert keys[..i] == keys;
  }

  /** `each(listeners, invoker)` as written: n is read once, every read
      goes to the live list, and a once-wrapper's `off` splices that same
      list before the walk moves on. */
  method EachLive<L(==)>(list: seq<Entry<L>>) returns (run: Run<L>)
    ensures run == RunLive(list, 0, |list|)
  {
    var live := list;
    var n := |list|;
    var invoked := [];
    var i := 0;
    while i < n
      invariant 0 <= i <= n
      invariant RunLive(list, 0, n) == AfterCalls(invoked, RunLive(live, i, n))
    {
      if |live| <= i || live[i].listener.None? {
        return Run(live, invoked, true);
      }
      var entry := live[i];
      RunLiveStep(live, i, n);
      var next := if entry.Once? then RemoveFirst(live, entry) else live;
      AfterOneCall(invoked, entry.listener.value, RunLive(next, i + 1, n));
      invoked := invoked + [entry.listener.value];
      live := next;
      i := i + 1;
    }
    return Run(live, invoked, false);
  }

  /** The walk over a copy taken on entry; a once-wrapper's `off` still
      splices the live list. */
  method EachSnapshot<L(==)>(list: seq<Entry<L>>) returns (run: Run<L>)
    ensures run == RunSnapshot(list, 0, list)
  {
    var live := list;
    var invoked := [];
    var i := 0;
    while i < |list|
      invariant 0 <= i <= |list|
      invariant RunSnapshot(list, 0, list) == AfterCalls(invoked, RunSnapshot(list, i, live))
    {
      var entry := list[i];
      if entry.listener.None? {
        return Run(live, invoked, true);
      }
      RunSnapshotStep(list, i, live);
      var next := if entry.Once? then RemoveFirst(live, entry) else live;
      AfterOneCall(invoked, entry.listener.value, RunSnapshot(list, i + 1, next));
      invoked := invoked + [entry.listener.value];
      live := next;
      i := i + 1;
    }
    return Run(live, invoked, false);
  }

  /** emit's action over the given keys in turn; the first TypeError ends
      the emit with the lists as they are at that point. */
  method DispatchEach<L(==)>(lists: map<string, seq<Entry<L>>>, keys: seq<string>, live: bool) returns (d: Dispatch<L>)
    requires forall k :: k in keys ==> k in lists
    ensures d == DispatchKeys(lists, keys, live)
  {
    var m := lists;
    var invoked := [];
    var i := 0;
    while i < |keys|
      invariant 0 <= i <= |keys|
      invariant m.Keys == lists.Keys
      invariant DispatchKeys(lists, keys, live) == AfterDispatch(invoked, DispatchKeys(m, keys[i..], live))
    {
      assert keys[i..][0] == keys[i] && keys[i..][1..] == keys[i + 1..];
      DispatchStep(invoked, m, keys[i..], live);
      var run;
      if live {
        run := EachLive(m[keys[i]]);
      } else {
        run := EachSnapshot(m[keys[i]]);
      }
      assert run == RunList(m[keys[i]], live);
      m := m[keys[i] := run.list];
      invoked := invoked + run.invoked;
      if run.failed {
        return Dispatch(m, invoked, true);
      }
      i := i + 1;
    }
    return Dispatch(m, invoked, false);
  }

  /** The async invoker over the given keys: it only schedules, so every
      stored value is pending, key after key, in list order. */
  method Schedule<L>(lists: map<string, seq<Entry<L>>>, keys: seq<string>) returns (pending: seq<Entry<L>>)
    requires forall k :: k in keys ==> k in lists
    ensures pending == Pending(lists, keys)
  {
    pending := [];
    var i := 0;
    while i < |keys|
      invariant 0 <= i <= |keys|
      invariant pending + Pending(lists, keys[i..]) == Pending(lists, keys)
    {
      assert keys[i..][0] == keys[i] && keys[i..][1..] == keys[i + 1..];
      pending := pending + lists[keys[i]];
      i := i + 1;
    }
    assert keys[i..] == [];
  }
}
