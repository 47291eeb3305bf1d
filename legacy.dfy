/** The EventEmitter object of the legacy EventEmitter.js: `_listeners` is a
    dictionary that `on`, `once`, `off`, `listeners` and `emit` update in
    place. */
module Legacy {
  import opened Wrappers
  import opened Arrays
  import opened LegacySpec

  /** One invocation `listener.apply(null, args)`. */
  datatype Call<L, A> = Call(listener: L, args: seq<A>)

  /** The invocations emit makes: each listener called, in order, with the
      arguments that follow the event name. */
  function Deliver<L, A>(invoked: seq<L>, args: seq<A>): (calls: seq<Call<L, A>>)
    ensures |calls| == |invoked|
    ensures forall j :: 0 <= j < |calls| ==> calls[j] == Call(invoked[j], args)
  {
    seq(|invoked|, j requires 0 <= j < |invoked| => Call(invoked[j], args))
  }

  class EventEmitter<L(==)> {
    /** `_listeners` */
    var lists: map<string, seq<Entry<L>>>
    /** How many oneTimeListener wrappers exist so far; the next one's identity. */
    var nextId: nat

    function State(): Registry<L>
      reads this
    {
      Registry(lists, nextId)
    }

    ghost predicate Valid()
      reads this
    {
      State().Valid()
    }

    /** `new EventEmitter()`: an empty dictionary. */
    constructor()
      ensures Valid()
      ensures State() == Registry(map[], 0)
    {
      lists := map[];
      nextId := 0;
    }

    /** `listeners(eventName)`: the list under `String(eventName)`, created
        empty if absent. */
    method Listeners(t: Target) returns (list: seq<Entry<L>>)
      requires Valid()
      modifies this
      ensures Valid()
      ensures lists == Touch(old(lists), KeyOf(t)) && nextId == old(nextId)
      ensures list == ListOf(old(lists), KeyOf(t))
    {
      var key := KeyOf(t);
      TouchValid(State(), key);
      if key !in lists {
        lists := lists[key := []];
      }
      list := lists[key];
    }

    /** `on(eventName, value)` with a name: push the value as given. */
    method Register(t: Target, value: Entry<L>)
      requires Valid()
      modifies this
      ensures lists == Push(old(lists), KeyOf(t), value) && nextId == old(nextId)
    {
      var list := Listeners(t);
      lists := lists[KeyOf(t) := list + [value]];
    }

    /** `on(eventName, listener)` */
    method On(t: NameArg, listener: Option<L>) returns (r: EventEmitter<L>)
      requires Valid()
      modifies this
      ensures Valid()
      ensures State() == LegacySpec.On(old(State()), t, listener) && r == this
    {
      OnValid(State(), t, listener);
      Register(t, Plain(listener));
      return this;
    }

    /** `once(eventName, listener)`: `on` with a new oneTimeListener that
        remembers `eventName`. */
    method Once(t: NameArg, listener: Option<L>) returns (r: EventEmitter<L>)
      requires Valid()
      modifies this
      ensures Valid()
      ensures State() == LegacySpec.Once(old(State()), t, listener) && r == this
    {
      OnceValid(State(), t, listener);
      var w := OneTime(nextId, listener, t);
      nextId := nextId + 1;
      Register(t, w);
      return this;
    }

    /** The hash forms: each own property, in order, registered under its
        name in the form's wrapping. */
    method PushHash(pairs: seq<(string, Option<L>)>, form: HashForm)
      requires Valid()
      modifies this
      ensures Valid()
      ensures State() == PushPrefix(old(State()), pairs, form, |pairs|)
    {
      ghost var before := State();
      var i := 0;
      while i < |pairs|
        invariant 0 <= i <= |pairs|
        invariant State() == PushPrefix(before, pairs, form, i)
        invariant Valid()
      {
        var (name, value) := pairs[i];
        var entry := EntryFor(form, name, value, nextId);
        if !form.Persistent? {
          nextId := nextId + 1;
        }
        Register(Named(name), entry);
        i := i + 1;
        PushPrefixValid(before, pairs, form, i);
      }
    }

    /** `on(hash)` */
    method OnHash(pairs: seq<(string, Option<L>)>) returns (r: EventEmitter<L>)
      requires Valid()
      modifies this
      ensures Valid()
      ensures State() == PushPrefix(old(State()), pairs, Persistent, |pairs|) && r == this
    {
      PushHash(pairs, Persistent);
      return this;
    }

    /** `once(hash)` as written: every wrapper remembers the hash object. */
    method OnceHash(pairs: seq<(string, Option<L>)>) returns (r: EventEmitter<L>)
      requires Valid()
      modifies this
      ensures Valid()
      ensures State() == PushPrefix(old(State()), pairs, OneTimeAsWritten, |pairs|) && r == this
    {
      PushHash(pairs, OneTimeAsWritten);
      return this;
    }

    /** `once(hash)` corrected: every wrapper remembers its own property name. */
    method OnceHashFixed(pairs: seq<(string, Option<L>)>) returns (r: EventEmitter<L>)
      requires Valid()
      modifies this
      ensures Valid()
      ensures State() == PushPrefix(old(State()), pairs, OneTimeFixed, |pairs|) && r == this
    {
      PushHash(pairs, OneTimeFixed);
      return this;
    }

    /** `off(eventName, listener)`, the listener argument being a value as
        it would be stored (`Plain(None)` is `undefined`). */
    method Off(t: Target, listener: Entry<L>) returns (r: EventEmitter<L>)
      requires Valid()
      modifies this
      ensures Valid()
      ensures State() == LegacySpec.Off(old(State()), t, listener) && r == this
    {
      OffValid(State(), t, listener);
      if t.Undefined? {
        lists := map[];
      } else if listener == Plain(None) {
        var list := Listeners(t);
        lists := lists[KeyOf(t) := []];
      } else {
        lists := Splice(lists, KeyOf(t), listener);
      }
      return this;
    }

    /** `emit(eventName, ...args)` as written: `forEach` over the live list. */
    method EmitAsWritten<A>(t: Target, args: seq<A>) returns (r: Result<EventEmitter<L>, Thrown>, calls: seq<Call<L, A>>)
      requires Valid()
      modifies this
      ensures Valid()
      ensures lists == EmitLive(old(State()), t).lists && nextId == old(nextId)
      ensures calls == Deliver(EmitLive(old(State()), t).invoked, args)
      ensures r == if EmitLive(old(State()), t).failed then Failure(TypeError) else Success(this)
    {
      EmitValid(State(), t);
      var key := KeyOf(t);
      var list := Listeners(t);
      var walk := ForEachLive(key, lists);
      lists := walk.lists;
      calls := Deliver(walk.invoked, args);
      r := if walk.failed then Failure(TypeError) else Success(this);
    }

    /** `emit(eventName, ...args)` corrected: `forEach` over a copy. */
    method Emit<A>(t: Target, args: seq<A>) returns (r: Result<EventEmitter<L>, Thrown>, calls: seq<Call<L, A>>)
      requires Valid()
      modifies this
      ensures Valid()
      ensures lists == EmitCopy(old(State()), t).lists && nextId == old(nextId)
      ensures calls == Deliver(EmitCopy(old(State()), t).invoked, args)
      ensures r == if EmitCopy(old(State()), t).failed then Failure(TypeError) else Success(this)
    {
      EmitValid(State(), t);
      var list := Listeners(t);
      var walk := ForEachCopy(list, lists);
      lists := walk.lists;
      calls := Deliver(walk.invoked, args);
      r := if walk.failed then Failure(TypeError) else Success(this);
    }
  }

  /** `listeners(key)`, `indexOf(value)` and `splice(index, 1)` on a
      dictionary held in a local. */
  method Splice<L(==)>(lists: map<string, seq<Entry<L>>>, key: string, value: Entry<L>) returns (r: map<string, seq<Entry<L>>>)
    ensures r == Unsubscribe(lists, key, value)
  {
    r := lists;
    if key !in r {
      r := r[key := []];
    }
    var list := r[key];
    var i := IndexOfElem(list, value);
    if i != -1 {
      r := r[key := list[..i] + list[i + 1..]];
    }
  }

  /** What a oneTimeListener's `off(eventName, oneTimeListener)` does to the
      walk's state. */
  method OffWrapper<L(==)>(c: Cursor<L>, key: string, w: Entry<L>) returns (d: Cursor<L>)
    requires w.OneTime?
    ensures d == Fire(c, key, w)
  {
    if w.target.Undefined? {
      return Cursor(map[], c.live, false);
    }
    var k := KeyOf(w.target);
    var lists := Splice(c.lists, k, w);
    if c.attached && k == key {
      return Cursor(lists, lists[key], true);
    }
    return Cursor(lists, c.live, c.attached);
  }

  /** `list.forEach(invoke)` over `lists[key]`: the range is the length on
      entry, an index past the current end is skipped, a wrapper's `off`
      acts on the same array. */
  method ForEachLive<L(==)>(key: string, lists: map<string, seq<Entry<L>>>) returns (walk: Walk<L>)
    requires key in lists
    ensures walk == RunLive(key, 0, |lists[key]|, Cursor(lists, lists[key], true))
  {
    var n := |lists[key]|;
    var c := Cursor(lists, lists[key], true);
    ghost var start := c;
    var invoked := [];
    var i := 0;
    while i < n
      invariant 0 <= i <= n
      invariant RunLive(key, 0, n, start) == After(invoked, RunLive(key, i, n, c))
    {
      if i < |c.live| {
        var w := c.live[i];
        if w.listener.None? {
          return Walk(c.lists, invoked, true);
        }
        var next := c;
        if w.OneTime? {
          next := OffWrapper(c, key, w);
        }
        RunLiveStep(key, i, n, c);
        AfterOneCall(invoked, w.listener.value, RunLive(key, i + 1, n, next));
        invoked := invoked + [w.listener.value];
        c := next;
      }
      i := i + 1;
    }
    return Walk(c.lists, invoked, false);
  }

  /** `forEach` over a copy of the list; wrappers' `off` acts on the
      dictionary only. */
  method ForEachCopy<L(==)>(copy: seq<Entry<L>>, lists: map<string, seq<Entry<L>>>) returns (walk: Walk<L>)
    ensures walk == RunCopy(copy, 0, lists)
  {
    var m := lists;
    var invoked := [];
    var i := 0;
    while i < |copy|
      invariant 0 <= i <= |copy|
      invariant RunCopy(copy, 0, lists) == After(invoked, RunCopy(copy, i, m))
    {
      var w := copy[i];
      if w.listener.None? {
        return Walk(m, invoked, true);
      }
      var next := m;
      if w.OneTime? {
        if w.target.Undefined? {
          next := map[];
        } else {
          next := Splice(m, KeyOf(w.target), w);
        }
      }
      RunCopyStep(copy, i, m);
      AfterOneCall(invoked, w.listener.value, RunCopy(copy, i + 1, next));
      invoked := invoked + [w.listener.value];
      m := next;
      i := i + 1;
    }
    return Walk(m, invoked, false);
  }
}
