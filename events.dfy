/** The event channel every reactive object of the framework is built on: an
    `EventTarget` is an ordered list of listener registrations, and a
    synchronous dispatch calls, in registration order, every listener
    registered for the event's name, dropping the `once` listeners. */
module Events {
  import opened JsValues

  /** The private arrow fields (`#init`, `#handler`, `#update`, `#render`,
      and the anonymous listeners) that the framework registers. Each is
      identified by the object that owns it and the role it plays there. */
  datatype Role =
    | ComputedUpdate
    | LazyInit
    | ShadowInit
    | DownInit
    | DownHandler
    | UpInit
    | UpListener
    | TwoWayRelay
    | TextInit
    | TextHandler
    | CondInit
    | CondHandler
    | ListInit
    | ListRender

  /** A listener: one of the framework's own closures, or a callback supplied
      by code outside the framework. Two callbacks are the same listener
      exactly when they are equal, as with function identity in JavaScript. */
  datatype Callback = Bound(owner: object, role: Role) | External(id: nat)

  /** One `addEventListener(event, callback, { once })` registration. */
  datatype Registration = Registration(event: string, callback: Callback, once: bool)

  /** A dispatched event: its name and its `detail` payload. */
  datatype Event = Event(name: string, detail: Value)

  predicate Registered(ls: seq<Registration>, name: string, cb: Callback) {
    exists i :: 0 <= i < |ls| && ls[i].event == name && ls[i].callback == cb
  }

  /** The DOM keeps at most one registration per (event name, callback). */
  predicate Unique(ls: seq<Registration>) {
    forall i, j :: 0 <= i < j < |ls| && ls[i].event == ls[j].event ==> ls[i].callback != ls[j].callback
  }

  predicate Distinct<T(==)>(s: seq<T>) {
    forall i, j :: 0 <= i < j < |s| ==> s[i] != s[j]
  }

  /** `addEventListener(name, cb, { once })`: a callback already registered
      for the event is not registered a second time. */
  function Added(ls: seq<Registration>, name: string, cb: Callback, once: bool): (r: seq<Registration>)
    ensures Registered(r, name, cb)
  {
    if Registered(ls, name, cb) then ls
    else
      var r := ls + [Registration(name, cb, once)];
      assert r[|ls|] == Registration(name, cb, once);
      r
  }

  /** Registering keeps every earlier registration in place and appends at
      most the new one, and only when the callback was not yet registered
      for the event. */
  lemma AddedSpec(ls: seq<Registration>, name: string, cb: Callback, once: bool)
    ensures ls <= Added(ls, name, cb, once) && |Added(ls, name, cb, once)| <= |ls| + 1
    ensures forall i :: 0 <= i < |Added(ls, name, cb, once)| ==>
      (Added(ls, name, cb, once)[i] in ls || Added(ls, name, cb, once)[i] == Registration(name, cb, once))
    ensures Registered(ls, name, cb) <==> Added(ls, name, cb, once) == ls
    ensures forall k :: |ls| <= k < |Added(ls, name, cb, once)| ==> Added(ls, name, cb, once)[k] == Registration(name, cb, once)
  {
    var r := Added(ls, name, cb, once);
    if !Registered(ls, name, cb) {
      assert r[|ls|] == Registration(name, cb, once);
      assert |r| == |ls| + 1;
    }
  }

  /** `removeEventListener(name, cb)`. */
  function Removed(ls: seq<Registration>, name: string, cb: Callback): (r: seq<Registration>)
    ensures !Registered(r, name, cb)
    ensures forall i :: 0 <= i < |r| ==> r[i] in ls
    ensures forall i :: 0 <= i < |ls| && !(ls[i].event == name && ls[i].callback == cb) ==> ls[i] in r
    ensures |r| <= |ls|
  {
    if ls == [] then []
    else
      var rest := Removed(ls[1..], name, cb);
      if ls[0].event == name && ls[0].callback == cb then rest else [ls[0]] + rest
  }

  /** The callbacks a dispatch of `name` calls, in registration order. */
  function Invoked(ls: seq<Registration>, name: string): (r: seq<Callback>)
    ensures forall i :: 0 <= i < |r| ==> Registered(ls, name, r[i])
    ensures forall i :: 0 <= i < |ls| && ls[i].event == name ==> ls[i].callback in r
    ensures |r| <= |ls|
  {
    if ls == [] then []
    else
      var rest := Invoked(ls[1..], name);
      assert forall i :: 0 <= i < |ls| - 1 ==> ls[1..][i] == ls[i + 1];
      if ls[0].event == name then [ls[0].callback] + rest else rest
  }

  /** The listener list after a dispatch of `name`: the `once` listeners of
      that event are gone, every other registration stays. */
  function Dispatched(ls: seq<Registration>, name: string): (r: seq<Registration>)
    ensures forall i :: 0 <= i < |r| ==> r[i] in ls && !(r[i].event == name && r[i].once)
    ensures forall i :: 0 <= i < |ls| && !(ls[i].event == name && ls[i].once) ==> ls[i] in r
    ensures |r| <= |ls|
  {
    if ls == [] then []
    else
      var rest := Dispatched(ls[1..], name);
      if ls[0].event == name && ls[0].once then rest else [ls[0]] + rest
  }

  lemma RegisteredIn(ls: seq<Registration>, x: Registration)
    requires x in ls
    ensures Registered(ls, x.event, x.callback)
  {
    var i :| 0 <= i < |ls| && ls[i] == x;
  }

  /** Listeners run in registration order: a registration appended to the
      list is called after every earlier one. */
  lemma {:induction false} InvokedAppend(ls: seq<Registration>, x: Registration, name: string)
    ensures Invoked(ls + [x], name) == Invoked(ls, name) + (if x.event == name then [x.callback] else [])
  {
    if ls == [] {
      assert [x][1..] == [];
    } else {
      assert (ls + [x])[1..] == ls[1..] + [x];
      InvokedAppend(ls[1..], x, name);
    }
  }

  /** A dispatch only touches the listeners of its own event. */
  lemma {:induction false} DispatchedOtherEvent(ls: seq<Registration>, name: string, other: string)
    requires other != name
    ensures Invoked(Dispatched(ls, name), other) == Invoked(ls, other)
  {
    if ls != [] {
      DispatchedOtherEvent(ls[1..], name, other);
      var rest := Dispatched(ls[1..], name);
      if !(ls[0].event == name && ls[0].once) {
        assert ([ls[0]] + rest)[1..] == rest;
      }
    }
  }

  lemma {:induction false} RemovedUnique(ls: seq<Registration>, name: string, cb: Callback)
    requires Unique(ls)
    ensures Unique(Removed(ls, name, cb))
  {
    if ls != [] {
      assert Unique(ls[1..]) by {
        forall i, j | 0 <= i < j < |ls[1..]| && ls[1..][i].event == ls[1..][j].event
          ensures ls[1..][i].callback != ls[1..][j].callback
        {
          assert ls[1..][i] == ls[i + 1] && ls[1..][j] == ls[j + 1];
        }
      }
      RemovedUnique(ls[1..], name, cb);
      var rest := Removed(ls[1..], name, cb);
      if !(ls[0].event == name && ls[0].callback == cb) {
        HeadUnique(ls, rest);
      }
    }
  }

  lemma {:induction false} DispatchedUnique(ls: seq<Registration>, name: string)
    requires Unique(ls)
    ensures Unique(Dispatched(ls, name))
  {
    if ls != [] {
      assert Unique(ls[1..]) by {
        forall i, j | 0 <= i < j < |ls[1..]| && ls[1..][i].event == ls[1..][j].event
          ensures ls[1..][i].callback != ls[1..][j].callback
        {
          assert ls[1..][i] == ls[i + 1] && ls[1..][j] == ls[j + 1];
        }
      }
      DispatchedUnique(ls[1..], name);
      var rest := Dispatched(ls[1..], name);
      if !(ls[0].event == name && ls[0].once) {
        HeadUnique(ls, rest);
      }
    }
  }

  /** Putting the head of a unique list in front of a unique list drawn from
      its tail keeps it unique. */
  lemma HeadUnique(ls: seq<Registration>, rest: seq<Registration>)
    requires ls != [] && Unique(ls) && Unique(rest)
    requires forall x :: x in rest ==> x in ls[1..]
    ensures Unique([ls[0]] + rest)
  {
    var r := [ls[0]] + rest;
    forall i, j | 0 <= i < j < |r| && r[i].event == r[j].event
      ensures r[i].callback != r[j].callback
    {
      if i == 0 {
        assert r[j] == rest[j - 1];
        assert rest[j - 1] in ls[1..];
        var k :| 0 <= k < |ls[1..]| && ls[1..][k] == rest[j - 1];
        assert ls[k + 1] == r[j];
      } else {
        assert r[i] == rest[i - 1] && r[j] == rest[j - 1];
      }
    }
  }

  lemma AddedUnique(ls: seq<Registration>, name: string, cb: Callback, once: bool)
    requires Unique(ls)
    ensures Unique(Added(ls, name, cb, once))
  {
    var r := Added(ls, name, cb, once);
    if !Registered(ls, name, cb) {
      forall i, j | 0 <= i < j < |r| && r[i].event == r[j].event
        ensures r[i].callback != r[j].callback
      {
        if j == |ls| {
          assert r[j] == Registration(name, cb, once);
          assert r[i] == ls[i];
        } else {
          assert r[i] == ls[i] && r[j] == ls[j];
        }
      }
    }
  }

  /** In a list without repeated registrations, a dispatch calls each
      listener once. */
  lemma {:induction false} InvokedDistinct(ls: seq<Registration>, name: string)
    requires Unique(ls)
    ensures Distinct(Invoked(ls, name))
  {
    if ls != [] {
      assert Unique(ls[1..]) by {
        forall i, j | 0 <= i < j < |ls[1..]| && ls[1..][i].event == ls[1..][j].event
          ensures ls[1..][i].callback != ls[1..][j].callback
        {
          assert ls[1..][i] == ls[i + 1] && ls[1..][j] == ls[j + 1];
        }
      }
      InvokedDistinct(ls[1..], name);
      var rest := Invoked(ls[1..], name);
      if ls[0].event == name {
        var r := [ls[0].callback] + rest;
        forall i, j | 0 <= i < j < |r| ensures r[i] != r[j] {
          if i == 0 {
            assert r[j] == rest[j - 1] && rest[j - 1] in rest;
            var k :| 0 <= k < |ls[1..]| && ls[1..][k].event == name && ls[1..][k].callback == rest[j - 1];
            assert ls[k + 1] == ls[1..][k];
          } else {
            assert r[i] == rest[i - 1] && r[j] == rest[j - 1];
          }
        }
      }
    }
  }

  /** A `once` listener is called by the next dispatch of its event and is
      never called again. */
  lemma OnceListenerRunsOnce(ls: seq<Registration>, name: string, cb: Callback)
    requires Unique(ls) && Registration(name, cb, true) in ls
    ensures cb in Invoked(ls, name)
    ensures !Registered(Dispatched(ls, name), name, cb)
  {
    RegisteredIn(ls, Registration(name, cb, true));
    var r := Dispatched(ls, name);
    if Registered(r, name, cb) {
      assert false;
    }
  }

  /** A listener registered without `once` is called by every dispatch of its
      event and stays registered. */
  lemma ListenerPersists(ls: seq<Registration>, name: string, cb: Callback)
    requires Registration(name, cb, false) in ls
    ensures cb in Invoked(ls, name)
    ensures Registration(name, cb, false) in Dispatched(ls, name)
  {
    RegisteredIn(ls, Registration(name, cb, false));
  }

  /** A callback not yet registered for the event is registered with the
      given `once` flag. */
  lemma AddedFresh(ls: seq<Registration>, name: string, cb: Callback, once: bool)
    requires !Registered(ls, name, cb)
    ensures Registration(name, cb, once) in Added(ls, name, cb, once)
  {
    assert Added(ls, name, cb, once)[|ls|] == Registration(name, cb, once);
  }

  /** Registering a callback again, with or without `once`, changes nothing. */
  lemma AddedIdempotent(ls: seq<Registration>, name: string, cb: Callback, once: bool, again: bool)
    ensures Added(Added(ls, name, cb, once), name, cb, again) == Added(ls, name, cb, once)
  {
  }

  /** A step that leaves a target alone keeps it valid. */
  twostate lemma StillValid(t: EventTarget)
    requires old(t.Valid()) && unchanged(t)
    ensures t.Valid()
  {
  }

  /** An `EventTarget`: the listener list is the whole of its state. The ghost
      `history` records every event dispatched on it, in order. */
  class EventTarget {
    var listeners: seq<Registration>
    ghost var history: seq<Event>

    ghost predicate Valid()
      reads this
    {
      Unique(listeners)
    }

    constructor()
      ensures Valid() && listeners == [] && history == []
    {
      listeners := [];
      history := [];
    }

    method AddEventListener(name: string, cb: Callback, once: bool)
      requires Valid()
      modifies this
      ensures Valid()
      ensures listeners == Added(old(listeners), name, cb, once)
      ensures history == old(history)
    {
      AddedUnique(listeners, name, cb, once);
      listeners := Added(listeners, name, cb, once);
    }

    method RemoveEventListener(name: string, cb: Callback)
      requires Valid()
      modifies this
      ensures Valid()
      ensures listeners == Removed(old(listeners), name, cb)
      ensures history == old(history)
    {
      RemovedUnique(listeners, name, cb);
      listeners := Removed(listeners, name, cb);
    }

    /** `dispatchEvent(e)`: returns the listeners called, in order; the
        caller delivers `e` to each of them. */
    method DispatchEvent(e: Event) returns (invoked: seq<Callback>)
      requires Valid()
      modifies this
      ensures Valid()
      ensures invoked == Invoked(old(listeners), e.name) && Distinct(invoked)
      ensures listeners == Dispatched(old(listeners), e.name)
      ensures history == old(history) + [e]
    {
      InvokedDistinct(listeners, e.name);
      DispatchedUnique(listeners, e.name);
      invoked := Invoked(listeners, e.name);
      listeners := Dispatched(listeners, e.name);
      history := history + [e];
    }
  }
}
