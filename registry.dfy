/**
 * The listener registry of the event emitter: per event name, the ordered list
 * of `{callback, once}` records that `on`/`once` append and that `off`/`onceOff`
 * and `emit` splice. Callbacks are function identities, compared with
 * `===`. This module holds the value-level meaning of those list updates; the
 * class in module Studio performs them in place.
 */
module Registry {
  import opened Wrappers

  /** The identity of a JavaScript function object. */
  type CallbackId = nat

  /** A JavaScript argument value, as far as the emitter's argument checks look at it. */
  datatype Arg = Undefined | Null | Bool(b: bool) | Num(n: int) | Str(s: string) | Fn(id: CallbackId) | Obj

  /** The three `Error`s `on`, `off` and `emit` throw on bad arguments. */
  datatype ApiError = InvalidEventName | InvalidHandler | InvalidOnce

  /** The `once` field of a record: `undefined`, or the boolean the caller passed. */
  datatype Once = Unset | Flag(b: bool)

  datatype Registration = Registration(callback: CallbackId, once: Once)

  /** `typeof evt === 'string' && evt`. */
  predicate ValidName(evt: Arg) {
    evt.Str? && evt.s != ""
  }

  /** The argument checks of `on` and `off`, in the order the code makes them. */
  function CheckArgs(evt: Arg, fnc: Arg, once: Arg): (e: Option<ApiError>)
    ensures e.None? <==> ValidName(evt) && fnc.Fn? && (once.Undefined? || once.Bool?)
    ensures e == Some(InvalidEventName) <==> !ValidName(evt)
    ensures e == Some(InvalidHandler) <==> ValidName(evt) && !fnc.Fn?
    ensures e == Some(InvalidOnce) <==> ValidName(evt) && fnc.Fn? && !(once.Undefined? || once.Bool?)
  {
    if !ValidName(evt) then Some(InvalidEventName)
    else if !fnc.Fn? then Some(InvalidHandler)
    else if !(once.Undefined? || once.Bool?) then Some(InvalidOnce)
    else None
  }

  function OnceOf(once: Arg): Once
    requires once.Undefined? || once.Bool?
  {
    if once.Undefined? then Unset else Flag(once.b)
  }

  /** `if (handlers[i].once)`: of the stored values only `true` is truthy. */
  predicate FiresOnce(r: Registration) {
    r.once == Flag(true)
  }

  // ---------------------------------------------------------------------------
  // off: remove the first exact match

  /** The list with its first record equal to `x` (same callback, same `once`) taken out. */
  function RemoveFirst(s: seq<Registration>, x: Registration): seq<Registration> {
    if s == [] then []
    else if s[0] == x then s[1..]
    else [s[0]] + RemoveFirst(s[1..], x)
  }

  /** Removing splices out exactly the first match and keeps the others in order. */
  lemma {:induction false} RemoveFirstAt(s: seq<Registration>, x: Registration, i: nat)
    requires i < |s| && s[i] == x
    requires forall j :: 0 <= j < i ==> s[j] != x
    ensures RemoveFirst(s, x) == s[..i] + s[i + 1..]
    decreases i
  {
    if i > 0 {
      RemoveFirstAt(s[1..], x, i - 1);
      assert s[1..][..i - 1] == s[1..i];
      assert s[1..][i..] == s[i + 1..];
      assert [s[0]] + s[1..i] == s[..i];
    }
  }

  /** Removing a record that is not registered changes nothing. */
  lemma {:induction false} RemoveFirstAbsent(s: seq<Registration>, x: Registration)
    requires x !in s
    ensures RemoveFirst(s, x) == s
    decreases |s|
  {
    if s != [] {
      assert s[0] != x;
      RemoveFirstAbsent(s[1..], x);
      assert [s[0]] + s[1..] == s;
    }
  }

  /** At most one record goes: exactly one occurrence of `x` when there is one. */
  lemma {:induction false} RemoveFirstMultiset(s: seq<Registration>, x: Registration)
    ensures multiset(RemoveFirst(s, x)) == multiset(s) - multiset{x}
    ensures |RemoveFirst(s, x)| == if x in s then |s| - 1 else |s|
    decreases |s|
  {
    if s != [] {
      assert s == [s[0]] + s[1..];
      RemoveFirstMultiset(s[1..], x);
      if s[0] != x {
        assert x in s <==> x in s[1..];
      }
    }
  }

  // ---------------------------------------------------------------------------
  // emit: the records that stay after one emission

  /** The records of `s` that are not `once`, in their original order. */
  function Persistent(s: seq<Registration>): seq<Registration> {
    if s == [] then []
    else if FiresOnce(s[0]) then Persistent(s[1..])
    else [s[0]] + Persistent(s[1..])
  }

  /** Filtering distributes over concatenation, so the relative order is kept. */
  lemma {:induction false} PersistentAppend(a: seq<Registration>, b: seq<Registration>)
    ensures Persistent(a + b) == Persistent(a) + Persistent(b)
    decreases |a|
  {
    if a == [] {
      assert a + b == b;
    } else {
      assert (a + b)[0] == a[0];
      assert (a + b)[1..] == a[1..] + b;
      PersistentAppend(a[1..], b);
    }
  }

  /** Exactly the records that are not `once` survive an emission. */
  lemma {:induction false} PersistentMembers(s: seq<Registration>)
    ensures forall r :: r in Persistent(s) <==> r in s && !FiresOnce(r)
    ensures multiset(Persistent(s)) <= multiset(s)
    decreases |s|
  {
    if s != [] {
      PersistentMembers(s[1..]);
      assert s == [s[0]] + s[1..];
    }
  }

  /** A second emission with no registrations in between removes nothing more. */
  lemma {:induction false} PersistentIdempotent(s: seq<Registration>)
    ensures Persistent(Persistent(s)) == Persistent(s)
    decreases |s|
  {
    if s != [] {
      PersistentIdempotent(s[1..]);
      if !FiresOnce(s[0]) {
        assert ([s[0]] + Persistent(s[1..]))[1..] == Persistent(s[1..]);
      }
    }
  }

  /** A list of `once` records is used up by one emission. */
  lemma {:induction false} PersistentOfOnce(s: seq<Registration>)
    requires forall r :: r in s ==> FiresOnce(r)
    ensures Persistent(s) == []
    decreases |s|
  {
    if s != [] {
      assert s[0] in s;
      assert forall r :: r in s[1..] ==> r in s;
      PersistentOfOnce(s[1..]);
    }
  }

  // ---------------------------------------------------------------------------
  // The dictionary of lists

  type Handlers = map<string, seq<Registration>>

  /** The list registered for `e`, empty when the dictionary has no key `e`. */
  function ListOf(h: Handlers, e: string): seq<Registration> {
    if e in h then h[e] else []
  }

  /** A list is deleted as soon as it becomes empty. */
  predicate NoEmptyLists(h: Handlers) {
    forall e :: e in h ==> h[e] != []
  }

  /** Every record registered for `ready` is a `once` record. */
  predicate ReadyListOnce(h: Handlers) {
    forall r :: r in ListOf(h, "ready") ==> FiresOnce(r)
  }

  /** What `on` does to the dictionary: one record appended to one list. */
  function WithAdded(h: Handlers, e: string, r: Registration): Handlers {
    h[e := ListOf(h, e) + [r]]
  }

  /** What `off` does to the dictionary. */
  function WithRemoved(h: Handlers, e: string, r: Registration): Handlers {
    if e in h && h[e] != [] then
      var l := RemoveFirst(h[e], r);
      if l == [] then h - {e} else h[e := l]
    else h - {e}
  }

  /** What `emit` does to the dictionary. */
  function AfterEmit(h: Handlers, e: string): Handlers {
    if e in h && h[e] != [] then
      var l := Persistent(h[e]);
      if l == [] then h - {e} else h[e := l]
    else h - {e}
  }

  /** `on` leaves other events alone and puts the record last in the list of `e`. */
  lemma WithAddedLists(h: Handlers, e: string, r: Registration)
    ensures forall e' :: e' != e ==> ListOf(WithAdded(h, e, r), e') == ListOf(h, e')
    ensures ListOf(WithAdded(h, e, r), e) == ListOf(h, e) + [r]
    ensures NoEmptyLists(h) ==> NoEmptyLists(WithAdded(h, e, r))
  {
  }

  /** `off` leaves other events alone and removes one matching record of `e`. */
  lemma WithRemovedLists(h: Handlers, e: string, r: Registration)
    ensures forall e' :: e' != e ==> ListOf(WithRemoved(h, e, r), e') == ListOf(h, e')
    ensures ListOf(WithRemoved(h, e, r), e) == RemoveFirst(ListOf(h, e), r)
    ensures NoEmptyLists(h) ==> NoEmptyLists(WithRemoved(h, e, r))
    ensures multiset(ListOf(WithRemoved(h, e, r), e)) <= multiset(ListOf(h, e))
  {
    RemoveFirstMultiset(ListOf(h, e), r);
  }

  /** `emit` leaves other events alone and keeps the non-`once` records of `e`. */
  lemma AfterEmitLists(h: Handlers, e: string)
    ensures forall e' :: e' != e ==> ListOf(AfterEmit(h, e), e') == ListOf(h, e')
    ensures ListOf(AfterEmit(h, e), e) == Persistent(ListOf(h, e))
    ensures NoEmptyLists(h) ==> NoEmptyLists(AfterEmit(h, e))
    ensures AfterEmit(h, e).Keys <= h.Keys
  {
  }

  /** `off` undoes `on`: removing the record just added restores the dictionary. */
  lemma OffUndoesOn(h: Handlers, e: string, r: Registration)
    requires NoEmptyLists(h)
    requires r !in ListOf(h, e)
    ensures WithRemoved(WithAdded(h, e, r), e, r) == h
  {
    var l := ListOf(h, e);
    RemoveFirstAt(l + [r], r, |l|);
    assert (l + [r])[..|l|] == l;
    assert (l + [r])[|l| + 1..] == [];
    assert RemoveFirst(l + [r], r) == l;
    if l == [] {
      assert e !in h;
      assert WithRemoved(WithAdded(h, e, r), e, r) == h[e := [r]] - {e};
      assert h[e := [r]] - {e} == h;
    } else {
      assert WithRemoved(WithAdded(h, e, r), e, r) == h[e := l];
    }
  }

  /** `off` for an event without registrations changes nothing. */
  lemma OffAbsentEvent(h: Handlers, e: string, r: Registration)
    requires e !in h
    ensures WithRemoved(h, e, r) == h
  {
  }

  /** `off` for a record that is not registered changes nothing. */
  lemma OffUnregistered(h: Handlers, e: string, r: Registration)
    requires NoEmptyLists(h)
    requires r !in ListOf(h, e)
    ensures WithRemoved(h, e, r) == h
  {
    if e in h {
      RemoveFirstAbsent(h[e], r);
    }
  }

  /** Emitting `ready` clears its list; so no later `ready` emission calls those records again. */
  lemma AfterEmitReady(h: Handlers)
    requires ReadyListOnce(h)
    ensures "ready" !in AfterEmit(h, "ready")
  {
    if "ready" in h {
      PersistentOfOnce(h["ready"]);
    }
  }
}
