/** `createHistoryObject` and the wrapper it returns. The Proxy's `get`, `set`
    and `deleteProperty` traps become explicit methods of `HistoryObject`;
    every other operation on the wrapper reaches the target unchanged and is
    not modelled here. */
module Wrapper {
  import opened JsObjects
  import opened History

  /** The reserved key whose read yields the undo operation. */
  const UndoKey: Key := StringKey("_undo")

  /** What the `get` trap returns: the undo operation for the reserved key, or
      the target's own read of any other key. */
  datatype ReadResult = UndoFunction | Passthrough(lookup: Lookup)

  /** An own property that the Proxy's `get` invariant holds the trap to: a
      non-configurable, non-writable data property must be reported with its
      own value, and a non-configurable accessor without a getter as
      `undefined`. The undo function is a fresh closure, so it matches
      neither. */
  predicate PinsReadResult(d: Descriptor) {
    !d.configurable &&
    ((d.DataDescriptor? && !d.writable) || (d.AccessorDescriptor? && d.getter.None?))
  }

  /** The outcome of a mutating trap on one target: its boolean result, the
      target's own properties and its log afterwards. */
  datatype Step = Step(ok: bool, props: Properties, log: Log)

  /** The `set` trap: log an "add" row when the key is neither own nor
      inherited, then write with `Reflect.set`. The row goes in before the
      write, so it is logged even when the write fails. */
  function SetTrap(own: Properties, proto: Properties, extensible: bool, log: Log, k: Key, v: Value): (r: Step)
    ensures Update(r.ok, r.props) == OrdinarySet(own, proto, extensible, k, v)
    ensures |log| <= |r.log| <= |log| + 1 && r.log[..|log|] == log
    ensures |r.log| == |log| + 1 <==> !HasProperty(own, proto, k)
    ensures |r.log| == |log| + 1 ==> r.log[|log|] == AddRow(k, v)
    ensures !HasProperty(own, proto, k) && !extensible ==> !r.ok && r.props == own && |r.log| == |log| + 1
  {
    var log' := if HasProperty(own, proto, k) then log else log + [AddRow(k, v)];
    var written := OrdinarySet(own, proto, extensible, k, v);
    Step(written.ok, written.props, log')
  }

  /** The `deleteProperty` trap: a key that is neither own nor inherited is
      refused with no effect; otherwise the own descriptor (if any) is captured,
      the key is deleted, and a "remove" row with the captured descriptor is
      logged only when the delete succeeded. */
  function DeleteTrap(own: Properties, proto: Properties, log: Log, k: Key): (r: Step)
    ensures !HasProperty(own, proto, k) ==> r == Step(false, own, log)
    ensures HasProperty(own, proto, k) ==> Update(r.ok, r.props) == OrdinaryDelete(own, k)
    ensures r.ok ==> r.log == log + [RemoveRow(k, if k in own then Some(own[k]) else None)]
    ensures !r.ok ==> r.log == log && r.props == own
    ensures k in own && !own[k].configurable ==> r == Step(false, own, log)
  {
    if !HasProperty(own, proto, k) then Step(false, own, log)
    else
      var descriptor := if k in own then Some(own[k]) else None;
      var deleted := OrdinaryDelete(own, k);
      Step(deleted.ok, deleted.props, if deleted.ok then log + [RemoveRow(k, descriptor)] else log)
  }

  /** The proxy returned by `createHistoryObject`: a target object and the
      shared history store. */
  class HistoryObject {
    const target: Target
    const store: HistoryStore

    constructor (target: Target, store: HistoryStore)
      ensures this.target == target && this.store == store
    {
      this.target := target;
      this.store := store;
    }

    /** The `get` trap. Reading `_undo` yields the undo operation even when the
        target has a `_undo` property of its own, unless that property pins the
        value a read may report, in which case the Proxy rejects the trap's
        result with a TypeError. Any other key is the target's own read.
        Nothing is modified. */
    method Get(k: Key) returns (r: Result<ReadResult>)
      ensures k == UndoKey && !(k in target.props && PinsReadResult(target.props[k])) ==> r == Ok(UndoFunction)
      ensures k == UndoKey && k in target.props && PinsReadResult(target.props[k]) ==> r == Err(TypeError)
      ensures k != UndoKey ==> r == Ok(Passthrough(JsObjects.Get(target.props, target.proto, k)))
    {
      if k == UndoKey {
        if k in target.props && PinsReadResult(target.props[k]) {
          r := Err(TypeError);
        } else {
          r := Ok(UndoFunction);
        }
      } else {
        r := Ok(Passthrough(JsObjects.Get(target.props, target.proto, k)));
      }
    }

    /** The `set` trap, as `SetTrap` describes; other targets' logs are
        untouched. */
    method Set(k: Key, v: Value) returns (ok: bool)
      modifies target, store
      ensures var s := SetTrap(old(target.props), target.proto, target.extensible, old(LogOf(store.logs, target)), k, v);
              ok == s.ok && target.props == s.props && store.logs == Commit(old(store.logs), target, s.log)
    {
      if !HasProperty(target.props, target.proto, k) {
        store.Push(target, AddRow(k, v));
      }
      var written := OrdinarySet(target.props, target.proto, target.extensible, k, v);
      target.props := written.props;
      ok := written.ok;
    }

    /** The `deleteProperty` trap, as `DeleteTrap` describes; other targets'
        logs are untouched. */
    method DeleteProperty(k: Key) returns (deleted: bool)
      modifies target, store
      ensures var s := DeleteTrap(old(target.props), target.proto, old(LogOf(store.logs, target)), k);
              deleted == s.ok && target.props == s.props && store.logs == Commit(old(store.logs), target, s.log)
    {
      if !HasProperty(target.props, target.proto, k) {
        return false;
      }
      var descriptor := if k in target.props then Some(target.props[k]) else None;
      var outcome := OrdinaryDelete(target.props, k);
      target.props := outcome.props;
      deleted := outcome.ok;
      if deleted {
        store.Push(target, RemoveRow(k, descriptor));
      }
    }

    /** Calling the function that `Get(UndoKey)` yields: `redoHistory` on this
        wrapper's target. */
    method Undo(count: CountArg) returns (c: Completion)
      modifies target, store
      ensures var log := LogOf(old(store.logs), target);
              var r := Replay(old(target.props), target.extensible, log, Iterations(count, |log|));
              c == r.completion && target.props == r.props && store.logs == Commit(old(store.logs), target, r.log)
    {
      c := RedoHistory(store, target, count);
    }
  }

  /** `createHistoryObject(value)`: only a non-null object (`typeof` "object")
      can be wrapped; `null`, primitives and functions raise a TypeError. */
  method CreateHistoryObject(value: Value, store: HistoryStore) returns (r: Result<HistoryObject>)
    ensures r.Ok? <==> value.ObjectValue?
    ensures r.Ok? ==> r.value.target == value.obj && r.value.store == store
    ensures r.Err? ==> r.error == TypeError
  {
    if !value.ObjectValue? {
      return Err(TypeError);
    }
    var wrapper := new HistoryObject(value.obj, store);
    return Ok(wrapper);
  }
}
