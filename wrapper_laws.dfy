/** What a sequence of wrapper operations followed by an undo does to the
    target and its log. */
module WrapperLaws {
  import opened JsObjects
  import opened History
  import opened UndoLaws
  import opened Wrapper

  /** Writing each value of `vs` to the key `k`, one after the other, through
      the `set` trap. */
  function SetEach(own: Properties, proto: Properties, extensible: bool, log: Log, k: Key, vs: seq<Value>): Step
    decreases |vs|
  {
    if vs == [] then Step(true, own, log)
    else
      var s := SetTrap(own, proto, extensible, log, k, vs[0]);
      SetEach(s.props, proto, extensible, s.log, k, vs[1..])
  }

  /** A writable, configurable own data property. */
  predicate PlainData(d: Descriptor) {
    d.DataDescriptor? && d.writable && d.configurable
  }

  /** Overwrites of a present key are never logged, and they leave every other
      key and the key's own attributes alone. */
  lemma {:induction false} OverwritesAreNotLogged(own: Properties, proto: Properties, extensible: bool, log: Log, k: Key, vs: seq<Value>)
    requires k in own && PlainData(own[k])
    ensures SetEach(own, proto, extensible, log, k, vs).log == log
    ensures SetEach(own, proto, extensible, log, k, vs).props - {k} == own - {k}
    ensures k in SetEach(own, proto, extensible, log, k, vs).props
    ensures PlainData(SetEach(own, proto, extensible, log, k, vs).props[k])
    decreases |vs|
  {
    if vs != [] {
      var s := SetTrap(own, proto, extensible, log, k, vs[0]);
      OverwritesAreNotLogged(s.props, proto, extensible, s.log, k, vs[1..]);
    }
  }

  /** On an object that cannot be extended, writes to a missing key all fail
      and each of them logs an "add" row for that key. */
  lemma {:induction false} RefusedWritesAreLogged(own: Properties, proto: Properties, log: Log, k: Key, vs: seq<Value>)
    requires !HasProperty(own, proto, k)
    ensures SetEach(own, proto, false, log, k, vs).props == own
    ensures |SetEach(own, proto, false, log, k, vs).log| == |log| + |vs|
    ensures SetEach(own, proto, false, log, k, vs).log[..|log|] == log
    ensures forall i :: |log| <= i < |SetEach(own, proto, false, log, k, vs).log| ==>
              SetEach(own, proto, false, log, k, vs).log[i].AddRow? &&
              SetEach(own, proto, false, log, k, vs).log[i].propertyKey == k
    decreases |vs|
  {
    if vs != [] {
      var s := SetTrap(own, proto, false, log, k, vs[0]);
      RefusedWritesAreLogged(s.props, proto, s.log, k, vs[1..]);
      var e := SetEach(s.props, proto, false, s.log, k, vs[1..]).log;
      assert e[..|log|] == s.log[..|log|];
    }
  }

  /** Add/undo round trip: writing a key that is neither own nor inherited,
      possibly overwriting it afterwards, and undoing once removes the key
      again, so the own properties are exactly as before. When the first write
      succeeded the log is back to what it was as well; when it was refused
      each write logged a row and the undo pops only the last. */
  lemma AddUndoRoundTrip(own: Properties, proto: Properties, extensible: bool, log: Log, k: Key, v: Value, vs: seq<Value>)
    requires !HasProperty(own, proto, k)
    ensures var first := SetTrap(own, proto, extensible, log, k, v);
            var later := SetEach(first.props, proto, extensible, first.log, k, vs);
            var u := Replay(later.props, extensible, later.log, 1);
            u.props == own && u.completion == Normal && (first.ok ==> u.log == log)
  {
    var first := SetTrap(own, proto, extensible, log, k, v);
    var later := SetEach(first.props, proto, extensible, first.log, k, vs);
    if extensible {
      OverwritesAreNotLogged(first.props, proto, extensible, first.log, k, vs);
      assert later.props - {k} == own;
      UndoOneRow(later.props, extensible, log, AddRow(k, v));
    } else {
      RefusedWritesAreLogged(own, proto, first.log, k, vs);
      var last := later.log[|later.log| - 1];
      UndoOneRow(own, extensible, later.log[..|later.log| - 1], last);
      assert later.log[..|later.log| - 1] + [last] == later.log;
    }
  }

  /** Writing a key that is already present is not logged, so a later undo of
      rows about other keys keeps the new value. */
  lemma OverwriteSurvivesUndo(own: Properties, proto: Properties, extensible: bool, log: Log, k: Key, v: Value, n: nat)
    requires k in own && own[k].DataDescriptor? && own[k].writable
    requires forall i :: 0 <= i < |log| ==> log[i].propertyKey != k
    ensures SetTrap(own, proto, extensible, log, k, v).log == log
    ensures var s := SetTrap(own, proto, extensible, log, k, v);
            k in Replay(s.props, extensible, s.log, n).props &&
            Replay(s.props, extensible, s.log, n).props[k] == own[k].(value := v)
  {
    var s := SetTrap(own, proto, extensible, log, k, v);
    ReplayLeavesOtherKeys(s.props, extensible, s.log, n, k);
  }

  /** On an extensible object, writing a key that is only inherited, from a
      writable data property, creates an own property that shadows it. The key is not new to
      `Reflect.has`, so nothing is logged, and no undo of the existing rows
      removes the shadowing property. */
  lemma InheritedWriteIsNotUndone(own: Properties, proto: Properties, log: Log, k: Key, v: Value, n: nat)
    requires k !in own && k in proto && proto[k].DataDescriptor? && proto[k].writable
    requires forall i :: 0 <= i < |log| ==> log[i].propertyKey != k
    ensures SetTrap(own, proto, true, log, k, v) == Step(true, own[k := FreshData(v)], log)
    ensures var s := SetTrap(own, proto, true, log, k, v);
            k in Replay(s.props, true, s.log, n).props &&
            Replay(s.props, true, s.log, n).props[k] == FreshData(v)
  {
    var s := SetTrap(own, proto, true, log, k, v);
    ReplayLeavesOtherKeys(s.props, true, s.log, n, k);
  }

  /** Remove/undo round trip: deleting a configurable own property of an
      extensible object and undoing once restores that exact descriptor and
      the log. */
  lemma RemoveUndoRoundTrip(own: Properties, proto: Properties, extensible: bool, log: Log, k: Key)
    requires k in own && own[k].configurable && extensible
    ensures DeleteTrap(own, proto, log, k).ok
    ensures var d := DeleteTrap(own, proto, log, k);
            Replay(d.props, extensible, d.log, 1) == Undone(own, log, Normal)
  {
    DeleteThenDefineRestores(own, extensible, k);
  }

  /** On an object that cannot be extended, a delete succeeds but its undo
      throws: the key cannot be defined again, and the row is gone. */
  lemma RemoveUndoThrowsWhenNotExtensible(own: Properties, proto: Properties, log: Log, k: Key)
    requires k in own && own[k].configurable
    ensures DeleteTrap(own, proto, log, k).ok
    ensures var d := DeleteTrap(own, proto, log, k);
            Replay(d.props, false, d.log, 1) == Undone(own - {k}, log, Throw(TypeError))
  {
  }

  /** Deleting a key that is only inherited succeeds without any change to
      the own properties and logs a "remove" row with no descriptor; undoing
      it, with any positive count, pops that row and throws. */
  lemma InheritedDeleteUndoThrows(own: Properties, proto: Properties, extensible: bool, log: Log, k: Key, n: nat)
    requires k !in own && k in proto && n > 0
    ensures DeleteTrap(own, proto, log, k) == Step(true, own, log + [RemoveRow(k, None)])
    ensures Replay(own, extensible, log + [RemoveRow(k, None)], n) == Undone(own, log, Throw(TypeError))
  {
  }

  /** LIFO order: after add(a), add(b) and remove(c) of a pre-existing c,
      undoing two rows restores c and removes b, and leaves a in place
      together with the log as it was after add(a). */
  lemma UndoTwoOfThree(own: Properties, proto: Properties, log: Log, a: Key, va: Value, b: Key, vb: Value, c: Key)
    requires a != b && b != c && a != c
    requires !HasProperty(own, proto, a) && !HasProperty(own, proto, b)
    requires c in own && own[c].configurable
    ensures var s1 := SetTrap(own, proto, true, log, a, va);
            var s2 := SetTrap(s1.props, proto, true, s1.log, b, vb);
            var s3 := DeleteTrap(s2.props, proto, s2.log, c);
            var u := Replay(s3.props, true, s3.log, 2);
            u == Undone(s1.props, s1.log, Normal) &&
            a in u.props && u.props[a] == FreshData(va) && b !in u.props && c in u.props && u.props[c] == own[c]
  {
  }

  /** Two wrappers over one object share its log: a write through one is
      undone through the other, leaving the object and its log as they were. */
  method TwoWrappersShareOneLog(t: Target, store: HistoryStore, k: Key, v: Value)
    requires !HasProperty(t.props, t.proto, k)
    modifies t, store
    ensures t.props == old(t.props)
    ensures LogOf(store.logs, t) == LogOf(old(store.logs), t)
    ensures forall u :: u in old(store.logs) && u != t ==> u in store.logs && store.logs[u] == old(store.logs)[u]
  {
    var first := new HistoryObject(t, store);
    var second := new HistoryObject(t, store);
    var written := first.Set(k, v);
    var undone := second.Undo(Default);
    AddUndoRoundTrip(old(t.props), t.proto, t.extensible, old(LogOf(store.logs, t)), k, v, []);
    UndoOneRow(t.props, t.extensible, old(LogOf(store.logs, t)), AddRow(k, v));
  }
}
