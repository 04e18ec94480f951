/** The history store (`HISTORY`, one log of rows per tracked object),
    appending a row (`pushHistoryRow`) and undoing the newest rows
    (`redoHistory`, which despite its name reverts). */
module History {
  import opened JsObjects

  /** One history row `{propertyKey, type, value}`. An "add" row keeps the
      written value, which undo never looks at; a "remove" row keeps what
      `Reflect.getOwnPropertyDescriptor` returned, `None` standing for the
      `undefined` of a key that was only inherited. */
  datatype Row =
    | AddRow(propertyKey: Key, written: Value)
    | RemoveRow(propertyKey: Key, descriptor: Option<Descriptor>)

  type Log = seq<Row>

  /** The store: a map from tracked object (by identity) to its log. */
  type Logs = map<Target, Log>

  /** `HISTORY.get(target) || []`. */
  function LogOf(logs: Logs, t: Target): Log {
    if t in logs then logs[t] else []
  }

  /** The store after `t`'s log has become `log`, other targets untouched and no
      entry created for a target whose log stays empty. */
  function Commit(logs: Logs, t: Target, log: Log): (r: Logs)
    ensures LogOf(r, t) == log
    ensures r.Keys == if log == [] then logs.Keys else logs.Keys + {t}
    ensures forall u :: u in logs && u != t ==> u in r && r[u] == logs[u]
    ensures forall u :: u in r && u != t ==> u in logs
  {
    if t !in logs && log == [] then logs else logs[t := log]
  }

  /** The module-level `HISTORY` map. Being keyed by the object itself, every
      wrapper over one object shares that object's log. */
  class HistoryStore {
    var logs: Logs

    constructor ()
      ensures logs == map[]
    {
      logs := map[];
    }

    /** `pushHistoryRow`: append one row to the tail of `target`'s log,
        creating a one-row log when `target` has none yet. */
    method Push(target: Target, row: Row)
      modifies this
      ensures target in logs && logs[target] == LogOf(old(logs), target) + [row]
      ensures logs == Commit(old(logs), target, LogOf(old(logs), target) + [row])
      ensures forall u :: u in old(logs) && u != target ==> u in logs && logs[u] == old(logs)[u]
    {
      if target in logs {
        logs := logs[target := logs[target] + [row]];
      } else {
        logs := logs[target := [row]];
      }
    }
  }

  // ---------------------------------------------------------------------
  // Reverting rows

  /** Whether an undo step finished normally or threw. */
  datatype Completion = Normal | Throw(error: ErrorKind)

  /** The effect of reverting one row on the target's own properties. An "add"
      row is reverted by the sloppy-mode `delete target[k]`, whose failure on a
      non-configurable property is silently ignored. A "remove" row is reverted
      by `Object.defineProperty(target, k, value ?? null)`, which throws a
      TypeError when there is no captured descriptor or the definition is
      refused; `ok` false stands for that throw. */
  function Revert(own: Properties, extensible: bool, row: Row): (r: Update)
    ensures !r.ok ==> r.props == own
    ensures row.AddRow? ==> r.ok
    ensures row.AddRow? ==>
              r.props == if row.propertyKey in own && !own[row.propertyKey].configurable then own
                         else own - {row.propertyKey}
    ensures row.RemoveRow? && r.ok ==>
              row.descriptor.Some? && r.props == own[row.propertyKey := row.descriptor.value]
    ensures row.RemoveRow? && row.descriptor.Some? &&
              (row.propertyKey in own ==> own[row.propertyKey].configurable) &&
              (row.propertyKey !in own ==> extensible)
            ==> r.ok
  {
    match row
    case AddRow(k, _) => Update(true, OrdinaryDelete(own, k).props)
    case RemoveRow(k, d) =>
      if d.Some? then DefineOwnProperty(own, extensible, k, d.value) else Update(false, own)
  }

  /** The state an undo leaves: own properties, the remaining log, and whether
      it threw. */
  datatype Undone = Undone(props: Properties, log: Log, completion: Completion)

  /** Undo of `n` rows: pop the newest row, revert it, and go on with the rest;
      stop after `n` rows, at an empty log, or at the first row whose revert
      throws (that row has already been popped). */
  function Replay(own: Properties, extensible: bool, log: Log, n: nat): (r: Undone)
    ensures |r.log| <= |log| && r.log == log[..|r.log|]
    ensures n > 0 && |log| > 0 ==> |r.log| < |log|
    decreases n
  {
    if n == 0 || |log| == 0 then Undone(own, log, Normal)
    else
      var r := Revert(own, extensible, log[|log| - 1]);
      if r.ok then Replay(r.props, extensible, log[..|log| - 1], n - 1)
      else Undone(own, log[..|log| - 1], Throw(TypeError))
  }

  function Min(a: int, b: int): int {
    if a <= b then a else b
  }

  // ---------------------------------------------------------------------
  // The undo count

  /** The `count` argument of `_undo`: omitted (the default 1 applies) or a
      number. */
  datatype CountArg = Default | Given(n: Number)

  /** A finite number that is a non-negative integer. */
  predicate IsNatural(x: real) {
    x >= 0.0 && x.Floor as real == x
  }

  /** JavaScript truthiness of a number. */
  predicate Truthy(n: Number)
    ensures Truthy(n) <==> n != Finite(0.0) && n != NaN
  {
    match n
    case Finite(x) => x != 0.0
    case PosInfinity => true
    case NegInfinity => true
    case NaN => false
  }

  /** The numeric `incr--`. */
  function Decrement(n: Number): (r: Number)
    ensures n.Finite? && IsNatural(n.x) && n.x != 0.0 ==> r.Finite? && IsNatural(r.x) && r.x.Floor == n.x.Floor - 1
    ensures n.Finite? && !IsNatural(n.x) ==> r.Finite? && !IsNatural(r.x) && r.x != 0.0
    ensures !n.Finite? ==> r == n
  {
    match n
    case Finite(x) => Finite(x - 1.0)
    case _ => n
  }

  /** The initial `incr`: the count, cut down to the log length when it is
      `Infinity` or larger than that length. */
  function InitialCounter(count: CountArg, len: nat): (r: Number)
    ensures r != PosInfinity
    ensures r.Finite? ==> r.x <= len as real
    ensures count.Default? ==> r == Finite(if len == 0 then 0.0 else 1.0)
    ensures count == Given(PosInfinity) ==> r == Finite(len as real)
    ensures count.Given? && count.n.Finite? && count.n.x > len as real ==> r == Finite(len as real)
    ensures count.Given? && count.n != PosInfinity && !(count.n.Finite? && count.n.x > len as real) ==> r == count.n
  {
    var c := if count.Default? then Finite(1.0) else count.n;
    match c
    case PosInfinity => Finite(len as real)
    case Finite(x) => if x > len as real then Finite(len as real) else c
    case _ => c
  }

  /** How many more passes the loop `while (log.length > 0 && incr--)` makes
      over a log of length `len`: a non-negative integer counts down to zero,
      NaN stops at once, and a value that never reaches zero (negative,
      fractional, an infinity) runs until the log is empty. */
  ghost function Remaining(incr: Number, len: nat): nat {
    match incr
    case Finite(x) => if IsNatural(x) then Min(x.Floor, len) else len
    case PosInfinity => len
    case NegInfinity => len
    case NaN => 0
  }

  /** The number of passes the loop of `_undo(count)` may make over a log of
      length `len`. Each pass pops one row, so this many rows are popped
      unless a restore throws first and ends the loop (see `Replay`). */
  ghost function Iterations(count: CountArg, len: nat): (n: nat)
    ensures n <= len
    ensures count == Default ==> n == Min(1, len)
    ensures count == Given(PosInfinity) ==> n == len
    ensures count.Given? && count.n.Finite? && IsNatural(count.n.x) ==> n == Min(count.n.x.Floor, len)
    ensures count.Given? && count.n.Finite? && !IsNatural(count.n.x) ==> n == len
    ensures count == Given(NegInfinity) ==> n == len
    ensures count == Given(NaN) ==> n == 0
  {
    var c := InitialCounter(count, len);
    assert c.Finite? && count.Given? && count.n.Finite? && count.n.x > len as real ==>
             IsNatural(c.x) && c.x.Floor == len;
    assert count.Default? && len == 0 ==> c == Finite(0.0) && 0.0.Floor == 0;
    Remaining(c, len)
  }

  /** One pass of the loop: a truthy counter over a non-empty log has a pass
      left, and the decremented counter has one pass fewer over the shorter
      log. */
  lemma RemainingStep(incr: Number, len: nat)
    requires len > 0 && Truthy(incr)
    ensures Remaining(incr, len) > 0
    ensures Remaining(Decrement(incr), len - 1) == Remaining(incr, len) - 1
  {
  }

  /** `redoHistory(target, count)`: pops rows from the tail of `target`'s log
      and reverts each, newest first, as `Replay` describes; at most
      `Iterations(count, length)` rows are popped, since a restore that throws
      stops the undo first. The result is `Throw(TypeError)`
      exactly when a reverted "remove" row throws. */
  method RedoHistory(store: HistoryStore, target: Target, count: CountArg) returns (c: Completion)
    modifies store, target
    ensures var log := LogOf(old(store.logs), target);
            var r := Replay(old(target.props), target.extensible, log, Iterations(count, |log|));
            c == r.completion && target.props == r.props && store.logs == Commit(old(store.logs), target, r.log)
  {
    var history := LogOf(store.logs, target);
    if |history| == 0 {
      return Normal;
    }
    ghost var goal := Replay(target.props, target.extensible, history, Iterations(count, |history|));
    var incr := InitialCounter(count, |history|);
    while |history| > 0 && Truthy(incr)
      invariant store.logs == old(store.logs)[target := history]
      invariant target in old(store.logs)
      invariant Replay(target.props, target.extensible, history, Remaining(incr, |history|)) == goal
      decreases |history|
    {
      RemainingStep(incr, |history|);
      incr := Decrement(incr);
      var row := history[|history| - 1];
      history := history[..|history| - 1];
      store.logs := store.logs[target := history];
      match row
      case AddRow(k, _) =>
        target.props := OrdinaryDelete(target.props, k).props;
      case RemoveRow(k, descriptor) =>
        if descriptor.None? {
          return Throw(TypeError);
        }
        var defined := DefineOwnProperty(target.props, target.extensible, k, descriptor.value);
        if !defined.ok {
          return Throw(TypeError);
        }
        target.props := defined.props;
    }
    assert Remaining(incr, |history|) == 0;
    return Normal;
  }
}

/** Properties of undo that relate several rows or several calls. */
module UndoLaws {
  import opened JsObjects
  import opened History

  /** Undo on an empty log changes nothing, whatever the count. */
  lemma UndoEmptyLogIsNoOp(own: Properties, extensible: bool, count: CountArg)
    ensures Iterations(count, 0) == 0
    ensures Replay(own, extensible, [], Iterations(count, 0)) == Undone(own, [], Normal)
  {
  }

  /** Undo only ever removes rows from the tail: the remaining log is a prefix
      of the old one. A normal completion removes exactly `min(n, |log|)` rows;
      a throw stops early but has popped the row that threw. */
  lemma {:induction false} ReplayTruncatesTail(own: Properties, extensible: bool, log: Log, n: nat)
    ensures |Replay(own, extensible, log, n).log| <= |log|
    ensures Replay(own, extensible, log, n).log == log[..|Replay(own, extensible, log, n).log|]
    ensures Replay(own, extensible, log, n).completion == Normal ==>
              |Replay(own, extensible, log, n).log| == |log| - Min(n, |log|)
    ensures Replay(own, extensible, log, n).completion != Normal ==>
              |log| - Min(n, |log|) <= |Replay(own, extensible, log, n).log| < |log|
    decreases n
  {
    if n > 0 && |log| > 0 {
      var rest := log[..|log| - 1];
      var r := Revert(own, extensible, log[|log| - 1]);
      if r.ok {
        ReplayTruncatesTail(r.props, extensible, rest, n - 1);
        var tail := Replay(r.props, extensible, rest, n - 1).log;
        assert rest[..|tail|] == log[..|tail|];
      }
    }
  }

  /** LIFO: undoing `m + n` rows at once is undoing `m` rows and then, unless
      that threw, `n` more. */
  lemma {:induction false} ReplaySplit(own: Properties, extensible: bool, log: Log, m: nat, n: nat)
    ensures Replay(own, extensible, log, m + n) ==
              var first := Replay(own, extensible, log, m);
              if first.completion == Normal then Replay(first.props, extensible, first.log, n) else first
    decreases m
  {
    if m > 0 && |log| > 0 {
      var r := Revert(own, extensible, log[|log| - 1]);
      if r.ok {
        ReplaySplit(r.props, extensible, log[..|log| - 1], m - 1, n);
      }
    } else if |log| == 0 {
      assert Replay(own, extensible, log, n) == Undone(own, log, Normal);
    }
  }

  /** Undo touches only the keys its rows name: a key that no row of the log
      mentions keeps its own descriptor, or stays absent. */
  lemma {:induction false} ReplayLeavesOtherKeys(own: Properties, extensible: bool, log: Log, n: nat, j: Key)
    requires forall i :: 0 <= i < |log| ==> log[i].propertyKey != j
    ensures (j in Replay(own, extensible, log, n).props) == (j in own)
    ensures j in own ==> Replay(own, extensible, log, n).props[j] == own[j]
    decreases n
  {
    if n > 0 && |log| > 0 {
      var r := Revert(own, extensible, log[|log| - 1]);
      if r.ok {
        assert log[|log| - 1].propertyKey != j;
        ReplayLeavesOtherKeys(r.props, extensible, log[..|log| - 1], n - 1, j);
      }
    }
  }

  /** Undoing one row reverts the newest row and keeps every earlier row. */
  lemma UndoOneRow(own: Properties, extensible: bool, log: Log, row: Row)
    ensures var r := Revert(own, extensible, row);
            Replay(own, extensible, log + [row], 1) ==
              Undone(r.props, log, if r.ok then Normal else Throw(TypeError))
  {
  }
}
