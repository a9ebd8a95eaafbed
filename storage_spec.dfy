/** Specification functions for the storage mirror: reading a key, applying a
    host change set, and the sequence of observer calls a notification causes. */
module StorageSpec {
  import opened JsValues

  /** The mirror: a plain object from string keys to values (own properties only). */
  type Storage = map<string, Value>

  /** The identity of a registered observer callback. */
  type ObserverId = nat

  /** One entry of a host change set: the key and the change object for it. */
  type ChangeEntry = (string, Value)

  /** What the mirror asks of the host and of its observers, in order. */
  datatype Event =
    | HostGet                                 // chrome.storage.local.get, issued at construction
    | HostSubscribe                           // chrome.storage.onChanged.addListener
    | HostSet(data: Storage)                  // chrome.storage.local.set(data, ...)
    | HostClear                               // chrome.storage.local.clear()
    | Reload                                  // a call of the recovery hook appReload
    | Notified(observer: ObserverId, snapshot: Storage)  // observer(storage), without the changes

  // ---------------------------------------------------------------------------
  // Reading one key
  // ---------------------------------------------------------------------------

  /** The names every plain object inherits from `Object.prototype`. */
  const ObjectPrototypeMembers: set<string> :=
    {"constructor", "hasOwnProperty", "isPrototypeOf", "propertyIsEnumerable",
     "toLocaleString", "toString", "valueOf", "__proto__",
     "__defineGetter__", "__defineSetter__", "__lookupGetter__", "__lookupSetter__"}

  /** `storage[key]` on a plain object: the own property, else an inherited
      member, else `undefined`. */
  function PropertyOf(m: Storage, key: string): Value {
    if key in m then m[key]
    else if key in ObjectPrototypeMembers then Builtin(key)
    else Undefined
  }

  /** `get(key)` as the source writes it: `storage[key] ?? null`, which also
      sees the members inherited from `Object.prototype`. */
  function LookupAsWritten(m: Storage, key: string): Value {
    Coalesce(PropertyOf(m, key), Null)
  }

  /** The discrepancy: on a mirror that never stored "toString", `get` yields an
      inherited function instead of `null`. */
  lemma LookupAsWrittenSeesPrototype(m: Storage, key: string)
    requires key !in m && key in ObjectPrototypeMembers
    ensures LookupAsWritten(m, key) != Null
    ensures LookupAsWritten(m, key) == Builtin(key)
  {
  }

  /** `get(key)` as intended: the stored value, with `null` for a key that is
      absent or stored as `undefined` or `null`. Every other value, the falsy
      `0`, `false` and `""` included, is returned unchanged. */
  function Lookup(m: Storage, key: string): (r: Value)
    ensures r == Null <==> key !in m || IsNullish(m[key])
    ensures r != Null ==> key in m && r == m[key]
    ensures !r.Undefined?
    ensures key in m && IsFalsy(m[key]) && !IsNullish(m[key]) ==> r == m[key]
  {
    if key in m then Coalesce(m[key], Null) else Null
  }

  /** The two readings agree on every key the mirror holds and on every key
      that is not an `Object.prototype` member. */
  lemma LookupAgreesWithAsWritten(m: Storage, key: string)
    requires key in m || key !in ObjectPrototypeMembers
    ensures Lookup(m, key) == LookupAsWritten(m, key)
  {
  }

  // ---------------------------------------------------------------------------
  // Applying a host change set
  // ---------------------------------------------------------------------------

  /** The keys of a change set are distinct, as the own keys of an object are. */
  ghost predicate DistinctKeys(changes: seq<ChangeEntry>) {
    forall i, j :: 0 <= i < j < |changes| ==> changes[i].0 != changes[j].0
  }

  /** How many entries are applied before `entry.newValue` first throws:
      the index of the first `undefined`/`null` entry, or the whole length. */
  function AppliedCount(changes: seq<ChangeEntry>): (n: nat)
    ensures n <= |changes|
    ensures forall i :: 0 <= i < n ==> ReadNewValue(changes[i].1).Some?
    ensures n < |changes| ==> ReadNewValue(changes[n].1).None?
  {
    if changes == [] then 0
    else if ReadNewValue(changes[0].1).None? then 0
    else 1 + AppliedCount(changes[1..])
  }

  /** The mirror after writing `storage[key] = changes[key].newValue` for each
      entry in order, stopping where reading `newValue` throws. */
  function ApplyChanges(m: Storage, changes: seq<ChangeEntry>): (r: Storage)
    ensures m.Keys <= r.Keys
    decreases |changes|
  {
    if changes == [] then m
    else match ReadNewValue(changes[0].1)
      case None => m
      case Some(v) => ApplyChanges(m[changes[0].0 := v], changes[1..])
  }

  /** A key that no applied entry names keeps its presence and its value. */
  lemma {:induction false} ApplyChangesKeepsOthers(m: Storage, changes: seq<ChangeEntry>, key: string)
    requires forall i :: 0 <= i < AppliedCount(changes) ==> changes[i].0 != key
    ensures key in ApplyChanges(m, changes) <==> key in m
    ensures key in m ==> ApplyChanges(m, changes)[key] == m[key]
    decreases |changes|
  {
    if changes != [] && ReadNewValue(changes[0].1).Some? {
      var v := ReadNewValue(changes[0].1).value;
      forall i | 0 <= i < AppliedCount(changes[1..]) ensures changes[1..][i].0 != key {
        assert changes[1..][i] == changes[i + 1];
      }
      ApplyChangesKeepsOthers(m[changes[0].0 := v], changes[1..], key);
    }
  }

  /** Every entry applied before a failure leaves its key mapped to its
      `newValue`; with no failure that is every entry of the change set. */
  lemma {:induction false} ApplyChangesWritesNewValue(m: Storage, changes: seq<ChangeEntry>, i: nat)
    requires DistinctKeys(changes)
    requires i < AppliedCount(changes)
    ensures changes[i].0 in ApplyChanges(m, changes)
    ensures ApplyChanges(m, changes)[changes[i].0] == ReadNewValue(changes[i].1).value
    decreases |changes|
  {
    var v := ReadNewValue(changes[0].1).value;
    var written := m[changes[0].0 := v];
    if i == 0 {
      forall j | 0 <= j < AppliedCount(changes[1..]) ensures changes[1..][j].0 != changes[0].0 {
        assert changes[1..][j] == changes[j + 1];
      }
      ApplyChangesKeepsOthers(written, changes[1..], changes[0].0);
    } else {
      assert changes[1..][i - 1] == changes[i];
      ApplyChangesWritesNewValue(written, changes[1..], i - 1);
    }
  }

  /** A key removed on the host arrives with no `newValue`; once that entry is
      applied (even when a later entry throws) the mirror maps the key to
      `undefined`, and reading it yields `null`. */
  lemma DeletedKeyReadsNull(m: Storage, changes: seq<ChangeEntry>, i: nat)
    requires DistinctKeys(changes)
    requires i < AppliedCount(changes)
    requires changes[i].1.Obj? && "newValue" !in changes[i].1.fields
    ensures changes[i].0 in ApplyChanges(m, changes)
    ensures ApplyChanges(m, changes)[changes[i].0] == Undefined
    ensures Lookup(ApplyChanges(m, changes), changes[i].0) == Null
  {
    ApplyChangesWritesNewValue(m, changes, i);
  }

  // ---------------------------------------------------------------------------
  // Notifying observers
  // ---------------------------------------------------------------------------

  /** The events of `observers.forEach(observer => observer(storage))` inside
      the listener's try block: each observer is called with the snapshot, in
      registration order, until one of them throws; the recovery hook runs then. */
  function Notifications(observers: seq<ObserverId>, snapshot: Storage, throwing: set<ObserverId>): (r: seq<Event>)
    ensures (forall i :: 0 <= i < |observers| ==> observers[i] !in throwing) ==>
              |r| == |observers| && forall i :: 0 <= i < |observers| ==> r[i] == Notified(observers[i], snapshot)
    decreases |observers|
  {
    if observers == [] then []
    else if observers[0] in throwing then [Notified(observers[0], snapshot), Reload]
    else [Notified(observers[0], snapshot)] + Notifications(observers[1..], snapshot, throwing)
  }

  /** When observer `j` is the first that throws, observers `0..j` are called in
      order, the recovery hook follows, and no later observer is called. */
  lemma {:induction false} NotificationsStopAtThrow(observers: seq<ObserverId>, snapshot: Storage, throwing: set<ObserverId>, j: nat)
    requires j < |observers| && observers[j] in throwing
    requires forall i :: 0 <= i < j ==> observers[i] !in throwing
    ensures |Notifications(observers, snapshot, throwing)| == j + 2
    ensures forall i :: 0 <= i <= j ==> Notifications(observers, snapshot, throwing)[i] == Notified(observers[i], snapshot)
    ensures Notifications(observers, snapshot, throwing)[j + 1] == Reload
    decreases j
  {
    if j > 0 {
      var rest := observers[1..];
      assert rest[j - 1] == observers[j];
      forall i | 0 <= i < j - 1 ensures rest[i] !in throwing {
        assert rest[i] == observers[i + 1];
      }
      NotificationsStopAtThrow(rest, snapshot, throwing, j - 1);
      var tail := Notifications(rest, snapshot, throwing);
      forall i | 1 <= i <= j ensures Notifications(observers, snapshot, throwing)[i] == Notified(observers[i], snapshot) {
        assert Notifications(observers, snapshot, throwing)[i] == tail[i - 1];
        assert rest[i - 1] == observers[i];
      }
    }
  }
}
