/** The storage mirror `ChromeStorageClass`: an in-memory copy of the
    extension's local storage, kept up to date by its own writes and by the
    host's change notifications, with a list of observers called on every
    notification. Host calls are not performed: what the host does in reply
    (its load result, whether a call throws, which observers throw) arrives as
    parameters, and what the mirror requests is appended to a ghost log. */
module ChromeStorage {
  import opened JsValues
  import opened StorageSpec

  /** The error a host call throws synchronously. */
  type HostError = nat

  /** The promise `set` returns: still waiting for the host's completion
      callback (which resolves it), or already rejected with the thrown error. */
  datatype SetOutcome = AwaitingHost | Rejected(error: HostError)

  class ChromeStorageClass {
    /** The mirrored key/value store. */
    var storage: Storage
    /** The registered observers, in registration order. */
    var observers: seq<ObserverId>
    /** The host requests, recovery-hook calls and observer calls so far. */
    ghost var log: seq<Event>

    /** Starts with an empty mirror and no observers, requests the full store
        from the host and subscribes to its change notifications. */
    constructor ()
      ensures storage == map[] && observers == []
      ensures log == [HostGet, HostSubscribe]
    {
      storage := map[];
      observers := [];
      log := [HostGet, HostSubscribe];
    }

    /** The load callback: the host's result replaces the mirror outright,
        discarding whatever `set` wrote before it arrived. */
    method OnLoaded(result: Storage)
      modifies this`storage
      ensures storage == result
    {
      storage := result;
    }

    /** `listen`: appends the callback; observers are never removed. */
    method Listen(callback: ObserverId)
      modifies this`observers
      ensures observers == old(observers) + [callback]
      ensures old(observers) <= observers
    {
      observers := observers + [callback];
    }

    /** `getAll`: the whole mirror. */
    method GetAll() returns (all: Storage)
      ensures all == storage
    {
      all := storage;
    }

    /** `get`, in its intended reading: the stored value, or `null` when the key
        is absent or stored as `undefined`/`null`; falsy values such as `0` come
        back unchanged. It agrees with `storage[key] ?? null` except on absent
        keys named like an `Object.prototype` member. */
    method Get(key: string) returns (v: Value)
      ensures v == Lookup(storage, key)
      ensures v == Null <==> key !in storage || IsNullish(storage[key])
      ensures v != Null ==> v == storage[key]
      ensures key in storage || key !in ObjectPrototypeMembers ==> v == LookupAsWritten(storage, key)
    {
      v := if key in storage then Coalesce(storage[key], Null) else Null;
      if key in storage || key !in ObjectPrototypeMembers {
        LookupAgreesWithAsWritten(storage, key);
      }
    }

    /** The recovery hook `appReload`, which does nothing else. */
    method AppReload()
      modifies this`log
      ensures log == old(log) + [Reload]
    {
      log := log + [Reload];
    }

    /** `set`: merges `data` over the mirror first, then asks the host to
        persist `data`. A synchronous throw from the host runs the recovery
        hook and rejects the promise, but the merge stays in place. */
    method Set(data: Storage, thrown: Option<HostError>) returns (outcome: SetOutcome)
      modifies this`storage, this`log
      ensures storage == old(storage) + data
      ensures forall k :: k in data ==> k in storage && storage[k] == data[k]
      ensures forall k :: k !in data ==> (k in storage <==> k in old(storage))
      ensures forall k :: k !in data && k in old(storage) ==> storage[k] == old(storage)[k]
      ensures log == old(log) + [HostSet(data)] + (if thrown.Some? then [Reload] else [])
      ensures outcome == if thrown.Some? then Rejected(thrown.value) else AwaitingHost
    {
      storage := storage + data;
      log := log + [HostSet(data)];
      if thrown.Some? {
        AppReload();
        outcome := Rejected(thrown.value);
      } else {
        outcome := AwaitingHost;
      }
    }

    /** `clear`: empties the mirror before anything else. If the host storage
        is unavailable nothing more happens; if the host clear throws, only the
        recovery hook runs. No error reaches the caller. */
    method Clear(hostAvailable: bool, throws: bool)
      modifies this`storage, this`log
      ensures storage == map[]
      ensures log == old(log) + (if !hostAvailable then [] else [HostClear] + (if throws then [Reload] else []))
    {
      storage := map[];
      if !hostAvailable {
        return;
      }
      log := log + [HostClear];
      if throws {
        AppReload();
      }
    }

    /** The change `listener`: writes each entry's `newValue` into the mirror in
        order, then calls every observer with the mirror. Reading the
        `newValue` of an `undefined`/`null` entry throws a TypeError: the
        recovery hook runs, no observer is called, and the entries before it stay
        written. An observer that throws ends the round the same way. The
        storage area a change comes from is not looked at. */
    method Listener(changes: seq<ChangeEntry>, areaName: string, throwing: set<ObserverId>)
      modifies this`storage, this`log
      ensures storage == ApplyChanges(old(storage), changes)
      ensures observers == old(observers)
      ensures log == old(log) + (if AppliedCount(changes) < |changes| then [Reload]
                                 else Notifications(observers, storage, throwing))
    {
      var complete := WriteChanges(changes);
      if !complete {
        AppReload();
        return;
      }
      NotifyObservers(throwing);
    }

    /** The listener's first loop, `storage[key] = changes[key].newValue` for each
        key in order; it stops, reporting `false`, at the first entry whose
        `newValue` read throws. */
    method WriteChanges(changes: seq<ChangeEntry>) returns (complete: bool)
      modifies this`storage
      ensures storage == ApplyChanges(old(storage), changes)
      ensures complete <==> AppliedCount(changes) == |changes|
    {
      var i := 0;
      while i < |changes|
        invariant i <= AppliedCount(changes)
        invariant ApplyChanges(storage, changes[i..]) == ApplyChanges(old(storage), changes)
      {
        var key, entry := changes[i].0, changes[i].1;
        var newValue := ReadNewValue(entry);
        if newValue.None? {
          return false;
        }
        assert changes[i..][1..] == changes[i + 1..];
        storage := storage[key := newValue.value];
        i := i + 1;
      }
      return true;
    }

    /** The listener's second loop, `observer(storage)` for each observer in
        registration order; an observer that throws lands in the listener's
        catch, which runs the recovery hook. */
    method NotifyObservers(throwing: set<ObserverId>)
      modifies this`log
      ensures log == old(log) + Notifications(observers, storage, throwing)
    {
      var j := 0;
      while j < |observers|
        invariant j <= |observers|
        invariant log + Notifications(observers[j..], storage, throwing)
                  == old(log) + Notifications(observers, storage, throwing)
      {
        log := log + [Notified(observers[j], storage)];
        if observers[j] in throwing {
          AppReload();
          return;
        }
        assert observers[j..][1..] == observers[j + 1..];
        j := j + 1;
      }
    }
  }

  /** Builds on the usage script (listen, `set({timer: 1})`, `get`, `getAll`)
      and adds the load race: a write issued before the initial load arrives is
      visible at once, sits beside earlier writes, and is discarded when the
      load result replaces the mirror. */
  method LoadRaceScenario(loaded: Storage)
    requires "timer" !in loaded && "title" !in loaded
  {
    var mirror := new ChromeStorageClass();
    mirror.Listen(0);
    var p := mirror.Set(map["timer" := Num(1)], None);
    assert p == AwaitingHost;
    var t := mirror.Get("timer");
    assert t == Num(1);
    p := mirror.Set(map["title" := Str("")], None);
    var all := mirror.GetAll();
    assert all == map["timer" := Num(1), "title" := Str("")];
    var title := mirror.Get("title");
    assert title == Str("");
    mirror.OnLoaded(loaded);
    t := mirror.Get("timer");
    assert t == Null;
  }
}
