/** The in-flight map and its cancel tokens, as the orchestrator updates them.
    Each method is what one lock acquisition does to the map; its effect is the
    map operation the run protocol uses for that step. */
module InFlight {
  import opened Basics
  import opened RunProtocol

  class CancellationToken {
    var fired: bool

    constructor ()
      ensures !fired
    {
      fired := false;
    }

    method Cancel()
      modifies this
      ensures fired
    {
      fired := true;
    }
  }

  datatype Entry = Entry(runId: RunId, cancel: CancellationToken)

  class InFlightMap {
    var entries: map<Key, Entry>

    constructor ()
      ensures entries == map[]
    {
      entries := map[];
    }

    /** The map as the run protocol sees it. */
    ghost function Slots(): map<Key, RunId>
      reads this
    {
      map k | k in entries :: entries[k].runId
    }

    /** Remove any older entry and install the new one under one lock. */
    method Swap(key: Key, runId: RunId, cancel: CancellationToken) returns (prior: Option<Entry>)
      modifies this
      ensures entries == old(entries)[key := Entry(runId, cancel)]
      ensures Slots() == Swapped(old(Slots()), key, runId)
      ensures prior == if key in old(entries) then Some(old(entries)[key]) else None
    {
      prior := if key in entries then Some(entries[key]) else None;
      entries := entries - {key};
      entries := entries[key := Entry(runId, cancel)];
    }

    /** The swap, then, with the lock released, the fire of the older token. */
    method SwapInFlightAndCancel(key: Key, runId: RunId, cancel: CancellationToken) returns (prior: Option<RunId>)
      modifies this, if key in entries then {entries[key].cancel} else {}
      ensures Slots() == Swapped(old(Slots()), key, runId)
      ensures entries == old(entries)[key := Entry(runId, cancel)]
      ensures prior == SlotOf(old(Slots()), key)
      ensures prior.Some? ==> old(entries)[key].cancel.fired
      ensures key !in old(entries) || old(entries)[key].cancel != cancel ==> cancel.fired == old(cancel.fired)
    {
      var older := Swap(key, runId, cancel);
      if older.None? { return None; }
      older.value.cancel.Cancel();
      prior := Some(older.value.runId);
    }

    method SupersededBy(key: Key, myRunId: RunId) returns (newer: Option<RunId>)
      ensures newer == SupersededByNow(Slots(), key, myRunId)
    {
      if key in entries && entries[key].runId != myRunId {
        newer := Some(entries[key].runId);
      } else {
        newer := None;
      }
    }

    method DropIfOurs(key: Key, runId: RunId)
      modifies this
      ensures entries == if key in old(entries) && old(entries)[key].runId == runId then old(entries) - {key}
        else old(entries)
      ensures Slots() == Dropped(old(Slots()), key, runId)
    {
      if key in entries {
        if entries[key].runId == runId {
          entries := entries - {key};
        }
      }
    }

    /** The failed-insert path takes the key out whoever holds it. */
    method Remove(key: Key)
      modifies this
      ensures entries == old(entries) - {key}
      ensures Slots() == old(Slots()) - {key}
    {
      entries := entries - {key};
    }

    /** The token is in no entry of the run. */
    ghost predicate NotOf(runId: RunId, cancel: CancellationToken)
      reads this
    {
      forall j :: j in entries && entries[j].runId == runId ==> entries[j].cancel != cancel
    }

    /** Walk the entries and fire the first one that belongs to the run. */
    method Cancel(runId: RunId) returns (found: bool)
      modifies set k | k in entries :: entries[k].cancel
      ensures found <==> exists k :: k in entries && entries[k].runId == runId
      ensures found ==> exists k :: k in entries && entries[k].runId == runId && entries[k].cancel.fired
      ensures forall k :: k in entries && old(entries[k].cancel.fired) ==> entries[k].cancel.fired
      ensures forall k :: k in entries && NotOf(runId, entries[k].cancel) ==>
        entries[k].cancel.fired == old(entries[k].cancel.fired)
    {
      var keys := entries.Keys;
      while keys != {}
        invariant keys <= entries.Keys
        invariant forall k :: k in entries && k !in keys ==> entries[k].runId != runId
        invariant forall k :: k in entries ==> entries[k].cancel.fired == old(entries[k].cancel.fired)
        decreases keys
      {
        var k :| k in keys;
        if entries[k].runId == runId {
          entries[k].cancel.Cancel();
          return true;
        }
        keys := keys - {k};
      }
      found := false;
    }
  }
}
