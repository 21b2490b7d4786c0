/** The update processor as it runs, changing its queue, its source list and its indexes in place. */
module UpdateProcessors {
  import opened Wrappers
  import opened PacketScheduler

  class UpdateProcessor {
    const config: Config
    var priorityUpdates: seq<Update>
    var refreshSources: seq<Source>
    var packetSourceStates: map<Source, SourceState>
    var nextRefreshIndex: nat
    var exclusiveIndex: nat
    var hasRefreshSource: bool

    ghost function Now(): Proc
      reads this
    {
      Proc(priorityUpdates, refreshSources, packetSourceStates, nextRefreshIndex, exclusiveIndex)
    }

    ghost predicate Ok()
      reads this
    {
      Valid(Now()) && hasRefreshSource == (refreshSources != [])
    }

    constructor (config: Config)
      ensures Ok() && this.config == config
      ensures Now() == Proc([], [], map[], 0, NO_EXCLUSIVE)
    {
      this.config := config;
      priorityUpdates, refreshSources, packetSourceStates := [], [], map[];
      nextRefreshIndex, exclusiveIndex, hasRefreshSource := 0, NO_EXCLUSIVE, false;
    }

    method NotifyUpdate(source: Source, code: nat)
      requires Ok()
      modifies this`priorityUpdates
      ensures Ok() && Now() == Apply(config, old(Now()), Notify(Update(source, code)))
    {
      priorityUpdates := priorityUpdates + [Update(source, code)];
    }

    /** False when another source is exclusive, or this one is exclusive but not above the others. */
    method AddRefreshSource(source: Source, priority: nat) returns (ok: bool)
      requires Ok()
      modifies this
      ensures Ok() && Now() == Add(config, old(Now()), source, priority)
      ensures ok == if priority < config.minPriority then old(exclusiveIndex) == NO_EXCLUSIVE
                    else priority > TopPriority(old(Now()), packetSourceStates)
    {
      ok := true;
      refreshSources := refreshSources + [source];
      hasRefreshSource := true;
      packetSourceStates := packetSourceStates[source := SourceState(0, priority)];
      if priority >= config.minPriority {
        var lastPriority := 0;
        if exclusiveIndex != NO_EXCLUSIVE {
          lastPriority := packetSourceStates[refreshSources[exclusiveIndex]].priority;
        }
        if priority > lastPriority {
          exclusiveIndex := |refreshSources| - 1;
        } else {
          ok := false;
        }
      } else if exclusiveIndex != NO_EXCLUSIVE {
        ok := false;
      }
    }

    method Erase(source: Source)
      modifies this`refreshSources
      ensures refreshSources == Without(old(refreshSources), source)
    {
      var kept: seq<Source> := [];
      for i := 0 to |refreshSources|
        invariant refreshSources == old(refreshSources) && kept == Without(refreshSources[..i], source)
      {
        assert refreshSources[..i + 1][..i] == refreshSources[..i];
        if refreshSources[i] != source {
          kept := kept + [refreshSources[i]];
        }
      }
      assert refreshSources[..|refreshSources|] == refreshSources;
      refreshSources := kept;
    }

    /** The index of the last source among those of the highest exclusive priority. */
    method FindExclusive() returns (index: nat)
      requires forall s | s in refreshSources :: s in packetSourceStates
      ensures var best := Highest(config, refreshSources, packetSourceStates);
              index == if best.Some? then best.value else NO_EXCLUSIVE
    {
      var maxPriority := config.minPriority;
      index := NO_EXCLUSIVE;
      ghost var best: Option<nat> := None;
      for i := 0 to |refreshSources|
        invariant forall s | s in refreshSources[..i] :: s in packetSourceStates
        invariant best == Highest(config, refreshSources[..i], packetSourceStates)
        invariant index == if best.Some? then best.value else NO_EXCLUSIVE
        invariant maxPriority == if best.Some? then packetSourceStates[refreshSources[best.value]].priority
                                 else config.minPriority
      {
        assert refreshSources[..i + 1][..i] == refreshSources[..i];
        assert forall s | s in refreshSources[..i + 1] :: s in refreshSources;
        if packetSourceStates[refreshSources[i]].priority >= maxPriority {
          index := i;
          maxPriority := packetSourceStates[refreshSources[i]].priority;
          best := Some(i);
        }
      }
      assert refreshSources[..|refreshSources|] == refreshSources;
    }

    method RemoveRefreshSource(source: Source)
      requires Ok()
      modifies this
      ensures Ok() && Now() == Remove(config, old(Now()), source)
    {
      Erase(source);
      if refreshSources == [] {
        hasRefreshSource := false;
      }
      packetSourceStates := packetSourceStates - {source};
      exclusiveIndex := FindExclusive();
    }

    /** Takes the first urgent update off the queue, and puts it back if its source was served too
        recently. */
    method NextUrgent(now: int) returns (fate: Fate)
      requires Ok()
      modifies this`priorityUpdates
      ensures fate == Judge(config, old(Now()), now) && Now() == Dequeue(old(Now()), fate)
    {
      if priorityUpdates == [] {
        return Absent;
      }
      var u := priorityUpdates[0];
      priorityUpdates := priorityUpdates[1..];
      if u.source !in packetSourceStates {
        fate := Fate.Dropped(u);
      } else if packetSourceStates[u.source].last > now - config.delay {
        priorityUpdates := priorityUpdates + [u];
        fate := PutBack(u);
      } else {
        fate := Sendable(u);
      }
    }

    /** Goes once round the sources for one that was not served too recently. */
    method NextBackground(limit: int) returns (found: Option<Source>)
      requires Ok() && hasRefreshSource
      modifies this`nextRefreshIndex
      ensures (nextRefreshIndex, found) == Scan(old(Now()), old(nextRefreshIndex), limit, |refreshSources|)
      ensures found.Some? ==> found.value in packetSourceStates
    {
      ghost var m := Now();
      found := None;
      var ntries := 0;
      while ntries < |refreshSources|
        invariant 0 <= ntries <= |refreshSources| && nextRefreshIndex >= 0
        invariant Scan(m, m.next, limit, |m.sources|) == Scan(m, nextRefreshIndex, limit, |m.sources| - ntries)
      {
        ntries := ntries + 1;
        if nextRefreshIndex >= |refreshSources| {
          nextRefreshIndex := 0;
        }
        var s := refreshSources[nextRefreshIndex];
        nextRefreshIndex := nextRefreshIndex + 1;
        if packetSourceStates[s].last < limit {
          return Some(s);
        }
      }
    }

    /** Fills an empty packet. */
    method Entry(now: int) returns (packet: Packet)
      requires Ok()
      modifies this
      ensures Ok() && (Now(), packet) == PacketScheduler.Entry(config, old(Now()), now)
    {
      EntryKeepsValid(config, Now(), now);
      packet := Idle;
      if exclusiveIndex != NO_EXCLUSIVE {
        packet := Exclusive(refreshSources[exclusiveIndex]);
        Serve(refreshSources[exclusiveIndex], now);
        return;
      }
      var fate := NextUrgent(now);
      if fate.Sendable? {
        packet := Urgent(fate.u);
        Serve(fate.u.source, now);
      } else if hasRefreshSource {
        var found := NextBackground(now - config.delay);
        if found.Some? {
          packet := Background(found.value);
          Serve(found.value, now);
        }
      }
    }

    method Serve(s: Source, now: int)
      requires s in packetSourceStates
      modifies this`packetSourceStates
      ensures Now() == Stamp(old(Now()), s, now)
    {
      packetSourceStates := packetSourceStates[s := packetSourceStates[s].(last := now)];
    }
  }
}
