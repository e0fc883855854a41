/**
  The scan's scheduling (dhtcore/src/Crawler.cpp) over the catalogue itself: the
  queues hold slots and generations, and the catalogue says which are current.
  */
module Crawlers {
  import opened Endpoints
  import opened Options
  import opened CrawlSchedule
  import opened Numbers
  import Catalog
  import ProbeTable

  class Crawler {
    const nodes: Families
    const config: Config
    const catalog: Catalog.NodeCatalog
    /** What the crawler keeps in each entry of the catalogue, by its current reference. */
    var live: Live

    var neverAsked: seq<Ref>
    var retry: seq<Ref>
    var revisit: seq<Ref>
    var revisitSilent: seq<Ref>
    var deferred: seq<Deferred>
    var features: seq<Ref>
    var outstanding: int
    var batch: int
    var lastTickFull: bool

    // The queries that are out, by the references their callbacks hold.
    var asks: set<Ref>
    var checks: map<Ref, Check>
    // Feature queries that were sent, by entry.
    ghost var spent: multiset<Ref>

    ghost function Plan(): Schedule
      reads this
    {
      Schedule(neverAsked, retry, revisit, revisitSilent, deferred, asks)
    }

    ghost predicate Sound()
      reads catalog
    {
      catalog.Valid()
    }

    /** What holds between any two steps, with `hand` and `idle` the references
        a step is about to file in the schedule and in the feature queue. */
    ghost predicate Keeps(hand: Option<Ref>, idle: Option<Ref>)
      reads this, catalog
    {
      && Scheduled(live, Plan(), hand, catalog.allocs)
      && Queued(live, features, idle, checks, catalog.allocs)
      && Metered(live, spent, checks, catalog.allocs)
      && Catalogued(live, catalog.allocs, nodes)
      && Linked(live, catalog.entries) && Sound()
      && outstanding == |asks| + |checks|
      && MIN_BATCH <= batch <= MAX_BATCH
    }

    ghost predicate Valid()
      reads this, catalog
    {
      Keeps(None, None)
    }

    /** A crawler starts over a catalogue that has been cleared. */
    constructor (nodes: Families, config: Config, catalog: Catalog.NodeCatalog)
      requires catalog.Valid() && catalog.size == 0
      ensures Valid() && this.nodes == nodes && this.config == config && this.catalog == catalog
      ensures live == map[] && spent == multiset{} && asks == {} && checks == map[] && neverAsked == []
    {
      this.nodes, this.config, this.catalog := nodes, config, catalog;
      live := map[];
      neverAsked, retry, revisit, revisitSilent, deferred, features := [], [], [], [], [], [];
      outstanding, batch, lastTickFull := 0, 16, false;
      asks, checks, spent := {}, map[], multiset{};
      new;
      hide Catalog.TableOk, Catalog.KeysDistinct, Catalog.IndexOf;
      NothingLinked(catalog.entries, catalog.free, catalog.size, catalog.counts, catalog.born, catalog.allocs);
    }

    /** The catalogue decides what is current, and the crawler's entries agree. */
    lemma Agrees(ref: Ref)
      requires Linked(live, catalog.entries)
      ensures ref in live <==> catalog.IsCurrent(ref)
    {
    }

    lemma Sees(ref: Ref)
      requires Valid()
      ensures ref in live <==> catalog.IsCurrent(ref)
    {
      Agrees(ref);
    }

    // --- Entries ------------------------------------------------------------------

    /** Replaces an entry by one that neither the schedule nor the checks nor the
        catalogue can tell from it. */
    method Touch(ref: Ref, e: Entry, ghost hand: Option<Ref>, ghost idle: Option<Ref>)
      requires Keeps(hand, idle) && ref in live
      requires SameChecks(live[ref], e) && e.state == live[ref].state
      modifies `live
      ensures Keeps(hand, idle) && live == old(live)[ref := e]
    {
      hide Scheduled, Queued, Metered, Catalogued, Linked, Sound, Shrinks, SameKeys, SameRoutes;
      ghost var was := live;
      EditShrinks(live, ref, e);
      LinkedTouch(live, catalog.entries, ref, e);
      live := live[ref := e];
      ShrinkKeepsSchedule(was, live, Plan(), hand, catalog.allocs);
      ShrinkKeepsChecks(was, live, features, idle, checks, spent, catalog.allocs);
      ShrinkKeepsCatalogue(was, live, catalog.allocs, nodes);
    }

    /** Changes an entry's state in the catalogue, and the entry with it. */
    method Amend(ref: Ref, e: Entry, ghost hand: Option<Ref>, ghost idle: Option<Ref>)
      requires Keeps(hand, idle) && ref in live
      requires SameChecks(live[ref], e) && (e.state.Unroutable? <==> live[ref].state.Unroutable?)
      modifies `live, catalog
      ensures Keeps(hand, idle) && live == old(live)[ref := e]
      ensures catalog.allocs == old(catalog.allocs) && catalog.epochMs == old(catalog.epochMs)
    {
      hide Scheduled, Queued, Metered, Catalogued, Linked, Sound, Shrinks, SameKeys, SameRoutes;
      ghost var was := live;
      EditShrinks(live, ref, e);
      SetState(ref, e);
      live := live[ref := e];
      ShrinkKeepsSchedule(was, live, Plan(), hand, catalog.allocs);
      ShrinkKeepsChecks(was, live, features, idle, checks, spent, catalog.allocs);
      ShrinkKeepsCatalogue(was, live, catalog.allocs, nodes);
    }

    method SetState(ref: Ref, e: Entry)
      requires Sound() && Linked(live, catalog.entries) && ref in live && e.key == live[ref].key
      modifies catalog
      ensures Sound() && Linked(live[ref := e], catalog.entries)
      ensures catalog.allocs == old(catalog.allocs) && catalog.epochMs == old(catalog.epochMs) && catalog.cap == old(catalog.cap)
    {
      hide Catalog.SlotsOk, Catalog.TableOk, Catalog.KeysDistinct, Catalog.IndexOf, Linked;
      ghost var was := catalog.entries;
      LinkedIsLive(live, catalog.entries, ref);
      catalog.SetState(ref.slot, e.state);
      LinkedEdit(live, was, ref, e, catalog.entries);
    }

    /** Writes when an entry was last listed, or last answered, where eviction looks. */
    method NoteSign(ref: Ref, answered: bool, now: int, ghost hand: Option<Ref>)
      requires Keeps(hand, None) && ref in live
      modifies catalog
      ensures Keeps(hand, None) && ref.slot < |old(catalog.entries)|
      ensures var e := old(catalog.entries[ref.slot]);
              catalog.entries == old(catalog.entries)[ref.slot :=
                if answered then e.(lastAnswered := catalog.Stamp(now)) else e.(lastListed := catalog.Stamp(now))]
      ensures catalog.allocs == old(catalog.allocs) && catalog.epochMs == old(catalog.epochMs) && catalog.cap == old(catalog.cap)
    {
      hide Scheduled, Queued, Metered, Catalogued, Linked, Catalog.SlotsOk, Catalog.TableOk, Catalog.KeysDistinct, Catalog.IndexOf;
      ghost var was := catalog.entries;
      LinkedIsLive(live, catalog.entries, ref);
      var e := catalog.entries[ref.slot];
      if answered {
        catalog.NoteSigns(ref.slot, e.lastListed, catalog.Stamp(now));
      } else {
        catalog.NoteSigns(ref.slot, catalog.Stamp(now), e.lastAnswered);
      }
      LinkedSigned(live, was, catalog.entries);
    }

    /** Evicts entries, of the catalogue's choice, while there are more than the
        cap allows. */
    method Trim(maxEvictions: nat)
      requires Valid()
      modifies `live, catalog
      ensures Valid() && live.Keys <= old(live.Keys)
      ensures forall r :: r in live ==> live[r] == old(live)[r]
      ensures catalog.allocs == old(catalog.allocs)
    {
      hide Scheduled, Queued, Metered, Catalogued, Linked, Sound, Shrinks, SameKeys, SameRoutes, Catalog.Current;
      ghost var was := live;
      TrimCatalog(maxEvictions);
      live := Surviving(live, catalog.entries);
      SurvivingShrinks(was, catalog.entries);
      ShrinkKeepsSchedule(was, live, Plan(), None, catalog.allocs);
      ShrinkKeepsChecks(was, live, features, None, checks, spent, catalog.allocs);
      ShrinkKeepsCatalogue(was, live, catalog.allocs, nodes);
    }

    method TrimCatalog(maxEvictions: nat)
      requires Sound() && Linked(live, catalog.entries)
      modifies catalog
      ensures Sound() && Linked(Surviving(live, catalog.entries), catalog.entries)
      ensures catalog.allocs == old(catalog.allocs)
    {
      hide Catalog.SlotsOk, Catalog.TableOk, Catalog.KeysDistinct, Catalog.IndexOf, Linked, Catalog.Current;
      ghost var was := catalog.entries;
      var evicted := catalog.Trim(maxEvictions);
      LinkedAfterTrim(live, was, catalog.entries);
    }

    /** The entry for an endpoint, added if new; an entry makes way first when the
        catalogue is full. A new entry is in hand. */
    method Upsert(endpoint: Endpoint, now: int) returns (ref: Option<Ref>, added: bool)
      requires Valid() && CanAsk(endpoint, nodes) && catalog.allocs < Catalog.GENERATIONS
      modifies `live, catalog
      ensures Keeps(if added then ref else None, None) && Learnt() && catalog.cap == old(catalog.cap)
      ensures added <==> catalog.cap > 0 && !Has(old(live), Catalog.KeyOf(endpoint))
      ensures !added ==> live == old(live) && unchanged(catalog)
      ensures !added && ref.Some? ==> ref.value in live && live[ref.value].key == Catalog.KeyOf(endpoint)
      ensures !added && ref.None? ==> !Has(live, Catalog.KeyOf(endpoint))
      ensures added ==>
                && ref.Some? && ref.value.generation == catalog.allocs == old(catalog.allocs) + 1
                && ref.value in live && live[ref.value] == NewEntry(Catalog.KeyOf(endpoint))
                && forall r :: r in live ==> r in old(live) || r == ref.value
    {
      hide Scheduled, Queued, Metered, Catalogued, Linked, Sound, HasNode, Shrinks, SameKeys, SameRoutes, Catalog.KeyOf;
      StaysKnown(live, catalog.allocs, nodes);
      ghost var was, n := live, catalog.allocs;
      ref, added := Enter(endpoint, now);
      if added {
        live := Surviving(live, catalog.entries)[ref.value := NewEntry(Catalog.KeyOf(endpoint))];
        Entered(was, Surviving(was, catalog.entries), ref.value, endpoint, n);
      }
    }

    /** What the catalogue makes of it. */
    method Enter(endpoint: Endpoint, now: int) returns (ref: Option<Ref>, added: bool)
      requires Sound() && Linked(live, catalog.entries) && catalog.allocs < Catalog.GENERATIONS
      requires forall r :: r in live ==> r.generation <= catalog.allocs
      modifies catalog
      ensures Sound() && catalog.cap == old(catalog.cap)
      ensures added <==> catalog.cap > 0 && !Has(live, Catalog.KeyOf(endpoint))
      ensures !added ==> unchanged(catalog)
      ensures !added && ref.Some? ==> ref.value in live && live[ref.value].key == Catalog.KeyOf(endpoint)
      ensures !added && ref.None? ==> !Has(live, Catalog.KeyOf(endpoint))
      ensures added ==>
                && ref.Some? && ref.value.generation == catalog.allocs == old(catalog.allocs) + 1 && ref.value !in live
                && Linked(Surviving(live, catalog.entries)[ref.value := NewEntry(Catalog.KeyOf(endpoint))], catalog.entries)
    {
      hide Catalog.SlotsOk, Catalog.TableOk, Catalog.KeysDistinct, Catalog.IndexOf, Linked, Catalog.KeyOf, Catalog.Live;
      ghost var was := catalog.entries;
      var key := Catalog.KeyOf(endpoint);
      Catalog.SlotsFacts(catalog.entries, catalog.free, catalog.size, catalog.counts, catalog.born, catalog.allocs);
      var slot, more, victim := catalog.Upsert(endpoint, now);
      LinkedFind(live, was, key, slot);
      added := more;
      if !added && slot == ProbeTable.NO_SLOT {
        return None, false;
      }
      Catalog.SlotsFacts(catalog.entries, catalog.free, catalog.size, catalog.counts, catalog.born, catalog.allocs);
      ref := Some(Catalog.Ref(slot, catalog.entries[slot].generation));
      if added {
        LinkedAfterUpsert(live, was, catalog.entries, slot, victim, key, ref.value.generation,
                          catalog.entries[slot].firstSeen, old(catalog.allocs));
      }
    }

    /** The books with the new entry in hand. */
    lemma Entered(was: Live, rest: Live, ref: Ref, endpoint: Endpoint, n: nat)
      requires Scheduled(was, Plan(), None, n) && Queued(was, features, None, checks, n)
      requires Metered(was, spent, checks, n) && Catalogued(was, n, nodes)
      requires rest == Surviving(was, catalog.entries) && ref.generation == n + 1
      requires CanAsk(endpoint, nodes) && !Has(was, Catalog.KeyOf(endpoint))
      ensures var now := rest[ref := NewEntry(Catalog.KeyOf(endpoint))];
              && Scheduled(now, Plan(), Some(ref), n + 1) && Queued(now, features, None, checks, n + 1)
              && Metered(now, spent, checks, n + 1) && Catalogued(now, n + 1, nodes)
    {
      hide Scheduled, Queued, Metered, Catalogued, Linked, Sound, HasNode, Shrinks, SameKeys, SameRoutes, Catalog.KeyOf, Catalog.Current;
      var key := Catalog.KeyOf(endpoint);
      SurvivingShrinks(was, catalog.entries);
      ShrinkKeepsSchedule(was, rest, Plan(), None, n);
      ShrinkKeepsChecks(was, rest, features, None, checks, spent, n);
      ShrinkKeepsCatalogue(was, rest, n, nodes);
      ListedHasNode(endpoint, nodes);
      AllocateKeeps(rest, Plan(), n, ref, key);
      AllocateKeepsChecks(rest, features, checks, spent, n, ref, key);
      AllocateKeepsCatalogue(rest, n, ref, key, nodes);
    }

    /** New entries may have come and old ones gone; those that stayed are as
        they were. */
    twostate predicate Learnt()
      reads this, catalog
    {
      && catalog.allocs >= old(catalog.allocs)
      && forall r :: r in live && r.generation <= old(catalog.allocs) ==> r in old(live) && live[r] == old(live)[r]
    }

    /** A node that was listed: filed among those never asked, exactly if it is
        new, can be asked and can be reached. */
    method Learn(listed: Listed, now: int)
      requires Valid() && catalog.allocs < Catalog.GENERATIONS
      modifies `live, `neverAsked, catalog
      ensures Valid() && Learnt() && catalog.allocs <= old(catalog.allocs) + 1 && catalog.cap == old(catalog.cap)
      ensures var isNew := CanAsk(listed.endpoint, nodes) && !listed.own && catalog.cap > 0
                           && !Has(old(live), Catalog.KeyOf(listed.endpoint));
              if !isNew then live == old(live) && neverAsked == old(neverAsked) && catalog.allocs == old(catalog.allocs)
              else exists ref :: Filed(ref, listed, neverAsked, old(neverAsked), live, old(live))
    {
      hide Scheduled, Queued, Metered, Catalogued, Linked, Sound, Catalog.KeyOf;
      if !CanAsk(listed.endpoint, nodes) || listed.own {
        return;
      }
      var ref, added := Upsert(listed.endpoint, now);
      if ref.None? {
        return;
      }
      NoteSign(ref.value, false, now, if added then ref else None);
      if !added {
        return;
      }
      if listed.routable {
        PushKeeps(live, Plan(), ref.value, true, catalog.allocs);
        neverAsked := neverAsked + [ref.value];
      } else {
        MarkUnroutable(ref.value);
      }
      assert Filed(ref.value, listed, neverAsked, old(neverAsked), live, old(live));
    }

    method MarkUnroutable(ref: Ref)
      requires Keeps(Some(ref), None) && ref in live && live[ref].state.New?
      modifies `live, catalog
      ensures Valid() && live == old(live)[ref := old(live[ref]).(state := Catalog.Unroutable)]
      ensures catalog.allocs == old(catalog.allocs) && catalog.cap == old(catalog.cap)
    {
      hide Scheduled, Queued, Metered, Catalogued, Linked, Sound, Shrinks, SameKeys, SameRoutes;
      ghost var was := live;
      var e := live[ref].(state := Catalog.Unroutable);
      EditShrinks(live, ref, e);
      UnroutableKeeps(live, Plan(), ref, catalog.allocs);
      SetState(ref, e);
      live := live[ref := e];
      ShrinkKeepsChecks(was, live, features, None, checks, spent, catalog.allocs);
      ShrinkKeepsCatalogue(was, live, catalog.allocs, nodes);
    }

    // --- Taking from the queues ----------------------------------------------------

    /** The first entry of `queue` that is still current, if it is due; stale
        references before it are dropped. */
    method TakeDue(queue: seq<Ref>, minAgeMs: int, now: int) returns (rest: seq<Ref>, taken: Option<Ref>)
      requires Linked(live, catalog.entries)
      ensures Took(live, queue, rest, taken)
      ensures taken.Some? ==> taken.value in live && Due(live[taken.value], minAgeMs, catalog.epochMs, now)
      ensures taken.None? ==> NoneDue(live, rest, minAgeMs, catalog.epochMs, now)
    {
      hide Linked, Due;
      rest, taken := queue, None;
      while rest != []
        invariant Took(live, queue, rest, None)
        decreases |rest|
      {
        Popped(rest);
        var ref := rest[0];
        Agrees(ref);
        if !catalog.IsCurrent(ref) {
          rest := rest[1..];
          continue;
        }
        if !Due(live[ref], minAgeMs, catalog.epochMs, now) {
          return;
        }
        return rest[1..], Some(ref);
      }
    }

    /** Nothing at the head of any of the four queues is due. */
    ghost predicate Idle(q1: seq<Ref>, q2: seq<Ref>, q3: seq<Ref>, q4: seq<Ref>, now: int)
      reads this, catalog
    {
      && NoneDue(live, q1, 0, catalog.epochMs, now) && NoneDue(live, q2, config.retryDelayMs, catalog.epochMs, now)
      && NoneDue(live, q3, config.revisitIntervalMs, catalog.epochMs, now)
      && NoneDue(live, q4, config.silentRevisitIntervalMs, catalog.epochMs, now)
    }

    /** What the four queues would be without the first entry that is due,
        looked for in order. */
    method PickNext(now: int) returns (q1: seq<Ref>, q2: seq<Ref>, q3: seq<Ref>, q4: seq<Ref>, taken: Option<Ref>, first: bool)
      requires Linked(live, catalog.entries)
      ensures Refiled(live, Plan(), None, Schedule(q1, q2, q3, q4, deferred, asks), taken)
      ensures taken.Some? ==> taken.value in live
      ensures taken.None? ==> Idle(q1, q2, q3, q4, now)
      // A queue is looked at only when nothing is due in those before it.
      ensures first ==> taken.Some? && Took(live, neverAsked, q1, taken)
      ensures !first || q2 != retry ==> NoneDue(live, q1, 0, catalog.epochMs, now)
      ensures q3 != revisit ==> NoneDue(live, q1, 0, catalog.epochMs, now) && NoneDue(live, q2, config.retryDelayMs, catalog.epochMs, now)
      ensures q4 != revisitSilent ==>
                && NoneDue(live, q1, 0, catalog.epochMs, now) && NoneDue(live, q2, config.retryDelayMs, catalog.epochMs, now)
                && NoneDue(live, q3, config.revisitIntervalMs, catalog.epochMs, now)
    {
      hide Took, Refiled, NoneDue, Due, Count, Linked;
      var again: Option<Ref>, known: Option<Ref>, silent: Option<Ref> := None, None, None;
      q2, q3, q4 := retry, revisit, revisitSilent;
      TookNothing(live, retry);
      TookNothing(live, revisit);
      TookNothing(live, revisitSilent);
      q1, taken := TakeDue(neverAsked, 0, now);
      first := taken.Some?;
      if !first {
        q2, again := TakeDue(retry, config.retryDelayMs, now);
      }
      if Either(taken, again).None? {
        q3, known := TakeDue(revisit, config.revisitIntervalMs, now);
      }
      if Either(taken, Either(again, known)).None? {
        q4, silent := TakeDue(revisitSilent, config.silentRevisitIntervalMs, now);
      }
      TakingRefiles(live, Plan(), Schedule(q1, q2, q3, q4, deferred, asks), taken, again, known, silent);
      taken := Either(taken, Either(again, Either(known, silent)));
    }

    /** Takes the first entry due in the four queues. */
    method TakeNext(now: int) returns (taken: Option<Ref>, first: bool)
      requires Valid()
      modifies `neverAsked, `retry, `revisit, `revisitSilent
      ensures Keeps(taken, None)
      ensures taken.Some? ==>
                taken.value in live && !live[taken.value].state.Unroutable? && HasNode(live[taken.value].key, nodes)
      ensures taken.None? ==> Idle(neverAsked, retry, revisit, revisitSilent, now)
    {
      hide Scheduled, Queued, Metered, Catalogued, Linked, Sound, Refiled, NoneDue, Due, HasNode, Took;
      var q1, q2, q3, q4;
      q1, q2, q3, q4, taken, first := PickNext(now);
      RefilingKeeps(live, Plan(), None, Schedule(q1, q2, q3, q4, deferred, asks), taken, catalog.allocs);
      neverAsked, retry, revisit, revisitSilent := q1, q2, q3, q4;
      if taken.Some? {
        NeverDropped(live, Plan(), taken.value, catalog.allocs, nodes);
      }
    }

    // --- Asking ---------------------------------------------------------------------

    /** Sends a find_node to the entry in hand. There is a node to send it through. */
    method Ask(ref: Ref, now: int)
      requires Keeps(Some(ref), None) && ref in live
      modifies `live, `outstanding, `asks
      ensures HasNode(old(live)[ref].key, nodes) && !old(live)[ref].state.Unroutable?
      ensures Valid() && ref !in old(asks) && asks == old(asks) + {ref}
      ensures live == old(live)[ref := old(live)[ref].(lastQueried := catalog.Stamp(now))]
    {
      hide Scheduled, Queued, Metered, Catalogued, Linked, Sound, HasNode;
      NeverDropped(live, Plan(), ref, catalog.allocs, nodes);
      Touch(ref, live[ref].(lastQueried := catalog.Stamp(now)), Some(ref), None);
      AskKeeps(live, Plan(), ref, catalog.allocs);
      outstanding := outstanding + 1;
      asks := asks + {ref};
    }

    method Defer(ref: Ref, first: bool)
      requires Keeps(Some(ref), None) && ref in live
      modifies `deferred
      ensures Valid() && deferred == old(deferred) + [Deferred(ref, first)]
    {
      hide Scheduled, Queued, Metered, Catalogued, Linked, Sound, HasNode;
      PushKeeps(live, Plan(), ref, first, catalog.allocs);
      deferred := deferred + [Deferred(ref, first)];
    }

    /** Nothing but when they were last asked. */
    twostate predicate OnlyStamped()
      reads this
    {
      && live.Keys == old(live.Keys)
      && forall r :: r in live ==> live[r] == old(live)[r].(lastQueried := live[r].lastQueried)
    }

    /** The next entry that is due is asked, or set aside while its host is busy.
        None is ever found that would have to be dropped from the rounds. */
    method DispatchNext(now: int) returns (handled: Option<Ref>)
      requires Valid()
      modifies `live, `neverAsked, `retry, `revisit, `revisitSilent, `deferred, `outstanding, `asks
      ensures Valid() && OnlyStamped()
      ensures handled.None? ==> asks == old(asks) && deferred == old(deferred)
      ensures handled.Some? ==>
                && handled.value in live
                && (|| (asks == old(asks) + {handled.value} && deferred == old(deferred))
                    || (asks == old(asks) && exists first :: deferred == old(deferred) + [Deferred(handled.value, first)]))
      ensures outstanding <= old(outstanding) + if handled.Some? then 1 else 0
      ensures handled.None? ==> Idle(neverAsked, retry, revisit, revisitSilent, now)
    {
      hide Scheduled, Queued, Metered, Catalogued, Linked, Sound, NoneDue, HasNode, Due, Times;
      var first: bool;
      handled, first := TakeNext(now);
      if handled.None? {
        return;
      }
      var e := live[handled.value];
      if e.state.Unroutable? || !HasNode(e.key, nodes) {
        assert false;
      }
      var hostBusy: bool := *;
      if hostBusy {
        Defer(handled.value, first);
      } else {
        Ask(handled.value, now);
      }
    }

    /** Entries set aside, asked once their host has room again. */
    method DispatchDeferred(budget: int, now: int) returns (sent: nat)
      requires Valid()
      modifies `live, `deferred, `outstanding, `asks
      ensures Valid() && OnlyStamped() && (budget >= 0 ==> sent <= budget)
      ensures |deferred| <= old(|deferred|) - sent && outstanding == old(outstanding) + sent
    {
      hide Scheduled, Queued, Metered, Catalogued, Linked, Sound;
      sent := 0;
      var scan := if |deferred| < DEFERRED_SCAN_PER_TICK then |deferred| else DEFERRED_SCAN_PER_TICK;
      var i := 0;
      while i < scan && sent < budget
        invariant 0 <= i <= scan && |deferred| >= scan - i
        invariant Valid() && OnlyStamped() && (budget >= 0 ==> sent <= budget)
        invariant |deferred| <= old(|deferred|) - sent && outstanding == old(outstanding) + sent
      {
        var asked := TryDeferred(now);
        sent := sent + if asked then 1 else 0;
        i := i + 1;
      }
    }

    /** The first entry set aside: dropped if stale, put back if its host is
        still busy, asked otherwise. */
    method TryDeferred(now: int) returns (asked: bool)
      requires Valid() && deferred != []
      modifies `live, `deferred, `outstanding, `asks
      ensures Valid() && OnlyStamped()
      ensures outstanding == old(outstanding) + if asked then 1 else 0
      ensures asked ==> deferred == old(deferred[1..]) && asks == old(asks) + {old(deferred[0].ref)}
      ensures !asked ==> asks == old(asks) && live == old(live)
      ensures !asked ==> deferred == old(deferred[1..]) + if old(deferred[0].ref) in live then [old(deferred[0])] else []
    {
      hide Scheduled, Queued, Metered, Catalogued, Linked, Sound;
      var d := deferred[0];
      PopDeferredKeeps(live, Plan(), catalog.allocs);
      deferred := deferred[1..];
      asked := false;
      Agrees(d.ref);
      if !catalog.IsCurrent(d.ref) {
        StaleKeeps(live, Plan(), d.ref, catalog.allocs);
        return;
      }
      var hostBusy: bool := *;
      if hostBusy {
        Defer(d.ref, d.firstContact);
      } else {
        Ask(d.ref, now);
        asked := true;
      }
    }

    // --- Replies ----------------------------------------------------------------------

    /** What an answer, or the lack of one, makes of an entry. */
    function AfterReply(e: Entry, status: Status, stamp: UInt32): Entry {
      match status
      case Throttled => e
      case Timeout =>
        var failures := if e.failures < 255 then e.failures + 1 else e.failures;
        var missed := e.(failures := failures);
        if failures < config.failuresToGiveUp then missed
        else missed.(state := if e.answered then Catalog.Gone else Catalog.Silent)
      case Response => e.(failures := 0, answered := stamp != 0, state := Catalog.Responsive)
      case Error => e.(failures := 0, answered := stamp != 0, state := Catalog.Responsive)
    }

    /** Whether another try is due before the entry counts as silent or gone. */
    predicate Again(e: Entry, status: Status) {
      status.Throttled? || (status.Timeout? && e.failures < config.failuresToGiveUp)
    }

    /** Files the entry whose answer came back in the queue it belongs in. */
    method FileReply(ref: Ref, status: Status, now: int)
      requires Keeps(Some(ref), None) && ref in live && !live[ref].state.Unroutable?
      modifies `live, `retry, `revisit, `revisitSilent, catalog
      ensures catalog.allocs == old(catalog.allocs)
      ensures Valid() && live == old(live)[ref := AfterReply(old(live)[ref], status, old(catalog.Stamp(now)))]
      ensures var again := Again(live[ref], status);
              && retry == old(retry) + (if again then [ref] else [])
              && revisit == old(revisit) + (if status.Response? || status.Error? then [ref] else [])
              && revisitSilent == old(revisitSilent) + if status.Timeout? && !again then [ref] else []
    {
      hide Keeps, HasNode, AfterReply;
      var e := AfterReply(live[ref], status, catalog.Stamp(now));
      ReplyKeeps(live[ref], status, catalog.Stamp(now));
      Amend(ref, e, Some(ref), None);
      if status.Response? || status.Error? {
        NoteSign(ref, true, now, Some(ref));
      }
      Enqueue(ref, Again(e, status), status.Timeout?);
    }

    lemma ReplyKeeps(e: Entry, status: Status, stamp: UInt32)
      requires !e.state.Unroutable?
      ensures var e' := AfterReply(e, status, stamp); SameChecks(e, e') && !e'.state.Unroutable?
    {
    }

    method Enqueue(ref: Ref, again: bool, missed: bool)
      requires Keeps(Some(ref), None) && ref in live
      modifies `retry, `revisit, `revisitSilent
      ensures Valid()
      ensures retry == old(retry) + (if again then [ref] else [])
      ensures revisit == old(revisit) + (if !again && !missed then [ref] else [])
      ensures revisitSilent == old(revisitSilent) + if !again && missed then [ref] else []
    {
      hide Scheduled, Queued, Metered, Catalogued, Linked, Sound, HasNode;
      PushKeeps(live, Plan(), ref, false, catalog.allocs);
      if again {
        retry := retry + [ref];
      } else if missed {
        revisitSilent := revisitSilent + [ref];
      } else {
        revisit := revisit + [ref];
      }
    }

    /** The nodes a response lists, all of which might be new. */
    method LearnFrom(listed: seq<Listed>, now: int)
      requires Valid() && catalog.allocs + |listed| <= Catalog.GENERATIONS
      modifies `live, `neverAsked, catalog
      ensures Valid() && Learnt() && catalog.allocs <= old(catalog.allocs) + |listed|
    {
      hide Keeps;
      for i := 0 to |listed|
        invariant Valid() && Learnt() && catalog.allocs <= old(catalog.allocs) + i
      {
        Learn(listed[i], now);
      }
    }

    /** The answer to a find_node, or that there will be none. */
    method OnReply(ref: Ref, status: Status, listed: seq<Listed>, now: int)
      requires Valid() && ref in asks && catalog.allocs + |listed| <= Catalog.GENERATIONS
      modifies `live, `neverAsked, `retry, `revisit, `revisitSilent, `features, `outstanding, `asks, catalog
      ensures catalog.allocs <= old(catalog.allocs) + |listed|
      ensures Valid() && asks == old(asks) - {ref} && outstanding == old(outstanding) - 1
      // An entry that still lives goes back to one queue, by what came of it.
      ensures ref in old(live) ==>
                var e := AfterReply(old(live)[ref], status, old(catalog.Stamp(now)));
                var again := Again(e, status);
                && (ref in live ==> live[ref] == e.(queued := live[ref].queued))
                && retry == old(retry) + (if again then [ref] else [])
                && revisit == old(revisit) + (if status.Response? || status.Error? then [ref] else [])
                && revisitSilent == old(revisitSilent) + if status.Timeout? && !again then [ref] else []
      ensures ref !in old(live) ==> retry == old(retry) && revisit == old(revisit) && revisitSilent == old(revisitSilent)
      // A node is learnt of only from a response.
      ensures !status.Response? ==> neverAsked == old(neverAsked) && live.Keys == old(live.Keys)
    {
      hide Keeps, AfterReply;
      TakeBack(ref, status, now);
      if status.Response? {
        LearnFrom(listed, now);
      }
    }

    /** The query is no longer out, and its entry is filed by the answer. */
    method TakeBack(ref: Ref, status: Status, now: int)
      requires Valid() && ref in asks
      modifies `live, `retry, `revisit, `revisitSilent, `features, `outstanding, `asks, catalog
      ensures catalog.allocs == old(catalog.allocs)
      ensures Valid() && asks == old(asks) - {ref} && outstanding == old(outstanding) - 1
      ensures ref in old(live) ==>
                var e := AfterReply(old(live)[ref], status, old(catalog.Stamp(now)));
                var again := Again(e, status);
                && ref in live && ref.generation <= catalog.allocs && live[ref] == e.(queued := live[ref].queued)
                && retry == old(retry) + (if again then [ref] else [])
                && revisit == old(revisit) + (if status.Response? || status.Error? then [ref] else [])
                && revisitSilent == old(revisitSilent) + if status.Timeout? && !again then [ref] else []
      ensures ref !in old(live) ==> retry == old(retry) && revisit == old(revisit) && revisitSilent == old(revisitSilent)
      ensures live.Keys == old(live.Keys)
    {
      hide Keeps, AfterReply;
      Unask(ref);
      if !catalog.IsCurrent(ref) {
        LetGo(ref);
        return;
      }
      FileReply(ref, status, now);
      if status.Response? || status.Error? {
        QueueFeatures(ref);
      }
    }

    method Unask(ref: Ref)
      requires Valid() && ref in asks
      modifies `outstanding, `asks
      ensures Keeps(Some(ref), None) && asks == old(asks) - {ref} && outstanding == old(outstanding) - 1
      ensures ref in live ==> !live[ref].state.Unroutable? && ref.generation <= catalog.allocs
      ensures ref in live <==> catalog.IsCurrent(ref)
    {
      hide Scheduled, Queued, Metered, Catalogued, Linked, Sound, HasNode;
      AnswerKeeps(live, Plan(), ref, catalog.allocs);
      StaysKnown(live, catalog.allocs, nodes);
      Agrees(ref);
      outstanding := outstanding - 1;
      asks := asks - {ref};
    }

    lemma LetGo(ref: Ref)
      requires Keeps(Some(ref), None) && ref !in live
      ensures Valid()
    {
      hide Scheduled, Queued, Metered, Catalogued, Linked, Sound;
      StaleKeeps(live, Plan(), ref, catalog.allocs);
    }

    // --- Feature checks ---------------------------------------------------------------

    method QueueFeatures(ref: Ref)
      requires Valid() && ref in live
      modifies `live, `features
      ensures Valid()
      ensures var e := old(live)[ref]; live == old(live)[ref := e.(queued := e.queued || !FeaturesDone(e.progress))]
      ensures var e := old(live)[ref]; features == old(features) + if e.queued || FeaturesDone(e.progress) then [] else [ref]
    {
      hide Scheduled, Queued, Metered, Catalogued, Linked, Sound, SameKeys, SameRoutes;
      if FeaturesDone(live[ref].progress) || live[ref].queued {
        assert live == live[ref := live[ref]];
        return;
      }
      SetQueued(ref, true);
      PushFeatureKeeps(live, features, ref, checks, catalog.allocs);
      features := features + [ref];
    }

    /** Sets the flag with the reference in hand for the feature queue, or
        clears it as the reference leaves for good. */
    method SetQueued(ref: Ref, on: bool)
      requires Keeps(None, if on then None else Some(ref)) && ref in live && (on ==> !live[ref].queued)
      modifies `live
      ensures Keeps(None, if on then Some(ref) else None)
      ensures live == old(live)[ref := old(live)[ref].(queued := on)]
    {
      hide Scheduled, Queued, Metered, Catalogued, Linked, Sound, SameKeys, SameRoutes;
      ghost var was := live;
      var e := live[ref].(queued := on);
      StaysKnown(live, catalog.allocs, nodes);
      EditShrinks(live, ref, e);
      FlagKeeps(live, features, ref, checks, catalog.allocs);
      MeterKeeps(live, ref, e, spent, checks, catalog.allocs);
      LinkedTouch(live, catalog.entries, ref, e);
      live := live[ref := e];
      ShrinkKeepsSchedule(was, live, Plan(), None, catalog.allocs);
      ShrinkKeepsCatalogue(was, live, catalog.allocs, nodes);
    }

    /** Feature checks for entries whose hosts have room. */
    method DispatchFeatures(budget: int) returns (sent: nat)
      requires Valid()
      modifies `live, `features, `outstanding, `checks
      ensures Valid() && (if budget >= 0 then sent <= budget else sent == 0)
      ensures outstanding == old(outstanding) + sent
      ensures live.Keys == old(live.Keys)
    {
      hide Scheduled, Queued, Metered, Catalogued, Linked, Sound;
      sent := 0;
      var scan := if |features| < DEFERRED_SCAN_PER_TICK then |features| else DEFERRED_SCAN_PER_TICK;
      var i := 0;
      while i < scan && sent < budget
        invariant 0 <= i <= scan && |features| >= scan - i
        invariant Valid() && (if budget >= 0 then sent <= budget else sent == 0)
        invariant outstanding == old(outstanding) + sent && live.Keys == old(live.Keys)
      {
        var asked := TryFeature();
        sent := sent + if asked then 1 else 0;
        i := i + 1;
      }
    }

    /** Answering, with checks left and a node to make them through. */
    predicate Worthwhile(e: Entry) {
      e.state.Responsive? && !FeaturesDone(e.progress) && HasNode(e.key, nodes)
    }

    /** The first reference of the feature queue: dropped if stale, its flag
        cleared if there is nothing to ask, put back if its host is busy, asked
        otherwise. */
    method TryFeature() returns (asked: bool)
      requires Valid() && features != []
      modifies `live, `features, `outstanding, `checks
      ensures Valid() && live.Keys == old(live.Keys)
      ensures outstanding == old(outstanding) + if asked then 1 else 0
      ensures |features| >= old(|features|) - 1
      ensures var ref := old(features[0]);
              asked ==>
                && ref in live && live == old(live) && live[ref].state.Responsive? && !FeaturesDone(live[ref].progress)
                && ref !in old(checks) && checks == old(checks)[ref := NextCheck(live[ref].progress)]
      ensures !asked ==> checks == old(checks)
      // With nothing to ask the flag is cleared; with its host busy the entry goes to the back.
      ensures var ref := old(features[0]);
              !asked ==>
                if ref !in live then live == old(live) && features == old(features)[1..]
                else if old(Worthwhile(live[ref])) then live == old(live) && features == old(features)[1..] + [ref]
                else live == old(live)[ref := old(live)[ref].(queued := false)] && features == old(features)[1..]
    {
      hide Scheduled, Queued, Metered, Catalogued, Linked, Sound, HasNode;
      var ref := features[0];
      PopFeatureKeeps(live, features, checks, catalog.allocs);
      features := features[1..];
      asked := false;
      Agrees(ref);
      if !catalog.IsCurrent(ref) {
        StaleFeatureKeeps(live, features, ref, checks, catalog.allocs);
        return;
      }
      var e := live[ref];
      if !Worthwhile(e) {
        SetQueued(ref, false);
        return;
      }
      var hostBusy: bool := *;
      if hostBusy {
        PushFeatureKeeps(live, features, ref, checks, catalog.allocs);
        features := features + [ref];
        return;
      }
      AskFeatureKeeps(live, features, ref, checks, spent, catalog.allocs);
      outstanding := outstanding + 1;
      checks := checks[ref := NextCheck(e.progress)];
      asked := true;
    }

    /** The answer to a feature query, or that there will be none. */
    method OnFeatureReply(ref: Ref, check: Check, status: Status, listed: seq<Listed>, now: int)
      requires Valid() && ref in checks && checks[ref] == check && catalog.allocs + |listed| <= Catalog.GENERATIONS
      modifies `live, `neverAsked, `features, `outstanding, `checks, `spent, catalog
      ensures catalog.allocs <= old(catalog.allocs) + |listed|
      ensures Valid() && checks == old(checks) - {ref} && outstanding == old(outstanding) - 1
      ensures spent == Charged(old(spent), ref, status)
      ensures ref in old(live) && ref in live ==>
                var p := AfterCheck(old(live)[ref].progress, check, status);
                live[ref] == old(live)[ref].(progress := p, queued := !FeaturesDone(p))
      ensures ref in old(live) ==>
                var p := AfterCheck(old(live)[ref].progress, check, status);
                features == old(features) + if FeaturesDone(p) then [] else [ref]
      ensures ref !in old(live) ==> features == old(features)
    {
      hide Keeps, AfterCheck;
      var current := EndCheck(ref, check, status);
      if current && status.Response? {
        LearnFrom(listed, now);
      }
    }

    /** The feature query is no longer out, and its entry is queued again if
        there is more to check. */
    method EndCheck(ref: Ref, check: Check, status: Status) returns (current: bool)
      requires Valid() && ref in checks && checks[ref] == check
      modifies `live, `features, `outstanding, `checks, `spent
      ensures Valid() && checks == old(checks) - {ref} && outstanding == old(outstanding) - 1
      ensures spent == Charged(old(spent), ref, status) && current == (ref in old(live))
      ensures !current ==> live == old(live) && features == old(features)
      ensures current ==>
                var p := AfterCheck(old(live)[ref].progress, check, status);
                && ref.generation <= catalog.allocs
                && live == old(live)[ref := old(live)[ref].(progress := p, queued := !FeaturesDone(p))]
                && features == old(features) + if FeaturesDone(p) then [] else [ref]
    {
      hide Keeps, AfterCheck;
      Sees(ref);
      current := catalog.IsCurrent(ref);
      if current {
        BookCheck(ref, check, status);
        Requeue(ref);
      } else {
        BookStale(ref, status);
      }
    }

    method BookStale(ref: Ref, status: Status)
      requires Valid() && ref in checks && ref !in live
      modifies `outstanding, `checks, `spent
      ensures Valid() && checks == old(checks) - {ref} && outstanding == old(outstanding) - 1
      ensures spent == Charged(old(spent), ref, status)
    {
      hide Scheduled, Queued, Metered, Catalogued, Linked, Sound;
      FewerChecks(checks, ref);
      StaleAnswerKeeps(live, features, ref, checks, spent, catalog.allocs, status);
      outstanding, checks, spent := outstanding - 1, checks - {ref}, Charged(spent, ref, status);
    }

    /** Back to the feature queue, unless every check is settled. */
    method Requeue(ref: Ref)
      requires Keeps(None, Some(ref)) && ref in live && live[ref].queued
      modifies `live, `features
      ensures Valid()
      ensures var e := old(live)[ref]; live == old(live)[ref := e.(queued := !FeaturesDone(e.progress))]
      ensures features == old(features) + if FeaturesDone(old(live)[ref].progress) then [] else [ref]
    {
      hide Scheduled, Queued, Metered, Catalogued, Linked, Sound;
      if FeaturesDone(live[ref].progress) {
        SetQueued(ref, false);
      } else {
        PushFeatureKeeps(live, features, ref, checks, catalog.allocs);
        assert live == live[ref := live[ref].(queued := true)];
        features := features + [ref];
      }
    }

    /** Books the answer of a living entry; the entry is then in hand. */
    method BookCheck(ref: Ref, check: Check, status: Status)
      requires Valid() && ref in checks && checks[ref] == check && ref in live
      modifies `live, `outstanding, `checks, `spent
      ensures Keeps(None, Some(ref)) && checks == old(checks) - {ref} && outstanding == old(outstanding) - 1
      ensures var e := old(live)[ref]; live == old(live)[ref := e.(progress := AfterCheck(e.progress, check, status))]
      ensures live[ref].queued && ref.generation <= catalog.allocs
      ensures spent == Charged(old(spent), ref, status)
    {
      hide Scheduled, Queued, Metered, Catalogued, Linked, Sound, SameKeys, SameRoutes, AfterCheck, HasNode;
      StaysKnown(live, catalog.allocs, nodes);
      ghost var was := live;
      FewerChecks(checks, ref);
      AnswerFeatureKeeps(live, features, ref, checks, spent, catalog.allocs, status);
      var e := live[ref].(progress := AfterCheck(live[ref].progress, check, status));
      EditShrinks(live, ref, e);
      LinkedTouch(live, catalog.entries, ref, e);
      live := live[ref := e];
      outstanding, checks, spent := outstanding - 1, checks - {ref}, Charged(spent, ref, status);
      ShrinkKeepsSchedule(was, live, Plan(), None, catalog.allocs);
      ShrinkKeepsCatalogue(was, live, catalog.allocs, nodes);
    }

    // --- Ticks ----------------------------------------------------------------------

    method SetCap(cap: int)
      requires Valid()
      modifies catalog
      ensures Valid() && catalog.cap == Catalog.Clamp(cap) && catalog.allocs == old(catalog.allocs)
    {
      hide Scheduled, Queued, Metered, Catalogued, Linked;
      catalog.SetCap(cap);
    }

    /** Slower when this machine cannot keep up, faster while batches fill. */
    method Pace(late: bool)
      requires Valid()
      modifies `batch
      ensures Valid() && MIN_BATCH <= batch <= MAX_BATCH
      // Halved when late, grown by a quarter and one while batches fill, between the two bounds.
      ensures batch ==
              if late then Max(MIN_BATCH, old(batch) / 2)
              else if lastTickFull then Min(MAX_BATCH, old(batch) + old(batch) / 4 + 1)
              else old(batch)
    {
      hide Scheduled, Queued, Metered, Catalogued, Linked, Sound;
      if late {
        batch := if batch / 2 < MIN_BATCH then MIN_BATCH else batch / 2;
      } else if lastTickFull {
        var more := batch + batch / 4 + 1;
        batch := if more > MAX_BATCH then MAX_BATCH else more;
      }
    }

    /** Entries that are due, until `limit` have been dealt with, nothing is due
        or the RPC layer is backlogged. */
    method DispatchUpTo(limit: int, already: nat, now: int) returns (sent: nat)
      requires Valid() && already <= limit
      modifies `live, `neverAsked, `retry, `revisit, `revisitSilent, `deferred, `outstanding, `asks
      ensures Valid() && already <= sent <= limit
      ensures outstanding <= old(outstanding) + sent - already
    {
      hide Keeps, NoneDue;
      sent := already;
      var backlogged: bool := *;
      while sent < limit && !backlogged
        invariant Valid() && already <= sent <= limit
        invariant outstanding <= old(outstanding) + sent - already
        decreases limit - sent
      {
        var handled := DispatchNext(now);
        if handled.None? {
          return;
        }
        sent := sent + 1;
        backlogged := *;
      }
    }

    /** Discovery and rechecks first, keeping a share of the batch for feature
        checks, which get whatever the scan leaves. */
    method Dispatch(now: int) returns (sent: nat)
      requires Valid() && MIN_BATCH <= batch
      modifies `live, `neverAsked, `retry, `revisit, `revisitSilent, `deferred, `features, `outstanding, `asks, `checks
      ensures Valid() && sent <= batch && outstanding <= old(outstanding) + sent
    {
      hide Keeps, OnlyStamped;
      var scanShare := batch - if batch / FEATURE_SHARE_DIVISOR > 1 then batch / FEATURE_SHARE_DIVISOR else 1;
      sent := 0;
      var backlogged: bool := *;
      if !backlogged {
        sent := DispatchDeferred(scanShare, now);
      }
      sent := DispatchUpTo(scanShare, sent, now);
      backlogged := *;
      if !backlogged {
        var checked := DispatchFeatures(batch - sent);
        sent := sent + checked;
      }
      sent := DispatchUpTo(batch, sent, now);
    }

    /** One tick: at most a batch of queries goes out. */
    method Tick(now: int, late: bool, seeds: seq<Listed>)
      requires Valid() && catalog.allocs + |seeds| <= Catalog.GENERATIONS
      modifies this, catalog
      ensures Valid() && outstanding <= old(outstanding) + batch
      ensures spent == old(spent) && catalog.allocs <= old(catalog.allocs) + |seeds|
    {
      hide Keeps;
      Pace(late);
      Trim(TRIM_PER_TICK);
      var seedNow: bool := *;
      if neverAsked == [] && deferred == [] && outstanding == 0 && seedNow {
        LearnFrom(seeds, now);
      }
      var sent := Dispatch(now);
      NoteFull(sent >= batch);
    }

    method NoteFull(full: bool)
      requires Valid()
      modifies `lastTickFull
      ensures Valid() && lastTickFull == full
    {
      hide Scheduled, Queued, Metered, Catalogued, Linked, Sound;
      lastTickFull := full;
    }
  }

  // --- Whole runs ---------------------------------------------------------------------

  /** Any one event: a tick, an answer to a query that is out, a node heard of
      in a lookup, or the cap changed and entries evicted. What it lists could all
      be new within the first cycle of generations. */
  method Event(c: Crawler)
    requires c.Valid() && c.catalog.allocs < Catalog.GENERATIONS
    modifies c, c.catalog
    ensures c.Valid() && c.catalog.allocs < Catalog.GENERATIONS
  {
    hide *;
    var left := Left(c);
    var now: int, late: bool, status: Status, listed: seq<Listed>, node: Listed, n: nat := *, *, *, *, *, *;
    if |listed| > left {
      listed := [];
    }
    if
    case true => c.Tick(now, late, listed);
    case left > 0 => c.Learn(node, now);
    case true => c.SetCap(n);
    case true => c.Trim(n);
    case c.asks != {} =>
      var ref :| ref in c.asks;
      c.OnReply(ref, status, listed, now);
    case c.checks.Keys != {} =>
      var ref :| ref in c.checks.Keys;
      c.OnFeatureReply(ref, c.checks[ref], status, listed, now);
  }

  /** How many more allocations fit in the first cycle of generations. */
  method Left(c: Crawler) returns (left: nat)
    requires c.Valid() && c.catalog.allocs < Catalog.GENERATIONS
    ensures c.catalog.allocs + left < Catalog.GENERATIONS
    ensures left == Catalog.GENERATIONS - 1 - c.catalog.allocs
  {
    hide Scheduled, Queued, Metered, Catalogued, Linked, Catalog.SlotsOk, Catalog.TableOk, Catalog.KeysDistinct;
    left := Catalog.GENERATIONS - c.catalog.nextGeneration;
  }

  /** The reference of a live slot. */
  function RefOf(entries: seq<Catalog.Entry>, s: int): Ref
    requires 0 <= s < |entries| <= Catalog.MAX_CAP
  {
    Catalog.Ref(s, entries[s].generation)
  }

  /**
    After any events within one cycle of generations, for every slot the catalogue
    has in use: there is a node to ask it through, and its reference, slot and
    generation, is in exactly one of the five queues and the queries that are out if
    the address can be reached, and in none if it cannot. FeatureQueued is exactly
    being in the feature queue or being asked; and no entry, evicted or not, has been
    sent more than eight feature queries.
    */
  method AnyRun(nodes: Families, config: Config, cap: int, hash: Key -> nat, epochMs: int, events: nat) returns (c: Crawler)
    ensures c.nodes == nodes && c.catalog.Valid() && |c.catalog.entries| <= Catalog.MAX_CAP
    ensures forall s :: s in Catalog.Live(c.catalog.entries) ==>
              var e, ref := c.catalog.entries[s], RefOf(c.catalog.entries, s);
              && ref in c.live && c.live[ref].key == e.key && c.live[ref].state == e.state
              && HasNode(e.key, nodes)
              && Times(c.Plan(), ref) == (if e.state.Unroutable? then 0 else 1)
              && Count(c.features, ref) + (if ref in c.checks then 1 else 0) == if c.live[ref].queued then 1 else 0
    ensures forall r :: c.spent[r] + (if r in c.checks then 1 else 0) <= MAX_FEATURE_QUERIES
    ensures c.outstanding == |c.asks| + |c.checks|
  {
    hide Times, Count, HasNode, Catalog.TableOk, Catalog.KeysDistinct, Catalog.IndexOf;
    var catalog := new Catalog.NodeCatalog(cap, hash, epochMs);
    c := new Crawler(nodes, config, catalog);
    for i := 0 to events
      invariant c.Valid() && fresh(c) && fresh(c.catalog) && c.nodes == nodes && c.catalog.allocs < Catalog.GENERATIONS
    {
      Event(c);
    }
    Catalog.SlotsFacts(c.catalog.entries, c.catalog.free, c.catalog.size, c.catalog.counts, c.catalog.born, c.catalog.allocs);
    forall s | s in Catalog.Live(c.catalog.entries)
      ensures RefOf(c.catalog.entries, s) in c.live
    {
      assert Catalog.Current(c.catalog.entries, RefOf(c.catalog.entries, s));
    }
  }

  lemma MeterKeeps(live: Live, ref: Ref, e: Entry, spent: multiset<Ref>, checks: map<Ref, Check>, allocations: nat)
    requires Metered(live, spent, checks, allocations) && ref in live && e.progress == live[ref].progress
    ensures Metered(live[ref := e], spent, checks, allocations)
  {}

  /** Some entry has this key. */
  ghost predicate Has(live: Live, key: Key) {
    exists r :: r in live && live[r].key == key
  }

  /** What becomes of a node that is new: filed if it can be reached, noted if not. */
  ghost predicate Filed(ref: Ref, listed: Listed, now: seq<Ref>, was: seq<Ref>, live: Live, before: Live) {
    && ref in live && (forall r :: r in live ==> r in before || r == ref)
    && live[ref] == NewEntry(Catalog.KeyOf(listed.endpoint)).(state := if listed.routable then Catalog.New else Catalog.Unroutable)
    && now == was + if listed.routable then [ref] else []
  }

  lemma StaysKnown(live: Live, allocations: nat, nodes: Families)
    requires Catalogued(live, allocations, nodes)
    ensures forall r :: r in live ==> r.generation <= allocations
    ensures forall r :: r in live ==> HasNode(live[r].key, nodes)
  {}

  lemma NothingLinked(entries: seq<Catalog.Entry>, free: seq<int>, size: int, counts: seq<int>, born: seq<nat>, allocs: nat)
    requires Catalog.SlotsOk(entries, free, size, counts, born, allocs) && size == 0
    ensures Linked(map[], entries)
  {
    Catalog.SlotsFacts(entries, free, size, counts, born, allocs);
    forall r: Ref
      ensures !Catalog.Current(entries, r)
    {
      assert r.slot < |entries| && entries[r.slot].inUse ==> r.slot as int in Catalog.Live(entries);
    }
  }

  lemma LinkedIsLive(live: Live, entries: seq<Catalog.Entry>, ref: Ref)
    requires Linked(live, entries) && ref in live
    ensures ref.slot < |entries| && ref.slot as int in Catalog.Live(entries)
  {}

  lemma LinkedSigned(live: Live, was: seq<Catalog.Entry>, now: seq<Catalog.Entry>)
    requires Linked(live, was) && |was| == |now|
    requires forall s :: 0 <= s < |was| ==>
               now[s].key == was[s].key && now[s].state == was[s].state && now[s].inUse == was[s].inUse
               && now[s].generation == was[s].generation
    ensures Linked(live, now)
  {}

  lemma LinkedTouch(live: Live, entries: seq<Catalog.Entry>, ref: Ref, e: Entry)
    requires Linked(live, entries) && ref in live && e.key == live[ref].key && e.state == live[ref].state
    ensures Linked(live[ref := e], entries)
  {}

  lemma TookNothing(live: Live, queue: seq<Ref>)
    ensures Took(live, queue, queue, None)
  {}
}
