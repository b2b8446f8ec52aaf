/**
 * What `handleOpenPosition` and `handleClosePosition` do to the entity
 * store, as functions from the store before an event to the store after it,
 * and the properties of the open/close state machine they implement.
 *
 * The two keys an event addresses come from a `KeyScheme`; the mapping uses
 * `Identity.Keys(host)`. Every property below that does not name
 * `Keys(host)` holds for any derivation of keys.
 */
module Handlers {
  import opened Runtime
  import opened Schema
  import opened Identity
  import opened AllowList

  /** The key of the current record an event addresses. */
  function CurrentKey(keys: KeyScheme, ev: Event): string
  {
    keys.current(ev.Address(), ev.Owner())
  }

  /** The key under which an event archives the record it supersedes. */
  function SnapshotKey(keys: KeyScheme, ev: Event): string
  {
    match ev
    case Open(e) => keys.snapshot(e.address, e.owner, e.blockNumber, e.logIndex)
    case Close(e) => keys.snapshot(e.address, e.owner, e.blockNumber, e.logIndex)
  }

  /** The current record as an open event leaves it. */
  function Opened(id: string, e: OpenPositionEvent): (p: Position)
    ensures p.id == id && !p.closed
    ensures p.contract == e.address && p.owner == e.owner
    ensures p.amount == e.amount && p.stopLoss == e.stopLoss && p.takeProfit == e.takeProfit
  {
    Position(id, e.address, e.owner, e.amount, e.stopLoss, e.takeProfit, false)
  }

  /** The historical copy of `p` written under `id`: the same values, closed. */
  function Archived(p: Position, id: string): (r: Position)
    ensures r.id == id && r.closed
    ensures r.contract == p.contract && r.owner == p.owner
    ensures r.amount == p.amount && r.stopLoss == p.stopLoss && r.takeProfit == p.takeProfit
  {
    p.(id := id, closed := true)
  }

  /** The current record as a close event leaves it: contract and owner zeroed. */
  function Zeroed(host: Host, p: Position): (r: Position)
    ensures r.contract == ZeroAddress(host) && r.owner == ZeroAddress(host)
    ensures r.id == p.id && r.closed == p.closed
    ensures r.amount == p.amount && r.stopLoss == p.stopLoss && r.takeProfit == p.takeProfit
  {
    p.(contract := ZeroAddress(host), owner := ZeroAddress(host))
  }

  /**
   * `handleOpenPosition`: for an allowed contract, archive the record found
   * at the current key (if any) under the snapshot key, then write the
   * event's values at the current key. No record is ever removed.
   */
  function OnOpenPosition(host: Host, keys: KeyScheme, s: Store, e: OpenPositionEvent): (r: Store)
    ensures s.Keys <= r.Keys
  {
    if !IsAllowed(host, e.address) then s
    else
      var cur := CurrentKey(keys, Open(e));
      var archived :=
        if cur in s then
          var hist := keys.snapshot(e.address, e.owner, e.blockNumber, e.logIndex);
          s[hist := Archived(s[cur], hist)]
        else s;
      archived[cur := Opened(cur, e)]
  }

  /**
   * `handleClosePosition`: for an allowed contract and a record present at
   * the current key, archive it under the snapshot key, then zero its
   * contract and owner in place. No record is ever removed.
   */
  function OnClosePosition(host: Host, keys: KeyScheme, s: Store, e: ClosePositionEvent): (r: Store)
    ensures s.Keys <= r.Keys
  {
    var cur := CurrentKey(keys, Close(e));
    if !IsAllowed(host, e.address) || cur !in s then s
    else
      var hist := keys.snapshot(e.address, e.owner, e.blockNumber, e.logIndex);
      s[hist := Archived(s[cur], hist)][cur := Zeroed(host, s[cur])]
  }

  function Apply(host: Host, keys: KeyScheme, s: Store, ev: Event): Store
  {
    match ev
    case Open(e) => OnOpenPosition(host, keys, s, e)
    case Close(e) => OnClosePosition(host, keys, s, e)
  }

  /** The store after handling `evs` one at a time, in delivery order. */
  function Replay(host: Host, keys: KeyScheme, s: Store, evs: seq<Event>): Store
    decreases |evs|
  {
    if evs == [] then s else Apply(host, keys, Replay(host, keys, s, evs[..|evs| - 1]), evs[|evs| - 1])
  }

  /** Handling one more event extends the replay by one step. */
  lemma ReplaySnoc(host: Host, keys: KeyScheme, s: Store, evs: seq<Event>, ev: Event)
    ensures Replay(host, keys, s, evs + [ev]) == Apply(host, keys, Replay(host, keys, s, evs), ev)
  {
    assert (evs + [ev])[..|evs|] == evs;
  }

  // ---------------------------------------------------------------------
  // Identity

  /**
   * The current key both handlers read depends on the emitting contract and
   * the owner alone: amounts, block number, log index and the event kind
   * play no part, so an open and a close of one pair address one record.
   */
  lemma CurrentKeyDependsOnPairOnly(keys: KeyScheme, ev1: Event, ev2: Event)
    requires ev1.Address() == ev2.Address() && ev1.Owner() == ev2.Owner()
    ensures CurrentKey(keys, ev1) == CurrentKey(keys, ev2)
  {
  }

  // ---------------------------------------------------------------------
  // The allow-list gate

  /** An event from a contract that is not on the list changes nothing. */
  lemma FilteredEventChangesNothing(host: Host, keys: KeyScheme, s: Store, ev: Event)
    requires !IsAllowed(host, ev.Address())
    ensures Apply(host, keys, s, ev) == s
  {
  }

  /** Nor does any sequence of such events. */
  lemma {:induction false} FilteredEventsChangeNothing(host: Host, keys: KeyScheme, s: Store, evs: seq<Event>)
    requires forall i :: 0 <= i < |evs| ==> !IsAllowed(host, evs[i].Address())
    ensures Replay(host, keys, s, evs) == s
    decreases |evs|
  {
    if evs != [] {
      var n := |evs| - 1;
      FilteredEventsChangeNothing(host, keys, s, evs[..n]);
      FilteredEventChangesNothing(host, keys, s, evs[n]);
    }
  }

  // ---------------------------------------------------------------------
  // Open

  /**
   * Open on an absent key: exactly one record is added, at the current key,
   * holding the event's values and `closed = false`; every other key, the
   * snapshot key included, is as before.
   */
  lemma OpenOnAbsentKey(host: Host, keys: KeyScheme, s: Store, e: OpenPositionEvent)
    requires IsAllowed(host, e.address)
    requires keys.current(e.address, e.owner) !in s
    ensures var cur, r := keys.current(e.address, e.owner), OnOpenPosition(host, keys, s, e);
      && r.Keys == s.Keys + {cur}
      && |r| == |s| + 1
      && r[cur].id == cur && r[cur].contract == e.address && r[cur].owner == e.owner
      && r[cur].amount == e.amount && r[cur].stopLoss == e.stopLoss
      && r[cur].takeProfit == e.takeProfit && !r[cur].closed
      && (forall k :: k in s ==> r[k] == s[k])
  {
  }

  /**
   * Open on a present key: the snapshot key holds the record as it was
   * before the event, closed; the current key holds the event's values,
   * open; no other key changes. If the two keys coincide (a digest
   * collision, not excluded here) the snapshot is overwritten.
   */
  lemma OpenOnPresentKey(host: Host, keys: KeyScheme, s: Store, e: OpenPositionEvent)
    requires IsAllowed(host, e.address)
    requires keys.current(e.address, e.owner) in s
    ensures var cur, hist, r :=
        keys.current(e.address, e.owner),
        keys.snapshot(e.address, e.owner, e.blockNumber, e.logIndex),
        OnOpenPosition(host, keys, s, e);
      && r.Keys == s.Keys + {hist}
      && r[cur] == Opened(cur, e)
      && (hist != cur ==> r[hist] == s[cur].(id := hist, closed := true))
      && (forall k :: k in s && k != cur && k != hist ==> r[k] == s[k])
  {
  }

  /**
   * Opening a pair twice replaces its current record: after any two opens
   * of the same pair, the current record holds the second event's values.
   */
  lemma SecondOpenReplacesCurrent(host: Host, keys: KeyScheme, s: Store, e1: OpenPositionEvent, e2: OpenPositionEvent)
    requires IsAllowed(host, e1.address)
    requires e1.address == e2.address && e1.owner == e2.owner
    ensures var cur, r := keys.current(e1.address, e1.owner), OnOpenPosition(host, keys, OnOpenPosition(host, keys, s, e1), e2);
      cur in r && r[cur] == Opened(cur, e2)
  {
  }

  /**
   * With the mapping's own keys, which ignore the log index, two opens of
   * the same pair in the same block archive to the same key: the second
   * snapshot (of the first event's values) overwrites the first, and the
   * record that was current before both events is no longer archived there.
   */
  lemma SameBlockSnapshotsCollide(host: Host, s: Store, e1: OpenPositionEvent, e2: OpenPositionEvent)
    requires IsAllowed(host, e1.address)
    requires e1.address == e2.address && e1.owner == e2.owner && e1.blockNumber == e2.blockNumber
    requires Keys(host).snapshot(e1.address, e1.owner, e1.blockNumber, e1.logIndex) != Keys(host).current(e1.address, e1.owner)
    ensures var cur, hist, r :=
        Keys(host).current(e1.address, e1.owner),
        Keys(host).snapshot(e1.address, e1.owner, e1.blockNumber, e1.logIndex),
        OnOpenPosition(host, Keys(host), OnOpenPosition(host, Keys(host), s, e1), e2);
      && hist == Keys(host).snapshot(e2.address, e2.owner, e2.blockNumber, e2.logIndex)
      && hist in r && r[hist] == Archived(Opened(cur, e1), hist)
      && (cur in s && s[cur].amount != e1.amount ==> r[hist] != Archived(s[cur], hist))
  {
    SnapshotIdIgnoresLogIndex(host, e1.address, e1.owner, e1.blockNumber, e1.logIndex, e2.logIndex);
    var keys := Keys(host);
    var cur, hist := keys.current(e1.address, e1.owner), keys.snapshot(e1.address, e1.owner, e1.blockNumber, e1.logIndex);
    var s1 := OnOpenPosition(host, keys, s, e1);
    assert cur in s1 && s1[cur] == Opened(cur, e1);
    OpenOnPresentKey(host, keys, s1, e2);
  }

  // ---------------------------------------------------------------------
  // Close

  /** Close on an absent key changes nothing. */
  lemma CloseOnAbsentKey(host: Host, keys: KeyScheme, s: Store, e: ClosePositionEvent)
    requires keys.current(e.address, e.owner) !in s
    ensures OnClosePosition(host, keys, s, e) == s
  {
  }

  /**
   * Close on a present key: the snapshot key holds the record as it was
   * before the event, closed; the current record keeps its id, amount,
   * stopLoss, takeProfit and closed flag and gets the zero address as
   * contract and owner; no other key changes.
   */
  lemma CloseOnPresentKey(host: Host, keys: KeyScheme, s: Store, e: ClosePositionEvent)
    requires IsAllowed(host, e.address)
    requires keys.current(e.address, e.owner) in s
    ensures var cur, hist, r :=
        keys.current(e.address, e.owner),
        keys.snapshot(e.address, e.owner, e.blockNumber, e.logIndex),
        OnClosePosition(host, keys, s, e);
      && r.Keys == s.Keys + {hist}
      && r[cur].id == s[cur].id && r[cur].amount == s[cur].amount
      && r[cur].stopLoss == s[cur].stopLoss && r[cur].takeProfit == s[cur].takeProfit
      && r[cur].closed == s[cur].closed
      && r[cur].contract == ZeroAddress(host) && r[cur].owner == ZeroAddress(host)
      && (hist != cur ==> r[hist] == s[cur].(id := hist, closed := true))
      && (forall k :: k in s && k != cur && k != hist ==> r[k] == s[k])
  {
  }

  /**
   * Reopening after a close goes through the archiving branch: the zeroed
   * record is itself archived (zero contract and owner, the old amount,
   * closed) before the new values are written.
   */
  lemma ReopenArchivesZeroedRecord(host: Host, keys: KeyScheme, s: Store, c: ClosePositionEvent, o: OpenPositionEvent)
    requires IsAllowed(host, c.address)
    requires c.address == o.address && c.owner == o.owner
    requires keys.current(c.address, c.owner) in s
    requires keys.snapshot(o.address, o.owner, o.blockNumber, o.logIndex) != keys.current(c.address, c.owner)
    ensures var cur, hist, r :=
        keys.current(c.address, c.owner),
        keys.snapshot(o.address, o.owner, o.blockNumber, o.logIndex),
        OnOpenPosition(host, keys, OnClosePosition(host, keys, s, c), o);
      && hist in r && r[hist].contract == ZeroAddress(host) && r[hist].owner == ZeroAddress(host)
      && r[hist].amount == s[cur].amount && r[hist].closed
      && r[cur] == Opened(cur, o)
  {
  }

  // ---------------------------------------------------------------------
  // Invariants over the whole store

  /** Both handlers keep every record under its own id. */
  lemma ApplyKeepsKeyedById(host: Host, keys: KeyScheme, s: Store, ev: Event)
    requires KeyedById(s)
    ensures KeyedById(Apply(host, keys, s, ev))
  {
  }

  lemma {:induction false} ReplayKeepsKeyedById(host: Host, keys: KeyScheme, s: Store, evs: seq<Event>)
    requires KeyedById(s)
    ensures KeyedById(Replay(host, keys, s, evs))
    decreases |evs|
  {
    if evs != [] {
      var n := |evs| - 1;
      ReplayKeepsKeyedById(host, keys, s, evs[..n]);
      ApplyKeepsKeyedById(host, keys, Replay(host, keys, s, evs[..n]), evs[n]);
    }
  }

  // ---------------------------------------------------------------------
  // Runs of opens

  /** Every event of `evs` opens the pair (c, o). */
  ghost predicate OpensOf(evs: seq<Event>, c: Bytes, o: Bytes)
  {
    forall i :: 0 <= i < |evs| ==> evs[i].Open? && evs[i].open.address == c && evs[i].open.owner == o
  }

  /**
   * The first open of a run that archives anything: the first open archives
   * the record already stored at the current key, if there is one, and every
   * later open archives the record the open before it wrote.
   */
  function FirstArchiving(cur: string, s: Store): (i: nat)
    ensures i == 0 <==> cur in s
    ensures i <= 1
  {
    if cur in s then 0 else 1
  }

  /** The record that the i-th open of a run, started on store `s`, supersedes. */
  ghost function Superseded(cur: string, s: Store, evs: seq<Event>, i: nat): Position
    requires forall k :: 0 <= k < |evs| ==> evs[k].Open?
    requires FirstArchiving(cur, s) <= i < |evs|
  {
    if i == 0 then s[cur] else Opened(cur, evs[i - 1].open)
  }

  /**
   * The historical records a run of opens leaves behind when started on
   * store `s`: each open from `FirstArchiving` on archives, under its
   * snapshot key, the record it supersedes. A later write to the same key
   * wins.
   */
  ghost function History(keys: KeyScheme, cur: string, s: Store, evs: seq<Event>): map<string, Position>
    requires forall i :: 0 <= i < |evs| ==> evs[i].Open?
    decreases |evs|
  {
    if evs == [] then map[]
    else
      var n := |evs| - 1;
      var earlier := History(keys, cur, s, evs[..n]);
      if n < FirstArchiving(cur, s) then earlier
      else
        var hist := SnapshotKey(keys, evs[n]);
        earlier[hist := Archived(Superseded(cur, s, evs, n), hist)]
  }

  /** Overlaying one more archive and a new current record, in either order. */
  lemma OverlayStep(s: Store, h: Store, cur: string, before: Position, hist: string, a: Position, after: Position)
    ensures (s + h + map[cur := before])[hist := a][cur := after] == s + h[hist := a] + map[cur := after]
  {
  }

  /**
   * Closed form of a run of opens of one allowed pair: the store is the old
   * one, overlaid with the history, overlaid with the current record holding
   * the last open's values.
   */
  lemma {:induction false} ReplayOfOpens(host: Host, keys: KeyScheme, s: Store, evs: seq<Event>, c: Bytes, o: Bytes)
    requires IsAllowed(host, c) && OpensOf(evs, c, o) && |evs| > 0
    ensures var cur := keys.current(c, o);
      Replay(host, keys, s, evs) == s + History(keys, cur, s, evs) + map[cur := Opened(cur, evs[|evs| - 1].open)]
    decreases |evs|
  {
    var cur := keys.current(c, o);
    var n := |evs| - 1;
    var prefix := evs[..n];
    assert evs == prefix + [evs[n]];
    ReplaySnoc(host, keys, s, prefix, evs[n]);
    var hist := SnapshotKey(keys, evs[n]);
    if n == 0 {
      assert Replay(host, keys, s, prefix) == s;
      if cur in s {
        assert s + map[] + map[cur := s[cur]] == s;
        OverlayStep(s, map[], cur, s[cur], hist, Archived(s[cur], hist), Opened(cur, evs[n].open));
      }
    } else {
      assert forall i :: 0 <= i < |prefix| ==> prefix[i] == evs[i];
      ReplayOfOpens(host, keys, s, prefix, c, o);
      var last := Opened(cur, evs[n - 1].open);
      var before := s + History(keys, cur, s, prefix) + map[cur := last];
      assert Replay(host, keys, s, evs) == before[hist := Archived(last, hist)][cur := Opened(cur, evs[n].open)];
      OverlayStep(s, History(keys, cur, s, prefix), cur, last, hist, Archived(last, hist), Opened(cur, evs[n].open));
    }
  }

  /** The snapshot keys of the opens of `evs` that archive a record. */
  ghost function ArchivingKeys(keys: KeyScheme, cur: string, s: Store, evs: seq<Event>): set<string>
  {
    set i | FirstArchiving(cur, s) <= i < |evs| :: SnapshotKey(keys, evs[i])
  }

  lemma ArchivingKeysSnoc(keys: KeyScheme, cur: string, s: Store, evs: seq<Event>)
    requires |evs| > 0
    ensures var n := |evs| - 1;
      ArchivingKeys(keys, cur, s, evs)
        == ArchivingKeys(keys, cur, s, evs[..n]) + (if n < FirstArchiving(cur, s) then {} else {SnapshotKey(keys, evs[n])})
  {
    var n := |evs| - 1;
    var prefix := evs[..n];
    forall k | k in ArchivingKeys(keys, cur, s, evs)
      ensures k in ArchivingKeys(keys, cur, s, prefix) + (if n < FirstArchiving(cur, s) then {} else {SnapshotKey(keys, evs[n])})
    {
      var i :| FirstArchiving(cur, s) <= i < |evs| && k == SnapshotKey(keys, evs[i]);
      if i < n { assert prefix[i] == evs[i]; }
    }
  }

  /** The history has a record under the snapshot key of every archiving open, and nowhere else. */
  lemma {:induction false} HistoryKeys(keys: KeyScheme, cur: string, s: Store, evs: seq<Event>)
    requires forall i :: 0 <= i < |evs| ==> evs[i].Open?
    ensures History(keys, cur, s, evs).Keys == ArchivingKeys(keys, cur, s, evs)
    decreases |evs|
  {
    if evs != [] {
      var n := |evs| - 1;
      var prefix := evs[..n];
      assert forall i :: 0 <= i < |prefix| ==> prefix[i] == evs[i];
      HistoryKeys(keys, cur, s, prefix);
      ArchivingKeysSnoc(keys, cur, s, evs);
    }
  }

  /**
   * With pairwise distinct snapshot keys, the key of each archiving open
   * holds the record that open superseded, closed: no later open wrote there.
   */
  lemma {:induction false} HistoryAt(keys: KeyScheme, cur: string, s: Store, evs: seq<Event>, i: nat)
    requires forall k :: 0 <= k < |evs| ==> evs[k].Open?
    requires forall k, l :: FirstArchiving(cur, s) <= k < l < |evs| ==> SnapshotKey(keys, evs[k]) != SnapshotKey(keys, evs[l])
    requires FirstArchiving(cur, s) <= i < |evs|
    ensures SnapshotKey(keys, evs[i]) in History(keys, cur, s, evs)
    ensures History(keys, cur, s, evs)[SnapshotKey(keys, evs[i])] == Archived(Superseded(cur, s, evs, i), SnapshotKey(keys, evs[i]))
    decreases |evs|
  {
    var n := |evs| - 1;
    var prefix := evs[..n];
    if i < n {
      assert prefix[i] == evs[i];
      assert i > 0 ==> prefix[i - 1] == evs[i - 1];
      forall k | 0 <= k < |prefix| ensures prefix[k].Open? {
        assert prefix[k] == evs[k];
      }
      forall k, l | FirstArchiving(cur, s) <= k < l < |prefix|
        ensures SnapshotKey(keys, prefix[k]) != SnapshotKey(keys, prefix[l])
      {
        assert prefix[k] == evs[k] && prefix[l] == evs[l];
      }
      HistoryAt(keys, cur, s, prefix, i);
      assert Superseded(cur, s, prefix, i) == Superseded(cur, s, evs, i);
      assert SnapshotKey(keys, evs[i]) != SnapshotKey(keys, evs[n]);
    }
  }

  /**
   * With pairwise distinct snapshot keys the history holds exactly one
   * record per superseded record: under the key of each archiving open lies
   * the record it superseded, closed.
   */
  lemma HistoryHoldsEverySupersededOpen(keys: KeyScheme, cur: string, s: Store, evs: seq<Event>)
    requires forall i :: 0 <= i < |evs| ==> evs[i].Open?
    requires forall i, j :: FirstArchiving(cur, s) <= i < j < |evs| ==> SnapshotKey(keys, evs[i]) != SnapshotKey(keys, evs[j])
    ensures History(keys, cur, s, evs).Keys == ArchivingKeys(keys, cur, s, evs)
    ensures forall i :: FirstArchiving(cur, s) <= i < |evs| ==>
      SnapshotKey(keys, evs[i]) in History(keys, cur, s, evs) &&
      History(keys, cur, s, evs)[SnapshotKey(keys, evs[i])] == Archived(Superseded(cur, s, evs, i), SnapshotKey(keys, evs[i]))
  {
    HistoryKeys(keys, cur, s, evs);
    forall i | FirstArchiving(cur, s) <= i < |evs|
      ensures SnapshotKey(keys, evs[i]) in History(keys, cur, s, evs)
      ensures History(keys, cur, s, evs)[SnapshotKey(keys, evs[i])] == Archived(Superseded(cur, s, evs, i), SnapshotKey(keys, evs[i]))
    {
      HistoryAt(keys, cur, s, evs, i);
    }
  }

  /**
   * Snapshot before overwrite: after a run of opens of one allowed pair,
   * with snapshot keys that collide neither with each other, with the
   * current key nor with a record already stored, the store holds one
   * current record with the latest values and exactly one historical record
   * per superseded record, holding it closed. The run may start on a fresh
   * slot or on one that already holds a record (an open or a zeroed one);
   * in the second case the first open archives that record. The other
   * records stored before are untouched.
   */
  lemma SnapshotBeforeOverwrite(host: Host, keys: KeyScheme, s: Store, evs: seq<Event>, c: Bytes, o: Bytes)
    requires IsAllowed(host, c) && OpensOf(evs, c, o) && |evs| > 0
    requires forall i :: FirstArchiving(keys.current(c, o), s) <= i < |evs| ==>
      SnapshotKey(keys, evs[i]) != keys.current(c, o) && SnapshotKey(keys, evs[i]) !in s
    requires forall i, j :: FirstArchiving(keys.current(c, o), s) <= i < j < |evs| ==>
      SnapshotKey(keys, evs[i]) != SnapshotKey(keys, evs[j])
    ensures var cur, r := keys.current(c, o), Replay(host, keys, s, evs);
      cur in r && r[cur] == Opened(cur, evs[|evs| - 1].open)
    ensures var cur := keys.current(c, o);
      Replay(host, keys, s, evs).Keys == s.Keys + {cur} + ArchivingKeys(keys, cur, s, evs)
    ensures var cur, r := keys.current(c, o), Replay(host, keys, s, evs);
      forall i :: FirstArchiving(cur, s) <= i < |evs| ==>
        SnapshotKey(keys, evs[i]) in r &&
        r[SnapshotKey(keys, evs[i])] == Archived(Superseded(cur, s, evs, i), SnapshotKey(keys, evs[i]))
    ensures var cur, r := keys.current(c, o), Replay(host, keys, s, evs);
      forall k :: k in s && k != cur ==> k in r && r[k] == s[k]
  {
    var cur := keys.current(c, o);
    ReplayOfOpens(host, keys, s, evs, c, o);
    HistoryHoldsEverySupersededOpen(keys, cur, s, evs);
    var h := History(keys, cur, s, evs);
    OverlayLookup(s, h, cur, Opened(cur, evs[|evs| - 1].open));
  }

  /** Where a lookup in the overlay of the old store, a history and a current record lands. */
  lemma OverlayLookup(s: Store, h: Store, cur: string, p: Position)
    ensures (s + h + map[cur := p]).Keys == s.Keys + {cur} + h.Keys
    ensures cur in s + h + map[cur := p] && (s + h + map[cur := p])[cur] == p
    ensures forall k :: k in h && k != cur ==> (s + h + map[cur := p])[k] == h[k]
    ensures forall k :: k in s && k !in h && k != cur ==> (s + h + map[cur := p])[k] == s[k]
  {
  }

  /**
   * The worked example of the open/close life cycle: open with amount 100
   * in block 10, open with amount 200 in block 11, close in block 12. The
   * current record ends with zeroed contract and owner and amount 200; the
   * block-11 snapshot holds amount 100 and the block-12 snapshot amount 200,
   * both closed.
   */
  lemma OpenOpenCloseExample(host: Host, keys: KeyScheme, s: Store, c: Bytes, o: Bytes)
    requires IsAllowed(host, c)
    requires keys.current(c, o) !in s
    requires keys.snapshot(c, o, 11, 0) != keys.current(c, o)
    requires keys.snapshot(c, o, 12, 0) != keys.current(c, o)
    requires keys.snapshot(c, o, 11, 0) != keys.snapshot(c, o, 12, 0)
    ensures var cur, h11, h12, r :=
        keys.current(c, o), keys.snapshot(c, o, 11, 0), keys.snapshot(c, o, 12, 0),
        Replay(host, keys, s, [
          Open(OpenPositionEvent(c, o, 100, 0, 0, 10, 0)),
          Open(OpenPositionEvent(c, o, 200, 0, 0, 11, 0)),
          Close(ClosePositionEvent(c, o, 12, 0))]);
      && r.Keys == s.Keys + {cur, h11, h12}
      && cur in r && r[cur].contract == ZeroAddress(host) && r[cur].owner == ZeroAddress(host) && r[cur].amount == 200
      && h11 in r && r[h11].amount == 100 && r[h11].closed && r[h11].contract == c && r[h11].owner == o
      && h12 in r && r[h12].amount == 200 && r[h12].closed && r[h12].contract == c && r[h12].owner == o
  {
    var cur, h11, h12 := keys.current(c, o), keys.snapshot(c, o, 11, 0), keys.snapshot(c, o, 12, 0);
    var e1 := OpenPositionEvent(c, o, 100, 0, 0, 10, 0);
    var e2 := OpenPositionEvent(c, o, 200, 0, 0, 11, 0);
    OpenOpenCloseStores(host, keys, s, c, o);
    var r := s[cur := Opened(cur, e1)][h11 := Archived(Opened(cur, e1), h11)][cur := Opened(cur, e2)]
              [h12 := Archived(Opened(cur, e2), h12)][cur := Zeroed(host, Opened(cur, e2))];
    assert r.Keys == s.Keys + {cur, h11, h12};
    assert r[h11] == Archived(Opened(cur, e1), h11);
    assert r[h12] == Archived(Opened(cur, e2), h12);
  }

  /** The three steps of the worked example, as explicit map updates. */
  lemma OpenOpenCloseStores(host: Host, keys: KeyScheme, s: Store, c: Bytes, o: Bytes)
    requires IsAllowed(host, c)
    requires keys.current(c, o) !in s
    ensures var cur, h11, h12 := keys.current(c, o), keys.snapshot(c, o, 11, 0), keys.snapshot(c, o, 12, 0);
      var e1, e2 := OpenPositionEvent(c, o, 100, 0, 0, 10, 0), OpenPositionEvent(c, o, 200, 0, 0, 11, 0);
      Replay(host, keys, s, [Open(e1), Open(e2), Close(ClosePositionEvent(c, o, 12, 0))])
        == s[cur := Opened(cur, e1)][h11 := Archived(Opened(cur, e1), h11)][cur := Opened(cur, e2)]
            [h12 := Archived(Opened(cur, e2), h12)][cur := Zeroed(host, Opened(cur, e2))]
  {
    var cur, h11, h12 := keys.current(c, o), keys.snapshot(c, o, 11, 0), keys.snapshot(c, o, 12, 0);
    var e1 := OpenPositionEvent(c, o, 100, 0, 0, 10, 0);
    var e2 := OpenPositionEvent(c, o, 200, 0, 0, 11, 0);
    var e3 := ClosePositionEvent(c, o, 12, 0);
    var s1 := OnOpenPosition(host, keys, s, e1);
    var s2 := OnOpenPosition(host, keys, s1, e2);
    ReplaySnoc(host, keys, s, [], Open(e1));
    ReplaySnoc(host, keys, s, [Open(e1)], Open(e2));
    ReplaySnoc(host, keys, s, [Open(e1), Open(e2)], Close(e3));
    assert [Open(e1), Open(e2), Close(e3)] == [Open(e1), Open(e2)] + [Close(e3)];
    assert s1 == s[cur := Opened(cur, e1)];
    assert s2 == s1[h11 := Archived(Opened(cur, e1), h11)][cur := Opened(cur, e2)];
    assert s2[cur] == Opened(cur, e2);
  }
}
