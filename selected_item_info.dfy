/**
 * The state the selected-item component keeps (`itemInfo`, `loading`, `stall`)
 * and how selection changes, float-fetch resolutions and the stall-fetch
 * resolution update it. A fetch is split at its `await`: the synchronous part
 * of a selection change returns the inspect link it asks for, and the
 * resolution arrives later as a separate step, possibly after other steps.
 */
module SelectedItemInfo {
  import opened Wrappers
  import opened SteamPage
  import opened ItemInfoView

  /** How an awaited fetch ends: its promise resolves with a value or rejects. */
  datatype FetchOutcome<T> = Resolved(value: T) | Rejected(reason: string)

  /** The component's fields. */
  datatype State = State(itemInfo: Option<ItemInfo>, loading: bool, stall: Option<Stall>)

  /** A freshly created component: no item info, not loading, no stall. */
  const Initial: State := State(None, false, None)

  /**
   * The inspect link a selection change fetches, or None when it returns early:
   * no selected asset, not a skin, or no (or an empty, hence falsy) inspect link.
   */
  function FloatRequest(page: Page, isSkin: bool): (r: Option<string>)
    ensures r.None? <==>
      SelectedAsset(page).None? || !isSkin || InspectLink(page).None? || InspectLink(page).value == ""
    ensures r.Some? ==> Some(r.value) == InspectLink(page) && r.value != ""
  {
    if SelectedAsset(page).None? || !isSkin then None
    else match InspectLink(page)
      case None => None
      case Some(link) => if link == "" then None else Some(link)
  }

  /** The state after the synchronous part of a selection change, and the fetch it starts. */
  datatype Begun = Begun(next: State, request: Option<string>)

  /**
   * `processSelectChange` up to its `await`: item info is always cleared; an
   * early return leaves `loading` as it was; otherwise `loading` is set and the
   * inspect link is requested. The stall is never touched.
   */
  function SelectChange(s: State, page: Page, isSkin: bool): (r: Begun)
    ensures r.request == FloatRequest(page, isSkin)
    ensures r.next.itemInfo.None? && r.next.stall == s.stall
    ensures r.request.None? ==> r.next.loading == s.loading
    ensures r.request.Some? ==> r.next.loading
  {
    var cleared := s.(itemInfo := None);
    var request := FloatRequest(page, isSkin);
    if request.None? then Begun(cleared, None)
    else Begun(cleared.(loading := true), request)
  }

  /**
   * The rest of `processSelectChange` once the float fetch settles: a resolved
   * value is stored, a rejection leaves item info as it is (the `catch` assigns
   * no field), and `loading` is cleared in either case. Nothing checks whether this fetch is
   * still the latest one.
   */
  function SettleFetch(s: State, outcome: FetchOutcome<ItemInfo>): (r: State)
    ensures !r.loading && r.stall == s.stall
    ensures outcome.Resolved? ==> r.itemInfo == Some(outcome.value)
    ensures outcome.Rejected? ==> r.itemInfo == s.itemInfo
  {
    var stored := if outcome.Resolved? then s.(itemInfo := Some(outcome.value)) else s;
    stored.(loading := false)
  }

  /**
   * A selection change whose fetch (if any) settles before anything else
   * happens: item info ends as the fetched value only on the fetch path with a
   * resolved fetch, and absent otherwise; `loading` ends false on the fetch path
   * and unchanged on an early return.
   */
  function SelectChangeAwaited(s: State, page: Page, isSkin: bool, outcome: FetchOutcome<ItemInfo>): (r: State)
    ensures r.itemInfo ==
      if FloatRequest(page, isSkin).Some? && outcome.Resolved? then Some(outcome.value) else None
    ensures r.loading == (FloatRequest(page, isSkin).None? && s.loading)
    ensures r.stall == s.stall
  {
    var begun := SelectChange(s, page, isSkin);
    if begun.request.Some? then SettleFetch(begun.next, outcome) else begun.next
  }

  /**
   * The owner id the stall is requested for at activation: only when the
   * owner's `strSteamId` is present and non-empty (a truthy string).
   */
  function StallRequest(page: Page): (r: Option<string>)
    ensures r.Some? <==> OwnerSteamId(page).Some? && OwnerSteamId(page).value != ""
    ensures r.Some? ==> r == OwnerSteamId(page)
  {
    match OwnerSteamId(page)
    case None => None
    case Some(id) => if id == "" then None else Some(id)
  }

  /**
   * The stall fetch settling: a resolved stall is stored, a rejection is
   * ignored; item info and `loading` are never touched.
   */
  function SettleStall(s: State, outcome: FetchOutcome<Stall>): (r: State)
    ensures r.itemInfo == s.itemInfo && r.loading == s.loading
    ensures outcome.Resolved? ==> r.stall == Some(outcome.value)
    ensures outcome.Rejected? ==> r.stall == s.stall
  {
    if outcome.Resolved? then s.(stall := Some(outcome.value)) else s
  }

  /** The component itself: its three fields, updated in place. */
  class SelectedItemInfo {
    var itemInfo: Option<ItemInfo>
    var loading: bool
    var stall: Option<Stall>

    /** The fields as a value. */
    function Snapshot(): State
      reads this
    {
      State(itemInfo, loading, stall)
    }

    constructor ()
      ensures Snapshot() == Initial
    {
      itemInfo := None;
      loading := false;
      stall := None;
    }

    /** `processSelectChange` up to its `await`; returns the link it fetches, if any. */
    method ProcessSelectChange(page: Page, isSkin: bool) returns (request: Option<string>)
      modifies this
      ensures Snapshot() == SelectChange(old(Snapshot()), page, isSkin).next
      ensures request == SelectChange(old(Snapshot()), page, isSkin).request
    {
      // reset in case the selection swaps between a skin and a non-skin
      itemInfo := None;
      request := None;
      if SelectedAsset(page).None? {
        return;
      }
      if !isSkin {
        return;
      }
      var link := InspectLink(page);
      if link.None? || link.value == "" {
        return;
      }
      loading := true;
      request := link;
    }

    /** The awaited float fetch settles: `try` stores, `catch` logs, `finally` clears `loading`. */
    method ResolveFloat(outcome: FetchOutcome<ItemInfo>)
      modifies this
      ensures Snapshot() == SettleFetch(old(Snapshot()), outcome)
    {
      if outcome.Resolved? {
        itemInfo := Some(outcome.value);
      }
      loading := false;
    }

    /** A whole `processSelectChange` whose fetch settles before anything else runs. */
    method ProcessSelectChangeAwaited(page: Page, isSkin: bool, outcome: FetchOutcome<ItemInfo>)
      returns (request: Option<string>)
      modifies this
      ensures Snapshot() == SelectChangeAwaited(old(Snapshot()), page, isSkin, outcome)
      ensures request == FloatRequest(page, isSkin)
    {
      request := ProcessSelectChange(page, isSkin);
      if request.Some? {
        ResolveFloat(outcome);
      }
    }

    /**
     * `connectedCallback`: one initial selection-change pass, then the stall
     * request for the owner when the owner's id is truthy. Returns both requests.
     */
    method ConnectedCallback(page: Page, isSkin: bool) returns (floatRequest: Option<string>, stallRequest: Option<string>)
      modifies this
      ensures Snapshot() == SelectChange(old(Snapshot()), page, isSkin).next
      ensures floatRequest == FloatRequest(page, isSkin)
      ensures stallRequest == StallRequest(page)
    {
      floatRequest := ProcessSelectChange(page, isSkin);
      stallRequest := None;
      var owner := OwnerSteamId(page);
      if owner.Some? && owner.value != "" {
        stallRequest := owner;
      }
    }

    /** The stall promise settles: `.then` stores the stall; a rejection is not handled. */
    method ResolveStall(outcome: FetchOutcome<Stall>)
      modifies this
      ensures Snapshot() == SettleStall(old(Snapshot()), outcome)
    {
      if outcome.Resolved? {
        stall := Some(outcome.value);
      }
    }
  }

  /** What can happen to a component, in the order the event loop runs it. */
  datatype Event =
    | SelectionChanged(page: Page, isSkin: bool)
    | FloatSettled(floatOutcome: FetchOutcome<ItemInfo>)
    | StallSettled(stallOutcome: FetchOutcome<Stall>)

  /**
   * One event applied to the fields: only a selection change or a resolved
   * float fetch assigns item info, only a float settlement or a selection
   * change that starts a fetch changes `loading`, and only the stall promise
   * changes the stall.
   */
  function Step(s: State, e: Event): (r: State)
    ensures !WritesItemInfo(e) ==> r.itemInfo == s.itemInfo
    ensures e.SelectionChanged? ==> r.itemInfo.None?
    ensures e.FloatSettled? ==> !r.loading
    ensures StartsFetch(e) ==> r.loading
    ensures !e.FloatSettled? && !StartsFetch(e) ==> r.loading == s.loading
    ensures !e.StallSettled? ==> r.stall == s.stall
  {
    match e
    case SelectionChanged(page, isSkin) => SelectChange(s, page, isSkin).next
    case FloatSettled(outcome) => SettleFetch(s, outcome)
    case StallSettled(outcome) => SettleStall(s, outcome)
  }

  /**
   * The state after a sequence of events, applied from first to last. Without
   * a stall resolution the stall is as it started, and without a selection
   * change or float settlement item info and `loading` are as they started.
   */
  function Run(s: State, events: seq<Event>): (r: State)
    ensures (forall e :: e in events ==> !e.StallSettled?) ==> r.stall == s.stall
    ensures (forall e :: e in events ==> e.StallSettled?) ==> r.itemInfo == s.itemInfo && r.loading == s.loading
    decreases |events|
  {
    if |events| == 0 then s
    else
      var prefix := events[..|events| - 1];
      assert forall e :: e in prefix ==> e in events;
      Step(Run(s, prefix), events[|events| - 1])
  }

  /** The event starts a float fetch. */
  predicate StartsFetch(e: Event) {
    e.SelectionChanged? && FloatRequest(e.page, e.isSkin).Some?
  }

  /** The event assigns `itemInfo`. */
  predicate WritesItemInfo(e: Event) {
    e.SelectionChanged? || (e.FloatSettled? && e.floatOutcome.Resolved?)
  }

  /** Some fetch was started after the last float settlement. */
  predicate FetchStartedSinceSettle(events: seq<Event>) {
    exists i :: 0 <= i < |events| && StartsFetch(events[i])
      && (forall j :: i < j < |events| ==> !events[j].FloatSettled?)
  }

  /** How the last event decides `FetchStartedSinceSettle`. */
  lemma FetchStartedSinceSettleLast(events: seq<Event>)
    requires |events| > 0
    ensures var n := |events| - 1;
      FetchStartedSinceSettle(events) <==>
        !events[n].FloatSettled? && (StartsFetch(events[n]) || FetchStartedSinceSettle(events[..n]))
  {
    var n := |events| - 1;
    var prefix := events[..n];
    assert forall k :: 0 <= k < n ==> prefix[k] == events[k];
    if events[n].FloatSettled? {
      forall i | 0 <= i < |events| && StartsFetch(events[i])
        ensures exists j :: i < j < |events| && events[j].FloatSettled?
      {
        assert i < n;
      }
    } else if !StartsFetch(events[n]) {
      forall i | 0 <= i < |events| && StartsFetch(events[i])
          && (forall j :: i < j < |events| ==> !events[j].FloatSettled?)
        ensures FetchStartedSinceSettle(prefix)
      {
        assert i < n && StartsFetch(prefix[i]);
      }
      forall i | 0 <= i < n && StartsFetch(prefix[i]) && (forall j :: i < j < n ==> !prefix[j].FloatSettled?)
        ensures FetchStartedSinceSettle(events)
      {
        assert StartsFetch(events[i]);
      }
    }
  }

  /**
   * `loading` is true exactly when some fetch was started after the last float
   * settlement: any settlement clears it, even one of an older fetch while a
   * newer fetch is still pending.
   */
  lemma {:induction false} LoadingIffStartedSinceLastSettle(events: seq<Event>)
    ensures Run(Initial, events).loading <==> FetchStartedSinceSettle(events)
    decreases |events|
  {
    if |events| > 0 {
      var n := |events| - 1;
      LoadingIffStartedSinceLastSettle(events[..n]);
      FetchStartedSinceSettleLast(events);
      assert Run(Initial, events) == Step(Run(Initial, events[..n]), events[n]);
    }
  }

  /** The last event that assigned item info was a float fetch resolving with `v`. */
  predicate LastItemInfoWriteIs(events: seq<Event>, v: ItemInfo) {
    exists i :: 0 <= i < |events| && events[i] == FloatSettled(Resolved(v))
      && (forall j :: i < j < |events| ==> !WritesItemInfo(events[j]))
  }

  /** How the last event decides `LastItemInfoWriteIs`. */
  lemma LastItemInfoWriteIsLast(events: seq<Event>, v: ItemInfo)
    requires |events| > 0
    ensures var n := |events| - 1;
      LastItemInfoWriteIs(events, v) <==>
        if WritesItemInfo(events[n]) then events[n] == FloatSettled(Resolved(v))
        else LastItemInfoWriteIs(events[..n], v)
  {
    var n := |events| - 1;
    var prefix := events[..n];
    assert forall k :: 0 <= k < n ==> prefix[k] == events[k];
    if WritesItemInfo(events[n]) {
      if events[n] != FloatSettled(Resolved(v)) {
        forall i | 0 <= i < |events| && events[i] == FloatSettled(Resolved(v))
          ensures exists j :: i < j < |events| && WritesItemInfo(events[j])
        {
          assert i < n && WritesItemInfo(events[n]);
        }
      }
    } else {
      forall i | 0 <= i < |events| && events[i] == FloatSettled(Resolved(v))
          && (forall j :: i < j < |events| ==> !WritesItemInfo(events[j]))
        ensures LastItemInfoWriteIs(prefix, v)
      {
        assert i < n && prefix[i] == FloatSettled(Resolved(v));
      }
      forall i | 0 <= i < n && prefix[i] == FloatSettled(Resolved(v))
          && (forall j :: i < j < n ==> !WritesItemInfo(prefix[j]))
        ensures LastItemInfoWriteIs(events, v)
      {
        assert events[i] == FloatSettled(Resolved(v));
      }
    }
  }

  /**
   * `itemInfo` holds `v` exactly when the last event that assigned it was a
   * float fetch resolving with `v`: a rejection keeps it, a selection change
   * clears it, and a late resolution of an older fetch overwrites a newer one.
   */
  lemma {:induction false} ItemInfoIsLastResolution(events: seq<Event>, v: ItemInfo)
    ensures Run(Initial, events).itemInfo == Some(v) <==> LastItemInfoWriteIs(events, v)
    decreases |events|
  {
    if |events| > 0 {
      var n := |events| - 1;
      ItemInfoIsLastResolution(events[..n], v);
      LastItemInfoWriteIsLast(events, v);
      assert Run(Initial, events) == Step(Run(Initial, events[..n]), events[n]);
    }
  }

  /** The event is a successful stall resolution. */
  predicate StoresStall(e: Event) {
    e.StallSettled? && e.stallOutcome.Resolved?
  }

  /** The last successful stall resolution delivered `st`. */
  predicate LastStallResolutionIs(events: seq<Event>, st: Stall) {
    exists i :: 0 <= i < |events| && events[i] == StallSettled(Resolved(st))
      && (forall j :: i < j < |events| ==> !StoresStall(events[j]))
  }

  /** How the last event decides `LastStallResolutionIs`. */
  lemma LastStallResolutionIsLast(events: seq<Event>, st: Stall)
    requires |events| > 0
    ensures var n := |events| - 1;
      LastStallResolutionIs(events, st) <==>
        if StoresStall(events[n]) then events[n] == StallSettled(Resolved(st))
        else LastStallResolutionIs(events[..n], st)
  {
    var n := |events| - 1;
    var prefix := events[..n];
    assert forall k :: 0 <= k < n ==> prefix[k] == events[k];
    if StoresStall(events[n]) {
      if events[n] != StallSettled(Resolved(st)) {
        forall i | 0 <= i < |events| && events[i] == StallSettled(Resolved(st))
          ensures exists j :: i < j < |events| && StoresStall(events[j])
        {
          assert i < n && StoresStall(events[n]);
        }
      }
    } else {
      forall i | 0 <= i < |events| && events[i] == StallSettled(Resolved(st))
          && (forall j :: i < j < |events| ==> !StoresStall(events[j]))
        ensures LastStallResolutionIs(prefix, st)
      {
        assert i < n && prefix[i] == StallSettled(Resolved(st));
      }
      forall i | 0 <= i < n && prefix[i] == StallSettled(Resolved(st))
          && (forall j :: i < j < n ==> !StoresStall(prefix[j]))
        ensures LastStallResolutionIs(events, st)
      {
        assert events[i] == StallSettled(Resolved(st));
      }
    }
  }

  /**
   * The stall holds `st` exactly when the last successful stall resolution
   * delivered `st`; selection changes and float fetches never touch it.
   */
  lemma {:induction false} StallIsLastResolution(events: seq<Event>, st: Stall)
    ensures Run(Initial, events).stall == Some(st) <==> LastStallResolutionIs(events, st)
    decreases |events|
  {
    if |events| > 0 {
      var n := |events| - 1;
      StallIsLastResolution(events[..n], st);
      LastStallResolutionIsLast(events, st);
      assert Run(Initial, events) == Step(Run(Initial, events[..n]), events[n]);
    }
  }

  /**
   * No "latest fetch wins": when the fetch for an earlier selection resolves
   * after the fetch for the current one, its value is what the component keeps.
   */
  lemma LateResolutionOverwritesNewer(s: State, older: Page, newer: Page, a: ItemInfo, b: ItemInfo)
    requires FloatRequest(older, true).Some? && FloatRequest(newer, true).Some?
    ensures var t := Run(s, [SelectionChanged(older, true), SelectionChanged(newer, true),
                             FloatSettled(Resolved(b)), FloatSettled(Resolved(a))]);
      t.itemInfo == Some(a) && !t.loading
  {
  }

  /**
   * A fetch still pending when the selection moves to a non-skin keeps the
   * view on Loading, and its later resolution is shown for the non-skin.
   */
  lemma PendingFetchOutlivesNonSkinSelection(s: State, skin: Page, other: Page, a: ItemInfo)
    requires FloatRequest(skin, true).Some?
    ensures var t := SelectChange(SelectChange(s, skin, true).next, other, false).next;
      Render(t.loading, t.itemInfo, t.stall, other) == Loading
      && var u := SettleFetch(t, Resolved(a));
      u.itemInfo == Some(a)
      && Render(u.loading, u.itemInfo, u.stall, other).Populated?
      && Render(u.loading, u.itemInfo, u.stall, other).info == a
  {
  }

  /**
   * With no fetch pending, a selection that starts no fetch (nothing selected,
   * not a skin, no inspect link) renders as Empty, whatever was shown before.
   */
  lemma NonFetchableSelectionRendersEmpty(s: State, page: Page, isSkin: bool)
    requires !s.loading && FloatRequest(page, isSkin).None?
    ensures var t := SelectChange(s, page, isSkin).next;
      Render(t.loading, t.itemInfo, t.stall, page) == Empty
  {
  }

  /**
   * A selection change that starts a fetch shows Loading, then the fetched
   * value on success or Empty on failure.
   */
  lemma FetchPathRendersLoadingThenResult(s: State, page: Page, outcome: FetchOutcome<ItemInfo>)
    requires FloatRequest(page, true).Some?
    ensures var t := SelectChange(s, page, true).next;
      Render(t.loading, t.itemInfo, t.stall, page) == Loading
      && var u := SettleFetch(t, outcome);
      (outcome.Resolved? ==> Render(u.loading, u.itemInfo, u.stall, page).Populated?
                             && Render(u.loading, u.itemInfo, u.stall, page).info == outcome.value)
      && (outcome.Rejected? ==> Render(u.loading, u.itemInfo, u.stall, page) == Empty)
  {
  }
}
