/**
 * The getters of the selected-item component (`asset`, `inspectLink`,
 * `stallListing`) and the branch structure of its rendering, as pure functions
 * of the page globals and the component's fields.
 */
module ItemInfoView {
  import opened Wrappers
  import opened JsStrings
  import opened SteamPage

  /** Placeholder for the inventory owner's Steam id in an inspect-link template. */
  const OwnerToken: string := "%owner_steamid%"

  /** Placeholder for the asset id in an inspect-link template. */
  const AssetToken: string := "%assetid%"

  /** `g_ActiveInventory?.selectedItem`. */
  function SelectedAsset(page: Page): (r: Option<Asset>)
    ensures r.Some? <==> page.activeInventory.Some? && page.activeInventory.value.selectedItem.Some?
    ensures page.activeInventory.Some? ==> r == page.activeInventory.value.selectedItem
  {
    match page.activeInventory
    case None => None
    case Some(inventory) => inventory.selectedItem
  }

  /** `this.asset?.assetid`. */
  function SelectedAssetId(page: Page): Option<string> {
    match SelectedAsset(page)
    case None => None
    case Some(asset) => asset.assetid
  }

  /** `g_ActiveInventory?.m_owner`. */
  function InventoryOwner(page: Page): Option<Owner> {
    match page.activeInventory
    case None => None
    case Some(inventory) => inventory.owner
  }

  /**
   * `g_ActiveInventory?.m_owner?.strSteamId`: present only when the active
   * inventory, its owner and the owner's id are all present.
   */
  function OwnerSteamId(page: Page): (r: Option<string>)
    ensures page.activeInventory.Some? && page.activeInventory.value.owner.Some? ==>
      r == page.activeInventory.value.owner.value.strSteamId
    ensures page.activeInventory.None? || page.activeInventory.value.owner.None? ==> r.None?
  {
    match InventoryOwner(page)
    case None => None
    case Some(owner) => owner.strSteamId
  }

  /** The asset's `description.actions` is present and non-empty. */
  predicate HasActions(asset: Asset) {
    asset.description.Some? && asset.description.value.actions.Some?
    && |asset.description.value.actions.value| > 0
  }

  /** The link template of the first action. */
  function FirstLink(asset: Asset): string
    requires HasActions(asset)
  {
    asset.description.value.actions.value[0].link
  }

  /**
   * The `inspectLink` getter: absent without a selected asset, without actions
   * or without an inventory owner; otherwise the first action's link with the
   * first `%owner_steamid%` and then the first `%assetid%` substituted.
   */
  function InspectLink(page: Page): (r: Option<string>)
    ensures r.None? <==>
      SelectedAsset(page).None? || !HasActions(SelectedAsset(page).value) || InventoryOwner(page).None?
  {
    match SelectedAsset(page)
    case None => None
    case Some(asset) =>
      if !HasActions(asset) then None
      else match InventoryOwner(page)
        case None => None
        case Some(owner) =>
          var withOwner := ReplaceFirst(FirstLink(asset), OwnerToken, ToJsString(owner.strSteamId));
          Some(ReplaceFirst(withOwner, AssetToken, ToJsString(asset.assetid)))
  }

  /**
   * The listing matches the selected asset (`e.item.asset_id === this.asset?.assetid`):
   * the ids are equal strings, and no listing matches when no id is selected.
   */
  predicate MatchesSelection(listing: Listing, selected: Option<string>)
    ensures selected.None? ==> !MatchesSelection(listing, selected)
    ensures MatchesSelection(listing, selected) ==> selected.value == listing.itemAssetId
    ensures selected == Some(listing.itemAssetId) ==> MatchesSelection(listing, selected)
  {
    Some(listing.itemAssetId) == selected
  }

  /** `Array.prototype.find` by index: the first listing matching `selected`. */
  function FirstMatch(listings: seq<Listing>, selected: Option<string>): (r: Option<nat>)
    ensures r.Some? ==> r.value < |listings| && MatchesSelection(listings[r.value], selected)
    ensures r.Some? ==> forall j :: 0 <= j < r.value ==> !MatchesSelection(listings[j], selected)
    ensures r.None? ==> forall j :: 0 <= j < |listings| ==> !MatchesSelection(listings[j], selected)
  {
    if |listings| == 0 then None
    else if MatchesSelection(listings[0], selected) then Some(0)
    else match FirstMatch(listings[1..], selected)
      case None => None
      case Some(k) => Some(k + 1)
  }

  /**
   * The `stallListing` getter: absent while no stall is stored; otherwise the
   * first listing of the stall whose asset id is the selected asset's.
   */
  function StallListing(stall: Option<Stall>, page: Page): (r: Option<Listing>)
    ensures stall.None? ==> r.None?
    ensures r.Some? <==>
      stall.Some? && exists l :: l in Listings(stall.value) && MatchesSelection(l, SelectedAssetId(page))
    ensures r.Some? ==>
      exists i :: 0 <= i < |Listings(stall.value)| && Listings(stall.value)[i] == r.value
        && MatchesSelection(r.value, SelectedAssetId(page))
        && (forall j :: 0 <= j < i ==> !MatchesSelection(Listings(stall.value)[j], SelectedAssetId(page)))
  {
    match stall
    case None => None
    case Some(st) =>
      var selected := SelectedAssetId(page);
      match FirstMatch(Listings(st), selected)
      case None => None
      case Some(i) => Some(Listings(st)[i])
  }

  /**
   * `renderListOnCSGOFloat` shows its call-to-action: the item is not listed
   * and the viewer is the inventory owner (`strSteamId === g_steamID`, where two
   * undefined ids compare equal).
   */
  function ListCallToAction(stall: Option<Stall>, page: Page): (shown: bool)
    ensures shown <==>
      (stall.None? || forall l :: l in Listings(stall.value) ==> !MatchesSelection(l, SelectedAssetId(page)))
      && OwnerSteamId(page) == page.viewerSteamId
  {
    StallListing(stall, page).None? && OwnerSteamId(page) == page.viewerSteamId
  }

  /** Which of the render branches is taken; markup and formatting are not modelled. */
  datatype View =
    | Loading
    | Empty
    | Populated(info: ItemInfo, listCallToAction: bool, marketListing: Option<Listing>)

  /**
   * `render`: loading first, then empty when there is no item info, otherwise
   * the item info with the list call-to-action and the market-listing button,
   * which never appear together.
   */
  function Render(loading: bool, itemInfo: Option<ItemInfo>, stall: Option<Stall>, page: Page): (v: View)
    ensures v.Loading? <==> loading
    ensures v.Empty? <==> !loading && itemInfo.None?
    ensures v.Populated? ==> Some(v.info) == itemInfo
    ensures v.Populated? ==> v.marketListing == StallListing(stall, page)
    ensures v.Populated? ==> v.listCallToAction == ListCallToAction(stall, page)
    ensures v.Populated? ==> !(v.listCallToAction && v.marketListing.Some?)
  {
    if loading then Loading
    else match itemInfo
      case None => Empty
      case Some(info) => Populated(info, ListCallToAction(stall, page), StallListing(stall, page))
  }

  /** A template without placeholders comes back unchanged. */
  lemma InspectLinkWithoutPlaceholders(page: Page)
    requires InspectLink(page).Some?
    requires '%' !in FirstLink(SelectedAsset(page).value)
    ensures InspectLink(page) == Some(FirstLink(SelectedAsset(page).value))
  {
    var asset := SelectedAsset(page).value;
    var template := FirstLink(asset);
    NoOccurrenceWithoutFirstChar(template, OwnerToken);
    ReplaceFirstAbsent(template, OwnerToken, ToJsString(InventoryOwner(page).value.strSteamId));
    NoOccurrenceWithoutFirstChar(template, AssetToken);
    ReplaceFirstAbsent(template, AssetToken, ToJsString(asset.assetid));
  }

  /** The link `inspectLink` builds: both substitutions applied to the first action's template. */
  lemma InspectLinkUnfolds(page: Page)
    requires InspectLink(page).Some?
    ensures InspectLink(page) ==
      Some(ReplaceFirst(ReplaceFirst(FirstLink(SelectedAsset(page).value), OwnerToken, ToJsString(OwnerSteamId(page))),
                        AssetToken, ToJsString(SelectedAssetId(page))))
  {
    var asset, owner := SelectedAsset(page).value, InventoryOwner(page).value;
    assert ToJsString(OwnerSteamId(page)) == ToJsString(owner.strSteamId);
    assert ToJsString(SelectedAssetId(page)) == ToJsString(asset.assetid);
  }

  /**
   * A template `prefix %owner_steamid% middle %assetid% suffix` in which neither
   * placeholder starts before the place shown yields the owner id and the asset
   * id in place of the placeholders; the suffix is kept verbatim, so any later
   * placeholder in it is left unreplaced.
   */
  lemma InspectLinkFillsTemplate(page: Page, prefix: string, middle: string, suffix: string)
    requires InspectLink(page).Some?
    requires FirstLink(SelectedAsset(page).value) == prefix + OwnerToken + middle + AssetToken + suffix
    requires forall j :: 0 <= j < |prefix| ==>
      !OccursAt(prefix + OwnerToken + middle + AssetToken + suffix, OwnerToken, j)
    requires forall j :: 0 <= j < |prefix + ToJsString(OwnerSteamId(page)) + middle| ==>
      !OccursAt(prefix + ToJsString(OwnerSteamId(page)) + middle + AssetToken + suffix, AssetToken, j)
    requires '$' !in ToJsString(OwnerSteamId(page)) && '$' !in ToJsString(SelectedAssetId(page))
    ensures InspectLink(page) ==
      Some(prefix + ToJsString(OwnerSteamId(page)) + middle + ToJsString(SelectedAssetId(page)) + suffix)
  {
    InspectLinkUnfolds(page);
    TemplateSubstitution(prefix, middle, suffix, ToJsString(OwnerSteamId(page)), ToJsString(SelectedAssetId(page)));
  }

  /**
   * The inspect link for Steam's template shape
   * `<app path>%20S%owner_steamid%A%assetid%D<rest>`: the `%20` before the first
   * placeholder is not mistaken for it, and the ids land in place.
   */
  lemma InspectLinkForSteamTemplate(page: Page, appPath: string, rest: string)
    requires InspectLink(page).Some?
    requires FirstLink(SelectedAsset(page).value) == appPath + "%20S" + OwnerToken + "A" + AssetToken + "D" + rest
    requires '%' !in appPath
    requires '%' !in ToJsString(OwnerSteamId(page)) && '$' !in ToJsString(OwnerSteamId(page))
    requires '$' !in ToJsString(SelectedAssetId(page))
    ensures InspectLink(page) ==
      Some(appPath + "%20S" + ToJsString(OwnerSteamId(page)) + "A" + ToJsString(SelectedAssetId(page)) + "D" + rest)
  {
    InspectLinkUnfolds(page);
    SteamTemplateSubstitution(appPath, ToJsString(OwnerSteamId(page)), ToJsString(SelectedAssetId(page)), rest);
  }

  /** The first two characters of each placeholder. */
  lemma TokenHeads()
    ensures |OwnerToken| > 1 && OwnerToken[0] == '%' && OwnerToken[1] == 'o'
    ensures |AssetToken| > 1 && AssetToken[0] == '%' && AssetToken[1] == 'a'
  {
    assert OwnerToken == ['%', 'o'] + "wner_steamid%";
    assert AssetToken == ['%', 'a'] + "ssetid%";
  }

  /**
   * The two substitutions of `inspectLink` on a template with both
   * placeholders, when neither placeholder starts before the place shown.
   */
  lemma TemplateSubstitution(prefix: string, middle: string, suffix: string, ownerId: string, assetId: string)
    requires forall j :: 0 <= j < |prefix| ==>
      !OccursAt(prefix + OwnerToken + middle + AssetToken + suffix, OwnerToken, j)
    requires forall j :: 0 <= j < |prefix + ownerId + middle| ==>
      !OccursAt(prefix + ownerId + middle + AssetToken + suffix, AssetToken, j)
    requires '$' !in ownerId && '$' !in assetId
    ensures ReplaceFirst(ReplaceFirst(prefix + OwnerToken + middle + AssetToken + suffix, OwnerToken, ownerId),
                         AssetToken, assetId)
         == prefix + ownerId + middle + assetId + suffix
  {
    var rest := middle + AssetToken + suffix;
    assert prefix + OwnerToken + middle + AssetToken + suffix == prefix + OwnerToken + rest;
    ReplaceFirstAfterPrefix(prefix, OwnerToken, rest, ownerId);
    var head := prefix + ownerId + middle;
    assert prefix + ownerId + rest == head + AssetToken + suffix;
    ReplaceFirstAfterPrefix(head, AssetToken, suffix, assetId);
  }

  /**
   * Steam's template shape `<app path>%20S%owner_steamid%A%assetid%D<rest>`,
   * with no '%' in the app path or the owner id: both placeholders are found
   * where they stand and replaced by the ids.
   */
  lemma SteamTemplateSubstitution(appPath: string, ownerId: string, assetId: string, rest: string)
    requires '%' !in appPath && '%' !in ownerId
    requires '$' !in ownerId && '$' !in assetId
    ensures ReplaceFirst(ReplaceFirst(appPath + "%20S" + OwnerToken + "A" + AssetToken + "D" + rest, OwnerToken, ownerId),
                         AssetToken, assetId)
         == appPath + "%20S" + ownerId + "A" + assetId + "D" + rest
  {
    TokenHeads();
    var prefix, middle, suffix := appPath + "%20S", "A", "D" + rest;
    var n := |appPath|;
    var template := prefix + OwnerToken + middle + AssetToken + suffix;
    assert appPath + "%20S" + OwnerToken + "A" + AssetToken + "D" + rest == template;
    // the only '%' before either placeholder is the one of "%20", followed by '2'
    forall j | 0 <= j < |prefix| ensures !OccursAt(template, OwnerToken, j) {
      assert template[j] == prefix[j] && template[n + 1] == '2';
      if j == n {
        MismatchAt(template, OwnerToken, j, 1);
      } else {
        assert j < n ==> prefix[j] == appPath[j];
        MismatchAt(template, OwnerToken, j, 0);
      }
    }
    var head := prefix + ownerId + middle;
    var filled := head + AssetToken + suffix;
    forall j | 0 <= j < |head| ensures !OccursAt(filled, AssetToken, j) {
      assert filled[j] == head[j] && filled[n + 1] == '2';
      if j == n {
        MismatchAt(filled, AssetToken, j, 1);
      } else {
        if j < n { assert head[j] == appPath[j]; }
        else if j < |prefix| { assert head[j] == prefix[j]; }
        else if j < |prefix| + |ownerId| { assert head[j] == ownerId[j - |prefix|]; }
        else { assert head[j] == 'A'; }
        MismatchAt(filled, AssetToken, j, 0);
      }
    }
    assert prefix + ownerId + middle + AssetToken + suffix == filled;
    TemplateSubstitution(prefix, middle, suffix, ownerId, assetId);
    assert prefix + ownerId + middle + assetId + suffix == appPath + "%20S" + ownerId + "A" + assetId + "D" + rest;
  }
}
