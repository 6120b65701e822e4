/**
 * The values the inventory-page component reads: the host page's globals
 * (`g_ActiveInventory`, `g_steamID`), the selected inventory asset, and the two
 * fetched records (float information for one item, the owner's market stall).
 * Fields the component does not read are omitted.
 */
module SteamPage {
  import opened Wrappers

  /** One entry of `description.actions`; its `link` is a template with placeholders. */
  datatype Action = Action(link: string)

  /** `description.actions` may be missing altogether. */
  datatype Description = Description(actions: Option<seq<Action>>)

  /** An inventory asset (`InventoryAsset`): its id and its optional description. */
  datatype Asset = Asset(assetid: Option<string>, description: Option<Description>)

  /** `m_owner` of the active inventory; `strSteamId` may be undefined. */
  datatype Owner = Owner(strSteamId: Option<string>)

  /** `g_ActiveInventory`: the selected item and the owner, each optional. */
  datatype Inventory = Inventory(selectedItem: Option<Asset>, owner: Option<Owner>)

  /**
   * The page globals at one instant: `g_ActiveInventory` (may be undefined) and
   * `g_steamID`, the signed-in viewer's id (absent when nobody is signed in).
   */
  datatype Page = Page(activeInventory: Option<Inventory>, viewerSteamId: Option<string>)

  /**
   * The float record for one item (`ItemInfo`). Only passed through to the view;
   * the float is kept as an exact number because its formatting is not modelled.
   */
  datatype ItemInfo = ItemInfo(floatValue: real, paintSeed: int)

  /** One market listing (`Contract`): its id, its price in cents and the listed asset's id. */
  datatype Listing = Listing(id: string, price: int, itemAssetId: string)

  /** The owner's stall (`FetchStallResponse`); `listings` may be missing. */
  datatype Stall = Stall(listings: Option<seq<Listing>>)

  /** A missing `listings` field reads as the empty list (`stall.listings || []`). */
  function Listings(stall: Stall): seq<Listing> {
    stall.listings.GetOr([])
  }
}
