/**
  The application's fixed configuration: the page sizes of the tag endpoints,
  the sort vocabulary, the fields an item update may carry and the item types
  that count as collections.
 */
module Config {

  /** The item types hidden when a request asks to exclude collections. */
  const CollectionItemTypes: seq<string> := ["BoxSet", "CollectionFolder"]

  /** Page size requested from the tag-listing endpoints. */
  const TagPageLimit: nat := 200

  /** The number of non-empty tag pages after which pagination gives up. */
  const MaxTagPages: nat := 100

  const DefaultSortBy: string := "SortName"
  const DefaultSortOrder: string := "Ascending"
  const SortableFields: seq<string> := ["SortName", "PremiereDate"]
  const SortOrders: seq<string> := ["Ascending", "Descending"]

  /** The item fields copied into an update payload, in payload order. */
  const UpdateFields: seq<string> := [
    "Id", "Name", "SortName", "Overview", "Genres", "Tags", "ProviderIds",
    "CommunityRating", "CriticRating", "OfficialRating", "ProductionYear",
    "PremiereDate", "EndDate", "Taglines", "People", "Studios"
  ]
}
