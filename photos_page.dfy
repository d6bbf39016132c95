/** The photos page: a grid of photos, each favourite or not, the "Total Photos" and
    "Favorites" counters, and a modal that shows one selected photo. The modal holds
    its own copy of the photo record, which a toggle keeps in step with the list. */
module PhotosPage {
  import opened ListOps
  import opened Toggleable

  /** The fields of a photo that a toggle never changes. */
  datatype Picture = Picture(title: string, description: string, date: string, people: seq<string>)

  /** A photo; its flag is `isFavorite`. */
  type Photo = Item<Picture>

  /** The list the page starts with every time it is mounted. */
  function Seed(): seq<Photo>
  {
    [ Item(1, Picture("Family Gathering", "Thanksgiving dinner", "November 2025", ["John", "Mary", "Sarah"]), true),
      Item(2, Picture("Beach Vacation", "Summer fun", "July 2025", ["Emily", "Michael"]), true),
      Item(3, Picture("Birthday Party", "80th celebration", "March 2025", ["Family", "Friends"]), false),
      Item(4, Picture("Anniversary", "50 years together", "June 2024", ["Spouse"]), true),
      Item(5, Picture("Garden Party", "Spring celebration", "April 2025", ["Neighbors"]), false),
      Item(6, Picture("Christmas", "Opening presents", "December 2024", ["John", "Mary"]), true) ]
  }

  /** `favoritePhotos`: exactly the favourite photos, in list order, so never more than
      there are photos. */
  function FavoritePhotos(photos: seq<Photo>): (r: seq<Photo>)
    ensures forall p :: p in r <==> p in photos && p.flag
    ensures |r| == |Positions(photos, Flagged)| && |r| <= |photos|
  {
    FilterLength(photos, Flagged);
    forall p ensures p in Filter(photos, Flagged) <==> p in photos && p.flag {
      FilterMembership(photos, Flagged, p);
    }
    Filter(photos, Flagged)
  }

  /** The selection is either empty or a copy of a record that is in the list. */
  predicate Synced(photos: seq<Photo>, selected: Option<Photo>)
  {
    selected.None? || selected.value in photos
  }

  /** What `toggleFavorite(id)` does to the selection: a selected photo with this id has
      its own `isFavorite` flipped; any other selection, or none, is left alone. */
  function SelectionAfterToggle(selected: Option<Photo>, id: int): (r: Option<Photo>)
    ensures r.Some? <==> selected.Some?
    ensures r.Some? ==> r.value.id == selected.value.id && r.value.fields == selected.value.fields
    ensures r.Some? ==> r.value.flag == (if selected.value.id == id then !selected.value.flag else selected.value.flag)
  {
    if selected.Some? && selected.value.id == id then Some(Switched(selected.value, id)) else selected
  }

  /** The page's state: the `photos` list and the `selectedPhoto` the modal shows. */
  class Gallery {
    var photos: seq<Photo>
    var selectedPhoto: Option<Photo>

    /** Ids are unique and the selection, if any, is a copy of a list record. */
    ghost predicate Valid()
      reads this
    {
      UniqueIds(photos) && Synced(photos, selectedPhoto)
    }

    constructor ()
      ensures Valid()
      ensures photos == Seed() && selectedPhoto == None
    {
      SeedIdsUnique();
      photos := Seed();
      selectedPhoto := None;
    }

    /** `toggleFavorite(id)`: flips `isFavorite` on the photos with this id, and on the
        selection when it has this id. */
    method ToggleFavorite(id: int)
      requires Valid()
      modifies this
      ensures Valid()
      ensures photos == Toggled(old(photos), id)
      ensures selectedPhoto == SelectionAfterToggle(old(selectedPhoto), id)
      ensures selectedPhoto.Some? ==>
                forall i :: 0 <= i < |photos| && photos[i].id == selectedPhoto.value.id ==>
                  photos[i] == selectedPhoto.value
    {
      ToggleKeepsSelectionSynced(photos, selectedPhoto, id);
      ToggledKeepsIds(photos, id);
      photos := Toggled(photos, id);
      if selectedPhoto.Some? && selectedPhoto.value.id == id {
        selectedPhoto := Some(selectedPhoto.value.(flag := !selectedPhoto.value.flag));
      }
      forall i | 0 <= i < |photos| && selectedPhoto.Some? && photos[i].id == selectedPhoto.value.id
        ensures photos[i] == selectedPhoto.value
      {
        SyncedIsListRecord(photos, selectedPhoto, i);
      }
    }

    /** Tapping a photo card opens the modal on a copy of that photo. */
    method SelectPhoto(p: Photo)
      requires Valid() && p in photos
      modifies this
      ensures Valid()
      ensures selectedPhoto == Some(p) && photos == old(photos)
    {
      selectedPhoto := Some(p);
    }

    /** The backdrop, the X button and "Close" all clear the selection. */
    method ClosePhoto()
      requires Valid()
      modifies this
      ensures Valid()
      ensures selectedPhoto == None && photos == old(photos)
    {
      selectedPhoto := None;
    }
  }

  /** `favoritePhotos` keeps list order: the favourites of a concatenation are the
      favourites of the first part followed by those of the second. */
  lemma FavoritesInOrder(s: seq<Photo>, t: seq<Photo>)
    ensures FavoritePhotos(s + t) == FavoritePhotos(s) + FavoritePhotos(t)
  {
    FilterConcat(s, t, Flagged);
  }

  /** A toggle keeps the selection in step with the list: if it was a copy of a list
      record, it is a copy of a list record afterwards. */
  lemma ToggleKeepsSelectionSynced(photos: seq<Photo>, selected: Option<Photo>, id: int)
    requires Synced(photos, selected)
    ensures Synced(Toggled(photos, id), SelectionAfterToggle(selected, id))
  {
    if selected.Some? {
      var i :| 0 <= i < |photos| && photos[i] == selected.value;
      ToggledAt(photos, id, i);
      assert Toggled(photos, id)[i] == SelectionAfterToggle(selected, id).value;
    }
  }

  /** With unique ids, a synced selection is the very record the list holds under its id,
      so the modal and the grid show the same `isFavorite`. */
  lemma SyncedIsListRecord(photos: seq<Photo>, selected: Option<Photo>, i: nat)
    requires UniqueIds(photos) && Synced(photos, selected)
    requires selected.Some? && i < |photos| && photos[i].id == selected.value.id
    ensures photos[i] == selected.value
  {
  }

  /** Every seed photo has its own id (its position plus one). */
  lemma SeedIdsUnique()
    ensures UniqueIds(Seed())
  {
    var s := Seed();
    forall i, j | 0 <= i < j < |s| ensures s[i].id != s[j].id {
      assert s[i].id == i + 1 && s[j].id == j + 1;
    }
  }

  /** The seed has 6 photos, 4 of them favourites. */
  lemma SeedFavorites()
    ensures |FavoritePhotos(Seed())| == 4 && |Seed()| == 6
  {
    assert CountFlagged(Seed()) == 4;
  }

  /** With photo 3 selected, toggling id 3 leaves both the list record and the selection
      favourite and equal, and the favourites become 5. */
  lemma SeedScenario()
    ensures var photos := Toggled(Seed(), 3);
            var selected := SelectionAfterToggle(Some(Seed()[2]), 3);
            photos[2].id == 3 && photos[2].flag &&
            selected == Some(photos[2]) &&
            |FavoritePhotos(photos)| == 5
  {
    var s := Seed();
    SeedIdsUnique();
    SeedFavorites();
    CountToggled(s, 2);
    ToggledAt(s, 3, 2);
  }
}
