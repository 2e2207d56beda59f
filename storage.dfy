/** Browser storage of the user's settings and of the history of generated
    images. `localStorage` is a map from key to stored value; serialising to
    and from JSON is the identity. Outside a browser (no `window`) every
    getter returns its empty value and every mutator does nothing. */
module Storage {
  import opened Basics
  import opened Text

  datatype UserSettings = UserSettings(ethnicity: string, sex: string, haircolor: string)

  datatype SavedImage = SavedImage(id: string, uri: string, timestamp: int)

  /** A value as stored under a key (after the JSON round trip). */
  datatype Stored = SettingsValue(settings: UserSettings) | ImagesValue(images: seq<SavedImage>)

  const UserSettingsKey: string := "userSettings"
  const SavedImagesKey: string := "savedImages"

  /** `images.filter(img => img.id !== id)`. */
  function WithoutId(images: seq<SavedImage>, id: string): (r: seq<SavedImage>)
    ensures |r| <= |images|
    ensures forall img :: img in r <==> img in images && img.id != id
  {
    if images == [] then []
    else (if images[0].id != id then [images[0]] else []) + WithoutId(images[1..], id)
  }

  /** Filtering keeps order: it distributes over concatenation. */
  lemma {:induction false} WithoutIdAppend(a: seq<SavedImage>, b: seq<SavedImage>, id: string)
    ensures WithoutId(a + b, id) == WithoutId(a, id) + WithoutId(b, id)
  {
    if a == [] {
      assert a + b == b;
    } else {
      assert (a + b)[1..] == a[1..] + b;
      WithoutIdAppend(a[1..], b, id);
    }
  }

  /** Deleting an id that no image has leaves the list unchanged. */
  lemma {:induction false} WithoutAbsentId(images: seq<SavedImage>, id: string)
    requires forall img :: img in images ==> img.id != id
    ensures WithoutId(images, id) == images
  {
    if images != [] {
      WithoutAbsentId(images[1..], id);
    }
  }

  /** Deleting twice is deleting once. */
  lemma WithoutIdIdempotent(images: seq<SavedImage>, id: string)
    ensures WithoutId(WithoutId(images, id), id) == WithoutId(images, id)
  {
    WithoutAbsentId(WithoutId(images, id), id);
  }

  /** Deleting an id removes exactly the images with that id and keeps the
      relative order of the others: the images before and after an image
      that survives survive in the same places around it. */
  lemma WithoutIdKeepsOthersInOrder(before: seq<SavedImage>, img: SavedImage, after: seq<SavedImage>, id: string)
    requires img.id != id
    ensures WithoutId(before + [img] + after, id) == WithoutId(before, id) + [img] + WithoutId(after, id)
  {
    WithoutIdAppend(before + [img], after, id);
    WithoutIdAppend(before, [img], id);
    assert [img][1..] == [];
    assert WithoutId([img], id) == [img];
  }

  /** `localStorage` as the storage utilities see it. */
  class LocalStore {
    /** `typeof window !== 'undefined'`. */
    const hasWindow: bool
    var items: map<string, Stored>

    /** The two keys hold values of the shape these utilities write. */
    ghost predicate Valid()
      reads this
    {
      && (UserSettingsKey in items ==> items[UserSettingsKey].SettingsValue?)
      && (SavedImagesKey in items ==> items[SavedImagesKey].ImagesValue?)
    }

    constructor (hasWindow: bool)
      ensures Valid() && this.hasWindow == hasWindow && items == map[]
    {
      this.hasWindow := hasWindow;
      items := map[];
    }

    /** `getUserSettings`. */
    function GetUserSettings(): (r: Option<UserSettings>)
      reads this
      requires Valid()
      ensures !hasWindow ==> r.None?
      ensures hasWindow ==> (r.Some? <==> UserSettingsKey in items)
      ensures r.Some? ==> items[UserSettingsKey] == SettingsValue(r.value)
    {
      if !hasWindow then None
      else if UserSettingsKey in items then Some(items[UserSettingsKey].settings)
      else None
    }

    /** `hasUserSettings`: settings are stored and their ethnicity, sex and
        hair colour are all non-empty. */
    function HasUserSettings(): (b: bool)
      reads this
      requires Valid()
      ensures b <==> (hasWindow && UserSettingsKey in items
                      && items[UserSettingsKey].settings.ethnicity != ""
                      && items[UserSettingsKey].settings.sex != ""
                      && items[UserSettingsKey].settings.haircolor != "")
    {
      var settings := GetUserSettings();
      settings.Some? && settings.value.ethnicity != "" && settings.value.sex != ""
        && settings.value.haircolor != ""
    }

    /** `getSavedImages`: most recent first; empty when nothing is stored. */
    function GetSavedImages(): (r: seq<SavedImage>)
      reads this
      requires Valid()
      ensures !hasWindow ==> r == []
      ensures hasWindow && SavedImagesKey !in items ==> r == []
      ensures hasWindow && SavedImagesKey in items ==> items[SavedImagesKey] == ImagesValue(r)
    {
      if !hasWindow then []
      else if SavedImagesKey in items then items[SavedImagesKey].images
      else []
    }

    /** `setUserSettings`: afterwards `getUserSettings` returns `s`. */
    method SetUserSettings(s: UserSettings)
      requires Valid()
      modifies this
      ensures Valid()
      ensures GetUserSettings() == if hasWindow then Some(s) else old(GetUserSettings())
      ensures GetSavedImages() == old(GetSavedImages())
      ensures hasWindow ==> items == old(items)[UserSettingsKey := SettingsValue(s)]
      ensures !hasWindow ==> items == old(items)
    {
      if !hasWindow {
        return;
      }
      items := items[UserSettingsKey := SettingsValue(s)];
    }

    /** `clearUserSettings`: afterwards `getUserSettings` returns `null`. */
    method ClearUserSettings()
      requires Valid()
      modifies this
      ensures Valid()
      ensures GetUserSettings().None?
      ensures !HasUserSettings()
      ensures GetSavedImages() == old(GetSavedImages())
      ensures hasWindow ==> items == old(items) - {UserSettingsKey}
      ensures !hasWindow ==> items == old(items)
    {
      if !hasWindow {
        return;
      }
      items := items - {UserSettingsKey};
    }

    /** `saveGeneratedImage(uri)`: the new image, whose id is the clock
        reading printed in decimal, goes in front of the saved list.
        `Date.now()` is read twice: `idClock` and `timestampClock`. */
    method SaveGeneratedImage(uri: string, idClock: nat, timestampClock: nat)
      requires Valid()
      modifies this
      ensures Valid()
      ensures hasWindow ==> GetSavedImages()
                            == [SavedImage(NatToDecimal(idClock), uri, timestampClock)] + old(GetSavedImages())
      ensures hasWindow ==> |GetSavedImages()| == |old(GetSavedImages())| + 1
      ensures GetUserSettings() == old(GetUserSettings())
      ensures hasWindow ==> items == old(items)[SavedImagesKey := ImagesValue(GetSavedImages())]
      ensures !hasWindow ==> items == old(items)
    {
      if !hasWindow {
        return;
      }
      var savedImages := GetSavedImages();
      var newImage := SavedImage(NatToDecimal(idClock), uri, timestampClock);
      savedImages := [newImage] + savedImages;
      items := items[SavedImagesKey := ImagesValue(savedImages)];
    }

    /** `deleteSavedImage(id)`: every image with that id goes, the rest stay
        in order. */
    method DeleteSavedImage(id: string)
      requires Valid()
      modifies this
      ensures Valid()
      ensures hasWindow ==> GetSavedImages() == WithoutId(old(GetSavedImages()), id)
      ensures forall img :: img in GetSavedImages() ==> img.id != id || !hasWindow
      ensures GetUserSettings() == old(GetUserSettings())
      ensures hasWindow ==> items == old(items)[SavedImagesKey := ImagesValue(GetSavedImages())]
      ensures !hasWindow ==> items == old(items)
    {
      if !hasWindow {
        return;
      }
      var savedImages := GetSavedImages();
      var filteredImages := WithoutId(savedImages, id);
      items := items[SavedImagesKey := ImagesValue(filteredImages)];
    }
  }
}
