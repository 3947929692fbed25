/** A card's "Save" button: add-if-absent on the favourites list kept in local storage
    under the key 'nc_favs'. */
module Favorites {
  import opened Wrappers
  import opened Meals

  /** A saved favourite, `{id, title, img}`. */
  datatype Fav = Fav(id: string, title: string, img: string)

  /** What `JSON.parse(localStorage.getItem('nc_favs') || '[]')` finds: nothing (a
      missing or empty entry, read as []), text that does not parse to a list, or a
      list of favourites. */
  datatype Blob = Absent | Corrupt | Stored(favs: seq<Fav>)

  /** `a || b || ''` for optional strings: the first one that is present and not empty. */
  function FirstNonEmpty(a: Option<string>, b: Option<string>): (r: string)
    ensures a.Some? && a.value != "" ==> r == a.value
    ensures (a.None? || a.value == "") && b.Some? && b.value != "" ==> r == b.value
    ensures r == "" <==> (a.None? || a.value == "") && (b.None? || b.value == "")
  {
    if a.Some? && a.value != "" then a.value
    else if b.Some? && b.value != "" then b.value
    else ""
  }

  /** The favourite a card for meal m saves: its id, its name falling back to `title`,
      and its thumbnail falling back to `image`. */
  function CardFav(m: Meal): Fav {
    Fav(m.id, FirstNonEmpty(m.name, m.title), FirstNonEmpty(m.thumb, m.image))
  }

  /** The list a blob parses to; only defined when it parses. */
  function FavsOf(blob: Blob): seq<Fav>
    requires !blob.Corrupt?
  {
    if blob.Stored? then blob.favs else []
  }

  /** `favs.find(x => x.id === id)` finds something. */
  predicate Listed(favs: seq<Fav>, id: string) {
    exists k :: 0 <= k < |favs| && favs[k].id == id
  }

  /** How many entries of favs carry the given id. */
  function CountId(favs: seq<Fav>, id: string): nat {
    if favs == [] then 0
    else CountId(favs[..|favs| - 1], id) + (if favs[|favs| - 1].id == id then 1 else 0)
  }

  /** No two entries share an id. */
  predicate UniqueIds(favs: seq<Fav>) {
    forall i, j :: 0 <= i < j < |favs| ==> favs[i].id != favs[j].id
  }

  /** The storage entry and the button text after one click. */
  datatype Effect = Effect(blob: Blob, text: string)

  /** One click on the save button for f, given the stored blob and the current text:
      an unparseable blob is left alone and the text kept (the error is only logged);
      otherwise f is appended and written back with text "Saved" when no entry has its
      id, and nothing is written with text "Already" when one does. */
  function AfterClick(blob: Blob, f: Fav, text: string): Effect {
    if blob.Corrupt? then Effect(blob, text)
    else if Listed(FavsOf(blob), f.id) then Effect(blob, "Already")
    else Effect(Stored(FavsOf(blob) + [f]), "Saved")
  }

  /** A click either leaves the list as it was or appends exactly f at the end; earlier
      entries never change. */
  lemma ClickAppendsOnly(blob: Blob, f: Fav, text: string)
    requires !blob.Corrupt?
    ensures var e := AfterClick(blob, f, text);
      !e.blob.Corrupt?
      && (e.text == "Saved" <==> !Listed(FavsOf(blob), f.id))
      && (e.text == "Already" <==> Listed(FavsOf(blob), f.id))
      && FavsOf(e.blob) == (if Listed(FavsOf(blob), f.id) then FavsOf(blob) else FavsOf(blob) + [f])
  {
  }

  /** Saving is idempotent: a second click on the same card writes nothing more and
      says "Already". */
  lemma ClickIdempotent(blob: Blob, f: Fav, text: string)
    ensures var e1 := AfterClick(blob, f, text);
      var e2 := AfterClick(e1.blob, f, e1.text);
      e2.blob == e1.blob && (!blob.Corrupt? ==> e2.text == "Already")
  {
    var e1 := AfterClick(blob, f, text);
    if !blob.Corrupt? && !Listed(FavsOf(blob), f.id) {
      var favs := FavsOf(blob) + [f];
      assert favs[|favs| - 1].id == f.id;
    }
  }

  lemma {:induction false} CountIdAppend(favs: seq<Fav>, f: Fav, id: string)
    ensures CountId(favs + [f], id) == CountId(favs, id) + (if f.id == id then 1 else 0)
  {
    assert (favs + [f])[..|favs|] == favs;
  }

  lemma {:induction false} CountIdAbsent(favs: seq<Fav>, id: string)
    requires !Listed(favs, id)
    ensures CountId(favs, id) == 0
    decreases |favs|
  {
    if favs != [] {
      var init := favs[..|favs| - 1];
      CountIdAbsent(init, id);
    }
  }

  /** A listed id is counted at least once. */
  lemma {:induction false} CountIdListed(favs: seq<Fav>, id: string)
    requires Listed(favs, id)
    ensures CountId(favs, id) >= 1
    decreases |favs|
  {
    var init := favs[..|favs| - 1];
    if favs[|favs| - 1].id != id {
      var k :| 0 <= k < |favs| && favs[k].id == id;
      assert init[k].id == id;
      CountIdListed(init, id);
    }
  }

  /** Saving a recipe twice leaves exactly one entry with its id, on any readable list
      that held at most one such entry before (as every list built by clicks does). */
  lemma SaveTwiceStoresOnce(blob: Blob, f: Fav, text: string)
    requires !blob.Corrupt? && CountId(FavsOf(blob), f.id) <= 1
    ensures var e1 := AfterClick(blob, f, text);
      var e2 := AfterClick(e1.blob, f, e1.text);
      CountId(FavsOf(e2.blob), f.id) == 1
  {
    ClickIdempotent(blob, f, text);
    if Listed(FavsOf(blob), f.id) {
      CountIdListed(FavsOf(blob), f.id);
    } else {
      CountIdAbsent(FavsOf(blob), f.id);
      CountIdAppend(FavsOf(blob), f, f.id);
    }
  }

  /** Clicks keep the ids of the stored list distinct. */
  lemma ClickKeepsIdsUnique(blob: Blob, f: Fav, text: string)
    requires !blob.Corrupt? && UniqueIds(FavsOf(blob))
    ensures UniqueIds(FavsOf(AfterClick(blob, f, text).blob))
  {
    var favs := FavsOf(blob);
    if !Listed(favs, f.id) {
      var s := favs + [f];
      forall i, j | 0 <= i < j < |s| ensures s[i].id != s[j].id {
        if j == |favs| {
          assert s[i] == favs[i];
        }
      }
    }
  }

  /** The browser's local storage entry 'nc_favs'. */
  class Storage {
    var blob: Blob

    constructor (blob: Blob)
      ensures this.blob == blob
    {
      this.blob := blob;
    }
  }

  /** The save button of one card: the favourite it stores and the text it shows. */
  class SaveButton {
    const fav: Fav
    var text: string

    /** cardForMeal: the button starts out labelled "Save". */
    constructor (m: Meal)
      ensures fav.id == m.id
      ensures fav.title == FirstNonEmpty(m.name, m.title) && fav.img == FirstNonEmpty(m.thumb, m.image)
      ensures text == "Save"
    {
      fav := CardFav(m);
      text := "Save";
    }

    /** The click handler: read the list, append the card's favourite and write the list
        back if its id is absent, and relabel the button. */
    method Click(storage: Storage)
      modifies this`text, storage`blob
      ensures AfterClick(old(storage.blob), fav, old(text)) == Effect(storage.blob, text)
    {
      if storage.blob.Corrupt? {
        return;
      }
      var favs := FavsOf(storage.blob);
      if !Listed(favs, fav.id) {
        favs := favs + [fav];
        storage.blob := Stored(favs);
        text := "Saved";
      } else {
        text := "Already";
      }
    }
  }
}
