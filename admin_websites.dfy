/**
 * The page that manages the reported websites: a list loaded from the `websites` table and
 * one dialog used both to add a website and to rename one. The page is a class whose fields
 * are its React state; the table is a `ReferenceTable.Table`. The outcome of each request
 * (refused or not) is an argument of the handler that makes it.
 */
module AdminWebsites {
  import opened Wrappers
  import opened JsText
  import opened ReferenceTable

  /** A website row's columns besides its id. */
  datatype WebsiteData = WebsiteData(name: string)

  type Website = Row<WebsiteData>

  /** The write a save sends to the table. */
  datatype Write = UpdateWebsite(id: nat, data: WebsiteData) | InsertWebsite(data: WebsiteData)

  class WebsitesPage {
    var items: seq<Website>
    var open: bool
    var editItem: Option<Website>
    var name: string

    constructor ()
      ensures items == [] && !open && editItem.None? && name == ""
    {
      items, open, editItem, name := [], false, None, "";
    }

    /** `fetch`: the list becomes the table's rows in `created_at` order, or empty when the
        select returns no data. */
    method Fetch(db: Table<WebsiteData>, fails: bool)
      modifies this
      ensures items == if fails then [] else db.rows
      ensures open == old(open) && editItem == old(editItem) && name == old(name)
    {
      var data := db.Select(fails);
      items := data.GetOr([]);
    }

    /** The "add" button: a fresh dialog. */
    method OpenAdd()
      modifies this
      ensures editItem.None? && name == "" && open
      ensures items == old(items)
    {
      editItem, name, open := None, "", true;
    }

    /** The edit button of a row: the dialog loads that row's name. */
    method OpenEdit(item: Website)
      modifies this
      ensures editItem == Some(item) && name == item.data.name && open
      ensures items == old(items)
    {
      editItem, name, open := Some(item), item.data.name, true;
    }

    /**
     * `handleSave`. A name that is blank after trimming sends nothing and changes nothing.
     * Otherwise the trimmed name is written: as an update of the edited row's id, or as a new
     * row. A refused write returns early and leaves the dialog and the list as they were; an
     * accepted one closes and resets the dialog and reloads the list.
     */
    method Save(db: Table<WebsiteData>, refusal: Option<string>, listFails: bool) returns (write: Option<Write>)
      requires db.Valid()
      modifies this, db
      ensures db.Valid()
      ensures write.None? <==> Trim(old(name)) == []
      ensures write.Some? && old(editItem).Some? ==>
        write.value == UpdateWebsite(old(editItem).value.id, WebsiteData(Trim(old(name))))
      ensures write.Some? && old(editItem).None? ==> write.value == InsertWebsite(WebsiteData(Trim(old(name))))
      ensures write.None? || refusal.Some? ==>
        && db.rows == old(db.rows) && db.nextId == old(db.nextId)
        && items == old(items) && open == old(open) && editItem == old(editItem) && name == old(name)
      ensures write.Some? && refusal.None? ==>
        && db.rows == (match write.value
                       case UpdateWebsite(id, data) => Updated(old(db.rows), id, data)
                       case InsertWebsite(data) => old(db.rows) + [Row(old(db.nextId), data)])
        && db.nextId == (if write.value.InsertWebsite? then old(db.nextId) + 1 else old(db.nextId))
        && !open && editItem.None? && name == ""
        && items == (if listFails then [] else db.rows)
    {
      write := None;
      var trimmed := Trim(name);
      if trimmed == [] {
        return;
      }
      var data := WebsiteData(trimmed);
      var error;
      if editItem.Some? {
        write := Some(UpdateWebsite(editItem.value.id, data));
        error := db.Update(editItem.value.id, data, refusal);
      } else {
        write := Some(InsertWebsite(data));
        error := db.Insert(data, refusal);
      }
      if error.Some? {
        return;
      }
      open, editItem, name := false, None, "";
      Fetch(db, listFails);
    }

    /** `handleDelete`. A refused delete leaves the list as it was, without reloading it; an
        accepted one reloads it. The dialog is not touched. */
    method Delete(db: Table<WebsiteData>, id: nat, refusal: Option<string>, listFails: bool)
      requires db.Valid()
      modifies this, db
      ensures db.Valid()
      ensures refusal.Some? ==> db.rows == old(db.rows) && items == old(items)
      ensures db.nextId == old(db.nextId)
      ensures refusal.None? ==> db.rows == Removed(old(db.rows), id) && items == (if listFails then [] else db.rows)
      ensures open == old(open) && editItem == old(editItem) && name == old(name)
    {
      var error := db.Delete(id, refusal);
      if error.Some? {
        return;
      }
      Fetch(db, listFails);
    }
  }
}
