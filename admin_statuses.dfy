/**
 * The page that manages report statuses: a list loaded from the `statuses` table and one
 * dialog used both to add a status and to edit one. The page is a class whose fields are its
 * React state; the table is a `ReferenceTable.Table`. The outcome of each request (refused
 * or not) is an argument of the handler that makes it.
 */
module AdminStatuses {
  import opened Wrappers
  import opened JsText
  import opened ReferenceTable

  /** A status row's columns besides its id: the name and a nullable colour. */
  datatype StatusData = StatusData(name: string, color: Option<string>)

  type Status = Row<StatusData>

  /** The colour the dialog starts with and falls back to. */
  const DefaultColor := "#6b7280"

  /** The write a save sends to the table. */
  datatype Write = UpdateStatus(id: nat, data: StatusData) | InsertStatus(data: StatusData)

  /** The colour the edit dialog shows for a stored colour: `color || "#6b7280"`. */
  function ShownColor(color: Option<string>): (c: string)
    ensures c != []
    ensures color.Some? && color.value != [] ==> c == color.value
    ensures color.None? || color.value == [] ==> c == DefaultColor
  {
    match color
    case Some(s) => if s != [] then s else DefaultColor
    case None => DefaultColor
  }

  class StatusesPage {
    var items: seq<Status>
    var open: bool
    var editItem: Option<Status>
    var name: string
    var color: string

    constructor ()
      ensures items == [] && !open && editItem.None? && name == "" && color == DefaultColor
    {
      items, open, editItem, name, color := [], false, None, "", DefaultColor;
    }

    /** `fetch`: the list becomes the table's rows in `created_at` order, or empty when the
        select returns no data. */
    method Fetch(db: Table<StatusData>, fails: bool)
      modifies this
      ensures items == if fails then [] else db.rows
      ensures open == old(open) && editItem == old(editItem) && name == old(name) && color == old(color)
    {
      var data := db.Select(fails);
      items := data.GetOr([]);
    }

    /** The "add" button: a fresh dialog. */
    method OpenAdd()
      modifies this
      ensures editItem.None? && name == "" && color == DefaultColor && open
      ensures items == old(items)
    {
      editItem, name, color, open := None, "", DefaultColor, true;
    }

    /** The edit button of a row: the dialog loads that row's name and colour. */
    method OpenEdit(item: Status)
      modifies this
      ensures editItem == Some(item) && name == item.data.name && color == ShownColor(item.data.color) && open
      ensures items == old(items)
    {
      editItem, name, color, open := Some(item), item.data.name, ShownColor(item.data.color), true;
    }

    /**
     * `handleSave`. A name that is blank after trimming sends nothing and changes nothing.
     * Otherwise the trimmed name and the colour are written: as an update of the edited row's
     * id, or as a new row. A refused write returns early and leaves the dialog and the list as
     * they were; an accepted one closes and resets the dialog and reloads the list.
     */
    method Save(db: Table<StatusData>, refusal: Option<string>, listFails: bool) returns (write: Option<Write>)
      requires db.Valid()
      modifies this, db
      ensures db.Valid()
      ensures write.None? <==> Trim(old(name)) == []
      ensures write.Some? && old(editItem).Some? ==>
        write.value == UpdateStatus(old(editItem).value.id, StatusData(Trim(old(name)), Some(old(color))))
      ensures write.Some? && old(editItem).None? ==> write.value == InsertStatus(StatusData(Trim(old(name)), Some(old(color))))
      ensures write.None? || refusal.Some? ==>
        && db.rows == old(db.rows) && db.nextId == old(db.nextId)
        && items == old(items) && open == old(open) && editItem == old(editItem)
        && name == old(name) && color == old(color)
      ensures write.Some? && refusal.None? ==>
        && db.rows == (match write.value
                       case UpdateStatus(id, data) => Updated(old(db.rows), id, data)
                       case InsertStatus(data) => old(db.rows) + [Row(old(db.nextId), data)])
        && db.nextId == (if write.value.InsertStatus? then old(db.nextId) + 1 else old(db.nextId))
        && !open && editItem.None? && name == "" && color == DefaultColor
        && items == (if listFails then [] else db.rows)
    {
      write := None;
      var trimmed := Trim(name);
      if trimmed == [] {
        return;
      }
      var data := StatusData(trimmed, Some(color));
      var error;
      if editItem.Some? {
        write := Some(UpdateStatus(editItem.value.id, data));
        error := db.Update(editItem.value.id, data, refusal);
      } else {
        write := Some(InsertStatus(data));
        error := db.Insert(data, refusal);
      }
      if error.Some? {
        return;
      }
      open, editItem, name, color := false, None, "", DefaultColor;
      Fetch(db, listFails);
    }

    /** `handleDelete`. A refused delete leaves the list as it was, without reloading it; an
        accepted one reloads it. The dialog is not touched. */
    method Delete(db: Table<StatusData>, id: nat, refusal: Option<string>, listFails: bool)
      requires db.Valid()
      modifies this, db
      ensures db.Valid()
      ensures refusal.Some? ==> db.rows == old(db.rows) && items == old(items)
      ensures db.nextId == old(db.nextId)
      ensures refusal.None? ==> db.rows == Removed(old(db.rows), id) && items == (if listFails then [] else db.rows)
      ensures open == old(open) && editItem == old(editItem) && name == old(name) && color == old(color)
    {
      var error := db.Delete(id, refusal);
      if error.Some? {
        return;
      }
      Fetch(db, listFails);
    }
  }
}
