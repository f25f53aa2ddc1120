/**
 * The edit screen's decisions. The contacts store is an oracle: what it
 * answers (the raw-contact lookup rows, rows updated, rows deleted, the id
 * segment of an inserted raw contact's URI) comes in as parameters, and
 * the requests the screen sends come back as a sequence of store calls.
 */
module EditScreen {
  import opened Wrappers
  import opened Contacts
  import opened LongParse

  /** `Activity.RESULT_OK`. */
  const ResultOk: int := -1
  /** `Activity.RESULT_CANCELED`, what the caller sees when no result was set. */
  const ResultCanceled: int := 0

  /**
   * A request sent to the contacts store. `UpdateName` and `UpdatePhone`
   * select by raw contact and mimetype, so each rewrites every name row or
   * every phone row of that raw contact.
   */
  datatype StoreCall =
    | QueryRawContactId(dataId: int)
    | UpdateName(rawContactId: int, name: string)
    | UpdatePhone(rawContactId: int, phone: string)
    | InsertRawContact
    | InsertName(rawContactId: int, name: string)
    | InsertPhone(rawContactId: int, phone: string)
    | DeleteRawContact(rawContactId: int)

  /** The transient notices the two screens show; the last two belong to the list screen's bulk delete. */
  datatype Notice =
    | BothFieldsEmpty
    | UpdateFailed
    | RawContactIdNotFound
    | ContactSaved
    | ContactDeleted
    | DeleteFailed
    | NoContactToDelete
    | ContactsDeleted
    | NoContactsSelected

  /** What a button press did: store calls, notices, whether RESULT_OK was set, whether the screen closed. */
  datatype Outcome = Outcome(calls: seq<StoreCall>, notices: seq<Notice>, resultOk: bool, finished: bool)

  /** The screen right after `onCreate`: field texts, the id it edits, and the delete button's visibility. */
  datatype Editor = Editor(name: string, phone: string, contactId: Option<int>, deleteVisible: bool)

  /**
   * `onCreate`: a `Contact` extra fills the fields, supplies the id and shows
   * the delete button — also for the add flow's placeholder whose id is
   * absent. Without an extra the fields keep their empty default.
   */
  function OpenEditor(extra: Option<Contact>): (r: Editor)
    ensures r.deleteVisible <==> extra.Some?
    ensures extra.Some? ==> r.name == extra.value.name && r.phone == extra.value.phone && r.contactId == extra.value.id
    ensures extra.None? ==> r.contactId == None && r.name == "" && r.phone == ""
  {
    match extra
    case Some(c) => Editor(c.name, c.phone, c.id, true)
    case None => Editor("", "", None, false)
  }

  /**
   * `getRawContactId`: the RAW_CONTACT_ID of the first row the lookup
   * returns; `None` when the cursor is absent or empty.
   */
  function FirstRawContactId(cursor: Option<seq<int>>): (r: Option<int>)
    ensures r.Some? <==> cursor.Some? && |cursor.value| > 0
    ensures r.Some? ==> r.value == cursor.value[0]
  {
    match cursor
    case Some(rows) => if |rows| > 0 then Some(rows[0]) else None
    case None => None
  }

  /** The store's answers to the requests one save can make. */
  datatype SaveReplies = SaveReplies(
    rawIdRows: Option<seq<int>>,
    nameRowsUpdated: int,
    phoneRowsUpdated: int,
    insertedSegment: Option<string>)

  /** The input passes validation: name and phone are not both empty. */
  predicate ValidInput(name: string, phone: string)
  {
    name != "" || phone != ""
  }

  /**
   * `saveContact`. Invalid input stops before any store call. With an id,
   * the raw contact is looked up and, if found, name and phone are updated
   * separately; the screen then returns RESULT_OK and closes whatever the
   * updates reported. Without an id, a raw contact is inserted; if its URI
   * carries no parseable id the save silently stops, otherwise name and
   * phone rows are inserted (also an empty one) and the screen closes.
   */
  function SaveContact(contactId: Option<int>, name: string, phone: string, replies: SaveReplies): (r: Outcome)
    ensures !ValidInput(name, phone) ==> r == Outcome([], [BothFieldsEmpty], false, false)
    ensures ValidInput(name, phone) && contactId.Some? ==>
      && r.resultOk && r.finished
      && |r.calls| > 0 && r.calls[0] == QueryRawContactId(contactId.value)
      && |r.notices| > 0 && r.notices[|r.notices| - 1] == ContactSaved
      && (RawContactIdNotFound in r.notices <==> FirstRawContactId(replies.rawIdRows).None?)
      && (UpdateFailed in r.notices <==>
            FirstRawContactId(replies.rawIdRows).Some? && replies.nameRowsUpdated == 0 && replies.phoneRowsUpdated == 0)
    ensures ValidInput(name, phone) && contactId.Some? && FirstRawContactId(replies.rawIdRows).None? ==>
      r.calls == [QueryRawContactId(contactId.value)] && r.notices == [RawContactIdNotFound, ContactSaved]
    ensures ValidInput(name, phone) && contactId.Some? && FirstRawContactId(replies.rawIdRows).Some? ==>
      var raw := FirstRawContactId(replies.rawIdRows).value;
      && r.calls == [QueryRawContactId(contactId.value), UpdateName(raw, name), UpdatePhone(raw, phone)]
      && r.notices == (if replies.nameRowsUpdated == 0 && replies.phoneRowsUpdated == 0 then [UpdateFailed] else [])
                      + [ContactSaved]
    ensures ValidInput(name, phone) && contactId.None? ==>
      && |r.calls| > 0 && r.calls[0] == InsertRawContact
      && (r.finished <==> replies.insertedSegment.Some? && ParseLong(replies.insertedSegment.value).Some?)
    ensures ValidInput(name, phone) && contactId.None? && r.finished ==>
      var raw := ParseLong(replies.insertedSegment.value).value;
      r.calls == [InsertRawContact, InsertName(raw, name), InsertPhone(raw, phone)] && r.notices == [ContactSaved]
    ensures ValidInput(name, phone) && contactId.None? && !r.finished ==>
      r == Outcome([InsertRawContact], [], false, false)
    ensures r.resultOk <==> r.finished
  {
    if !ValidInput(name, phone) then Outcome([], [BothFieldsEmpty], false, false)
    else match contactId
      case Some(id) =>
        var lookup := [QueryRawContactId(id)];
        var (calls, notices) := match FirstRawContactId(replies.rawIdRows)
          case Some(raw) =>
            (lookup + [UpdateName(raw, name), UpdatePhone(raw, phone)],
             if replies.nameRowsUpdated == 0 && replies.phoneRowsUpdated == 0 then [UpdateFailed] else [])
          case None => (lookup, [RawContactIdNotFound]);
        Outcome(calls, notices + [ContactSaved], true, true)
      case None =>
        var newRawId := match replies.insertedSegment
          case Some(segment) => ParseLong(segment)
          case None => None;
        match newRawId
        case None => Outcome([InsertRawContact], [], false, false)
        case Some(raw) =>
          Outcome([InsertRawContact, InsertName(raw, name), InsertPhone(raw, phone)], [ContactSaved], true, true)
  }

  /**
   * `deleteContact`. Without an id nothing is asked of the store; otherwise
   * the raw contact is looked up and deleted, and only a delete that removed
   * rows sets RESULT_OK and closes the screen.
   */
  function DeleteContact(contactId: Option<int>, rawIdRows: Option<seq<int>>, rowsDeleted: int): (r: Outcome)
    ensures contactId.None? ==> r == Outcome([], [NoContactToDelete], false, false)
    ensures contactId.Some? && FirstRawContactId(rawIdRows).None? ==>
      r == Outcome([QueryRawContactId(contactId.value)], [RawContactIdNotFound], false, false)
    ensures contactId.Some? && FirstRawContactId(rawIdRows).Some? ==>
      && r.calls == [QueryRawContactId(contactId.value), DeleteRawContact(FirstRawContactId(rawIdRows).value)]
      && r.notices == [if rowsDeleted > 0 then ContactDeleted else DeleteFailed]
    ensures r.finished <==> contactId.Some? && FirstRawContactId(rawIdRows).Some? && rowsDeleted > 0
    ensures r.resultOk <==> r.finished
  {
    match contactId
    case None => Outcome([], [NoContactToDelete], false, false)
    case Some(id) =>
      match FirstRawContactId(rawIdRows)
      case None => Outcome([QueryRawContactId(id)], [RawContactIdNotFound], false, false)
      case Some(raw) =>
        var calls := [QueryRawContactId(id), DeleteRawContact(raw)];
        if rowsDeleted > 0 then Outcome(calls, [ContactDeleted], true, true)
        else Outcome(calls, [DeleteFailed], false, false)
  }

  /** The result code the calling screen receives when this screen is left. */
  function ResultCode(o: Outcome): int
  {
    if o.resultOk then ResultOk else ResultCanceled
  }

  /**
   * The add flow's placeholder (no id) shows the delete button, and pressing
   * it only shows "No contact to delete": nothing reaches the store and the
   * screen stays open.
   */
  lemma AddFlowDeleteDoesNothing(rawIdRows: Option<seq<int>>, rowsDeleted: int)
    ensures OpenEditor(Some(Contact(None, "", ""))).deleteVisible
    ensures DeleteContact(OpenEditor(Some(Contact(None, "", ""))).contactId, rawIdRows, rowsDeleted)
      == Outcome([], [NoContactToDelete], false, false)
  {
  }

  /** A save reaches the store only with input that passed validation. */
  lemma SaveCallsNeedValidInput(contactId: Option<int>, name: string, phone: string, replies: SaveReplies)
    ensures |SaveContact(contactId, name, phone, replies).calls| > 0 ==> ValidInput(name, phone)
  {
  }

  /**
   * A new contact is created whenever the store's URI ends in the id it
   * wrote with `Long.toString()`: the insert path then runs to the end.
   */
  lemma InsertWithWellFormedUriCompletes(name: string, phone: string, replies: SaveReplies, newId: int)
    requires ValidInput(name, phone) && InLongRange(newId)
    requires replies.insertedSegment == Some(ShowLong(newId))
    ensures SaveContact(None, name, phone, replies)
      == Outcome([InsertRawContact, InsertName(newId, name), InsertPhone(newId, phone)], [ContactSaved], true, true)
  {
    ParseShowLong(newId);
  }
}
