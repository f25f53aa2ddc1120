/**
 * The list screen's decisions: opening the edit screen, reloading when it
 * returns, and deleting the selected contacts. Store replies come in as
 * parameters, as on the edit screen.
 */
module MainScreen {
  import opened Wrappers
  import opened Contacts
  import opened Adapter
  import ES = EditScreen

  const AddContactRequest: int := 1
  const EditContactRequest: int := 2

  /** `onActivityResult`: reload only for RESULT_OK coming back from the add or edit flow. */
  function ShouldReload(requestCode: int, resultCode: int): (r: bool)
    ensures r <==> resultCode == ES.ResultOk && (requestCode == AddContactRequest || requestCode == EditContactRequest)
  {
    resultCode == ES.ResultOk && requestCode in {AddContactRequest, EditContactRequest}
  }

  /** An edit screen started for a result: its request code and the `Contact` extra. */
  datatype Launch = Launch(requestCode: int, extra: Contact)

  /** The add button opens the edit screen with an empty placeholder contact. */
  const AddLaunch: Launch := Launch(AddContactRequest, Contact(None, "", ""))

  /** The `onItemClick` callback: outside multi-select mode it opens the tapped contact for editing. */
  function OnItemClick(multiSelect: bool, c: Contact): (r: Option<Launch>)
    ensures r.Some? <==> !multiSelect
    ensures r.Some? ==> r.value.requestCode == EditContactRequest && r.value.extra == c
  {
    if !multiSelect then Some(Launch(EditContactRequest, c)) else None
  }

  /**
   * Whenever the adapter reports a click, the list screen's own mode check
   * passes, so the tapped contact is opened for editing.
   */
  lemma ItemClickOpensEditor(st: AdapterState, c: Contact)
    ensures forall e :: e in Tap(st, c).events ==>
      e == ItemClicked(c) && OnItemClick(Tap(st, c).state.multiSelect, c) == Some(Launch(EditContactRequest, c))
  {
  }

  /**
   * Whatever the edit screen did, the list reloads exactly when it closed
   * with RESULT_OK, for both the add and the edit flow.
   */
  lemma EditorResultDrivesReload(launch: Launch, o: ES.Outcome)
    requires launch == AddLaunch || launch.requestCode == EditContactRequest
    ensures ShouldReload(launch.requestCode, ES.ResultCode(o)) <==> o.resultOk
  {
  }

  /**
   * A save on the edit screen makes the list reload exactly when it closed
   * the edit screen, in both flows.
   */
  lemma SaveReloadsIffClosed(launch: Launch, name: string, phone: string, replies: ES.SaveReplies)
    requires launch == AddLaunch || launch.requestCode == EditContactRequest
    ensures
      var o := ES.SaveContact(ES.OpenEditor(Some(launch.extra)).contactId, name, phone, replies);
      ShouldReload(launch.requestCode, ES.ResultCode(o)) <==> o.finished
  {
  }

  /**
   * A delete on the edit screen makes the list reload exactly when it
   * closed the edit screen, in both flows.
   */
  lemma DeleteReloadsIffClosed(launch: Launch, rawIdRows: Option<seq<int>>, rowsDeleted: int)
    requires launch == AddLaunch || launch.requestCode == EditContactRequest
    ensures
      var o := ES.DeleteContact(ES.OpenEditor(Some(launch.extra)).contactId, rawIdRows, rowsDeleted);
      ShouldReload(launch.requestCode, ES.ResultCode(o)) <==> o.finished
  {
  }

  /** What the delete bar shows: a confirmation with the selection's size, or a notice. */
  datatype DeletePrompt = ConfirmDelete(count: nat) | NothingSelected

  function DeletePromptFor(st: AdapterState): (r: DeletePrompt)
    ensures r.ConfirmDelete? <==> st.selected != {}
    ensures r.ConfirmDelete? ==> r.count == |st.selected|
  {
    if |st.selected| > 0 then ConfirmDelete(|st.selected|) else NothingSelected
  }

  /** What deleting one selected contact sent to the store and showed. */
  datatype ItemReport = ItemReport(contact: Contact, calls: seq<ES.StoreCall>, notices: seq<ES.Notice>)

  /**
   * One contact of the bulk delete. `rawIdRowsFor(id)` is the lookup's
   * answer for data id `id`. A missing id or raw id gives a notice; the
   * outcome of the delete itself is not reported, so the store's answer to
   * it plays no part.
   */
  function DeleteItem(c: Contact, rawIdRowsFor: int -> Option<seq<int>>): (r: ItemReport)
    ensures r.contact == c
    ensures c.id.None? ==> r.calls == [] && r.notices == [ES.NoContactToDelete]
    ensures c.id.Some? ==> |r.calls| > 0 && r.calls[0] == ES.QueryRawContactId(c.id.value)
    ensures c.id.Some? && ES.FirstRawContactId(rawIdRowsFor(c.id.value)).None? ==>
      |r.calls| == 1 && r.notices == [ES.RawContactIdNotFound]
    ensures c.id.Some? && ES.FirstRawContactId(rawIdRowsFor(c.id.value)).Some? ==>
      r.calls[1..] == [ES.DeleteRawContact(ES.FirstRawContactId(rawIdRowsFor(c.id.value)).value)] && r.notices == []
  {
    match c.id
    case None => ItemReport(c, [], [ES.NoContactToDelete])
    case Some(id) =>
      match ES.FirstRawContactId(rawIdRowsFor(id))
      case None => ItemReport(c, [ES.QueryRawContactId(id)], [ES.RawContactIdNotFound])
      case Some(raw) => ItemReport(c, [ES.QueryRawContactId(id), ES.DeleteRawContact(raw)], [])
  }

  /**
   * The bulk delete asks the store exactly what the edit screen's delete
   * button asks for the same contact: look up the raw contact, then delete it.
   * Where no delete is sent (no id, or no raw contact found) it shows the
   * same notice as well.
   */
  lemma DeleteItemMatchesEditScreen(c: Contact, rawIdRowsFor: int -> Option<seq<int>>, rowsDeleted: int)
    ensures var rows := if c.id.Some? then rawIdRowsFor(c.id.value) else None;
      var edit := ES.DeleteContact(c.id, rows, rowsDeleted);
      && DeleteItem(c, rawIdRowsFor).calls == edit.calls
      && (|edit.calls| < 2 ==> DeleteItem(c, rawIdRowsFor).notices == edit.notices)
  {
  }

  /** What a bulk delete did, item by item, and where it left the adapter. */
  datatype BulkDeleteReport = BulkDeleteReport(
    state: AdapterState,
    events: seq<Event>,
    items: seq<ItemReport>,
    notices: seq<ES.Notice>)

  /**
   * `deleteSelectedContacts`: each selected contact is handled once and on
   * its own; then multi-select mode is left, which empties the selection,
   * and the list is reloaded with `reloaded`, what the store then holds.
   * With nothing selected the store is not touched.
   */
  method DeleteSelectedContacts(
    st: AdapterState,
    rawIdRowsFor: int -> Option<seq<int>>,
    reloaded: seq<Contact>)
    returns (r: BulkDeleteReport)
    ensures r.state.selected == {}
    ensures st.selected == {} ==> r == BulkDeleteReport(st, [], [], [ES.NoContactsSelected])
    ensures st.selected != {} ==>
      && r.state == SetContacts(ExitMultiSelectMode(st).state, reloaded)
      && r.events == [ModeChanged(false)]
      && r.notices == [ES.ContactsDeleted]
    ensures |r.items| == |st.selected|
    ensures forall c :: c in st.selected <==> exists i :: 0 <= i < |r.items| && r.items[i].contact == c
    ensures forall i, j :: 0 <= i < j < |r.items| ==> r.items[i].contact != r.items[j].contact
    ensures forall i :: 0 <= i < |r.items| ==> r.items[i] == DeleteItem(r.items[i].contact, rawIdRowsFor)
    ensures DeletePromptFor(st) == if |r.items| > 0 then ConfirmDelete(|r.items|) else NothingSelected
  {
    var selected := SelectedContacts(st);
    if |selected| == 0 {
      return BulkDeleteReport(st, [], [], [ES.NoContactsSelected]);
    }
    var items: seq<ItemReport> := [];
    var i := 0;
    while i < |selected|
      invariant 0 <= i <= |selected|
      invariant |items| == i
      invariant forall k :: 0 <= k < i ==> items[k] == DeleteItem(selected[k], rawIdRowsFor)
    {
      items := items + [DeleteItem(selected[i], rawIdRowsFor)];
      i := i + 1;
    }
    var exited := ExitMultiSelectMode(st);
    r := BulkDeleteReport(SetContacts(exited.state, reloaded), exited.events, items, [ES.ContactsDeleted]);
    forall c | c in st.selected ensures exists k :: 0 <= k < |items| && items[k].contact == c
    {
      var k :| 0 <= k < |selected| && selected[k] == c;
      assert items[k].contact == c;
    }
  }
}
