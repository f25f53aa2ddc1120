/**
 * The contact list's adapter as a deterministic state machine: a
 * name-sorted snapshot, a multi-select flag and a set of selected
 * contacts. The two callbacks the list screen installs (`onItemClick`,
 * `onMultiSelectModeChanged`) are returned as events from each transition
 * instead of being called.
 */
module Adapter {
  import opened Wrappers
  import opened Contacts

  datatype AdapterState = AdapterState(contacts: seq<Contact>, selected: set<Contact>, multiSelect: bool)

  /** A callback invocation the adapter makes towards the list screen. */
  datatype Event =
    | ModeChanged(multiSelect: bool)
    | ItemClicked(contact: Contact)

  /** The state after a transition together with the callbacks it fired, in order. */
  datatype Step = Step(state: AdapterState, events: seq<Event>)

  /** A freshly constructed adapter: empty list, nothing selected, single-select mode. */
  const Initial := AdapterState([], {}, false)

  /**
   * `setContacts`: the displayed list becomes the input sorted by name;
   * mode and selection are kept, so a reload does not drop the selection.
   */
  function SetContacts(st: AdapterState, newContacts: seq<Contact>): (r: AdapterState)
    ensures SortedByName(r.contacts)
    ensures multiset(r.contacts) == multiset(newContacts)
    ensures r.selected == st.selected && r.multiSelect == st.multiSelect
  {
    SortByNameOrdered(newContacts);
    SortByNamePermutes(newContacts);
    st.(contacts := SortByName(newContacts))
  }

  /** `enterMultiSelectMode`: the mode turns on, the selection is kept, and the observer hears `true`. */
  function EnterMultiSelectMode(st: AdapterState): (r: Step)
    ensures r.state.multiSelect
    ensures r.state.selected == st.selected && r.state.contacts == st.contacts
    ensures r.events == [ModeChanged(true)]
  {
    Step(st.(multiSelect := true), [ModeChanged(true)])
  }

  /** `exitMultiSelectMode`: the mode turns off, the selection empties, and the observer hears `false`. */
  function ExitMultiSelectMode(st: AdapterState): (r: Step)
    ensures !r.state.multiSelect
    ensures r.state.selected == {} && r.state.contacts == st.contacts
    ensures r.events == [ModeChanged(false)]
  {
    Step(st.(multiSelect := false, selected := {}), [ModeChanged(false)])
  }

  /** `toggleSelection`: flips the membership of `c` and of nothing else. */
  function Toggle(selected: set<Contact>, c: Contact): (r: set<Contact>)
    ensures c in r <==> c !in selected
    ensures forall d :: d != c ==> (d in r <==> d in selected)
  {
    if c in selected then selected - {c} else selected + {c}
  }

  /** Toggling the same contact twice gives back the original selection. */
  lemma ToggleTwice(selected: set<Contact>, c: Contact)
    ensures Toggle(Toggle(selected, c), c) == selected
  {
  }

  /**
   * `getSelectedContacts`: the selection as a list, each selected contact
   * exactly once. The app's set keeps insertion order, so its list follows
   * the order in which the contacts were selected; the model leaves that
   * order unspecified.
   */
  method SelectedContacts(st: AdapterState) returns (r: seq<Contact>)
    ensures forall c :: c in r <==> c in st.selected
    ensures |r| == |st.selected|
    ensures forall i, j :: 0 <= i < j < |r| ==> r[i] != r[j]
  {
    r := [];
    var rest := st.selected;
    while rest != {}
      invariant rest <= st.selected
      invariant forall c :: c in r <==> c in st.selected - rest
      invariant |r| + |rest| == |st.selected|
      invariant forall i, j :: 0 <= i < j < |r| ==> r[i] != r[j]
      decreases |rest|
    {
      var c :| c in rest;
      assert c !in r;
      r := r + [c];
      rest := rest - {c};
    }
  }

  /** A row's checkbox is shown exactly in multi-select mode. */
  predicate CheckboxVisible(st: AdapterState)
  {
    st.multiSelect
  }

  /** What `onBindViewHolder` puts on the row at `position`. */
  datatype RowView = RowView(name: string, phone: string, checkboxVisible: bool, checked: bool)

  function BindRow(st: AdapterState, position: nat): (r: RowView)
    requires position < |st.contacts|
    ensures r.name == st.contacts[position].name && r.phone == st.contacts[position].phone
    ensures r.checkboxVisible <==> st.multiSelect
    ensures r.checked <==> st.contacts[position] in st.selected
  {
    var c := st.contacts[position];
    RowView(c.name, c.phone, CheckboxVisible(st), c in st.selected)
  }

  /**
   * A tap on the row bound to `c`: in multi-select mode it toggles `c` and
   * calls nothing; otherwise it calls `onItemClick(c)` and changes nothing.
   */
  function Tap(st: AdapterState, c: Contact): (r: Step)
    ensures st.multiSelect ==> r.state == st.(selected := Toggle(st.selected, c)) && r.events == []
    ensures !st.multiSelect ==> r.state == st && r.events == [ItemClicked(c)]
  {
    if st.multiSelect then Step(st.(selected := Toggle(st.selected, c)), [])
    else Step(st, [ItemClicked(c)])
  }

  /**
   * A long press on the row bound to `c`: enters multi-select mode (telling
   * the observer) and then toggles `c`, so an unselected `c` becomes selected.
   */
  function LongPress(st: AdapterState, c: Contact): (r: Step)
    ensures r.state.multiSelect
    ensures r.state.selected == Toggle(st.selected, c)
    ensures c !in st.selected ==> c in r.state.selected
    ensures r.state.contacts == st.contacts
    ensures r.events == [ModeChanged(true)]
  {
    var entered := EnterMultiSelectMode(st);
    Step(entered.state.(selected := Toggle(entered.state.selected, c)), entered.events)
  }

  /** A tap on the checkbox of the row bound to `c`: toggles `c` whatever the mode. */
  function CheckboxTap(st: AdapterState, c: Contact): (r: Step)
    ensures r.state.selected == Toggle(st.selected, c)
    ensures r.state.multiSelect == st.multiSelect && r.state.contacts == st.contacts
    ensures r.events == []
  {
    Step(st.(selected := Toggle(st.selected, c)), [])
  }

  /** Outside multi-select mode nothing is selected. */
  ghost predicate Valid(st: AdapterState)
  {
    !st.multiSelect ==> st.selected == {}
  }

  /** The user actions (and the owner's calls) that drive the adapter. */
  datatype Action =
    | Load(newContacts: seq<Contact>)
    | TapRow(contact: Contact)
    | LongPressRow(contact: Contact)
    | TapCheckbox(contact: Contact)
    | ExitMode

  /** An action can happen: the checkbox can only be tapped while it is visible. */
  predicate Enabled(st: AdapterState, a: Action)
  {
    a.TapCheckbox? ==> CheckboxVisible(st)
  }

  function Apply(st: AdapterState, a: Action): (r: Step)
  {
    match a
    case Load(cs) => Step(SetContacts(st, cs), [])
    case TapRow(c) => Tap(st, c)
    case LongPressRow(c) => LongPress(st, c)
    case TapCheckbox(c) => CheckboxTap(st, c)
    case ExitMode => ExitMultiSelectMode(st)
  }

  /** The state after performing `actions` in order, each one while it is enabled. */
  function Run(st: AdapterState, actions: seq<Action>): (r: Option<AdapterState>)
    decreases |actions|
  {
    if |actions| == 0 then Some(st)
    else if !Enabled(st, actions[0]) then None
    else Run(Apply(st, actions[0]).state, actions[1..])
  }

  /** Every enabled action keeps the adapter valid. */
  lemma ApplyKeepsValid(st: AdapterState, a: Action)
    requires Valid(st) && Enabled(st, a)
    ensures Valid(Apply(st, a).state)
  {
  }

  /** Every run of enabled actions from a valid adapter (the initial one among them) ends in a valid state. */
  lemma {:induction false} RunKeepsValid(st: AdapterState, actions: seq<Action>)
    requires Valid(st)
    ensures Run(st, actions).Some? ==> Valid(Run(st, actions).value)
    decreases |actions|
  {
    if |actions| > 0 && Enabled(st, actions[0]) {
      ApplyKeepsValid(st, actions[0]);
      RunKeepsValid(Apply(st, actions[0]).state, actions[1..]);
    }
  }

  /**
   * A long press with nothing selected, in either mode, leaves exactly the
   * pressed contact selected; on a valid adapter this is every long press
   * made outside multi-select mode.
   */
  lemma LongPressSelectsOnlyPressed(st: AdapterState, c: Contact)
    requires st.selected == {}
    ensures LongPress(st, c).state.selected == {c}
  {
  }

  /**
   * Without the visibility rule the invariant breaks: a checkbox tap
   * outside multi-select mode leaves a contact selected in single mode.
   */
  lemma HiddenCheckboxTapBreaksValid(c: Contact)
    ensures Valid(Initial) && !Valid(CheckboxTap(Initial, c).state)
  {
  }
}
