/**
 * The list screen's bulk phone-number conversion: numbers that start with
 * the retired mobile prefix `0167`, or with it in international form
 * `84167`, are rewritten to the new prefix `037`. The same test is used to
 * count candidates before the user confirms. An update addresses the raw
 * contact, not the single phone row, so it rewrites every phone row of that
 * raw contact.
 */
module PhoneConversion {
  import opened Wrappers
  import opened Text
  import opened Contacts

  const RetiredPrefix: string := "0167"
  const RetiredIntlPrefix: string := "84167"
  const NewPrefix: string := "037"

  /** The candidate test of both the pre-scan and the conversion. */
  predicate NeedsConversion(phone: string)
  {
    StartsWith(phone, RetiredPrefix) || StartsWith(phone, RetiredIntlPrefix)
  }

  /**
   * The `when` of the conversion loop: the rewritten number, or `None` when
   * the number has neither prefix and is not to be touched.
   */
  function ConvertedNumber(phone: string): (r: Option<string>)
    ensures r.Some? <==> NeedsConversion(phone)
    ensures StartsWith(phone, RetiredPrefix) ==> r == Some(NewPrefix + phone[4..])
    ensures StartsWith(phone, RetiredIntlPrefix) ==> r == Some(NewPrefix + phone[5..])
  {
    if StartsWith(phone, RetiredPrefix) then
      assert phone[0] == RetiredPrefix[0] != RetiredIntlPrefix[0];
      ReplaceFirstOfPrefix(phone, RetiredPrefix, NewPrefix);
      Some(ReplaceFirst(phone, RetiredPrefix, NewPrefix))
    else if StartsWith(phone, RetiredIntlPrefix) then
      ReplaceFirstOfPrefix(phone, RetiredIntlPrefix, NewPrefix);
      Some(ReplaceFirst(phone, RetiredIntlPrefix, NewPrefix))
    else None
  }

  /** The number as it stands after a conversion pass. */
  function Convert(phone: string): string
  {
    ConvertedNumber(phone).GetOr(phone)
  }

  /**
   * Every rewritten number starts with `037`, has neither retired prefix,
   * and is therefore left alone by a second pass.
   */
  lemma ConvertedIsFixedPoint(phone: string)
    requires NeedsConversion(phone)
    ensures StartsWith(ConvertedNumber(phone).value, NewPrefix)
    ensures !NeedsConversion(ConvertedNumber(phone).value)
    ensures ConvertedNumber(ConvertedNumber(phone).value) == None
  {
    var r := ConvertedNumber(phone).value;
    assert r[..3] == NewPrefix;
    assert r[1] == '3';
    assert r[0] == '0';
  }

  /** Running the conversion twice is the same as running it once. */
  lemma ConvertIdempotent(phone: string)
    ensures Convert(Convert(phone)) == Convert(phone)
  {
    if NeedsConversion(phone) {
      ConvertedIsFixedPoint(phone);
    }
  }

  /** Both retired forms of one number become the same `037` number; a current number is kept. */
  lemma ConversionExamples()
    ensures Convert("0167123456") == "037123456"
    ensures Convert("84167123456") == "037123456"
    ensures Convert("090000000") == "090000000"
  {
    var a, b, c := "0167123456", "84167123456", "090000000";
    assert a[..4] == RetiredPrefix && a[4..] == "123456";
    assert b[..5] == RetiredIntlPrefix && b[5..] == "123456";
    assert c[1] != RetiredPrefix[1] && c[0] != RetiredIntlPrefix[0];
  }

  /** A phone row as the store's cursor yields it. */
  datatype PhoneRow = PhoneRow(id: int, rawContactId: int, number: string)

  /** The rows the conversion rewrites, in cursor order. */
  function Matching(rows: seq<PhoneRow>): (r: seq<PhoneRow>)
    ensures |r| <= |rows|
    ensures forall x :: x in r <==> x in rows && NeedsConversion(x.number)
  {
    if |rows| == 0 then []
    else
      var last := rows[|rows| - 1];
      assert rows == rows[..|rows| - 1] + [last];
      Matching(rows[..|rows| - 1]) + (if NeedsConversion(last.number) then [last] else [])
  }

  /**
   * The pre-scan of the convert button: one placeholder contact (data id,
   * empty name, number) per row that needs conversion, in cursor order.
   */
  function ScanCandidates(rows: seq<PhoneRow>): (r: seq<Contact>)
    ensures |r| == |Matching(rows)|
    ensures forall i :: 0 <= i < |r| ==>
      r[i] == Contact(Some(Matching(rows)[i].id), "", Matching(rows)[i].number)
  {
    if |rows| == 0 then []
    else
      var last := rows[|rows| - 1];
      ScanCandidates(rows[..|rows| - 1])
        + (if NeedsConversion(last.number) then [Contact(Some(last.id), "", last.number)] else [])
  }

  /** What the convert button shows: a confirmation with the candidate count, or a notice. */
  datatype ConvertPrompt = ConfirmConversion(count: nat) | NothingToConvert

  /** The convert button; an absent cursor counts no candidates. */
  function ConvertPromptFor(cursor: Option<seq<PhoneRow>>): (r: ConvertPrompt)
    ensures cursor.None? ==> r == NothingToConvert
    ensures cursor.Some? ==>
      (r.ConfirmConversion? <==> exists x :: x in cursor.value && NeedsConversion(x.number))
    ensures r.ConfirmConversion? ==> r.count == |Matching(cursor.value)| > 0
  {
    var candidates := match cursor
      case None => []
      case Some(rows) => ScanCandidates(rows);
    if |candidates| > 0 then
      assert Matching(cursor.value)[0] in Matching(cursor.value);
      ConfirmConversion(|candidates|)
    else NothingToConvert
  }

  /**
   * One update request sent to the store: set EVERY phone row of the raw
   * contact `rawContactId` to `number` (the selection is by raw contact and
   * mimetype, not by the phone row that matched).
   */
  datatype PhoneUpdate = PhoneUpdate(rawContactId: int, number: string)

  /** The closing notice of a conversion pass. */
  datatype Summary = UpdatedNumbers(count: nat) | NoNumbersUpdated

  /**
   * What a conversion pass did: the updates it sent, the new numbers whose
   * update the store accepted, the data ids it reported as failed, its
   * closing notice (none when the cursor was absent), and whether the list
   * was reloaded.
   */
  datatype ConvertReport = ConvertReport(
    updates: seq<PhoneUpdate>,
    converted: seq<string>,
    failedIds: seq<int>,
    summary: Option<Summary>,
    reload: bool)

  /** The new numbers of the rewritten rows the store reported as updated, in cursor order. */
  function ConvertedNumbers(rows: seq<PhoneRow>, rowsUpdated: seq<int>): seq<string>
    requires |rowsUpdated| == |rows|
  {
    if |rows| == 0 then []
    else
      var n := |rows| - 1;
      ConvertedNumbers(rows[..n], rowsUpdated[..n])
        + (if NeedsConversion(rows[n].number) && rowsUpdated[n] > 0 then [Convert(rows[n].number)] else [])
  }

  /** The data ids of the rewritten rows whose update reported no row changed. */
  function FailedIds(rows: seq<PhoneRow>, rowsUpdated: seq<int>): seq<int>
    requires |rowsUpdated| == |rows|
  {
    if |rows| == 0 then []
    else
      var n := |rows| - 1;
      FailedIds(rows[..n], rowsUpdated[..n])
        + (if NeedsConversion(rows[n].number) && rowsUpdated[n] <= 0 then [rows[n].id] else [])
  }

  /** Every rewritten row is either counted as converted or reported as failed. */
  lemma {:induction false} EveryUpdateAccountedFor(rows: seq<PhoneRow>, rowsUpdated: seq<int>)
    requires |rowsUpdated| == |rows|
    ensures |ConvertedNumbers(rows, rowsUpdated)| + |FailedIds(rows, rowsUpdated)| == |Matching(rows)|
  {
    if |rows| > 0 {
      var n := |rows| - 1;
      EveryUpdateAccountedFor(rows[..n], rowsUpdated[..n]);
    }
  }

  /** The convert button's count is the number of rows a conversion pass rewrites. */
  lemma PromptCountsMatching(cursor: Option<seq<PhoneRow>>)
    ensures ConvertPromptFor(cursor)
      == if cursor.Some? && |Matching(cursor.value)| > 0 then ConfirmConversion(|Matching(cursor.value)|) else NothingToConvert
  {
  }

  /** One more row extends each reference definition by that row's contribution. */
  lemma StepRow(rows: seq<PhoneRow>, rowsUpdated: seq<int>, i: nat)
    requires |rowsUpdated| == |rows| && i < |rows|
    ensures Matching(rows[..i + 1]) == Matching(rows[..i]) + (if NeedsConversion(rows[i].number) then [rows[i]] else [])
    ensures ConvertedNumbers(rows[..i + 1], rowsUpdated[..i + 1])
      == ConvertedNumbers(rows[..i], rowsUpdated[..i])
        + (if NeedsConversion(rows[i].number) && rowsUpdated[i] > 0 then [Convert(rows[i].number)] else [])
    ensures FailedIds(rows[..i + 1], rowsUpdated[..i + 1])
      == FailedIds(rows[..i], rowsUpdated[..i]) + (if NeedsConversion(rows[i].number) && rowsUpdated[i] <= 0 then [rows[i].id] else [])
  {
    assert rows[..i + 1][..i] == rows[..i];
    assert rowsUpdated[..i + 1][..i] == rowsUpdated[..i];
  }

  /** Each update of a pass sets the number of a matching row to its converted form. */
  ghost predicate UpdatesFor(updates: seq<PhoneUpdate>, matching: seq<PhoneRow>)
  {
    && |updates| == |matching|
    && forall i :: 0 <= i < |updates| ==>
         updates[i] == PhoneUpdate(matching[i].rawContactId, Convert(matching[i].number))
  }

  lemma UpdatesForExtend(updates: seq<PhoneUpdate>, matching: seq<PhoneRow>, row: PhoneRow, newPhone: string)
    requires UpdatesFor(updates, matching) && newPhone == Convert(row.number)
    ensures UpdatesFor(updates + [PhoneUpdate(row.rawContactId, newPhone)], matching + [row])
  {
  }

  /** Numbers written by a pass start with `037` and would not be converted again. */
  lemma UpdatesAreFinal(updates: seq<PhoneUpdate>, rows: seq<PhoneRow>)
    requires UpdatesFor(updates, Matching(rows))
    ensures forall u :: u in updates ==> StartsWith(u.number, NewPrefix) && !NeedsConversion(u.number)
  {
    forall u | u in updates ensures StartsWith(u.number, NewPrefix) && !NeedsConversion(u.number)
    {
      var k :| 0 <= k < |updates| && updates[k] == u;
      assert Matching(rows)[k] in Matching(rows);
      ConvertedIsFixedPoint(Matching(rows)[k].number);
    }
  }

  /** The loop step of a pass: one more row extends the updates, the converted numbers and the failed ids by its share. */
  lemma PassStep(rows: seq<PhoneRow>, rowsUpdated: seq<int>, i: nat,
                 updates: seq<PhoneUpdate>, converted: seq<string>, failedIds: seq<int>)
    requires |rowsUpdated| == |rows| && i < |rows|
    requires UpdatesFor(updates, Matching(rows[..i]))
    requires converted == ConvertedNumbers(rows[..i], rowsUpdated[..i])
    requires failedIds == FailedIds(rows[..i], rowsUpdated[..i])
    ensures var row := rows[i];
      var hit := NeedsConversion(row.number);
      && UpdatesFor(updates + (if hit then [PhoneUpdate(row.rawContactId, Convert(row.number))] else []), Matching(rows[..i + 1]))
      && converted + (if hit && rowsUpdated[i] > 0 then [Convert(row.number)] else []) == ConvertedNumbers(rows[..i + 1], rowsUpdated[..i + 1])
      && failedIds + (if hit && rowsUpdated[i] <= 0 then [row.id] else []) == FailedIds(rows[..i + 1], rowsUpdated[..i + 1])
  {
    StepRow(rows, rowsUpdated, i);
    var row := rows[i];
    if NeedsConversion(row.number) {
      UpdatesForExtend(updates, Matching(rows[..i]), row, Convert(row.number));
    } else {
      assert updates + [] == updates;
      assert Matching(rows[..i]) + [] == Matching(rows[..i]);
    }
  }

  /**
   * `convertPhoneNumbers`. `rowsUpdated[i]` is the store's reply to the
   * update that row `i` triggers (unused for rows left alone). The pass
   * sends one update per candidate, counts the accepted ones, and always
   * ends by reloading the list.
   */
  method ConvertPhoneNumbers(cursor: Option<seq<PhoneRow>>, rowsUpdated: seq<int>) returns (r: ConvertReport)
    requires cursor.Some? ==> |rowsUpdated| == |cursor.value|
    ensures r.reload
    ensures cursor.None? ==> r.updates == [] && r.converted == [] && r.failedIds == [] && r.summary == None
    ensures cursor.Some? ==> UpdatesFor(r.updates, Matching(cursor.value))
    ensures cursor.Some? ==> r.converted == ConvertedNumbers(cursor.value, rowsUpdated)
    ensures cursor.Some? ==> r.failedIds == FailedIds(cursor.value, rowsUpdated)
    ensures cursor.Some? ==>
      r.summary == Some(if |r.converted| > 0 then UpdatedNumbers(|r.converted|) else NoNumbersUpdated)
    ensures ConvertPromptFor(cursor) == (if |r.updates| > 0 then ConfirmConversion(|r.updates|) else NothingToConvert)
    ensures forall u :: u in r.updates ==> StartsWith(u.number, NewPrefix) && !NeedsConversion(u.number)
  {
    PromptCountsMatching(cursor);
    if cursor.None? {
      return ConvertReport([], [], [], None, true);
    }
    var rows := cursor.value;
    var updates: seq<PhoneUpdate> := [];
    var converted: seq<string> := [];
    var failedIds: seq<int> := [];
    var i := 0;
    while i < |rows|
      invariant 0 <= i <= |rows|
      invariant UpdatesFor(updates, Matching(rows[..i]))
      invariant converted == ConvertedNumbers(rows[..i], rowsUpdated[..i])
      invariant failedIds == FailedIds(rows[..i], rowsUpdated[..i])
    {
      PassStep(rows, rowsUpdated, i, updates, converted, failedIds);
      var row := rows[i];
      var newPhone := ConvertedNumber(row.number);
      // a row with a new number sends one update and, by the store's reply,
      // lands in `converted` or in `failedIds`; any other row adds nothing
      updates := updates + (if newPhone.Some? then [PhoneUpdate(row.rawContactId, newPhone.value)] else []);
      converted := converted + (if newPhone.Some? && rowsUpdated[i] > 0 then [newPhone.value] else []);
      failedIds := failedIds + (if newPhone.Some? && rowsUpdated[i] <= 0 then [row.id] else []);
      i := i + 1;
    }
    assert rows[..i] == rows;
    assert rowsUpdated[..i] == rowsUpdated;
    UpdatesAreFinal(updates, rows);
    var summary := if |converted| > 0 then UpdatedNumbers(|converted|) else NoNumbersUpdated;
    r := ConvertReport(updates, converted, failedIds, Some(summary), true);
  }
}
