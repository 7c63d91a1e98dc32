/**
 * The report form of the home page: the reporter types a name and picks an
 * activity; submitting validates both fields, inserts one `activity_reports`
 * row whose status depends on the QR entry path, and clears the form only
 * when the store accepted the row.
 */
module Submission {
  import opened Options
  import Ranking

  const QRMode: string := "qr"
  const PendingStatus: string := "pending"

  /** The row `handleSubmit` hands to the store's insert. */
  datatype Row = Row(userName: string, activityId: int, status: string)

  /** The blocking message the reporter sees after pressing submit. */
  datatype Notice =
    | MissingFields     // a field is empty; nothing was sent
    | StoreFailure      // the store answered with an error
    | ApprovedAtOnce    // QR path: the row was inserted as approved
    | AwaitingApproval  // standard path: the row waits for staff review

  /** The page is in QR mode exactly when the `mode` query parameter is present and equal to "qr". */
  function IsQRMode(mode: Option<string>): (qr: bool)
    ensures qr <==> mode.Some? && mode.value == QRMode
  {
    match mode
    case None => false
    case Some(m) => m == QRMode
  }

  /** The status of an inserted row: approved on the QR path, pending otherwise. */
  function FinalStatus(isQRMode: bool): (status: string)
    ensures status == Ranking.ApprovedStatus <==> isQRMode
    ensures status == Ranking.ApprovedStatus || status == PendingStatus
  {
    if isQRMode then Ranking.ApprovedStatus else PendingStatus
  }

  /** Both fields are filled in: a non-empty name (not trimmed) and a chosen activity. */
  predicate Complete(userName: string, selectedActivity: Option<int>)
  {
    userName != "" && selectedActivity.Some?
  }

  /**
   * A submitted row, once stored and joined to its activity type, is counted
   * by the ranking at once on the QR path and not at all otherwise.
   */
  lemma SubmittedRowCounts(reports: seq<Ranking.Report>, row: Row, isQRMode: bool, joined: Option<Ranking.ActivityType>)
    requires row.status == FinalStatus(isQRMode)
    ensures var stored := Ranking.Report(row.userName, row.status, joined);
      Ranking.Approved(reports + [stored]) == Ranking.Approved(reports) + (if isQRMode then [stored] else [])
  {
    var stored := Ranking.Report(row.userName, row.status, joined);
    Ranking.ApprovedAppend(reports, [stored]);
    assert [stored][1..] == [];
  }

  /** The form's state: the two controlled fields and the mode read from the URL. */
  class ReportForm {
    const isQRMode: bool
    var userName: string
    var selectedActivity: Option<int>

    /** A fresh form: mode from the query string, both fields empty. */
    constructor (mode: Option<string>)
      ensures isQRMode <==> mode == Some(QRMode)
      ensures userName == "" && selectedActivity == None
    {
      isQRMode := IsQRMode(mode);
      userName := "";
      selectedActivity := None;
    }

    /** The name input's change handler. */
    method EditName(value: string)
      modifies this
      ensures userName == value && selectedActivity == old(selectedActivity)
    {
      userName := value;
    }

    /** The activity select's change handler; `None` is the placeholder option. */
    method SelectActivity(choice: Option<int>)
      modifies this
      ensures selectedActivity == choice && userName == old(userName)
    {
      selectedActivity := choice;
    }

    /**
     * Handles the submit event. `storeError` is the store's answer to the
     * insert (it is not consulted when validation stops the submission).
     * `sent` is what was handed to the insert.
     */
    method Submit(storeError: bool) returns (sent: seq<Row>, notice: Notice)
      modifies this
      ensures !Complete(old(userName), old(selectedActivity)) ==>
        sent == [] && notice == MissingFields
      ensures Complete(old(userName), old(selectedActivity)) ==>
        sent == [Row(old(userName), old(selectedActivity).value, FinalStatus(isQRMode))]
      ensures Complete(old(userName), old(selectedActivity)) && storeError ==>
        notice == StoreFailure
      ensures Complete(old(userName), old(selectedActivity)) && !storeError ==>
        notice == (if isQRMode then ApprovedAtOnce else AwaitingApproval)
      ensures notice in {MissingFields, StoreFailure} ==>
        userName == old(userName) && selectedActivity == old(selectedActivity)
      ensures notice in {ApprovedAtOnce, AwaitingApproval} ==>
        userName == "" && selectedActivity == None
    {
      if userName == "" || selectedActivity.None? {
        return [], MissingFields;
      }
      var status := FinalStatus(isQRMode);
      sent := [Row(userName, selectedActivity.value, status)];
      if storeError {
        notice := StoreFailure;
      } else {
        notice := if isQRMode then ApprovedAtOnce else AwaitingApproval;
        userName := "";
        selectedActivity := None;
      }
    }
  }
}
