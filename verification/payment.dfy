/**
 * The payment page as a state machine: the roster it loads on mount, the
 * family and receipt the user chooses, the status check for the chosen
 * family, and the submission with its automatic receipt check. The network,
 * the file reader and the receipt-reading service are the inputs of each
 * step.
 */
module PaymentPage {
  import opened Wrappers
  import opened Text
  import opened Records
  import opened Roster
  import opened Fees
  import opened Receipt
  import opened Upload

  /** How loading the roster sheet ended. */
  datatype CsvLoad =
    | FetchFailed                      // `fetch(CSV_URL)` threw
    | ParseFailed                      // the CSV parser reported an error
    | Parsed(rows: seq<seq<string>>)   // the tokenised rows

  /** What `checkSubmissionStatus` answered; None when awaiting it threw. */
  datatype StatusReply = StatusReply(success: bool, submitted: bool, status: string, error: Option<string>)

  /** What `submitPayment` did. */
  datatype SubmitReply = SubmitThrew | Replied(success: bool, message: Option<string>)

  /** The body posted to the ledger. */
  datatype Payload = Payload(
    familyName: string,
    adults: int,
    children: int,
    totalAmount: int,
    receiptBase64: string,
    mimeType: string,
    filename: string,
    status: Status,
    extractedAmount: string)

  const ConnectionErrorMessage: string :=
    "Gagal menyambung ke pangkalan data. Sila pastikan anda mempunyai sambungan internet."
  const ParseErrorMessage: string := "Gagal memuat turun senarai keluarga. Sila cuba sebentar lagi."
  const StatusFetchFailedMessage: string :=
    "Gagal menyambung ke pangkalan data. Sila pastikan Google Apps Script telah di-deploy dengan akses \"Anyone\"."
  const StatusCheckErrorMessage: string := "Ralat sistem semasa menyemak status."
  const NoFamilyMessage: string := "Sila pilih nama keluarga."
  const NoFileMessage: string := "Sila muat naik resit pembayaran."
  const SystemErrorMessage: string := "Ralat sistem. Sila cuba sebentar lagi."
  const SubmitFailedMessage: string := "Ralat semasa menghantar pembayaran."
  const AlreadySentMarker: string := "telah menghantar"

  /** `families.find(f => f.name === name)`: the first family with exactly that name. */
  function FindFamily(families: seq<FamilyData>, name: string): (r: Option<FamilyData>)
    ensures r.None? <==> forall i :: 0 <= i < |families| ==> families[i].name != name
    ensures r.Some? ==> exists i :: 0 <= i < |families| && families[i] == r.value
                          && r.value.name == name
                          && forall j :: 0 <= j < i ==> families[j].name != name
  {
    if families == [] then None
    else if families[0].name == name then Some(families[0])
    else
      var r := FindFamily(families[1..], name);
      if r.Some? then
        var i :| 0 <= i < |families[1..]| && families[1..][i] == r.value && r.value.name == name
                 && forall j :: 0 <= j < i ==> families[1..][j].name != name;
        assert families[i + 1] == r.value;
        r
      else r
  }

  /** The error text a refused submission shows: the service's message, or a stock one when it is empty. */
  function RefusalMessage(message: Option<string>): (r: string)
    ensures r != ""
    ensures message.Some? && message.value != "" ==> r == message.value
    ensures !(message.Some? && message.value != "") ==> r == SubmitFailedMessage
  {
    if message.Some? && message.value != "" then message.value else SubmitFailedMessage
  }

  /** A refusal that says the family has already sent a receipt. */
  predicate SaysAlreadySent(message: Option<string>): (b: bool)
    ensures b ==> message.Some? && RefusalMessage(message) == message.value
    ensures message.Some? && message.value == AlreadySentMarker ==> b
  {
    message.Some? && Contains(message.value, AlreadySentMarker)
  }

  /** The marker is recognised wherever it stands in the refusal. */
  lemma MarkerAnywhereIsRecognised(before: string, after: string)
    ensures SaysAlreadySent(Some(before + AlreadySentMarker + after))
  {
    var m := before + AlreadySentMarker + after;
    assert m[|before|..|before| + |AlreadySentMarker|] == AlreadySentMarker;
    assert OccursAt(m, AlreadySentMarker, |before|);
  }

  /**
   * With the constants as shipped, which define neither an adult nor a child
   * price, the fee is NaN and no receipt is ever approved automatically, not
   * even one that states the exact amount.
   */
  lemma ShippedPricesNeverApprove(f: FamilyData, reading: Option<string>)
    ensures VerifyReceiptAgainst(reading, FeeAsEvaluated(f, None, None)).initialStatus == Pending
  {
  }

  /** With both prices defined, a receipt that states exactly the (non-negative) fee is approved. */
  lemma DefinedPricesApproveExactAmount(f: FamilyData, prices: Prices)
    requires Fee(f, prices) >= 0
    ensures var fee := FeeAsEvaluated(f, Some(prices.adult), Some(prices.child));
            VerifyReceiptAgainst(Some(PrintedAmount(Fee(f, prices), 0)), fee).initialStatus == Approved
  {
    var n := Fee(f, prices);
    assert FeeAsEvaluated(f, Some(prices.adult), Some(prices.child)) == Finite(n);
    ExactAmountApproved(n);
  }

  class PaymentForm {
    const prices: Prices
    const leq: (string, string) -> bool
    var families: seq<FamilyData>
    var csvError: string
    var selectedFamily: Option<FamilyData>
    var hasSubmitted: bool
    var submissionStatus: string
    var file: Option<FileInfo>
    var submitSuccess: bool
    var submitError: string

    /**
     * The roster is sorted, the chosen family comes from it, and a kept file
     * passed the upload checks.
     */
    ghost predicate Valid()
      reads this
    {
      && TotalPreorder(leq)
      && SortedByName(families, leq)
      && (selectedFamily.Some? ==> selectedFamily.value in families)
      && (file.Some? ==> Acceptable(file.value))
    }

    /** Mounting the page: the state starts empty and the roster sheet is loaded. */
    constructor (prices: Prices, leq: (string, string) -> bool, load: CsvLoad)
      requires TotalPreorder(leq)
      ensures Valid()
      ensures this.prices == prices && this.leq == leq
      ensures selectedFamily.None? && !hasSubmitted && submissionStatus == "" && file.None?
      ensures !submitSuccess && submitError == ""
      ensures load.FetchFailed? ==> families == [] && csvError == ConnectionErrorMessage
      ensures load.ParseFailed? ==> families == [] && csvError == ParseErrorMessage
      ensures load.Parsed? ==>
                && csvError == ""
                && (|load.rows| > 0 ==> multiset(families) == multiset(KeptRows(load.rows[1..])))
                && (|load.rows| <= 1 ==> families == [])
    {
      var loaded: seq<FamilyData> := [];
      var error := "";
      match load {
        case FetchFailed =>
          error := ConnectionErrorMessage;
        case ParseFailed =>
          error := ParseErrorMessage;
        case Parsed(rows) =>
          loaded := DecodeRoster(rows, leq);
      }
      this.prices := prices;
      this.leq := leq;
      families := loaded;
      csvError := error;
      selectedFamily := None;
      hasSubmitted := false;
      submissionStatus := "";
      file := None;
      submitSuccess := false;
      submitError := "";
    }

    /**
     * `handleFamilyChange`. An empty choice clears the selection and the
     * submitted flag. Otherwise the family is looked up by exact name; when it
     * is found the flag and the error are cleared and the status check
     * (`check`, None when it threw) decides what is shown.
     */
    method ChangeFamily(name: string, check: Option<StatusReply>)
      requires Valid()
      modifies this
      ensures Valid()
      ensures families == old(families) && csvError == old(csvError)
      ensures file == old(file) && submitSuccess == old(submitSuccess)
      ensures name == "" ==>
                && selectedFamily.None? && !hasSubmitted
                && submissionStatus == old(submissionStatus) && submitError == old(submitError)
      ensures name != "" ==> selectedFamily == FindFamily(families, name)
      ensures name != "" && selectedFamily.None? ==>
                hasSubmitted == old(hasSubmitted) && submissionStatus == old(submissionStatus)
                && submitError == old(submitError)
      ensures name != "" && selectedFamily.Some? ==>
                match check
                case None =>
                  !hasSubmitted && submissionStatus == old(submissionStatus)
                  && submitError == StatusCheckErrorMessage
                case Some(res) =>
                  && hasSubmitted == (res.success && res.submitted)
                  && submissionStatus == (if res.success && res.submitted then res.status else old(submissionStatus))
                  && submitError ==
                       (if !(res.success && res.submitted) && res.error == Some("fetch_failed")
                        then StatusFetchFailedMessage else "")
    {
      if name == "" {
        selectedFamily := None;
        hasSubmitted := false;
        return;
      }
      var family := FindFamily(families, name);
      selectedFamily := family;
      if family.Some? {
        hasSubmitted := false;
        submitError := "";
        match check
        case None =>
          submitError := StatusCheckErrorMessage;
        case Some(res) =>
          if res.success && res.submitted {
            hasSubmitted := true;
            submissionStatus := res.status;
          } else if res.error == Some("fetch_failed") {
            submitError := StatusFetchFailedMessage;
          }
      }
    }

    /**
     * `handleFileChange`. No file chosen: nothing happens. A file that fails
     * the size or type check is dropped with its error; an acceptable one is
     * kept and the error is cleared.
     */
    method ChangeFile(chosen: Option<FileInfo>)
      requires Valid()
      modifies this
      ensures Valid()
      ensures families == old(families) && csvError == old(csvError) && selectedFamily == old(selectedFamily)
      ensures hasSubmitted == old(hasSubmitted) && submissionStatus == old(submissionStatus)
      ensures submitSuccess == old(submitSuccess)
      ensures chosen.None? ==> file == old(file) && submitError == old(submitError)
      ensures chosen.Some? && Acceptable(chosen.value) ==> file == chosen && submitError == ""
      ensures chosen.Some? && !Acceptable(chosen.value) ==>
                file.None? && submitError == FileProblem(chosen.value).value
    {
      if chosen.None? {
        return;
      }
      var f := chosen.value;
      match FileProblem(f)
      case Some(problem) =>
        submitError := problem;
        file := None;
      case None =>
        submitError := "";
        file := Some(f);
    }

    /**
     * `handleSubmit`. A missing family is reported before a missing file, and
     * either stops the submission without a payload. Otherwise the receipt is
     * read (`dataUrl`, None when the reader failed), the fee computed, the
     * receipt checked against it (`reading` is the reading service's text,
     * None when it threw) and the payload posted; `reply` is what posting did.
     */
    method Submit(dataUrl: Option<string>, reading: Option<string>, reply: SubmitReply)
      returns (payload: Option<Payload>)
      requires Valid()
      modifies this
      ensures Valid()
      ensures families == old(families) && csvError == old(csvError) && selectedFamily == old(selectedFamily)
      ensures file == old(file) && submissionStatus == old(submissionStatus)
      ensures old(selectedFamily).None? ==>
                payload.None? && submitError == NoFamilyMessage && hasSubmitted == old(hasSubmitted)
                && submitSuccess == old(submitSuccess)
      ensures old(selectedFamily).Some? && old(file).None? ==>
                payload.None? && submitError == NoFileMessage && hasSubmitted == old(hasSubmitted)
                && submitSuccess == old(submitSuccess)
      ensures old(selectedFamily).Some? && old(file).Some? && dataUrl.None? ==>
                payload.None? && submitError == SystemErrorMessage && hasSubmitted == old(hasSubmitted)
                && submitSuccess == old(submitSuccess)
      ensures old(selectedFamily).Some? && old(file).Some? && dataUrl.Some? ==>
                var family := old(selectedFamily).value;
                var f := old(file).value;
                var fee := Fee(family, prices);
                var verdict := VerifyReceipt(reading, fee);
                && payload.Some?
                && payload.value.familyName == family.name
                && payload.value.adults == family.adults && payload.value.children == family.children
                && payload.value.totalAmount == fee
                && IsPaddedBody(payload.value.receiptBase64, DataUrlBody(dataUrl.value))
                && payload.value.mimeType == f.mimeType && payload.value.filename == f.name
                && payload.value.status == verdict.initialStatus
                && payload.value.extractedAmount == verdict.extractedAmount
                && match reply
                   case SubmitThrew =>
                     submitError == SystemErrorMessage && hasSubmitted == old(hasSubmitted)
                     && submitSuccess == old(submitSuccess)
                   case Replied(success, message) =>
                     if success then
                       submitSuccess && submitError == "" && hasSubmitted == old(hasSubmitted)
                     else
                       && submitError == RefusalMessage(message)
                       && hasSubmitted == (old(hasSubmitted) || SaysAlreadySent(message))
                       && submitSuccess == old(submitSuccess)
    {
      if selectedFamily.None? {
        submitError := NoFamilyMessage;
        return None;
      }
      if file.None? {
        submitError := NoFileMessage;
        return None;
      }
      submitError := "";
      var family := selectedFamily.value;
      var f := file.value;
      if dataUrl.None? {
        submitError := SystemErrorMessage;
        return None;
      }
      var base64File := GetBase64(dataUrl.value);
      var totalAmount := Fee(family, prices);
      var verdict := VerifyReceipt(reading, totalAmount);
      payload := Some(Payload(family.name, family.adults, family.children, totalAmount, base64File,
                              f.mimeType, f.name, verdict.initialStatus, verdict.extractedAmount));
      match reply
      case SubmitThrew =>
        submitError := SystemErrorMessage;
      case Replied(success, message) =>
        if success {
          submitSuccess := true;
        } else {
          submitError := RefusalMessage(message);
          if SaysAlreadySent(message) {
            hasSubmitted := true;
          }
        }
    }
  }
}
