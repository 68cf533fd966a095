/**
  The decisions of the kiosk's main window: which check-in a manual entry
  or a scanned barcode leads to, and the scanner on/off and mode switching
  state. Widgets, dialogs, log lines, timers and styling are not modelled;
  a running reader thread is represented by the port it reads.
 */
module Gui {
  import opened Wrappers
  import opened Text
  import opened Database
  import BarcodeReader

  datatype Mode = Manual | Scanner

  /** What `manual_check_in` does with the two input fields. */
  datatype ManualAction =
    | RejectEmptyBarcode
    | RejectMissingName
    | SubmitCheckIn(barcode: string, name: string)

  /**
    Both fields are stripped. A blank barcode is rejected. A known barcode
    is checked in under its stored name, whatever was typed; an unknown one
    needs a non-blank name.
   */
  function DecideManual(barcodeText: string, nameText: string, s: Store): ManualAction {
    var barcode, name := Strip(barcodeText), Strip(nameText);
    if barcode == [] then RejectEmptyBarcode
    else match VisitorInfo(s, barcode)
      case Some(p) => SubmitCheckIn(barcode, p.name)
      case None => if name == [] then RejectMissingName else SubmitCheckIn(barcode, name)
  }

  /** Every outcome of the manual decision, in terms of the two fields and the store. */
  lemma ManualDecision(barcodeText: string, nameText: string, s: Store)
    ensures var a, b := DecideManual(barcodeText, nameText, s), Strip(barcodeText);
      && (a == RejectEmptyBarcode <==> AllSpace(barcodeText))
      && (a == RejectMissingName <==> !AllSpace(barcodeText) && b !in s.visitors && AllSpace(nameText))
      && (a.SubmitCheckIn? ==> a.barcode == b && a.barcode != [] && Trimmed(a.barcode))
      && (a.SubmitCheckIn? && b in s.visitors ==> a.name == s.visitors[b].name)
      && (a.SubmitCheckIn? && b !in s.visitors ==> a.name == Strip(nameText) && a.name != [] && Trimmed(a.name))
  {
    StripSpec(barcodeText);
    StripSpec(nameText);
  }

  /** What `on_barcode_detected` does with a barcode from the scanner. */
  datatype ScanAction = ScanCheckIn(barcode: string, name: string) | PromptForName(barcode: string)

  /** A known barcode is checked in under its stored name; an unknown one goes to manual entry. */
  function DecideScan(barcode: string, s: Store): ScanAction {
    match VisitorInfo(s, barcode)
      case Some(p) => ScanCheckIn(barcode, p.name)
      case None => PromptForName(barcode)
  }

  lemma ScanDecision(barcode: string, s: Store)
    ensures DecideScan(barcode, s).ScanCheckIn? <==> barcode in s.visitors
    ensures DecideScan(barcode, s).barcode == barcode
    ensures DecideScan(barcode, s).ScanCheckIn? ==> DecideScan(barcode, s).name == s.visitors[barcode].name
  {
  }

  /** A check-in submitted from the manual form keeps every row's name equal to its profile's. */
  lemma ManualCheckInKeepsNames(barcodeText: string, nameText: string, s: Store, clock: Clock)
    requires RowsHaveProfiles(s) && NamesAgree(s)
    requires DecideManual(barcodeText, nameText, s).SubmitCheckIn?
    ensures var a := DecideManual(barcodeText, nameText, s);
      NamesAgree(CheckInEffect(s, a.barcode, a.name, clock).store)
  {
    ManualDecision(barcodeText, nameText, s);
    var a := DecideManual(barcodeText, nameText, s);
    CheckInPreservesNames(s, a.barcode, a.name, clock);
  }

  /** So does a check-in made from a scan. */
  lemma ScanCheckInKeepsNames(barcode: string, s: Store, clock: Clock)
    requires RowsHaveProfiles(s) && NamesAgree(s)
    requires DecideScan(barcode, s).ScanCheckIn?
    ensures var a := DecideScan(barcode, s);
      NamesAgree(CheckInEffect(s, a.barcode, a.name, clock).store)
  {
    CheckInPreservesNames(s, barcode, DecideScan(barcode, s).name, clock);
  }

  /**
    A barcode the reader reports and the ledger does not know is copied into
    the barcode field; once a non-blank name is typed, the manual form
    submits exactly that barcode with the stripped name.
   */
  lemma PromptedBarcodeResubmits(barcode: string, nameText: string, s: Store)
    requires BarcodeReader.IsBarcode(barcode)
    requires DecideScan(barcode, s) == PromptForName(barcode)
    requires !AllSpace(nameText)
    ensures DecideManual(barcode, nameText, s) == SubmitCheckIn(barcode, Strip(nameText))
  {
    StripTrimmed(barcode);
    StripSpec(nameText);
  }

  /** The window's state that the decisions read and write. */
  class MainWindow {
    const db: VisitorDatabase
    var currentMode: Mode
    var scannerActive: bool
    /** The running reader thread, if any, by its port. */
    var scannerPort: Option<string>
    var barcodeInput: string
    var nameInput: string

    ghost predicate Valid()
      reads this, db
    {
      && db.Valid()
      && NamesAgree(db.State())
      && (scannerActive <==> scannerPort.Some?)
    }

    /** A fresh window: manual mode, scanner stopped, empty fields. */
    constructor (database: VisitorDatabase)
      requires database.Valid() && NamesAgree(database.State())
      ensures Valid() && db == database
      ensures currentMode == Manual && !scannerActive && barcodeInput == [] && nameInput == []
    {
      db := database;
      currentMode := Manual;
      scannerActive := false;
      scannerPort := None;
      barcodeInput := [];
      nameInput := [];
    }

    /** `stop_scanner`: the reader, if any, is stopped and dropped. */
    method StopScanner()
      requires Valid()
      modifies this
      ensures Valid()
      ensures !scannerActive && scannerPort.None?
      ensures currentMode == old(currentMode) && barcodeInput == old(barcodeInput) && nameInput == old(nameInput)
    {
      scannerPort := None;
      scannerActive := false;
    }

    /**
      `start_scanner`: with no port selected (or an empty one) nothing
      changes; otherwise a reader on that port is started.
     */
    method StartScanner(selectedPort: Option<string>) returns (started: bool)
      requires Valid()
      modifies this
      ensures Valid()
      ensures started <==> selectedPort.Some? && selectedPort.value != []
      ensures started ==> scannerActive && scannerPort == selectedPort
      ensures !started ==> scannerActive == old(scannerActive) && scannerPort == old(scannerPort)
      ensures currentMode == old(currentMode) && barcodeInput == old(barcodeInput) && nameInput == old(nameInput)
    {
      if selectedPort.None? || selectedPort.value == [] {
        return false;
      }
      scannerPort := selectedPort;
      scannerActive := true;
      started := true;
    }

    /** `toggle_scanner`: stop a running scanner, start a stopped one. */
    method ToggleScanner(selectedPort: Option<string>)
      requires Valid()
      modifies this
      ensures Valid()
      ensures old(scannerActive) ==> !scannerActive && scannerPort.None?
      ensures !old(scannerActive) ==>
        if selectedPort.Some? && selectedPort.value != [] then scannerActive && scannerPort == selectedPort
        else !scannerActive
      ensures currentMode == old(currentMode) && barcodeInput == old(barcodeInput) && nameInput == old(nameInput)
    {
      if !scannerActive {
        var _ := StartScanner(selectedPort);
      } else {
        StopScanner();
      }
    }

    /** `on_scanner_error`: a running scanner is stopped. */
    method OnScannerError()
      requires Valid()
      modifies this
      ensures Valid()
      ensures !scannerActive && scannerPort.None?
      ensures currentMode == old(currentMode) && barcodeInput == old(barcodeInput) && nameInput == old(nameInput)
    {
      if scannerActive {
        StopScanner();
      }
    }

    /** `switch_mode`: leaving scanner mode with the scanner running stops it. */
    method SwitchMode(mode: Mode)
      requires Valid()
      modifies this
      ensures Valid()
      ensures currentMode == mode
      ensures old(currentMode == Scanner && scannerActive) ==> !scannerActive && scannerPort.None?
      ensures !old(currentMode == Scanner && scannerActive) ==>
        scannerActive == old(scannerActive) && scannerPort == old(scannerPort)
      ensures barcodeInput == old(barcodeInput) && nameInput == old(nameInput)
    {
      if currentMode == Scanner && scannerActive {
        StopScanner();
      }
      currentMode := mode;
    }

    /**
      The `db.check_in` call shared by both check-in paths: a storage error
      is reported and swallowed, leaving the ledger as it was. Called only
      with the stored name of a known barcode.
     */
    method RecordCheckIn(barcode: string, name: string, clock: Clock, fault: Option<Stage>)
      requires Valid()
      requires barcode in db.visitors ==> name == db.visitors[barcode].name
      modifies db
      ensures Valid()
      ensures fault.None? ==> db.State() == CheckInEffect(old(db.State()), barcode, name, clock).store
      ensures fault.Some? ==> db.State() == old(db.State())
    {
      CheckInPreservesNames(db.State(), barcode, name, clock);
      var _ := db.CheckIn(barcode, name, clock, fault);
    }

    /** Empties both input fields. */
    method ClearInputs()
      requires Valid()
      modifies this
      ensures Valid()
      ensures barcodeInput == [] && nameInput == []
      ensures currentMode == old(currentMode) && scannerActive == old(scannerActive) && scannerPort == old(scannerPort)
    {
      barcodeInput, nameInput := [], [];
    }

    /**
      `manual_check_in`: the decision on the two fields; on a submit the
      check-in runs (a storage error is reported and swallowed, leaving the
      ledger as it was) and both fields are cleared.
     */
    method ManualCheckIn(clock: Clock, fault: Option<Stage>) returns (action: ManualAction)
      requires Valid()
      modifies this, db
      ensures Valid()
      ensures action == DecideManual(old(barcodeInput), old(nameInput), old(db.State()))
      ensures action.SubmitCheckIn? ==> barcodeInput == [] && nameInput == []
      ensures action.SubmitCheckIn? && fault.None? ==>
        db.State() == CheckInEffect(old(db.State()), action.barcode, action.name, clock).store
      ensures !(action.SubmitCheckIn? && fault.None?) ==> db.State() == old(db.State())
      ensures !action.SubmitCheckIn? ==> barcodeInput == old(barcodeInput) && nameInput == old(nameInput)
      ensures currentMode == old(currentMode) && scannerActive == old(scannerActive) && scannerPort == old(scannerPort)
    {
      action := DecideManual(barcodeInput, nameInput, db.State());
      if action.SubmitCheckIn? {
        RecordCheckIn(action.barcode, action.name, clock, fault);
        ClearInputs();
      }
    }

    /**
      `on_barcode_detected`: a known barcode is checked in under its stored
      name (a storage error is reported and swallowed); an unknown one
      switches to manual mode, which stops the scanner, and is copied into
      the barcode field.
     */
    method OnBarcodeDetected(barcode: string, clock: Clock, fault: Option<Stage>) returns (action: ScanAction)
      requires Valid()
      modifies this, db
      ensures Valid()
      ensures action == DecideScan(barcode, old(db.State()))
      ensures action.ScanCheckIn? && fault.None? ==>
        db.State() == CheckInEffect(old(db.State()), barcode, action.name, clock).store
      ensures !(action.ScanCheckIn? && fault.None?) ==> db.State() == old(db.State())
      ensures action.ScanCheckIn? ==>
        && currentMode == old(currentMode) && scannerActive == old(scannerActive) && scannerPort == old(scannerPort)
        && barcodeInput == old(barcodeInput) && nameInput == old(nameInput)
      ensures action.PromptForName? ==>
        && currentMode == Manual && barcodeInput == barcode && nameInput == old(nameInput)
        && (old(currentMode == Scanner && scannerActive) ==> !scannerActive && scannerPort.None?)
        && (!old(currentMode == Scanner && scannerActive) ==> scannerActive == old(scannerActive) && scannerPort == old(scannerPort))
    {
      action := DecideScan(barcode, db.State());
      if action.ScanCheckIn? {
        RecordCheckIn(barcode, action.name, clock, fault);
      } else {
        SwitchMode(Manual);
        barcodeInput := barcode;
      }
    }
  }
}
