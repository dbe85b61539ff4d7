/** The operator checklist, which derives readiness again from a refresh report. */
module OperatorChecklist {
  import opened Rom0Report
  import BootloaderGuide
  import Rom0Packet

  // ---------------------------------------------------------- evidence map

  type Statuses = map<InputName, EvidenceStatus>

  /** `evidence_inputs` as a map: a later input replaces an earlier one of its name. */
  function StatusMap(inputs: seq<EvidenceInput>): Statuses
    decreases |inputs|
  {
    if inputs == [] then map[]
    else
      var n := |inputs| - 1;
      StatusMap(inputs[..n])[inputs[n].name := inputs[n].status]
  }

  function Names(inputs: seq<EvidenceInput>): (r: seq<InputName>)
    ensures |r| == |inputs|
  {
    seq(|inputs|, i requires 0 <= i < |inputs| => inputs[i].name)
  }

  /** `evidence_inputs`: the dictionary and the order of its keys. */
  method EvidenceInputs(inputs: seq<EvidenceInput>) returns (statuses: Statuses, order: seq<InputName>)
    ensures statuses == StatusMap(inputs) && order == Unique(Names(inputs))
  {
    statuses, order := map[], [];
    var i := 0;
    while i < |inputs|
      invariant 0 <= i <= |inputs|
      invariant statuses == StatusMap(inputs[..i])
      invariant order == Unique(Names(inputs[..i]))
    {
      assert inputs[..i + 1][..i] == inputs[..i];
      assert Names(inputs[..i + 1])[..i] == Names(inputs[..i]);
      if inputs[i].name !in order {
        order := order + [inputs[i].name];
      }
      statuses := statuses[inputs[i].name := inputs[i].status];
      i := i + 1;
    }
    assert inputs[..i] == inputs;
  }

  predicate IsLoaded(statuses: Statuses, name: InputName) { name in statuses && statuses[name] == LOADED }

  // -------------------------------------------------------------- blockers

  const NOT_REFRESHED := "refresh report contains invalid evidence inputs"
  const NO_STOCK := "stock restore evidence must be recorded before any unlock, DSU, flash, or boot decision"
  const NO_UNLOCK := "OEM or Motorola unlock eligibility evidence is missing"
  const NO_GSI := "official Google GSI archive evidence is missing"
  const NO_FASTBOOT := "host fastboot evidence is missing"
  const NOT_VISIBLE := "manual bootloader-mode fastboot visibility has not been recorded"

  /** What the checklist reads off the report. */
  datatype Readiness = Readiness(
    refreshed: bool, romReady: bool, stock: bool, unlock: bool, gsi: bool, dsu: bool, fastboot: bool,
    bootloader: string)
  {
    predicate Visible() { bootloader == Rom0Packet.VISIBLE }
  }

  function ReadinessOf(report: Report): Readiness {
    var statuses := StatusMap(report.inputs);
    Readiness(
      report.refreshSucceeded,
      report.refreshSucceeded && report.romReady,
      IsLoaded(statuses, StockRestore),
      IsLoaded(statuses, UnlockEligibility) && Rom0Packet.UNLOCK_MISSING !in report.blockedBy,
      IsLoaded(statuses, GsiCandidate),
      IsLoaded(statuses, DsuPreflight),
      IsLoaded(statuses, FastbootEvidence),
      report.bootloaderStatus)
  }

  function FixInvalid(name: InputName): string {
    match name
    case UnlockEligibility => "fix invalid unlock_eligibility evidence before continuing"
    case StockRestore => "fix invalid stock_restore evidence before continuing"
    case GsiCandidate => "fix invalid gsi_candidate evidence before continuing"
    case DsuPreflight => "fix invalid dsu_preflight evidence before continuing"
    case FastbootEvidence => "fix invalid fastboot_evidence evidence before continuing"
    case BootloaderVisibilityGuide => "fix invalid bootloader_visibility_guide evidence before continuing"
    case OperatorChecklist => "fix invalid operator_checklist evidence before continuing"
  }

  /** `string_items`: the texts that are not empty, redacted. */
  function RedactedItems(redact: string -> string, items: seq<string>): (r: seq<string>)
    ensures r == [] <==> forall item <- items :: item == ""
    decreases |items|
  {
    if items == [] then []
    else
      var n := |items| - 1;
      assert items == items[..n] + [items[n]] && items[n] in items;
      assert forall item <- items[..n] :: item in items;
      RedactedItems(redact, items[..n]) + if items[n] == "" then [] else [redact(redact(items[n]))]
  }

  /** The loop over the evidence of `checklist_blockers`. */
  method InvalidEvidence(statuses: Statuses, order: seq<InputName>) returns (blockers: seq<string>)
    requires forall name <- order :: name in statuses
    ensures blockers == [] <==> forall name <- order :: statuses[name] != INVALID
    ensures forall name <- order :: statuses[name] == INVALID ==> FixInvalid(name) in blockers
  {
    hide FixInvalid;
    blockers := [];
    var i := 0;
    while i < |order|
      invariant 0 <= i <= |order|
      invariant blockers == [] <==> forall k :: 0 <= k < i ==> statuses[order[k]] != INVALID
      invariant forall k :: 0 <= k < i && statuses[order[k]] == INVALID ==> FixInvalid(order[k]) in blockers
    {
      if statuses[order[i]] == INVALID {
        blockers := blockers + [FixInvalid(order[i])];
      }
      i := i + 1;
    }
  }

  /** `checklist_blockers`. */
  method ChecklistBlockers(redact: string -> string, report: Report, statuses: Statuses, order: seq<InputName>,
                           ready: Readiness)
    returns (blockers: seq<string>)
    requires forall name <- order :: name in statuses
    ensures blockers == [] <==>
      && (forall item <- report.blockedBy :: item == "") && report.refreshSucceeded
      && (forall name <- order :: statuses[name] != INVALID)
      && ready.stock && ready.unlock && ready.gsi && ready.dsu && ready.fastboot && ready.Visible()
    ensures forall i, j :: 0 <= i < j < |blockers| ==> blockers[i] != blockers[j]
    ensures !report.refreshSucceeded ==> NOT_REFRESHED in blockers
    ensures forall name <- order :: statuses[name] == INVALID ==> FixInvalid(name) in blockers
    ensures (!ready.stock ==> NO_STOCK in blockers) && (!ready.unlock ==> NO_UNLOCK in blockers)
    ensures (!ready.gsi ==> NO_GSI in blockers) && (!ready.dsu ==> Rom0Packet.DSU_MISSING in blockers)
    ensures (!ready.fastboot ==> NO_FASTBOOT in blockers) && (!ready.Visible() ==> NOT_VISIBLE in blockers)
  {
    hide FixInvalid, RedactedItems;
    var invalid := InvalidEvidence(statuses, order);
    blockers := RedactedItems(redact, report.blockedBy)
      + Rom0Packet.When(!report.refreshSucceeded, NOT_REFRESHED) + invalid
      + Rom0Packet.When(!ready.stock, NO_STOCK) + Rom0Packet.When(!ready.unlock, NO_UNLOCK)
      + Rom0Packet.When(!ready.gsi, NO_GSI) + Rom0Packet.When(!ready.dsu, Rom0Packet.DSU_MISSING)
      + Rom0Packet.When(!ready.fastboot, NO_FASTBOOT) + Rom0Packet.When(!ready.Visible(), NOT_VISIBLE);
    blockers := Unique(blockers);
  }

  // ----------------------------------------------------------------- steps

  datatype StepId =
    | RefreshEvidence
    | RecordStockRestore
    | RecordUnlockEligibility
    | RecordGsiCandidate
    | RecordDsuPreflight
    | RecordHostFastboot
    | RecordManualVisibility
    | CreateManualGates
    | ReadinessReview
    | DestructiveDecision

  datatype StepStatus = DONE | READY | BLOCKED

  datatype Step = Step(id: StepId, status: StepStatus, mustFollowAfter: seq<StepId>)

  function Recorded(done: bool, ready: bool): StepStatus { if done then DONE else if ready then READY else BLOCKED }

  function StepOf(r: Readiness, id: StepId): Step {
    match id
    case RefreshEvidence => Step(id, if r.refreshed then DONE else READY, [])
    case RecordStockRestore => Step(id, Recorded(r.stock, r.refreshed), [])
    case RecordUnlockEligibility => Step(id, Recorded(r.unlock, r.refreshed), [RecordStockRestore])
    case RecordGsiCandidate => Step(id, Recorded(r.gsi, r.refreshed), [RecordStockRestore])
    case RecordDsuPreflight =>
      Step(id, Recorded(r.dsu, r.refreshed && r.stock && r.gsi), [RecordStockRestore, RecordGsiCandidate])
    case RecordHostFastboot => Step(id, Recorded(r.fastboot, r.refreshed), [])
    case RecordManualVisibility => Step(id, Recorded(r.Visible(), AwaitsManualCheck(r)), [RecordHostFastboot])
    case CreateManualGates =>
      Step(id, if r.stock && r.unlock then READY else BLOCKED, [RecordStockRestore, RecordUnlockEligibility])
    case ReadinessReview =>
      Step(id, if r.romReady then READY else BLOCKED,
           [CreateManualGates, RecordGsiCandidate, RecordDsuPreflight, RecordManualVisibility])
    case DestructiveDecision => Step(id, BLOCKED, [ReadinessReview])
  }

  function Steps(r: Readiness): seq<Step> {
    [StepOf(r, RefreshEvidence), StepOf(r, RecordStockRestore), StepOf(r, RecordUnlockEligibility),
     StepOf(r, RecordGsiCandidate), StepOf(r, RecordDsuPreflight), StepOf(r, RecordHostFastboot),
     StepOf(r, RecordManualVisibility), StepOf(r, CreateManualGates), StepOf(r, ReadinessReview),
     StepOf(r, DestructiveDecision)]
  }

  predicate AwaitsManualCheck(r: Readiness) {
    r.bootloader == BootloaderGuide.Spelled(BootloaderGuide.ReadyForManualCheck)
  }

  /** A step shown as ready has all steps it must follow done. */
  predicate StepInOrder(r: Readiness, id: StepId) {
    StepOf(r, id).status == READY ==> forall before <- StepOf(r, id).mustFollowAfter :: StepOf(r, before).status == DONE
  }

  lemma OneBefore(r: Readiness, id: StepId, before: StepId)
    requires StepOf(r, id).mustFollowAfter == [before]
    ensures StepInOrder(r, id) <==> (StepOf(r, id).status == READY ==> StepOf(r, before).status == DONE)
  {
    hide StepOf;
    assert [before][0] in [before];
  }

  lemma TwoBefore(r: Readiness, id: StepId, first: StepId, second: StepId)
    requires StepOf(r, id).mustFollowAfter == [first, second]
    requires StepOf(r, first).status == DONE && StepOf(r, second).status == DONE
    ensures StepInOrder(r, id)
  {
    hide StepOf;
  }

  lemma SingleStepsInOrder(r: Readiness)
    ensures StepInOrder(r, RecordUnlockEligibility) <==> !(r.refreshed && !r.stock && !r.unlock)
    ensures StepInOrder(r, RecordGsiCandidate) <==> !(r.refreshed && !r.stock && !r.gsi)
    ensures StepInOrder(r, RecordManualVisibility) <==> !(AwaitsManualCheck(r) && !r.fastboot)
  {
    hide StepInOrder;
    NotBothVisibleAndAwaiting(r);
    hide AwaitsManualCheck;
    OneBefore(r, RecordUnlockEligibility, RecordStockRestore);
    OneBefore(r, RecordGsiCandidate, RecordStockRestore);
    OneBefore(r, RecordManualVisibility, RecordHostFastboot);
  }

  lemma DoubleStepsInOrder(r: Readiness)
    ensures StepInOrder(r, RecordDsuPreflight) && StepInOrder(r, CreateManualGates)
  {
    if StepOf(r, RecordDsuPreflight).status == READY {
      TwoBefore(r, RecordDsuPreflight, RecordStockRestore, RecordGsiCandidate);
    }
    if StepOf(r, CreateManualGates).status == READY {
      TwoBefore(r, CreateManualGates, RecordStockRestore, RecordUnlockEligibility);
    }
  }

  lemma OtherStepsInOrder(r: Readiness)
    ensures StepInOrder(r, RefreshEvidence) && StepInOrder(r, RecordStockRestore)
    ensures StepInOrder(r, RecordHostFastboot) && StepInOrder(r, DestructiveDecision)
    ensures StepInOrder(r, ReadinessReview) <==> !r.romReady
  {
    assert StepOf(r, ReadinessReview).mustFollowAfter[0] == CreateManualGates;
    assert CreateManualGates in StepOf(r, ReadinessReview).mustFollowAfter;
  }

  /** When exactly the order holds. It fails for every checklist that is ready for review: the
      review step follows the manual gates, and that step is never done. */
  lemma InOrderIff(r: Readiness)
    ensures (forall id :: StepInOrder(r, id)) <==>
      && !(r.refreshed && !r.stock && (!r.unlock || !r.gsi))
      && !(AwaitsManualCheck(r) && !r.fastboot)
      && !r.romReady
  {
    hide *;
    SingleStepsInOrder(r);
    DoubleStepsInOrder(r);
    OtherStepsInOrder(r);
    forall id ensures id in {RecordUnlockEligibility, RecordGsiCandidate, RecordManualVisibility, ReadinessReview}
                      || StepInOrder(r, id)
    {
      match id
      case RecordStockRestore =>
      case RecordDsuPreflight =>
      case RecordHostFastboot =>
      case _ =>
    }
  }

  lemma NotBothVisibleAndAwaiting(r: Readiness)
    ensures !(r.Visible() && AwaitsManualCheck(r))
  {
    BootloaderGuide.SpellingsDiffer(BootloaderGuide.ReadyForManualCheck, BootloaderGuide.ManualVisible);
  }

  // ------------------------------------------------------------- checklist

  datatype Checklist = Checklist(ok: bool, blockedBy: seq<string>, steps: seq<Step>)

  /** The report carries everything the checklist asks for. */
  ghost predicate Confirms(report: Report) {
    var r := ReadinessOf(report);
    && r.romReady && (forall item <- report.blockedBy :: item == "")
    && (forall name <- StatusMap(report.inputs) :: StatusMap(report.inputs)[name] != INVALID)
    && r.stock && r.unlock && r.gsi && r.dsu && r.fastboot && r.Visible()
  }

  /** `build_operator_checklist` up to its check for forbidden commands. */
  method BuildChecklist(redact: string -> string, report: Report) returns (checklist: Checklist)
    ensures checklist.ok <==> Confirms(report)
    ensures checklist.ok ==> checklist.blockedBy == []
    ensures checklist.steps == Steps(ReadinessOf(report))
  {
    hide Steps;
    var statuses, order := EvidenceInputs(report.inputs);
    NamesAreKeys(report.inputs);
    var ready := ReadinessOf(report);
    var blockedBy := ChecklistBlockers(redact, report, statuses, order, ready);
    return Checklist(ready.romReady && blockedBy == [], blockedBy, Steps(ready));
  }

  lemma {:induction false} NamesAreKeys(inputs: seq<EvidenceInput>)
    ensures forall name :: name in Names(inputs) <==> name in StatusMap(inputs)
    decreases |inputs|
  {
    if inputs != [] {
      var n := |inputs| - 1;
      NamesAreKeys(inputs[..n]);
      assert Names(inputs) == Names(inputs[..n]) + [inputs[n].name];
    }
  }

  lemma {:induction false} LoadedStatuses(inputs: seq<EvidenceInput>)
    requires forall i :: 0 <= i < |inputs| ==> inputs[i].status == LOADED
    ensures forall name <- StatusMap(inputs) :: StatusMap(inputs)[name] == LOADED
    decreases |inputs|
  {
    if inputs != [] {
      LoadedStatuses(inputs[..|inputs| - 1]);
    }
  }
}
