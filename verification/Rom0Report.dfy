/** The refresh report: what was loaded, what failed, and whether ROM-0 is ready for review. */
module Rom0Report {
  import opened Options
  import Rom0Packet

  datatype InputName =
    | UnlockEligibility
    | StockRestore
    | GsiCandidate
    | DsuPreflight
    | FastbootEvidence
    | BootloaderVisibilityGuide
    | OperatorChecklist

  datatype EvidenceStatus = LOADED | MISSING | INVALID

  datatype EvidenceInput = EvidenceInput(name: InputName, status: EvidenceStatus, detail: string)

  datatype RefreshError = InvalidInput(name: InputName, detail: string) | NoDevice

  datatype Status = ReadyForReview | Blocked | Error

  datatype Report = Report(
    generatedAt: int,
    ok: bool,
    status: Status,
    refreshSucceeded: bool,
    romReady: bool,
    packetStatus: Rom0Packet.Status,
    bootloaderStatus: string,
    checklistStatus: string,
    blockedBy: seq<string>,
    inputs: seq<EvidenceInput>,
    errors: seq<RefreshError>)

  const GENERATED := "generated: "

  function StatusText(status: EvidenceStatus): string {
    match status
    case LOADED => "LOADED"
    case MISSING => "MISSING"
    case INVALID => "INVALID"
  }

  /** `bootloader_status_from_input` and `operator_checklist_status_from_input`. */
  function StatusFromInput(input: EvidenceInput): string {
    if input.status != LOADED then StatusText(input.status)
    else if GENERATED <= input.detail then input.detail[|GENERATED|..]
    else input.detail
  }

  lemma GeneratedReadsBack(name: InputName, text: string)
    ensures StatusFromInput(EvidenceInput(name, LOADED, GENERATED + text)) == text
  {
    PrefixDropped(GENERATED, text);
  }

  lemma PrefixDropped(prefix: string, text: string)
    ensures prefix <= prefix + text && (prefix + text)[|prefix|..] == text
  {
  }

  /** The first input of that name. */
  function Find(inputs: seq<EvidenceInput>, name: InputName): Option<EvidenceInput>
    decreases |inputs|
  {
    if inputs == [] then None else if inputs[0].name == name then Some(inputs[0]) else Find(inputs[1..], name)
  }

  function StatusOf(inputs: seq<EvidenceInput>, name: InputName): EvidenceStatus {
    var found := Find(inputs, name);
    if found.Some? then found.value.status else MISSING
  }

  function BootloaderStatus(inputs: seq<EvidenceInput>): string {
    var found := Find(inputs, BootloaderVisibilityGuide);
    if found.Some? then StatusFromInput(found.value) else StatusText(MISSING)
  }

  /** `dict.fromkeys`: the items without repetition, in order of first occurrence. */
  function Unique<T(==,!new)>(items: seq<T>): (r: seq<T>)
    ensures forall item :: item in r <==> item in items
    ensures forall i, j :: 0 <= i < j < |r| ==> r[i] != r[j]
    ensures r == [] <==> items == []
    decreases |items|
  {
    if items == [] then []
    else
      var n := |items| - 1;
      assert items == items[..n] + [items[n]];
      var r := Unique(items[..n]);
      if items[n] in r then r else r + [items[n]]
  }

  /** `refresh_blocked_by`. */
  function BlockedBy(packet: Rom0Packet.Packet, dsuLoaded: bool): seq<string> {
    Unique(packet.blockedBy + Rom0Packet.When(!dsuLoaded, Rom0Packet.DSU_MISSING))
  }

  /** `build_refresh_report`. */
  function Build(packet: Rom0Packet.Packet, inputs: seq<EvidenceInput>, errors: seq<RefreshError>,
                 checklistStatus: string, now: int): Report
  {
    var succeeded := errors == [];
    var dsuLoaded := StatusOf(inputs, DsuPreflight) == LOADED;
    var ready := succeeded && packet.status == Rom0Packet.ReadyForReview && dsuLoaded;
    Report(
      now, succeeded && ready,
      if !succeeded then Error else if ready then ReadyForReview else Blocked,
      succeeded, ready, packet.status, BootloaderStatus(inputs), checklistStatus,
      BlockedBy(packet, dsuLoaded), inputs, errors)
  }
}
