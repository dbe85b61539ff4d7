/** The ROM-0 refresh: load evidence, build packet, guide and checklist, and publish them so that
    the files on disk and the returned report tell the same story under every write fault. */
module Rom0Refresh {
  import opened Options
  import opened Rom0Report
  import BootloaderGuide
  import Checklists = OperatorChecklist
  import Rom0Packet
  import UnlockEvidence

  // --------------------------------------------------------------- loading

  /** What `load_optional_evidence` meets: the path is refused, nothing is there, the loader
      raises, or it returns the evidence. */
  datatype Load<+E> = PathRefused(message: string) | NotThere | Unreadable(message: string) | There(value: E)

  function Consumed<E>(load: Load<E>): Option<E> { if load.There? then Some(load.value) else None }

  function InputOf<E>(redact: string -> string, name: InputName, load: Load<E>): EvidenceInput {
    match load
    case PathRefused(message) => EvidenceInput(name, INVALID, redact(message))
    case NotThere => EvidenceInput(name, MISSING, "not present")
    case Unreadable(message) => EvidenceInput(name, INVALID, redact(message))
    case There(_) => EvidenceInput(name, LOADED, "validated and consumed")
  }

  function Joined(parts: seq<string>): string {
    if parts == [] then "" else if |parts| == 1 then parts[0] else parts[0] + "; " + Joined(parts[1..])
  }

  /** `load_optional_evidence` with `load_fastboot_evidence`. */
  function FastbootLoad(file: BootloaderGuide.FastbootFile): (load: Load<map<string, string>>)
    ensures Consumed(load) == BootloaderGuide.PacketView(file)
  {
    match file
    case PathRefused(message) => PathRefused(message)
    case NotThere => NotThere
    case There(section) =>
      if !section.ok then Unreadable(Joined(section.blockers))
      else if section.evidence.None? then Unreadable("fastboot evidence did not include accepted evidence")
      else There(section.evidence.value)
  }

  /** One call. `accepted` says that the validation directory is accepted. */
  datatype Request = Request(
    accepted: bool,
    probe: Rom0Packet.Probe,
    unlock: Load<UnlockEvidence.Evidence>,
    stock: Load<map<string, string>>,
    gsi: Load<map<string, string>>,
    dsu: Load<map<string, string>>,
    fastboot: BootloaderGuide.FastbootFile)

  /** Redaction and the three checks for forbidden commands in rendered text. */
  datatype Library = Library(
    packet: Rom0Packet.Library,
    redact: string -> string,
    badPacket: Rom0Packet.Packet -> bool,
    badGuide: BootloaderGuide.Guide -> bool,
    badChecklist: Checklists.Checklist -> bool)
  {
    ghost predicate NothingForbidden() {
      (forall p :: !badPacket(p)) && (forall g :: !badGuide(g)) && forall c :: !badChecklist(c)
    }
  }

  function PacketInputs(request: Request): Rom0Packet.Inputs {
    Rom0Packet.Inputs(Consumed(request.unlock), Consumed(request.stock), Consumed(request.gsi),
                      Consumed(request.dsu), BootloaderGuide.PacketView(request.fastboot))
  }

  function PacketOf(lib: Library, request: Request): Rom0Packet.Packet {
    Rom0Packet.BuildPacket(lib.packet, request.probe, PacketInputs(request))
  }

  /** The evidence is complete for the review. */
  predicate Ready(lib: Library, request: Request) {
    Rom0Packet.AllReady(lib.packet, request.probe, PacketInputs(request))
  }

  function BaseInputs(lib: Library, request: Request, guide: EvidenceInput): seq<EvidenceInput> {
    [InputOf(lib.redact, UnlockEligibility, request.unlock), InputOf(lib.redact, StockRestore, request.stock),
     InputOf(lib.redact, GsiCandidate, request.gsi), InputOf(lib.redact, DsuPreflight, request.dsu),
     InputOf(lib.redact, FastbootEvidence, FastbootLoad(request.fastboot)), guide]
  }

  function InvalidInputs(inputs: seq<EvidenceInput>): (r: seq<RefreshError>)
    ensures r == [] <==> forall i :: 0 <= i < |inputs| ==> inputs[i].status != INVALID
    decreases |inputs|
  {
    if inputs == [] then []
    else
      var n := |inputs| - 1;
      InvalidInputs(inputs[..n])
      + if inputs[n].status == INVALID then [InvalidInput(inputs[n].name, inputs[n].detail)] else []
  }

  function BaseErrors(request: Request, inputs: seq<EvidenceInput>): seq<RefreshError> {
    InvalidInputs(inputs) + if request.probe.device == map[] then [NoDevice] else []
  }

  /** The report the checklist is built from. */
  function Pending(lib: Library, request: Request, guide: EvidenceInput, now: int): Report {
    var inputs := BaseInputs(lib, request, guide);
    Build(PacketOf(lib, request), inputs, BaseErrors(request, inputs), "PENDING", now)
  }

  /** The guide's entry in the report, for the file the packet was built from. */
  ghost predicate GuideEntry(lib: Library, request: Request, guide: EvidenceInput) {
    && guide.name == BootloaderVisibilityGuide && guide.status != MISSING
    && (guide.status == LOADED ==>
          && BootloaderGuide.BuildGuide(lib.redact, request.fastboot).Ok?
          && guide.detail == GENERATED
             + BootloaderGuide.Spelled(BootloaderGuide.BuildGuide(lib.redact, request.fastboot).value.status))
  }

  // -------------------------------------------- inputs with different names

  predicate DistinctNames(inputs: seq<EvidenceInput>) {
    forall i, j :: 0 <= i < j < |inputs| ==> inputs[i].name != inputs[j].name
  }

  /** The report's first-entry lookup and the checklist's last-entry dictionary agree. */
  lemma {:induction false} LookupsAgree(inputs: seq<EvidenceInput>, i: nat)
    requires DistinctNames(inputs) && i < |inputs|
    ensures Find(inputs, inputs[i].name) == Some(inputs[i])
    ensures inputs[i].name in Checklists.StatusMap(inputs)
    ensures Checklists.StatusMap(inputs)[inputs[i].name] == inputs[i].status
  {
    FindsIt(inputs, i);
    MapsIt(inputs, i);
  }

  lemma {:induction false} FindsIt(inputs: seq<EvidenceInput>, i: nat)
    requires DistinctNames(inputs) && i < |inputs|
    ensures Find(inputs, inputs[i].name) == Some(inputs[i])
    decreases |inputs|
  {
    if i > 0 {
      FindsIt(inputs[1..], i - 1);
    }
  }

  lemma {:induction false} MapsIt(inputs: seq<EvidenceInput>, i: nat)
    requires DistinctNames(inputs) && i < |inputs|
    ensures inputs[i].name in Checklists.StatusMap(inputs)
    ensures Checklists.StatusMap(inputs)[inputs[i].name] == inputs[i].status
    decreases |inputs|
  {
    if i < |inputs| - 1 {
      MapsIt(inputs[..|inputs| - 1], i);
    }
  }

  lemma {:induction false} FindInPrefix(inputs: seq<EvidenceInput>, last: EvidenceInput, name: InputName)
    requires last.name != name
    ensures Find(inputs + [last], name) == Find(inputs, name)
    decreases |inputs|
  {
    if inputs != [] {
      assert (inputs + [last])[1..] == inputs[1..] + [last];
      FindInPrefix(inputs[1..], last, name);
    } else {
      assert inputs + [last] == [last];
    }
  }

  // --------------------------------------------------------- the agreement

  lemma BaseInputsAreDistinct(lib: Library, request: Request, guide: EvidenceInput)
    requires guide.name == BootloaderVisibilityGuide
    ensures DistinctNames(BaseInputs(lib, request, guide))
  {
  }

  lemma ReadyIsLoaded(lib: Library, request: Request)
    requires Ready(lib, request)
    ensures request.unlock.There? && request.stock.There? && request.gsi.There? && request.dsu.There?
    ensures FastbootLoad(request.fastboot).There? && request.probe.device != map[]
  {
    hide Rom0Packet.ShowsDevice, UnlockEvidence.Current;
    assert Rom0Packet.ReadyProbe(request.probe) && "" != UnlockEvidence.CODENAME;
  }

  /** The five consumed inputs and the guide, all loaded. */
  predicate AllLoaded(request: Request, guide: EvidenceInput) {
    && request.unlock.There? && request.stock.There? && request.gsi.There? && request.dsu.There?
    && FastbootLoad(request.fastboot).There? && guide.status == LOADED
  }

  lemma LoadedInputs(lib: Library, request: Request, guide: EvidenceInput)
    ensures AllLoaded(request, guide) <==>
            forall i :: 0 <= i < 6 ==> BaseInputs(lib, request, guide)[i].status == LOADED
  {
    var inputs := BaseInputs(lib, request, guide);
    assert inputs[0].status == LOADED <==> request.unlock.There?;
    assert inputs[1].status == LOADED <==> request.stock.There?;
    assert inputs[2].status == LOADED <==> request.gsi.There?;
    assert inputs[3].status == LOADED <==> request.dsu.There?;
    assert inputs[4].status == LOADED <==> FastbootLoad(request.fastboot).There?;
    assert inputs[5].status == LOADED <==> guide.status == LOADED;
  }

  lemma NoErrorsWhenLoaded(lib: Library, request: Request, guide: EvidenceInput)
    requires AllLoaded(request, guide) && request.probe.device != map[]
    ensures BaseErrors(request, BaseInputs(lib, request, guide)) == []
  {
    hide AllLoaded, FastbootLoad;
    LoadedInputs(lib, request, guide);
    hide InputOf;
  }

  lemma DsuStatus(lib: Library, request: Request, guide: EvidenceInput)
    requires guide.name == BootloaderVisibilityGuide
    ensures StatusOf(BaseInputs(lib, request, guide), DsuPreflight) == LOADED <==> request.dsu.There?
  {
    hide FastbootLoad;
    BaseInputsAreDistinct(lib, request, guide);
    hide DistinctNames;
    LookupsAgree(BaseInputs(lib, request, guide), 3);
  }

  lemma GuideErrorCounts(lib: Library, request: Request, guide: EvidenceInput)
    requires guide.status == INVALID
    ensures BaseErrors(request, BaseInputs(lib, request, guide)) != []
  {
    hide FastbootLoad, InputOf;
    assert BaseInputs(lib, request, guide)[5] == guide;
  }

  /** A pending report is ready exactly when the evidence is complete and the guide was written. */
  lemma PendingReadyIff(lib: Library, request: Request, guide: EvidenceInput, now: int)
    requires GuideEntry(lib, request, guide)
    ensures Pending(lib, request, guide, now).romReady <==> Ready(lib, request) && guide.status == LOADED
  {
    hide Rom0Packet.BuildPacket, Rom0Packet.AllReady, BaseInputs, BaseErrors, FastbootLoad;
    Rom0Packet.PacketAgrees(lib.packet, request.probe, PacketInputs(request));
    DsuStatus(lib, request, guide);
    if Ready(lib, request) {
      ReadyIsLoaded(lib, request);
    }
    if guide.status != LOADED {
      GuideErrorCounts(lib, request, guide);
    } else if Ready(lib, request) {
      NoErrorsWhenLoaded(lib, request, guide);
    }
  }

  lemma ReadyGuideIsVisible(lib: Library, request: Request, guide: EvidenceInput)
    requires GuideEntry(lib, request, guide) && guide.status == LOADED && Ready(lib, request)
    ensures BootloaderStatus(BaseInputs(lib, request, guide)) == Rom0Packet.VISIBLE
  {
    hide FastbootLoad, InputOf, BootloaderGuide.BuildGuide, Rom0Packet.ShowsDevice, StatusFromInput;
    BootloaderGuide.PacketAndGuideAgree(lib.packet, lib.redact, request.fastboot);
    BaseInputsAreDistinct(lib, request, guide);
    LookupsAgree(BaseInputs(lib, request, guide), 5);
    GeneratedReadsBack(BootloaderVisibilityGuide, Rom0Packet.VISIBLE);
  }

  lemma LoadedReadiness(lib: Library, request: Request, guide: EvidenceInput)
    requires guide.name == BootloaderVisibilityGuide && AllLoaded(request, guide)
    ensures var statuses := Checklists.StatusMap(BaseInputs(lib, request, guide));
      && (forall name <- statuses :: statuses[name] == LOADED)
      && Checklists.IsLoaded(statuses, StockRestore) && Checklists.IsLoaded(statuses, UnlockEligibility)
      && Checklists.IsLoaded(statuses, GsiCandidate) && Checklists.IsLoaded(statuses, DsuPreflight)
      && Checklists.IsLoaded(statuses, FastbootEvidence)
  {
    var inputs := BaseInputs(lib, request, guide);
    BaseInputsAreDistinct(lib, request, guide);
    LoadedInputs(lib, request, guide);
    hide FastbootLoad, AllLoaded, Checklists.StatusMap;
    Checklists.LoadedStatuses(inputs);
    forall i: nat | i < 6
      ensures Checklists.IsLoaded(Checklists.StatusMap(inputs), inputs[i].name)
    {
      MapsIt(inputs, i);
    }
    assert inputs[0].name == UnlockEligibility && inputs[1].name == StockRestore && inputs[2].name == GsiCandidate;
    assert inputs[3].name == DsuPreflight && inputs[4].name == FastbootEvidence;
  }

  lemma ReadyReport(lib: Library, request: Request, guide: EvidenceInput, now: int)
    requires GuideEntry(lib, request, guide) && Pending(lib, request, guide, now).romReady
    ensures var report := Pending(lib, request, guide, now);
      && AllLoaded(request, guide) && report.refreshSucceeded && report.blockedBy == []
      && report.inputs == BaseInputs(lib, request, guide) && report.bootloaderStatus == Rom0Packet.VISIBLE
  {
    PendingReadyIff(lib, request, guide, now);
    ReadyIsLoaded(lib, request);
    ReadyGuideIsVisible(lib, request, guide);
    hide Rom0Packet.BuildPacket, Rom0Packet.AllReady, BaseInputs, BaseErrors, FastbootLoad, BootloaderStatus;
    Rom0Packet.PacketAgrees(lib.packet, request.probe, PacketInputs(request));
    DsuStatus(lib, request, guide);
  }

  /** The checklist built from the pending report is ok exactly when that report is ready,
      although it looks at statuses, one blocker text and the guide's status text instead. */
  lemma ChecklistConfirmsReport(lib: Library, request: Request, guide: EvidenceInput, now: int)
    requires GuideEntry(lib, request, guide)
    ensures Checklists.Confirms(Pending(lib, request, guide, now)) <==> Pending(lib, request, guide, now).romReady
  {
    hide Pending, Checklists.StatusMap, BaseInputs, AllLoaded;
    if Pending(lib, request, guide, now).romReady {
      ReadyReport(lib, request, guide, now);
      LoadedReadiness(lib, request, guide);
    }
  }

  // ------------------------------------------------------------ step order

  /** What `validate_fastboot_evidence` promises: an accepted file has evidence. */
  predicate ValidatorGivesEvidence(file: BootloaderGuide.FastbootFile) {
    file.There? && file.section.ok ==> file.section.evidence.Some?
  }

  /** What the checklist reads off a pending report, in terms of the request. */
  lemma PendingReadiness(lib: Library, request: Request, guide: EvidenceInput, now: int)
    requires guide.name == BootloaderVisibilityGuide
    ensures var r := Checklists.ReadinessOf(Pending(lib, request, guide, now));
      && (r.refreshed <==> BaseErrors(request, BaseInputs(lib, request, guide)) == [])
      && (r.stock <==> request.stock.There?) && (r.gsi <==> request.gsi.There?)
      && (r.unlock ==> request.unlock.There?) && (r.dsu <==> request.dsu.There?)
      && (r.fastboot <==> FastbootLoad(request.fastboot).There?)
      && r.bootloader == StatusFromInput(guide)
      && (r.romReady <==> Pending(lib, request, guide, now).romReady)
  {
    var inputs := BaseInputs(lib, request, guide);
    InputStatuses(lib, request, guide);
    BaseInputsAreDistinct(lib, request, guide);
    FindsIt(inputs, 5);
    hide FastbootLoad, InputOf, BaseErrors, Checklists.StatusMap, PacketOf, BlockedBy, StatusOf, StatusFromInput, Find;
    MapsIt(inputs, 0);
    MapsIt(inputs, 1);
    MapsIt(inputs, 2);
    MapsIt(inputs, 3);
    MapsIt(inputs, 4);
  }

  lemma InputStatuses(lib: Library, request: Request, guide: EvidenceInput)
    ensures var inputs := BaseInputs(lib, request, guide);
      && inputs[0].name == UnlockEligibility && (inputs[0].status == LOADED <==> request.unlock.There?)
      && inputs[1].name == StockRestore && (inputs[1].status == LOADED <==> request.stock.There?)
      && inputs[2].name == GsiCandidate && (inputs[2].status == LOADED <==> request.gsi.There?)
      && inputs[3].name == DsuPreflight && (inputs[3].status == LOADED <==> request.dsu.There?)
      && inputs[4].name == FastbootEvidence
      && (inputs[4].status == LOADED <==> FastbootLoad(request.fastboot).There?)
  {
    hide FastbootLoad;
  }

  /** In a refresh the manual check never comes before host fastboot evidence: the guide asks
      for it only when the packet has the evidence too. */
  lemma ManualCheckHasEvidence(lib: Library, request: Request, guide: EvidenceInput, now: int)
    requires GuideEntry(lib, request, guide) && ValidatorGivesEvidence(request.fastboot)
    requires Checklists.AwaitsManualCheck(Checklists.ReadinessOf(Pending(lib, request, guide, now)))
    ensures Checklists.ReadinessOf(Pending(lib, request, guide, now)).fastboot
  {
    PendingReadiness(lib, request, guide, now);
    AwaitedGuide(lib, request, guide);
    hide Pending;
  }

  lemma AwaitedGuide(lib: Library, request: Request, guide: EvidenceInput)
    requires GuideEntry(lib, request, guide) && ValidatorGivesEvidence(request.fastboot)
    requires StatusFromInput(guide) == BootloaderGuide.Spelled(BootloaderGuide.ReadyForManualCheck)
    ensures FastbootLoad(request.fastboot).There?
  {
    InvalidIsNotAwaited();
    if guide.status == LOADED {
      var built := BootloaderGuide.BuildGuide(lib.redact, request.fastboot).value;
      GeneratedReadsBack(BootloaderVisibilityGuide, BootloaderGuide.Spelled(built.status));
      BootloaderGuide.SpellingsDiffer(built.status, BootloaderGuide.ReadyForManualCheck);
      hide BootloaderGuide.Spelled, StatusFromInput;
      assert built.status == BootloaderGuide.ReadyForManualCheck;
    }
  }

  lemma InvalidIsNotAwaited()
    ensures StatusText(INVALID) != BootloaderGuide.Spelled(BootloaderGuide.ReadyForManualCheck)
  {
    assert StatusText(INVALID)[0] == 'I' && BootloaderGuide.Spelled(BootloaderGuide.ReadyForManualCheck)[0] == 'R';
  }

  /** When exactly the checklist of a refresh shows its steps in order: not while stock restore
      is missing and a step after it is asked for, and never when the refresh is ready. */
  lemma PendingInOrderIff(lib: Library, request: Request, guide: EvidenceInput, now: int)
    requires GuideEntry(lib, request, guide) && ValidatorGivesEvidence(request.fastboot)
    ensures var r := Checklists.ReadinessOf(Pending(lib, request, guide, now));
      (forall id :: Checklists.StepInOrder(r, id)) <==>
        && !(r.refreshed && !request.stock.There? && (!r.unlock || !request.gsi.There?))
        && !Pending(lib, request, guide, now).romReady
  {
    var r := Checklists.ReadinessOf(Pending(lib, request, guide, now));
    PendingReadiness(lib, request, guide, now);
    Checklists.InOrderIff(r);
    if Checklists.AwaitsManualCheck(r) {
      ManualCheckHasEvidence(lib, request, guide, now);
    }
    hide Pending, Checklists.ReadinessOf, Checklists.AwaitsManualCheck, Checklists.StepInOrder;
  }

  // ------------------------------------------------------- final reports

  /** The report once the checklist's own entry is known. */
  function Final(lib: Library, request: Request, guide: EvidenceInput, checklist: EvidenceInput, now: int): Report {
    var inputs := BaseInputs(lib, request, guide);
    Build(PacketOf(lib, request), inputs + [checklist],
          BaseErrors(request, inputs)
          + if checklist.status == INVALID then [InvalidInput(checklist.name, checklist.detail)] else [],
          StatusFromInput(checklist), now)
  }

  lemma {:induction false} FindLast(inputs: seq<EvidenceInput>, last: EvidenceInput)
    requires forall input <- inputs :: input.name != last.name
    ensures Find(inputs + [last], last.name) == Some(last)
    decreases |inputs|
  {
    if inputs != [] {
      assert (inputs + [last])[1..] == inputs[1..] + [last];
      FindLast(inputs[1..], last);
    } else {
      assert inputs + [last] == [last];
    }
  }

  lemma FinalAgrees(lib: Library, request: Request, guide: EvidenceInput, checklist: EvidenceInput, now: int,
                    earlier: int)
    requires GuideEntry(lib, request, guide) && checklist.name == OperatorChecklist
    ensures var report := Final(lib, request, guide, checklist, now);
      && StatusOf(report.inputs, OperatorChecklist) == checklist.status
      && (checklist.status == INVALID ==> !report.romReady)
      && (checklist.status == LOADED ==> (report.romReady <==> Pending(lib, request, guide, earlier).romReady))
  {
    hide BaseInputs, BaseErrors, PacketOf, BootloaderStatus, StatusFromInput, BlockedBy, Find;
    var inputs := BaseInputs(lib, request, guide);
    NoChecklistInBase(lib, request, guide);
    FindLast(inputs, checklist);
    FindInPrefix(inputs, checklist, DsuPreflight);
  }

  lemma MapExtends(inputs: seq<EvidenceInput>, last: EvidenceInput)
    ensures Checklists.StatusMap(inputs + [last]) == Checklists.StatusMap(inputs)[last.name := last.status]
  {
    assert (inputs + [last])[..|inputs|] == inputs;
  }

  /** The checklist's own entry does not change what the checklist reads off the report. */
  lemma FinalReadsTheSame(lib: Library, request: Request, guide: EvidenceInput, checklist: EvidenceInput, now: int,
                          earlier: int)
    requires GuideEntry(lib, request, guide) && checklist.name == OperatorChecklist && checklist.status == LOADED
    ensures Checklists.ReadinessOf(Final(lib, request, guide, checklist, now))
         == Checklists.ReadinessOf(Pending(lib, request, guide, earlier))
  {
    FinalAgrees(lib, request, guide, checklist, now, earlier);
    FinalFields(lib, request, guide, checklist, now, earlier);
    hide Final, Pending;
    SameReadiness(Final(lib, request, guide, checklist, now), Pending(lib, request, guide, earlier));
  }

  lemma FinalFields(lib: Library, request: Request, guide: EvidenceInput, checklist: EvidenceInput, now: int,
                    earlier: int)
    requires checklist.name == OperatorChecklist && checklist.status == LOADED
    ensures var after := Final(lib, request, guide, checklist, now);
      && var before := Pending(lib, request, guide, earlier);
      && after.refreshSucceeded == before.refreshSucceeded && after.blockedBy == before.blockedBy
      && after.bootloaderStatus == before.bootloaderStatus
      && Checklists.StatusMap(after.inputs) == Checklists.StatusMap(before.inputs)[OperatorChecklist := LOADED]
  {
    hide BaseInputs, BaseErrors, PacketOf, StatusFromInput, BlockedBy, Find, Checklists.StatusMap;
    var inputs := BaseInputs(lib, request, guide);
    FindInPrefix(inputs, checklist, DsuPreflight);
    FindInPrefix(inputs, checklist, BootloaderVisibilityGuide);
    MapExtends(inputs, checklist);
  }

  lemma SameReadiness(a: Report, b: Report)
    requires a.refreshSucceeded == b.refreshSucceeded && a.romReady == b.romReady
    requires a.blockedBy == b.blockedBy && a.bootloaderStatus == b.bootloaderStatus
    requires Checklists.StatusMap(a.inputs) == Checklists.StatusMap(b.inputs)[OperatorChecklist := LOADED]
    ensures Checklists.ReadinessOf(a) == Checklists.ReadinessOf(b)
  {
    hide Checklists.StatusMap;
  }

  lemma NoChecklistInBase(lib: Library, request: Request, guide: EvidenceInput)
    requires guide.name == BootloaderVisibilityGuide
    ensures forall input <- BaseInputs(lib, request, guide) :: input.name != OperatorChecklist
  {
    hide FastbootLoad;
  }

  lemma OnlyTimeDiffers(lib: Library, request: Request, guide: EvidenceInput, checklist: EvidenceInput, a: int, b: int)
    ensures SameReport(Final(lib, request, guide, checklist, a), Final(lib, request, guide, checklist, b))
    ensures Final(lib, request, guide, checklist, a).generatedAt == a
    ensures Pending(lib, request, guide, a).generatedAt == a
  {
    hide BaseInputs, BaseErrors, PacketOf, BootloaderStatus, StatusFromInput, BlockedBy, StatusOf;
  }

  // ------------------------------------------------------------- the files

  datatype Key =
    | ProbeJson
    | PacketMarkdown
    | PacketJson
    | GuideJson
    | GuideMarkdown
    | ReportJson
    | ChecklistJson
    | ChecklistMarkdown

  /** A file of the validation directory: a symbolic link, what a failed write leaves, or a text. */
  datatype Entry =
    | Link
    | Garbled
    | ReportText(report: Report)
    | ChecklistText(checklist: Checklists.Checklist)
    | ChecklistMarkdownText(checklist: Checklists.Checklist)
    | OtherText

  type Files = map<Key, Entry>

  predicate SameReport(a: Report, b: Report) { a.(generatedAt := b.generatedAt) == b }

  predicate NotPublished(files: Files) { ChecklistJson !in files && ChecklistMarkdown !in files }

  /** Both files hold one checklist, with the verdict and the steps of the report. */
  predicate Published(files: Files, report: Report) {
    && ChecklistJson in files && files[ChecklistJson].ChecklistText?
    && ChecklistMarkdown in files
    && files[ChecklistMarkdown] == ChecklistMarkdownText(files[ChecklistJson].checklist)
    && files[ChecklistJson].checklist.ok == report.romReady
    && files[ChecklistJson].checklist.steps == Checklists.Steps(Checklists.ReadinessOf(report))
  }

  predicate ListsChecklist(report: Report) { StatusOf(report.inputs, OperatorChecklist) == LOADED }

  /** The disk says what the report says: the saved report is the same but for its time, and both
      checklist files are there, with the report's verdict and steps, exactly when the report lists them. */
  predicate Tells(files: Files, report: Report) {
    && ReportJson in files && files[ReportJson].ReportText? && SameReport(files[ReportJson].report, report)
    && if ListsChecklist(report) then Published(files, report) else NotPublished(files)
  }

  /** No checklist is on disk, or both files are and agree with the saved report. */
  predicate Consistent(files: Files) {
    || NotPublished(files)
    || (ReportJson in files && files[ReportJson].ReportText? && Tells(files, files[ReportJson].report))
  }

  /** The saved report and the checklist files are as before. */
  predicate SameStory(before: Files, after: Files) {
    && SameAt(before, after, ReportJson)
    && SameAt(before, after, ChecklistJson) && SameAt(before, after, ChecklistMarkdown)
  }

  predicate TellsStory(key: Key) { key.ReportJson? || key.ChecklistJson? || key.ChecklistMarkdown? }

  predicate SameAt(before: Files, after: Files, key: Key) {
    (key in after <==> key in before) && (key in after ==> after[key] == before[key])
  }

  /** The report is built from this request, with some guide and checklist entry. */
  ghost predicate Derived(lib: Library, request: Request, report: Report) {
    exists guide, checklist, now ::
      && report == Final(lib, request, guide, checklist, now)
      && GuideEntry(lib, request, guide) && checklist.name == OperatorChecklist && checklist.status != MISSING
  }

  predicate Written(files: Files, key: Key) { key in files && files[key] == OtherText }

  /** What every refresh that returns has written beside its report. */
  predicate PacketWritten(files: Files) {
    Written(files, ProbeJson) && Written(files, PacketJson) && Written(files, PacketMarkdown)
  }

  predicate IsPacketFile(key: Key) { key.ProbeJson? || key.PacketJson? || key.PacketMarkdown? }

  /** The files of the probe and the packet are as before. */
  predicate SamePacket(before: Files, after: Files) { forall key :: IsPacketFile(key) ==> SameAt(before, after, key) }

  lemma StaysWritten(before: Files, after: Files)
    requires PacketWritten(before) && SamePacket(before, after)
    ensures PacketWritten(after)
  {
    assert IsPacketFile(ProbeJson) && IsPacketFile(PacketJson) && IsPacketFile(PacketMarkdown);
    assert SameAt(before, after, ProbeJson) && SameAt(before, after, PacketJson);
    assert SameAt(before, after, PacketMarkdown);
  }

  lemma OthersTellTheSame(before: Files, after: Files, first: Key, second: Key)
    requires !TellsStory(first) && !TellsStory(second)
    requires forall key :: key != first && key != second ==> SameAt(before, after, key)
    ensures SameStory(before, after)
  {
    assert TellsStory(ReportJson) && TellsStory(ChecklistJson) && TellsStory(ChecklistMarkdown);
    hide SameAt;
  }

  /** Nothing but this file differs. */
  predicate OnlyAt(before: Files, after: Files, key: Key) {
    forall other :: other != key ==> SameAt(before, after, other)
  }

  lemma NothingElse(files: Files, key: Key)
    ensures OnlyAt(files, files, key)
  {
  }

  lemma BothAt(before: Files, one: Files, after: Files, first: Key, second: Key)
    requires OnlyAt(before, one, first) && OnlyAt(one, after, second)
    ensures forall key :: key != first && key != second ==> SameAt(before, after, key)
  {
    forall key | key != first && key != second ensures SameAt(before, after, key) {
      assert SameAt(before, one, key) && SameAt(one, after, key);
    }
  }

  lemma OnlyReport(before: Files, entry: Entry)
    ensures SamePacket(before, (before - {ChecklistJson, ChecklistMarkdown})[ReportJson := entry])
  {
  }

  lemma IsDerived(lib: Library, request: Request, guide: EvidenceInput, checklist: EvidenceInput, now: int)
    requires GuideEntry(lib, request, guide) && checklist.name == OperatorChecklist && checklist.status != MISSING
    ensures Derived(lib, request, Final(lib, request, guide, checklist, now))
  {
    hide Final, GuideEntry;
  }

  datatype Write = Done | OsError(message: string) | PathError(message: string)

  datatype Outcome = Raised | Returned(report: Report)

  function SpelledVerdict(checklist: Checklists.Checklist): string {
    if checklist.ok then "READY_FOR_ROM0_READINESS_REVIEW" else "BLOCKED_EVIDENCE"
  }

  /** A report that lists the checklist says its verdict in words. */
  predicate SpellsVerdict(report: Report) {
    ListsChecklist(report) ==>
      report.checklistStatus == if report.romReady then "READY_FOR_ROM0_READINESS_REVIEW" else "BLOCKED_EVIDENCE"
  }

  lemma VerdictIsSpelled(lib: Library, request: Request, guide: EvidenceInput, artifact: EvidenceInput, now: int,
                         checklist: Checklists.Checklist, pending: Report)
    requires GuideEntry(lib, request, guide) && artifact.name == OperatorChecklist && artifact.status == LOADED
    requires artifact.detail == GENERATED + SpelledVerdict(checklist)
    requires pending == Pending(lib, request, guide, pending.generatedAt) && checklist.ok == pending.romReady
    ensures SpellsVerdict(Final(lib, request, guide, artifact, now))
  {
    FinalAgrees(lib, request, guide, artifact, now, pending.generatedAt);
    GeneratedReadsBack(OperatorChecklist, SpelledVerdict(checklist));
    hide Pending, GuideEntry, BaseInputs, BaseErrors, PacketOf, StatusFromInput, StatusOf, BootloaderStatus, BlockedBy;
  }

  /** An invalid checklist is not listed. */
  lemma InvalidIsNotListed(lib: Library, request: Request, guide: EvidenceInput, artifact: EvidenceInput, now: int)
    requires GuideEntry(lib, request, guide) && artifact.name == OperatorChecklist && artifact.status == INVALID
    ensures SpellsVerdict(Final(lib, request, guide, artifact, now))
  {
    FinalAgrees(lib, request, guide, artifact, now, now);
    hide Final, GuideEntry, StatusOf;
  }

  ghost predicate SavedAs(lib: Library, request: Request, guide: EvidenceInput, checklist: EvidenceInput,
                          saved: Report)
  {
    saved == Final(lib, request, guide, checklist, saved.generatedAt)
  }

  lemma TellingIsConsistent(files: Files, report: Report)
    requires Tells(files, report)
    ensures Consistent(files)
  {
    hide Checklists.Steps, StatusOf, Checklists.StatusMap;
  }

  lemma SameStorySameConsistency(before: Files, after: Files)
    requires SameStory(before, after)
    ensures Consistent(before) ==> Consistent(after)
  {
  }

  lemma ReadyBuildsGuide(lib: Library, request: Request)
    ensures Ready(lib, request) ==> BootloaderGuide.BuildGuide(lib.redact, request.fastboot).Ok?
  {
    BootloaderGuide.PacketAndGuideAgree(lib.packet, lib.redact, request.fastboot);
  }

  class Workspace {
    var files: Files
    /** Some directory above the validation directory is a link. */
    const linkAbove: bool
    /** Some write was refused. */
    ghost var refused: bool

    /** `write_validation_file`. */
    method WriteFile(key: Key, entry: Entry) returns (write: Write)
      modifies this
      ensures old(refused) ==> refused
      ensures write.Done? ==> files == old(files)[key := entry] && !linkAbove
      ensures write.OsError? ==> files == old(files) || files == old(files)[key := Garbled]
      ensures write.PathError? ==> files == old(files)
      ensures OnlyAt(old(files), files, key)
      ensures write.PathError? <==> linkAbove || (key in old(files) && old(files)[key] == Link)
      ensures !write.Done? ==> refused
    {
      var message: string := *;
      if linkAbove || (key in files && files[key] == Link) {
        refused := true;
        return PathError(message);
      }
      var fails: bool, reached: bool := *, *;
      if fails {
        if reached {
          files := files[key := Garbled];
        }
        refused := true;
        return OsError(message);
      }
      files := files[key := entry];
      return Done;
    }

    /** `remove_operator_checklist_outputs`. */
    method RemoveChecklist()
      modifies this`files
      ensures files == old(files) - {ChecklistJson, ChecklistMarkdown}
    {
      files := files - {ChecklistJson};
      files := files - {ChecklistMarkdown};
    }

    /** Two texts that are not part of the published story, one after the other. */
    method WriteBoth(first: Key, second: Key) returns (ok: bool)
      requires !TellsStory(first) && !TellsStory(second) && first != second
      modifies this
      ensures old(refused) ==> refused
      ensures SameStory(old(files), files)
      ensures !ok ==> refused
      ensures ok ==> !linkAbove && Written(files, first) && Written(files, second)
      ensures forall key :: key != first && key != second ==> SameAt(old(files), files, key)
    {
      hide SameStory, TellsStory, SameAt, OnlyAt;
      var write := WriteFile(first, OtherText);
      ghost var one := files;
      NothingElse(files, second);
      if write.Done? {
        write := WriteFile(second, OtherText);
      }
      BothAt(old(files), one, files, first, second);
      OthersTellTheSame(old(files), files, first, second);
      return write.Done?;
    }

    /** `generate_bootloader_visibility_guide`. */
    method GenerateGuide(lib: Library, request: Request) returns (input: EvidenceInput)
      modifies this
      ensures old(refused) ==> refused
      ensures SameStory(old(files), files)
      ensures GuideEntry(lib, request, input)
      ensures input.status == LOADED ==> Written(files, GuideJson) && Written(files, GuideMarkdown)
      ensures SamePacket(old(files), files)
      ensures lib.NothingForbidden() && !refused && Ready(lib, request) ==> input.status == LOADED
    {
      hide Ready, BootloaderGuide.BuildGuide, BootloaderGuide.Spelled;
      var message: string := *;
      input := EvidenceInput(BootloaderVisibilityGuide, INVALID, lib.redact(message));
      var built := BootloaderGuide.BuildGuide(lib.redact, request.fastboot);
      ReadyBuildsGuide(lib, request);
      if built.ValueError? || lib.badGuide(built.value) {
        return;
      }
      var written := WriteBoth(GuideJson, GuideMarkdown);
      if !written {
        return;
      }
      input := EvidenceInput(BootloaderVisibilityGuide, LOADED,
                             GENERATED + BootloaderGuide.Spelled(built.value.status));
    }

    /** The first part of the refresh, up to the packet files; `None` when it raises. */
    method Prepare(lib: Library, request: Request) returns (guide: Option<EvidenceInput>)
      modifies this
      ensures old(refused) ==> refused
      ensures SameStory(old(files), files)
      ensures guide.Some? ==> GuideEntry(lib, request, guide.value) && !linkAbove && PacketWritten(files)
      ensures guide.Some? && guide.value.status == LOADED ==> Written(files, GuideJson) && Written(files, GuideMarkdown)
      ensures guide.Some? && lib.NothingForbidden() && !refused && Ready(lib, request) ==> guide.value.status == LOADED
      ensures guide.None? && lib.NothingForbidden() && request.accepted ==> refused
    {
      hide GuideEntry, Ready, PacketOf;
      if !request.accepted {
        return None;
      }
      var write := WriteFile(ProbeJson, OtherText);
      if !write.Done? {
        return None;
      }
      var entry := GenerateGuide(lib, request);
      if lib.badPacket(PacketOf(lib, request)) {
        return None;
      }
      ghost var guided := files;
      assert IsPacketFile(ProbeJson);
      var written := WriteBoth(PacketMarkdown, PacketJson);
      assert SameAt(guided, files, ProbeJson);
      assert SameAt(guided, files, GuideJson) && SameAt(guided, files, GuideMarkdown);
      return if written then Some(entry) else None;
    }

    /** `write_operator_checklist_outputs`. */
    method WriteChecklist(lib: Library, request: Request, guide: EvidenceInput, artifact: EvidenceInput,
                          checklist: Checklists.Checklist, ghost pending: Report)
      returns (outcome: Outcome)
      requires NotPublished(files) && !linkAbove && GuideEntry(lib, request, guide)
      requires artifact.name == OperatorChecklist && artifact.status == LOADED
      requires artifact.detail == GENERATED + SpelledVerdict(checklist)
      requires pending == Pending(lib, request, guide, pending.generatedAt) && checklist.ok == pending.romReady
      requires checklist.steps == Checklists.Steps(Checklists.ReadinessOf(pending))
      requires ReportJson in files && files[ReportJson].ReportText?
      requires SavedAs(lib, request, guide, artifact, files[ReportJson].report)
      modifies this
      ensures old(refused) ==> refused
      ensures outcome.Raised? ==> NotPublished(files) && refused
      ensures outcome.Returned? ==> Tells(files, outcome.report) && Derived(lib, request, outcome.report)
      ensures outcome.Returned? && outcome.report.romReady ==> pending.romReady && ListsChecklist(outcome.report)
      ensures outcome.Returned? ==> SpellsVerdict(outcome.report)
      ensures SamePacket(old(files), files)
      ensures !refused ==> outcome.Returned? && outcome.report.romReady == pending.romReady
    {
      hide Final, GuideEntry, Pending, Checklists.Steps, Checklists.ReadinessOf, SpellsVerdict, SpelledVerdict, Derived;
      hide OnlyAt, StatusOf, Checklists.StatusMap;
      var now: int := *;
      var write := WriteFile(ChecklistJson, ChecklistText(checklist));
      if write.Done? {
        write := WriteFile(ChecklistMarkdown, ChecklistMarkdownText(checklist));
      }
      if write.PathError? {
        assert false;
      }
      if write.OsError? {
        RemoveChecklist();
        var failed := EvidenceInput(OperatorChecklist, INVALID, lib.redact(write.message));
        var report := Final(lib, request, guide, failed, now);
        FinalAgrees(lib, request, guide, failed, now, now);
        InvalidIsNotListed(lib, request, guide, failed, now);
        IsDerived(lib, request, guide, failed, now);
        var saved := WriteFile(ReportJson, ReportText(report));
        return if saved.Done? then Returned(report) else Raised;
      }
      var report := Final(lib, request, guide, artifact, now);
      FinalAgrees(lib, request, guide, artifact, now, pending.generatedAt);
      FinalReadsTheSame(lib, request, guide, artifact, now, pending.generatedAt);
      VerdictIsSpelled(lib, request, guide, artifact, now, checklist, pending);
      IsDerived(lib, request, guide, artifact, now);
      OnlyTimeDiffers(lib, request, guide, artifact, files[ReportJson].report.generatedAt, now);
      return Returned(report);
    }

    /** `refresh_rom0_action_packet` after the probe. Every exit keeps disk and report consistent;
        a returned report is told by the disk, and is ready only with complete evidence and a
        published checklist; with no refused write it is ready exactly then. */
    method Refresh(lib: Library, request: Request) returns (outcome: Outcome)
      modifies this
      ensures Consistent(old(files)) ==> Consistent(files)
      ensures outcome.Raised? ==> SameStory(old(files), files) || NotPublished(files)
      ensures outcome.Returned? ==> Tells(files, outcome.report) && Derived(lib, request, outcome.report)
      ensures outcome.Returned? && outcome.report.romReady ==>
        Ready(lib, request) && ListsChecklist(outcome.report)
      ensures outcome.Returned? ==> SpellsVerdict(outcome.report) && PacketWritten(files)
      ensures !refused && request.accepted && lib.NothingForbidden() ==>
        outcome.Returned? && (outcome.report.romReady <==> Ready(lib, request))
    {
      hide Final, GuideEntry, Pending, Ready, Checklists.Confirms, Checklists.Steps, Checklists.ReadinessOf,
           SameStory, SpellsVerdict, SpelledVerdict, PacketWritten, SamePacket;
      var guide := Prepare(lib, request);
      ghost var prepared := files;
      if guide.None? {
        SameStorySameConsistency(old(files), files);
        return Raised;
      }
      var earlier: int, now: int, message: string := *, *, *;
      var pending := Pending(lib, request, guide.value, earlier);
      var checklist := Checklists.BuildChecklist(lib.redact, pending);
      ChecklistConfirmsReport(lib, request, guide.value, earlier);
      PendingReadyIff(lib, request, guide.value, earlier);
      var artifact := if lib.badChecklist(checklist) then
        EvidenceInput(OperatorChecklist, INVALID, lib.redact(message))
      else
        EvidenceInput(OperatorChecklist, LOADED, GENERATED + SpelledVerdict(checklist));
      var report := Final(lib, request, guide.value, artifact, now);
      FinalAgrees(lib, request, guide.value, artifact, now, earlier);
      OnlyTimeDiffers(lib, request, guide.value, artifact, now, now);
      OnlyTimeDiffers(lib, request, guide.value, artifact, earlier, earlier);
      RemoveChecklist();
      var saved := WriteFile(ReportJson, ReportText(report));
      if !saved.Done? {
        return Raised;
      }
      OnlyReport(prepared, ReportText(report));
      StaysWritten(prepared, files);
      ghost var reported := files;
      if artifact.status != LOADED {
        InvalidIsNotListed(lib, request, guide.value, artifact, now);
        return Returned(report);
      }
      outcome := WriteChecklist(lib, request, guide.value, artifact, checklist, pending);
      if outcome.Returned? {
        TellingIsConsistent(files, outcome.report);
        StaysWritten(reported, files);
      }
    }
  }
}
