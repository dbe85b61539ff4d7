/** What a refresh of ROM-0 answers, over the request alone: which fields make it ready for
    review, what its report says, and what each step of its checklist shows. */
module RomReadiness {
  import opened Json
  import opened Options
  import opened Rom0Refresh
  import opened Rom0Report
  import BootloaderGuide
  import Checklists = OperatorChecklist
  import EvidenceKeys
  import Rom0Packet
  import UnlockEvidence
  import UnlockFields

  /** The expected phone, unlocked, with Treble and dynamic partitions, and no field left out. */
  predicate ShowsPhone(probe: Rom0Packet.Probe) {
    && probe.ok && probe.blockers == []
    && Shows(probe.device, "codename", "kansas") && Shows(probe.device, "product", "kansas_g_sys")
    && Given(probe.device, "model") && Given(probe.device, "hardware_sku") && Given(probe.device, "carrier")
    && Given(probe.properties, "ro.build.fingerprint")
    && Shows(probe.boot, "flash_locked", "0") && Shows(probe.boot, "vbmeta_device_state", "unlocked")
    && Shows(probe.treble, "enabled", "true") && Shows(probe.treble, "dynamic_partitions", "true")
  }

  lemma TargetField(probe: Rom0Packet.Probe, key: string)
    requires UnlockFields.PublicKey(key)
    ensures key in EvidenceKeys.TARGET_KEYS
    ensures Get(Rom0Packet.TargetDevice(probe), key) ==
            if key == "build_fingerprint" then Get(probe.properties, "ro.build.fingerprint") else Get(probe.device, key)
  {
    UnlockFields.TargetKeysAre();
  }

  lemma KeysDiffer()
    ensures "build_fingerprint" !in {"model", "codename", "product", "hardware_sku", "carrier"}
  {
    assert "model"[0] == 'm' && "codename"[0] == 'c' && "product"[0] == 'p' && "hardware_sku"[0] == 'h';
    assert "carrier"[0] == 'c' && "build_fingerprint"[0] == 'b';
  }

  lemma TargetGiven(probe: Rom0Packet.Probe)
    ensures (forall key <- EvidenceKeys.TARGET_KEYS :: Get(Rom0Packet.TargetDevice(probe), key) != "") <==>
      && Given(probe.device, "model") && Given(probe.device, "codename") && Given(probe.device, "product")
      && Given(probe.device, "hardware_sku") && Given(probe.device, "carrier")
      && Given(probe.properties, "ro.build.fingerprint")
  {
    hide Rom0Packet.TargetDevice, EvidenceKeys.TARGET_KEYS;
    KeysDiffer();
    UnlockFields.TargetKeysAre();
    TargetField(probe, "model");
    TargetField(probe, "codename");
    TargetField(probe, "product");
    TargetField(probe, "hardware_sku");
    TargetField(probe, "carrier");
    TargetField(probe, "build_fingerprint");
  }

  lemma PhoneIff(probe: Rom0Packet.Probe)
    ensures Rom0Packet.ReadyProbe(probe) <==> ShowsPhone(probe)
  {
    TargetGiven(probe);
    hide Rom0Packet.TargetDevice;
    assert "kansas"[0] == 'k' && "kansas_g_sys"[0] == 'k' && "0"[0] == '0' && "unlocked"[0] == 'u' && "true"[0] == 't';
  }

  predicate VerifiedGsi(gsi: map<string, string>) {
    && Shows(gsi, "status", "ARTIFACT_CHECKSUM_VERIFIED") && Shows(gsi, "authorization", "NON_AUTHORIZING_EVIDENCE")
    && Given(gsi, "artifact_name") && Given(gsi, "sha256") && Given(gsi, "source_url")
  }

  predicate ReviewableDsu(dsu: map<string, string>) {
    && Shows(dsu, "status", "READY_FOR_MANUAL_DSU_REVIEW")
    && Shows(dsu, "install_authority", "WITHHELD") && Shows(dsu, "destructive_actions", "withheld")
  }

  predicate VisibleBootloader(lib: Rom0Packet.Library, fastboot: map<string, string>) {
    && Shows(fastboot, "status", "MANUAL_BOOTLOADER_VISIBLE") && Given(fastboot, "fastboot_version")
    && Shows(fastboot, "manual_bootloader_check_requested", "true")
    && Shows(fastboot, "bootloader_device_visible", "true")
    && lib.int_value(Get(fastboot, "bootloader_device_count")) > 0
  }

  lemma GsiIff(gsi: map<string, string>)
    ensures Rom0Packet.GsiReady(Some(gsi)) <==> VerifiedGsi(gsi)
  {
    assert |"ARTIFACT_CHECKSUM_VERIFIED"| == 26 && |"NON_AUTHORIZING_EVIDENCE"| == 24;
  }

  lemma DsuIff(dsu: map<string, string>)
    ensures Rom0Packet.DsuReady(Some(dsu)) <==> ReviewableDsu(dsu)
  {
    assert |"READY_FOR_MANUAL_DSU_REVIEW"| == 27 && |"WITHHELD"| == 8 && |"withheld"| == 8;
  }

  lemma FastbootIff(lib: Rom0Packet.Library, fastboot: map<string, string>)
    ensures Rom0Packet.FastbootReady(lib, Some(fastboot)) <==> VisibleBootloader(lib, fastboot)
  {
    assert |"MANUAL_BOOTLOADER_VISIBLE"| == 25 && |"true"| == 4;
  }

  /** All five kinds of evidence are recorded, each with the fields the review asks for. */
  predicate Complete(lib: Library, request: Request) {
    && ShowsPhone(request.probe)
    && request.unlock.There? && request.unlock.value.visible && request.unlock.value.enabled
    && request.unlock.value.eligibility == "eligible"
    && UnlockEvidence.Current(lib.packet.unlock, UnlockEvidence.ClaimOf(request.unlock.value),
                              Rom0Packet.TargetDevice(request.probe), request.probe.generatedAt)
    && request.stock.There?
    && request.gsi.There? && VerifiedGsi(request.gsi.value)
    && request.dsu.There? && ReviewableDsu(request.dsu.value)
    && request.fastboot.There? && request.fastboot.section.ok && request.fastboot.section.evidence.Some?
    && VisibleBootloader(lib.packet, request.fastboot.section.evidence.value)
  }

  lemma EvidenceIff(lib: Library, request: Request)
    ensures Rom0Packet.GsiReady(Consumed(request.gsi)) <==> request.gsi.There? && VerifiedGsi(request.gsi.value)
    ensures Rom0Packet.DsuReady(Consumed(request.dsu)) <==> request.dsu.There? && ReviewableDsu(request.dsu.value)
    ensures Rom0Packet.FastbootReady(lib.packet, BootloaderGuide.PacketView(request.fastboot)) <==>
      && request.fastboot.There? && request.fastboot.section.ok && request.fastboot.section.evidence.Some?
      && VisibleBootloader(lib.packet, request.fastboot.section.evidence.value)
  {
    if request.gsi.There? {
      GsiIff(request.gsi.value);
    }
    if request.dsu.There? {
      DsuIff(request.dsu.value);
    }
    if request.fastboot.There? && request.fastboot.section.evidence.Some? {
      FastbootIff(lib.packet, request.fastboot.section.evidence.value);
    }
    hide Shows, Given, Get, VerifiedGsi, ReviewableDsu, VisibleBootloader, Rom0Packet.ShowsDevice;
  }

  /** The review is ready exactly with complete evidence. */
  lemma CompleteIff(lib: Library, request: Request)
    ensures Ready(lib, request) <==> Complete(lib, request)
    ensures PacketOf(lib, request).status == Rom0Packet.ReadyForReview <==> Complete(lib, request)
  {
    hide Rom0Packet.ReadyProbe, ShowsPhone, VerifiedGsi, ReviewableDsu, VisibleBootloader, UnlockEvidence.Current;
    hide Rom0Packet.GsiReady, Rom0Packet.DsuReady, Rom0Packet.FastbootReady, BootloaderGuide.PacketView;
    hide Rom0Packet.TargetDevice, Rom0Packet.BuildPacket;
    PhoneIff(request.probe);
    EvidenceIff(lib, request);
    Rom0Packet.PacketAgrees(lib.packet, request.probe, PacketInputs(request));
  }

  // ------------------------------------------------------------- the report

  /** What a report of this request says: it is ok, and its status says so, exactly with complete
      evidence, a written guide and a published checklist; errors are invalid entries or a probe
      that found no phone. */
  lemma ReportVerdict(lib: Library, request: Request, guide: EvidenceInput, checklist: EvidenceInput, now: int)
    requires GuideEntry(lib, request, guide) && checklist.name == OperatorChecklist && checklist.status != MISSING
    ensures var report := Final(lib, request, guide, checklist, now);
      && (report.ok <==> Complete(lib, request) && guide.status == LOADED && checklist.status == LOADED)
      && report.romReady == report.ok && (report.status == ReadyForReview <==> report.ok)
      && (report.status == Error <==> report.errors != []) && (report.refreshSucceeded <==> report.errors == [])
      && (report.errors != [] <==>
            || (exists input <- report.inputs :: input.status == INVALID) || request.probe.device == map[])
      && report.packetStatus == PacketOf(lib, request).status
  {
    CompleteIff(lib, request);
    PendingReadyIff(lib, request, guide, now);
    FinalAgrees(lib, request, guide, checklist, now, now);
    ErrorsIff(lib, request, guide, checklist, now);
    FinalSays(lib, request, guide, checklist, now);
    hide Complete, Ready, Final, Pending, GuideEntry, PacketOf, StatusOf;
  }

  lemma FinalSays(lib: Library, request: Request, guide: EvidenceInput, checklist: EvidenceInput, now: int)
    ensures var report := Final(lib, request, guide, checklist, now);
      && report.romReady == report.ok && (report.status == ReadyForReview <==> report.ok)
      && (report.status == Error <==> report.errors != []) && (report.refreshSucceeded <==> report.errors == [])
      && report.packetStatus == PacketOf(lib, request).status
  {
    hide BaseInputs, BaseErrors, PacketOf, BootloaderStatus, BlockedBy, StatusOf, StatusFromInput;
  }

  lemma ErrorsIff(lib: Library, request: Request, guide: EvidenceInput, checklist: EvidenceInput, now: int)
    ensures var report := Final(lib, request, guide, checklist, now);
      report.errors != [] <==>
        || (exists input <- report.inputs :: input.status == INVALID) || request.probe.device == map[]
  {
    hide PacketOf, BlockedBy, BootloaderStatus, StatusOf, BaseInputs;
    var inputs := BaseInputs(lib, request, guide);
    assert forall i :: 0 <= i < |inputs| ==> inputs[i] in inputs + [checklist];
    assert (inputs + [checklist])[|inputs|] == checklist;
    assert forall input <- inputs + [checklist] :: input in inputs || input == checklist;
  }

  /** The blockers of refused fastboot evidence are joined by "; " into one detail. */
  lemma {:induction false} BlockersJoin(a: seq<string>, b: seq<string>)
    requires a != [] && b != []
    ensures Joined(a + b) == Joined(a) + "; " + Joined(b)
    ensures |b| == 1 ==> Joined(b) == b[0]
  {
    if |a| == 1 {
      assert (a + b)[1..] == b;
    } else {
      assert (a + b)[1..] == a[1..] + b;
      BlockersJoin(a[1..], b);
      assert a[0] + "; " + (Joined(a[1..]) + "; " + Joined(b)) == a[0] + "; " + Joined(a[1..]) + "; " + Joined(b);
    }
  }

  // -------------------------------------------------------------- the steps

  function Shown(r: Checklists.Readiness, id: Checklists.StepId): Checklists.StepStatus {
    Checklists.StepOf(r, id).status
  }

  /** Recorded evidence is done; what is missing is asked for when `open` says so. */
  predicate ShownAs(r: Checklists.Readiness, id: Checklists.StepId, recorded: bool, open: bool) {
    && (recorded ==> Shown(r, id) == Checklists.DONE)
    && (!recorded && open ==> Shown(r, id) == Checklists.READY)
    && (!recorded && !open ==> Shown(r, id) == Checklists.BLOCKED)
  }

  /** What each step of the checklist shows: missing evidence is asked for once the refresh has
      no error; the review opens with the report; the last step, which would destroy data, is
      never offered. */
  lemma StepsShow(lib: Library, request: Request, guide: EvidenceInput, now: int)
    requires guide.name == BootloaderVisibilityGuide
    ensures var r := Checklists.ReadinessOf(Pending(lib, request, guide, now));
      var clean := Pending(lib, request, guide, now).errors == [];
      && ShownAs(r, Checklists.RefreshEvidence, clean, true)
      && ShownAs(r, Checklists.RecordStockRestore, request.stock.There?, clean)
      && ShownAs(r, Checklists.RecordUnlockEligibility, r.unlock, clean) && (r.unlock ==> request.unlock.There?)
      && ShownAs(r, Checklists.RecordGsiCandidate, request.gsi.There?, clean)
      && ShownAs(r, Checklists.RecordDsuPreflight, request.dsu.There?,
                 clean && request.stock.There? && request.gsi.There?)
      && ShownAs(r, Checklists.RecordHostFastboot, FastbootLoad(request.fastboot).There?, clean)
      && ShownAs(r, Checklists.RecordManualVisibility, StatusFromInput(guide) == "MANUAL_BOOTLOADER_VISIBLE",
                 StatusFromInput(guide) == "READY_FOR_MANUAL_BOOTLOADER_CHECK")
      && ShownAs(r, Checklists.CreateManualGates, false, request.stock.There? && r.unlock)
      && ShownAs(r, Checklists.ReadinessReview, false, Pending(lib, request, guide, now).romReady)
      && ShownAs(r, Checklists.DestructiveDecision, false, false)
  {
    hide *;
    PendingReadiness(lib, request, guide, now);
    ErrorsAreBase(lib, request, guide, now);
    StepsOfReadiness(Checklists.ReadinessOf(Pending(lib, request, guide, now)));
  }

  lemma StepsOfReadiness(r: Checklists.Readiness)
    ensures ShownAs(r, Checklists.RefreshEvidence, r.refreshed, true)
    ensures ShownAs(r, Checklists.RecordStockRestore, r.stock, r.refreshed)
    ensures ShownAs(r, Checklists.RecordUnlockEligibility, r.unlock, r.refreshed)
    ensures ShownAs(r, Checklists.RecordGsiCandidate, r.gsi, r.refreshed)
    ensures ShownAs(r, Checklists.RecordDsuPreflight, r.dsu, r.refreshed && r.stock && r.gsi)
    ensures ShownAs(r, Checklists.RecordHostFastboot, r.fastboot, r.refreshed)
    ensures ShownAs(r, Checklists.RecordManualVisibility, r.bootloader == "MANUAL_BOOTLOADER_VISIBLE",
                    r.bootloader == "READY_FOR_MANUAL_BOOTLOADER_CHECK")
    ensures ShownAs(r, Checklists.CreateManualGates, false, r.stock && r.unlock)
    ensures ShownAs(r, Checklists.ReadinessReview, false, r.romReady)
    ensures ShownAs(r, Checklists.DestructiveDecision, false, false)
  {
  }

  lemma ErrorsAreBase(lib: Library, request: Request, guide: EvidenceInput, now: int)
    ensures Pending(lib, request, guide, now).errors == BaseErrors(request, BaseInputs(lib, request, guide))
  {
  }
}
