/** Two requests that refreshes receive: one with no evidence at all, one with everything. */
module SampleRefreshes {
  import opened Json
  import opened Options
  import opened Results
  import opened Rom0Refresh
  import opened Rom0Report
  import BootloaderGuide
  import EvidenceKeys
  import Checklists = OperatorChecklist
  import Rom0Packet
  import UnlockEvidence

  /** The laws used: those of the unlock evidence, and that `int` reads a digit. */
  ghost predicate Lawful(lib: Library) { lib.packet.unlock.Valid() && lib.packet.int_value("1") == 1 }

  /** A probe of the expected device, unlocked. */
  function Probe(lib: Library, time: int): Rom0Packet.Probe {
    Rom0Packet.Probe(
      true, [], lib.packet.unlock.iso(time), UnlockEvidence.SampleDevice(),
      map["flash_locked" := "0", "vbmeta_device_state" := "unlocked"],
      map["enabled" := "true", "dynamic_partitions" := "true"],
      UnlockEvidence.SampleProperties())
  }

  /** Nothing was recorded yet. */
  function FirstRequest(lib: Library, time: int): Request {
    Request(true, Probe(lib, time), NotThere, NotThere, NotThere, NotThere, BootloaderGuide.NotThere)
  }

  const HASH := "2e7d2c03a9507ae265ecf5b5356885a53393a2029d241394997265a1a25aefc6"

  const RELEASES := "https://developer.android.com/topic/generic-system-image/releases"

  function Stock(): map<string, string> {
    map["source_url" := "https://en-us.support.motorola.com/app/softwarefix", "archive_name" := "stock.zip",
        "sha256" := HASH, "rollback_doc" := "docs/rollback.md"]
  }

  function Gsi(): map<string, string> {
    map["status" := "ARTIFACT_CHECKSUM_VERIFIED", "authorization" := "NON_AUTHORIZING_EVIDENCE",
        "artifact_name" := "gsi.zip", "sha256" := HASH,
        "source_url" := RELEASES]
  }

  function Dsu(): map<string, string> {
    map["status" := "READY_FOR_MANUAL_DSU_REVIEW", "install_authority" := "WITHHELD",
        "destructive_actions" := "withheld"]
  }

  function Fastboot(): map<string, string> {
    map["status" := Rom0Packet.VISIBLE, "fastboot_version" := "35", "manual_bootloader_check_requested" := "true",
        "bootloader_device_visible" := "true", "bootloader_device_count" := "1"]
  }

  function UnlockCreated(lib: Library, time: int): Result<UnlockEvidence.Evidence> {
    UnlockEvidence.Create(lib.packet.unlock, UnlockEvidence.SAMPLE_REQUEST,
                          Some(Object(UnlockEvidence.SampleProbe(lib.packet.unlock, time))), time)
  }

  /** Everything was recorded; the unlock evidence was created from this probe. */
  function LastRequest(lib: Library, time: int): Request
    requires UnlockCreated(lib, time).Ok?
  {
    Request(true, Probe(lib, time), There(UnlockCreated(lib, time).value), There(Stock()), There(Gsi()), There(Dsu()),
            BootloaderGuide.There(BootloaderGuide.Section(true, Some(Fastboot()), [], [])))
  }

  /** The entry of a guide that was written. */
  function Written(lib: Library, request: Request): EvidenceInput
    requires BootloaderGuide.BuildGuide(lib.redact, request.fastboot).Ok?
  {
    EvidenceInput(
      BootloaderVisibilityGuide, LOADED,
      GENERATED + BootloaderGuide.Spelled(BootloaderGuide.BuildGuide(lib.redact, request.fastboot).value.status))
  }

  /** The pending report of a refresh whose guide was written. */
  function Refreshed(lib: Library, request: Request, now: int): Report
    requires BootloaderGuide.BuildGuide(lib.redact, request.fastboot).Ok?
  {
    Pending(lib, request, Written(lib, request), now)
  }

  lemma ProbeFields(lib: Library, time: int)
    ensures var p := Probe(lib, time);
      && Get(p.boot, "flash_locked") == "0" && Get(p.boot, "vbmeta_device_state") == "unlocked"
      && Get(p.treble, "enabled") == "true" && Get(p.treble, "dynamic_partitions") == "true"
  {
    assert "flash_locked"[0] == 'f' && "vbmeta_device_state"[0] == 'v';
    assert "enabled"[0] == 'e' && "dynamic_partitions"[0] == 'd';
  }

  lemma ProbeIsReady(lib: Library, time: int)
    requires Lawful(lib)
    ensures Rom0Packet.ReadyProbe(Probe(lib, time))
  {
    ProbeFields(lib, time);
    TargetIsNamed(lib, time);
    UnlockEvidence.SampleDeviceFields();
    hide Get, UnlockEvidence.SampleDevice, UnlockEvidence.SampleProperties, Rom0Packet.TargetDevice;
    hide UnlockEvidence.TargetFrom;
  }

  lemma TargetIsNamed(lib: Library, time: int)
    requires Lawful(lib)
    ensures forall key <- EvidenceKeys.TARGET_KEYS :: Get(Rom0Packet.TargetDevice(Probe(lib, time)), key) != ""
  {
    UnlockEvidence.SampleTargetIsValid(lib.packet.unlock, time);
    hide Get, UnlockEvidence.SampleDevice, UnlockEvidence.SampleProperties, UnlockEvidence.TargetFrom;
    hide UnlockEvidence.ProbeTarget;
  }

  lemma GsiIsReady()
    ensures Rom0Packet.GsiReady(Some(Gsi()))
  {
    assert "status"[1] == 't' && "authorization"[1] == 'u' && "artifact_name"[1] == 'r' && "sha256"[1] == 'h';
    assert "source_url"[1] == 'o' && |"gsi.zip"| == 7 && |HASH| == 64;
    assert |RELEASES| == 65;
  }

  lemma DsuIsReady()
    ensures Rom0Packet.DsuReady(Some(Dsu()))
  {
    assert "status"[0] == 's' && "install_authority"[0] == 'i' && "destructive_actions"[0] == 'd';
  }

  lemma FastbootIsReady(lib: Library)
    requires Lawful(lib)
    ensures Rom0Packet.FastbootReady(lib.packet, Some(Fastboot()))
  {
    assert "status"[0] == 's' && "fastboot_version"[0] == 'f' && "manual_bootloader_check_requested"[0] == 'm';
    assert |"bootloader_device_visible"| == 25 && |"bootloader_device_count"| == 23 && |"35"| == 2;
    assert "bootloader_device_visible"[0] == 'b' && "bootloader_device_count"[0] == 'b';
  }

  lemma UnlockIsReady(lib: Library, time: int)
    requires Lawful(lib)
    ensures UnlockCreated(lib, time).Ok?
    ensures Rom0Packet.UnlockReady(lib.packet, Some(UnlockCreated(lib, time).value), Probe(lib, time))
  {
    var unlock := lib.packet.unlock;
    var probe := Object(UnlockEvidence.SampleProbe(unlock, time));
    UnlockEvidence.SampleIsCreated(unlock, time, time);
    UnlockEvidence.SampleTargetIsValid(unlock, time);
    UnlockEvidence.CreatedIsCurrentIff(unlock, UnlockEvidence.SAMPLE_REQUEST, probe, time);
    UnlockEvidence.CreatedIsWellFormed(unlock, UnlockEvidence.SAMPLE_REQUEST, Some(probe), time);
    hide UnlockEvidence.SampleProbe, UnlockEvidence.Current, UnlockEvidence.ProbeTarget, UnlockEvidence.ProbeTime;
    hide UnlockEvidence.TargetFrom, UnlockEvidence.SampleDevice, UnlockEvidence.SampleProperties;
    hide UnlockEvidence.ValidTarget, UnlockEvidence.ValidBinding, UnlockEvidence.ValidInputs;
  }

  /** The evidence of the last request is complete. */
  lemma LastRequestIsReady(lib: Library, time: int)
    requires Lawful(lib)
    ensures UnlockCreated(lib, time).Ok? && Ready(lib, LastRequest(lib, time))
  {
    UnlockIsReady(lib, time);
    ProbeIsReady(lib, time);
    GsiIsReady();
    DsuIsReady();
    FastbootIsReady(lib);
    hide UnlockCreated, Probe, Gsi, Dsu, Fastboot, Rom0Packet.UnlockReady, Rom0Packet.ReadyProbe;
    hide Rom0Packet.GsiReady, Rom0Packet.DsuReady, Rom0Packet.FastbootReady;
  }

  /** The first refresh asks for unlock evidence before the stock restore it must follow; the
      refresh that is ready shows its review before the manual gates it must follow. */
  lemma OrderFailsOnRefreshes(lib: Library, time: int, now: int)
    requires Lawful(lib)
    ensures BootloaderGuide.BuildGuide(lib.redact, FirstRequest(lib, time).fastboot).Ok?
    ensures var r := Checklists.ReadinessOf(Refreshed(lib, FirstRequest(lib, time), now));
            r.refreshed && !r.stock && !Checklists.StepInOrder(r, Checklists.RecordUnlockEligibility)
    ensures UnlockCreated(lib, time).Ok?
    ensures BootloaderGuide.BuildGuide(lib.redact, LastRequest(lib, time).fastboot).Ok?
    ensures var r := Checklists.ReadinessOf(Refreshed(lib, LastRequest(lib, time), now));
            r.romReady && !Checklists.StepInOrder(r, Checklists.ReadinessReview)
  {
    FirstRefresh(lib, time, now);
    LastRefresh(lib, time, now);
  }

  lemma FirstRefresh(lib: Library, time: int, now: int)
    requires Lawful(lib)
    ensures BootloaderGuide.BuildGuide(lib.redact, FirstRequest(lib, time).fastboot).Ok?
    ensures var r := Checklists.ReadinessOf(Refreshed(lib, FirstRequest(lib, time), now));
            r.refreshed && !r.stock && !Checklists.StepInOrder(r, Checklists.RecordUnlockEligibility)
  {
    var request := FirstRequest(lib, time);
    var guide := Written(lib, request);
    PendingReadiness(lib, request, guide, now);
    NothingIsInvalid(lib, time, guide);
    Checklists.SingleStepsInOrder(Checklists.ReadinessOf(Pending(lib, request, guide, now)));
    hide Pending, Probe, BaseErrors, BaseInputs, Checklists.ReadinessOf, Checklists.StepInOrder, GuideEntry;
  }

  lemma NothingIsInvalid(lib: Library, time: int, guide: EvidenceInput)
    requires guide.status == LOADED
    ensures BaseErrors(FirstRequest(lib, time), BaseInputs(lib, FirstRequest(lib, time), guide)) == []
  {
    assert "model" in UnlockEvidence.SampleDevice();
  }

  /** A refresh with complete evidence and a written guide. */
  lemma ReadyRefresh(lib: Library, request: Request, guide: EvidenceInput, now: int)
    requires Ready(lib, request) && GuideEntry(lib, request, guide) && guide.status == LOADED
    ensures var r := Checklists.ReadinessOf(Pending(lib, request, guide, now));
            r.romReady && !Checklists.StepInOrder(r, Checklists.ReadinessReview)
  {
    hide Ready, GuideEntry;
    PendingReadyIff(lib, request, guide, now);
    Checklists.OtherStepsInOrder(Checklists.ReadinessOf(Pending(lib, request, guide, now)));
    ReadyIsRead(Pending(lib, request, guide, now));
    hide Pending, Checklists.ReadinessOf, Checklists.StepInOrder;
  }

  lemma ReadyIsRead(report: Report)
    ensures Checklists.ReadinessOf(report).romReady <==> report.refreshSucceeded && report.romReady
  {
    hide Checklists.StatusMap;
  }

  lemma WrittenIsEntry(lib: Library, request: Request)
    requires BootloaderGuide.BuildGuide(lib.redact, request.fastboot).Ok?
    ensures GuideEntry(lib, request, Written(lib, request))
  {
    hide BootloaderGuide.BuildGuide, BootloaderGuide.Spelled;
  }

  lemma LastRefresh(lib: Library, time: int, now: int)
    requires Lawful(lib)
    ensures UnlockCreated(lib, time).Ok?
    ensures BootloaderGuide.BuildGuide(lib.redact, LastRequest(lib, time).fastboot).Ok?
    ensures var r := Checklists.ReadinessOf(Refreshed(lib, LastRequest(lib, time), now));
            r.romReady && !Checklists.StepInOrder(r, Checklists.ReadinessReview)
  {
    LastRequestIsReady(lib, time);
    var request := LastRequest(lib, time);
    ReadyBuildsGuide(lib, request);
    hide Ready, BootloaderGuide.BuildGuide, Lawful, UnlockCreated, GuideEntry, Pending, Checklists.ReadinessOf,
         Checklists.StepInOrder, LastRequest;
    WrittenIsEntry(lib, request);
    ReadyRefresh(lib, request, Written(lib, request), now);
  }
}
