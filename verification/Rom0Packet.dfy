/** The manual action packet: what blocks ROM-0 and when everything is in place. */
module Rom0Packet {
  import opened Json
  import opened Options
  import EvidenceKeys
  import UnlockEvidence

  // ------------------------------------------------------------- the probe

  /** The parts of the feasibility probe the packet reads. */
  datatype Probe = Probe(
    ok: bool,
    blockers: seq<string>,
    generatedAt: string,
    device: map<string, string>,
    boot: map<string, string>,
    treble: map<string, string>,
    properties: map<string, string>)

  const NOT_OK := "ROM feasibility probe is not OK"
  const WRONG_CODENAME := "ROM probe codename does not match kansas"
  const WRONG_PRODUCT := "ROM probe product does not match kansas_g_sys"
  const NOT_UNLOCKED := "ROM probe does not show an unlocked bootloader"
  const NO_TREBLE := "ROM probe does not show Treble enabled"
  const NO_DYNAMIC_PARTITIONS := "ROM probe does not show dynamic partitions"

  function FieldMissing(key: string): string { "ROM probe target_device." + key + " is missing" }

  function TargetDevice(probe: Probe): map<string, string> {
    UnlockEvidence.TargetFrom(probe.device, probe.properties)
  }

  function AppendUnique(items: seq<string>, value: string): (r: seq<string>)
    ensures value in r && items <= r
    ensures forall item :: item in r <==> item in items || item == value
  {
    if value in items then items else items + [value]
  }

  predicate ShowsUnlocked(probe: Probe) {
    Get(probe.boot, "flash_locked") == "0" && Get(probe.boot, "vbmeta_device_state") == "unlocked"
  }

  /** The messages about the probe's own fields, in the order of the checks. */
  function Objections(probe: Probe): seq<string> {
    When(!probe.ok && probe.blockers == [], NOT_OK)
    + When(Get(probe.device, "codename") != UnlockEvidence.CODENAME, WRONG_CODENAME)
    + When(Get(probe.device, "product") != UnlockEvidence.PRODUCT, WRONG_PRODUCT)
    + When(!ShowsUnlocked(probe), NOT_UNLOCKED)
    + When(Get(probe.treble, "enabled") != "true", NO_TREBLE)
    + When(Get(probe.treble, "dynamic_partitions") != "true", NO_DYNAMIC_PARTITIONS)
    + MissingFields(TargetDevice(probe), EvidenceKeys.TARGET_KEYS)
  }

  function When(holds: bool, value: string): seq<string> { if holds then [value] else [] }

  function MissingFields(target: map<string, string>, keys: seq<string>): (r: seq<string>)
    ensures r == [] <==> forall key <- keys :: Get(target, key) != ""
    decreases |keys|
  {
    if keys == [] then []
    else
      var n := |keys| - 1;
      assert keys == keys[..n] + [keys[n]];
      MissingFields(target, keys[..n]) + if Get(target, keys[n]) == "" then [FieldMissing(keys[n])] else []
  }

  /** `append_unique` once for each of `values`. */
  function AppendAll(items: seq<string>, values: seq<string>): (r: seq<string>)
    ensures items <= r
    ensures forall item :: item in r <==> item in items || item in values
    decreases |values|
  {
    if values == [] then items
    else
      var n := |values| - 1;
      assert values == values[..n] + [values[n]];
      AppendUnique(AppendAll(items, values[..n]), values[n])
  }

  function ProbeBlockers(probe: Probe): seq<string> { AppendAll(probe.blockers, Objections(probe)) }

  /** The probe shows the expected, unlocked device and lists no blocker of its own. */
  predicate ReadyProbe(probe: Probe) {
    && probe.ok && probe.blockers == []
    && Get(probe.device, "codename") == UnlockEvidence.CODENAME
    && Get(probe.device, "product") == UnlockEvidence.PRODUCT
    && ShowsUnlocked(probe)
    && Get(probe.treble, "enabled") == "true" && Get(probe.treble, "dynamic_partitions") == "true"
    && forall key <- EvidenceKeys.TARGET_KEYS :: Get(TargetDevice(probe), key) != ""
  }

  lemma NoProbeBlockersIff(probe: Probe)
    ensures ProbeBlockers(probe) == [] <==> ReadyProbe(probe)
  {
    hide Get, MissingFields, TargetDevice;
    var objections, blockers := Objections(probe), ProbeBlockers(probe);
    if objections != [] {
      assert objections[0] in blockers;
    } else if blockers != [] {
      assert blockers[0] in blockers;
      assert blockers[0] in probe.blockers;
    }
  }

  /** `probe_readiness_blockers`. */
  method ProbeReadinessBlockers(probe: Probe) returns (blockers: seq<string>)
    ensures blockers == ProbeBlockers(probe)
    ensures blockers == [] <==> ReadyProbe(probe)
  {
    hide *;
    NoProbeBlockersIff(probe);
    ObjectionsInOrder(probe);
    ghost var found := [];
    blockers := probe.blockers;
    NoneAppended(blockers);
    blockers, found := AppendWhen(probe.blockers, found, blockers, !probe.ok && blockers == [], NOT_OK);
    assert found == When(!probe.ok && probe.blockers == [], NOT_OK);
    blockers, found := AppendWhen(probe.blockers, found, blockers,
                                  Get(probe.device, "codename") != UnlockEvidence.CODENAME, WRONG_CODENAME);
    blockers, found := AppendWhen(probe.blockers, found, blockers,
                                  Get(probe.device, "product") != UnlockEvidence.PRODUCT, WRONG_PRODUCT);
    blockers, found := AppendWhen(probe.blockers, found, blockers, !ShowsUnlocked(probe), NOT_UNLOCKED);
    blockers, found := AppendWhen(probe.blockers, found, blockers,
                                  Get(probe.treble, "enabled") != "true", NO_TREBLE);
    blockers, found := AppendWhen(probe.blockers, found, blockers,
                                  Get(probe.treble, "dynamic_partitions") != "true", NO_DYNAMIC_PARTITIONS);
    blockers := AppendMissingFields(probe.blockers, found, blockers, TargetDevice(probe));
  }

  lemma ObjectionsInOrder(probe: Probe)
    ensures ProbeBlockers(probe) == AppendAll(probe.blockers,
      When(!probe.ok && probe.blockers == [], NOT_OK)
      + When(Get(probe.device, "codename") != UnlockEvidence.CODENAME, WRONG_CODENAME)
      + When(Get(probe.device, "product") != UnlockEvidence.PRODUCT, WRONG_PRODUCT)
      + When(!ShowsUnlocked(probe), NOT_UNLOCKED)
      + When(Get(probe.treble, "enabled") != "true", NO_TREBLE)
      + When(Get(probe.treble, "dynamic_partitions") != "true", NO_DYNAMIC_PARTITIONS)
      + MissingFields(TargetDevice(probe), EvidenceKeys.TARGET_KEYS))
  {
    hide Get, When, ShowsUnlocked, AppendAll, TargetDevice, MissingFields;
  }

  lemma NoneAppended(items: seq<string>)
    ensures AppendAll(items, []) == items
  {
  }

  /** `if holds: append_unique(blockers, value)`; `found` lists the values appended since `start`. */
  method AppendWhen(ghost start: seq<string>, ghost found: seq<string>, blockers: seq<string>, holds: bool,
                    value: string)
    returns (after: seq<string>, ghost all: seq<string>)
    requires blockers == AppendAll(start, found)
    ensures all == found + When(holds, value) && after == AppendAll(start, all)
  {
    after, all := blockers, found + When(holds, value);
    if holds {
      after := AppendUnique(blockers, value);
      assert all[..|all| - 1] == found;
    } else {
      assert all == found;
    }
  }

  /** The loop over the target device keys. */
  method AppendMissingFields(ghost start: seq<string>, ghost found: seq<string>, blockers: seq<string>,
                             target: map<string, string>)
    returns (after: seq<string>)
    requires blockers == AppendAll(start, found)
    ensures after == AppendAll(start, found + MissingFields(target, EvidenceKeys.TARGET_KEYS))
  {
    hide Get, AppendAll;
    var keys, i := EvidenceKeys.TARGET_KEYS, 0;
    ghost var all := found;
    after := blockers;
    assert found == found + MissingFields(target, keys[..0]);
    while i < |keys|
      invariant 0 <= i <= |keys|
      invariant all == found + MissingFields(target, keys[..i])
      invariant after == AppendAll(start, all)
    {
      assert keys[..i + 1][..i] == keys[..i];
      after, all := AppendWhen(start, all, after, Get(target, keys[i]) == "", FieldMissing(keys[i]));
      i := i + 1;
    }
    assert keys[..i] == keys;
  }

  // ------------------------------------------------------------- readiness

  /** The evidence the packet consumes; `None` where nothing was loaded. */
  datatype Inputs = Inputs(
    unlock: Option<UnlockEvidence.Evidence>,
    stock: Option<map<string, string>>,
    gsi: Option<map<string, string>>,
    dsu: Option<map<string, string>>,
    fastboot: Option<map<string, string>>)

  /** The library calls: those of the unlock evidence, and `int(text)`, 0 when it raises. */
  datatype Library = Library(unlock: UnlockEvidence.Library, int_value: string -> int)

  const VISIBLE := "MANUAL_BOOTLOADER_VISIBLE"

  predicate UnlockReady(lib: Library, unlock: Option<UnlockEvidence.Evidence>, probe: Probe) {
    && unlock.Some?
    && unlock.value.visible && unlock.value.enabled && unlock.value.eligibility == "eligible"
    && UnlockEvidence.Current(lib.unlock, UnlockEvidence.ClaimOf(unlock.value), TargetDevice(probe), probe.generatedAt)
  }

  predicate GsiReady(gsi: Option<map<string, string>>) {
    && gsi.Some?
    && Get(gsi.value, "status") == "ARTIFACT_CHECKSUM_VERIFIED"
    && Get(gsi.value, "authorization") == "NON_AUTHORIZING_EVIDENCE"
    && Get(gsi.value, "artifact_name") != "" && Get(gsi.value, "sha256") != "" && Get(gsi.value, "source_url") != ""
  }

  predicate DsuReady(dsu: Option<map<string, string>>) {
    && dsu.Some?
    && Get(dsu.value, "status") == "READY_FOR_MANUAL_DSU_REVIEW"
    && Get(dsu.value, "install_authority") == "WITHHELD"
    && Get(dsu.value, "destructive_actions") == "withheld"
  }

  predicate FastbootReady(lib: Library, fastboot: Option<map<string, string>>) {
    fastboot.Some? && Get(fastboot.value, "status") == VISIBLE && ShowsDevice(lib, fastboot.value)
  }

  predicate ShowsDevice(lib: Library, fastboot: map<string, string>) {
    && Get(fastboot, "fastboot_version") != ""
    && Get(fastboot, "manual_bootloader_check_requested") == "true"
    && Get(fastboot, "bootloader_device_visible") == "true"
    && lib.int_value(Get(fastboot, "bootloader_device_count")) > 0
  }

  /** Everything the readiness review needs is there. */
  predicate AllReady(lib: Library, probe: Probe, inputs: Inputs) {
    && ReadyProbe(probe)
    && UnlockReady(lib, inputs.unlock, probe) && inputs.stock.Some?
    && GsiReady(inputs.gsi) && DsuReady(inputs.dsu) && FastbootReady(lib, inputs.fastboot)
  }

  // ---------------------------------------------------------------- packet

  datatype Status = BlockedManualEvidence | ReadyForManualGateTemplate | ReadyForReview

  /** `reviewBlockers` are those of the action that summarises readiness. */
  datatype Packet = Packet(status: Status, blockedBy: seq<string>, reviewBlockers: seq<string>)

  const UNLOCK_MISSING := "manual OEM or Motorola unlock eligibility evidence is missing or not eligible"
  const STOCK_MISSING := "exact stock restore evidence is missing"
  const GSI_MISSING := "official Google ARM64 GSI evidence is missing"
  const DSU_MISSING := "read-only DSU preflight evidence is missing"
  const FASTBOOT_MISSING := "manual bootloader-mode fastboot visibility evidence is missing"
  const REVIEW_BLOCKED :=
    "readiness cannot be summarized until restore, unlock, GSI, DSU preflight, and fastboot evidence exist"

  /** `blocked_reasons`. */
  function BlockedReasons(probeBlockers: seq<string>, unlock: bool, stock: bool, gsi: bool, dsu: bool, fastboot: bool)
    : (reasons: seq<string>)
    ensures reasons == [] <==> probeBlockers == [] && unlock && stock && gsi && dsu && fastboot
    ensures probeBlockers <= reasons
    ensures (!unlock ==> UNLOCK_MISSING in reasons) && (!stock ==> STOCK_MISSING in reasons)
    ensures (!gsi ==> GSI_MISSING in reasons) && (!dsu ==> DSU_MISSING in reasons)
    ensures !fastboot ==> FASTBOOT_MISSING in reasons
  {
    probeBlockers + When(!unlock, UNLOCK_MISSING) + When(!stock, STOCK_MISSING) + When(!gsi, GSI_MISSING)
    + When(!dsu, DSU_MISSING) + When(!fastboot, FASTBOOT_MISSING)
  }

  /** `build_packet`: status, blockers and the readiness action are each derived on their own. */
  function BuildPacket(lib: Library, probe: Probe, inputs: Inputs): Packet {
    var probeBlockers := ProbeBlockers(probe);
    var unlock := UnlockReady(lib, inputs.unlock, probe);
    var stock := inputs.stock.Some?;
    var gsi := GsiReady(inputs.gsi);
    var dsu := DsuReady(inputs.dsu);
    var fastboot := FastbootReady(lib, inputs.fastboot);
    Packet(
      if probeBlockers == [] && unlock && stock && gsi && dsu && fastboot then ReadyForReview
      else if unlock && stock then ReadyForManualGateTemplate
      else BlockedManualEvidence,
      BlockedReasons(probeBlockers, unlock, stock, gsi, dsu, fastboot),
      probeBlockers + When(!unlock || !stock || !gsi || !dsu || !fastboot, REVIEW_BLOCKED))
  }

  /** The three derivations agree with each other and with the evidence. */
  lemma PacketAgrees(lib: Library, probe: Probe, inputs: Inputs)
    ensures var packet := BuildPacket(lib, probe, inputs);
      && (packet.status == ReadyForReview <==> packet.blockedBy == [])
      && (packet.status == ReadyForReview <==> packet.reviewBlockers == [])
      && (packet.status == ReadyForReview <==> AllReady(lib, probe, inputs))
      && (packet.status == BlockedManualEvidence <==> !UnlockReady(lib, inputs.unlock, probe) || inputs.stock.None?)
      && (UnlockReady(lib, inputs.unlock, probe) || UNLOCK_MISSING in packet.blockedBy)
  {
    hide Objections, ReadyProbe, UnlockReady, GsiReady, DsuReady, FastbootReady, ProbeBlockers;
    NoProbeBlockersIff(probe);
  }
}
