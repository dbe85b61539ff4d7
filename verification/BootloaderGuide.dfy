/** The bootloader visibility guide and the fastboot evidence it shares with the packet. */
module BootloaderGuide {
  import opened Json
  import opened Options
  import opened Results
  import Rom0Packet

  /** What `validate_fastboot_evidence` says of the file. */
  datatype Section = Section(
    ok: bool, evidence: Option<map<string, string>>, blockers: seq<string>, warnings: seq<string>)

  /** The evidence file: its path is refused, nothing is there, or it was validated. */
  datatype FastbootFile = PathRefused(message: string) | NotThere | There(section: Section)

  /** `load_fastboot_evidence` on the file: the packet's view of it. */
  function PacketView(file: FastbootFile): Option<map<string, string>> {
    if file.There? && file.section.ok then file.section.evidence else None
  }

  datatype InputStatus = Missing | Loaded | Invalid

  datatype FastbootInput = FastbootInput(status: InputStatus, accepted: map<string, string>, blockers: seq<string>)

  /** `load_fastboot_evidence_input`: the guide's view of the same file. */
  function GuideView(redact: string -> string, file: FastbootFile): Result<FastbootInput> {
    match file
    case PathRefused(_) => ValueError
    case NotThere => Ok(FastbootInput(Missing, map[], ["redacted fastboot evidence has not been created"]))
    case There(section) =>
      Ok(FastbootInput(
        if section.ok then Loaded else Invalid,
        if section.evidence.Some? then section.evidence.value else map[],
        seq(|section.blockers|, i requires 0 <= i < |section.blockers| => redact(section.blockers[i]))))
  }

  datatype Status = HostEvidenceMissing | FastbootEvidenceInvalid | ReadyForManualCheck | ManualVisible

  /** The status as the reports spell it. */
  function Spelled(status: Status): string {
    match status
    case HostEvidenceMissing => "HOST_EVIDENCE_MISSING"
    case FastbootEvidenceInvalid => "FASTBOOT_EVIDENCE_INVALID"
    case ReadyForManualCheck => "READY_FOR_MANUAL_BOOTLOADER_CHECK"
    case ManualVisible => Rom0Packet.VISIBLE
  }

  lemma SpellingsDiffer(a: Status, b: Status)
    ensures Spelled(a) == Spelled(b) <==> a == b
  {
    assert Spelled(HostEvidenceMissing)[0] == 'H' && Spelled(FastbootEvidenceInvalid)[0] == 'F';
    assert Spelled(ReadyForManualCheck)[0] == 'R' && Spelled(ManualVisible)[0] == 'M';
  }

  function GuideStatus(input: FastbootInput): Status {
    if input.status.Missing? then HostEvidenceMissing
    else if !input.status.Loaded? then FastbootEvidenceInvalid
    else if Get(input.accepted, "status") == Rom0Packet.VISIBLE then ManualVisible
    else ReadyForManualCheck
  }

  function GuideBlockers(status: Status, input: FastbootInput): seq<string> {
    match status
    case ManualVisible => []
    case HostEvidenceMissing => ["create host fastboot evidence before manual bootloader visibility"]
    case FastbootEvidenceInvalid =>
      if input.blockers != [] then input.blockers else ["fastboot evidence did not validate"]
    case ReadyForManualCheck => ["manual bootloader-mode fastboot visibility has not been recorded"]
  }

  datatype Guide = Guide(ok: bool, status: Status, blockedBy: seq<string>)

  /** `build_visibility_guide` up to its check for forbidden commands. */
  function BuildGuide(redact: string -> string, file: FastbootFile): Result<Guide> {
    var input := GuideView(redact, file);
    if input.ValueError? then ValueError
    else
      var status := GuideStatus(input.value);
      Ok(Guide(status == ManualVisible, status, GuideBlockers(status, input.value)))
  }

  /** The guide is ok exactly when it lists no blocker, and exactly when the file holds valid
      evidence that says so. */
  lemma GuideOkIff(redact: string -> string, file: FastbootFile)
    requires BuildGuide(redact, file).Ok?
    ensures var guide := BuildGuide(redact, file).value;
      && (guide.ok <==> guide.blockedBy == [])
      && (guide.ok <==> guide.status == ManualVisible)
      && (guide.ok <==> PacketView(file).Some? && Get(PacketView(file).value, "status") == Rom0Packet.VISIBLE)
      && (guide.status == HostEvidenceMissing <==> file.NotThere?)
      && (guide.status == FastbootEvidenceInvalid <==> file.There? && !file.section.ok)
  {
    assert "" != Rom0Packet.VISIBLE;
  }

  /** Packet and guide read one file and agree: the packet counts fastboot as ready exactly when
      the guide shows the bootloader and the evidence names version and device. */
  lemma PacketAndGuideAgree(lib: Rom0Packet.Library, redact: string -> string, file: FastbootFile)
    ensures Rom0Packet.FastbootReady(lib, PacketView(file)) <==>
      && PacketView(file).Some? && Rom0Packet.ShowsDevice(lib, PacketView(file).value)
      && BuildGuide(redact, file).Ok? && BuildGuide(redact, file).value.status == ManualVisible
  {
    if BuildGuide(redact, file).Ok? {
      GuideOkIff(redact, file);
    }
  }
}
