/** Unlock-eligibility evidence: what the producer writes, what the loader accepts and when the
    packet takes it as current for a probe. */
module UnlockEvidence {
  import opened EvidenceKeys
  import opened Json
  import opened Options
  import opened Results
  import opened Substrings

  const SCHEMA := "goffy.rom-unlock-eligibility-evidence.v2"
  const PROBE_SCHEMA := "goffy.rom-feasibility-probe.v1"
  const SUPPORT_URL := "https://en-us.support.motorola.com/app/answers/detail/a_id/89973"
  const CANONICAL_PROBE := ".goffy-validation/rom-feasibility-current.json"
  const CODENAME := "kansas"
  const PRODUCT := "kansas_g_sys"
  const ELIGIBILITIES := ["eligible", "not_eligible", "unknown"]
  const NOTE_CODES := ["not_checked", "checked_no_identifiers_stored", "carrier_restricted",
                       "motorola_page_unavailable"]

  /** Twenty-four hours in microseconds. */
  const MAX_AGE := 86_400_000_000

  /** The library calls: `datetime.fromisoformat` with a timezone (microseconds in UTC),
      `isoformat`, `strip().lower()`, `lower()`, SHA-256 of the canonical JSON, and `str()` of a
      JSON value. */
  datatype Library = Library(
    parse: string -> Option<int>,
    iso: int -> string,
    norm: string -> string,
    lower: string -> string,
    sha256: map<string, string> -> string,
    str: Value -> string)
  {
    /** The laws used: a rendered time reads back, normalising twice changes nothing and keeps
        the allowed values, `lower` keeps the lower-case keys, and `str` of a string is the string. */
    ghost predicate Valid() {
      && (forall t :: parse(iso(t)) == Some(t))
      && (forall s :: norm(norm(s)) == norm(s))
      && (forall s <- ELIGIBILITIES :: norm(s) == s) && (forall s <- NOTE_CODES :: norm(s) == s)
      && (forall s :: str(Text(s)) == s)
      && Keeps(TOP_KEYS) && Keeps(TARGET_KEYS) && Keeps(BINDING_KEYS) && Keeps(UNLOCK_KEYS) && Keeps(PROBE_KEYS)
    }

    ghost predicate Keeps(keys: seq<string>) { forall key <- keys :: lower(key) == key }

    /** The test of `first_sensitive_key_path` on one key. */
    predicate Sensitive(key: string) { exists term <- SENSITIVE_KEYS :: Contains(term, lower(key)) }

    ghost predicate Harmless(keys: seq<string>) { forall key <- keys :: !Sensitive(key) }

    function MappingValue(fields: map<string, Value>): map<string, string> {
      map key <- fields :: str(fields[key])
    }

    function PublicTargetSha256(target: map<string, string>): string {
      sha256(map key | key in TARGET_KEYS :: Get(target, key))
    }
  }

  datatype Evidence = Evidence(
    generatedAt: string,
    target: map<string, string>,
    binding: map<string, string>,
    sourceUrl: string,
    visible: bool,
    enabled: bool,
    eligibility: string,
    noteCode: string)

  predicate ValidTarget(target: map<string, string>) {
    && (forall key <- target :: key in TARGET_KEYS)
    && (forall key <- TARGET_KEYS :: Get(target, key) != "")
    && Get(target, "codename") == CODENAME
    && Get(target, "product") == PRODUCT
    && Contains(PRODUCT, Get(target, "build_fingerprint"))
  }

  predicate ValidInputs(visible: bool, enabled: bool, sourceUrl: string) {
    (enabled ==> visible) && sourceUrl == SUPPORT_URL
  }

  function Normalized(lib: Library, value: string, allowed: seq<string>): (r: Result<string>)
    ensures r.Ok? ==> r.value in allowed && r.value == lib.norm(value)
  {
    if lib.norm(value) in allowed then Ok(lib.norm(value)) else ValueError
  }

  // ------------------------------------------------------------ the producer

  datatype Request = Request(
    visible: bool, enabled: bool, eligibility: string, sourceUrl: string, noteCode: string)

  function MappingField(lib: Library, fields: map<string, Value>, key: string): map<string, string> {
    var value := Field(fields, key);
    if value.Object? then lib.MappingValue(value.fields) else map[]
  }

  predicate ReadableProbe(lib: Library, probe: Value) {
    && probe.Object? && !HasKey(lib.Sensitive, probe)
    && Field(probe.fields, "schema_version") == Text(PROBE_SCHEMA)
  }

  /** `load_probe_target_device`. */
  function ProbeTarget(lib: Library, probe: Value): Result<map<string, string>> {
    if !ReadableProbe(lib, probe) then ValueError
    else
      var device := MappingField(lib, probe.fields, "device");
      var properties := MappingField(lib, probe.fields, "properties");
      Ok(TargetFrom(device, properties))
  }

  function TargetFrom(device: map<string, string>, properties: map<string, string>): map<string, string> {
    map key | key in TARGET_KEYS ::
      if key == "build_fingerprint" then Get(properties, "ro.build.fingerprint") else Get(device, key)
  }

  /** `load_probe_generated_at`. */
  function ProbeTime(lib: Library, probe: Value): Result<string> {
    if !ReadableProbe(lib, probe) then ValueError
    else
      var generatedAt := Field(probe.fields, "generated_at");
      if generatedAt.Text? && lib.parse(generatedAt.text).Some? then Ok(generatedAt.text) else ValueError
  }

  /** `create_unlock_eligibility_evidence` at time `now`; `probe` is the content of the probe
      file when its path is accepted. */
  function Create(lib: Library, request: Request, probe: Option<Value>, now: int): Result<Evidence> {
    var eligibility := Normalized(lib, request.eligibility, ELIGIBILITIES);
    var noteCode := Normalized(lib, request.noteCode, NOTE_CODES);
    if eligibility.ValueError? || noteCode.ValueError? then ValueError
    else if !ValidInputs(request.visible, request.enabled, request.sourceUrl) || probe.None? then ValueError
    else
      var target := ProbeTarget(lib, probe.value);
      var time := ProbeTime(lib, probe.value);
      if target.ValueError? || !ValidTarget(target.value) || time.ValueError? then ValueError
      else
        Ok(Evidence(
          lib.iso(now), target.value,
          Binding(time.value, lib.PublicTargetSha256(target.value)),
          request.sourceUrl, request.visible, request.enabled, eligibility.value, noteCode.value))
  }

  function Binding(probeTime: string, hash: string): map<string, string> {
    map["source_path" := CANONICAL_PROBE, "probe_generated_at" := probeTime, "public_target_sha256" := hash]
  }

  function Texts(values: map<string, string>): map<string, Value> { map key <- values :: Text(values[key]) }

  function RenderedUnlock(e: Evidence): map<string, Value> {
    map["source_url" := Text(e.sourceUrl),
        "oem_unlocking_visible" := Bool(e.visible),
        "oem_unlocking_enabled" := Bool(e.enabled),
        "motorola_unlock_eligibility" := Text(e.eligibility),
        "operator_note_code" := Text(e.noteCode)]
  }

  /** The rendered evidence, as the loader decodes it. */
  function Rendered(e: Evidence): map<string, Value> {
    map["schema_version" := Text(SCHEMA),
        "generated_at" := Text(e.generatedAt),
        "target_device" := Object(Texts(e.target)),
        "probe_binding" := Object(Texts(e.binding)),
        "unlock_eligibility" := Object(RenderedUnlock(e))]
  }

  // -------------------------------------------------------------- the loader

  /** `validate_probe_binding` raises nothing. */
  predicate ValidBinding(lib: Library, binding: map<string, string>, target: map<string, string>) {
    && (forall key <- binding :: key in BINDING_KEYS)
    && (forall key <- BINDING_KEYS :: key in binding)
    && Get(binding, "source_path") == CANONICAL_PROBE
    && lib.parse(binding["probe_generated_at"]).Some?
    && Get(binding, "public_target_sha256") == lib.PublicTargetSha256(target)
  }

  /** The part of the loader that reads `unlock_eligibility`. */
  function LoadUnlock(lib: Library, generatedAt: string, target: map<string, string>,
                      binding: map<string, string>, unlock: map<string, Value>): Result<Evidence> {
    var sourceUrl := Field(unlock, "source_url");
    var visible := Field(unlock, "oem_unlocking_visible");
    var enabled := Field(unlock, "oem_unlocking_enabled");
    var eligibility := Field(unlock, "motorola_unlock_eligibility");
    var noteCode := Field(unlock, "operator_note_code");
    if (exists key <- unlock :: key !in UNLOCK_KEYS) || (exists key <- UNLOCK_KEYS :: key !in unlock) then
      ValueError
    else if !sourceUrl.Text? || !visible.Bool? || !enabled.Bool? || !eligibility.Text? || !noteCode.Text? then
      ValueError
    else
      var e := Normalized(lib, eligibility.text, ELIGIBILITIES);
      var n := Normalized(lib, noteCode.text, NOTE_CODES);
      if e.ValueError? || n.ValueError? || !ValidInputs(visible.flag, enabled.flag, sourceUrl.text) then ValueError
      else
        Ok(Evidence(generatedAt, target, binding, sourceUrl.text, visible.flag, enabled.flag, e.value, n.value))
  }

  /** `load_unlock_eligibility_evidence`. */
  function Load(lib: Library, payload: Value): Result<Evidence> {
    if !payload.Object? || HasKey(lib.Sensitive, payload) then ValueError
    else if exists key <- payload.fields :: key !in TOP_KEYS then ValueError
    else
      var generatedAt := Field(payload.fields, "generated_at");
      var target := Field(payload.fields, "target_device");
      var binding := Field(payload.fields, "probe_binding");
      var unlock := Field(payload.fields, "unlock_eligibility");
      if !generatedAt.Text? || lib.parse(generatedAt.text).None? then ValueError
      else if Field(payload.fields, "schema_version") != Text(SCHEMA) then ValueError
      else if !target.Object? || !ValidTarget(lib.MappingValue(target.fields)) then ValueError
      else if !binding.Object?
           || !ValidBinding(lib, lib.MappingValue(binding.fields), lib.MappingValue(target.fields)) then ValueError
      else if !unlock.Object? then ValueError
      else
        LoadUnlock(lib, generatedAt.text, lib.MappingValue(target.fields), lib.MappingValue(binding.fields),
                   unlock.fields)
  }

  // -------------------------------------------------------------- round trip

  /** What every created and every loaded evidence satisfies. */
  ghost predicate WellFormed(lib: Library, e: Evidence) {
    && lib.parse(e.generatedAt).Some?
    && ValidTarget(e.target) && ValidBinding(lib, e.binding, e.target)
    && ValidInputs(e.visible, e.enabled, e.sourceUrl)
    && e.eligibility in ELIGIBILITIES && lib.norm(e.eligibility) == e.eligibility
    && e.noteCode in NOTE_CODES && lib.norm(e.noteCode) == e.noteCode
  }

  lemma LoadedIsWellFormed(lib: Library, payload: Value)
    requires lib.Valid() && Load(lib, payload).Ok?
    ensures WellFormed(lib, Load(lib, payload).value)
  {
  }

  lemma BindingFields(probeTime: string, hash: string)
    ensures var binding := Binding(probeTime, hash);
      && Get(binding, "source_path") == CANONICAL_PROBE
      && "probe_generated_at" in binding && binding["probe_generated_at"] == probeTime
      && Get(binding, "public_target_sha256") == hash
      && (forall key :: key in binding <==> key in BINDING_KEYS)
  {
    assert "source_path"[0] == 's' && "probe_generated_at"[1] == 'r' && "public_target_sha256"[1] == 'u';
  }

  lemma CreatedIsWellFormed(lib: Library, request: Request, probe: Option<Value>, now: int)
    requires lib.Valid() && Create(lib, request, probe, now).Ok?
    ensures WellFormed(lib, Create(lib, request, probe, now).value)
  {
    hide Binding, ReadableProbe, ValidTarget;
    BindingFields(ProbeTime(lib, probe.value).value,
                  lib.PublicTargetSha256(ProbeTarget(lib, probe.value).value));
  }

  lemma UnlockFieldsReadBack(e: Evidence)
    ensures var unlock := RenderedUnlock(e);
      && Field(unlock, "source_url") == Text(e.sourceUrl)
      && Field(unlock, "oem_unlocking_visible") == Bool(e.visible)
      && Field(unlock, "oem_unlocking_enabled") == Bool(e.enabled)
      && Field(unlock, "motorola_unlock_eligibility") == Text(e.eligibility)
      && Field(unlock, "operator_note_code") == Text(e.noteCode)
      && (forall key :: key in unlock <==> key in UNLOCK_KEYS)
      && (forall key <- unlock :: unlock[key].Text? || unlock[key].Bool?)
  {
    assert |"source_url"| == 10 && |"oem_unlocking_visible"| == 21 && "oem_unlocking_visible"[14] == 'v';
    assert |"motorola_unlock_eligibility"| == 27 && |"operator_note_code"| == 18 && "oem_unlocking_enabled"[14] == 'e';
  }

  lemma TopFieldsReadBack(e: Evidence)
    ensures var top := Rendered(e);
      && Field(top, "schema_version") == Text(SCHEMA)
      && Field(top, "generated_at") == Text(e.generatedAt)
      && Field(top, "target_device") == Object(Texts(e.target))
      && Field(top, "probe_binding") == Object(Texts(e.binding))
      && Field(top, "unlock_eligibility") == Object(RenderedUnlock(e))
      && (forall key :: key in top <==> key in TOP_KEYS)
      && (forall key <- top ::
            top[key].Text?
            || top[key] in {Object(Texts(e.target)), Object(Texts(e.binding)), Object(RenderedUnlock(e))})
  {
    hide RenderedUnlock, Texts;
    assert "schema_version"[0] == 's' && "generated_at"[0] == 'g' && "target_device"[0] == 't';
    assert "probe_binding"[0] == 'p' && "unlock_eligibility"[0] == 'u';
  }

  lemma TextsReadBack(lib: Library, values: map<string, string>)
    requires lib.Valid()
    ensures lib.MappingValue(Texts(values)) == values
  {
  }

  /** No key the producer writes, or reads from the probe, holds a sensitive term. */
  lemma WrittenKeysAreHarmless(lib: Library)
    requires lib.Valid()
    ensures lib.Harmless(TOP_KEYS) && lib.Harmless(TARGET_KEYS) && lib.Harmless(BINDING_KEYS)
    ensures lib.Harmless(UNLOCK_KEYS) && lib.Harmless(PROBE_KEYS)
  {
    hide Unmarked, Contains;
    forall key | key in TOP_KEYS ensures !lib.Sensitive(key) {
      TopKeysAreUnmarked(key);
      UnmarkedIsHarmless(key);
    }
    forall key | key in TARGET_KEYS ensures !lib.Sensitive(key) {
      TargetKeysAreUnmarked(key);
      UnmarkedIsHarmless(key);
    }
    forall key | key in BINDING_KEYS ensures !lib.Sensitive(key) {
      BindingKeysAreUnmarked(key);
      UnmarkedIsHarmless(key);
    }
    forall key | key in UNLOCK_KEYS ensures !lib.Sensitive(key) {
      UnlockKeysAreUnmarked(key);
      UnmarkedIsHarmless(key);
    }
    forall key | key in PROBE_KEYS ensures !lib.Sensitive(key) {
      ProbeKeysAreUnmarked(key);
      UnmarkedIsHarmless(key);
    }
  }

  /** An object of plain values under harmless keys holds no sensitive key. */
  lemma FlatIsHarmless(lib: Library, fields: map<string, Value>, keys: seq<string>)
    requires lib.Harmless(keys) && forall key <- fields :: key in keys
    requires forall key <- fields :: fields[key].Text? || fields[key].Bool?
    ensures !HasKey(lib.Sensitive, Object(fields))
  {
  }

  lemma NestedIsHarmless(lib: Library, fields: map<string, Value>, keys: seq<string>)
    requires lib.Harmless(keys) && forall key <- fields :: key in keys
    requires forall key <- fields :: fields[key].Text? || !HasKey(lib.Sensitive, fields[key])
    ensures !HasKey(lib.Sensitive, Object(fields))
  {
  }

  lemma NoSensitiveKey(lib: Library, e: Evidence)
    requires lib.Valid()
    requires (forall key <- e.target :: key in TARGET_KEYS) && forall key <- e.binding :: key in BINDING_KEYS
    ensures !HasKey(lib.Sensitive, Object(Rendered(e)))
  {
    hide Rendered, RenderedUnlock, HasKey, Contains, Get;
    WrittenKeysAreHarmless(lib);
    UnlockFieldsReadBack(e);
    TopFieldsReadBack(e);
    FlatIsHarmless(lib, RenderedUnlock(e), UNLOCK_KEYS);
    FlatIsHarmless(lib, Texts(e.target), TARGET_KEYS);
    FlatIsHarmless(lib, Texts(e.binding), BINDING_KEYS);
    NestedIsHarmless(lib, Rendered(e), TOP_KEYS);
  }

  lemma KeysOfWellFormed(lib: Library, e: Evidence)
    requires WellFormed(lib, e)
    ensures (forall key <- e.target :: key in TARGET_KEYS) && forall key <- e.binding :: key in BINDING_KEYS
  {
  }

  lemma UnlockLoadsBack(lib: Library, e: Evidence)
    requires WellFormed(lib, e)
    ensures LoadUnlock(lib, e.generatedAt, e.target, e.binding, RenderedUnlock(e)) == Ok(e)
  {
    hide RenderedUnlock, ValidTarget, ValidBinding;
    UnlockFieldsReadBack(e);
  }

  /** What is well formed is written and read without loss. */
  lemma RenderedLoadsBack(lib: Library, e: Evidence)
    requires lib.Valid() && WellFormed(lib, e)
    ensures Load(lib, Object(Rendered(e))) == Ok(e)
  {
    hide Rendered, RenderedUnlock, Texts, HasKey, ValidTarget, ValidBinding, ValidInputs, LoadUnlock;
    KeysOfWellFormed(lib, e);
    NoSensitiveKey(lib, e);
    UnlockLoadsBack(lib, e);
    TopFieldsReadBack(e);
    TextsReadBack(lib, e.target);
    TextsReadBack(lib, e.binding);
  }

  lemma CreatedLoadsBack(lib: Library, request: Request, probe: Option<Value>, now: int)
    requires lib.Valid() && Create(lib, request, probe, now).Ok?
    ensures Load(lib, Object(Rendered(Create(lib, request, probe, now).value))) == Create(lib, request, probe, now)
  {
    hide *;
    CreatedIsWellFormed(lib, request, probe, now);
    RenderedLoadsBack(lib, Create(lib, request, probe, now).value);
  }

  // ------------------------------------------------ evidence against a probe

  /** What the packet looks at: either object may be missing from the evidence. */
  datatype Claim = Claim(target: Option<map<string, string>>, binding: Option<map<string, string>>, generatedAt: string)

  function ClaimOf(e: Evidence): Claim { Claim(Some(e.target), Some(e.binding), e.generatedAt) }

  datatype Blocker =
    | TargetMissing
    | TargetMismatch(key: string)
    | BindingMissing
    | HashMismatch
    | PathNotCanonical
    | BindingTimeMissing
    | BindingTimeUnreadable
    | EvidenceTimeUnreadable
    | ProbeTimeUnreadable
    | PrecedesBoundProbe
    | NewerThanProbeWindow
    | StaleForProbe

  function BindingTime(lib: Library, claim: Claim): Option<int> {
    if claim.binding.Some? && "probe_generated_at" in claim.binding.value then
      lib.parse(claim.binding.value["probe_generated_at"])
    else None
  }

  /** When the check reports a blocker. */
  predicate Applies(lib: Library, claim: Claim, target: map<string, string>, probeTime: string, b: Blocker) {
    var bound := BindingTime(lib, claim);
    var evidence := lib.parse(claim.generatedAt);
    var current := lib.parse(probeTime);
    if claim.target.None? then b == TargetMissing
    else match b
      case TargetMissing => false
      case TargetMismatch(key) => key in TARGET_KEYS && Get(claim.target.value, key) != Get(target, key)
      case BindingMissing => claim.binding.None?
      case HashMismatch =>
        claim.binding.Some? && Get(claim.binding.value, "public_target_sha256") != lib.PublicTargetSha256(target)
      case PathNotCanonical => claim.binding.Some? && Get(claim.binding.value, "source_path") != CANONICAL_PROBE
      case BindingTimeMissing => claim.binding.Some? && "probe_generated_at" !in claim.binding.value
      case BindingTimeUnreadable =>
        claim.binding.Some? && "probe_generated_at" in claim.binding.value && bound.None?
      case EvidenceTimeUnreadable => evidence.None?
      case ProbeTimeUnreadable => current.None?
      case PrecedesBoundProbe =>
        evidence.Some? && current.Some? && bound.Some? && evidence.value < bound.value
      case NewerThanProbeWindow => evidence.Some? && current.Some? && evidence.value - current.value > MAX_AGE
      case StaleForProbe => evidence.Some? && current.Some? && current.value - evidence.value > MAX_AGE
  }

  /** The evidence is about this device and close enough in time to this probe. */
  predicate Current(lib: Library, claim: Claim, target: map<string, string>, probeTime: string) {
    && claim.target.Some? && claim.binding.Some?
    && (forall key <- TARGET_KEYS :: Get(claim.target.value, key) == Get(target, key))
    && Get(claim.binding.value, "public_target_sha256") == lib.PublicTargetSha256(target)
    && Get(claim.binding.value, "source_path") == CANONICAL_PROBE
    && BindingTime(lib, claim).Some? && lib.parse(claim.generatedAt).Some? && lib.parse(probeTime).Some?
    && -MAX_AGE <= lib.parse(claim.generatedAt).value - lib.parse(probeTime).value <= MAX_AGE
    && BindingTime(lib, claim).value <= lib.parse(claim.generatedAt).value
  }

  lemma CurrentIffNothingApplies(lib: Library, claim: Claim, target: map<string, string>, probeTime: string)
    ensures Current(lib, claim, target, probeTime) <==>
            forall b :: !Applies(lib, claim, target, probeTime, b)
  {
    if Current(lib, claim, target, probeTime) {
      CurrentBlocksNothing(lib, claim, target, probeTime);
    }
    if forall b :: !Applies(lib, claim, target, probeTime, b) {
      UnblockedIsCurrent(lib, claim, target, probeTime);
    }
    hide Current, Applies;
  }

  lemma CurrentBlocksNothing(lib: Library, claim: Claim, target: map<string, string>, probeTime: string)
    requires Current(lib, claim, target, probeTime)
    ensures forall b :: !Applies(lib, claim, target, probeTime, b)
  {
    hide Get;
  }

  lemma UnblockedIsCurrent(lib: Library, claim: Claim, target: map<string, string>, probeTime: string)
    requires forall b :: !Applies(lib, claim, target, probeTime, b)
    ensures Current(lib, claim, target, probeTime)
  {
    assert !Applies(lib, claim, target, probeTime, TargetMissing);
    assert !Applies(lib, claim, target, probeTime, BindingMissing);
    assert !Applies(lib, claim, target, probeTime, HashMismatch);
    assert !Applies(lib, claim, target, probeTime, PathNotCanonical);
    assert !Applies(lib, claim, target, probeTime, BindingTimeMissing);
    assert !Applies(lib, claim, target, probeTime, BindingTimeUnreadable);
    assert !Applies(lib, claim, target, probeTime, EvidenceTimeUnreadable);
    assert !Applies(lib, claim, target, probeTime, ProbeTimeUnreadable);
    assert !Applies(lib, claim, target, probeTime, PrecedesBoundProbe);
    assert !Applies(lib, claim, target, probeTime, NewerThanProbeWindow);
    assert !Applies(lib, claim, target, probeTime, StaleForProbe);
    hide Get;
    forall key | key in TARGET_KEYS ensures Get(claim.target.value, key) == Get(target, key) {
      assert !Applies(lib, claim, target, probeTime, TargetMismatch(key));
    }
  }

  predicate OfBinding(b: Blocker) {
    || b.BindingMissing? || b.HashMismatch? || b.PathNotCanonical?
    || b.BindingTimeMissing? || b.BindingTimeUnreadable?
  }

  method TargetBlockers(lib: Library, claim: Claim, target: map<string, string>, probeTime: string)
    returns (blockers: seq<Blocker>)
    requires claim.target.Some?
    ensures forall b :: b in blockers <==> b.TargetMismatch? && Applies(lib, claim, target, probeTime, b)
  {
    blockers := [];
    var i := 0;
    while i < |TARGET_KEYS|
      invariant 0 <= i <= |TARGET_KEYS|
      invariant forall b :: b in blockers <==>
        b.TargetMismatch? && b.key in TARGET_KEYS[..i] && Get(claim.target.value, b.key) != Get(target, b.key)
    {
      var key := TARGET_KEYS[i];
      assert TARGET_KEYS[..i + 1] == TARGET_KEYS[..i] + [key];
      if Get(claim.target.value, key) != Get(target, key) {
        blockers := blockers + [TargetMismatch(key)];
      }
      i := i + 1;
    }
    assert TARGET_KEYS[..i] == TARGET_KEYS;
  }

  method BindingBlockers(lib: Library, claim: Claim, target: map<string, string>, probeTime: string)
    returns (blockers: seq<Blocker>, bound: Option<int>)
    requires claim.target.Some?
    ensures bound == BindingTime(lib, claim)
    ensures forall b :: b in blockers <==> OfBinding(b) && Applies(lib, claim, target, probeTime, b)
  {
    bound := None;
    if claim.binding.None? {
      return [BindingMissing], bound;
    }
    blockers := [];
    var binding := claim.binding.value;
    if Get(binding, "public_target_sha256") != lib.PublicTargetSha256(target) {
      blockers := blockers + [HashMismatch];
    }
    if Get(binding, "source_path") != CANONICAL_PROBE {
      blockers := blockers + [PathNotCanonical];
    }
    if "probe_generated_at" !in binding {
      blockers := blockers + [BindingTimeMissing];
    } else {
      bound := lib.parse(binding["probe_generated_at"]);
      if bound.None? {
        blockers := blockers + [BindingTimeUnreadable];
      }
    }
  }

  method TimeBlockers(lib: Library, claim: Claim, target: map<string, string>, probeTime: string, bound: Option<int>)
    returns (blockers: seq<Blocker>)
    requires claim.target.Some? && bound == BindingTime(lib, claim)
    ensures forall b :: b in blockers <==>
      !b.TargetMismatch? && !OfBinding(b) && Applies(lib, claim, target, probeTime, b)
  {
    hide BindingTime;
    blockers := [];
    var evidence := lib.parse(claim.generatedAt);
    if evidence.None? {
      blockers := blockers + [EvidenceTimeUnreadable];
    }
    var current := lib.parse(probeTime);
    if current.None? {
      blockers := blockers + [ProbeTimeUnreadable];
    }
    if evidence.Some? && current.Some? {
      if bound.Some? && evidence.value < bound.value {
        blockers := blockers + [PrecedesBoundProbe];
      }
      if evidence.value - current.value > MAX_AGE {
        blockers := blockers + [NewerThanProbeWindow];
      }
      if current.value - evidence.value > MAX_AGE {
        blockers := blockers + [StaleForProbe];
      }
    }
  }

  /** `unlock_evidence_probe_blockers`: the blockers that apply, and none exactly when the
      evidence is current. */
  method ProbeBlockers(lib: Library, claim: Claim, target: map<string, string>, probeTime: string)
    returns (blockers: seq<Blocker>)
    ensures forall b :: b in blockers <==> Applies(lib, claim, target, probeTime, b)
    ensures blockers == [] <==> Current(lib, claim, target, probeTime)
  {
    hide Current, BindingTime;
    CurrentIffNothingApplies(lib, claim, target, probeTime);
    if claim.target.None? {
      blockers := [TargetMissing];
      assert blockers[0] in blockers;
      return;
    }
    hide Applies;
    blockers := TargetBlockers(lib, claim, target, probeTime);
    var ofBinding, bound := BindingBlockers(lib, claim, target, probeTime);
    var ofTime := TimeBlockers(lib, claim, target, probeTime, bound);
    blockers := blockers + ofBinding + ofTime;
    assert blockers != [] ==> blockers[0] in blockers;
  }

  /** Evidence just created from a probe is current for that probe exactly when the clock did
      not run backwards since the probe and at most a day went by. */
  lemma CreatedIsCurrentIff(lib: Library, request: Request, probe: Value, now: int)
    requires lib.Valid() && Create(lib, request, Some(probe), now).Ok?
    ensures var e := Create(lib, request, Some(probe), now).value;
      && ProbeTarget(lib, probe).Ok? && ProbeTime(lib, probe).Ok?
      && var time := lib.parse(ProbeTime(lib, probe).value);
         && time.Some?
         && (Current(lib, ClaimOf(e), ProbeTarget(lib, probe).value, ProbeTime(lib, probe).value)
             <==> time.value <= now <= time.value + MAX_AGE)
  {
    hide Binding, ReadableProbe, ValidTarget, ValidInputs, Normalized, ProbeTarget, Get;
    var e := Create(lib, request, Some(probe), now).value;
    assert e.generatedAt == lib.iso(now) && e.target == ProbeTarget(lib, probe).value;
    BindingFields(ProbeTime(lib, probe).value, lib.PublicTargetSha256(ProbeTarget(lib, probe).value));
  }

  // ------------------------------------------------------------ a real probe

  const SAMPLE_REQUEST := Request(true, true, "eligible", SUPPORT_URL, "not_checked")

  function SampleDevice(): map<string, string> {
    map["model" := "moto g", "codename" := CODENAME, "product" := PRODUCT, "hardware_sku" := "XT2513",
        "carrier" := "retail"]
  }

  function SampleProperties(): map<string, string> { map["ro.build.fingerprint" := PRODUCT] }

  function SampleProbe(lib: Library, time: int): map<string, Value> {
    map["schema_version" := Text(PROBE_SCHEMA), "generated_at" := Text(lib.iso(time)),
        "device" := Object(Texts(SampleDevice())),
        "properties" := Object(Texts(SampleProperties()))]
  }

  lemma SampleFields(lib: Library, time: int)
    ensures var probe := SampleProbe(lib, time);
      && Field(probe, "schema_version") == Text(PROBE_SCHEMA)
      && Field(probe, "generated_at") == Text(lib.iso(time))
      && Field(probe, "device") == Object(Texts(SampleDevice()))
      && Field(probe, "properties") == Object(Texts(SampleProperties()))
      && (forall key <- probe :: key in TOP_KEYS + PROBE_KEYS)
      && (forall key <- probe ::
            probe[key].Text?
            || probe[key] in {Field(probe, "device"), Field(probe, "properties")})
  {
    hide SampleDevice, SampleProperties, Texts;
    assert "schema_version"[0] == 's' && "generated_at"[0] == 'g' && "device"[0] == 'd' && "properties"[0] == 'p';
    assert TOP_KEYS[0] == "schema_version" && TOP_KEYS[1] == "generated_at";
    assert PROBE_KEYS[0] == "device" && PROBE_KEYS[1] == "properties";
  }

  lemma SampleDeviceFields()
    ensures var device := SampleDevice();
      && Get(device, "codename") == CODENAME && Get(device, "product") == PRODUCT
      && (forall key <- device :: key in TARGET_KEYS)
      && (forall key <- TARGET_KEYS :: key == "build_fingerprint" || Get(device, key) != "")
  {
    assert "model"[0] == 'm' && "codename"[1] == 'o' && "product"[0] == 'p' && "hardware_sku"[0] == 'h';
    assert "carrier"[1] == 'a' && "build_fingerprint"[0] == 'b';
  }

  lemma SampleIsReadable(lib: Library, time: int)
    requires lib.Valid()
    ensures ReadableProbe(lib, Object(SampleProbe(lib, time)))
  {
    hide SampleProbe, SampleDevice, HasKey, Get;
    WrittenKeysAreHarmless(lib);
    SampleFields(lib, time);
    SampleDeviceFields();
    FlatIsHarmless(lib, Texts(SampleDevice()), TARGET_KEYS);
    assert PROBE_KEYS[2] == "ro.build.fingerprint";
    FlatIsHarmless(lib, Texts(SampleProperties()), PROBE_KEYS);
    NestedIsHarmless(lib, SampleProbe(lib, time), TOP_KEYS + PROBE_KEYS);
  }

  lemma TargetFromIsValid(device: map<string, string>, properties: map<string, string>)
    requires Get(device, "codename") == CODENAME && Get(device, "product") == PRODUCT
    requires forall key <- TARGET_KEYS :: key == "build_fingerprint" || Get(device, key) != ""
    requires Get(properties, "ro.build.fingerprint") == PRODUCT
    ensures ValidTarget(TargetFrom(device, properties))
  {
    var target := TargetFrom(device, properties);
    assert TARGET_KEYS[1] == "codename" && TARGET_KEYS[2] == "product" && TARGET_KEYS[4] == "build_fingerprint";
    assert "codename"[0] == 'c' && "product"[0] == 'p' && "build_fingerprint"[0] == 'b';
    assert ContainsAt(PRODUCT, PRODUCT, 0);
    assert PRODUCT != "";
    hide Contains;
  }

  lemma SampleTargetIsValid(lib: Library, time: int)
    requires lib.Valid()
    ensures ProbeTarget(lib, Object(SampleProbe(lib, time))) == Ok(TargetFrom(SampleDevice(), SampleProperties()))
    ensures ValidTarget(TargetFrom(SampleDevice(), SampleProperties()))
  {
    hide ReadableProbe, SampleProbe, SampleDevice, SampleProperties, Texts, ValidTarget, TargetFrom, Get;
    SampleIsReadable(lib, time);
    SampleFields(lib, time);
    SampleDeviceFields();
    TextsReadBack(lib, SampleDevice());
    TextsReadBack(lib, SampleProperties());
    OneProperty();
    TargetFromIsValid(SampleDevice(), SampleProperties());
  }

  lemma OneProperty()
    ensures Get(SampleProperties(), "ro.build.fingerprint") == PRODUCT
  {
  }

  lemma SampleIsCreated(lib: Library, time: int, now: int)
    requires lib.Valid()
    ensures var probe := Object(SampleProbe(lib, time));
      && ProbeTime(lib, probe) == Ok(lib.iso(time))
      && Create(lib, SAMPLE_REQUEST, Some(probe), now).Ok?
  {
    hide ReadableProbe, SampleProbe, ValidTarget, ProbeTarget, Binding;
    SampleIsReadable(lib, time);
    SampleFields(lib, time);
    SampleTargetIsValid(lib, time);
    assert ELIGIBILITIES[0] == "eligible" && NOTE_CODES[0] == "not_checked";
  }

  /** From one probe the producer makes evidence at every time; a clock a microsecond behind
      the probe's, or a day and a microsecond later, makes it unusable for that probe. */
  lemma SampleIsRefused(lib: Library, time: int, now: int)
    requires lib.Valid() && now in {time - 1, time + MAX_AGE + 1}
    ensures var probe := Object(SampleProbe(lib, time)); var created := Create(lib, SAMPLE_REQUEST, Some(probe), now);
      && created.Ok? && ProbeTarget(lib, probe).Ok? && ProbeTime(lib, probe).Ok?
      && !Current(lib, ClaimOf(created.value), ProbeTarget(lib, probe).value, ProbeTime(lib, probe).value)
  {
    hide Create, SampleProbe, Current, ProbeTarget, ProbeTime;
    SampleIsCreated(lib, time, now);
    CreatedIsCurrentIff(lib, SAMPLE_REQUEST, Object(SampleProbe(lib, time)), now);
  }
}
