/** What the producer and the loader of the unlock evidence accept, over the fields of what they
    are given. */
module UnlockFields {
  import opened EvidenceKeys
  import opened Json
  import opened Options
  import opened Results
  import opened Substrings
  import opened UnlockEvidence

  // --------------------------------------------------------- sensitive keys

  /** One step into a JSON value. */
  datatype Hop = Under(key: string) | Item(index: nat)

  ghost predicate Reaches(value: Value, path: seq<Hop>, end: Value) {
    if path == [] then value == end
    else
      match path[0]
      case Under(key) => value.Object? && key in value.fields && Reaches(value.fields[key], path[1..], end)
      case Item(index) => value.List? && index < |value.items| && Reaches(value.items[index], path[1..], end)
  }

  ghost predicate HeldAt(flagged: string -> bool, value: Value, path: seq<Hop>, end: Value, key: string) {
    Reaches(value, path, end) && end.Object? && key in end.fields && flagged(key)
  }

  /** Some object reached from `value` has a flagged key. */
  ghost predicate HoldsKey(flagged: string -> bool, value: Value) {
    exists path, end, key :: HeldAt(flagged, value, path, end, key)
  }

  lemma OneHop(flagged: string -> bool, value: Value, hop: Hop, inner: Value)
    requires Reaches(value, [hop], inner) && HoldsKey(flagged, inner)
    ensures HoldsKey(flagged, value)
  {
    var path, end, key :| HeldAt(flagged, inner, path, end, key);
    assert ([hop] + path)[1..] == path && [hop][1..] == [];
    assert HeldAt(flagged, value, [hop] + path, end, key);
  }

  lemma HeldInside(flagged: string -> bool, value: Value) returns (path: seq<Hop>, inner: Value)
    requires HoldsKey(flagged, value)
    ensures value.Object? || value.List?
    ensures path == [] ==> value.Object? && exists key <- value.fields :: flagged(key)
    ensures path != [] ==> Reaches(value, path[..1], inner) && HoldsKey(flagged, inner)
  {
    var end, key;
    path, end, key :| HeldAt(flagged, value, path, end, key);
    inner := value;
    if path != [] {
      inner := if path[0].Under? then value.fields[path[0].key] else value.items[path[0].index];
      assert path[..1][1..] == [];
      assert HeldAt(flagged, inner, path[1..], end, key);
    }
  }

  /** The search finds a flagged key exactly when there is one, at any depth. */
  lemma {:induction false} SearchIff(flagged: string -> bool, value: Value)
    ensures HasKey(flagged, value) <==> HoldsKey(flagged, value)
    decreases value
  {
    if HoldsKey(flagged, value) {
      var path, inner := HeldInside(flagged, value);
      if path != [] {
        SearchIff(flagged, inner);
      }
    }
    if HasKey(flagged, value) {
      FoundIsHeld(flagged, value);
    }
  }

  lemma {:induction false} FoundIsHeld(flagged: string -> bool, value: Value)
    requires HasKey(flagged, value)
    ensures HoldsKey(flagged, value)
    decreases value
  {
    if value.Object? {
      var key :| key in value.fields && (flagged(key) || HasKey(flagged, value.fields[key]));
      if flagged(key) {
        assert HeldAt(flagged, value, [], value, key);
      } else {
        FoundIsHeld(flagged, value.fields[key]);
        OneHop(flagged, value, Under(key), value.fields[key]);
      }
    } else {
      var i: nat :| i < |value.items| && HasKey(flagged, value.items[i]);
      FoundIsHeld(flagged, value.items[i]);
      OneHop(flagged, value, Item(i), value.items[i]);
    }
  }

  // ------------------------------------------------------------- the target

  predicate PublicKey(key: string) {
    || key == "model" || key == "codename" || key == "product"
    || key == "hardware_sku" || key == "build_fingerprint" || key == "carrier"
  }

  /** The public fields of the expected phone, all there and no other. */
  ghost predicate PublicPhone(target: map<string, string>) {
    && (forall key :: key in target <==> PublicKey(key)) && (forall key <- target :: target[key] != "")
    && Shows(target, "codename", "kansas") && Shows(target, "product", "kansas_g_sys")
    && "build_fingerprint" in target && Contains("kansas_g_sys", target["build_fingerprint"])
  }

  lemma TargetKeysAre()
    ensures forall key :: key in TARGET_KEYS <==> PublicKey(key)
  {
  }

  lemma NotEmptyText(needle: string, text: string)
    requires needle != "" && Contains(needle, text)
    ensures text != ""
  {
  }

  lemma TargetIff(target: map<string, string>)
    ensures ValidTarget(target) <==> PublicPhone(target)
  {
    TargetKeysAre();
    assert |"kansas"| == 6 && |"kansas_g_sys"| == 12;
    var fingerprint := Get(target, "build_fingerprint");
    if Contains("kansas_g_sys", fingerprint) {
      NotEmptyText("kansas_g_sys", fingerprint);
    }
    hide TARGET_KEYS, Contains, PublicKey;
  }

  /** The hash of a valid target is that of exactly its fields. */
  lemma HashOfTarget(lib: Library, target: map<string, string>)
    requires ValidTarget(target)
    ensures lib.PublicTargetSha256(target) == lib.sha256(target)
  {
    var public := map key | key in TARGET_KEYS :: Get(target, key);
    assert public.Keys == target.Keys by {
      assert forall key <- TARGET_KEYS :: Get(target, key) != "" && key in target;
    }
    assert public == target;
  }

  // ---------------------------------------------------------- what is accepted

  /** The two answers of the operator, normalised, and what they may be together. */
  predicate Answers(lib: Library, visible: bool, enabled: bool, sourceUrl: string, eligibility: string, note: string) {
    && (enabled ==> visible)
    && sourceUrl == "https://en-us.support.motorola.com/app/answers/detail/a_id/89973"
    && lib.norm(eligibility) in ["eligible", "not_eligible", "unknown"]
    && lib.norm(note) in
         ["not_checked", "checked_no_identifiers_stored", "carrier_restricted", "motorola_page_unavailable"]
  }

  /** A time text that parses. */
  ghost predicate HasTime(lib: Library, parent: Value, key: string) {
    && parent.Object? && key in parent.fields && parent.fields[key].Text?
    && lib.parse(parent.fields[key].text).Some?
  }

  predicate BoundKey(key: string) {
    key == "source_path" || key == "probe_generated_at" || key == "public_target_sha256"
  }

  /** The bound probe: its path, its time and the hash of the target, and nothing else. */
  ghost predicate BoundTo(lib: Library, binding: map<string, string>, target: map<string, string>) {
    && KeysAreBound(binding) && Shows(binding, "source_path", ".goffy-validation/rom-feasibility-current.json")
    && "probe_generated_at" in binding && lib.parse(binding["probe_generated_at"]).Some?
    && Get(binding, "public_target_sha256") == lib.sha256(target)
  }

  lemma BindingKeysAre()
    ensures forall key :: key in BINDING_KEYS <==> BoundKey(key)
    ensures BoundKey("source_path") && BoundKey("probe_generated_at")
  {
  }

  ghost predicate KeysAreBound(binding: map<string, string>) { forall key :: key in binding <==> BoundKey(key) }

  lemma BoundKeysIff(binding: map<string, string>)
    ensures KeysAreBound(binding) <==>
      (forall key <- binding :: key in BINDING_KEYS) && forall key <- BINDING_KEYS :: key in binding
  {
    BindingKeysAre();
    hide BINDING_KEYS, BoundKey;
  }

  /** Both time and path keys are there. */
  predicate HasBoth(binding: map<string, string>) { "source_path" in binding && "probe_generated_at" in binding }

  lemma BoundHasBoth(binding: map<string, string>)
    requires KeysAreBound(binding)
    ensures HasBoth(binding)
  {
    BindingKeysAre();
  }

  lemma BindingIff(lib: Library, binding: map<string, string>, target: map<string, string>)
    requires ValidTarget(target)
    ensures ValidBinding(lib, binding, target) <==> BoundTo(lib, binding, target)
  {
    HashOfTarget(lib, target);
    BoundKeysIff(binding);
    if KeysAreBound(binding) {
      BoundHasBoth(binding);
      hide BINDING_KEYS, ValidTarget, BoundKey, KeysAreBound, Library.PublicTargetSha256;
    } else {
      hide ValidTarget, BoundKey, Get, Shows, KeysAreBound, Library.PublicTargetSha256;
    }
  }

  lemma ShowsIff(values: map<string, string>, key: string, text: string)
    requires text != ""
    ensures Shows(values, key, text) <==> Get(values, key) == text
  {
  }

  lemma AnswersIff(lib: Library, visible: bool, enabled: bool, sourceUrl: string, eligibility: string, note: string)
    ensures Answers(lib, visible, enabled, sourceUrl, eligibility, note) <==>
      && ValidInputs(visible, enabled, sourceUrl)
      && Normalized(lib, eligibility, ELIGIBILITIES).Ok? && Normalized(lib, note, NOTE_CODES).Ok?
  {
  }

  predicate AnswerKey(key: string) {
    || key == "source_url" || key == "oem_unlocking_visible" || key == "oem_unlocking_enabled"
    || key == "motorola_unlock_eligibility" || key == "operator_note_code"
  }

  lemma AnswerKeysAre()
    ensures forall key :: key in UNLOCK_KEYS <==> AnswerKey(key)
  {
  }

  /** The five answers, well typed and allowed. */
  ghost predicate HoldsAnswers(lib: Library, unlock: map<string, Value>) {
    && (forall key :: key in unlock <==> AnswerKey(key))
    && exists url, visible, enabled, eligibility, note ::
         HasField(Object(unlock), "source_url", Text(url))
         && HasField(Object(unlock), "oem_unlocking_visible", Bool(visible))
         && HasField(Object(unlock), "oem_unlocking_enabled", Bool(enabled))
         && HasField(Object(unlock), "motorola_unlock_eligibility", Text(eligibility))
         && HasField(Object(unlock), "operator_note_code", Text(note))
         && Answers(lib, visible, enabled, url, eligibility, note)
  }

  lemma UnlockIff(lib: Library, time: string, target: map<string, string>, binding: map<string, string>,
                  unlock: map<string, Value>)
    ensures LoadUnlock(lib, time, target, binding, unlock).Ok? <==> HoldsAnswers(lib, unlock)
  {
    AnswerKeysAre();
    var url, visible, enabled := Field(unlock, "source_url"), Field(unlock, "oem_unlocking_visible"),
                                 Field(unlock, "oem_unlocking_enabled");
    var eligibility, note := Field(unlock, "motorola_unlock_eligibility"), Field(unlock, "operator_note_code");
    if url.Text? && visible.Bool? && enabled.Bool? && eligibility.Text? && note.Text? {
      AnswersIff(lib, visible.flag, enabled.flag, url.text, eligibility.text, note.text);
    }
    hide Answers, ValidInputs, Normalized, AnswerKey, UNLOCK_KEYS;
  }

  predicate TopKey(key: string) {
    || key == "schema_version" || key == "generated_at" || key == "target_device"
    || key == "probe_binding" || key == "unlock_eligibility"
  }

  lemma TopKeysAre()
    ensures forall key :: key in TOP_KEYS <==> TopKey(key)
  {
  }

  /** What the loader accepts. */
  ghost predicate Loadable(lib: Library, payload: Value) {
    && payload.Object? && !HoldsKey(lib.Sensitive, payload) && (forall key <- payload.fields :: TopKey(key))
    && HasField(payload, "schema_version", Text("goffy.rom-unlock-eligibility-evidence.v2"))
    && HasTime(lib, payload, "generated_at")
    && exists target, binding, unlock ::
         HasField(payload, "target_device", Object(target)) && HasField(payload, "probe_binding", Object(binding))
         && HasField(payload, "unlock_eligibility", Object(unlock))
         && PublicPhone(lib.MappingValue(target))
         && BoundTo(lib, lib.MappingValue(binding), lib.MappingValue(target)) && HoldsAnswers(lib, unlock)
  }

  lemma LoadIff(lib: Library, payload: Value)
    ensures Load(lib, payload).Ok? <==> Loadable(lib, payload)
  {
    TopKeysAre();
    SearchIff(lib.Sensitive, payload);
    hide HasKey, HoldsKey, TOP_KEYS, TopKey, PublicPhone, ValidTarget, ValidBinding, BoundTo, HoldsAnswers, LoadUnlock;
    if payload.Object? {
      var target, binding, unlock := Field(payload.fields, "target_device"), Field(payload.fields, "probe_binding"),
                                     Field(payload.fields, "unlock_eligibility");
      if target.Object? && binding.Object? && unlock.Object? {
        var t, b := lib.MappingValue(target.fields), lib.MappingValue(binding.fields);
        hide Library.MappingValue;
        TargetIff(t);
        if ValidTarget(t) {
          BindingIff(lib, b, t);
        }
        var time := Field(payload.fields, "generated_at");
        if time.Text? {
          UnlockIff(lib, time.text, t, b, unlock.fields);
        }
      }
    }
  }

  /** The object under a key, its values as texts; nothing if there is none. */
  function TextsUnder(lib: Library, parent: Value, key: string): map<string, string> {
    if parent.Object? && key in parent.fields && parent.fields[key].Object? then
      lib.MappingValue(parent.fields[key].fields)
    else map[]
  }

  /** The target device of a probe. */
  function Phone(lib: Library, probe: Value): map<string, string> {
    TargetFrom(TextsUnder(lib, probe, "device"), TextsUnder(lib, probe, "properties"))
  }

  ghost predicate Readable(lib: Library, probe: Value) {
    && probe.Object? && !HoldsKey(lib.Sensitive, probe)
    && HasField(probe, "schema_version", Text("goffy.rom-feasibility-probe.v1"))
  }

  /** What evidence can be created from. */
  ghost predicate Creatable(lib: Library, request: Request, probe: Value) {
    && Answers(lib, request.visible, request.enabled, request.sourceUrl, request.eligibility, request.noteCode)
    && Readable(lib, probe) && HasTime(lib, probe, "generated_at") && PublicPhone(Phone(lib, probe))
  }

  lemma ProbeIff(lib: Library, probe: Value)
    ensures ProbeTarget(lib, probe) == if Readable(lib, probe) then Ok(Phone(lib, probe)) else ValueError
    ensures ProbeTime(lib, probe) ==
            if Readable(lib, probe) && HasTime(lib, probe, "generated_at") then Ok(probe.fields["generated_at"].text)
            else ValueError
  {
    SearchIff(lib.Sensitive, probe);
    hide HasKey, HoldsKey, TargetFrom, Library.MappingValue;
  }

  /** Evidence is created exactly from allowed answers and a readable probe of the expected
      phone. */
  lemma CreateIff(lib: Library, request: Request, probe: Option<Value>, now: int)
    ensures Create(lib, request, probe, now).Ok? <==> probe.Some? && Creatable(lib, request, probe.value)
  {
    AnswersIff(lib, request.visible, request.enabled, request.sourceUrl, request.eligibility, request.noteCode);
    if probe.Some? {
      ProbeIff(lib, probe.value);
      TargetIff(Phone(lib, probe.value));
    }
    hide HoldsKey, Answers, ValidInputs, PublicPhone, ValidTarget, Phone, Binding, Library.PublicTargetSha256;
    hide ProbeTarget, ProbeTime, HasTime, Normalized;
  }

  /** It carries the answers, the phone, and the probe's time and the phone's hash. */
  lemma CreatedSays(lib: Library, request: Request, probe: Value, now: int)
    requires Create(lib, request, Some(probe), now).Ok?
    ensures var e := Create(lib, request, Some(probe), now).value;
      && e.generatedAt == lib.iso(now) && e.target == Phone(lib, probe)
      && e.visible == request.visible && e.enabled == request.enabled && e.sourceUrl == request.sourceUrl
      && e.eligibility == lib.norm(request.eligibility) && e.noteCode == lib.norm(request.noteCode)
      && HasTime(lib, probe, "generated_at") && BoundTo(lib, e.binding, e.target)
      && e.binding["probe_generated_at"] == probe.fields["generated_at"].text
  {
    ProbeIff(lib, probe);
    hide HoldsKey, ValidInputs, ValidTarget, Phone, Binding, Library.PublicTargetSha256, ProbeTarget, ProbeTime;
    hide Normalized, BoundTo, ValidBinding;
    var e := Create(lib, request, Some(probe), now).value;
    BindingFields(probe.fields["generated_at"].text, lib.PublicTargetSha256(e.target));
    BoundByCreation(lib, probe.fields["generated_at"].text, e.target);
  }

  lemma BoundByCreation(lib: Library, time: string, target: map<string, string>)
    requires ValidTarget(target) && lib.parse(time).Some?
    ensures BoundTo(lib, Binding(time, lib.PublicTargetSha256(target)), target)
  {
    BindingFields(time, lib.PublicTargetSha256(target));
    BindingIff(lib, Binding(time, lib.PublicTargetSha256(target)), target);
    hide Binding, ValidTarget, BoundTo, Library.PublicTargetSha256;
  }
}
