/** The keys of the unlock evidence, and the search for sensitive ones. */
module EvidenceKeys {
  import opened Substrings

  const SENSITIVE_KEYS := [
    "android_id", "bluetooth", "credential", "iccid", "imei", "imsi", "meid", "msisdn", "password", "phone_number",
    "secret", "serial", "sim_serial", "subscriber", "token", "wifi_mac"]

  /** Pairs of letters, chosen so that each sensitive term holds one and no key of the
      evidence does. */
  predicate Marked(c: char, d: char) {
    || (c == 'i' && (d == 'd' || d == 'm')) || (c == 's' && (d == 'e' || d == 's')) || (c == 'c' && d == 'r')
    || (c == 'm' && d == 's') || (c == 'p' && d == 'h') || (c == 'o' && (d == 'k' || d == 'o')) || (c == 'w' && d == 'i')
  }

  predicate MarkedAt(s: string, i: nat) { i + 1 < |s| && Marked(s[i], s[i + 1]) }

  /** A text without a marked pair. */
  predicate Unmarked(s: string) { forall i :: 0 <= i < |s| - 1 ==> !Marked(s[i], s[i + 1]) }

  /** Such a text holds no sensitive term. */
  lemma UnmarkedIsHarmless(text: string)
    requires Unmarked(text)
    ensures forall term <- SENSITIVE_KEYS :: !Contains(term, text)
  {
    forall term | term in SENSITIVE_KEYS ensures !Contains(term, text) {
      var j := MarkOf(term);
      forall i: nat | i <= |text| ensures !ContainsAt(term, text, i) {
        if ContainsAt(term, text, i) {
          MarkMoves(term, text, i, j);
        }
      }
    }
  }

  lemma MarkMoves(term: string, text: string, i: nat, j: nat)
    requires i <= |text| && ContainsAt(term, text, i) && MarkedAt(term, j)
    ensures MarkedAt(text, i + j)
  {
    assert term[j] == text[i..][j] && term[j + 1] == text[i..][j + 1];
  }

  lemma MarkOf(term: string) returns (j: nat)
    requires term in SENSITIVE_KEYS
    ensures MarkedAt(term, j)
  {
    if term == "android_id" {
      j := 5;
    } else if term == "bluetooth" {
      j := 5;
    } else if term == "credential" {
      j := 0;
    } else if term == "iccid" {
      j := 3;
    } else if term == "imei" {
      j := 0;
    } else if term == "imsi" {
      j := 0;
    } else if term == "meid" {
      j := 2;
    } else if term == "msisdn" {
      j := 0;
    } else if term == "password" {
      j := 2;
    } else if term == "phone_number" {
      j := 0;
    } else if term == "secret" {
      j := 0;
    } else if term == "serial" {
      j := 0;
    } else if term == "sim_serial" {
      j := 1;
    } else if term == "subscriber" {
      j := 4;
    } else if term == "token" {
      j := 1;
    } else {
      assert term == "wifi_mac";
      j := 0;
    }
  }

  /** The top-level keys of the unlock evidence. */
  const TOP_KEYS := [
    "schema_version", "generated_at", "target_device", "probe_binding", "unlock_eligibility"]

  lemma TopKeysAreUnmarked(key: string)
    requires key in TOP_KEYS
    ensures Unmarked(key)
  {
    hide Unmarked;
    if key == "schema_version" {
      SchemaVersionIsUnmarked(key);
    } else if key == "generated_at" {
      GeneratedAtIsUnmarked(key);
    } else if key == "target_device" {
      TargetDeviceIsUnmarked(key);
    } else if key == "probe_binding" {
      ProbeBindingIsUnmarked(key);
    } else if key == "unlock_eligibility" {
      UnlockEligibilityIsUnmarked(key);
    }
  }

  /** The keys of a target device. */
  const TARGET_KEYS := [
    "model", "codename", "product", "hardware_sku", "build_fingerprint", "carrier"]

  lemma TargetKeysAreUnmarked(key: string)
    requires key in TARGET_KEYS
    ensures Unmarked(key)
  {
    hide Unmarked;
    if key == "hardware_sku" {
      HardwareSkuIsUnmarked(key);
    } else if key == "build_fingerprint" {
      BuildFingerprintIsUnmarked(key);
    } else {
      DeviceWordsAreUnmarked(key);
    }
  }

  /** The keys of a probe binding. */
  const BINDING_KEYS := [
    "source_path", "probe_generated_at", "public_target_sha256"]

  lemma BindingKeysAreUnmarked(key: string)
    requires key in BINDING_KEYS
    ensures Unmarked(key)
  {
    hide Unmarked;
    if key == "source_path" {
      SourcePathAndSourceUrlAreUnmarked(key);
    } else if key == "probe_generated_at" {
      ProbeGeneratedAtIsUnmarked(key);
    } else if key == "public_target_sha256" {
      PublicTargetSha256IsUnmarked(key);
    }
  }

  /** The keys of the eligibility object. */
  const UNLOCK_KEYS := [
    "source_url", "oem_unlocking_visible", "oem_unlocking_enabled", "motorola_unlock_eligibility", "operator_note_code"]

  lemma UnlockKeysAreUnmarked(key: string)
    requires key in UNLOCK_KEYS
    ensures Unmarked(key)
  {
    hide Unmarked;
    if key == "source_url" {
      SourcePathAndSourceUrlAreUnmarked(key);
    } else if key == "oem_unlocking_visible" {
      OemUnlockingVisibleIsUnmarked(key);
    } else if key == "oem_unlocking_enabled" {
      OemUnlockingEnabledIsUnmarked(key);
    } else if key == "motorola_unlock_eligibility" {
      MotorolaUnlockEligibilityIsUnmarked(key);
    } else if key == "operator_note_code" {
      OperatorNoteCodeIsUnmarked(key);
    }
  }

  /** Further keys of a probe that are read. */
  const PROBE_KEYS := [
    "device", "properties", "ro.build.fingerprint"]

  lemma ProbeKeysAreUnmarked(key: string)
    requires key in PROBE_KEYS
    ensures Unmarked(key)
  {
    hide Unmarked;
    if key == "ro.build.fingerprint" {
      RoBuildFingerprintIsUnmarked(key);
    } else {
      DeviceAndPropertiesAreUnmarked(key);
    }
  }

  // ----------------------------------------------------------- key by key

  // Unfolding a text costs the solver by its length, and several long ones at once are too
  // much for one proof: the long keys have a lemma each, the short ones share.

  lemma DeviceWordsAreUnmarked(s: string)
    requires s == "model" || s == "codename" || s == "product" || s == "carrier"
    ensures Unmarked(s)
  {
    if s == "model" {
      assert |s| == 5;
    } else if s == "codename" {
      assert |s| == 8;
    } else if s == "product" {
      assert |s| == 7;
    } else if s == "carrier" {
      assert |s| == 7;
    }
  }

  lemma DeviceAndPropertiesAreUnmarked(s: string)
    requires s == "device" || s == "properties"
    ensures Unmarked(s)
  {
    if s == "device" {
      assert |s| == 6;
    } else if s == "properties" {
      assert |s| == 10;
    }
  }

  lemma SourcePathAndSourceUrlAreUnmarked(s: string)
    requires s == "source_path" || s == "source_url"
    ensures Unmarked(s)
  {
    if s == "source_path" {
      assert |s| == 11;
    } else if s == "source_url" {
      assert |s| == 10;
    }
  }

  lemma GeneratedAtIsUnmarked(s: string)
    requires s == "generated_at"
    ensures Unmarked(s)
  {
    assert |s| == 12;
  }

  lemma SchemaVersionIsUnmarked(s: string)
    requires s == "schema_version"
    ensures Unmarked(s)
  {
    assert |s| == 14;
  }

  lemma TargetDeviceIsUnmarked(s: string)
    requires s == "target_device"
    ensures Unmarked(s)
  {
    assert |s| == 13;
  }

  lemma ProbeBindingIsUnmarked(s: string)
    requires s == "probe_binding"
    ensures Unmarked(s)
  {
    assert |s| == 13;
  }

  lemma UnlockEligibilityIsUnmarked(s: string)
    requires s == "unlock_eligibility"
    ensures Unmarked(s)
  {
    assert |s| == 18;
  }

  lemma HardwareSkuIsUnmarked(s: string)
    requires s == "hardware_sku"
    ensures Unmarked(s)
  {
    assert |s| == 12;
  }

  lemma BuildFingerprintIsUnmarked(s: string)
    requires s == "build_fingerprint"
    ensures Unmarked(s)
  {
    assert |s| == 17;
  }

  lemma ProbeGeneratedAtIsUnmarked(s: string)
    requires s == "probe_generated_at"
    ensures Unmarked(s)
  {
    assert |s| == 18;
  }

  lemma PublicTargetSha256IsUnmarked(s: string)
    requires s == "public_target_sha256"
    ensures Unmarked(s)
  {
    assert |s| == 20;
  }

  lemma OemUnlockingVisibleIsUnmarked(s: string)
    requires s == "oem_unlocking_visible"
    ensures Unmarked(s)
  {
    assert |s| == 21;
  }

  lemma OemUnlockingEnabledIsUnmarked(s: string)
    requires s == "oem_unlocking_enabled"
    ensures Unmarked(s)
  {
    assert |s| == 21;
  }

  lemma MotorolaUnlockEligibilityIsUnmarked(s: string)
    requires s == "motorola_unlock_eligibility"
    ensures Unmarked(s)
  {
    assert |s| == 27;
  }

  lemma OperatorNoteCodeIsUnmarked(s: string)
    requires s == "operator_note_code"
    ensures Unmarked(s)
  {
    assert |s| == 18;
  }

  lemma RoBuildFingerprintIsUnmarked(s: string)
    requires s == "ro.build.fingerprint"
    ensures Unmarked(s)
  {
    assert |s| == 20;
  }
}
