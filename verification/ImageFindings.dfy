/** What the audit says about an image, over the scanner report itself: which texts make a
    finding critical, high, medium, low or negligible, and which strings name the image. */
module ImageFindings {
  import opened ImageAudit
  import opened Json
  import opened Options

  // ------------------------------------------------------ severities as written

  ghost predicate HasText(value: Value, key: string) {
    value.Object? && key in value.fields && value.fields[key].Text?
  }

  /** The severity text of a finding: under "Severity", else under "severity". */
  ghost predicate Says(lib: Library, finding: Value, name: string) {
    if HasText(finding, "Severity") then lib.norm(finding.fields["Severity"].text) == name
    else HasText(finding, "severity") && lib.norm(finding.fields["severity"].text) == name
  }

  ghost predicate SaysNothing(finding: Value) { !HasText(finding, "Severity") && !HasText(finding, "severity") }

  ghost predicate SaysMinor(lib: Library, finding: Value) {
    Says(lib, finding, "low") || Says(lib, finding, "negligible")
  }

  lemma NamesDiffer(name: string)
    ensures name == "critical" <==> Named(name) == Critical
    ensures name == "high" <==> Named(name) == High
    ensures name == "medium" <==> Named(name) == Medium
    ensures name == "low" <==> Named(name) == Low
    ensures name == "negligible" <==> Named(name) == Negligible
  {
    assert "critical"[0] == 'c' && "high"[0] == 'h' && "medium"[0] == 'm' && "low"[0] == 'l' && "negligible"[0] == 'n';
  }

  lemma SeverityIsRead(lib: Library, finding: Value)
    ensures SeverityIn(lib, finding).None? <==> SaysNothing(finding)
    ensures SeverityIn(lib, finding) == Some(Critical) <==> Says(lib, finding, "critical")
    ensures SeverityIn(lib, finding) == Some(High) <==> Says(lib, finding, "high")
    ensures SeverityIn(lib, finding) == Some(Medium) <==> Says(lib, finding, "medium")
    ensures SeverityIn(lib, finding) == Some(Low) <==> Says(lib, finding, "low")
    ensures SeverityIn(lib, finding) == Some(Negligible) <==> Says(lib, finding, "negligible")
  {
    assert "Severity"[0] == 'S' && "severity"[0] == 's';
    hide Named;
    if HasText(finding, "Severity") {
      NamesDiffer(lib.norm(finding.fields["Severity"].text));
    } else if HasText(finding, "severity") {
      NamesDiffer(lib.norm(finding.fields["severity"].text));
    }
  }

  /** How many of these findings say this. */
  ghost function Saying(lib: Library, findings: seq<Value>, name: string): nat {
    if findings == [] then 0
    else Saying(lib, findings[..|findings| - 1], name) + if Says(lib, findings[|findings| - 1], name) then 1 else 0
  }

  // ------------------------------------------------------------------- Trivy

  /** The findings of one result; absent and `null` mean none. */
  ghost predicate ListsFindings(result: Value, findings: seq<Value>) {
    && result.Object?
    && if "Vulnerabilities" in result.fields && result.fields["Vulnerabilities"] != Null
       then result.fields["Vulnerabilities"] == List(findings) else findings == []
  }

  lemma VulnerabilitiesAre(result: Value, findings: seq<Value>)
    ensures Vulnerabilities(result) == Some(findings) <==> ListsFindings(result, findings)
  {
  }

  /** All findings of the well-typed results, in order. */
  ghost predicate TrivyFindings(results: seq<Value>, findings: seq<Value>)
    decreases |results|
  {
    if results == [] then findings == []
    else
      var n := |results| - 1;
      exists k: nat :: k <= |findings| && TrivyFindings(results[..n], findings[..k])
                       && ListsFindings(results[n], findings[k..])
  }

  lemma {:induction false} CleanFindings(lib: Library, results: seq<Value>) returns (findings: seq<Value>)
    requires TrivyClean(lib, results)
    ensures TrivyFindings(results, findings) && ListSeverities(lib, findings) == TrivySeverities(lib, results)
    ensures forall finding <- findings :: SaysMinor(lib, finding)
    decreases |results|
  {
    if results == [] {
      findings := [];
    } else {
      var n := |results| - 1;
      assert results[n] in results && CleanResult(lib, results[n]);
      assert forall result <- results[..n] :: result in results;
      var earlier := CleanFindings(lib, results[..n]);
      var last := Vulnerabilities(results[n]).value;
      VulnerabilitiesAre(results[n], last);
      MinorIsSaid(lib, last);
      findings := earlier + last;
      hide Says, SeverityIn, Vulnerabilities, SaysMinor, ListSeverities, TrivyFindings, ListsFindings;
      OneMoreResult(results, earlier, last);
      SeveritiesJoin(lib, earlier, last);
    }
  }

  lemma OneMoreResult(results: seq<Value>, earlier: seq<Value>, last: seq<Value>)
    requires results != [] && TrivyFindings(results[..|results| - 1], earlier)
    requires ListsFindings(results[|results| - 1], last)
    ensures TrivyFindings(results, earlier + last)
  {
    assert (earlier + last)[..|earlier|] == earlier && (earlier + last)[|earlier|..] == last;
    hide ListsFindings;
  }

  lemma MinorIsSaid(lib: Library, findings: seq<Value>)
    ensures (forall finding <- findings :: Minor(SeverityIn(lib, finding))) <==>
            forall finding <- findings :: SaysMinor(lib, finding)
  {
    hide Says, SeverityIn;
    forall finding | finding in findings ensures Minor(SeverityIn(lib, finding)) <==> SaysMinor(lib, finding) {
      SeverityIsRead(lib, finding);
    }
  }

  lemma SeveritiesJoin(lib: Library, a: seq<Value>, b: seq<Value>)
    ensures ListSeverities(lib, a + b) == ListSeverities(lib, a) + ListSeverities(lib, b)
  {
  }

  /** The tally of a level is the number of findings that say it. */
  lemma {:induction false} TallyIsSaying(lib: Library, findings: seq<Value>)
    ensures multiset(ListSeverities(lib, findings))[Low] == Saying(lib, findings, "low")
    ensures multiset(ListSeverities(lib, findings))[Negligible] == Saying(lib, findings, "negligible")
    decreases |findings|
  {
    if findings != [] {
      var n := |findings| - 1;
      TallyIsSaying(lib, findings[..n]);
      SeverityIsRead(lib, findings[n]);
      hide Says, SeverityIn;
      assert ListSeverities(lib, findings)
          == ListSeverities(lib, findings[..n]) + [Counted(SeverityIn(lib, findings[n]))];
    }
  }

  // ------------------------------------------------------------------- Grype

  /** The severity of a match: that of its vulnerability if it has a text, else its own. */
  ghost predicate MatchSays(lib: Library, found: Value, name: string) {
    && found.Object?
    && if "vulnerability" in found.fields && !SaysNothing(found.fields["vulnerability"])
       then Says(lib, found.fields["vulnerability"], name) else Says(lib, found, name)
  }

  ghost predicate MatchSaysMinor(lib: Library, found: Value) {
    MatchSays(lib, found, "low") || MatchSays(lib, found, "negligible")
  }

  lemma MatchIsRead(lib: Library, found: Value)
    ensures MatchSeverity(lib, found) == Some(Low) <==> MatchSays(lib, found, "low")
    ensures MatchSeverity(lib, found) == Some(Negligible) <==> MatchSays(lib, found, "negligible")
    ensures MatchSeverity(lib, found) in {Some(Critical), Some(High), Some(Medium)} <==>
              MatchSays(lib, found, "critical") || MatchSays(lib, found, "high") || MatchSays(lib, found, "medium")
  {
    hide Says, SeverityIn, SaysNothing;
    SeverityIsRead(lib, found);
    if found.Object? {
      SeverityIsRead(lib, Field(found.fields, "vulnerability"));
      NullSaysNothing();
    }
  }

  lemma NullSaysNothing()
    ensures SaysNothing(Null)
  {
  }

  ghost function MatchesSaying(lib: Library, matches: seq<Value>, name: string): nat {
    if matches == [] then 0
    else
      MatchesSaying(lib, matches[..|matches| - 1], name)
      + if MatchSays(lib, matches[|matches| - 1], name) then 1 else 0
  }

  lemma LastMatch(lib: Library, matches: seq<Value>)
    requires matches != []
    ensures var n := |matches| - 1;
      MatchSeverities(lib, matches) == MatchSeverities(lib, matches[..n]) + [Counted(MatchSeverity(lib, matches[n]))]
  {
  }

  lemma {:induction false} TallyIsMatchesSaying(lib: Library, matches: seq<Value>)
    ensures multiset(MatchSeverities(lib, matches))[Low] == MatchesSaying(lib, matches, "low")
    ensures multiset(MatchSeverities(lib, matches))[Negligible] == MatchesSaying(lib, matches, "negligible")
    decreases |matches|
  {
    if matches != [] {
      var n := |matches| - 1;
      MatchIsRead(lib, matches[n]);
      LastMatch(lib, matches);
      hide MatchSays, MatchSeverity, MatchSeverities;
      TallyIsMatchesSaying(lib, matches[..n]);
    }
  }

  // --------------------------------------------------------------- identities

  /** A pinned image is a name, "@sha256:" and 64 hexadecimal digits. */
  lemma PinnedIff(lib: Library, name: string, digest: string)
    requires |digest| == 64
    ensures Pinned(lib, name + "@sha256:" + digest) <==>
      && name != "" && (forall c <- name :: c != '@' && !lib.space(c))
      && forall c <- digest :: '0' <= c <= '9' || 'a' <= c <= 'f'
  {
    var image, mark := name + "@sha256:" + digest, "@sha256:";
    assert |mark| == 8;
    var n := |image| - 72;
    assert n == |name| && image[..n] == name && image[n..n + 8] == mark == DIGEST_MARK && image[n + 8..] == digest;
    if Pinned(lib, image) {
      assert name != "" by { assert |name| > 0; }
      assert forall c <- name :: c in image[..n];
      assert forall c <- digest :: c in image[n + 8..] && Hex(c);
    }
    if name != "" && (forall c <- name :: c != '@' && !lib.space(c))
       && forall c <- digest :: '0' <= c <= '9' || 'a' <= c <= 'f' {
      assert |name| > 0;
      assert forall c <- image[..n] :: c in name;
      assert forall c <- image[n + 8..] :: c in digest && Hex(c);
    }
  }

  /** A string that names the image: the image itself or its digest. */
  ghost predicate Names(lib: Library, value: Value, image: string)
    requires |image| >= 71
  {
    value.Text? && (lib.strip(value.text) == image || lib.strip(value.text) == image[|image| - 71..])
  }

  ghost predicate ListsImage(lib: Library, list: Value, image: string)
    requires |image| >= 71
  {
    list.List? && exists item <- list.items :: Names(lib, item, image)
  }

  lemma NamedByStrings(lib: Library, list: Value, image: string)
    requires Pinned(lib, image)
    ensures Identified(image, Strings(lib, list)) <==> ListsImage(lib, list, image)
  {
    DigestOfPinned(lib, image);
    hide Pinned, AfterLastAt;
    if ListsImage(lib, list, image) {
      var item :| item in list.items && Names(lib, item, image);
      assert lib.strip(item.text) in Strings(lib, list);
    }
  }

  /** A Trivy report names its image among `Metadata.RepoDigests`. */
  ghost predicate TrivyNames(lib: Library, payload: Value, image: string)
    requires |image| >= 71
  {
    exists metadata, list ::
      HasField(payload, "Metadata", metadata) && HasField(metadata, "RepoDigests", list) && ListsImage(lib, list, image)
  }

  ghost predicate TargetNames(lib: Library, target: Value, image: string)
    requires |image| >= 71
  {
    || (exists input :: HasField(target, "userInput", input) && input.Text?
                        && Pinned(lib, lib.strip(input.text)) && Names(lib, input, image))
    || (exists digest :: HasField(target, "manifestDigest", digest) && Names(lib, digest, image))
    || (exists list :: HasField(target, "repoDigests", list) && ListsImage(lib, list, image))
  }

  /** A Grype report names its image as a pinned `userInput`, as the manifest digest, or among
      the `repoDigests` of its `source.target`. */
  ghost predicate GrypeNames(lib: Library, payload: Value, image: string)
    requires |image| >= 71
  {
    exists source, target ::
      HasField(payload, "source", source) && HasField(source, "target", target) && TargetNames(lib, target, image)
  }

  lemma TrivyNamesIff(lib: Library, payload: Value, image: string)
    requires Pinned(lib, image) && payload.Object?
    ensures Identified(image, TrivyIdentities(lib, payload.fields)) <==> TrivyNames(lib, payload, image)
  {
    var metadata := Field(payload.fields, "Metadata");
    hide Identified, Strings, ListsImage, Pinned;
    NamedByStrings(lib, Null, image);
    NamedByNothing(lib, image);
    if metadata.Object? {
      var list := Field(metadata.fields, "RepoDigests");
      NamedByStrings(lib, list, image);
      if ListsImage(lib, list, image) {
        assert HasField(payload, "Metadata", metadata) && HasField(metadata, "RepoDigests", list);
      }
    }
  }

  lemma NamedByNothing(lib: Library, image: string)
    requires |image| >= 71
    ensures !Identified(image, {}) && !ListsImage(lib, Null, image)
  {
  }

  lemma NamedByOne(lib: Library, value: Value, image: string)
    requires Pinned(lib, image)
    ensures Identified(image, OneString(lib, value)) <==> Names(lib, value, image)
  {
    DigestOfPinned(lib, image);
    hide Pinned, AfterLastAt;
  }

  lemma NamedByEither(image: string, a: set<string>, b: set<string>)
    ensures Identified(image, a + b) <==> Identified(image, a) || Identified(image, b)
  {
  }

  lemma GrypeTargetIff(lib: Library, target: Value, image: string)
    requires Pinned(lib, image) && target.Object?
    ensures var input := Field(target.fields, "userInput");
      Identified(image,
        (if input.Text? && Pinned(lib, lib.strip(input.text)) then OneString(lib, input) else {})
        + OneString(lib, Field(target.fields, "manifestDigest"))
        + Strings(lib, Field(target.fields, "repoDigests")))
      <==>
      || (input.Text? && Pinned(lib, lib.strip(input.text)) && Names(lib, input, image))
      || Names(lib, Field(target.fields, "manifestDigest"), image)
      || ListsImage(lib, Field(target.fields, "repoDigests"), image)
  {
    var input, digest, list :=
      Field(target.fields, "userInput"), Field(target.fields, "manifestDigest"), Field(target.fields, "repoDigests");
    hide Identified, Strings, OneString, ListsImage, Names;
    var first := if input.Text? && Pinned(lib, lib.strip(input.text)) then OneString(lib, input) else {};
    NamedByNothing(lib, image);
    NamedByOne(lib, input, image);
    NamedByOne(lib, digest, image);
    NamedByStrings(lib, list, image);
    hide Pinned;
    NamedByEither(image, first, OneString(lib, digest));
    NamedByEither(image, first + OneString(lib, digest), Strings(lib, list));
  }

  // ----------------------------------------------------------------- verdicts

  /** A result is an object, its findings are a list, and each says "low" or "negligible". */
  ghost predicate MinorResult(lib: Library, result: Value) {
    exists findings :: ListsFindings(result, findings) && forall finding <- findings :: SaysMinor(lib, finding)
  }

  /** What a scanner report must be for evidence to be issued. */
  ghost predicate SafeReport(lib: Library, image: string, grype: bool, payload: Value)
    requires |image| >= 71
  {
    exists list: Value :: list.List? && HasField(payload, if grype then "matches" else "Results", list)
      && if grype then
           (forall found <- list.items :: MatchSaysMinor(lib, found)) && GrypeNames(lib, payload, image)
         else
           (forall result <- list.items :: MinorResult(lib, result)) && TrivyNames(lib, payload, image)
  }

  lemma GrypeNamesIff(lib: Library, payload: Value, image: string)
    requires Pinned(lib, image) && payload.Object?
    ensures Identified(image, GrypeIdentities(lib, payload.fields)) <==> GrypeNames(lib, payload, image)
  {
    assert |image| >= 71;
    hide Identified, Strings, OneString, ListsImage, Names, Pinned;
    NamedByNothing(lib, image);
    NullIsNoName(lib, image);
    var source := Field(payload.fields, "source");
    if source.Object? {
      var target := Field(source.fields, "target");
      if target.Object? {
        assert HasField(payload, "source", source) && HasField(source, "target", target);
        GrypeTargetIff(lib, target, image);
        TargetNamesIff(lib, target, image);
      }
    }
  }

  lemma NullIsNoName(lib: Library, image: string)
    requires |image| >= 71
    ensures !Names(lib, Null, image)
  {
  }

  lemma TargetNamesIff(lib: Library, target: Value, image: string)
    requires |image| >= 71 && target.Object?
    ensures TargetNames(lib, target, image) <==>
      var input := Field(target.fields, "userInput");
      || (input.Text? && Pinned(lib, lib.strip(input.text)) && Names(lib, input, image))
      || Names(lib, Field(target.fields, "manifestDigest"), image)
      || ListsImage(lib, Field(target.fields, "repoDigests"), image)
  {
    NamedByNothing(lib, image);
    NullIsNoName(lib, image);
    hide ListsImage, Names, Pinned;
    var input, digest, list :=
      Field(target.fields, "userInput"), Field(target.fields, "manifestDigest"), Field(target.fields, "repoDigests");
    assert input != Null ==> HasField(target, "userInput", input);
    assert digest != Null ==> HasField(target, "manifestDigest", digest);
    assert list != Null ==> HasField(target, "repoDigests", list);
  }

  lemma ResultIsMinor(lib: Library, result: Value)
    ensures CleanResult(lib, result) <==> MinorResult(lib, result)
  {
    if Vulnerabilities(result).Some? {
      var findings := Vulnerabilities(result).value;
      VulnerabilitiesAre(result, findings);
      MinorIsSaid(lib, findings);
    }
    if findings :| ListsFindings(result, findings) && forall finding <- findings :: SaysMinor(lib, finding) {
      VulnerabilitiesAre(result, findings);
    }
  }

  lemma MatchIsMinor(lib: Library, found: Value)
    ensures found.Object? && Minor(MatchSeverity(lib, found)) <==> MatchSaysMinor(lib, found)
  {
    MatchIsRead(lib, found);
    hide MatchSeverity, Says, SaysNothing;
  }

  /** Evidence can be issued exactly for a report that is safe as written. */
  lemma CleanIffSafe(lib: Library, image: string, requested: Requested, payload: Value)
    requires Pinned(lib, image)
    ensures CleanReport(lib, image, requested, payload) <==> SafeReport(lib, image, requested == UseGrype, payload)
  {
    hide Identified, CleanResult, MinorResult, MatchSeverity, Minor, MatchSaysMinor, Pinned;
    hide GrypeNames, TrivyNames, GrypeIdentities, TrivyIdentities;
    forall result ensures CleanResult(lib, result) <==> MinorResult(lib, result) {
      ResultIsMinor(lib, result);
    }
    forall found: Value ensures found.Object? && Minor(MatchSeverity(lib, found)) <==> MatchSaysMinor(lib, found) {
      MatchIsMinor(lib, found);
    }
    if payload.Object? {
      GrypeNamesIff(lib, payload, image);
      TrivyNamesIff(lib, payload, image);
      var list := Field(payload.fields, if requested == UseGrype then "matches" else "Results");
      assert list.List? ==> HasField(payload, if requested == UseGrype then "matches" else "Results", list);
    }
  }

  /** A report with one critical, high or medium finding gets no evidence. */
  lemma SeriousIsRefused(lib: Library, image: string, requested: Requested, payload: Value, list: Value, at: nat)
    requires requested != UseGrype && HasField(payload, "Results", list) && list.List? && at < |list.items|
    requires exists findings, finding :: ListsFindings(list.items[at], findings) && finding in findings
               && (Says(lib, finding, "critical") || Says(lib, finding, "high") || Says(lib, finding, "medium"))
    ensures !CleanReport(lib, image, requested, payload)
  {
    var findings, finding :| ListsFindings(list.items[at], findings) && finding in findings
      && (Says(lib, finding, "critical") || Says(lib, finding, "high") || Says(lib, finding, "medium"));
    hide Says, SeverityIn;
    SeverityIsRead(lib, finding);
    VulnerabilitiesAre(list.items[at], findings);
    assert !CleanResult(lib, list.items[at]);
  }

  /** Issued evidence counts what the findings say, and all of them are minor. */
  lemma TrivyCountsAreSaid(lib: Library, image: string, requested: Requested, payload: Value, list: Value,
                           counts: Counts)
    returns (findings: seq<Value>)
    requires requested != UseGrype && CleanReport(lib, image, requested, payload)
    requires HasField(payload, "Results", list) && list.List? && Tallies(counts, TrivySeverities(lib, list.items))
    ensures TrivyFindings(list.items, findings) && forall finding <- findings :: SaysMinor(lib, finding)
    ensures counts[Low] == Saying(lib, findings, "low") && counts[Negligible] == Saying(lib, findings, "negligible")
    ensures counts[Low] + counts[Negligible] == |findings|
  {
    findings := CleanFindings(lib, list.items);
    TallyIsSaying(lib, findings);
    MinorAddUp(lib, findings);
  }

  lemma {:induction false} MinorAddUp(lib: Library, findings: seq<Value>)
    requires forall finding <- findings :: SaysMinor(lib, finding)
    ensures Saying(lib, findings, "low") + Saying(lib, findings, "negligible") == |findings|
    decreases |findings|
  {
    assert |"low"| == 3 && |"negligible"| == 10;
    if findings != [] {
      assert findings[|findings| - 1] in findings;
      assert forall finding <- findings[..|findings| - 1] :: finding in findings;
      MinorAddUp(lib, findings[..|findings| - 1]);
    }
  }

  /** The same for the matches of a Grype report. */
  lemma GrypeCountsAreSaid(lib: Library, image: string, payload: Value, list: Value, counts: Counts)
    requires CleanReport(lib, image, UseGrype, payload)
    requires HasField(payload, "matches", list) && list.List? && Tallies(counts, MatchSeverities(lib, list.items))
    ensures forall found <- list.items :: MatchSaysMinor(lib, found)
    ensures counts[Low] == MatchesSaying(lib, list.items, "low")
    ensures counts[Negligible] == MatchesSaying(lib, list.items, "negligible")
  {
    TallyIsMatchesSaying(lib, list.items);
    hide MatchSeverity, MatchSays, Minor, MatchSaysMinor;
    forall found | found in list.items ensures MatchSaysMinor(lib, found) {
      MatchIsMinor(lib, found);
    }
  }

  // --------------------------------------------------------------- the runner

  /** The runner reads `False` as zero too. */
  ghost predicate SaysZero(counts: Value, level: string) {
    HasField(counts, level, Number(0)) || HasField(counts, level, Bool(false))
  }

  /** What the runner accepts for an image, over the payload. */
  lemma RunnerAcceptsIff(image: string, payload: map<string, Value>)
    ensures Accepted(image, payload) <==>
      && HasField(Object(payload), "schema_version", Text("goffy.tflite-task-text-export-image-audit.v1"))
      && HasField(Object(payload), "image", Text(image)) && HasField(Object(payload), "ok", Bool(true))
      && exists counts :: HasField(Object(payload), "vulnerability_counts", counts)
           && SaysZero(counts, "critical") && SaysZero(counts, "high") && SaysZero(counts, "medium")
  {
    var counts := Field(payload, "vulnerability_counts");
    if counts.Object? {
      LevelsAreZero(counts);
      assert HasField(Object(payload), "vulnerability_counts", counts);
    }
  }

  lemma LevelsAreZero(counts: Value)
    requires counts.Object?
    ensures (forall level <- CHECKED :: IsZero(Field(counts.fields, level))) <==>
      SaysZero(counts, "critical") && SaysZero(counts, "high") && SaysZero(counts, "medium")
  {
    assert CHECKED[0] == "critical" && CHECKED[1] == "high" && CHECKED[2] == "medium" && |CHECKED| == 3;
    assert (forall level <- CHECKED :: IsZero(Field(counts.fields, level))) <==>
      forall k :: 0 <= k < 3 ==> IsZero(Field(counts.fields, CHECKED[k]));
    ZeroIff(counts, "critical");
    ZeroIff(counts, "high");
    ZeroIff(counts, "medium");
  }

  lemma ZeroIff(counts: Value, level: string)
    requires counts.Object?
    ensures IsZero(Field(counts.fields, level)) <==> SaysZero(counts, level)
  {
  }

  /** Everything else the issued evidence says is there to read back. */
  lemma EvidenceReadsBack(lib: Library, e: Evidence)
    requires forall s: Severity :: s in e.counts
    ensures var rendered := Object(Rendered(lib, e));
      && HasField(rendered, "scanner_report", Text(e.report))
      && HasField(rendered, "scanner_report_sha256", Text(e.sha256))
      && HasField(rendered, "scanned_image_identities", List(lib.sorted(e.identities)))
      && (e.scanner == Some(Trivy) ==> HasField(rendered, "scanner", Text("trivy")))
      && (e.scanner == Some(Grype) ==> HasField(rendered, "scanner", Text("grype")))
      && (e.scanner == None ==> HasField(rendered, "scanner", Null))
  {
    hide RenderedCounts;
    assert |"schema_version"| == 14 && |"image"| == 5 && |"ok"| == 2 && |"scanner"| == 7;
    assert |"scanned_image_identities"| == 24 && |"scanner_report_sha256"| == 21 && |"vulnerability_counts"| == 20;
    assert "schema_version"[2] == 'h' && "scanner_report"[2] == 'a';
  }

  lemma LowCountsReadBack(counts: Counts)
    requires forall s: Severity :: s in counts
    ensures var rendered := Object(RenderedCounts(counts));
      && HasField(rendered, "low", Number(counts[Low])) && HasField(rendered, "negligible", Number(counts[Negligible]))
      && HasField(rendered, "unknown", Number(counts[Unknown]))
  {
    assert "critical"[0] == 'c' && "high"[0] == 'h' && "medium"[0] == 'm';
    assert "low"[0] == 'l' && "negligible"[0] == 'n' && "unknown"[0] == 'u';
  }
}
