/** Scanner audit of the export image: from a Trivy or Grype report to the evidence the Docker
    runner accepts. */
module ImageAudit {
  import opened Json
  import opened Options

  const SCHEMA := "goffy.tflite-task-text-export-image-audit.v1"

  /** `str.strip()`, `str.strip().lower()`, the `\s` class and the rendering of the sorted
      identities. */
  datatype Library = Library(
    strip: string -> string, norm: string -> string, space: char -> bool, sorted: set<string> -> seq<Value>)

  // ------------------------------------------------------------ severities

  datatype Severity = Critical | High | Medium | Low | Negligible | Unknown

  /** `severity_from_mapping`. */
  function SeverityIn(lib: Library, value: Value): Option<Severity> {
    if !value.Object? then None
    else
      var upper := Field(value.fields, "Severity");
      var severity := if upper.Text? then upper else Field(value.fields, "severity");
      if !severity.Text? then None else Some(Named(lib.norm(severity.text)))
  }

  function Named(name: string): Severity {
    if name == "critical" then Critical
    else if name == "high" then High
    else if name == "medium" then Medium
    else if name == "low" then Low
    else if name == "negligible" then Negligible
    else Unknown
  }

  /** How a finding is counted: one without a severity counts as unknown. */
  function Counted(severity: Option<Severity>): Severity {
    if severity.Some? then severity.value else Unknown
  }

  type Counts = map<Severity, nat>

  function EmptyCounts(): Counts {
    map[Critical := 0, High := 0, Medium := 0, Low := 0, Negligible := 0, Unknown := 0]
  }

  /** The counts are those of the list of severities. */
  ghost predicate Tallies(counts: Counts, severities: seq<Severity>) {
    forall s: Severity :: s in counts && counts[s] == multiset(severities)[s]
  }

  function Total(counts: Counts): nat
    requires forall s: Severity :: s in counts
  {
    counts[Critical] + counts[High] + counts[Medium] + counts[Low] + counts[Negligible] + counts[Unknown]
  }

  lemma OneMore(counts: Counts, s: Severity)
    requires forall t: Severity :: t in counts
    ensures Total(counts[s := counts[s] + 1]) == Total(counts) + 1
  {
    match s
    case Critical =>
    case High =>
    case Medium =>
    case Low =>
    case Negligible =>
    case Unknown =>
  }

  /** Counting loses nothing: the counts add up to the number of findings. */
  lemma {:induction false} TotalIsLength(counts: Counts, severities: seq<Severity>)
    requires Tallies(counts, severities)
    ensures Total(counts) == |severities|
    decreases |severities|
  {
    if severities == [] {
      assert multiset(severities) == multiset{};
    } else {
      var last, rest := severities[|severities| - 1], severities[..|severities| - 1];
      assert severities == rest + [last];
      var before := OneFewer(counts, rest, last);
      hide Tallies, Total;
      TotalIsLength(before, rest);
      OneMore(before, last);
    }
  }

  lemma OneFewer(counts: Counts, rest: seq<Severity>, last: Severity) returns (before: Counts)
    requires Tallies(counts, rest + [last])
    ensures Tallies(before, rest) && (forall s: Severity :: s in before)
    ensures counts == before[last := before[last] + 1]
  {
    assert multiset(rest + [last]) == multiset(rest) + multiset{last};
    before := counts[last := counts[last] - 1];
    forall s: Severity ensures s in before && before[s] == multiset(rest)[s] {
      assert counts[s] == multiset(rest + [last])[s];
    }
  }

  lemma NothingTallied()
    ensures Tallies(EmptyCounts(), [])
  {
    forall s: Severity ensures s in EmptyCounts() && EmptyCounts()[s] == 0 {
      match s
      case Critical =>
      case High =>
      case Medium =>
      case Low =>
      case Negligible =>
      case Unknown =>
    }
  }

  method CountOne(counts: Counts, severity: Severity, ghost severities: seq<Severity>) returns (after: Counts)
    requires Tallies(counts, severities)
    ensures Tallies(after, severities + [severity])
  {
    after := counts[severity := counts[severity] + 1];
  }

  // --------------------------------------------------------------- identities

  predicate Hex(c: char) { '0' <= c <= '9' || 'a' <= c <= 'f' }

  const DIGEST_MARK := "@sha256:"

  /** `IMAGE_DIGEST.fullmatch`: a name, `@sha256:` and 64 hexadecimal digits. */
  predicate Pinned(lib: Library, image: string) {
    var n := |image| - 72;
    && n > 0
    && (forall c <- image[..n] :: c != '@' && !lib.space(c))
    && image[n..n + 8] == DIGEST_MARK
    && forall c <- image[n + 8..] :: Hex(c)
  }

  /** `image.rsplit("@", 1)[-1]`. */
  function AfterLastAt(image: string): string
    decreases |image|
  {
    if '@' !in image then image else AfterLastAt(image[1..])
  }

  lemma {:induction false} DigestOfPinned(lib: Library, image: string)
    requires Pinned(lib, image)
    ensures AfterLastAt(image) == image[|image| - 71..]
  {
    var n := |image| - 72;
    assert image[n..n + 8][0] == image[n] == '@';
    assert forall i :: n < i < n + 8 ==> image[i] == image[n..n + 8][i - n] != '@';
    assert forall i :: n + 8 <= i < |image| ==> image[i] == image[n + 8..][i - n - 8] && Hex(image[i]);
    LastAtIsAt(image, n);
  }

  lemma {:induction false} LastAtIsAt(image: string, n: nat)
    requires n < |image| && image[n] == '@' && forall i :: n < i < |image| ==> image[i] != '@'
    ensures AfterLastAt(image) == image[n + 1..]
    decreases |image|
  {
    if n == 0 {
      assert '@' !in image[1..];
    } else {
      assert image[1..][n - 1] == '@';
      LastAtIsAt(image[1..], n - 1);
      assert image[1..][n..] == image[n + 1..];
    }
  }

  /** The non-blank strings of a JSON list, stripped. */
  function Strings(lib: Library, value: Value): set<string> {
    if value.List? then
      set item <- value.items | item.Text? && lib.strip(item.text) != "" :: lib.strip(item.text)
    else {}
  }

  function OneString(lib: Library, value: Value): set<string> {
    if value.Text? && lib.strip(value.text) != "" then {lib.strip(value.text)} else {}
  }

  /** `add_string_list_identities`. */
  method AddStringList(lib: Library, identities: set<string>, value: Value) returns (all: set<string>)
    ensures all == identities + Strings(lib, value)
  {
    all := identities;
    if !value.List? {
      return;
    }
    var i := 0;
    while i < |value.items|
      invariant 0 <= i <= |value.items|
      invariant all == identities + Strings(lib, List(value.items[..i]))
    {
      assert value.items[..i + 1] == value.items[..i] + [value.items[i]];
      all := all + OneString(lib, value.items[i]);
      i := i + 1;
    }
    assert value.items[..i] == value.items;
  }

  /** `extract_trivy_image_identities`. */
  function TrivyIdentities(lib: Library, payload: map<string, Value>): set<string> {
    var metadata := Field(payload, "Metadata");
    if metadata.Object? then Strings(lib, Field(metadata.fields, "RepoDigests")) else {}
  }

  /** `extract_grype_image_identities`. */
  function GrypeIdentities(lib: Library, payload: map<string, Value>): set<string> {
    var source := Field(payload, "source");
    if !source.Object? then {}
    else
      var target := Field(source.fields, "target");
      if !target.Object? then {}
      else
        var input := Field(target.fields, "userInput");
        (if input.Text? && Pinned(lib, lib.strip(input.text)) then OneString(lib, input) else {})
        + OneString(lib, Field(target.fields, "manifestDigest"))
        + Strings(lib, Field(target.fields, "repoDigests"))
  }

  // ----------------------------------------------------------------- parsers

  datatype Scanner = Trivy | Grype

  datatype Blocker =
    | NotAnObject
    | NoFindingsList
    | NotAResult(at: nat)
    | NotAList(at: nat)
    | NotAMatch(at: nat)
    | SeverityMissing(at: nat, finding: nat)
    | SeverityUnknown(at: nat, finding: nat)
    | MatchSeverityMissing(at: nat)
    | MatchSeverityUnknown(at: nat)
    | ImageNotPinned
    | ScannerNotSupported
    | ReportMissing
    | ReportUnreadable
    | NoIdentity
    | IdentityMismatch
    | Findings(severity: Severity)

  datatype Parsed = Parsed(
    scanner: Option<Scanner>, counts: Counts, identities: set<string>, warnings: seq<string>, blockers: seq<Blocker>)

  function Refused(blocker: Blocker): Parsed { Parsed(None, EmptyCounts(), {}, [], [blocker]) }

  function SeverityBlockers(severity: Option<Severity>, at: nat, finding: nat): seq<Blocker> {
    if severity.None? then [SeverityMissing(at, finding)]
    else if severity.value == Unknown then [SeverityUnknown(at, finding)]
    else []
  }

  // The list of vulnerabilities of one Trivy result; absent and `null` mean none.
  function Vulnerabilities(result: Value): Option<seq<Value>> {
    if !result.Object? then None
    else
      var value := if "Vulnerabilities" in result.fields then result.fields["Vulnerabilities"] else List([]);
      if value == Null then Some([]) else if value.List? then Some(value.items) else None
  }

  /** Findings of a Trivy report in order; malformed results contribute none. */
  function TrivySeverities(lib: Library, results: seq<Value>): seq<Severity>
    decreases |results|
  {
    if results == [] then []
    else
      var last := results[|results| - 1];
      var found := Vulnerabilities(last);
      TrivySeverities(lib, results[..|results| - 1]) + if found.Some? then ListSeverities(lib, found.value) else []
  }

  function ListSeverities(lib: Library, findings: seq<Value>): (r: seq<Severity>)
    ensures |r| == |findings|
  {
    seq(|findings|, i requires 0 <= i < |findings| => Counted(SeverityIn(lib, findings[i])))
  }

  function FindingBlockers(lib: Library, at: nat, findings: seq<Value>): seq<Blocker>
    decreases |findings|
  {
    if findings == [] then []
    else
      var n := |findings| - 1;
      FindingBlockers(lib, at, findings[..n]) + SeverityBlockers(SeverityIn(lib, findings[n]), at, n)
  }

  function ResultBlockers(lib: Library, at: nat, result: Value): seq<Blocker> {
    if !result.Object? then [NotAResult(at)]
    else
      var found := Vulnerabilities(result);
      if found.None? then [NotAList(at)] else FindingBlockers(lib, at, found.value)
  }

  function TrivyBlockers(lib: Library, results: seq<Value>): seq<Blocker>
    decreases |results|
  {
    if results == [] then []
    else
      var n := |results| - 1;
      TrivyBlockers(lib, results[..n]) + ResultBlockers(lib, n, results[n])
  }

  /** The inner loop of the Trivy parser: one result. */
  method ParseResult(lib: Library, at: nat, result: Value, counts: Counts, blockers: seq<Blocker>,
                     ghost severities: seq<Severity>)
    returns (after: Counts, all: seq<Blocker>)
    requires Tallies(counts, severities)
    ensures all == blockers + ResultBlockers(lib, at, result)
    ensures Tallies(after, severities + if Vulnerabilities(result).Some?
                                        then ListSeverities(lib, Vulnerabilities(result).value) else [])
  {
    hide SeverityIn, Tallies, SeverityBlockers, Counted;
    after, all := counts, blockers;
    if !result.Object? {
      all := all + [NotAResult(at)];
      assert severities + [] == severities;
      return;
    }
    var found := Vulnerabilities(result);
    if found.None? {
      all := all + [NotAList(at)];
      assert severities + [] == severities;
      return;
    }
    var findings, j := found.value, 0;
    assert severities + ListSeverities(lib, findings[..0]) == severities;
    while j < |findings|
      invariant 0 <= j <= |findings|
      invariant all == blockers + FindingBlockers(lib, at, findings[..j])
      invariant Tallies(after, severities + ListSeverities(lib, findings[..j]))
    {
      var severity := SeverityIn(lib, findings[j]);
      assert findings[..j + 1][..j] == findings[..j];
      assert severities + ListSeverities(lib, findings[..j + 1])
          == severities + ListSeverities(lib, findings[..j]) + [Counted(severity)];
      after := CountOne(after, Counted(severity), severities + ListSeverities(lib, findings[..j]));
      all := all + SeverityBlockers(severity, at, j);
      j := j + 1;
    }
    assert findings[..j] == findings;
  }

  /** `parse_trivy_report`. */
  method ParseTrivy(lib: Library, payload: Value) returns (parsed: Parsed)
    ensures !payload.Object? ==> parsed == Refused(NotAnObject)
    ensures payload.Object? && !Field(payload.fields, "Results").List? ==> parsed == Refused(NoFindingsList)
    ensures payload.Object? && Field(payload.fields, "Results").List? ==>
      && var results := Field(payload.fields, "Results").items;
      && parsed.scanner == Some(Trivy) && parsed.warnings == []
      && parsed.identities == TrivyIdentities(lib, payload.fields)
      && parsed.blockers == TrivyBlockers(lib, results)
      && Tallies(parsed.counts, TrivySeverities(lib, results))
  {
    if !payload.Object? {
      return Refused(NotAnObject);
    }
    var list := Field(payload.fields, "Results");
    if !list.List? {
      return Refused(NoFindingsList);
    }
    var counts, blockers: seq<Blocker>, i := EmptyCounts(), [], 0;
    NothingTallied();
    while i < |list.items|
      invariant 0 <= i <= |list.items|
      invariant blockers == TrivyBlockers(lib, list.items[..i])
      invariant Tallies(counts, TrivySeverities(lib, list.items[..i]))
    {
      assert list.items[..i + 1][..i] == list.items[..i];
      counts, blockers :=
        ParseResult(lib, i, list.items[i], counts, blockers, TrivySeverities(lib, list.items[..i]));
      i := i + 1;
    }
    assert list.items[..i] == list.items;
    return Parsed(Some(Trivy), counts, TrivyIdentities(lib, payload.fields), [], blockers);
  }

  // The severity of a Grype match: that of its vulnerability, else its own.
  function MatchSeverity(lib: Library, found: Value): Option<Severity> {
    if !found.Object? then None
    else
      var severity := SeverityIn(lib, Field(found.fields, "vulnerability"));
      if severity.Some? then severity else SeverityIn(lib, found)
  }

  function MatchSeverities(lib: Library, matches: seq<Value>): (r: seq<Severity>)
    ensures |r| == |matches|
  {
    seq(|matches|, i requires 0 <= i < |matches| => Counted(MatchSeverity(lib, matches[i])))
  }

  function MatchBlockers(lib: Library, at: nat, found: Value): seq<Blocker> {
    var severity := MatchSeverity(lib, found);
    if !found.Object? then [NotAMatch(at)]
    else if severity.None? then [MatchSeverityMissing(at)]
    else if severity.value == Unknown then [MatchSeverityUnknown(at)]
    else []
  }

  function GrypeBlockers(lib: Library, matches: seq<Value>): seq<Blocker>
    decreases |matches|
  {
    if matches == [] then []
    else
      var n := |matches| - 1;
      GrypeBlockers(lib, matches[..n]) + MatchBlockers(lib, n, matches[n])
  }

  /** `parse_grype_report`. */
  method ParseGrype(lib: Library, payload: Value) returns (parsed: Parsed)
    ensures !payload.Object? ==> parsed == Refused(NotAnObject)
    ensures payload.Object? && !Field(payload.fields, "matches").List? ==> parsed == Refused(NoFindingsList)
    ensures payload.Object? && Field(payload.fields, "matches").List? ==>
      && var matches := Field(payload.fields, "matches").items;
      && parsed.scanner == Some(Grype) && parsed.warnings == []
      && parsed.identities == GrypeIdentities(lib, payload.fields)
      && parsed.blockers == GrypeBlockers(lib, matches)
      && Tallies(parsed.counts, MatchSeverities(lib, matches))
  {
    if !payload.Object? {
      return Refused(NotAnObject);
    }
    var list := Field(payload.fields, "matches");
    if !list.List? {
      return Refused(NoFindingsList);
    }
    var matches, counts, blockers: seq<Blocker>, i := list.items, EmptyCounts(), [], 0;
    NothingTallied();
    while i < |matches|
      invariant 0 <= i <= |matches|
      invariant blockers == GrypeBlockers(lib, matches[..i])
      invariant Tallies(counts, MatchSeverities(lib, matches[..i]))
    {
      assert matches[..i + 1][..i] == matches[..i];
      assert MatchSeverities(lib, matches[..i + 1])
          == MatchSeverities(lib, matches[..i]) + [Counted(MatchSeverity(lib, matches[i]))];
      counts := CountOne(counts, Counted(MatchSeverity(lib, matches[i])), MatchSeverities(lib, matches[..i]));
      blockers := blockers + MatchBlockers(lib, i, matches[i]);
      i := i + 1;
    }
    assert matches[..i] == matches;
    return Parsed(Some(Grype), counts, GrypeIdentities(lib, payload.fields), [], blockers);
  }

  // ---------------------------------------------------------- clean reports

  predicate Blocking(s: Severity) { s in {Critical, High, Medium} }

  predicate Minor(severity: Option<Severity>) { severity in {Some(Low), Some(Negligible)} }

  predicate NoBlocking(severities: seq<Severity>) { forall s <- severities :: !Blocking(s) }

  /** Every result is well typed and every finding in it is low or negligible. */
  predicate TrivyClean(lib: Library, results: seq<Value>) {
    forall result <- results :: CleanResult(lib, result)
  }

  predicate CleanResult(lib: Library, result: Value) {
    && Vulnerabilities(result).Some?
    && forall finding <- Vulnerabilities(result).value :: Minor(SeverityIn(lib, finding))
  }

  predicate GrypeClean(lib: Library, matches: seq<Value>) {
    forall found <- matches :: found.Object? && Minor(MatchSeverity(lib, found))
  }

  lemma {:induction false} FindingsClean(lib: Library, at: nat, findings: seq<Value>)
    ensures FindingBlockers(lib, at, findings) == [] && NoBlocking(ListSeverities(lib, findings)) <==>
            forall finding <- findings :: Minor(SeverityIn(lib, finding))
    decreases |findings|
  {
    hide SeverityIn;
    if findings != [] {
      var n := |findings| - 1;
      FindingsClean(lib, at, findings[..n]);
      assert findings == findings[..n] + [findings[n]];
      var last := [Counted(SeverityIn(lib, findings[n]))];
      assert ListSeverities(lib, findings) == ListSeverities(lib, findings[..n]) + last;
      NoBlockingJoin(ListSeverities(lib, findings[..n]), last);
      assert last[0] in last && findings[n] in findings;
      assert forall finding <- findings[..n] :: finding in findings;
    }
  }

  lemma NoBlockingJoin(a: seq<Severity>, b: seq<Severity>)
    ensures NoBlocking(a + b) <==> NoBlocking(a) && NoBlocking(b)
  {
    if NoBlocking(a + b) {
      assert forall s <- a :: s in a + b;
      assert forall s <- b :: s in a + b;
    }
  }

  lemma {:induction false} TrivyCleanIff(lib: Library, results: seq<Value>)
    ensures TrivyBlockers(lib, results) == [] && NoBlocking(TrivySeverities(lib, results)) <==>
            TrivyClean(lib, results)
    decreases |results|
  {
    if results != [] {
      var n := |results| - 1;
      TrivyCleanIff(lib, results[..n]);
      assert results == results[..n] + [results[n]];
      assert results[n] in results && forall result <- results[..n] :: result in results;
      var found := Vulnerabilities(results[n]);
      if found.Some? {
        FindingsClean(lib, n, found.value);
        NoBlockingJoin(TrivySeverities(lib, results[..n]), ListSeverities(lib, found.value));
      }
    }
  }

  lemma {:induction false} GrypeCleanIff(lib: Library, matches: seq<Value>)
    ensures GrypeBlockers(lib, matches) == [] && NoBlocking(MatchSeverities(lib, matches)) <==>
            GrypeClean(lib, matches)
    decreases |matches|
  {
    if matches != [] {
      var n := |matches| - 1;
      GrypeCleanIff(lib, matches[..n]);
      assert matches == matches[..n] + [matches[n]];
      var last := [Counted(MatchSeverity(lib, matches[n]))];
      assert MatchSeverities(lib, matches) == MatchSeverities(lib, matches[..n]) + last;
      NoBlockingJoin(MatchSeverities(lib, matches[..n]), last);
      assert last[0] in last;
    }
  }

  // ------------------------------------------------------------ the producer

  datatype Requested = Auto | UseTrivy | UseGrype | Unsupported

  /** `parse_scanner_report`. Without a named scanner the guard looks at the warnings of the
      Trivy parser, which are always empty: the Trivy result is returned, also when it is refused. */
  method ParseReport(lib: Library, payload: Value, requested: Requested) returns (parsed: Parsed)
    ensures Scanned(lib, payload, requested, parsed)
  {
    if requested == UseTrivy {
      parsed := ParseTrivy(lib, payload);
      return;
    }
    if requested == UseGrype {
      parsed := ParseGrype(lib, payload);
      return;
    }
    parsed := ParseTrivy(lib, payload);
    if parsed.warnings != [] {
      assert false;
    }
  }

  /** What a parse result says about the payload. */
  ghost predicate Scanned(lib: Library, payload: Value, requested: Requested, parsed: Parsed) {
    if !payload.Object? then parsed == Refused(NotAnObject)
    else if requested == UseGrype then
      var matches := Field(payload.fields, "matches");
      if !matches.List? then parsed == Refused(NoFindingsList)
      else
        && parsed.scanner == Some(Grype) && parsed.identities == GrypeIdentities(lib, payload.fields)
        && parsed.blockers == GrypeBlockers(lib, matches.items)
        && Tallies(parsed.counts, MatchSeverities(lib, matches.items))
    else
      var results := Field(payload.fields, "Results");
      if !results.List? then parsed == Refused(NoFindingsList)
      else
        && parsed.scanner == Some(Trivy) && parsed.identities == TrivyIdentities(lib, payload.fields)
        && parsed.blockers == TrivyBlockers(lib, results.items)
        && Tallies(parsed.counts, TrivySeverities(lib, results.items))
  }

  /** The report names the image or its digest, and has nothing but low or negligible findings. */
  predicate CleanReport(lib: Library, image: string, requested: Requested, payload: Value) {
    && payload.Object?
    && if requested == UseGrype then
         var matches := Field(payload.fields, "matches");
         matches.List? && GrypeClean(lib, matches.items) && Identified(image, GrypeIdentities(lib, payload.fields))
       else
         var results := Field(payload.fields, "Results");
         results.List? && TrivyClean(lib, results.items) && Identified(image, TrivyIdentities(lib, payload.fields))
  }

  predicate Identified(image: string, identities: set<string>) {
    image in identities || AfterLastAt(image) in identities
  }

  lemma TalliesShowBlocking(counts: Counts, severities: seq<Severity>)
    requires Tallies(counts, severities)
    ensures NoBlocking(severities) <==> counts[Critical] == 0 && counts[High] == 0 && counts[Medium] == 0
  {
    assert forall s: Severity :: counts[s] == 0 <==> s !in severities;
  }

  /** Parsing finds nothing to object to exactly when the report is clean. */
  lemma ScannedCleanIff(lib: Library, image: string, requested: Requested, payload: Value, parsed: Parsed)
    requires Scanned(lib, payload, requested, parsed)
    ensures forall s: Severity :: s in parsed.counts
    ensures parsed.blockers == [] && Identified(image, parsed.identities)
            && parsed.counts[Critical] == 0 && parsed.counts[High] == 0 && parsed.counts[Medium] == 0
            <==> CleanReport(lib, image, requested, payload)
  {
    NothingTallied();
    if payload.Object? {
      var matches, results := Field(payload.fields, "matches"), Field(payload.fields, "Results");
      if requested == UseGrype && matches.List? {
        GrypeCleanIff(lib, matches.items);
        TalliesShowBlocking(parsed.counts, MatchSeverities(lib, matches.items));
      } else if requested != UseGrype && results.List? {
        TrivyCleanIff(lib, results.items);
        TalliesShowBlocking(parsed.counts, TrivySeverities(lib, results.items));
      }
    }
  }

  /** All lists of findings of a Trivy report together. */
  function FindingCount(results: seq<Value>): nat
    decreases |results|
  {
    if results == [] then 0
    else
      var found := Vulnerabilities(results[|results| - 1]);
      FindingCount(results[..|results| - 1]) + if found.Some? then |found.value| else 0
  }

  lemma {:induction false} OneSeverityEach(lib: Library, results: seq<Value>)
    ensures |TrivySeverities(lib, results)| == FindingCount(results)
    decreases |results|
  {
    if results != [] {
      OneSeverityEach(lib, results[..|results| - 1]);
    }
  }

  /** Every finding of a parsed report is counted once. */
  lemma CountsSumToFindings(lib: Library, payload: Value, requested: Requested, parsed: Parsed)
    requires Scanned(lib, payload, requested, parsed) && parsed.scanner.Some?
    ensures payload.Object? && forall s: Severity :: s in parsed.counts
    ensures parsed.scanner == Some(Grype) <==> requested == UseGrype
    ensures requested == UseGrype ==>
      Field(payload.fields, "matches").List? && Total(parsed.counts) == |Field(payload.fields, "matches").items|
    ensures requested != UseGrype ==>
      Field(payload.fields, "Results").List?
      && Total(parsed.counts) == FindingCount(Field(payload.fields, "Results").items)
  {
    if requested == UseGrype {
      TotalIsLength(parsed.counts, MatchSeverities(lib, Field(payload.fields, "matches").items));
    } else {
      TotalIsLength(parsed.counts, TrivySeverities(lib, Field(payload.fields, "Results").items));
      OneSeverityEach(lib, Field(payload.fields, "Results").items);
    }
  }

  /** `NotUtf8` is a file whose bytes are no UTF-8 text. */
  datatype ReportFile = Missing | Unreadable | NotUtf8 | Loaded(payload: Value, sha256: string)

  datatype Evidence = Evidence(
    image: string, scanner: Option<Scanner>, identities: set<string>, report: string, sha256: string, counts: Counts)

  /** `Crashed`: the file does not decode, which is not caught, or the evidence refers to a
      variable that was never assigned. */
  datatype Build = Crashed | Report(evidence: Option<Evidence>, blockers: seq<Blocker>)

  /** `validate_scanned_image_identity`. */
  function IdentityBlockers(image: string, identities: set<string>): (blockers: seq<Blocker>)
    ensures blockers == [] <==> Identified(image, identities)
  {
    if identities == {} then [NoIdentity]
    else if image in identities || AfterLastAt(image) in identities then []
    else [IdentityMismatch]
  }

  /** The evidence part of `build_report`. A report file that is no UTF-8 text raises. One
      holding the JSON text `null` is not parsed and, for a pinned image and a supported
      scanner, ends in an unassigned variable. */
  method BuildReport(lib: Library, image: string, requested: Requested, path: string, file: ReportFile)
    returns (build: Build)
    ensures build.Crashed? <==>
      || file.NotUtf8?
      || (Pinned(lib, image) && requested != Unsupported && file.Loaded? && file.payload == Null)
    ensures build.Report? ==> (build.evidence.Some? <==> build.blockers == [])
    ensures build.Report? && build.evidence.Some? <==>
      && Pinned(lib, image) && requested != Unsupported
      && file.Loaded? && CleanReport(lib, image, requested, file.payload)
    ensures build.Report? && build.evidence.Some? ==>
      && var e := build.evidence.value;
      && e.image == image && e.report == path && e.sha256 == file.sha256 && WellCounted(e)
      && Scanned(lib, file.payload, requested, Parsed(e.scanner, e.counts, e.identities, [], []))
    ensures build.Report? && !Pinned(lib, image) ==> ImageNotPinned in build.blockers
    ensures build.Report? && requested == Unsupported ==> ScannerNotSupported in build.blockers
    ensures build.Report? && file.Missing? ==> ReportMissing in build.blockers
    ensures build.Report? && file.Unreadable? ==> ReportUnreadable in build.blockers
  {
    hide Scanned, CleanReport, Pinned;
    var blockers: seq<Blocker> := [];
    if !Pinned(lib, image) {
      blockers := blockers + [ImageNotPinned];
    }
    if requested == Unsupported {
      blockers := blockers + [ScannerNotSupported];
    }
    if file.Missing? {
      return Report(None, blockers + [ReportMissing]);
    }
    if file.NotUtf8? {
      return Crashed;
    }
    if file.Unreadable? {
      return Report(None, blockers + [ReportUnreadable]);
    }
    if file.payload == Null {
      NullIsNotClean(lib, image, requested);
      return if blockers == [] then Crashed else Report(None, blockers);
    }
    var parsed := ParseReport(lib, file.payload, requested);
    ScannedCleanIff(lib, image, requested, file.payload, parsed);
    blockers := blockers + parsed.blockers + IdentityBlockers(image, parsed.identities);
    var levels, i := [Critical, High, Medium], 0;
    while i < |levels|
      invariant 0 <= i <= |levels|
      invariant !Pinned(lib, image) ==> ImageNotPinned in blockers
      invariant requested == Unsupported ==> ScannerNotSupported in blockers
      invariant blockers == [] <==>
        && Pinned(lib, image) && requested != Unsupported
        && parsed.blockers == [] && Identified(image, parsed.identities)
        && forall k :: 0 <= k < i ==> parsed.counts[levels[k]] == 0
    {
      if parsed.counts[levels[i]] > 0 {
        blockers := blockers + [Findings(levels[i])];
      }
      i := i + 1;
    }
    assert levels[0] == Critical && levels[1] == High && levels[2] == Medium;
    if blockers != [] {
      return Report(None, blockers);
    }
    ScannedStripped(lib, file.payload, requested, parsed);
    return Report(
      Some(Evidence(image, parsed.scanner, parsed.identities, path, file.sha256, parsed.counts)), []);
  }

  /** A parse without blockers is one whatever its warnings. */
  lemma ScannedStripped(lib: Library, payload: Value, requested: Requested, parsed: Parsed)
    requires Scanned(lib, payload, requested, parsed) && parsed.blockers == []
    ensures Scanned(lib, payload, requested, Parsed(parsed.scanner, parsed.counts, parsed.identities, [], []))
  {
    hide Tallies;
  }

  lemma NullIsNotClean(lib: Library, image: string, requested: Requested)
    ensures !CleanReport(lib, image, requested, Null)
  {
  }

  /** The counts of issued evidence. */
  predicate WellCounted(e: Evidence) {
    && (forall s: Severity :: s in e.counts)
    && e.counts[Critical] == 0 && e.counts[High] == 0 && e.counts[Medium] == 0
  }

  // ------------------------------------------------------------ the consumer

  function RenderedCounts(counts: Counts): map<string, Value>
    requires forall s: Severity :: s in counts
  {
    map["critical" := Number(counts[Critical]), "high" := Number(counts[High]), "medium" := Number(counts[Medium]),
        "low" := Number(counts[Low]), "negligible" := Number(counts[Negligible]),
        "unknown" := Number(counts[Unknown])]
  }

  /** The evidence object as the runner decodes it. */
  function Rendered(lib: Library, e: Evidence): map<string, Value>
    requires forall s: Severity :: s in e.counts
  {
    map["schema_version" := Text(SCHEMA), "image" := Text(e.image), "ok" := Bool(true),
        "scanner" := if e.scanner == Some(Trivy) then Text("trivy") else if e.scanner == Some(Grype) then Text("grype")
                     else Null,
        "scanned_image_identities" := List(lib.sorted(e.identities)),
        "scanner_report" := Text(e.report), "scanner_report_sha256" := Text(e.sha256),
        "vulnerability_counts" := Object(RenderedCounts(e.counts))]
  }

  datatype EvidenceFile = NotGiven | NotReadable | NotText | Payload(payload: Value)

  datatype Objection = NoEvidence | Unread | SchemaMismatch | OtherImage | NotOk | NoCounts | NotZero(level: string)

  const CHECKED := ["critical", "high", "medium"]

  /** `isinstance(count, int) and count == 0`; `False` is such an integer. */
  predicate IsZero(value: Value) { value == Number(0) || value == Bool(false) }

  predicate Accepted(image: string, payload: map<string, Value>) {
    && Field(payload, "schema_version") == Text(SCHEMA)
    && Field(payload, "image") == Text(image)
    && Field(payload, "ok") == Bool(true)
    && Field(payload, "vulnerability_counts").Object?
    && forall level <- CHECKED :: IsZero(Field(Field(payload, "vulnerability_counts").fields, level))
  }

  /** When the runner raises an objection. */
  predicate Objectionable(image: string, file: EvidenceFile, o: Objection) {
    match file
    case NotGiven => o == NoEvidence
    case NotReadable => o == Unread
    case NotText => false
    case Payload(value) =>
      value.Object? &&
      match o
      case NoEvidence => false
      case Unread => false
      case SchemaMismatch => Field(value.fields, "schema_version") != Text(SCHEMA)
      case OtherImage => Field(value.fields, "image") != Text(image)
      case NotOk => Field(value.fields, "ok") != Bool(true)
      case NoCounts => !Field(value.fields, "vulnerability_counts").Object?
      case NotZero(level) =>
        && level in CHECKED && Field(value.fields, "vulnerability_counts").Object?
        && !IsZero(Field(Field(value.fields, "vulnerability_counts").fields, level))
  }

  /** `verify_image_audit_evidence`; `None` when it raises: the file is no UTF-8
      text, or the payload has no `get`. */
  method VerifyEvidence(image: string, file: EvidenceFile) returns (objections: Option<seq<Objection>>)
    ensures objections.None? <==> file.NotText? || (file.Payload? && !file.payload.Object?)
    ensures objections == Some([]) <==>
      file.Payload? && file.payload.Object? && Accepted(image, file.payload.fields)
    ensures objections.Some? ==> forall o :: o in objections.value <==> Objectionable(image, file, o)
  {
    if file.NotGiven? {
      return Some([NoEvidence]);
    }
    if file.NotReadable? {
      return Some([Unread]);
    }
    if file.NotText? || !file.payload.Object? {
      return None;
    }
    var payload, found: seq<Objection> := file.payload.fields, [];
    if Field(payload, "schema_version") != Text(SCHEMA) {
      found := found + [SchemaMismatch];
    }
    if Field(payload, "image") != Text(image) {
      found := found + [OtherImage];
    }
    if Field(payload, "ok") != Bool(true) {
      found := found + [NotOk];
    }
    var counts := Field(payload, "vulnerability_counts");
    if !counts.Object? {
      return Some(found + [NoCounts]);
    }
    ghost var before := found;
    var i := 0;
    while i < |CHECKED|
      invariant 0 <= i <= |CHECKED|
      invariant found == [] <==>
        before == [] && forall k :: 0 <= k < i ==> IsZero(Field(counts.fields, CHECKED[k]))
      invariant forall o :: o in found <==>
        o in before || (o.NotZero? && o.level in CHECKED[..i] && !IsZero(Field(counts.fields, o.level)))
    {
      assert CHECKED[..i + 1] == CHECKED[..i] + [CHECKED[i]];
      if !IsZero(Field(counts.fields, CHECKED[i])) {
        found := found + [NotZero(CHECKED[i])];
      }
      i := i + 1;
    }
    assert CHECKED[..i] == CHECKED;
    return Some(found);
  }

  lemma CountsReadBack(counts: Counts)
    requires forall s: Severity :: s in counts
    ensures var rendered := RenderedCounts(counts);
      && Field(rendered, "critical") == Number(counts[Critical])
      && Field(rendered, "high") == Number(counts[High])
      && Field(rendered, "medium") == Number(counts[Medium])
  {
    assert "critical"[0] == 'c' && "high"[0] == 'h' && "medium"[0] == 'm';
    assert "low"[0] == 'l' && "negligible"[0] == 'n' && "unknown"[0] == 'u';
  }

  lemma FieldsReadBack(lib: Library, e: Evidence)
    requires forall s: Severity :: s in e.counts
    ensures var rendered := Rendered(lib, e);
      && Field(rendered, "schema_version") == Text(SCHEMA)
      && Field(rendered, "image") == Text(e.image)
      && Field(rendered, "ok") == Bool(true)
      && Field(rendered, "vulnerability_counts") == Object(RenderedCounts(e.counts))
  {
    hide RenderedCounts;
    assert |"schema_version"| == 14 && |"image"| == 5 && |"ok"| == 2 && |"scanner"| == 7;
    assert |"scanned_image_identities"| == 24 && |"scanner_report_sha256"| == 21 && |"vulnerability_counts"| == 20;
    assert "schema_version"[2] == 'h' && "scanner_report"[2] == 'a';
  }

  /** The runner accepts issued evidence for the image it was issued for, and for no other. */
  lemma IssuedIsAcceptedForItsImage(lib: Library, e: Evidence, image: string)
    requires WellCounted(e)
    ensures Accepted(image, Rendered(lib, e)) <==> image == e.image
  {
    hide Rendered, RenderedCounts;
    FieldsReadBack(lib, e);
    CountsReadBack(e.counts);
  }
}
