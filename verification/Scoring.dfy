/** The heuristic risk score and the analyst policy laid over it (app/scoring.py, app/permissions.py). */
module Scoring {
  import opened Wrappers

  // ------------------------------------------------------------------ category scores

  const CRITICAL_PERMISSIONS: set<string> := {
    "<all_urls>", "debugger", "nativeMessaging", "proxy", "webRequest", "webRequestBlocking",
    "declarativeNetRequestWithHostAccess", "desktopCapture"
  }

  const HIGH_PERMISSIONS: set<string> := {
    "cookies", "history", "tabs", "browsingData", "downloads", "management", "clipboardRead",
    "contentSettings", "pageCapture", "tabCapture", "audioCapture", "videoCapture", "webNavigation"
  }

  const MEDIUM_PERMISSIONS: set<string> := {
    "storage", "notifications", "contextMenus", "bookmarks", "identity", "geolocation", "scripting",
    "privacy", "sessions", "topSites", "declarativeNetRequest", "clipboardWrite"
  }

  const BROAD_HOST_PATTERNS: set<string> := {"<all_urls>", "*://*/*", "http://*/*", "https://*/*"}

  /** The parts of an inspector finding that scoring reads. */
  datatype ScoredFinding = ScoredFinding(code: string, severity: string, source: string)

  /** The parts of a package analysis that scoring reads. */
  datatype CodeAnalysis = CodeAnalysis(
    findings: seq<ScoredFinding>,
    usesEval: bool,
    usesRemoteCode: bool,
    obfuscationScore: int,
    externalDomains: set<string>)

  /** Everything ``compute_risk_score`` reads.  ``previousCount`` is ``history[-2]``, ``ageDays``
      the age of the last store update; both ``None`` when unknown. */
  datatype Signals = Signals(
    permissions: set<string>,
    hostPermissions: set<string>,
    installCount: Option<int>,
    previousCount: Option<int>,
    publisher: string,
    publisherChanged: bool,
    publisherVerified: Option<bool>,
    ageDays: Option<int>,
    analysis: Option<CodeAnalysis>)

  /** The two name classifiers scoring takes as given: a publisher-name heuristic built on
      regular expressions, and the Public Suffix List. */
  datatype Naming = Naming(looksGeneric: string -> bool, registrableDomain: string -> string)

  function ScorePermissions(permissions: set<string>, hostPermissions: set<string>): int {
    var all := permissions + hostPermissions;
    if all * (CRITICAL_PERMISSIONS + BROAD_HOST_PATTERNS) != {} then 25
    else if all * HIGH_PERMISSIONS != {} then 15
    else if all * MEDIUM_PERMISSIONS != {} then 7
    else 0
  }

  function Min(a: int, b: int): int { if a <= b then a else b }

  function ScorePopularity(installCount: Option<int>, previousCount: Option<int>): int {
    match installCount
    case None => 10
    case Some(count) =>
      var base := if count < 100 then 16 else if count < 1_000 then 8 else if count < 10_000 then 4 else 0;
      match previousCount
      case Some(previous) =>
        // A drop of more than 30% since the reading before.
        if previous > 0 && (previous - count) as real / previous as real > 0.30 then Min(base + 10, 20) else base
      case None => base
  }

  function ScorePublisher(naming: Naming, publisher: string, changed: bool, verified: Option<bool>): int {
    Min((if changed then 8 else 0) + (if verified == Some(false) then 4 else 0)
        + (if naming.looksGeneric(publisher) then 3 else 0), 15)
  }

  function ScoreStaleness(ageDays: Option<int>): int {
    match ageDays
    case None => 10
    case Some(age) =>
      if age > 365 * 3 then 15 else if age > 365 * 2 then 11 else if age > 365 then 7 else if age > 180 then 4 else 0
  }

  function FindingWeight(severity: string): nat {
    if severity == "critical" then 6 else if severity == "high" then 4 else if severity == "medium" then 2 else 0
  }

  predicate CountsTowardCodeBehaviour(finding: ScoredFinding) {
    || finding.source == "javascript"
    || "csp_" <= finding.code
    || finding.code == "manifest_v2"
  }

  function Contribution(finding: ScoredFinding): nat {
    if CountsTowardCodeBehaviour(finding) then FindingWeight(finding.severity) else 0
  }

  /** The total weight of the findings that count. */
  function FindingTotal(findings: seq<ScoredFinding>): nat {
    if findings == [] then 0 else Contribution(findings[0]) + FindingTotal(findings[1..])
  }

  lemma {:induction false} FindingTotalConcat(a: seq<ScoredFinding>, b: seq<ScoredFinding>)
    ensures FindingTotal(a + b) == FindingTotal(a) + FindingTotal(b)
  {
    if a == [] {
      assert a + b == b;
    } else {
      assert (a + b)[1..] == a[1..] + b;
      FindingTotalConcat(a[1..], b);
    }
  }

  method ScoreCodeFindings(findings: seq<ScoredFinding>) returns (score: int)
    ensures score == FindingTotal(findings)
  {
    score := 0;
    for i := 0 to |findings|
      invariant score == FindingTotal(findings[..i])
    {
      assert findings[..i + 1] == findings[..i] + [findings[i]];
      FindingTotalConcat(findings[..i], [findings[i]]);
      if !CountsTowardCodeBehaviour(findings[i]) {
        continue;
      }
      score := score + FindingWeight(findings[i].severity);
    }
    assert findings[..|findings|] == findings;
  }

  function ScoreCodeBehaviour(analysis: Option<CodeAnalysis>): int {
    match analysis
    case None => 7
    case Some(a) =>
      Min((if a.usesEval then 8 else 0) + (if a.usesRemoteCode then 5 else 0)
          + (if a.obfuscationScore >= 6 then 5 else if a.obfuscationScore >= 3 then 3 else 0)
          + Min(FindingTotal(a.findings), 7), 15)
  }

  /** Nothing in the code counts against it. */
  predicate NoCodeSignal(a: CodeAnalysis) {
    && !a.usesEval && !a.usesRemoteCode && a.obfuscationScore < 3
    && forall i | 0 <= i < |a.findings| :: Contribution(a.findings[i]) == 0
  }

  lemma {:induction false} NothingCounts(findings: seq<ScoredFinding>)
    ensures FindingTotal(findings) == 0 <==> forall i | 0 <= i < |findings| :: Contribution(findings[i]) == 0
  {
    if findings != [] {
      NothingCounts(findings[1..]);
      assert forall i | 1 <= i < |findings| :: findings[i] == findings[1..][i - 1];
    }
  }

  /** The same score, accumulated as the source does. */
  method ComputeCodeBehaviour(analysis: CodeAnalysis) returns (score: int)
    ensures score == ScoreCodeBehaviour(Some(analysis))
    ensures score == 0 <==> NoCodeSignal(analysis)
  {
    score := 0;
    if analysis.usesEval {
      score := score + 8;
    }
    if analysis.usesRemoteCode {
      score := score + 5;
    }
    if analysis.obfuscationScore >= 6 {
      score := score + 5;
    } else if analysis.obfuscationScore >= 3 {
      score := score + 3;
    }
    var findings := ScoreCodeFindings(analysis.findings);
    score := score + Min(findings, 7);
    score := Min(score, 15);
    NothingCounts(analysis.findings);
  }

  function ScoreExternalDomains(naming: Naming, analysis: Option<CodeAnalysis>): int {
    match analysis
    case None => 5
    case Some(a) =>
      var count := |set d | d in a.externalDomains :: naming.registrableDomain(d)|;
      if count == 0 then 0 else if count <= 2 then 3 else if count <= 5 then 6 else 10
  }

  datatype RiskDetail = RiskDetail(
    permissions: int, popularity: int, publisher: int, staleness: int, codeBehaviour: int, externalDomains: int,
    total: int, riskLevel: Level)
  {
    function ComponentTotal(): int {
      permissions + popularity + publisher + staleness + codeBehaviour + externalDomains
    }
  }

  function ComputeRiskScore(naming: Naming, s: Signals): RiskDetail {
    var p := ScorePermissions(s.permissions, s.hostPermissions);
    var pop := ScorePopularity(s.installCount, s.previousCount);
    var pub := ScorePublisher(naming, s.publisher, s.publisherChanged, s.publisherVerified);
    var stale := ScoreStaleness(s.ageDays);
    var code := ScoreCodeBehaviour(s.analysis);
    var domains := ScoreExternalDomains(naming, s.analysis);
    var total := Min(p + pop + pub + stale + code + domains, 100);
    RiskDetail(p, pop, pub, stale, code, domains, total, BandOf(total))
  }

  /** Every category stays within its cap; the caps add up to 100, so the final clamp never
      bites and the total is the plain sum of its explanation. */
  lemma CategoriesWithinCaps(naming: Naming, s: Signals)
    ensures var r := ComputeRiskScore(naming, s);
            && 0 <= r.permissions <= 25
            && 0 <= r.popularity <= 20
            && 0 <= r.publisher <= 15
            && 0 <= r.staleness <= 15
            && 0 <= r.codeBehaviour <= 15
            && 0 <= r.externalDomains <= 10
            && 25 + 20 + 15 + 15 + 15 + 10 == 100
            && 0 <= r.total == r.ComponentTotal() <= 100
  {
  }

  /** What one permission or host pattern weighs. */
  function PermissionWeight(permission: string): int {
    if permission in CRITICAL_PERMISSIONS || permission in BROAD_HOST_PATTERNS then 25
    else if permission in HIGH_PERMISSIONS then 15
    else if permission in MEDIUM_PERMISSIONS then 7
    else 0
  }

  /** The permission score is the weight of the heaviest permission, whatever kind it is. */
  lemma PermissionScoreIsMaximum(permissions: set<string>, hostPermissions: set<string>)
    ensures var score := ScorePermissions(permissions, hostPermissions);
            && (forall p | p in permissions || p in hostPermissions :: PermissionWeight(p) <= score)
            && (score > 0 ==> exists p :: (p in permissions || p in hostPermissions) && PermissionWeight(p) == score)
  {
    var all := permissions + hostPermissions;
    var critical := CRITICAL_PERMISSIONS + BROAD_HOST_PATTERNS;
    Overlap(all, critical);
    Overlap(all, HIGH_PERMISSIONS);
    Overlap(all, MEDIUM_PERMISSIONS);
    var score := ScorePermissions(permissions, hostPermissions);
    if score > 0 {
      var group := if score == 25 then critical else if score == 15 then HIGH_PERMISSIONS else MEDIUM_PERMISSIONS;
      var p :| p in all && p in group;
      assert PermissionWeight(p) == score;
    }
  }

  lemma Overlap<T>(a: set<T>, b: set<T>)
    ensures a * b != {} <==> exists x :: x in a && x in b
  {
    forall x | x in a && x in b ensures x in a * b {
    }
  }

  function Points(condition: bool, points: int): int { if condition then points else 0 }

  /** The scores by what each threshold adds. The caps on the publisher score never bite. */
  lemma ScoresByThreshold(naming: Naming, count: int, age: int, publisher: string, changed: bool,
                          verified: Option<bool>)
    ensures ScorePopularity(Some(count), None) ==
            Points(count < 10_000, 4) + Points(count < 1_000, 4) + Points(count < 100, 8)
    ensures ScoreStaleness(Some(age)) ==
            Points(age > 180, 4) + Points(age > 365, 3) + Points(age > 2 * 365, 4) + Points(age > 3 * 365, 4)
    ensures ScorePublisher(naming, publisher, changed, verified) ==
            Points(changed, 8) + Points(verified == Some(false), 4) + Points(naming.looksGeneric(publisher), 3)
  {
  }

  lemma AnalysisScoresByThreshold(naming: Naming, a: CodeAnalysis)
    ensures var sum := Points(a.usesEval, 8) + Points(a.usesRemoteCode, 5) + Points(a.obfuscationScore >= 3, 3)
                       + Points(a.obfuscationScore >= 6, 2)
                       + (if FindingTotal(a.findings) < 7 then FindingTotal(a.findings) else 7);
            ScoreCodeBehaviour(Some(a)) == if sum < 15 then sum else 15
    ensures var parties := |set d | d in a.externalDomains :: naming.registrableDomain(d)|;
            ScoreExternalDomains(naming, Some(a)) ==
            Points(parties >= 1, 3) + Points(parties >= 3, 3) + Points(parties >= 6, 4)
  {
  }

  /** The positions of the findings that count, of one severity. */
  function Counting(findings: seq<ScoredFinding>, severity: string): set<nat> {
    set k: nat | k < |findings| && CountsTowardCodeBehaviour(findings[k]) && findings[k].severity == severity
  }

  /** A critical finding weighs 6, a high one 4, a medium one 2, and others nothing. */
  lemma {:induction false} FindingTotalIs(findings: seq<ScoredFinding>)
    ensures FindingTotal(findings) ==
            6 * |Counting(findings, "critical")| + 4 * |Counting(findings, "high")| + 2 * |Counting(findings, "medium")|
    decreases |findings|
  {
    if findings != [] {
      var n := |findings| - 1;
      var before, last := findings[..n], findings[n];
      FindingTotalIs(before);
      FindingTotalConcat(before, [last]);
      assert findings == before + [last] && [last][1..] == [];
      CountingNext(before, last, "critical");
      CountingNext(before, last, "high");
      CountingNext(before, last, "medium");
      assert "critical"[0] != "high"[0] && "critical"[0] != "medium"[0] && "high"[0] != "medium"[0];
    }
  }

  lemma CountingNext(before: seq<ScoredFinding>, last: ScoredFinding, severity: string)
    ensures |Counting(before + [last], severity)| ==
            |Counting(before, severity)|
            + (if CountsTowardCodeBehaviour(last) && last.severity == severity then 1 else 0)
  {
    var all := before + [last];
    assert Counting(all, severity) ==
           Counting(before, severity)
           + (if CountsTowardCodeBehaviour(last) && last.severity == severity then {|before|} else {});
  }

  /** A fall of more than 30% from a positive reading adds 10 points, up to 20 in all; anything else adds
      nothing. */
  lemma SuddenDropIff(count: int, previous: int)
    requires previous > 0
    ensures var base, score := ScorePopularity(Some(count), None), ScorePopularity(Some(count), Some(previous));
            && (score > base <==> 10 * count < 7 * previous)
            && (score > base ==> score == if base + 10 <= 20 then base + 10 else 20)
  {
    var p, c := previous as real, count as real;
    assert (previous - count) as real == p - c;
    assert (p - c) / p > 0.30 <==> p - c > 0.30 * p by {
      DivisionExceeds(p - c, p, 0.30);
    }
    assert p - c > 0.30 * p <==> 10.0 * c < 7.0 * p;
    assert (10 * count) as real == 10.0 * c && (7 * previous) as real == 7.0 * p;
  }

  lemma DivisionExceeds(x: real, y: real, z: real)
    requires y > 0.0
    ensures x / y > z <==> x > z * y
  {
    assert x == (x / y) * y;
    if x / y > z {
      assert (x / y - z) * y > 0.0;
    } else {
      assert (z - x / y) * y >= 0.0;
    }
  }

  /** The same signals without the package analysis. */
  function Unanalysed(s: Signals): Signals { s.(analysis := None) }

  /** Losing the analysis puts the two scores read from it at their midpoints: the total rises by 12 less
      what they were, so it stays exactly when they add up to 12, and rises by all 12 exactly when the
      package shows no code signal and no external domain. */
  lemma MissingAnalysisShift(naming: Naming, s: Signals)
    requires s.analysis.Some?
    ensures var with, without := ComputeRiskScore(naming, s), ComputeRiskScore(naming, Unanalysed(s));
            && without.total - with.total == 12 - (with.codeBehaviour + with.externalDomains)
            && -13 <= without.total - with.total <= 12
            && (without.total - with.total == 12 <==>
                  NoCodeSignal(s.analysis.value) && s.analysis.value.externalDomains == {})
  {
    var with, without := ComputeRiskScore(naming, s), ComputeRiskScore(naming, Unanalysed(s));
    CategoriesWithinCaps(naming, s);
    CategoriesWithinCaps(naming, Unanalysed(s));
    NothingCounts(s.analysis.value.findings);
    var domains := set d | d in s.analysis.value.externalDomains :: naming.registrableDomain(d);
    if s.analysis.value.externalDomains != {} {
      var d :| d in s.analysis.value.externalDomains;
      assert naming.registrableDomain(d) in domains;
    }
  }

  // ------------------------------------------------------------------ monotonicity

  /** At least as risky an analysis: more findings, domains, obfuscation, eval or remote code. */
  ghost predicate AnalysisAtMost(a: Option<CodeAnalysis>, b: Option<CodeAnalysis>) {
    match (a, b)
    case (Some(x), Some(y)) =>
      && multiset(x.findings) <= multiset(y.findings)
      && (x.usesEval ==> y.usesEval)
      && (x.usesRemoteCode ==> y.usesRemoteCode)
      && x.obfuscationScore <= y.obfuscationScore
      && x.externalDomains <= y.externalDomains
    case (None, None) => true
    case _ => false
  }

  ghost predicate AtMost(a: Option<int>, b: Option<int>) {
    match (a, b)
    case (Some(x), Some(y)) => x <= y
    case (None, None) => true
    case _ => false
  }

  /** ``b`` shows every risk signal ``a`` shows; a known install count only falls. */
  ghost predicate SignalsAtMost(a: Signals, b: Signals) {
    && a.permissions + a.hostPermissions <= b.permissions + b.hostPermissions
    && AtMost(b.installCount, a.installCount)
    && a.previousCount == b.previousCount
    && a.publisher == b.publisher
    && (a.publisherChanged ==> b.publisherChanged)
    && (a.publisherVerified == Some(false) ==> b.publisherVerified == Some(false))
    && AtMost(a.ageDays, b.ageDays)
    && AnalysisAtMost(a.analysis, b.analysis)
  }

  lemma FindingTotalWithout(findings: seq<ScoredFinding>, i: nat)
    requires i < |findings|
    ensures var rest := findings[..i] + findings[i + 1..];
            && FindingTotal(findings) == Contribution(findings[i]) + FindingTotal(rest)
            && multiset(findings) == multiset(rest) + multiset{findings[i]}
  {
    var before, it, after := findings[..i], [findings[i]], findings[i + 1..];
    assert findings == before + it + after;
    FindingTotalConcat(before + it, after);
    FindingTotalConcat(before, it);
    FindingTotalConcat(before, after);
    assert it[1..] == [];
  }

  lemma {:induction false} FindingTotalMonotone(a: seq<ScoredFinding>, b: seq<ScoredFinding>)
    requires multiset(a) <= multiset(b)
    ensures FindingTotal(a) <= FindingTotal(b)
    decreases |a|
  {
    if a != [] {
      assert a == [a[0]] + a[1..];
      assert a[0] in multiset(b);
      var i :| 0 <= i < |b| && b[i] == a[0];
      FindingTotalWithout(b, i);
      assert multiset(a[1..]) == multiset(a) - multiset{a[0]};
      FindingTotalMonotone(a[1..], b[..i] + b[i + 1..]);
    }
  }

  lemma {:induction false} SubsetNotLarger<T>(a: set<T>, b: set<T>)
    requires a <= b
    ensures |a| <= |b|
  {
    assert b == a + (b - a);
    assert |b| == |a| + |b - a|;
  }

  lemma PopularityAntitone(a: int, b: int, previous: Option<int>)
    requires a <= b
    ensures ScorePopularity(Some(b), previous) <= ScorePopularity(Some(a), previous)
  {
    if previous.Some? && previous.value > 0 {
      var p := previous.value as real;
      assert (p - b as real) / p <= (p - a as real) / p;
      assert (previous.value - b) as real == p - b as real && (previous.value - a) as real == p - a as real;
    }
  }

  /** More permissions, findings, domains, obfuscation, age, or fewer installs never lower the score. */
  lemma ScoreMonotone(naming: Naming, a: Signals, b: Signals)
    requires SignalsAtMost(a, b)
    ensures ComputeRiskScore(naming, a).total <= ComputeRiskScore(naming, b).total
  {
    assert ScorePermissions(a.permissions, a.hostPermissions) <= ScorePermissions(b.permissions, b.hostPermissions) by {
      var x, y := a.permissions + a.hostPermissions, b.permissions + b.hostPermissions;
      assert x * (CRITICAL_PERMISSIONS + BROAD_HOST_PATTERNS) <= y * (CRITICAL_PERMISSIONS + BROAD_HOST_PATTERNS);
      assert x * HIGH_PERMISSIONS <= y * HIGH_PERMISSIONS;
      assert x * MEDIUM_PERMISSIONS <= y * MEDIUM_PERMISSIONS;
    }
    if a.installCount.Some? {
      PopularityAntitone(b.installCount.value, a.installCount.value, a.previousCount);
    }
    AnalysisScoresMonotone(naming, a.analysis, b.analysis);
  }

  lemma AnalysisScoresMonotone(naming: Naming, a: Option<CodeAnalysis>, b: Option<CodeAnalysis>)
    requires AnalysisAtMost(a, b)
    ensures ScoreCodeBehaviour(a) <= ScoreCodeBehaviour(b)
    ensures ScoreExternalDomains(naming, a) <= ScoreExternalDomains(naming, b)
  {
    if a.Some? {
      FindingTotalMonotone(a.value.findings, b.value.findings);
      var x := set d | d in a.value.externalDomains :: naming.registrableDomain(d);
      var y := set d | d in b.value.externalDomains :: naming.registrableDomain(d);
      SubsetNotLarger(x, y);
    }
  }

  // ------------------------------------------------------------------ bands and policy

  /** The severity bands, and the level shown for a suppressed extension. */
  datatype Level = Critical | High | Medium | Low | Suppression

  /** Bands with their inclusive lower bounds, highest first. */
  const RISK_LEVEL_THRESHOLDS: seq<(Level, int)> := [(Critical, 75), (High, 50), (Medium, 25), (Low, 0)]

  function FirstBand(thresholds: seq<(Level, int)>, score: int): Level {
    if thresholds == [] then Low
    else if score >= thresholds[0].1 then thresholds[0].0
    else FirstBand(thresholds[1..], score)
  }

  function BandOf(score: int): Level { FirstBand(RISK_LEVEL_THRESHOLDS, score) }

  function RiskLevel(score: Option<int>): Option<Level> {
    if score.None? then None else Some(BandOf(score.value))
  }

  /** The analyst's policy on one extension. */
  datatype Override = NoOverride | Allow | Deny

  function EffectiveRiskScore(heuristic: Option<int>, threatMatch: bool, policy: Override): Option<int> {
    if threatMatch || policy.Deny? then Some(100)
    else if policy.Allow? then Some(0)
    else heuristic
  }

  predicate Suppressed(threatMatch: bool, policy: Override) { policy.Allow? && !threatMatch }

  function EffectiveRiskLevel(score: Option<int>, threatMatch: bool, policy: Override): Option<Level> {
    if Suppressed(threatMatch, policy) then Some(Suppression) else RiskLevel(score)
  }
}
