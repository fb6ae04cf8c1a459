/**
 What a fetch hands to scoring, and what of it the stored explanation shows (``fetch_and_store`` and
 ``_effective_values``, app/services.py).
 */
module FetchScores {
  import opened Wrappers
  import opened ChangeEvents
  import opened Scoring
  import opened PackageDiff
  import opened Extensions
  import P = Posture

  /** The scraped value, or the stored one when the scrape has none. */
  function Either<T>(scraped: Option<T>, stored: Option<T>): Option<T> {
    if scraped.Some? then scraped else stored
  }

  /** The reading before the current one, which is the scraped one if there is one. */
  function ReadingBefore(readings: seq<int>, scraped: Option<int>): Option<int> {
    var n := |readings|;
    if scraped.Some? then (if n >= 1 then Some(readings[n - 1]) else None)
    else if n >= 2 then Some(readings[n - 2]) else None
  }

  /** The store shows a publisher other than the one known from an earlier fetch. */
  predicate PublisherMoved(row: Row, md: Metadata) {
    && row.lastFetchedAt.Some? && row.publisher != "" && md.publisher != "" && md.publisher != row.publisher
  }

  function AgeInDays(now: int, lastUpdated: Option<int>): Option<int> {
    if lastUpdated.Some? then Some((now - lastUpdated.value) / SECONDS_PER_DAY) else None
  }

  ghost predicate ShownAs(d: P.Detail, key: P.DetailKey, n: int) { key in d && d[key] == P.Number(n) }

  lemma PreviousReading(row: Row, input: FetchInput)
    ensures PreviousCount(StagedHistory(row.installReadings, input.metadata.installCount)) ==
            ReadingBefore(row.installReadings, input.metadata.installCount)
  {
    TwoReadingsSuffice(row.installReadings, input.metadata.installCount);
  }

  /** What scoring has to be told: the package's permissions or, without one, the stored ones; the scraped
      install count and store update or the stored ones, with the reading before; the publisher that is stored
      and whether it moved; the code and the domains of the package. */
  function Facts(row: Row, input: FetchInput, publisher: string): Signals {
    var md, analysis := input.metadata, input.analysis;
    Signals(
      if analysis.Some? then Members(analysis.value.permissions) else row.permissions,
      if analysis.Some? then Members(analysis.value.hostPermissions) else HostPermissions(row),
      Either(md.installCount, row.installCount),
      ReadingBefore(row.installReadings, md.installCount),
      publisher,
      PublisherMoved(row, md),
      md.publisherVerified,
      AgeInDays(input.now, Either(md.lastUpdated, row.lastUpdated)),
      if analysis.Some? then Some(analysis.value.ToCode()) else None)
  }

  /** The explanation shows the score of each category. */
  ghost predicate Explains(d: P.Detail, naming: Naming, s: Signals) {
    && ShownAs(d, P.Permissions, ScorePermissions(s.permissions, s.hostPermissions))
    && ShownAs(d, P.Popularity, ScorePopularity(s.installCount, s.previousCount))
    && ShownAs(d, P.Publisher, ScorePublisher(naming, s.publisher, s.publisherChanged, s.publisherVerified))
    && ShownAs(d, P.Staleness, ScoreStaleness(s.ageDays))
    && ShownAs(d, P.CodeBehaviour, ScoreCodeBehaviour(s.analysis))
    && ShownAs(d, P.ExternalDomains, ScoreExternalDomains(naming, s.analysis))
  }

  lemma FetchedExplains(p: P.Posture, naming: Naming, s: Signals, listed: bool)
    ensures var q := P.Fetched(p, ComputeRiskScore(naming, s), listed);
            && q.detail.Some? && Explains(q.detail.value, naming, s)
            && q.heuristic == Some(P.ComponentSum(q.detail.value, P.COMPONENTS))
  {
    var risk := ComputeRiskScore(naming, s);
    CategoriesWithinCaps(naming, s);
    P.SumOfComponents(P.Fetched(p, risk, listed).detail.value, risk.permissions, risk.popularity, risk.publisher,
                      risk.staleness, risk.codeBehaviour, risk.externalDomains);
  }

  lemma SignalsAreFacts(row: Row, input: FetchInput)
    ensures SignalsOf(row, input) == Facts(row, input, StoredRow(row, input).publisher)
  {
    PreviousReading(row, input);
  }

  /** The stored explanation shows the score of each category for the facts of the fetch, and the stored
      heuristic is their sum. */
  lemma FetchExplained(row: Row, input: FetchInput)
    ensures var stored := StoredRow(row, input);
            && stored.posture.detail.Some?
            && Explains(stored.posture.detail.value, input.naming, Facts(row, input, stored.publisher))
            && stored.posture.heuristic == Some(P.ComponentSum(stored.posture.detail.value, P.COMPONENTS))
  {
    SignalsAreFacts(row, input);
    FetchedExplains(row.posture, input.naming, SignalsOf(row, input), input.threats != []);
  }

  /** The findings, flags and domains the code score reads are the package's own. */
  lemma CodeIsInspected(analysis: PackageAnalysis)
    ensures var code := analysis.ToCode();
            && code.usesEval == analysis.usesEval && code.usesRemoteCode == analysis.usesRemoteCode
            && code.obfuscationScore == analysis.obfuscationScore
            && (forall d :: d in code.externalDomains <==> d in analysis.externalDomains)
            && |code.findings| == |analysis.findings|
            && forall i | 0 <= i < |analysis.findings| ::
                 && code.findings[i].code == analysis.findings[i].code
                 && code.findings[i].severity == analysis.findings[i].severity
                 && code.findings[i].source == analysis.findings[i].source
  {
  }
}
