/** The deterministic release id (release/model_release_publisher.py:467-491). */
module ReleaseIdentity {
  import opened Text
  import opened ReleaseStore
  import opened EvidenceBundle
  import opened ReleaseValidation

  /** The layout of `json.dumps(..., sort_keys=True)`. */
  const PLAIN: nat := 2

  const PREFIX := "release-"

  function EvidenceDigest(p: Platform, evidence: Bundle): string {
    p.sha(File(PLAIN, Payload(evidence)))
  }

  /** Python's `s[:n]`. */
  function Take(s: string, n: nat): string {
    if |s| < n then s else s[..n]
  }

  function ReleaseIdOf(checkpointSha: string, metricsSha: string, evidenceSha: string): string {
    PREFIX + Take(checkpointSha, 16) + "-" + Take(metricsSha, 12) + "-" + Take(evidenceSha, 12)
  }

  predicate IdChar(c: char) {
    '0' <= c <= '9' || 'a' <= c <= 'z' || c == '-'
  }

  lemma IdChars(checkpointSha: string, metricsSha: string, evidenceSha: string)
    requires HexDigest(checkpointSha) && HexDigest(metricsSha) && HexDigest(evidenceSha)
    ensures var id := ReleaseIdOf(checkpointSha, metricsSha, evidenceSha);
      |id| == 50 && id[0] == 'r' && id[1] == 'e' && forall c :: c in id ==> IdChar(c)
  {
    DigestChars(checkpointSha, 16);
    DigestChars(metricsSha, 12);
    DigestChars(evidenceSha, 12);
    assert forall c :: c in PREFIX ==> IdChar(c);
    hide HexDigest, IdChar;
    assert IdChar('-') by { DashIsIdChar(); }
    var id := ReleaseIdOf(checkpointSha, metricsSha, evidenceSha);
    assert |PREFIX| == 8 && PREFIX[0] == 'r' && PREFIX[1] == 'e';
  }

  lemma DashIsIdChar()
    ensures IdChar('-')
  {}

  lemma DigestChars(s: string, n: nat)
    requires HexDigest(s) && n <= 64
    ensures |s| == 64 && forall c :: c in s[..n] ==> IdChar(c)
  {
    forall c | c in s[..n] ensures IdChar(c) { assert c in s; }
  }

  /** Every release id is a directory name the pointer can carry: it is one clean segment, and
      no cleanup of staging directories can take it for its own. */
  lemma ReleaseIdIsName(checkpointSha: string, metricsSha: string, evidenceSha: string)
    requires HexDigest(checkpointSha) && HexDigest(metricsSha) && HexDigest(evidenceSha)
    ensures ReleaseName(ReleaseIdOf(checkpointSha, metricsSha, evidenceSha))
  {
    IdChars(checkpointSha, metricsSha, evidenceSha);
    IdIsName(ReleaseIdOf(checkpointSha, metricsSha, evidenceSha)) by { hide ReleaseIdOf, HexDigest; }
  }

  lemma IdIsName(id: string)
    requires |id| == 50 && id[0] == 'r' && id[1] == 'e' && forall c :: c in id ==> IdChar(c)
    ensures ReleaseName(id)
  {
    assert '/' !in id && '\0' !in id && '\\' !in id;
    assert id[0] in id && STAGING_PREFIX[0] == '.';
    ReleasesSegment();
    hide IdChar;
    var parts := [RELEASES, id];
    assert CleanSegment(id);
    assert parts[0] == RELEASES;
  }

  lemma ReleasesSegment()
    ensures CleanSegment(RELEASES) && '\0' !in RELEASES && '\\' !in RELEASES && RELEASES[1] == 'e'
  {}

  /** What a release id looks like. */
  lemma ReleaseIdSays(checkpoint: string, metrics: string, evidence: string)
    requires HexDigest(checkpoint) && HexDigest(metrics) && HexDigest(evidence)
    ensures var id := ReleaseIdOf(checkpoint, metrics, evidence);
      && |id| == 50 && id[..8] == "release-" && id[24] == '-' && id[37] == '-'
      && id[8..24] == checkpoint[..16] && id[25..37] == metrics[..12] && id[38..] == evidence[..12]
  {
    Slices(checkpoint, metrics, evidence);
    hide HexDigest;
  }

  /** Two promotions share a release directory exactly when their digests agree on the leading
      characters the id keeps. */
  lemma ReleaseIdEqualIff(checkpoint: string, metrics: string, evidence: string,
                          checkpoint': string, metrics': string, evidence': string)
    requires HexDigest(checkpoint) && HexDigest(metrics) && HexDigest(evidence)
    requires HexDigest(checkpoint') && HexDigest(metrics') && HexDigest(evidence')
    ensures ReleaseIdOf(checkpoint, metrics, evidence) == ReleaseIdOf(checkpoint', metrics', evidence')
      <==> checkpoint[..16] == checkpoint'[..16] && metrics[..12] == metrics'[..12] && evidence[..12] == evidence'[..12]
  {
    Slices(checkpoint, metrics, evidence);
    Slices(checkpoint', metrics', evidence');
    hide HexDigest;
  }

  lemma Slices(checkpoint: string, metrics: string, evidence: string)
    requires HexDigest(checkpoint) && HexDigest(metrics) && HexDigest(evidence)
    ensures var id := ReleaseIdOf(checkpoint, metrics, evidence);
      |id| == 50 && id[8..24] == checkpoint[..16] && id[25..37] == metrics[..12] && id[38..50] == evidence[..12]
  {
    assert |checkpoint| == 64 && |metrics| == 64 && |evidence| == 64;
    hide HexDigest;
    assert |PREFIX| == 8;
  }

  /** Two checkpoints whose digests differ in the last digit share an id. */
  lemma TwoCheckpointsOneId(metrics: string, evidence: string) returns (checkpoint: string, other: string)
    requires HexDigest(metrics) && HexDigest(evidence)
    ensures HexDigest(checkpoint) && HexDigest(other) && checkpoint != other
    ensures ReleaseIdOf(checkpoint, metrics, evidence) == ReleaseIdOf(other, metrics, evidence)
  {
    checkpoint := seq(64, (i: nat) => 'a');
    other := checkpoint[63 := 'b'];
    assert checkpoint[63] != other[63] && checkpoint[..16] == other[..16];
    ReleaseIdEqualIff(checkpoint, metrics, evidence, other, metrics, evidence);
  }
}
