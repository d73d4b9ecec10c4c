/** Ghost user IDs (server/matrix/client.go, server/matrix_webhook.go, server/bridge_utils.go). */
module GhostIDs {
  import opened Prelude

  const PREFIX: string := "@_mattermost_"

  /** The ID under which the bridge speaks for a Mattermost user on the server `domain`. */
  function GhostUserID(mattermostUserID: string, domain: string): string {
    "@" + ("_mattermost_" + mattermostUserID) + ":" + domain
  }

  predicate EndsWith(s: string, suffix: string) {
    |suffix| <= |s| && s[|s| - |suffix|..] == suffix
  }

  /** The webhook's test; without a server domain nobody is a ghost. */
  predicate IsGhostUser(userID: string, domain: string) {
    domain != "" && PREFIX <= userID && EndsWith(userID, ":" + domain)
  }

  /** The bridge's own, looser test. */
  predicate HasGhostPrefix(userID: string) {
    PREFIX <= userID
  }

  function IndexOf(s: string, c: char): (i: int)
    ensures -1 <= i < |s|
    ensures i >= 0 ==> s[i] == c && c !in s[..i]
    ensures i < 0 ==> c !in s
  {
    if s == "" then -1
    else if s[0] == c then 0
    else
      var i := IndexOf(s[1..], c);
      assert i >= 0 ==> s[..i + 1] == [s[0]] + s[1..][..i];
      assert s == [s[0]] + s[1..];
      if i < 0 then -1 else i + 1
  }

  function ExtractMattermostUserID(ghostUserID: string): Option<string> {
    if !HasGhostPrefix(ghostUserID) then None
    else
      var rest := ghostUserID[|PREFIX|..];
      var colon := IndexOf(rest, ':');
      if colon == -1 || colon == 0 then None else Some(rest[..colon])
  }

  lemma GhostSplits(u: string, domain: string)
    ensures GhostUserID(u, domain) == PREFIX + (u + ":" + domain)
    ensures GhostUserID(u, domain) == (PREFIX + u) + (":" + domain)
    ensures GhostUserID(u, domain)[|PREFIX|..] == u + ":" + domain
  {
  }

  /** Every ghost ID the bridge builds passes both tests, whatever the user's ID. */
  lemma GhostIsRecognised(u: string, domain: string)
    requires domain != ""
    ensures IsGhostUser(GhostUserID(u, domain), domain) && HasGhostPrefix(GhostUserID(u, domain))
    ensures GhostUserID(u, domain) == "@_mattermost_" + u + ":" + domain
  {
    GhostSplits(u, domain);
    assert |PREFIX + u| == |GhostUserID(u, domain)| - |":" + domain|;
  }

  /** The webhook's test passes just the IDs that the bridge can build. */
  lemma GhostIff(userID: string, domain: string)
    ensures IsGhostUser(userID, domain) <==> domain != "" && exists u :: userID == GhostUserID(u, domain)
  {
    if IsGhostUser(userID, domain) {
      var suffix := ":" + domain;
      var n := |userID| - |suffix|;
      assert userID[n] == suffix[0] == ':';
      assert forall i :: 0 <= i < |PREFIX| ==> userID[i] == PREFIX[i] != ':';
      var u := userID[|PREFIX|..n];
      assert userID == PREFIX + u + suffix;
      GhostSplits(u, domain);
      assert userID == GhostUserID(u, domain);
    }
    if u :| domain != "" && userID == GhostUserID(u, domain) {
      GhostIsRecognised(u, domain);
    }
  }

  lemma FirstIndex(s: string, c: char, k: int)
    requires 0 <= k < |s| && s[k] == c && c !in s[..k]
    ensures IndexOf(s, c) == k
  {
    var i := IndexOf(s, c);
    assert forall j :: 0 <= j < k ==> s[j] == s[..k][j] != c;
    assert forall j :: 0 <= j < i ==> s[j] == s[..i][j] != c;
  }

  /** The Mattermost user can be read back exactly when its ID is not empty and holds no colon. */
  lemma GhostRoundTripIff(u: string, domain: string)
    ensures ExtractMattermostUserID(GhostUserID(u, domain)) == Some(u) <==> u != "" && ':' !in u
  {
    GhostSplits(u, domain);
    var rest := u + ":" + domain;
    assert rest[|u|] == ':' && rest[..|u|] == u;
    if ':' !in u {
      FirstIndex(rest, ':', |u|);
    } else {
      var k := IndexOf(u, ':');
      assert rest[..k] == u[..k];
      FirstIndex(rest, ':', k);
      assert |rest[..k]| < |u|;
    }
  }

  /** Different users have different ghosts. */
  lemma GhostInjective(u: string, v: string, domain: string)
    requires GhostUserID(u, domain) == GhostUserID(v, domain)
    ensures u == v
  {
    GhostSplits(u, domain);
    GhostSplits(v, domain);
    var x, y := u + ":" + domain, v + ":" + domain;
    assert |x| == |y| && x == y;
    assert x[..|u|] == u && y[..|v|] == v;
  }
}
