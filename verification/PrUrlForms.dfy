/** What a pull-request link looks like, and what is read from it. */
module PrUrlForms {
  import opened TicketKeys
  import opened PrUrls

  predicate Ident(s: string) { s != "" && forall k :: 0 <= k < |s| ==> IsUrlIdent(s[k]) }

  predicate Digits(s: string) { s != "" && forall k :: 0 <= k < |s| ==> '0' <= s[k] <= '9' }

  /** A link as a browser shows it. */
  function Link(owner: string, repo: string, digits: string): string {
    "https://github.com/" + owner + "/" + repo + "/pull/" + digits
  }

  lemma LinkParts(owner: string, repo: string, digits: string)
    ensures var s := Link(owner, repo, digits);
      var r := 19 + |owner|;
      var m := r + 1 + |repo|;
      && |s| == m + 6 + |digits| && s[..19] == "https://github.com/" && s[19..r] == owner && s[r] == '/'
      && s[r + 1..m] == repo && s[m..m + 6] == "/pull/" && s[m + 6..] == digits
  {
    var s := Link(owner, repo, digits);
    var r := 19 + |owner|;
    var a := "https://github.com/" + owner;
    var b := a + "/" + repo;
    assert s == b + "/pull/" + digits && b == a + "/" + repo;
  }

  lemma LinkHost(owner: string, repo: string, digits: string)
    ensures var s := Link(owner, repo, digits);
      |s| > 19 && s[7] == '/' && s[18] == '/' && SameIgnoringCase(s[8..18], HOST)
  {
    LinkParts(owner, repo, digits);
    var s := Link(owner, repo, digits);
    assert s[7] == s[..19][7] && s[18] == s[..19][18];
    assert s[8..18] == s[..19][8..18];
    assert s[..19][8..18] == HOST;
  }

  lemma LinkNames(owner: string, repo: string, digits: string)
    requires Ident(owner) && Ident(repo) && Digits(digits)
    ensures var s := Link(owner, repo, digits);
      var r := 19 + |owner|;
      var m := r + 1 + |repo|;
      && |s| > m + 6
      && (forall k :: 18 < k < r ==> IsUrlIdent(s[k]))
      && (forall k :: r < k < m ==> IsUrlIdent(s[k]))
      && (forall k :: m + 6 <= k < |s| ==> IsDigit(s[k]))
  {
    LinkParts(owner, repo, digits);
    var s := Link(owner, repo, digits);
    var r := 19 + |owner|;
    var m := r + 1 + |repo|;
    assert forall k :: 18 < k < r ==> s[k] == s[19..r][k - 19];
    assert forall k :: r < k < m ==> s[k] == s[r + 1..m][k - r - 1];
    assert forall k :: m + 6 <= k < |s| ==> s[k] == s[m + 6..][k - m - 6];
  }

  lemma LinkSpans(owner: string, repo: string, digits: string)
    requires Ident(owner) && Ident(repo) && Digits(digits)
    ensures var s := Link(owner, repo, digits);
      var r := 19 + |owner|;
      var m := r + 1 + |repo|;
      RefSpan(s, 7, 18, r, m, |s|) && RefText(s, r, m, |s|) == PrRef(repo + "#" + digits, "#" + digits)
  {
    LinkParts(owner, repo, digits);
    LinkHost(owner, repo, digits);
    LinkNames(owner, repo, digits);
    var s := Link(owner, repo, digits);
    assert s[20 + |owner| + |repo| + 6..|s|] == digits;
  }

  lemma MarkerChars(s: string, i: nat)
    requires MarkerAt(s, i)
    ensures s[i] == '/' && s[i + 1] == 'p' && s[i + 2] == 'u' && s[i + 3] == 'l' && s[i + 4] == 'l'
  {
    var t := s[i..i + 6];
    assert t[0] == s[i] && t[1] == s[i + 1] && t[2] == s[i + 2] && t[3] == s[i + 3] && t[4] == s[i + 4];
  }

  /** A marker that shares its last slash with the one in front of the repository's
      number ends the repository's own name. */
  lemma SharedSlashMeansPull(s: string, repo: string, r: nat, m: nat)
    requires r < m <= |s| && 5 <= m && s[r] == '/' && s[r + 1..m] == repo && '/' !in repo && MarkerAt(s, m - 5)
    ensures repo == "pull"
  {
    MarkerChars(s, m - 5);
    assert forall k :: r < k < m ==> s[k] == s[r + 1..m][k - r - 1];
    assert forall k :: r < k < m ==> s[k] != '/';
    assert m - 5 == r;
  }

  /** Whatever the owner, a link to a repository not called `pull` is read as the
      repository and the number. */
  lemma LinkIsRead(owner: string, repo: string, digits: string)
    requires Ident(owner) && Ident(repo) && Digits(digits) && repo != "pull"
    ensures PrRef(repo + "#" + digits, "#" + digits) in Refs(Link(owner, repo, digits))
  {
    var s := Link(owner, repo, digits);
    var m := 20 + |owner| + |repo|;
    LinkParts(owner, repo, digits);
    LinkSpans(owner, repo, digits);
    assert '/' !in repo;
    if MarkerAt(s, m - 5) { SharedSlashMeansPull(s, repo, 19 + |owner|, m); }
    var ref := PrRef(repo + "#" + digits, "#" + digits);
    assert MarkerAt(s, m) && Visited(s, m);
    assert RefAt(s, m, ref);
    RefsAreExact(s, 0, ref);
  }
}
