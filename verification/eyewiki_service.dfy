/**
 * The Eyewiki specialisation of the scraper: which discovered links are
 * worth following, and how site-specific post-processing of a page reports
 * its own failures.
 *
 * The inherited link predicate, the inherited page processing and the
 * site-specific content step are parameters: their definitions are not part
 * of this model. URLs arrive already split into their path and query parts.
 */
module EyewikiService {
  import opened Models
  import opened PyStr

  /** Wiki namespaces whose pages are never followed. */
  const DeniedPathPrefixes: seq<string> := ["/Special:", "/File:", "/Talk:"]

  /** Query fragment marking an edit view. */
  const EditAction: string := "action=edit"

  /** Follow a link when the inherited predicate does, its path is outside
   *  the denied namespaces and its query is not an edit view. */
  function ShouldFollowLink(baseShouldFollow: string -> bool, url: string, path: string, query: string): (follow: bool)
    ensures follow <==>
      && baseShouldFollow(url)
      && (forall k :: 0 <= k < |DeniedPathPrefixes| ==> !(DeniedPathPrefixes[k] <= path))
      && !(exists i :: OccursAt(query, EditAction, i))
  {
    baseShouldFollow(url) && !StartsWithAny(path, DeniedPathPrefixes) && !Contains(query, EditAction)
  }

  /** The Eyewiki filter only narrows the inherited one. */
  lemma FilterOnlyNarrows(baseShouldFollow: string -> bool, url: string, path: string, query: string)
    ensures ShouldFollowLink(baseShouldFollow, url, path, query) ==> baseShouldFollow(url)
  {
  }

  /** A path in any denied namespace is rejected, whatever else holds. */
  lemma DeniedNamespacesRejected(baseShouldFollow: string -> bool, url: string, rest: string, query: string)
    ensures !ShouldFollowLink(baseShouldFollow, url, "/Special:" + rest, query)
    ensures !ShouldFollowLink(baseShouldFollow, url, "/File:" + rest, query)
    ensures !ShouldFollowLink(baseShouldFollow, url, "/Talk:" + rest, query)
  {
    assert DeniedPathPrefixes[0] <= "/Special:" + rest;
    assert DeniedPathPrefixes[1] <= "/File:" + rest;
    assert DeniedPathPrefixes[2] <= "/Talk:" + rest;
  }

  /** A query containing the edit action anywhere is rejected. */
  lemma EditQueriesRejected(baseShouldFollow: string -> bool, url: string, path: string, before: string, after: string)
    ensures !ShouldFollowLink(baseShouldFollow, url, path, before + EditAction + after)
  {
    var q := before + EditAction + after;
    assert q[|before|..|before| + |EditAction|] == EditAction;
    assert OccursAt(q, EditAction, |before|);
  }

  /**
   * The path test is an anchored prefix test on exact characters: a denied
   * namespace below another segment, or spelled in lower case, passes
   * through to the inherited predicate.
   */
  lemma PathTestIsAnchoredAndCaseSensitive(baseShouldFollow: string -> bool, url: string)
    ensures ShouldFollowLink(baseShouldFollow, url, "/wiki/Special:X", "") == baseShouldFollow(url)
    ensures ShouldFollowLink(baseShouldFollow, url, "/special:x", "") == baseShouldFollow(url)
  {
    assert "/wiki/Special:X"[1] == 'w';
    assert "/special:x"[1] == 's';
  }

  /** The query test is case-sensitive: an upper-case edit action passes through. */
  lemma QueryTestIsCaseSensitive(baseShouldFollow: string -> bool, url: string)
    ensures ShouldFollowLink(baseShouldFollow, url, "/Main", "Action=Edit") == baseShouldFollow(url)
  {
    assert "/Main"[1] == 'M';
    OccursInSameLength("Action=Edit", EditAction);
    assert "Action=Edit"[0] != EditAction[0];
  }

  // ---------------------------------------------------------------------
  // process_page

  /** Prefix of the error recorded when the site-specific step raises. */
  const ContentErrorPrefix: string := "Content processing error: "

  /**
   * What the site-specific step leaves behind: the page's body text when it
   * finished, or when it raised, together with the exception message.
   */
  datatype StepOutcome =
    | Completed(bodyText: Option<string>)
    | Raised(bodyText: Option<string>, message: string)

  /**
   * Run the inherited processing, pass a page that carries an error through
   * untouched, and otherwise apply the site-specific step, turning an
   * exception into a recorded error.
   */
  function ProcessPage(baseProcessPage: string -> Page, siteStep: Page -> StepOutcome, url: string): (page: Page)
    ensures HasError(baseProcessPage(url)) ==> page == baseProcessPage(url)
    ensures !HasError(baseProcessPage(url)) && siteStep(baseProcessPage(url)).Raised? ==>
      page.error == Some(ContentErrorPrefix + siteStep(baseProcessPage(url)).message)
    ensures !HasError(baseProcessPage(url)) && siteStep(baseProcessPage(url)).Completed? ==>
      page.error == baseProcessPage(url).error
    ensures HasError(page) <==> HasError(baseProcessPage(url)) || siteStep(baseProcessPage(url)).Raised?
    ensures page.(bodyText := baseProcessPage(url).bodyText, error := baseProcessPage(url).error) == baseProcessPage(url)
  {
    var pageData := baseProcessPage(url);
    if HasError(pageData) then pageData
    else match siteStep(pageData)
      case Completed(body) => pageData.(bodyText := body)
      case Raised(body, message) => pageData.(bodyText := body, error := Some(ContentErrorPrefix + message))
  }

  /** A page that failed once passes unchanged through a second round of processing. */
  lemma FailedPageIsFixpoint(baseProcessPage: string -> Page, siteStep: Page -> StepOutcome, url: string)
    requires HasError(ProcessPage(baseProcessPage, siteStep, url))
    ensures ProcessPage(_ => ProcessPage(baseProcessPage, siteStep, url), siteStep, url)
            == ProcessPage(baseProcessPage, siteStep, url)
  {
  }
}
