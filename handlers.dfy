/**
 * The four import handlers of src/index.ts (`importGithubIssues`,
 * `importGithubRepos`, `importGithubProjects`, `importGithubCards`) as pure
 * decisions: from the extension's settings page, the button's keyword record,
 * the current page's title and (for cards) the pages that reference it, each
 * handler either stops with a message or fetches one GitHub request; from the
 * items that request returns it then either writes one message or pushes one
 * bullet per item.
 *
 * The HTTP call itself is not modelled: the fetched items are an input. The
 * Basic-Auth header is kept as the pair it encodes, before base64.
 */
module Handlers {
  import opened Wrappers
  import opened Text

  /** The fields of the extension's settings page (`username`, `token`). */
  type Settings = map<string, string>

  /** The keyword record parsed from the button text (`FOR`, `IN`, `UNDER`, `AS`). */
  type Options = map<string, string>

  const GithubApi: string := "https://api.github.com"
  const MissingUsername: string := "Error: Missing required parameter username!"
  const TokenNotSupportedForCards: string := "Personal Token currently not supported for cards"
  const DefaultColumn: string := "To do"

  /** The prefix a card's `content_url` is cut by: `"https://api.github.com/repos/".length`. */
  const ApiRepos: string := "https://api.github.com/repos/"

  /** `user:token`, the pair the Basic-Auth header encodes. */
  datatype Credentials = Credentials(user: string, token: string)

  /**
   * A GitHub request: straight to the GitHub API with the user's token, or
   * through the extension's own backend (`process.env.API_URL`) without one.
   * `inertiaPreview` is the projects-preview `Accept` header.
   */
  datatype Request =
    | Direct(url: string, credentials: Credentials, inertiaPreview: bool)
    | Proxy(url: string)

  /** What a handler decides before any network traffic. */
  datatype Plan =
    | Stop(message: string)
    | Fetch(request: Request, emptyMessage: string)

  /**
   * What a handler finally does to the clicked block: write one message into
   * it, push bullets, or nothing at all when the request failed (`genericError`
   * only reports the failure).
   */
  datatype Outcome =
    | Write(text: string)
    | Push(bullets: seq<string>)
    | Failed

  /** An issue as the issues endpoint returns it. */
  datatype Issue = Issue(title: string, htmlUrl: string)

  /** A project card; a missing `note` is the empty string (both are falsy). */
  datatype Card = Card(note: string, contentUrl: string, htmlUrl: string)

  // ---------------------------------------------------------------------------
  // Settings and keyword overrides
  // ---------------------------------------------------------------------------

  /** A settings field; a field that was never filled in reads as "". */
  function Setting(settings: Settings, key: string): string {
    if key in settings then settings[key] else ""
  }

  /**
   * `options.KEY ? options.KEY : otherwise`: the keyword's value when it is
   * present and non-empty (truthy), the fallback otherwise.
   */
  function Fallback(options: Options, key: string, otherwise: string): (r: string)
    ensures key in options && options[key] != "" ==> r == options[key]
    ensures key !in options || options[key] == "" ==> r == otherwise
  {
    if key in options && options[key] != "" then options[key] else otherwise
  }

  /** `${value}` of a value that may be undefined: the value, or "undefined". */
  function Interpolate(value: Option<string>): (r: string)
    ensures value.Some? ==> r == value.value
    ensures value.None? ==> r == "undefined"
  {
    match value
    case None => "undefined"
    case Some(s) => s
  }

  /**
   * The title of the first page that references the current page: the query
   * result's non-empty rows, the first one's first entry's title (possibly
   * absent), or "" when no row is non-empty.
   */
  function ParentTitle(rows: seq<seq<Option<string>>>): (r: Option<string>)
    ensures (forall i :: 0 <= i < |rows| ==> rows[i] == []) ==> r == Some("")
    ensures forall i :: 0 <= i < |rows| && rows[i] != [] && (forall j :: 0 <= j < i ==> rows[j] == []) ==> r == rows[i][0]
    decreases |rows|
  {
    if rows == [] then Some("")
    else if rows[0] != [] then rows[0][0]
    else ParentTitle(rows[1..])
  }

  // ---------------------------------------------------------------------------
  // The four plans
  // ---------------------------------------------------------------------------

  /** `importGithubIssues` up to the request. */
  function IssuesPlan(settings: Settings, apiUrl: string): (p: Plan)
    ensures p.Stop? <==> Setting(settings, "username") == ""
    ensures p.Stop? ==> p.message == MissingUsername
    ensures p.Fetch? ==> p.emptyMessage == "No issues assigned to you!"
    ensures p.Fetch? ==> (p.request.Direct? <==> Setting(settings, "token") != "")
    ensures p.Fetch? && p.request.Direct? ==>
      p.request == Direct(GithubApi + "/issues", Credentials(Setting(settings, "username"), Setting(settings, "token")), false)
    ensures p.Fetch? && p.request.Proxy? ==>
      p.request.url == apiUrl + "/github-issues?username=" + Setting(settings, "username")
  {
    var username := Setting(settings, "username");
    if username == "" then Stop(MissingUsername)
    else
      var token := Setting(settings, "token");
      var request :=
        if token != "" then Direct(GithubApi + "/issues", Credentials(username, token), false)
        else Proxy(apiUrl + "/github-issues?username=" + username);
      Fetch(request, "No issues assigned to you!")
  }

  /** The user a repos, projects or cards button is about: `FOR`, else the configured username. */
  function User(settings: Settings, options: Options): (r: string)
    ensures r == "" <==> ("FOR" !in options || options["FOR"] == "") && Setting(settings, "username") == ""
  {
    Fallback(options, "FOR", Setting(settings, "username"))
  }

  /** `importGithubRepos` up to the request. */
  function ReposPlan(settings: Settings, options: Options, apiUrl: string): (p: Plan)
    ensures p.Stop? <==> User(settings, options) == ""
    ensures p.Stop? ==> p.message == MissingUsername
    ensures p.Fetch? ==> p.emptyMessage == "No repos in " + User(settings, options) + "'s account!"
    ensures p.Fetch? ==> (p.request.Direct? <==> Setting(settings, "token") != "")
    ensures p.Fetch? && p.request.Direct? ==>
      p.request.url == GithubApi + "/users/" + User(settings, options) + "/repos" &&
      p.request.credentials == Credentials(Setting(settings, "username"), Setting(settings, "token")) &&
      !p.request.inertiaPreview
    ensures p.Fetch? && p.request.Proxy? ==>
      p.request.url == apiUrl + "/github-repositories?username=" + User(settings, options)
  {
    var username := User(settings, options);
    if username == "" then Stop(MissingUsername)
    else
      var token := Setting(settings, "token");
      var request :=
        if token != "" then
          Direct(GithubApi + "/users/" + username + "/repos", Credentials(Setting(settings, "username"), token), false)
        else Proxy(apiUrl + "/github-repositories?username=" + username);
      Fetch(request, "No repos in " + username + "'s account!")
  }

  /** `${username}/${repoName}`. */
  function Repository(username: string, repoName: string): (r: string)
    ensures |r| == |username| + 1 + |repoName|
    ensures r[..|username|] == username && r[|username|] == '/' && r[|username| + 1..] == repoName
  {
    username + "/" + repoName
  }

  /** `importGithubProjects` up to the request; the repository defaults to the page title. */
  function ProjectsPlan(settings: Settings, options: Options, pageTitle: string, apiUrl: string): (p: Plan)
    ensures p.Fetch?
    ensures p.emptyMessage == "No projects in " + Repository(User(settings, options), Fallback(options, "IN", pageTitle))
    ensures p.request.Direct? <==> Setting(settings, "token") != ""
    ensures p.request.Direct? ==>
      p.request.url == GithubApi + "/repos/" + Repository(User(settings, options), Fallback(options, "IN", pageTitle)) + "/projects" &&
      p.request.credentials == Credentials(Setting(settings, "username"), Setting(settings, "token")) &&
      p.request.inertiaPreview
    ensures p.request.Proxy? ==>
      p.request.url == apiUrl + "/github-projects?repository=" + Repository(User(settings, options), Fallback(options, "IN", pageTitle))
  {
    var repository := Repository(User(settings, options), Fallback(options, "IN", pageTitle));
    var token := Setting(settings, "token");
    var request :=
      if token != "" then
        Direct(GithubApi + "/repos/" + repository + "/projects", Credentials(Setting(settings, "username"), token), true)
      else Proxy(apiUrl + "/github-projects?repository=" + repository);
    Fetch(request, "No projects in " + repository)
  }

  /**
   * `importGithubCards` up to the request. The repository defaults to the
   * title of the first page referencing the current one, the project to the
   * page title, the column to "To do". Cards are only fetched through the
   * backend: with a token configured the handler stops.
   */
  function CardsPlan(settings: Settings, options: Options, pageTitle: string,
                     parentRows: seq<seq<Option<string>>>, apiUrl: string): (p: Plan)
    ensures p.Stop? <==> Setting(settings, "token") != ""
    ensures p.Stop? ==> p.message == TokenNotSupportedForCards
    ensures p.Fetch? ==> p.request.Proxy?
    ensures p.Fetch? ==>
      var repository := Repository(User(settings, options), Fallback(options, "IN", Interpolate(ParentTitle(parentRows))));
      p.emptyMessage == "No cards in " + repository &&
      p.request.url == CardsQuery(apiUrl, repository, Fallback(options, "UNDER", pageTitle), Fallback(options, "AS", DefaultColumn))
  {
    var repository := Repository(User(settings, options), Fallback(options, "IN", Interpolate(ParentTitle(parentRows))));
    var project := Fallback(options, "UNDER", pageTitle);
    var column := Fallback(options, "AS", DefaultColumn);
    if Setting(settings, "token") != "" then Stop(TokenNotSupportedForCards)
    else Fetch(Proxy(CardsQuery(apiUrl, repository, project, column)), "No cards in " + repository)
  }

  /**
   * The backend's cards endpoint with its three query parameters, not
   * URL-encoded: it starts at the backend and ends with the column.
   */
  function CardsQuery(apiUrl: string, repository: string, project: string, column: string): (r: string)
    ensures |r| == |apiUrl| + 25 + |repository| + 9 + |project| + 8 + |column|
    ensures r[..|apiUrl|] == apiUrl && r[|apiUrl|..|apiUrl| + 25] == "/github-cards?repository="
    ensures var a := |apiUrl| + 25; r[a..a + |repository|] == repository
    ensures var a := |apiUrl| + 25 + |repository|; r[a..a + 9] == "&project="
    ensures var a := |apiUrl| + 34 + |repository|; r[a..a + |project|] == project
    ensures var a := |apiUrl| + 34 + |repository| + |project|; r[a..a + 8] == "&column="
    ensures r[|r| - |column|..] == column
  {
    var r := apiUrl + "/github-cards?repository=" + repository + "&project=" + project + "&column=" + column;
    var a := |apiUrl| + 25;
    var b := a + |repository| + 9;
    var c := b + |project| + 8;
    assert r[a..a + |repository|] == repository;
    assert r[a + |repository|..b] == "&project=";
    assert r[b..b + |project|] == project;
    assert r[b + |project|..c] == "&column=";
    r
  }

  // ---------------------------------------------------------------------------
  // Bullets
  // ---------------------------------------------------------------------------

  /** A Markdown link `[text](url)`; it reads back as long as the text has no `]`. */
  function Link(text: string, url: string): (r: string)
    ensures LinksTo(r, text, url)
    ensures ']' !in text ==> ParseLink(r) == Some((text, url))
  {
    LinkRoundTrip(text, url);
    var r := "[" + text + "](" + url + ")";
    assert r[1..|text| + 1] == text && r[|text| + 1..|text| + 3] == "](" && r[|text| + 3..|r| - 1] == url;
    r
  }

  /** `r` is, character by character, `[`, the text, `](`, the url and `)`. */
  predicate LinksTo(r: string, text: string, url: string) {
    |r| == |text| + |url| + 4 && r[0] == '[' && r[1..|text| + 1] == text
    && r[|text| + 1..|text| + 3] == "](" && r[|text| + 3..|r| - 1] == url && r[|r| - 1] == ')'
  }

  /** A Roam page reference `[[name]]`; it reads back as `name`. */
  function PageRef(name: string): (r: string)
    ensures ParsePageRef(r) == Some(name)
  {
    var r := "[[" + name + "]]";
    assert r[..2] == "[[" && r[|r| - 2..] == "]]";
    r
  }

  /**
   * The text of a card's bullet: its note, else its `content_url` minus the
   * 29 characters of the API prefix (nothing when it is shorter).
   */
  function CardText(card: Card): (r: string)
    ensures card.note != "" ==> r == card.note
    ensures card.note == "" ==> |r| == (if |card.contentUrl| >= |ApiRepos| then |card.contentUrl| - |ApiRepos| else 0)
    ensures card.note == "" ==> r == card.contentUrl[|card.contentUrl| - |r|..]
  {
    if card.note != "" then card.note else Substring(card.contentUrl, |ApiRepos|)
  }

  function IssueBullets(issues: seq<Issue>): (bullets: seq<string>)
    ensures |bullets| == |issues|
  {
    seq(|issues|, i requires 0 <= i < |issues| => Link(issues[i].title, issues[i].htmlUrl))
  }

  function PageRefBullets(names: seq<string>): (bullets: seq<string>)
    ensures |bullets| == |names|
  {
    seq(|names|, i requires 0 <= i < |names| => PageRef(names[i]))
  }

  function CardBullets(cards: seq<Card>): (bullets: seq<string>)
    ensures |bullets| == |cards|
  {
    seq(|cards|, i requires 0 <= i < |cards| => Link(CardText(cards[i]), cards[i].htmlUrl))
  }

  /**
   * The end of every handler: a stop writes its message; a fetch whose request
   * failed leaves the block alone, one that returned nothing writes its
   * empty-result message, and one that returned items pushes their bullets.
   */
  function Conclude(plan: Plan, reply: Option<seq<string>>): (o: Outcome)
    ensures plan.Stop? ==> o == Write(plan.message)
    ensures plan.Fetch? ==> (o.Failed? <==> reply.None?)
    ensures plan.Fetch? && reply.Some? ==> (o.Write? <==> reply.value == [])
    ensures plan.Fetch? && o.Write? ==> o.text == plan.emptyMessage
    ensures o.Push? ==> reply == Some(o.bullets) && |o.bullets| >= 1
  {
    match plan
    case Stop(message) => Write(message)
    case Fetch(_, emptyMessage) =>
      match reply
      case None => Failed
      case Some(bullets) => if bullets == [] then Write(emptyMessage) else Push(bullets)
  }

  /** `importGithubIssues` to the end, given the issues the request returned, if it succeeded. */
  function IssuesOutcome(settings: Settings, apiUrl: string, reply: Option<seq<Issue>>): (o: Outcome)
    ensures o.Push? <==> Setting(settings, "username") != "" && reply.Some? && reply.value != []
    ensures o.Push? ==> o.bullets == IssueBullets(reply.value)
    ensures o.Failed? <==> Setting(settings, "username") != "" && reply.None?
  {
    Conclude(IssuesPlan(settings, apiUrl), if reply.Some? then Some(IssueBullets(reply.value)) else None)
  }

  /** `importGithubRepos` to the end, given the repository names the request returned. */
  function ReposOutcome(settings: Settings, options: Options, apiUrl: string, reply: Option<seq<string>>): (o: Outcome)
    ensures o.Push? <==> User(settings, options) != "" && reply.Some? && reply.value != []
    ensures o.Push? ==> o.bullets == PageRefBullets(reply.value)
    ensures o.Failed? <==> User(settings, options) != "" && reply.None?
  {
    Conclude(ReposPlan(settings, options, apiUrl), if reply.Some? then Some(PageRefBullets(reply.value)) else None)
  }

  /** `importGithubProjects` to the end, given the project names the request returned. */
  function ProjectsOutcome(settings: Settings, options: Options, pageTitle: string, apiUrl: string,
                           reply: Option<seq<string>>): (o: Outcome)
    ensures o.Push? <==> reply.Some? && reply.value != []
    ensures o.Push? ==> o.bullets == PageRefBullets(reply.value)
    ensures o.Failed? <==> reply.None?
  {
    Conclude(ProjectsPlan(settings, options, pageTitle, apiUrl), if reply.Some? then Some(PageRefBullets(reply.value)) else None)
  }

  /** `importGithubCards` to the end, given the cards the request returned. */
  function CardsOutcome(settings: Settings, options: Options, pageTitle: string,
                        parentRows: seq<seq<Option<string>>>, apiUrl: string, reply: Option<seq<Card>>): (o: Outcome)
    ensures o.Push? <==> Setting(settings, "token") == "" && reply.Some? && reply.value != []
    ensures o.Push? ==> o.bullets == CardBullets(reply.value)
    ensures o.Failed? <==> Setting(settings, "token") == "" && reply.None?
  {
    Conclude(CardsPlan(settings, options, pageTitle, parentRows, apiUrl), if reply.Some? then Some(CardBullets(reply.value)) else None)
  }

  // ---------------------------------------------------------------------------
  // Reading bullets back
  // ---------------------------------------------------------------------------

  /** The first index of `c` in `s`. */
  function IndexOf(s: string, c: char): (r: Option<nat>)
    ensures r.Some? ==> r.value < |s| && s[r.value] == c && c !in s[..r.value]
    ensures r.None? ==> c !in s
    decreases |s|
  {
    if s == [] then None
    else if s[0] == c then Some(0)
    else match IndexOf(s[1..], c)
      case None => None
      case Some(k) => Some(k + 1)
  }

  /** The text and target of a Markdown link `[text](url)` whose text has no `]`. */
  function ParseLink(s: string): Option<(string, string)> {
    if |s| < 2 || s[0] != '[' || s[|s| - 1] != ')' then None
    else match IndexOf(s, ']')
      case None => None
      case Some(k) =>
        if 1 <= k && k + 2 <= |s| - 1 && s[k + 1] == '(' then Some((s[1..k], s[k + 2..|s| - 1])) else None
  }

  /** The name inside a page reference `[[name]]`. */
  function ParsePageRef(s: string): Option<string> {
    if |s| >= 4 && s[..2] == "[[" && s[|s| - 2..] == "]]" then Some(s[2..|s| - 2]) else None
  }

  // ---------------------------------------------------------------------------
  // Properties
  // ---------------------------------------------------------------------------

  /** The text and target of `[text](url)` can be read back as long as the text has no `]`. */
  lemma LinkRoundTrip(text: string, url: string)
    ensures ']' !in text ==> ParseLink("[" + text + "](" + url + ")") == Some((text, url))
  {
    if ']' !in text {
      var s := "[" + text + "](" + url + ")";
      var k := |text| + 1;
      assert s[k] == ']';
      assert s[..k] == "[" + text;
      IndexOfIs(s, ']', k);
      assert s[1..k] == text && s[k + 2..|s| - 1] == url;
    }
  }

  /** `IndexOf` finds the first occurrence. */
  lemma IndexOfIs(s: string, c: char, k: nat)
    requires k < |s| && s[k] == c && c !in s[..k]
    ensures IndexOf(s, c) == Some(k)
  {
    assert s[k] in s;
    var i := IndexOf(s, c).value;
    assert forall j :: 0 <= j < k ==> s[..k][j] == s[j];
    assert forall j :: 0 <= j < i ==> s[..i][j] == s[j];
  }

  /**
   * Issue bullet i is a link to issue i's page labelled with its title; it
   * reads back as both when the title has no `]`.
   */
  lemma IssueBulletReadsBack(issues: seq<Issue>, i: nat)
    requires i < |issues|
    ensures LinksTo(IssueBullets(issues)[i], issues[i].title, issues[i].htmlUrl)
    ensures ']' !in issues[i].title ==> ParseLink(IssueBullets(issues)[i]) == Some((issues[i].title, issues[i].htmlUrl))
  {
  }

  /** Repo and project bullet i is a reference to the page named after item i. */
  lemma PageRefBulletReadsBack(names: seq<string>, i: nat)
    requires i < |names|
    ensures ParsePageRef(PageRefBullets(names)[i]) == Some(names[i])
  {
  }

  /**
   * A card without a note is labelled with the `owner/repo/...` path of the
   * issue or pull request it holds: its `content_url` minus the API prefix.
   */
  lemma CardWithoutNoteShowsContentPath(path: string, htmlUrl: string)
    ensures |ApiRepos| == 29
    ensures CardText(Card("", ApiRepos + path, htmlUrl)) == path
  {
    assert (ApiRepos + path)[|ApiRepos|..] == path;
  }

  /**
   * A card with a note is labelled with the note, whatever its content; the
   * bullet reads back as note and page when the note has no `]`.
   */
  lemma CardWithNoteShowsNote(card: Card)
    requires card.note != ""
    ensures CardText(card) == card.note
    ensures LinksTo(Link(CardText(card), card.htmlUrl), card.note, card.htmlUrl)
    ensures ']' !in card.note ==> ParseLink(Link(CardText(card), card.htmlUrl)) == Some((card.note, card.htmlUrl))
  {
  }

  /** A `FOR` keyword changes whose repositories are listed, never whose token is used. */
  lemma ReposAuthenticateAsConfiguredUser(settings: Settings, options: Options, apiUrl: string)
    requires "FOR" in options && options["FOR"] != ""
    requires Setting(settings, "token") != ""
    ensures ReposPlan(settings, options, apiUrl)
         == Fetch(Direct(GithubApi + "/users/" + options["FOR"] + "/repos",
                         Credentials(Setting(settings, "username"), Setting(settings, "token")), false),
                  "No repos in " + options["FOR"] + "'s account!")
  {
  }

  /** Projects never stop for a missing username: the repository then starts with "/". */
  lemma ProjectsWithoutUsername(settings: Settings, options: Options, pageTitle: string, apiUrl: string)
    requires User(settings, options) == ""
    ensures ProjectsPlan(settings, options, pageTitle, apiUrl).emptyMessage == "No projects in /" + Fallback(options, "IN", pageTitle)
  {
    assert Repository("", Fallback(options, "IN", pageTitle)) == "/" + Fallback(options, "IN", pageTitle);
  }

  /**
   * Without `IN`, cards are looked up in the repository named after the page
   * that references the current page; without `AS`, in the "To do" column.
   */
  lemma CardsDefaults(settings: Settings, options: Options, pageTitle: string,
                      parentRows: seq<seq<Option<string>>>, apiUrl: string)
    requires Setting(settings, "token") == ""
    requires "IN" !in options && "AS" !in options && "UNDER" !in options
    ensures CardsPlan(settings, options, pageTitle, parentRows, apiUrl).request
         == Proxy(CardsQuery(apiUrl, Repository(User(settings, options), Interpolate(ParentTitle(parentRows))), pageTitle, "To do"))
  {
  }

  /** When no page references the current one, the repository name is empty. */
  lemma CardsWithoutParentPage(rows: seq<seq<Option<string>>>)
    requires forall i :: 0 <= i < |rows| ==> rows[i] == []
    ensures Interpolate(ParentTitle(rows)) == ""
  {
  }

  /** A parent page whose first entry has no title puts "undefined" in the repository. */
  lemma CardsWithUntitledParent(rows: seq<seq<Option<string>>>, i: nat)
    requires i < |rows| && rows[i] != [] && rows[i][0] == None
    requires forall j :: 0 <= j < i ==> rows[j] == []
    ensures Interpolate(ParentTitle(rows)) == "undefined"
  {
    assert rows[i] != [] && (forall j :: 0 <= j < i ==> rows[j] == []);
  }
}
