/**
 * The extension end to end: a click on a button is dispatched to the one
 * listener whose verb the text starts with, the rest of the text is parsed
 * into keywords, and the handler builds its request from them.
 */
module Extension {
  import opened Wrappers
  import opened Text
  import ButtonConfig
  import opened Dispatch
  import opened Handlers
  import opened Outline

  /** A button whose text starts with a verb runs that verb's handler and no other. */
  lemma OnlyItsHandlerRuns(v: Verb, rest: string)
    ensures OnClick(VerbText(v) + rest) == [v]
  {
    var verb := VerbText(v);
    VerbEnds(v);
    MatchIgnoresCase(verb, verb, rest);
    AtMostOneHandlerRuns(verb + rest);
    OnlyElement(OnClick(verb + rest), v);
  }

  lemma OnlyElement<T>(s: seq<T>, x: T)
    requires |s| <= 1 && x in s
    ensures s == [x]
  {
  }

  /** Every verb starts with `I` and ends with `s`. */
  lemma VerbEnds(v: Verb)
    ensures |VerbText(v)| > 0 && VerbText(v)[0] == 'I' && VerbText(v)[|VerbText(v)| - 1] == 's'
  {
    match v
    case ImportCards =>
    case ImportIssues =>
    case ImportProjects =>
    case ImportRepos =>
  }

  /** `FOR <user>` after a verb gives the record holding `FOR` alone. */
  lemma ForKeyword(v: Verb, user: string)
    requires ' ' !in user && !ButtonConfig.OpensQuote(user)
    ensures ConfigFor(VerbText(v) + " FOR " + user, v) == map["FOR" := user]
  {
    assert Join(["FOR", user]) == "FOR " + user by {
      assert Join([user]) == user;
    }
    assert VerbText(v) + " FOR " + user == VerbText(v) + " " + Join(["FOR", user]);
    ButtonConfig.KeywordWithValue(VerbText(v), "FOR", user);
  }

  /**
   * `Import Github Repos FOR <user>` runs the repos handler alone, and that
   * handler lists `<user>`'s repositories whatever username is configured.
   */
  lemma ReposButtonForUser(settings: Settings, apiUrl: string, user: string)
    requires user != "" && ' ' !in user && !ButtonConfig.OpensQuote(user)
    ensures OnClick("Import Github Repos FOR " + user) == [ImportRepos]
    ensures ConfigFor("Import Github Repos FOR " + user, ImportRepos) == map["FOR" := user]
    ensures ReposPlan(settings, map["FOR" := user], apiUrl)
         == Fetch(if Setting(settings, "token") != ""
                  then Direct(GithubApi + "/users/" + user + "/repos",
                              Credentials(Setting(settings, "username"), Setting(settings, "token")), false)
                  else Proxy(apiUrl + "/github-repositories?username=" + user),
                  "No repos in " + user + "'s account!")
  {
    assert "Import Github Repos FOR " + user == VerbText(ImportRepos) + (" FOR " + user);
    assert "Import Github Repos FOR " + user == VerbText(ImportRepos) + " FOR " + user;
    OnlyItsHandlerRuns(ImportRepos, " FOR " + user);
    ForKeyword(ImportRepos, user);
    assert User(settings, map["FOR" := user]) == user by {
      assert "FOR" in map["FOR" := user];
    }
  }

  /**
   * A click on `Import Github Repos FOR <user>` in the block at `order`, once
   * the repository names come back: a failed request leaves the block empty,
   * no names write the empty-account message, and names replace the block by
   * one page reference each.
   */
  lemma ReposClick(settings: Settings, apiUrl: string, user: string, reply: Option<seq<string>>,
                   s: seq<string>, order: nat)
    requires user != "" && ' ' !in user && !ButtonConfig.OpensQuote(user)
    requires order < |s|
    ensures var o := ReposOutcome(settings, ConfigFor("Import Github Repos FOR " + user, ImportRepos), apiUrl, reply);
      (reply.None? ==> Clicked(s, order, o) == s[order := ""]) &&
      (reply == Some([]) ==> Clicked(s, order, o) == s[order := "No repos in " + user + "'s account!"]) &&
      (reply.Some? && reply.value != [] ==> Clicked(s, order, o) == s[..order] + PageRefBullets(reply.value) + s[order + 1..])
  {
    var options := ConfigFor("Import Github Repos FOR " + user, ImportRepos);
    ReposButtonForUser(settings, apiUrl, user);
    assert User(settings, options) == user;
  }
}
