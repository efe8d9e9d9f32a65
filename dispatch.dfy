/**
 * Click dispatch (`clickEventListener` and the four `addButtonListener` calls,
 * src/index.ts). Every verb has its own document-wide listener; a listener
 * fires when the upper-cased, trimmed button text starts with its upper-cased
 * verb, and then parses the untrimmed text with its own verb.
 */
module Dispatch {
  import opened Text
  import ButtonConfig

  /** The four registered commands. */
  datatype Verb = ImportCards | ImportIssues | ImportProjects | ImportRepos

  function VerbText(v: Verb): string {
    match v
    case ImportCards => "Import Github Cards"
    case ImportIssues => "Import Github Issues"
    case ImportProjects => "Import Github Projects"
    case ImportRepos => "Import Github Repos"
  }

  /** The listeners, in registration order. */
  const Registered: seq<Verb> := [ImportCards, ImportIssues, ImportProjects, ImportRepos]

  /** The listener test: `text.toUpperCase().trim().startsWith(verb.toUpperCase())`. */
  predicate Matches(buttonText: string, verb: string)
    ensures Matches(buttonText, verb) ==> |verb| <= |buttonText|
  {
    StartsWith(Trim(Upper(buttonText)), Upper(verb))
  }

  /** The verbs among `verbs` whose listeners fire on a click on a button with text `buttonText`. */
  function Fired(buttonText: string, verbs: seq<Verb>): (r: seq<Verb>)
    ensures |r| <= |verbs|
    ensures forall k :: 0 <= k < |r| ==> r[k] in verbs && Matches(buttonText, VerbText(r[k]))
    ensures forall v :: v in verbs && Matches(buttonText, VerbText(v)) ==> v in r
    decreases |verbs|
  {
    if verbs == [] then []
    else if Matches(buttonText, VerbText(verbs[0])) then [verbs[0]] + Fired(buttonText, verbs[1..])
    else Fired(buttonText, verbs[1..])
  }

  /** The handlers a click runs: one per registered listener that fires. */
  function OnClick(buttonText: string): (r: seq<Verb>)
    ensures forall v: Verb :: v in r <==> Matches(buttonText, VerbText(v))
  {
    AllRegistered();
    Fired(buttonText, Registered)
  }

  /** `x` occurs in `verbs` at an earlier position than `y`. */
  ghost predicate Before(x: Verb, y: Verb, verbs: seq<Verb>) {
    exists a, b :: 0 <= a < b < |verbs| && x == verbs[a] && y == verbs[b]
  }

  /** Earlier elements of `r` come from earlier positions of `verbs`. */
  ghost predicate InOrder(r: seq<Verb>, verbs: seq<Verb>) {
    forall i, j :: 0 <= i < j < |r| ==> Before(r[i], r[j], verbs)
  }

  /** The listeners fire in the order they were registered: `Fired` keeps the order of `verbs`. */
  lemma {:induction false} FiredKeepsOrder(buttonText: string, verbs: seq<Verb>)
    ensures InOrder(Fired(buttonText, verbs), verbs)
    decreases |verbs|
  {
    if verbs != [] {
      var rest := Fired(buttonText, verbs[1..]);
      FiredKeepsOrder(buttonText, verbs[1..]);
      if Matches(buttonText, VerbText(verbs[0])) {
        InOrderCons(rest, verbs);
      } else {
        InOrderTail(rest, verbs);
      }
    }
  }

  lemma InOrderTail(r: seq<Verb>, verbs: seq<Verb>)
    requires verbs != [] && InOrder(r, verbs[1..])
    ensures InOrder(r, verbs)
  {
    var tail := verbs[1..];
    forall i, j | 0 <= i < j < |r|
      ensures Before(r[i], r[j], verbs)
    {
      assert Before(r[i], r[j], tail);
      var a', b' :| 0 <= a' < b' < |tail| && r[i] == tail[a'] && r[j] == tail[b'];
      assert r[i] == verbs[a' + 1] && r[j] == verbs[b' + 1];
    }
  }

  lemma InOrderCons(r: seq<Verb>, verbs: seq<Verb>)
    requires verbs != [] && InOrder(r, verbs[1..])
    requires forall k :: 0 <= k < |r| ==> r[k] in verbs[1..]
    ensures InOrder([verbs[0]] + r, verbs)
  {
    var tail := verbs[1..];
    var r' := [verbs[0]] + r;
    forall i, j | 0 <= i < j < |r'|
      ensures Before(r'[i], r'[j], verbs)
    {
      assert r'[j] == r[j - 1];
      if i == 0 {
        assert r[j - 1] in tail;
        var b' :| 0 <= b' < |tail| && tail[b'] == r[j - 1];
        assert r'[i] == verbs[0] && r'[j] == verbs[b' + 1];
      } else {
        assert r'[i] == r[i - 1];
        assert Before(r[i - 1], r[j - 1], tail);
        var a', b' :| 0 <= a' < b' < |tail| && r[i - 1] == tail[a'] && r[j - 1] == tail[b'];
        assert r'[i] == verbs[a' + 1] && r'[j] == verbs[b' + 1];
      }
    }
  }

  /** Every verb is registered. */
  lemma AllRegistered()
    ensures forall v: Verb :: v in Registered
  {
    forall v: Verb
      ensures v in Registered
    {
      match v
      case ImportCards =>
      case ImportIssues =>
      case ImportProjects =>
      case ImportRepos =>
    }
  }

  /**
   * What a fired listener hands its handler: the text after its own verb,
   * parsed; at most one key for every two raw parts.
   */
  function ConfigFor(buttonText: string, v: Verb): (config: map<string, string>)
    ensures |config.Keys| <= |ButtonConfig.RawParts(buttonText, VerbText(v))| / 2
  {
    ButtonConfig.Parse(buttonText, VerbText(v))
  }

  /** The four verbs differ at index 14, right after the common `Import Github `. */
  lemma VerbsDifferAt14(v: Verb, w: Verb)
    requires v != w
    ensures |VerbText(v)| > 14 && |VerbText(w)| > 14
    ensures UpperChar(VerbText(v)[14]) != UpperChar(VerbText(w)[14])
  {
  }

  /** No two of the registered verbs match the same button text. */
  lemma NoTwoVerbsMatch(buttonText: string, v: Verb, w: Verb)
    requires v != w
    ensures !(Matches(buttonText, VerbText(v)) && Matches(buttonText, VerbText(w)))
  {
    VerbsDifferAt14(v, w);
  }

  /** At most one handler runs per click. */
  lemma AtMostOneHandlerRuns(buttonText: string)
    ensures |OnClick(buttonText)| <= 1
  {
    forall v: Verb, w: Verb | v != w
      ensures !(Matches(buttonText, VerbText(v)) && Matches(buttonText, VerbText(w)))
    {
      NoTwoVerbsMatch(buttonText, v, w);
    }
    FiredAtMostOne(buttonText, Registered);
  }

  /** Over distinct verbs of which no two match together, at most one listener fires. */
  lemma {:induction false} FiredAtMostOne(buttonText: string, verbs: seq<Verb>)
    requires forall i, j :: 0 <= i < j < |verbs| ==> verbs[i] != verbs[j]
    requires forall v: Verb, w: Verb :: v != w ==> !(Matches(buttonText, VerbText(v)) && Matches(buttonText, VerbText(w)))
    ensures |Fired(buttonText, verbs)| <= 1
    decreases |verbs|
  {
    if verbs != [] {
      var rest := Fired(buttonText, verbs[1..]);
      FiredAtMostOne(buttonText, verbs[1..]);
      if rest != [] {
        assert rest[0] in verbs[1..];
        assert rest[0] != verbs[0];
      }
    }
  }

  /** Matching ignores ASCII case: a text that starts with the verb in any letter case matches it. */
  lemma MatchIgnoresCase(word: string, verb: string, rest: string)
    requires Upper(word) == Upper(verb)
    requires verb != [] && !IsWhitespace(UpperChar(verb[0])) && !IsWhitespace(UpperChar(verb[|verb| - 1]))
    ensures Matches(word + rest, verb)
  {
    var u := Upper(word + rest);
    assert u[..|verb|] == Upper(verb);
    assert u[0] == Upper(verb)[0] && u[|verb| - 1] == Upper(verb)[|verb| - 1];
    TrimKeepsPrefix(u, |verb|);
  }
}
