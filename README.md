# roamjs-github, modelled in Dafny

roamjs-github is a Roam Research extension. A user writes a button whose text
starts with one of four verbs, `Import Github Issues`, `Import Github Repos`,
`Import Github Projects` or `Import Github Cards`, optionally followed by
`KEYWORD value` pairs (`FOR`, `IN`, `UNDER`, `AS`; a value may be a
`"quoted phrase"`). A click on such a button makes the matching listener clear
the block and call its handler. The handler reads the username and token from
the extension's settings page. It either stops with a message (no username for
issues and repos, a token for cards) or sends one GitHub request (direct with a
token, through the extension's backend without one). It then writes the
empty-result message, pushes one bullet per returned item (the first into the
clicked block, the rest as new siblings right after it), or leaves the block
empty when the request fails.

The model covers the logic of `src/index.ts`:

- `text.dfy` (`Text`): the JavaScript string operations the code relies on.
  These are `split(" ")` with its inverse `join(" ")`, `substring`, ASCII
  `toUpperCase` and `trim`.
- `button_config.dfy` (`ButtonConfig`): `getButtonConfig`.
  - `GetButtonConfig` is the method with the source's two loops.
  - It is proved equal to `Parse`, which is `Pairs(Lex(RawParts(..)))`: the
    raw parts, then the grammar-style tokenizer `Lex`, then the pairing.
  - The scan loop itself is the fold `Step`/`Run` over the loop's two
    variables. `RunAgreesWithLex` and `TokensAreLexed` prove that it completes
    exactly `Lex`'s tokens, which is how the method reaches `Parse`.
  - The parser's quirks are kept and proved as lemmas: a lone `"` is lost,
    `"x"` does not close itself, an unterminated quote is dropped, and runs of
    spaces give empty tokens.
- `dispatch.dfy` (`Dispatch`): the listener predicate and the four registered
  verbs. Every verb has its own listener, and no two verbs can match the same
  text.
- `handlers.dfy` (`Handlers`): the four handlers as pure decisions.
  - Each handler resolves its parameters with JavaScript truthiness.
  - It then either stops with a message or fetches one request.
  - It formats bullets from the fetched items: Markdown links for issues and
    cards, page references for repos and projects.
  - It then writes the empty-result message, pushes the bullets, or, when the
    request failed, leaves the block as the click cleared it.
- `outline.dfy` (`Outline`): the clicked block's siblings as a class whose
  methods are `updateBlock`, `createBlock`, `pushBullets` and the whole click.
  `UpdateBlock` is proved to change the one block. `CreateBlock` is proved
  against `InsertAt`. `PushBullets` is proved against `Pushed`, whose
  contract is the closed form `Creations` establishes. `Click` is proved
  against `Clicked`.
- `extension.dfy` (`Extension`): end-to-end lemmas that tie dispatch, the
  parser and the handlers together.

Each verb registers its own listener (src/index.ts:317-320), so every matching
listener would run; `AtMostOneHandlerRuns` shows that at most one of the four
can match.

## Model

| member | source | states |
|---|---|---|
| `Text.Split` | src/index.ts:20-22 | `split(" ")` gives at least one piece, and no piece contains a space |
| `Text.JoinSplit` | src/index.ts:20-22 | joining the pieces of `split(" ")` with single spaces gives back the text |
| `Text.SplitJoin` | src/index.ts:20-22 | splitting space-free words joined by single spaces gives back the words |
| `Text.SplitAtSpace` | src/index.ts:20-22 | a space-free word followed by a space and a rest splits into the word, then the rest's pieces |
| `Text.Substring` | src/index.ts:21 | `substring(start)` is the suffix after `start` characters, or "" past the end |
| `Text.Upper` | src/index.ts:62 | `toUpperCase` keeps the length and upper-cases each ASCII letter |
| `Text.TrimStart` | src/index.ts:63 | leading `trim` removes only whitespace, and leaves a suffix that is empty or starts with a non-whitespace character |
| `Text.TrimEnd` | src/index.ts:63 | trailing `trim` removes only whitespace, and leaves a prefix that is empty or ends with a non-whitespace character |
| `Text.Trim` | src/index.ts:63 | `trim` leaves a slice of the text with only whitespace before and after it, which is empty or starts and ends with a non-whitespace character |
| `Text.TrimKeepsPrefix` | src/index.ts:62-64 | `trim` keeps a prefix that starts and ends with non-whitespace characters at the front of the text |
| `ButtonConfig.RawParts` | src/index.ts:20-22 | the label minus `verb.length + 1` characters, split on spaces, has at least one part |
| `ButtonConfig.Step` | src/index.ts:26-41 | one iteration of the scan loop completes at most one token, only when it leaves no quote open, and always completes one when it closes an open quote |
| `ButtonConfig.Parse` | src/index.ts:19-49 | the record has at most half as many keys as there are raw parts |
| `ButtonConfig.RunDoneGrows` | src/index.ts:25-42 | the `for...of` loop over the parts only adds tokens after those already completed, at most one per part |
| `ButtonConfig.Tokens` | src/index.ts:25-42 | the tokens the loop completes from the initial state are never more than the raw parts |
| `ButtonConfig.Pairs` | src/index.ts:43-47 | `numPairs` pairs of tokens give a record with at most floor(n/2) keys for n tokens |
| `ButtonConfig.GetButtonConfig` | src/index.ts:19-49 | the scan loop and the counted pairing loop return exactly `Parse(buttonText, verb)` |
| `ButtonConfig.RunAgreesWithLex` | src/index.ts:23-42 | the loop over the parts completes exactly the tokens of the reference grammar `Lex`, after those already completed |
| `ButtonConfig.TokensAreLexed` | src/index.ts:23-42 | the tokens the loop completes from the initial state are `Lex`'s tokens |
| `ButtonConfig.Lex` | src/index.ts:23-42 | the reference tokenizer never yields more tokens than parts |
| `ButtonConfig.FirstClosing` | src/index.ts:27 | finds the first part ending with `"`, or reports that none does |
| `ButtonConfig.RunAccumulates` | src/index.ts:26-34 | with an open quote, parts that do not end with `"` are appended to the accumulator after a space, and no token completes |
| `ButtonConfig.RunInsideQuote` | src/index.ts:26-37 | with an open quote, the scan accumulates up to the first closing part and then completes one token, or completes nothing if no part closes |
| `ButtonConfig.RunOverClosedGroup` | src/index.ts:26-40 | from outside a quote, a closed group completes one token |
| `ButtonConfig.RunOverUnclosedGroup` | src/index.ts:26-40 | from outside a quote, a group that never closes completes nothing |
| `ButtonConfig.RunAppend` | src/index.ts:25-42 | scanning a concatenation is scanning the halves in turn |
| `ButtonConfig.UnquotedPartsPassVerbatim` | src/index.ts:38-40 | parts that open no quote, including the "" pieces from repeated spaces, are pushed verbatim |
| `ButtonConfig.TokensExtend` | src/index.ts:25-42 | tokens completed on a prefix of the parts stay unchanged at the front of the tokens of any extension |
| `ButtonConfig.QuotedTokenIsJoinedGroup` | src/index.ts:28-33 | a quoted token is the group's parts joined by single spaces with the leading and trailing quote removed |
| `ButtonConfig.QuotedGroupIsOneToken` | src/index.ts:26-37 | a group opened by `"x` and closed by a later part ending with `"` becomes exactly one token, followed by the tokens of the rest |
| `ButtonConfig.SelfQuotedPartStaysOpen` | src/index.ts:26-37 | a single part `"x"` opens a quote and does not close it, because the closing test only runs inside a quote |
| `ButtonConfig.LoneQuoteIsLost` | src/index.ts:26-37 | a lone `"` leaves the accumulator empty and is silently lost: the tokens are those without it |
| `ButtonConfig.UnterminatedQuoteYieldsNothing` | src/index.ts:25-42 | an unterminated quote yields no token from the opener onwards, and earlier tokens are unaffected |
| `ButtonConfig.PairUp` | src/index.ts:43-47 | after n assignments the record has at most n keys |
| `ButtonConfig.PairUpNext` | src/index.ts:45-46 | one more pairing iteration assigns token 2n+1 to key token 2n |
| `ButtonConfig.PairUpKeys` | src/index.ts:43-47 | a string is a key of the record if and only if it is token 2i for some pair i |
| `ButtonConfig.PairUpLastWins` | src/index.ts:45-46 | a keyword's value is the value of its last pair, so a repeated keyword takes the later value |
| `ButtonConfig.PairUpPrefix` | src/index.ts:43-47 | the first n pairs depend only on the first 2n tokens |
| `ButtonConfig.PairsIgnoreUnpaired` | src/index.ts:43 | a final unpaired token takes no part in the record, as key or as value |
| `ButtonConfig.RawPartsAfterVerb` | src/index.ts:20-22 | when the text starts with a word as long as the verb and a space, the raw parts are the rest split on spaces |
| `ButtonConfig.VerbAloneGivesEmptyConfig` | src/index.ts:20-47 | a label with only the verb, with or without one trailing space, gives the empty record |
| `ButtonConfig.LeadingSpaceShiftsPairs` | src/index.ts:21 | the offset is applied to the untrimmed text, so a leading space yields an extra "" part before the keywords |
| `ButtonConfig.KeywordWithValue` | src/index.ts:19-49 | `<verb> K V` with plain K and V gives the record {K: V} |
| `ButtonConfig.KeywordWithQuotedValue` | src/index.ts:19-49 | `<verb> K1 "w1 w2" K2 V2` gives {K1: "w1 w2", K2: V2} |
| `ButtonConfig.RawPartsOfWords` | src/index.ts:20-22 | the verb and space-free words joined by spaces give those words as raw parts |
| `Dispatch.Matches` | src/index.ts:61-64 | the listener's test holds only for a text at least as long as the verb |
| `Dispatch.Fired` | src/index.ts:58-65 | the listeners that fire are exactly the registered verbs whose test holds |
| `Dispatch.FiredKeepsOrder` | src/index.ts:317-320 | listeners fire in registration order: of two fired verbs, the earlier one was registered earlier |
| `Dispatch.OnClick` | src/index.ts:317-320 | a click runs the handler of a verb if and only if the verb's test holds for the text |
| `Dispatch.ConfigFor` | src/index.ts:67-70 | a fired listener parses the text after its own verb, into at most one key per two raw parts |
| `Dispatch.VerbsDifferAt14` | src/index.ts:317-320 | any two registered verbs differ, ignoring case, at the first character after `Import Github ` |
| `Dispatch.NoTwoVerbsMatch` | src/index.ts:58-65 | no text matches two different registered verbs |
| `Dispatch.AtMostOneHandlerRuns` | src/index.ts:317-320 | at most one handler runs per click |
| `Dispatch.FiredAtMostOne` | src/index.ts:77-82 | among distinct listeners whose verbs never match together, at most one fires |
| `Dispatch.MatchIgnoresCase` | src/index.ts:61-64 | a text that starts with the verb in any ASCII letter case matches, whatever follows |
| `Handlers.Fallback` | src/index.ts:177 | a keyword is used only when present and non-empty, and the default applies otherwise |
| `Handlers.User` | src/index.ts:177 | the user is empty if and only if `FOR` is absent or empty and no username is configured |
| `Handlers.Interpolate` | src/index.ts:280 | interpolating a missing title gives "undefined", a present one gives the title |
| `Handlers.ParentTitle` | src/index.ts:270-276 | the title of the first non-empty row of the reference query, or "" when there is none |
| `Handlers.IssuesPlan` | src/index.ts:131-150 | stops with the missing-username error exactly when no username is set; otherwise it calls the API directly with `username:token` if and only if a token is set, and the backend otherwise |
| `Handlers.ReposPlan` | src/index.ts:171-196 | stops exactly when neither `FOR` nor the configured username is set; the direct request lists the `FOR` user's repos with the configured user's credentials; the empty message names the user |
| `Handlers.Repository` | src/index.ts:228 | the repository is the username, a slash and the repository name |
| `Handlers.ProjectsPlan` | src/index.ts:219-241 | never stops; the repository is user/`IN` or user/page title; the direct request carries the inertia-preview header if and only if a token is set |
| `Handlers.CardsPlan` | src/index.ts:259-315 | stops with "not supported" exactly when a token is set; otherwise it queries the backend with repository, project and column resolved by their fallbacks |
| `Handlers.CardsQuery` | src/index.ts:289 | the cards URL is, field by field, the backend, `/github-cards?repository=`, the repository, `&project=`, the project, `&column=` and the column, none of them encoded |
| `Handlers.IssueBullets` | src/index.ts:158-161 | one bullet per issue |
| `Handlers.PageRefBullets` | src/index.ts:207 | one bullet per repo or project |
| `Handlers.CardBullets` | src/index.ts:297-306 | one bullet per card |
| `Handlers.Link` | src/index.ts:160 | a link is, character by character, `[`, the text, `](`, the url and `)`, and it reads back as its text and url when the text has no `]` |
| `Handlers.PageRef` | src/index.ts:207 | a `[[name]]` bullet reads back as the page name |
| `Handlers.CardText` | src/index.ts:299-305 | a card's label is its note when it has one, and otherwise the end of its content URL without the 29-character API prefix, or "" when the URL is shorter |
| `Handlers.Conclude` | src/index.ts:152-164 | a stop writes its message; a failed fetch leaves the block alone; a fetch writes the empty-result message if and only if no items came back, and otherwise pushes at least one bullet |
| `Handlers.IssuesOutcome` | src/index.ts:125-165 | issue links are pushed if and only if a username is set and issues came back; the block is left alone if and only if the request was made and failed |
| `Handlers.ReposOutcome` | src/index.ts:167-211 | repo references are pushed if and only if a user is known and names came back; the block is left alone if and only if the request was made and failed |
| `Handlers.ProjectsOutcome` | src/index.ts:213-253 | project references are pushed if and only if names came back; the block is left alone if and only if the request failed |
| `Handlers.CardsOutcome` | src/index.ts:255-316 | card links are pushed if and only if no token is set and cards came back; the block is left alone if and only if the request was made and failed |
| `Handlers.LinkRoundTrip` | src/index.ts:160 | `[text](url)` parses back into its text and url when the text has no `]` |
| `Handlers.IssueBulletReadsBack` | src/index.ts:158-161 | issue bullet i is, character by character, `[`, issue i's title, `](`, its page URL and `)`; when the title has no `]` it also parses back into both |
| `Handlers.PageRefBulletReadsBack` | src/index.ts:249 | repo or project bullet i refers to the page named after item i |
| `Handlers.CardWithoutNoteShowsContentPath` | src/index.ts:299-305 | a card without a note is labelled with its content URL minus the 29-character API prefix |
| `Handlers.CardWithNoteShowsNote` | src/index.ts:299-301 | a card with a note is labelled with the note, so its bullet is `[note](page)` character by character; when the note has no `]` the bullet also parses back into both |
| `Handlers.ReposAuthenticateAsConfiguredUser` | src/index.ts:186-193 | `FOR` changes whose repos are listed, never whose credentials are sent |
| `Handlers.ProjectsWithoutUsername` | src/index.ts:225-228 | with no username from either source, projects still fetch, for the repository "/" + name |
| `Handlers.CardsDefaults` | src/index.ts:278-290 | without `IN`, `UNDER` and `AS`, cards come from user/parent-page title, project = page title, column "To do" |
| `Handlers.CardsWithoutParentPage` | src/index.ts:275-276 | with no referencing page the repository name is "" |
| `Handlers.CardsWithUntitledParent` | src/index.ts:275-276 | a first referencing entry with no title puts "undefined" in the repository |
| `Outline.InsertAt` | src/index.ts:119 | `createBlock` at an order puts the text there and shifts the later siblings by one |
| `Outline.Creations` | src/index.ts:115-121 | creating item i at `start + i`, one after the other, puts the items as one run at `start` |
| `Outline.Pushed` | src/index.ts:108-123 | `pushBullets` replaces the clicked block by the whole run of bullets |
| `Outline.PushedPlacement` | src/index.ts:108-123 | bullet k lands at order + k, earlier siblings stay put, later ones shift by N-1, and all other siblings keep their text and relative order |
| `Outline.Clicked` | src/index.ts:66-73 | a click leaves the siblings with the clicked block set to the message, replaced by the bullets, or, after a failed request, cleared |
| `Outline.ClickOverwritesClearing` | src/index.ts:72-73 | the clicked block ends with the message or the first bullet, and keeps the "" of the clearing only after a failed request |
| `Outline.Children.UpdateBlock` | src/index.ts:113 | only the block at the order changes, to the new text |
| `Outline.Children.CreateBlock` | src/index.ts:119 | the siblings become `InsertAt` of the old siblings |
| `Outline.Children.PushBullets` | src/index.ts:108-123 | the siblings become the old ones with the clicked block replaced by the bullets, in order |
| `Outline.Children.Click` | src/index.ts:72-73 | the siblings become `Clicked` of the old ones: cleared, then the handler's outcome applied, nothing more after a failed request |
| `Extension.OnlyItsHandlerRuns` | src/index.ts:58-65 | a text starting with a registered verb runs that verb's handler and no other |
| `Extension.ForKeyword` | src/index.ts:19-49 | `<verb> FOR <user>` gives the record {FOR: user} |
| `Extension.ReposButtonForUser` | src/index.ts:167-196 | `Import Github Repos FOR <user>` runs only the repos handler, which requests `<user>`'s repos |
| `Extension.ReposClick` | src/index.ts:167-211 | clicking `Import Github Repos FOR <user>` leaves the block empty after a failed request, writes the empty-account message when no names came back, and replaces the block by one page reference per name otherwise |

## Left out

- DOM plumbing is not modelled: the document-wide click listener, `e.target`
  and `tagName`, `getUidsFromButton` and `createButtonObserver`
  (src/index.ts:56-57, 71, 81). A block is its position among its siblings.
- `window.roamAlphaAPI` and the Roam helpers are replaced by inputs.
  - `getSettingValueFromTree` becomes a map whose missing keys read as "".
  - `getPageTitleByHtmlElement` becomes a string.
  - `getOrderByBlockUid` becomes the order argument.
  - The Datalog query becomes its result rows.
  - The query text itself is not modelled.
- Network and asynchrony are not modelled.
  - The `axios` requests are described, not executed; the returned items are
    inputs.
  - The promise chains are not modelled. A failed request is the `Failed`
    outcome; the notification `genericError` shows is not modelled.
  - A `createBlock` that fails partway through `pushBullets` is not
    modelled.
  - `Promise.all` in `pushBullets` is modelled as sequential creations; the
    order in which Roam applies concurrent creations is not.
- The Basic-Auth header is kept as the `user:token` pair; its base64 encoding
  (src/index.ts:145-147, 189-191, 233-235) is a library call.
- `process.env.API_URL` is a string input; a missing value is not modelled.
- The settings-page declaration (`createConfigObserver`, src/index.ts:85-106)
  is not modelled.
- The serverless functions under `lambdas/` are not part of this model; they
  only forward requests.
- Text.Upper: only ASCII letters are upper-cased, because Unicode case
  mapping is not modelled.
- Dispatch.MatchIgnoresCase: inherits the ASCII-only case mapping of
  Text.Upper.
- Text.Substring: offsets count Unicode code points, not JavaScript's UTF-16
  code units, so a label with a character outside the Basic Multilingual Plane
  before the cut point parses differently.
- Text.TrimStart: whitespace is the ECMAScript WhiteSpace and LineTerminator
  set listed in `Text.IsWhitespace`.
- Text.TrimEnd: uses the same whitespace set as Text.TrimStart.
- ButtonConfig.PairUp: a JavaScript object record treats a `__proto__`
  keyword specially; the model treats it as an ordinary key.
- Handlers.CardBullets: a card's `note` that is `null` is modelled as "";
  both are falsy. A `content_url` that is `null` is not modelled, because
  the source would throw.
- Handlers.IssueBullets: states the count of bullets. Their form is stated by
  `IssueBulletReadsBack` for every title; that they parse back only holds for
  titles without `]`.
- Handlers.PageRefBullets: states the count of bullets. Their form is stated
  by `PageRefBulletReadsBack`.
- Handlers.CardBullets: states the count of bullets. Their labels are stated
  by `CardWithoutNoteShowsContentPath` and `CardWithNoteShowsNote`, and the
  bullet form by `Handlers.Link`; that they parse back only holds for labels
  without `]`.
- Handlers.ProjectsPlan: `pageTitle.textContent` is taken as a string; a page
  without a title element, where the source would throw, is not modelled.
- Handlers.CardsPlan: the same holds for cards, which read the page title
  (src/index.ts:272, 282) before the token test. On a page without a title
  element the source throws even when a token is set and writes no message;
  the model writes the "not supported" message.
- Outline.Children.CreateBlock: Roam's behaviour for an order past the last
  child is not modelled; `pushBullets` never creates past the end.
