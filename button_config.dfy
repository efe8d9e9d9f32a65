/**
 * The button-label mini-language: the text after the verb is split on single
 * spaces, `"..."` spans are merged into one token, and the completed tokens are
 * paired as keyword/value (`getButtonConfig`, src/index.ts).
 *
 * The loop over the raw parts is specified by `Step`/`Run`, a fold that keeps
 * the same two variables as the source (the quote accumulator and the completed
 * tokens). `Lex` is an independent, grammar-style description of the same
 * tokens; `RunAgreesWithLex` proves the two agree.
 */
module ButtonConfig {
  import opened Text
  import opened Wrappers

  const Quote: char := '"'

  /** `part.startsWith('"')`. */
  predicate OpensQuote(part: string) {
    |part| > 0 && part[0] == Quote
  }

  /** `part.endsWith('"')`. */
  predicate ClosesQuote(part: string) {
    |part| > 0 && part[|part| - 1] == Quote
  }

  /** The raw parts: the label minus `|verb| + 1` leading characters, split on " ". */
  function RawParts(buttonText: string, verb: string): (parts: seq<string>)
    ensures |parts| >= 1
  {
    Split(Substring(buttonText, |verb| + 1))
  }

  // ---------------------------------------------------------------------------
  // The scan, as the loop performs it
  // ---------------------------------------------------------------------------

  /**
   * The loop's variables: `quoted` is the accumulator (`quotedWord`), which is
   * also the only quote state, and `done` the completed tokens
   * (`restOfButtonText`).
   */
  datatype ScanState = ScanState(quoted: string, done: seq<string>)

  /**
   * One iteration of the loop over the raw parts. It completes at most one
   * token, only when it leaves no quote open, and an open quote that it closes
   * always completes one.
   */
  function Step(st: ScanState, part: string): (r: ScanState)
    ensures st.done <= r.done && |r.done| <= |st.done| + 1
    ensures |r.done| == |st.done| + 1 ==> r.quoted == ""
    ensures st.quoted != "" && r.quoted == "" ==> |r.done| == |st.done| + 1
  {
    if st.quoted != "" then
      if ClosesQuote(part) then ScanState("", st.done + [st.quoted + " " + part[..|part| - 1]])
      else ScanState(st.quoted + " " + part, st.done)
    else if OpensQuote(part) then ScanState(part[1..], st.done)
    else ScanState("", st.done + [part])
  }

  /** The loop run over `parts`, starting from `st`. */
  function Run(st: ScanState, parts: seq<string>): ScanState
    decreases |parts|
  {
    if parts == [] then st else Run(Step(st, parts[0]), parts[1..])
  }

  /** The completed tokens of a scan from the initial state: never more than the raw parts. */
  function Tokens(parts: seq<string>): (tokens: seq<string>)
    ensures |tokens| <= |parts|
  {
    RunAgreesWithLex([], parts);
    Run(ScanState("", []), parts).done
  }

  // ---------------------------------------------------------------------------
  // The same tokens, described by the shape of the input
  // ---------------------------------------------------------------------------

  /** The index of the first part that ends with a quote, if any. */
  function FirstClosing(parts: seq<string>): (r: Option<nat>)
    ensures r.Some? ==> r.value < |parts| && ClosesQuote(parts[r.value])
    ensures r.Some? ==> forall k :: 0 <= k < r.value ==> !ClosesQuote(parts[k])
    ensures r.None? ==> forall k :: 0 <= k < |parts| ==> !ClosesQuote(parts[k])
    decreases |parts|
  {
    if parts == [] then None
    else if ClosesQuote(parts[0]) then Some(0)
    else match FirstClosing(parts[1..]) {
      case None => None
      case Some(j) => Some(j + 1)
    }
  }

  /** Each part preceded by one space, concatenated. */
  function Spaced(parts: seq<string>): string
    decreases |parts|
  {
    if parts == [] then "" else " " + parts[0] + Spaced(parts[1..])
  }

  /** The token a quoted group becomes: its parts with single spaces, minus the outer quotes. */
  function QuotedToken(opener: string, middle: seq<string>, closer: string): string
    requires OpensQuote(opener) && ClosesQuote(closer)
  {
    opener[1..] + Spaced(middle) + " " + closer[..|closer| - 1]
  }

  /**
   * The completed tokens, by cases on the first part: a part that does not open
   * a quote is a token; a lone `"` is dropped; any other opener starts a group
   * that ends at the next part ending with `"` (the opener itself never closes
   * it), and a group that never ends yields nothing from there on.
   */
  function Lex(parts: seq<string>): (tokens: seq<string>)
    ensures |tokens| <= |parts|
    decreases |parts|
  {
    if parts == [] then []
    else if !OpensQuote(parts[0]) then [parts[0]] + Lex(parts[1..])
    else if |parts[0]| == 1 then Lex(parts[1..])
    else match FirstClosing(parts[1..]) {
      case None => []
      case Some(j) =>
        [QuotedToken(parts[0], parts[1..][..j], parts[1..][j])] + Lex(parts[1..][j + 1..])
    }
  }

  // ---------------------------------------------------------------------------
  // The scan agrees with Lex
  // ---------------------------------------------------------------------------

  /** Running from position `i` is one step on part `i`, then running from `i + 1`. */
  lemma RunFrom(st: ScanState, parts: seq<string>, i: nat)
    requires i < |parts|
    ensures Run(st, parts[i..]) == Run(Step(st, parts[i]), parts[i + 1..])
  {
    assert parts[i..][0] == parts[i] && parts[i..][1..] == parts[i + 1..];
  }

  /** Running over a concatenation is running over each half in turn. */
  lemma {:induction false} RunAppend(st: ScanState, a: seq<string>, b: seq<string>)
    ensures Run(st, a + b) == Run(Run(st, a), b)
    decreases |a|
  {
    if a == [] {
      assert a + b == b;
    } else {
      assert (a + b)[0] == a[0];
      assert (a + b)[1..] == a[1..] + b;
      RunAppend(Step(st, a[0]), a[1..], b);
    }
  }

  lemma AppendAssoc<T>(a: seq<T>, b: seq<T>, c: seq<T>)
    ensures a + b + c == a + (b + c)
  {
  }

  /** With an open quote, parts that do not end with `"` are appended to the accumulator, each after a space. */
  lemma {:induction false} RunAccumulates(acc: string, done: seq<string>, middle: seq<string>)
    requires acc != ""
    requires forall k :: 0 <= k < |middle| ==> !ClosesQuote(middle[k])
    ensures Run(ScanState(acc, done), middle).quoted == acc + Spaced(middle)
    ensures Run(ScanState(acc, done), middle).done == done
    decreases |middle|
  {
    if middle != [] {
      var acc' := acc + " " + middle[0];
      RunAccumulates(acc', done, middle[1..]);
      AppendAssoc(acc, " " + middle[0], Spaced(middle[1..]));
    }
  }

  /** With an open quote, the scan accumulates up to the first closing part, then emits one token. */
  lemma RunInsideQuote(acc: string, done: seq<string>, parts: seq<string>)
    requires acc != ""
    ensures FirstClosing(parts).None? ==>
      Run(ScanState(acc, done), parts).quoted == acc + Spaced(parts) &&
      Run(ScanState(acc, done), parts).done == done
    ensures FirstClosing(parts).Some? ==>
      var j := FirstClosing(parts).value;
      Run(ScanState(acc, done), parts)
        == Run(ScanState("", done + [acc + Spaced(parts[..j]) + " " + parts[j][..|parts[j]| - 1]]), parts[j + 1..])
  {
    if FirstClosing(parts).None? {
      RunAccumulates(acc, done, parts);
    } else {
      var j := FirstClosing(parts).value;
      assert parts == parts[..j] + parts[j..];
      RunAppend(ScanState(acc, done), parts[..j], parts[j..]);
      RunAccumulates(acc, done, parts[..j]);
      RunFrom(ScanState(acc + Spaced(parts[..j]), done), parts[j..], 0);
      assert parts[j..][0] == parts[j] && parts[j..][1..] == parts[j + 1..];
    }
  }

  /** From outside a quote, a group whose opener has content and which is closed gives one token. */
  lemma RunOverClosedGroup(done: seq<string>, parts: seq<string>)
    requires parts != [] && OpensQuote(parts[0]) && |parts[0]| >= 2 && FirstClosing(parts[1..]).Some?
    ensures var j := FirstClosing(parts[1..]).value;
      Run(ScanState("", done), parts)
        == Run(ScanState("", done + [QuotedToken(parts[0], parts[1..][..j], parts[1..][j])]), parts[1..][j + 1..])
  {
    assert Run(ScanState("", done), parts) == Run(ScanState(parts[0][1..], done), parts[1..]);
    RunInsideQuote(parts[0][1..], done, parts[1..]);
  }

  /** From outside a quote, a group whose opener has content and which is never closed gives nothing. */
  lemma RunOverUnclosedGroup(done: seq<string>, parts: seq<string>)
    requires parts != [] && OpensQuote(parts[0]) && |parts[0]| >= 2 && FirstClosing(parts[1..]).None?
    ensures Run(ScanState("", done), parts).done == done
  {
    assert Run(ScanState("", done), parts) == Run(ScanState(parts[0][1..], done), parts[1..]);
    RunInsideQuote(parts[0][1..], done, parts[1..]);
  }

  /** The scan emits exactly the tokens `Lex` describes, after those already done. */
  lemma {:induction false} RunAgreesWithLex(done: seq<string>, parts: seq<string>)
    ensures Run(ScanState("", done), parts).done == done + Lex(parts)
    decreases |parts|
  {
    if parts == [] {
    } else if !OpensQuote(parts[0]) {
      RunAgreesWithLex(done + [parts[0]], parts[1..]);
      AgreeOnPlainPart(done, parts);
    } else if |parts[0]| == 1 {
      RunAgreesWithLex(done, parts[1..]);
      AgreeOnLoneQuote(done, parts);
    } else if FirstClosing(parts[1..]).None? {
      RunOverUnclosedGroup(done, parts);
    } else {
      var j := FirstClosing(parts[1..]).value;
      var token := QuotedToken(parts[0], parts[1..][..j], parts[1..][j]);
      RunAgreesWithLex(done + [token], parts[1..][j + 1..]);
      AgreeOnClosedGroup(done, parts);
    }
  }

  lemma AgreeOnPlainPart(done: seq<string>, parts: seq<string>)
    requires parts != [] && !OpensQuote(parts[0])
    requires Run(ScanState("", done + [parts[0]]), parts[1..]).done == done + [parts[0]] + Lex(parts[1..])
    ensures Run(ScanState("", done), parts).done == done + Lex(parts)
  {
    var st := Step(ScanState("", done), parts[0]);
    assert st == ScanState("", done + [parts[0]]);
    assert Run(ScanState("", done), parts) == Run(st, parts[1..]);
    assert Lex(parts) == [parts[0]] + Lex(parts[1..]);
    AppendAssoc(done, [parts[0]], Lex(parts[1..]));
  }

  lemma AgreeOnLoneQuote(done: seq<string>, parts: seq<string>)
    requires parts != [] && OpensQuote(parts[0]) && |parts[0]| == 1
    requires Run(ScanState("", done), parts[1..]).done == done + Lex(parts[1..])
    ensures Run(ScanState("", done), parts).done == done + Lex(parts)
  {
    assert parts[0][1..] == "";
  }

  lemma AgreeOnClosedGroup(done: seq<string>, parts: seq<string>)
    requires parts != [] && OpensQuote(parts[0]) && |parts[0]| >= 2 && FirstClosing(parts[1..]).Some?
    requires var j := FirstClosing(parts[1..]).value;
      var token := QuotedToken(parts[0], parts[1..][..j], parts[1..][j]);
      Run(ScanState("", done + [token]), parts[1..][j + 1..]).done == done + [token] + Lex(parts[1..][j + 1..])
    ensures Run(ScanState("", done), parts).done == done + Lex(parts)
  {
    var j := FirstClosing(parts[1..]).value;
    var token := QuotedToken(parts[0], parts[1..][..j], parts[1..][j]);
    var rest := parts[1..][j + 1..];
    RunOverClosedGroup(done, parts);
    assert Run(ScanState("", done), parts).done == Run(ScanState("", done + [token]), rest).done;
    assert Lex(parts) == [token] + Lex(rest);
    AppendAssoc(done, [token], Lex(rest));
  }

  /** The loop's tokens are `Lex`'s tokens. */
  lemma TokensAreLexed(parts: seq<string>)
    ensures Tokens(parts) == Lex(parts)
  {
    RunAgreesWithLex([], parts);
  }

  // ---------------------------------------------------------------------------
  // Properties of the tokens
  // ---------------------------------------------------------------------------

  /** Parts that open no quote, `""` from repeated spaces included, are the tokens verbatim. */
  lemma {:induction false} UnquotedPartsPassVerbatim(parts: seq<string>)
    requires forall k :: 0 <= k < |parts| ==> !OpensQuote(parts[k])
    ensures Tokens(parts) == parts
  {
    LexOfUnquoted(parts);
    TokensAreLexed(parts);
  }

  lemma {:induction false} LexOfUnquoted(parts: seq<string>)
    requires forall k :: 0 <= k < |parts| ==> !OpensQuote(parts[k])
    ensures Lex(parts) == parts
    decreases |parts|
  {
    if parts != [] {
      LexOfUnquoted(parts[1..]);
      assert [parts[0]] + parts[1..] == parts;
    }
  }

  /** Tokens completed on a prefix stay, unchanged, at the front of the tokens of any extension. */
  lemma TokensExtend(a: seq<string>, b: seq<string>)
    ensures Tokens(a) <= Tokens(a + b)
  {
    RunAppend(ScanState("", []), a, b);
    RunDoneGrows(Run(ScanState("", []), a), b);
  }

  /**
   * The loop only ever adds tokens after those already completed, at most one
   * per part.
   */
  lemma {:induction false} RunDoneGrows(st: ScanState, parts: seq<string>)
    ensures st.done <= Run(st, parts).done
    ensures |Run(st, parts).done| <= |st.done| + |parts|
    decreases |parts|
  {
    if parts != [] {
      RunDoneGrows(Step(st, parts[0]), parts[1..]);
    }
  }

  /** Each part preceded by a space, after a first part, is the parts joined by single spaces. */
  lemma {:induction false} JoinCons(a: string, parts: seq<string>)
    ensures Join([a] + parts) == a + Spaced(parts)
    decreases |parts|
  {
    if parts != [] {
      assert ([a] + parts)[1..] == parts;
      JoinCons(parts[0], parts[1..]);
      assert [parts[0]] + parts[1..] == parts;
    }
  }

  lemma {:induction false} SpacedSnoc(parts: seq<string>, last: string)
    ensures Spaced(parts + [last]) == Spaced(parts) + " " + last
    decreases |parts|
  {
    if parts != [] {
      assert (parts + [last])[1..] == parts[1..] + [last];
      SpacedSnoc(parts[1..], last);
    }
  }

  /** A quoted token is its group's parts joined by single spaces, with the leading and trailing quote removed. */
  lemma QuotedTokenIsJoinedGroup(opener: string, middle: seq<string>, closer: string)
    requires OpensQuote(opener) && ClosesQuote(closer)
    ensures var joined := Join([opener] + middle + [closer]);
      |joined| >= 2 && joined[0] == Quote && joined[|joined| - 1] == Quote &&
      QuotedToken(opener, middle, closer) == joined[1..|joined| - 1]
  {
    JoinGroup(opener, middle, closer);
    StripOuter(opener, Spaced(middle) + " ", closer);
  }

  lemma JoinGroup(opener: string, middle: seq<string>, closer: string)
    ensures Join([opener] + middle + [closer]) == opener + (Spaced(middle) + " " + closer)
  {
    assert [opener] + middle + [closer] == [opener] + (middle + [closer]);
    JoinCons(opener, middle + [closer]);
    SpacedSnoc(middle, closer);
  }

  lemma StripOuter(opener: string, inside: string, closer: string)
    requires OpensQuote(opener) && ClosesQuote(closer)
    ensures var joined := opener + (inside + closer);
      |joined| >= 2 && joined[0] == Quote && joined[|joined| - 1] == Quote &&
      joined[1..|joined| - 1] == opener[1..] + inside + closer[..|closer| - 1]
  {
    var joined := opener + (inside + closer);
    var n := |joined|;
    assert joined[0] == opener[0];
    assert joined[n - 1] == closer[|closer| - 1];
    var core := opener[1..] + inside + closer[..|closer| - 1];
    assert |joined[1..n - 1]| == |core|;
    forall i | 0 <= i < |core|
      ensures joined[1..n - 1][i] == core[i]
    {
      if i < |opener| - 1 {
        assert joined[1 + i] == opener[1 + i];
      } else if i < |opener| - 1 + |inside| {
        assert joined[1 + i] == inside[i - (|opener| - 1)];
      } else {
        assert joined[1 + i] == closer[i - (|opener| - 1) - |inside|];
      }
    }
  }

  /**
   * A group opened by a part of at least two characters starting with `"` and
   * closed by the next part ending with `"` becomes exactly one completed token.
   */
  lemma QuotedGroupIsOneToken(done: seq<string>, opener: string, middle: seq<string>, closer: string, rest: seq<string>)
    requires OpensQuote(opener) && |opener| >= 2 && ClosesQuote(closer)
    requires forall k :: 0 <= k < |middle| ==> !ClosesQuote(middle[k])
    ensures Run(ScanState("", done), [opener] + middle + [closer] + rest)
         == Run(ScanState("", done + [QuotedToken(opener, middle, closer)]), rest)
  {
    var parts := [opener] + middle + [closer] + rest;
    var tail := parts[1..];
    assert tail == middle + [closer] + rest;
    assert tail[|middle|] == closer;
    RunInsideQuote(opener[1..], done, tail);
    var j := FirstClosing(tail).value;
    assert j == |middle|;
    assert tail[..j] == middle;
    assert tail[j + 1..] == rest;
  }

  /** A part of the form `"x"` opens a quote and does not close it: nothing is completed. */
  lemma SelfQuotedPartStaysOpen(done: seq<string>, x: string)
    ensures Step(ScanState("", done), [Quote] + x + [Quote]) == ScanState(x + [Quote], done)
  {
    assert ([Quote] + x + [Quote])[1..] == x + [Quote];
  }

  /** A lone `"` outside a quote leaves the accumulator empty, so it is lost: the tokens are those without it. */
  lemma LoneQuoteIsLost(pre: seq<string>, post: seq<string>)
    requires Run(ScanState("", []), pre).quoted == ""
    ensures Tokens(pre + [[Quote]] + post) == Tokens(pre + post)
  {
    var init := ScanState("", []);
    RunAppend(init, pre, [[Quote]] + post);
    RunAppend(init, pre, post);
    assert pre + [[Quote]] + post == pre + ([[Quote]] + post);
    var st := Run(init, pre);
    assert ([[Quote]] + post)[1..] == post;
    assert Step(st, [Quote]) == st;
  }

  /** A quote that is never closed yields no token from the opener onwards; earlier tokens are unaffected. */
  lemma UnterminatedQuoteYieldsNothing(pre: seq<string>, opener: string, rest: seq<string>)
    requires Run(ScanState("", []), pre).quoted == ""
    requires OpensQuote(opener) && |opener| >= 2
    requires forall k :: 0 <= k < |rest| ==> !ClosesQuote(rest[k])
    ensures Tokens(pre + [opener] + rest) == Tokens(pre)
  {
    var init := ScanState("", []);
    assert pre + [opener] + rest == pre + ([opener] + rest);
    RunAppend(init, pre, [opener] + rest);
    var st := Run(init, pre);
    assert ([opener] + rest)[1..] == rest;
    RunInsideQuote(opener[1..], st.done, rest);
  }

  // ---------------------------------------------------------------------------
  // Pairing the tokens
  // ---------------------------------------------------------------------------

  /** The keyword of pair `i`: token `2i`. */
  function Key(tokens: seq<string>, i: nat): string
    requires 2 * i + 1 < |tokens|
  {
    tokens[2 * i]
  }

  /** The value of pair `i`: token `2i + 1`. */
  function Value(tokens: seq<string>, i: nat): string
    requires 2 * i + 1 < |tokens|
  {
    tokens[2 * i + 1]
  }

  /** The record after the first `n` assignments `config[Key(i)] = Value(i)`. */
  function PairUp(tokens: seq<string>, n: nat): (config: map<string, string>)
    requires n <= |tokens| / 2
    ensures |config.Keys| <= n
  {
    if n == 0 then map[]
    else
      var before := PairUp(tokens, n - 1);
      assert before[Key(tokens, n - 1) := Value(tokens, n - 1)].Keys == before.Keys + {Key(tokens, n - 1)};
      before[Key(tokens, n - 1) := Value(tokens, n - 1)]
  }

  /** One more iteration of the pairing loop assigns token `2n + 1` to token `2n`. */
  lemma PairUpNext(tokens: seq<string>, n: nat)
    requires n < |tokens| / 2
    ensures 2 * n + 1 < |tokens|
    ensures PairUp(tokens, n + 1) == PairUp(tokens, n)[tokens[n * 2] := tokens[n * 2 + 1]]
  {
  }

  /**
   * The button configuration of a token sequence: `floor(n / 2)` pairs, a
   * final odd token dropped, so at most `floor(n / 2)` keys.
   */
  function Pairs(tokens: seq<string>): (config: map<string, string>)
    ensures |config.Keys| <= |tokens| / 2
  {
    PairUp(tokens, |tokens| / 2)
  }

  /** The configuration a click on a button with text `buttonText` gives the listener of `verb`. */
  function Parse(buttonText: string, verb: string): (config: map<string, string>)
    ensures |config.Keys| <= |RawParts(buttonText, verb)| / 2
  {
    Pairs(Lex(RawParts(buttonText, verb)))
  }

  /** A keyword is in the record exactly when it is the keyword of one of the pairs. */
  lemma {:induction false} PairUpKeys(tokens: seq<string>, n: nat, key: string)
    requires n <= |tokens| / 2
    ensures key in PairUp(tokens, n) <==> exists i :: 0 <= i < n && Key(tokens, i) == key
  {
    if n > 0 {
      PairUpKeys(tokens, n - 1, key);
      if key in PairUp(tokens, n) && key != Key(tokens, n - 1) {
        var i :| 0 <= i < n - 1 && Key(tokens, i) == key;
        assert 0 <= i < n && Key(tokens, i) == key;
      }
    }
  }

  /** The value of a keyword is the value of its last pair: when a keyword repeats, the later pair wins. */
  lemma {:induction false} PairUpLastWins(tokens: seq<string>, n: nat, i: nat)
    requires n <= |tokens| / 2 && i < n
    requires forall j :: i < j < n ==> Key(tokens, j) != Key(tokens, i)
    ensures Key(tokens, i) in PairUp(tokens, n)
    ensures PairUp(tokens, n)[Key(tokens, i)] == Value(tokens, i)
  {
    if i < n - 1 {
      PairUpLastWins(tokens, n - 1, i);
    }
  }

  /** Only the first `2n` tokens matter to the first `n` pairs. */
  lemma {:induction false} PairUpPrefix(a: seq<string>, b: seq<string>, n: nat)
    requires n <= |a| / 2 && n <= |b| / 2
    requires a[..2 * n] == b[..2 * n]
    ensures PairUp(a, n) == PairUp(b, n)
  {
    if n > 0 {
      assert a[..2 * (n - 1)] == a[..2 * n][..2 * (n - 1)];
      assert b[..2 * (n - 1)] == b[..2 * n][..2 * (n - 1)];
      PairUpPrefix(a, b, n - 1);
      assert a[2 * (n - 1)] == a[..2 * n][2 * (n - 1)];
      assert a[2 * (n - 1) + 1] == a[..2 * n][2 * (n - 1) + 1];
    }
  }

  /** A final unpaired token takes no part in the record. */
  lemma PairsIgnoreUnpaired(tokens: seq<string>)
    requires |tokens| % 2 == 1
    ensures Pairs(tokens) == Pairs(tokens[..|tokens| - 1])
  {
    var shorter := tokens[..|tokens| - 1];
    assert |shorter| / 2 == |tokens| / 2;
    assert tokens[..2 * (|tokens| / 2)] == shorter[..2 * (|tokens| / 2)];
    PairUpPrefix(tokens, shorter, |tokens| / 2);
  }

  // ---------------------------------------------------------------------------
  // Labels
  // ---------------------------------------------------------------------------

  /** When the label is a word as long as the verb, a space and a rest, the raw parts are the rest split on spaces. */
  lemma RawPartsAfterVerb(word: string, verb: string, rest: string)
    requires |word| == |verb|
    ensures RawParts(word + " " + rest, verb) == Split(rest)
  {
    assert (word + " " + rest)[|verb| + 1..] == rest;
  }

  /** A label holding only the verb, with or without one trailing space, gives the empty record. */
  lemma VerbAloneGivesEmptyConfig(verb: string)
    ensures Parse(verb, verb) == map[]
    ensures Parse(verb + " ", verb) == map[]
  {
    assert Substring(verb, |verb| + 1) == "";
    assert Lex([""]) == [""];
    RawPartsAfterVerb(verb, verb, "");
  }

  /**
   * The offset is taken on the untrimmed label while the match trims it: one
   * leading space makes the first raw part "", which shifts every pair by one.
   */
  lemma LeadingSpaceShiftsPairs(verb: string, rest: string)
    ensures RawParts(" " + verb + " " + rest, verb) == [""] + Split(rest)
  {
    var buttonText := " " + verb + " " + rest;
    assert buttonText[|verb| + 1..] == "" + " " + rest;
    SplitAtSpace("", rest);
  }

  /** `<verb> K V` gives `{K: V}`; for instance `Import Github Repos FOR octocat` gives `{FOR: "octocat"}`. */
  lemma KeywordWithValue(verb: string, key: string, value: string)
    requires ' ' !in key && ' ' !in value && !OpensQuote(key) && !OpensQuote(value)
    ensures Parse(verb + " " + Join([key, value]), verb) == map[key := value]
  {
    var parts := [key, value];
    RawPartsOfWords(verb, parts);
    LexOfUnquoted(parts);
  }

  /**
   * `<verb> K1 "W1 W2" K2 V2` gives `{K1: "W1 W2", K2: V2}`; for instance
   * `Import Github Cards IN "my repo" UNDER Sprint1` gives
   * `{IN: "my repo", UNDER: "Sprint1"}`.
   */
  lemma KeywordWithQuotedValue(verb: string, key1: string, w1: string, w2: string, key2: string, value2: string)
    requires ' ' !in key1 && ' ' !in w1 && ' ' !in w2 && ' ' !in key2 && ' ' !in value2
    requires !OpensQuote(key1) && !OpensQuote(key2) && !OpensQuote(value2) && w1 != ""
    ensures Parse(verb + " " + Join([key1, [Quote] + w1, w2 + [Quote], key2, value2]), verb)
         == map[key1 := w1 + " " + w2][key2 := value2]
  {
    var tokens := [key1, w1 + " " + w2, key2, value2];
    TokensOfKeywordWithQuotedValue(verb, key1, w1, w2, key2, value2);
    assert PairUp(tokens, 1) == map[key1 := w1 + " " + w2];
    assert Pairs(tokens) == PairUp(tokens, 1)[key2 := value2];
  }

  lemma TokensOfKeywordWithQuotedValue(verb: string, key1: string, w1: string, w2: string, key2: string, value2: string)
    requires ' ' !in key1 && ' ' !in w1 && ' ' !in w2 && ' ' !in key2 && ' ' !in value2
    requires !OpensQuote(key1) && !OpensQuote(key2) && !OpensQuote(value2) && w1 != ""
    ensures Lex(RawParts(verb + " " + Join([key1, [Quote] + w1, w2 + [Quote], key2, value2]), verb))
         == [key1, w1 + " " + w2, key2, value2]
  {
    var parts := [key1, [Quote] + w1, w2 + [Quote], key2, value2];
    assert ' ' !in parts[1] && ' ' !in parts[2] by {
      assert forall c :: c in [Quote] + w1 ==> c == Quote || c in w1;
      assert forall c :: c in w2 + [Quote] ==> c == Quote || c in w2;
    }
    RawPartsOfWords(verb, parts);
    var value1 := w1 + " " + w2;
    assert ([Quote] + w1)[1..] == w1;
    assert (w2 + [Quote])[..|w2|] == w2;
    assert Spaced([]) == "";
    assert QuotedToken(parts[1], [], parts[2]) == value1;
    LexKeywordWithQuotedValue(parts, [key1, value1, key2, value2]);
  }

  /** A label made of the verb and space-free words joined by single spaces has those words as raw parts. */
  lemma RawPartsOfWords(verb: string, words: seq<string>)
    requires |words| >= 1 && forall k :: 0 <= k < |words| ==> ' ' !in words[k]
    ensures RawParts(verb + " " + Join(words), verb) == words
  {
    RawPartsAfterVerb(verb, verb, Join(words));
    SplitJoin(words);
  }

  lemma LexKeywordWithQuotedValue(parts: seq<string>, tokens: seq<string>)
    requires |parts| == 5 && !OpensQuote(parts[0]) && !OpensQuote(parts[3]) && !OpensQuote(parts[4])
    requires OpensQuote(parts[1]) && |parts[1]| >= 2 && ClosesQuote(parts[2])
    requires tokens == [parts[0], QuotedToken(parts[1], [], parts[2]), parts[3], parts[4]]
    ensures Lex(parts) == tokens
  {
    var group := parts[1..];
    assert group[1..][1..] == parts[3..];
    LexOfUnquoted(parts[3..]);
    assert FirstClosing(group[1..]) == Some(0);
    assert group[1..][..0] == [];
    assert Lex(group) == [QuotedToken(parts[1], [], parts[2])] + parts[3..];
  }

  // ---------------------------------------------------------------------------
  // getButtonConfig
  // ---------------------------------------------------------------------------

  /** `getButtonConfig`: the scan loop, then the counted pairing loop. */
  method GetButtonConfig(buttonText: string, verb: string) returns (config: map<string, string>)
    ensures config == Parse(buttonText, verb)
  {
    var rawParts := RawParts(buttonText, verb);
    var quotedWord := "";
    var restOfButtonText: seq<string> := [];
    var i := 0;
    while i < |rawParts|
      invariant 0 <= i <= |rawParts|
      invariant Run(ScanState(quotedWord, restOfButtonText), rawParts[i..]) == Run(ScanState("", []), rawParts)
    {
      var part := rawParts[i];
      ghost var before := ScanState(quotedWord, restOfButtonText);
      RunFrom(before, rawParts, i);
      if quotedWord != "" {
        if |part| > 0 && part[|part| - 1] == Quote {
          restOfButtonText := restOfButtonText + [quotedWord + " " + part[..|part| - 1]];
          quotedWord := "";
        } else {
          quotedWord := quotedWord + " " + part;
        }
      } else {
        if |part| > 0 && part[0] == Quote {
          quotedWord := part[1..];
        } else {
          restOfButtonText := restOfButtonText + [part];
        }
      }
      assert ScanState(quotedWord, restOfButtonText) == Step(before, part);
      i := i + 1;
    }
    assert rawParts[i..] == [];
    TokensAreLexed(rawParts);
    var numPairs := |restOfButtonText| / 2;
    config := map[];
    for j := 0 to numPairs
      invariant config == PairUp(restOfButtonText, j)
    {
      PairUpNext(restOfButtonText, j);
      config := config[restOfButtonText[j * 2] := restOfButtonText[j * 2 + 1]];
    }
  }
}
