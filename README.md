# Tennis score reconstruction and rendering, modelled in Dafny

This project models the decision logic of a small Rust crawler that reads a sports site's
tennis result pages. For each tournament page it reads the tournament's name and parses the
first `n` match listings. For each match it finds the two players, which side won or is
serving, and each side's per-set score tokens. It then renders a one-line summary such as
`Alice d. Bob  6-4 7-6(5)` or `LIVE: *Bob v. Alice  4-6 2-1`.

Files:

- `wrappers.dfy`: `Option` and `Result`.
- `seqs.dfy`: the iterator adaptors the parser chains together (`filter`, `filter_map`,
  `map`, itertools' `collect_tuple` into a pair) and string concatenation, with their
  ordering lemmas.
- `html.dfy`: the document tree. A node is an element (tag name, attributes, children) or a
  text node. A node's position is its path of child indices from the root, so a node's parent
  is found by dropping the last index. `Preorder` is the `find` enumeration: the proper
  descendants in document order. `DocumentNodes` is `Document::find`: the root, then its
  descendants. The module also models `text()`, `attr()`, `str::contains` and `str::trim`
  (with Unicode's White_Space set).
- `tmatch.dfy` (`src/tmatch.rs`): `Match` and `MatchParseError`; `FormatScore`, which
  picks the operand order and runs the loop method `WalkSets`, proved equal to the
  specification function `ScoreString`; `Display`; state
  resolution; and `ParseMatch` (`TryFrom<Node>`).
- `tournament.dfy` (`src/tournament.rs`): `ParseTournament` (`TryFrom<Document>`) and the
  loop method `TopNMatches`. The source's `if let Ok(..) push(Ok) else push(Err)` is written
  as pushing `Collapse` of the parse result. `Collapse` states that conversion.

Behaviours of the code that a reader might not expect, each modelled as written:

- The scores come from exactly two `div`s whose class is exactly `tc-match__stats`
  (src/tmatch.rs:131-143). Each one gives one side's list: its children whose class contains
  `--set`, trimmed.
- A tie-break token is cut after its second character (src/tmatch.rs:63-66). `"6 3"` against
  `"7"` gives `" 7-6(3)"`, but the token `"6(3)"` gives `" 7-6(3))"` (see `TieBreakExamples`).
- The summary joins the outcome phrase and the score with a space, and the score starts with
  its own space (src/tmatch.rs:177). So there are two spaces: `"Alice d. Bob  6-4 7-6"` (see
  `DisplayExample`).
- A winner name that matches neither player does not decide anything: resolution falls
  through to the server check (src/tmatch.rs:145-155).

## Model

| member | source | states |
|---|---|---|
| `Matches.Message` | src/tmatch.rs:24-33 | every match failure is described as "Error ..."; only ScoreFormatError is described as "Error formatting ..." |
| `Matches.MessagesDistinct` | src/tmatch.rs:24-33 | the four match failures have pairwise different descriptions |
| `Matches.Placeholder` | src/tmatch.rs:68-69 | a side shows "0" exactly when its token is "-" (or already "0"); any other token is shown unchanged, so the result is never the placeholder "-" |
| `Matches.SetFragment` | src/tmatch.rs:63-70 | every rendered set starts with a space and has at least one more character |
| `Matches.FragmentBySides` | src/tmatch.rs:63-70 | every set renders as " " + left side + "-" + right side, each side shown by the same rule (`SideText`), so the mirrored set swaps the sides and nothing else |
| `Matches.TieBreakFragments` | src/tmatch.rs:63-66 | for a tie-break token t ("6" plus at least one character), ("7", t) renders " 7-6(" + t[2..] + ")" and (t, "7") renders " 6(" + t[2..] + ")-7" |
| `Matches.TieBreakExamples` | src/tmatch.rs:63-70 | "6(3)" against "7" renders " 7-6(3))", "6 3" renders " 7-6(3)" and its mirror " 6(3)-7"; "-" against "3" renders " 0-3" |
| `Matches.ScoreString` | src/tmatch.rs:61-78 | the score fails, always with ScoreFormatError, exactly when the two sides have different numbers of sets, whichever is longer |
| `Matches.FormatScore` | src/tmatch.rs:50-81 | the lockstep walk returns exactly the specified score (all set fragments in set order, or ScoreFormatError), and fails exactly on unequal lengths |
| `Matches.WalkSets` | src/tmatch.rs:61-80 | the lockstep walk over the left and right operands fails with ScoreFormatError exactly when one side has more sets, and otherwise returns every set's fragment in set order |
| `Matches.ScoreOrientation` | src/tmatch.rs:53-59 | when player two won or is serving, player two's scores are the left operand: the score equals that of the match with the two lists exchanged and player one the winner |
| `Matches.ScoreInSetOrder` | src/tmatch.rs:61-80 | on equal lengths the score succeeds, and for each set k the fragments of sets 0..k-1 followed by set k's fragment form a prefix of it |
| `Matches.Headline` | src/tmatch.rs:169-175 | an outcome phrase exists exactly when the state is 1 to 4, and it is "p1 d. p2" (state 1), "p2 d. p1" (state 2), "LIVE: *p1 v. p2" (state 3) or "LIVE: *p2 v. p1" (state 4) |
| `Matches.Display` | src/tmatch.rs:167-178 | a summary exists exactly when the state is 1 to 4 and both sides have the same number of sets, and it is the outcome phrase, a space, then the rendered score |
| `Matches.DisplayMirror` | src/tmatch.rs:169-177 | the summary is the same when the page lists the players the other way round (players, score lists and states 1/2, 3/4 exchanged) |
| `Matches.DisplayExample` | src/tmatch.rs:170-177 | Alice beating Bob 6-4 7-6 is summarised as "Alice d. Bob  6-4 7-6" |
| `Matches.ResolveState` | src/tmatch.rs:145-155 | the full decision table: 1 iff the winner is p1; 2 iff the winner is p2 and not p1; 3 iff the server is p1 and the winner is neither; 4 iff the server is p2 (not p1) and the winner is neither; otherwise StateParseError |
| `Matches.WinnerTakesPriority` | src/tmatch.rs:145-155 | a winner who is one of the players gives state 1 or 2 whatever the server is |
| `Matches.AnchorTitle` | src/tmatch.rs:96-99 | a name exactly when the node is an anchor element with a title attribute, and the name is that attribute's value |
| `Matches.Markers` | src/tmatch.rs:105-107 | the markers are exactly the subtree's `small` elements whose text is exactly the caption: every one found is such a node, and every such node is found |
| `Matches.MarkersFirst` | src/tmatch.rs:105-116 | there is no marker exactly when no node is one, and the first marker (the one `next()` takes) is the earliest such node in document order |
| `Matches.HopLands` | src/tmatch.rs:108-115 | for a node of the document with four ancestors, the four parent hops always reach a node |
| `Matches.SideContainer` | src/tmatch.rs:108-115 | the side container is the node exactly four levels above the marker |
| `Matches.SideNameFirst` | src/tmatch.rs:117-118 | the side's name is the title of the first titled anchor below the side container in document order; there is none exactly when no anchor below it has a title |
| `Matches.WinnerName` | src/tmatch.rs:105-120 | no winner exactly when there is no "Winner" marker; otherwise the winner is the side name of the first marker, and StateParseError (the only failure) exactly when that side has no name |
| `Matches.ServerName` | src/tmatch.rs:122-129 | a server name exactly when there is a "Service" marker, and then it is the side name of the first marker |
| `Matches.SetScores` | src/tmatch.rs:134-139 | one side's tokens: none for a text node, at most one per child, each already trimmed |
| `Matches.SetScoresCells` | src/tmatch.rs:134-139 | one token per child whose class contains "--set", in child order, each the trimmed text of that child |
| `Matches.ScoreGroups` | src/tmatch.rs:131-143 | ScoreParseError exactly when there are not exactly two statistics blocks; otherwise the first block's set cells for side one and the second block's for side two |
| `Matches.ParseMatch` | src/tmatch.rs:87-164 | a parse never reports ScoreFormatError; a parsed match has state 1 to 4, its players are the two titled anchors in document order, and its scores are the two statistics groups (the state is tied to the winner and server names by `ParsedState`; each error kind is fixed by `PlayerGate`, `WinnerGate`, `ScoreGate` and `StateGate`) |
| `Matches.PlayerGate` | src/tmatch.rs:96-103 | PlayerParseError exactly when the subtree does not hold exactly two titled anchors |
| `Matches.WinnerGate` | src/tmatch.rs:105-120 | once the players are found, a first "Winner" marker whose side container holds no titled anchor fails the parse with StateParseError, whatever the scores are |
| `Matches.ScoreGate` | src/tmatch.rs:131-143 | once the players and the winner are found, ScoreParseError exactly when there are not exactly two statistics blocks |
| `Matches.ParsedScores` | src/tmatch.rs:131-163 | a parsed match's scores are the set cells of the first and of the second statistics block |
| `Matches.WinnerDecidesOutcome` | src/tmatch.rs:105-155 | in a parsed match a winner named p1 gives state 1, one named p2 gives state 2, and the state is a finished one exactly when the winner is one of the players |
| `Matches.ParsedState` | src/tmatch.rs:105-155 | a parsed match's state is what the winner name and the server name resolve to against its two players, so states 3 and 4 come from the "Service" marker naming p1 or p2 |
| `Matches.StateGate` | src/tmatch.rs:145-155 | once the players, the winner and the two statistics blocks are found, StateParseError exactly when resolving the winner and server names fails |
| `Matches.NoMarkersNoOutcome` | src/tmatch.rs:145-155 | a subtree with neither a "Winner" nor a "Service" marker never parses; with players and scores present it fails with StateParseError |
| `Matches.ParsedMatchDisplays` | src/tmatch.rs:157-177 | a parsed match has a summary exactly when both sides have the same number of sets |
| `Html.Attr` | src/tmatch.rs:98 | `attr(key)` is present exactly on an element that carries the key, and is that attribute's value |
| `Html.ChildrenTextAppend` | src/tmatch.rs:107 | `text()` of a node concatenates its children's text in child order |
| `Html.NodeAtAppend` | src/tmatch.rs:108-115 | following a path and then another is following their concatenation, which is how the parent hops recover an ancestor |
| `Html.PreorderInDoc` | src/tmatch.rs:96-97 | every node that `find` enumerates below a node sits, in the document, at its recorded position, strictly below that node |
| `Html.DocumentNodes` | src/tournament.rs:45 | the document enumeration starts with the root, and every later node has a parent |
| `Html.ContainsAt` | src/tmatch.rs:135-138 | `contains` holds exactly when the pattern occurs at some offset |
| `Html.TrimStart` | src/tmatch.rs:139 | the result is a suffix of the input, everything dropped is whitespace, and it does not start with whitespace |
| `Html.TrimEnd` | src/tmatch.rs:139 | the result is a prefix of the input, everything dropped is whitespace, and it does not end with whitespace |
| `Html.TrimIdempotent` | src/tmatch.rs:139 | trimming twice is trimming once |
| `Tournaments.Message` | src/tournament.rs:18-25 | every tournament failure is described as "Error parsing tournament ..."; only MatchesParseError as "... tournament match ..." |
| `Tournaments.MessagesDistinct` | src/tournament.rs:18-25 | the two tournament failures have different descriptions |
| `Tournaments.ParseTournament` | src/tournament.rs:44-51 | a parsed tournament keeps its document; the only failure is NameParseError |
| `Tournaments.TournamentName` | src/tournament.rs:45-48 | NameParseError exactly when no span has class exactly "tc-tournament-header__name"; otherwise the name is the text of the first such span in document order |
| `Tournaments.MatchNodes` | src/tournament.rs:59-63 | the listings are exactly the document's `div`s whose class contains "tc-match__content", each found at its position, in document order (a subsequence of the enumeration) |
| `Tournaments.UnclassedNotMatch` | src/tournament.rs:61-63 | an element without a class counts as class "" and is never a match listing |
| `Tournaments.MatchClassAnywhere` | src/tournament.rs:61-63 | a `div` whose class has "tc-match__content" anywhere in it is a match listing |
| `Tournaments.Collapse` | src/tournament.rs:68-72 | a parsed match passes through unchanged; every match failure, of any kind, becomes MatchesParseError |
| `Tournaments.TopNMatches` | src/tournament.rs:56-75 | exactly min(n, number of listings) results (none for n = 0), the k-th being the collapsed parse of the k-th listing in document order |
| `Seqs.Filter` | src/tournament.rs:59-63 | `filter` keeps exactly the elements that satisfy the predicate, in their original order (a subsequence) |
| `Seqs.FilterMap` | src/tmatch.rs:96-99 | `filter_map` yields at most one item per element, and nothing exactly when every element maps to None |
| `Seqs.FilterMapAppend` | src/tmatch.rs:96-101 | `filter_map` distributes over concatenation, so the items for earlier elements always come before those for later ones (the order of the two players) |
| `Seqs.FilterMapHead` | src/tmatch.rs:117-118 | the first item of `filter_map` (what `find_map` returns) comes from the earliest element that maps to Some |
| `Seqs.Map` | src/tmatch.rs:99 | `map` keeps the length and applies the function to each element in place |
| `Seqs.CollectPair` | src/tmatch.rs:96-103 | `collect_tuple` gives a pair exactly when there are two items, and the pair is those two items in order |
| `Seqs.FilterAppend` | src/tournament.rs:59-63 | filtering keeps the document order of the kept nodes |
| `Seqs.FilterHead` | src/tournament.rs:45-48 | the head of a filter is the first element that satisfies the predicate; the filter is empty exactly when none does |

## Left out

- `src/crawler.rs` is not part of this model. It fetches pages over HTTP, reads response
  bodies and resolves "Results" links, which is I/O.
- `src/main.rs` is not part of this model. It reads the count argument (default 5) and prints
  each tournament and match line, which is CLI plumbing.
- HTML parsing and the `select` crate's internals are abstracted. A document is one root
  element, and comments and doctypes are not modelled. Descendant search is the pre-order
  enumeration `Html.Preorder`.
- Panics are preconditions rather than modelled behaviour. `ParsePanics` states exactly
  when `try_from` would panic: a first "Winner" or "Service" marker with fewer than four
  ancestors, or a server container with no titled anchor, each reached only if the earlier
  steps succeeded. `SetSafe` states exactly when `&s[0..1]` or `&s[2..]` would panic: the
  token is empty, or it cuts a multi-byte character.
- Strings are sequences of Unicode characters, not UTF-8 bytes. Where the source compares
  byte lengths and slices bytes, the cut characters are ASCII under `SetSafe`, so byte and
  character positions agree there.
- `Display`/`Debug` for the error enums and the `fmt::Formatter` plumbing are modelled as the
  `Message` functions and as `Display` returning `Option<string>` (`None` for `fmt::Error`).
- A `Tournament` keeps the root node in place of the parsed `Document`.
