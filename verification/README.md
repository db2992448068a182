# Verified models of the corpus tools

The repository keeps a teaching corpus as JSON and Markdown files and a set of command-line tools that edit,
migrate, audit and publish it. These tools promise things that no single function shows: that an edit changes
one value and no other byte, that a failed migration leaves a fence or the prior state, that a ref update never
overwrites somebody else's commit. This project models the tools that make the hardest of these promises and
proves them for all inputs, all runs and all choices of failing calls.

`dafny verify dfyconfig.toml` checks everything. One module per component; a module's opening comment says which
part of the system it is.

| Part | Modules |
|---|---|
| Formatting-preserving JSON surgery | `Text`, `JsonStrings`, `JsonNumbers`, `JsonGrammar`, `JsonParser`, `JsonReader`, `JsonRefusals`, `JsonPaths`, `JsonWalk`, `JsonLocality`, `JsonValues`, `JsonSplice`, `JsonSpliceGate`, `JsonDumps`, `JsonWritten`, `JsonSpliceText`, `JsonSurgery`, `JsonMembers`, `JsonMemberTree`, `JsonInsert`, `JsonInsertGate`, `JsonInsertRun`, `JsonInsertAgain`, `JsonInsertSeveral`, `JsonEquality`, `JsonInsertText`, `JsonInsertLoops` |
| Identifier rewriting inside JSON strings | `IdentifierText`, `IdentifierBases`, `IdentifierTokens`, `IdentifierBase`, `IdentifierRewriter`, `IdentifierCounts` |
| Compare-and-swap of the canonical ref | `CanonicalRefs`, `CanonicalRefWorld`, `CanonicalRefCas` |
| Supervised production migration | `Migration` |
| Apply transaction and its review evidence | `ApplyTransaction`, `ApplyJsonFile`, `ReviewEvidence` |
| Day Zero conversion | `DayZeroProofs`, `DateInventory`, `SourceOrder`, `ReviewResolution`, `ReviewArtifacts`, `ReviewFixpoint`, `ReviewRun` |
| Calibration | `Kappa` |
| Crash-resumable reverts | `RevertDaemon` |
| Markdown blocks, batch chain, alpha compositing | `MarkdownBlocks`, `BatchChain`, `AlphaCompositing` |

## How the models are built

- A text is a sequence of code points, lone surrogates included, because Python strings can hold them. The JSON
  grammar is that of RFC 8259 (sections 2, 4, 6 and 7) in two dialects: `Strict` is what the source's parser
  accepts, `Lenient` adds the constants `NaN`, `Infinity` and `-Infinity` that `json.loads` accepts. A tree
  records the offsets of every value, as the source's parser does.
- The grammar (`Derives…`) is stated apart from the parser. The parser as functions (`JsonParser`) is proved exact
  for it; the parser as loops (`JsonReader`) is proved equal to the functions; and everything about edited texts is
  proved about the grammar.
- Code that changes state is a class with the source's fields. Git, HTTP, the deployment provider, locks and signals
  are calls that succeed, fail or take effect while reporting a failure, each chosen freely at every call. Third
  parties may move refs between any two git steps. A statement of the form "if `calm` then …" (in the ref model: on
  the `Calm` course) says what happens when nothing fails; it keeps the models from being satisfied by failing always.
- The ref model keeps a chronicle of every state the refs go through, with what brought it about: third parties, a
  write of this run, or the alignment of its worktree. What third parties do is an arbitrary function fixed
  beforehand, so that the run cannot blame them for a change of its own. A write is in the chronicle with the SHA it
  found and the one it left; what a check decided is said about the states its readings were taken from.
- Scores, alpha values and dates are exact. Hashes, commits and file contents are opaque values.

## What the proofs found

Where the code does not do what its comments or its callers rely on, the model follows the code and states exactly
when the promise holds.

- The gate of `splice_scalars` is called a guard that never fires. It can: on a NaN, and, when the file escapes
  non-ASCII, on a string holding a high surrogate directly before a low one, because the two escapes read back as one
  character. It fires in exactly these cases (`JsonSpliceGate.GateIsExact`, `JsonStrings.StringRoundTrip`).
  `JsonSurgery.GateFires` has a document and one edit of each kind.
- `parse` documents that it raises `SurgicalError`. It raises `ValueError` exactly when everything up to some token
  reads as the beginning of a value and that token is a closed string that does not decode, or a run of number
  characters that is no number (`JsonRefusals.ValueErrorIsExact`). The text `[-Infinity,null]` is one: `json.loads`
  accepts it, and the fallback of `write_json_edits`, which waits for `SurgicalError`, is not taken
  (`JsonRefusals.NegativeInfinityRaises`).
- `insert_object_properties` promises that repeated runs are byte-for-byte no-ops. For finite values that survive being
  written, and containers that are new or there with exactly their value, that holds exactly when no insertion goes
  into the value of an earlier one; otherwise the second call is refused (`JsonInsertAgain.SecondCallIsExact`, with the
  shortest case in `JsonInsertAgain.GrownDictionaryIsRefused`). Nothing can go into a scalar. Containers are distinct
  values here, and built anew before the repetition; the source stores the caller's own dictionary and lets later
  insertions change it, see "Left out". When every member is new, values of any kind included, the call succeeds
  exactly when each key and each value survives being written at its turn (`JsonInsertSeveral.SeveralAreExact`); one
  that does not survive makes the text differ for good, whatever is inserted later.
- The identifier count taken from the raw text exceeds the count taken from the decoded document by what stands in the
  keys and values that later members of the same object overwrite; the two agree exactly when nothing overwritten holds
  the old base (`IdentifierCounts.CountsAgree`, with a document that differs in `IdentifierCounts.OverwrittenBase`).
- After a failed push, reconciliation may credit this run with a move of remote main that a third party made. A push
  that finds its target there already writes nothing and is recorded as this run's mutation all the same, so that
  `succeeded` implies all the ref writes except possibly that one (`CanonicalRefCas.Repository.Execute`).
- `not-landed` implies that this run moved no ref only if a local git step cannot take effect without its ledger entry,
  and nothing reaches remote main after the push was begun. Both are needed. `CanonicalRefCas.NotLandedThoughMoved`
  executes a run that is interrupted right after local main was moved, and `CanonicalRefCas.NotLandedThenLanded` one
  whose push lands after the failure was reported; either receipt says `not-landed`.
- If entering the change window is refused and releasing the lock then fails too, the fence error is replaced and the
  apply timer is restored although a fence was asked for (`Migration.Run.Execute`, the exact condition on
  `keepFenced`; `Migration.TimerBackUnfenced` executes such a run). The answer of `prove_all_surfaces` is ignored;
  only its raising counts.
- `apply_file_patches` promises never to write a file partially. A patch with a validation error is no obstacle: the
  patches on the file that could be coerced are all written, and only those (`ApplyJsonFile.OthersAreWritten`,
  `ApplyJsonFile.ApplyScalarPatches`).
- "At most one inverse commit per request" holds exactly as long as no search for an earlier one fails while there is
  one and the inverse lands all the same (`RevertDaemon.AtMostOnce`). With nothing else failing, a repetition lands
  exactly when the search failed and undoing the run still changes the document (`RevertDaemon.RepetitionIsExact`);
  so someone must have changed the document since (`RevertDaemon.RepetitionNeedsChange`), and right after the first
  inverse commit nothing happens (`RevertDaemon.AtOnceNothing`). `RevertDaemon.RevertsTwice` executes two ticks
  with two inverse commits, and `RevertDaemon.RevertedTwice` has such a history. The request id is read as a pattern.
  That a failure leaves the tree as it was needs `git reset --hard` to do what it says (`resetWorks`): its return code
  is not looked at. Neither is that of `git rev-parse HEAD`, so a commit at HEAD is called ambiguous when HEAD cannot
  be read.
- Validating a resolved review fails on the output of a successful resolution exactly when the base audit already held
  a human-confirmed entry (`ReviewFixpoint.ResolutionIsAFixpoint`).
- `bgOf` drops translucent layers when no ancestor is opaque. The result is the painted background then only if those
  layers are white (`AlphaCompositing.BackgroundIsExact`, with one dark layer in `AlphaCompositing.DarkLayerDropped`).

## Model

| member | source | states |
|---|---|---|
| Text.SkipWs | tools/json_surgical.py:64-68 | The whitespace loop stops at the first offset that holds no whitespace. |
| JsonStrings.StringEndAt | tools/json_surgical.py:89-107 | For every decodable token the character loop, which skips one character after each backslash, stops exactly at the closing quote. |
| JsonStrings.StringRoundTrip | tools/json_surgical.py:253-258 | A string written by `json.dumps` always reads back, and reads back as itself if and only if escaping is off or no high surrogate stands directly before a low one. |
| JsonStrings.DecodeWritten | tools/json_surgical.py:253-258 | What any written string reads back as: the string, with separately spelled surrogate pairs joined in ASCII mode. |
| JsonNumbers.IntRoundTrip | tools/json_surgical.py:253-258 | Every integer survives being written and read. |
| JsonNumbers.FloatIsDecimal | tools/json_surgical.py:110-119 | A number token with a fraction or an exponent means its digits, the point moved by the exponent, with its sign. |
| JsonNumbers.Power10IsPow | tools/json_surgical.py:110-119 | Moving the point by some places is a factor of as many tens, one way and back. |
| JsonNumbers.DigitsJoined | tools/json_surgical.py:110-119 | Digits count in powers of ten. |
| JsonParser.ParserIsExact | tools/json_surgical.py:71-201 | The parser returns a tree if and only if the text derives that tree, spans included; so it refuses exactly the texts outside the grammar and the grammar is unambiguous. |
| JsonReader.ReadString | tools/json_surgical.py:89-107 | The loop over a string token computes its end, or fails with the error of an unterminated or undecodable token. |
| JsonReader.ReadNumber | tools/json_surgical.py:110-119 | The loop over number characters computes the token's end, or fails where `json.loads` rejects the token. |
| JsonReader.ReadLiteral | tools/json_surgical.py:122-129 | The loop over `true`, `false` and `null`. |
| JsonReader.ReadLeaf | tools/json_surgical.py:71-86 | A scalar is read by its first character, with its span and its decoded value. |
| JsonReader.ReadValue | tools/json_surgical.py:71-86 | Dispatch on the first character after whitespace. |
| JsonReader.ReadArray | tools/json_surgical.py:132-154 | The element loop reads the same elements, the same end and the same errors as the recursive definition. |
| JsonReader.ReadKey | tools/json_surgical.py:157-182 | A member key with its colon, or the error. |
| JsonReader.ReadObject | tools/json_surgical.py:157-191 | The member loop keeps every pair, repeated keys included, in source order. |
| JsonReader.Read | tools/json_surgical.py:194-201 | `parse` returns a tree if and only if the whole text derives it. |
| JsonRefusals.ValueErrorIsExact | tools/json_surgical.py:71-201 | `parse` raises `ValueError` if and only if everything up to some token is the beginning of a value and the token is a closed but undecodable string or a run of number characters that is no number; every other refusal is a `SurgicalError`. |
| JsonRefusals.NegativeInfinityRaises | tools/json_surgical.py:110-119 | `[-Infinity,null]` is accepted by `json.loads`, and `parse` raises `ValueError` on it. |
| JsonWalk.FindMember | tools/json_surgical.py:207-217 | The loop over an object's pairs finds the last one with the key, as a dictionary would. |
| JsonWalk.Walk | tools/json_surgical.py:207-228 | The path loop goes where the recursive walk goes, with a refusal in the same cases. |
| JsonWalk.Locate | tools/json_surgical.py:231-235 | `locate` succeeds exactly where the path leads to a value, and the span it returns holds the text of the value that the decoded document has at that path. |
| JsonPaths.ListIndex | tools/json_surgical.py:264-275 | Python's list index on the decoded side: it raises exactly outside of `-len` to `len - 1`, and a negative index counts from the end. |
| JsonPaths.NavigatedValue | tools/json_surgical.py:207-228 | What a path finds in the tree is what it reads in the decoded value. |
| JsonPaths.SetAtIsSetLeaf | tools/json_surgical.py:264-275 | Assigning along a path in the decoded value is revaluing the one leaf the path names, even with repeated keys and shadowed members. |
| JsonPaths.SetVisibleMember | tools/json_surgical.py:264-275 | Revaluing under the member that wins assigns that key in the dictionary and keeps its place. |
| JsonPaths.NavigateSet | tools/json_surgical.py:278-331 | Revaluing leaves does not change where paths lead. |
| JsonPaths.Untouched | tools/json_surgical.py:278-331 | A leaf outside a subtree is none of its leaves. |
| JsonLocality.DocumentMoved | tools/json_surgical.py:315-331 | Span locality: replacing the text of one value by the text of another value re-derives the whole document around it, every later offset shifted and nothing else changed. |
| JsonLocality.LeafMoved | tools/json_surgical.py:315-331 | The same for one scalar token. |
| JsonValues.ReloadedEqual | tools/json_surgical.py:253-258 | A dumped scalar compares equal after reloading if and only if it is faithful (no NaN, no surrogate pair spelled apart in ASCII mode); and then type and value are the same. |
| JsonSplice.TwinStep | tools/json_surgical.py:315-318 | Splicing from the right leaves the recorded offsets of all earlier leaves valid. |
| JsonSplice.SplicedDerives | tools/json_surgical.py:315-318 | The text after any set of non-overlapping splices derives the tree with those leaves replaced. |
| JsonSplice.SplicedLoads | tools/json_surgical.py:315-329 | It decodes to the original value with exactly the new tokens' values at their leaves. |
| JsonSpliceGate.PlanGrows | tools/json_surgical.py:297-313 | One more span on a leaf that has none yet keeps the sorted plan free of overlap. |
| JsonSpliceGate.PlanFacts | tools/json_surgical.py:297-313 | Edits of distinct scalar leaves always yield a plan, made of leaf tokens and without overlap: the overlap guard never fires. |
| JsonSpliceGate.ReadRevalued | tools/json_surgical.py:278-331 | What a path reads after the edits: the new value at an edited leaf, the old one elsewhere. |
| JsonSpliceGate.GateIsExact | tools/json_surgical.py:278-331 | For distinct scalar leaves the spliced text always parses, and the re-parse gate passes if and only if every changing value survives `json.dumps`; then the text parses to exactly the expected value, types included. |
| JsonSpliceText.PlanIsCuts | tools/json_surgical.py:297-304 | The plan replaces exactly the tokens of the leaves that change, each by what `json.dumps` writes for its new value. |
| JsonSpliceText.SplicedIsEdits | tools/json_surgical.py:309-318 | The spliced text is, piece by piece, the original between those tokens and the new texts in their place. |
| JsonSurgery.ApplySpans | tools/json_surgical.py:315-318 | The right-to-left splice loop produces the original text with the spans replaced and every other byte in place. |
| JsonSurgery.Overlapping | tools/json_surgical.py:309-313 | The overlap guard fires exactly when two neighbouring spans overlap. |
| JsonSurgery.PlanSpans | tools/json_surgical.py:297-304 | The planning loop: one span per edit that changes type or value, in edit order, or the first refusal. |
| JsonSurgery.Expect | tools/json_surgical.py:320-324 | The gate's expected value: the edits assigned one after the other, or the point where Python raises. |
| JsonSurgery.SpliceScalars | tools/json_surgical.py:278-331 | Any text returned compares equal to the edited value; and for distinct scalar leaves the call succeeds exactly when every changing value survives `json.dumps`, keeps every byte outside the changed tokens, and parses to exactly the edited value; otherwise it raises `SurgicalError`. |
| JsonSurgery.GateFires | tools/json_surgical.py:320-331 | A document with one edit to a NaN and one to a high surrogate directly before a low one: for both the exact condition of the gate fails. |
| JsonDumps.DumpsLoads | tools/json_surgical.py:358-360 | `json.loads` of `json.dumps` of any value: it always parses, into the tree written down by offset, and decodes to the reloaded value. |
| JsonWritten.WrittenIsShortest | tools/json_surgical.py:253-258 | Of all spellings that decode to a string, printable only if escaping is on and with lower-case escapes, the written one is the shortest and the only one of its length. |
| JsonWritten.WrittenInParts | tools/json_surgical.py:253-258 | Strings are written character by character, and printable if escaping is on. |
| JsonWritten.DumpIsCompact | tools/json_surgical.py:360-361 | `json.dumps` with tight separators puts nothing between two tokens but the punctuation, and spells every key and string as it spells strings. |
| JsonMembers.LineStart | tools/json_surgical.py:361-362 | The start of the line of the closing brace: nothing between it and the brace is a line feed, and what is before it, if anything, is one. |
| JsonMembers.MemberDerives | tools/json_surgical.py:361-369 | The written member, with its indentation and line breaks, derives one member wherever it is placed between blanks. |
| JsonMembers.AppendDerives | tools/json_surgical.py:365-369 | A comma and more members after the last member derive the longer member list. |
| JsonMemberTree.EditedByInsertion | tools/json_surgical.py:361-369 | Inserting the chunk before the closing brace is replacing the object's text by the text of the longer object. |
| JsonMemberTree.DocumentExtended | tools/json_surgical.py:339-382 | The text with the chunk derives the document with that member appended to the addressed object. |
| JsonMemberTree.MovedValue | tools/json_surgical.py:339-382 | In decoded form that is an assignment along the path and nothing else. |
| JsonInsert.AddedValue | tools/json_surgical.py:339-382 | The decoded document gains exactly one entry, at the end of the addressed dictionary. |
| JsonInsert.UnfaithfulDiffers | tools/json_surgical.py:358-381 | A container, however nested, with a NaN, a joined surrogate pair or colliding keys does not compare equal after reloading. |
| JsonInsertGate.InsertionReloads | tools/json_surgical.py:339-382 | What the inserted text reloads to and what the gate expects, side by side. |
| JsonInsertGate.InsertionGateIsExact | tools/json_surgical.py:339-382 | For one new member of any value, containers included: the text always parses, and the gate passes if and only if key and value survive `json.dumps`; then the parsed value is exactly the expected one. |
| JsonInsertRun.StepText | tools/json_surgical.py:348-369 | A successful insertion either adds the chunk to the addressed object or finds the member there and leaves the text alone. |
| JsonInsertRun.OrdinaryStep | tools/json_surgical.py:347-379 | One successful insertion of a scalar, or of a container that is new or there with exactly its value, yields exactly the expected tree and value. |
| JsonInsertRun.RunDerives | tools/json_surgical.py:347-379 | Any sequence of them: the text derives the tree with exactly those members added, and that tree is the expected value. |
| JsonInsertRun.RunPasses | tools/json_surgical.py:371-381 | The gate never refuses such a sequence. |
| JsonInsertRun.SingleIsExact | tools/json_surgical.py:339-382 | The exact condition for one insertion of any value, as a whole run. |
| JsonInsertAgain.OneObject | tools/json_surgical.py:157-191 | The object at a span is one object. |
| JsonInsertAgain.MemberFollowed | tools/json_surgical.py:347-369 | A member keeps its value when a member is appended anywhere in the document, unless the path of the insertion passes through it; then its value is extended in place. |
| JsonInsertAgain.InsertedMember | tools/json_surgical.py:347-369 | Right after its insertion a member is there, once, with the value it was given. |
| JsonInsertAgain.MemberAfter | tools/json_surgical.py:347-369 | Through any later insertion it keeps its value, or gains one entry somewhere inside. |
| JsonInsertAgain.GrewKeeps | tools/json_surgical.py:347-369 | Growing takes nothing away: every dictionary inside is still there with no fewer entries. |
| JsonInsertAgain.OutgrownDiffers | tools/json_surgical.py:353-357 | A value that has grown never compares equal to what it was. |
| JsonInsertAgain.RunMember | tools/json_surgical.py:347-369 | At every point of a run each inserted member is there, with its value or grown beyond it, according to which insertions went into it. |
| JsonInsertAgain.SecondRunIsExact | tools/json_surgical.py:347-369 | The insertion loop once more: it gives the text back byte for byte if and only if no insertion went into the value of an earlier one; otherwise it refuses. |
| JsonInsertAgain.RunsAgain | tools/json_surgical.py:339-382 | Unless some insertion went into the value of an earlier one, the result is itself a document on which the same list runs, to no effect. |
| JsonInsertAgain.SecondCallIsExact | tools/json_surgical.py:339-382 | The whole function on its own result, loop, expected value and gate: what it expects is what the text says, and the text comes back byte for byte, unless some insertion went into the value of an earlier one; then the call is refused. |
| JsonInsertAgain.ScalarsNeverGrow | tools/json_surgical.py:339-382 | For scalars the condition always holds. |
| JsonInsertAgain.GrownDictionaryIsRefused | tools/json_surgical.py:353-357 | The shortest case in which the second run is refused: a dictionary inserted empty that has a member by now. |
| JsonInsertSeveral.NeverEqual | tools/json_surgical.py:371-382 | The gate refuses every ASCII text when a string or key anywhere in the expected value has a high surrogate directly before a low one. |
| JsonInsertSeveral.SeveralAreExact | tools/json_surgical.py:339-382 | For several new members of any values, containers and NaN included, the call succeeds if and only if every key and every value survives being written at its turn; then the text says exactly what is expected. |
| JsonEquality.ScalarsCompare | tools/json_surgical.py:320-330 | Python's `==` in the gates: integers, floats and booleans compare as numbers, everything else only with its own kind, and NaN with nothing. |
| JsonEquality.ListsCompare | tools/json_surgical.py:320-330 | Lists are equal when they are as long and equal at every position. |
| JsonEquality.DictsCompare | tools/json_surgical.py:320-330 | Dictionaries are equal when they hold equal values under every key, in whatever order. |
| JsonInsertText.InsertOneIsExact | tools/json_surgical.py:347-369 | An insertion succeeds exactly when the path leads to an object that lacks the key or has it once with this value. It writes, before the closing brace, a comma, a line feed, the blanks that precede the brace on its line, two more blanks, the key, a colon, a blank and the value; in an empty object no comma, but a line feed and those blanks after the member; and where the line of the brace holds anything else, those blanks are none. |
| JsonInsertText.AllSteps | tools/json_surgical.py:346-369 | The same for every text a sequence of insertions goes through. |
| JsonInsertLoops.InsertStep | tools/json_surgical.py:348-369 | One turn of the loop, with the chunk it adds. |
| JsonInsertLoops.InsertLoop | tools/json_surgical.py:347-369 | Deleting the added chunks, last one first, gives the original text. |
| JsonInsertLoops.ExpectLoop | tools/json_surgical.py:371-379 | The expected value: each key assigned in turn, or the point where Python raises. |
| JsonInsertLoops.InsertObjectProperties | tools/json_surgical.py:339-382 | Any text returned comes from the original by writing each missing member where and how the source writes it, contains the original once the chunks are deleted, and compares equal to the expected value; insertions of finite values that survive being written, whose containers are new or there with exactly their value, are never refused by the gate, parse to exactly the expected value, and the call on the result returns it exactly when none went into an earlier one; new members of any values succeed together exactly when each key and value survives `json.dumps` at its turn. |
| IdentifierText.BasesByName | tools/identifier_base.py:8-9 | The two bases, letter by letter. |
| IdentifierText.NoOverlap | tools/identifier_base.py:42-115 | Neither base can begin inside the old base: matches never overlap. |
| IdentifierText.CountIsOccurrences | tools/identifier_base.py:71-115 | Counting matches from the left counts every occurrence. |
| IdentifierText.NoneLeft | tools/identifier_base.py:42-115 | No old base is left after a replacement, not even across the seams. |
| IdentifierBases.NewCounted | tools/identifier_base.py:71-142 | In any string a replacement adds exactly one new base for each old one; none that was there disappears, and none forms across a seam. |
| IdentifierTokens.MatchWidth | tools/identifier_base.py:105-113 | The raw width of a match stays inside the token. |
| IdentifierTokens.RewriteDecodes | tools/identifier_base.py:71-115 | Rewriting commutes with decoding: the rewritten token decodes to the decoded token with every old base replaced, however its characters were spelled. |
| IdentifierTokens.NothingToRewrite | tools/identifier_base.py:97-100 | A token without the old base keeps its exact spelling. |
| IdentifierTokens.RewrittenIsSafe | tools/identifier_base.py:85-93 | No new surrogate pair forms at a seam. |
| IdentifierBase.WsPlaced | tools/identifier_base.py:42-68 | Whitespace between tokens is kept, and what follows it still ends it. |
| IdentifierBase.StringPlaced | tools/identifier_base.py:42-68 | A string token of the text: where it stands afterwards, what it becomes and what it adds to the count. |
| IdentifierBase.DocumentRewritten | tools/identifier_base.py:42-115 | The rewritten text of a document derives the document with every key and string value replaced, and the count is the number of occurrences in its decoded keys and strings. |
| IdentifierBase.RewriteIsComplete | tools/identifier_base.py:42-115 | In addition a second pass changes nothing and counts zero, and a count of zero means an unchanged text. |
| IdentifierRewriter.UnitAt | tools/identifier_base.py:77-93 | The source's case analysis on escapes gives the width of one decoded character. |
| IdentifierRewriter.Spans | tools/identifier_base.py:73-97 | The decoded characters of a token with the raw span of each. |
| IdentifierRewriter.CopiedUpTo | tools/identifier_base.py:102-114 | Up to the next match the raw text is copied. |
| IdentifierRewriter.ReplaceToken | tools/identifier_base.py:71-115 | The match loop over a decodable token produces the rewritten token and its count. |
| IdentifierRewriter.FindEnd | tools/identifier_base.py:52-60 | The character loop finds the closing quote, or the end of the text. |
| IdentifierRewriter.ReplaceTokens | tools/identifier_base.py:42-68 | The whole loop computes the rewriting and the count; on any JSON document it therefore replaces the decoded keys and values and counts their occurrences. |
| IdentifierCounts.BaseCount | tools/identifier_base.py:118-142 | The stack loop counts the occurrences of either base in all strings and keys of a decoded document. |
| IdentifierCounts.CountsAgree | tools/identifier_base.py:118-142 | The raw count is the decoded count plus the occurrences in what later members overwrite; the two agree if and only if nothing overwritten holds the old base; and after the rewriting the decoded count is zero. |
| IdentifierCounts.BasesConserved | tools/identifier_base.py:42-142 | No base is lost: after the rewriting the new bases are those there were and one for each that the token pass replaced, counting on either side what decoding drops. |
| IdentifierCounts.OverwrittenBase | tools/identifier_base.py:118-142 | A document that repeats a key, with one occurrence in the text and none in the decoded value. |
| CanonicalRefs.FinalIsExact | tools/canonical_ref_cas.py:422-456 | The direct ref behind a ref: the end of the chain of symbolic refs that starts there, if there is one of the admitted length. |
| CanonicalRefs.RefDelta | tools/canonical_ref_cas.py:603-647 | What the check of one ref's map entries decides about the ref itself. |
| CanonicalRefs.LocalDeltaIsExact | tools/canonical_ref_cas.py:578-647 | The local check reads maps but decides about stores: it passes exactly when main and its tracking ref went from `--from` to the expected SHA and every other ref, symbolic or not, is untouched. |
| CanonicalRefs.SameMapSameStore | tools/canonical_ref_cas.py:591-600 | Equal ref maps mean equal ref stores. |
| CanonicalRefs.RemoteDeltaIsExact | tools/canonical_ref_cas.py:555-575 | The remote check with the readback of main: the remote is the baseline with main moved, and nothing else. |
| CanonicalRefs.WritesGrow | tools/canonical_ref_cas.py:692-693 | A shorter ledger stands for a prefix of the writes. |
| CanonicalRefWorld.WritesAreSafe | tools/canonical_ref_cas.py:1302-1372 | A run whose writes are a beginning of the intended ones replaced, in the states the refs really went through, `--from` by `--to` and nothing else; and a run without writes moved no ref. |
| CanonicalRefWorld.FinalMapIsExact | tools/canonical_ref_cas.py:1082-1090 | The final check of the local map, with its dry-run case, decides exactly whether the store is the expected one. |
| CanonicalRefs.OutcomeIsExact | tools/canonical_ref_cas.py:696-724 | Which outcome a failed run gets, from its ledger, what was read back and whether the push was begun: the exact condition of each. |
| CanonicalRefWorld.ProvedByName | tools/canonical_ref_cas.py:1065-1097 | What the final state means by name: `refs/heads/main` and `refs/remotes/<remote>/main` went from `--from` to `--to`, and every other ref is as it was. |
| CanonicalRefCas.Repository.ReadLocalMap | tools/canonical_ref_cas.py:422-456 | A local ref map shows a whole store as it is at that moment, or the read fails. |
| CanonicalRefCas.Repository.ReadRemote | tools/canonical_ref_cas.py:459-516 | The remote refs and the target of the remote HEAD, or a failure. |
| CanonicalRefCas.Repository.Swap | tools/canonical_ref_cas.py:1313-1324 | The moment of a compare-and-swap: the ref goes from the old SHA to the new one, which is written down, or no state changes and nothing is written down; it may do the former and still raise. |
| CanonicalRefCas.Repository.UpdateRef | tools/canonical_ref_cas.py:1302-1372 | `git update-ref` with a new and an old value: at most one write, to the direct ref behind the ref, and if it is made, then over the old value and as the latest thing that happened. |
| CanonicalRefCas.Repository.Push | tools/canonical_ref_cas.py:1196-1299 | A leased push replaces only the old SHA at remote main, by the new one, and writes nothing if remote main is at the new one already; when it raises it may have landed, may land later, or never. |
| CanonicalRefCas.Repository.AlignWorktree | tools/canonical_ref_cas.py:1302-1351 | Aligning index and worktree writes no ref. |
| CanonicalRefCas.Repository.Prepare | tools/canonical_ref_cas.py:1481-1505 | What a run has established before its first mutation: both baselines are what the store and the remote were at two moments, with main and its tracking ref at `--from`. |
| CanonicalRefCas.Repository.ReadLocalBaseline | tools/canonical_ref_cas.py:1482-1499 | The local half: a map of the whole store at one moment, with the tracking ref at `--from`, and the checks that follow it. |
| CanonicalRefCas.Repository.CasLocalMain | tools/canonical_ref_cas.py:1302-1330 | The local compare-and-swap: ledger and writes agree, or exactly this one write is in doubt. |
| CanonicalRefCas.Repository.CasLocalMainAndAlign | tools/canonical_ref_cas.py:1302-1351 | Two ledger entries, one ref write, in that order. |
| CanonicalRefCas.Repository.CasRemoteTrackingMain | tools/canonical_ref_cas.py:1354-1372 | The last entry of either order. |
| CanonicalRefCas.Repository.RequireFinalState | tools/canonical_ref_cas.py:1065-1097 | Passing means that at a moment after the call began the remote was its baseline with main moved, and at a later one the local store was its baseline with main and its tracking ref moved (or unmoved, in a dry run). |
| CanonicalRefCas.Repository.RequireRemoteState | tools/canonical_ref_cas.py:650-671 | Passing means that the remote was the baseline with main moved at a moment after the call began. |
| CanonicalRefCas.Repository.RequireLocalState | tools/canonical_ref_cas.py:1079-1097 | The local half, read after the last answer of the remote: at a moment after the call began the store was what is expected. |
| CanonicalRefCas.Repository.PushMain | tools/canonical_ref_cas.py:1548-1555 | The push with its ledger entry, also when it had nothing to do: an exact ledger, or this one write in doubt. |
| CanonicalRefCas.Repository.MutateForward | tools/canonical_ref_cas.py:1545-1555 | The forward order: however far it gets, the ledger is a prefix and at most the step under way is in doubt. |
| CanonicalRefCas.Repository.MutateRestore | tools/canonical_ref_cas.py:1548-1560 | The compensation order, which gives up the remote before the local ref. |
| CanonicalRefCas.Repository.Mutate | tools/canonical_ref_cas.py:1545-1562 | All four mutations of either verb, or an exception with one step in doubt. |
| CanonicalRefCas.Repository.Attempt | tools/canonical_ref_cas.py:1459-1580 | The guarded body: passing implies the whole intended ledger and the proved final state, about the states that were read; a dry run mutates nothing. |
| CanonicalRefCas.Repository.BestEffortReadback | tools/canonical_ref_cas.py:674-689 | The remote is read last, and what was read is what it was then. |
| CanonicalRefCas.Repository.StillAccounted | tools/canonical_ref_cas.py:1592-1612 | No third party and no late push can break the account of this run's own writes. |
| CanonicalRefCas.Repository.Handle | tools/canonical_ref_cas.py:1592-1650 | The failure handler: unless it is interrupted itself it gives exactly the outcome that ledger, readback and push call for, with a warning exactly for a landed transition, and it adds the push to the ledger exactly when the readback confirms it; and what each outcome implies about the writes. |
| CanonicalRefCas.Repository.Execute | tools/canonical_ref_cas.py:1453-1650 | Over every run: the ledger is a prefix of the intended order, also after reconciliation; wherever the run wrote, the ref was at `--from`, went to `--to`, and nothing else changed; `succeeded` is said exactly on the success path outside dry runs, and then all intended writes were made, but for a push that found its target there, and the states the baselines and the final maps were read from differ only at main and its tracking ref; a failed run whose handler finishes gets exactly the outcome that its ledger and readback call for, and `warning` exactly when it landed; `not-landed` implies that the run moved no ref if local steps are atomic and nobody else writes remote main after the push; every check of the run was passed, in order, before it reports success, and all those before the first mutation before anything is written; and a run that nothing disturbs succeeds. |
| CanonicalRefCas.Repository.Land | tools/canonical_ref_cas.py:1196-1281 | A push in flight reaches the remote: it replaces the old SHA by the new one, or changes nothing. |
| CanonicalRefCas.NotLandedThoughMoved | tools/canonical_ref_cas.py:1453-1650 | An execution in which local main is moved and interrupted before its ledger entry: the readback shows the move and the outcome is `not-landed`. |
| CanonicalRefCas.NotLandedThenLanded | tools/canonical_ref_cas.py:1453-1650 | An execution of a compensation whose push raises: everything reads back as it was, the outcome is `not-landed`, no ref was moved, and then the push lands. |
| Migration.AcceptableIsExact | tools/day_zero_migration.py:469-498 | What a request must bring: the enabling flags and acknowledgements, full commit and provider ids, an absolute registry that is no link; and the release timer must be off. |
| Migration.Run.StopTimer | tools/day_zero_migration.py:965-974 | Disabling the apply timer, or failing before or after it took effect. |
| Migration.Run.ExitWindow | tools/day_zero_migration.py:881-888 | Closing the window is proved or reported as a failed close. |
| Migration.Run.PersistentFence | tools/day_zero_migration.py:847-865 | The fence failure says whether the fence was proved. |
| Migration.Run.ProvePriorState | tools/day_zero_migration.py:891-897 | Only an affirmative answer proves the prior state. |
| Migration.Run.CompensateToPrior | tools/day_zero_migration.py:900-918 | Every surface is attempted in order whatever fails, and success means all of them are back. |
| Migration.Run.RestoreCanonicalRef | tools/day_zero_migration.py:921-932 | Restoring the ref counts only if it reads back as the prior commit. |
| Migration.Run.ProveCandidate | tools/day_zero_migration.py:980-997 | The candidate counts as committed only after its last proof. |
| Migration.Run.Deploy | tools/day_zero_migration.py:998-1020 | Verification phases, deployment, readback, the recovery record and the editor, in this order; success means that all eight phases passed, in order, and that the candidate is live and synchronised. |
| Migration.Run.Rehearse | tools/day_zero_migration.py:1022-1046 | Back to the prior pair and forward again, each activation read back, before the candidate is proved on all surfaces. |
| Migration.Run.Migrate | tools/day_zero_migration.py:998-1046 | From verification to the proved candidate: success means that every step was taken, in order. |
| Migration.Run.Recover | tools/day_zero_migration.py:1047-1066 | After a failed body: either the prior state is proved, by compensation or untouched, or the fence stays. |
| Migration.Run.Body | tools/day_zero_migration.py:979-1066 | Whatever escapes the window's body is a fence that could not be proved. |
| Migration.Run.FailedClose | tools/day_zero_migration.py:1067-1078 | A window that cannot be closed always keeps the fence, and compensates if the candidate was committed and nothing was compensated yet. |
| Migration.Run.Window | tools/day_zero_migration.py:868-888 | Which of entry, body and close failed, and what holds on each way out. |
| Migration.Run.ReadFirst | tools/day_zero_migration.py:943-955 | The editor queue and both timers are looked at, in this order, before anything is touched. |
| Migration.Run.Locked | tools/day_zero_migration.py:976-1085 | The window under the daemon lock, whose failing release replaces every other failure. |
| Migration.Run.Supervise | tools/day_zero_migration.py:965-1078 | The same with the lock around it; a failing release of the lock replaces the failure in flight. |
| Migration.Run.Contain | tools/day_zero_migration.py:964-1083 | The outer handler decides whether a fence is kept. |
| Migration.Run.RestorePolicy | tools/day_zero_migration.py:1084-1100 | The timer gets its prior policy back exactly when no fence is kept and it was on. |
| Migration.Run.Execute | tools/day_zero_migration.py:935-1116 | Over every choice of failing calls: an unacceptable request or a release timer that is enabled or active is refused with nothing touched; the timer policy comes back only if the window never opened, or it closed with the candidate proved, or it closed with the prior state proved; compensation runs at most once and on every surface; the exact condition for a kept fence; the steps inside the window are always a beginning of the procedure in its order, and a normal return implies that all of them were taken, restoration and return proved among them, and that the timer equals its prior state; the window is entered only after the queue, both timers and the daemon lock were seen to, in this order; and a calm run finishes, or, when the live pair is not the prior one, is refused with the prior state proved and the timer back. |
| Migration.TimerBackUnfenced | tools/day_zero_migration.py:964-1104 | An execution in which the window is refused and then the lock cannot be released: a plain failure is raised, no fence is kept, and the apply timer is on again. |
| ApplyTransaction.EveryPatchHasResult | tools/apply_suggestions.py:1666-1668 | Every patch of every edited file has an outcome. |
| ApplyTransaction.FirstSeenFirst | tools/apply_suggestions.py:1626-1643 | Files come in the order of their first patches. |
| ApplyTransaction.FileIsPatched | tools/apply_suggestions.py:979-1053 | A file becomes what editing it as it was makes of it with all the patches on it; one with an ambiguous patch stays as it was. |
| ApplyTransaction.OutcomeIsGiven | tools/apply_suggestions.py:1666-1668 | Each patch has the outcome of the edit of its file. |
| ApplyTransaction.ClaimsIsExact | tools/apply_suggestions.py:1644-1665 | A group claims a change exactly when one of its patches has another text or an operation. |
| ApplyTransaction.CleanIsEffective | tools/apply_suggestions.py:1670-1689 | In a clean run the group of every such patch changes a byte on its own, and one of its files in the tree. |
| ApplyTransaction.CleanIsAllDone | tools/apply_suggestions.py:1666-1689 | No failure is reported exactly when every patch succeeds and every group that claims a change makes one, on its own and in the tree. |
| ApplyTransaction.AccountedAreRows | tools/apply_suggestions.py:1727-1740 | Every entry is a fetched row under its own group; a row that names none is a group of its own. |
| ApplyTransaction.GroupAdded | tools/apply_suggestions.py:1727-1740 | A group goes whole into one bucket, and nothing is lost or doubled. |
| ApplyTransaction.Transaction.ApplyPatchFiles | tools/apply_suggestions.py:1626-1689 | The tree is the base with these patches applied, and each patch has the outcome of editing its file, except that the successes of a silent group are handed to a human. |
| ApplyTransaction.Transaction.MeasureGroups | tools/apply_suggestions.py:1644-1665 | The groups that change a byte when applied alone to a scratch tree. |
| ApplyTransaction.Transaction.WriteFiles | tools/apply_suggestions.py:1666-1668 | Each file once, in first-seen order, with all patches on it. |
| ApplyTransaction.Transaction.FlagSilent | tools/apply_suggestions.py:1681-1689 | Exactly the successes of silent groups are handed to a human. |
| ApplyTransaction.Transaction.Demote | tools/apply_suggestions.py:1686-1688 | Only outcomes that were done change, and only the group's own. |
| ApplyTransaction.Transaction.GateGroups | tools/apply_suggestions.py:1727-1740 | Every fetched row goes with its whole group into the bucket that the gate's verdict names, and nothing is lost. |
| ApplyTransaction.Transaction.RollBack | tools/apply_suggestions.py:1745-1776 | The groups with a failed member leave as a whole; a patch is retained exactly when its whole group succeeded. |
| ApplyTransaction.Transaction.GivenUp | tools/apply_suggestions.py:1785-1797 | Giving up a failed replay loses no row. |
| ApplyTransaction.Transaction.PatchAndReplay | tools/apply_suggestions.py:1742-1813 | At most two rounds; after a failure exactly the groups that succeeded as a whole are replayed; the tree that goes on is the base with precisely the retained patches applied, cleanly. |
| ApplyTransaction.Transaction.RunApply | tools/apply_suggestions.py:1692-1914 | The patches that survive are all gated ones if they apply cleanly, else those of the groups that succeeded if these do, else none; and the run ends with the first stage that does not approve the tree, or commits, or stops after the build if that was asked for. On every exit without an exception each fetched row is in exactly one of applied, drift, needs_human and accepted_blocked, no group is split, and drift is exactly what the gates call drift; the validated tree is the base with precisely the surviving patches; each exit reason stands for exactly the stages that approved the tree; and the canonical tree changes only by the final merge, to that tree, after all of them. When no command raises, only a patch on a file that is not there ends a run without an exit. |
| ApplyJsonFile.CoerceAll | tools/apply_suggestions.py:1057-1099 | The loop over scalar patches: an edit for each that could be coerced, a validation error for the others. |
| ApplyJsonFile.WriteJsonEdits | tools/apply_suggestions.py:1140-1159 | For distinct scalar leaves the edits are always written: spliced when every changing value survives `json.dumps`, as a whole file otherwise. |
| ApplyJsonFile.ApplyScalarPatches | tools/apply_suggestions.py:979-1137 | A text that is no JSON stays as it is and fails every patch; otherwise the outcomes are those of the coercions and exactly the edits of the patches that could be coerced are written. |
| ApplyJsonFile.OthersAreWritten | tools/apply_suggestions.py:979-1137 | Afterwards every patch that could be coerced reads as its value, whatever became of the others, and the leaf of a failed patch reads as before unless another patch names it too. |
| ReviewEvidence.WordIsMaximal | tools/apply_suggestions.py:1393-1395 | A word token is word characters with single joiners between two of them, and as long as it can be. |
| ReviewEvidence.TokensAreMaximal | tools/apply_suggestions.py:1381-1395 | Every token is a word, a whole stretch of white space or a single other character. |
| ReviewEvidence.TokensPartition | tools/apply_suggestions.py:1393-1395 | The tokens are the text, cut up: nothing lost, nothing twice, for any disjoint word and space classes. |
| ReviewEvidence.TrivialAlignments | tools/apply_suggestions.py:1450-1456 | What is assumed of the opcodes admits replacing everything and keeping everything. |
| ReviewEvidence.BetweenBoundaries | tools/apply_suggestions.py:1419-1479 | The tokens between two boundaries are the text between their offsets. |
| ReviewEvidence.WholeIsLossless | tools/apply_suggestions.py:1404-1416 | One operation over both whole texts replays both ways. |
| ReviewEvidence.WholeSpanReviewOperation | tools/apply_suggestions.py:1404-1416 | The whole-span fallback is lossless in both directions. |
| ReviewEvidence.AtomicReviewOperations | tools/apply_suggestions.py:1419-1479 | For every opcode list that meets difflib's contract, and on every fallback branch, putting each new text at its base range rebuilds the proposed text, and putting each old text at its proposed range rebuilds the original. Up to 1024 tokens a side and 250000 pairs there is exactly one operation for each opcode that is not `equal`, in order, with the ranges of its tokens and the kind its texts call for; beyond that, and for a structural edit, there is one operation over everything, none if the texts are the same. |
| DayZeroProofs.Restore | tools/day_zero_equivalence.py:72-83 | The reverse edits are refused unless they are in bounds and disjoint; otherwise the result is the file with each stretch replaced and the rest kept. |
| DayZeroProofs.UndoDownIsUndone | tools/day_zero_equivalence.py:72-83 | Undoing edits one after the other from the back is undoing them where they stand. |
| DayZeroProofs.ReverseEdits | tools/day_zero.py:159-171 | The prefix and suffix loops give one edit that takes the new bytes back to the old ones, and a smallest one. |
| DayZeroProofs.Conversion.CaptureFileProof | tools/day_zero.py:155-178 | Whatever was captured before: one proof per path, which takes the latest bytes back to the first ones. |
| DayZeroProofs.Conversion.ConvertFile | tools/day_zero.py:502-541 | A converted file is touched, staged and proved. |
| DayZeroProofs.Conversion.RewriteFile | tools/day_zero.py:184-197 | The rewrite works on what is staged, or on what is on disk, and keeps the first bytes. |
| DayZeroProofs.Conversion.StageIdentifierBaseRewrite | tools/day_zero.py:181-197 | Over all listed paths: every path holds its rewritten bytes, every other path what it held, and exactly the changed paths are added to the touched set. |
| DayZeroProofs.Conversion.FileRoundTrip | tools/day_zero_equivalence.py:92-140 | On the converter's own record the round-trip check always passes. |
| DayZeroProofs.ProofsByPath | tools/day_zero_equivalence.py:109-113 | The dictionary of proofs exists exactly when no path occurs twice. |
| DayZeroProofs.RoundTrip | tools/day_zero_equivalence.py:109-140 | On any record it passes exactly when before, after and proofs cover the touched paths, with one proof each, and every proof restores the bytes. |
| DateInventory.JoinSize | tools/day_zero.py:604-637 | The sizes agree exactly when no key was categorised too often. |
| DateInventory.Reconcile | tools/day_zero.py:604-637 | Afterwards each key is categorised the larger of the two numbers of times, and the closing check passes exactly when no key was categorised more often than it occurs. |
| SourceOrder.BeforeIsAnOrder | tools/apply_day_zero_review.py:141-159 | Python's order on string triples is a strict total order. |
| SourceOrder.SortSorted | tools/apply_day_zero_review.py:141-159 | Stable sorting keeps the rows and sorts them. |
| SourceOrder.SortForgetsOrder | tools/apply_day_zero_review.py:141-159 | With distinct keys the sorted list does not depend on the order of its input. |
| SourceOrder.LessIsLexicographic | tools/apply_day_zero_review.py:141-159 | Strings compare at the first place where they differ, and a beginning comes first. |
| SourceOrder.SortIsStable | tools/apply_day_zero_review.py:141-159 | Rows with the same key keep their order. |
| ReviewResolution.ProposalMapIsExact | tools/apply_day_zero_review.py:48-58 | The map exists exactly when every key matches its row and no key occurs twice, and it holds every row under its key. |
| ReviewResolution.ResolvePermuted | tools/apply_day_zero_review.py:103-139 | Governed rows in another order resolve to the same rows in another order. |
| ReviewResolution.OrderDoesNotMatter | tools/apply_day_zero_review.py:79-189 | The resolved artifacts do not depend on the order of the proposals, of the governed rows or of the base audit. |
| ReviewArtifacts.OneItem | tools/apply_day_zero_review.py:65-139 | What one row becomes, field by field: which disposition makes it a holdout and which an entry, at which locator, with which reasons, anchor and offset. |
| ReviewArtifacts.ReviewIsExact | tools/apply_day_zero_review.py:79-189 | A review succeeds exactly when every row has a decision and the totals and identities allow it; the artifacts then hold exactly the rows decided and the old entries, in order, with the counts of both summaries. |
| ReviewFixpoint.ResolutionIsAFixpoint | tools/apply_day_zero_review.py:257-291 | Validating the output of a successful resolution passes if and only if no entry of the base audit was human-confirmed already, for distinct governed rows with distinct resolved holdout keys and proposals of the two categories. |
| ReviewRun.MapProposals | tools/apply_day_zero_review.py:48-58 | The loop that fills the map. |
| ReviewRun.ResolveRows | tools/apply_day_zero_review.py:103-139 | The two loops over governed rows append exactly the resolved holdouts and the approved conversions, in order, or refuse. |
| ReviewRun.Apply | tools/apply_day_zero_review.py:79-189 | The whole resolution: refused exactly when there are no decisions and no artifacts that hold them; otherwise the artifacts say, field by field, what the proposals say about each governed row, and nothing else is added. |
| ReviewRun.SyntheticPending | tools/apply_day_zero_review.py:257-280 | Un-resolving: the loops rebuild the governed rows and drop the confirmed entries. |
| ReviewRun.ValidateAppliedReview | tools/apply_day_zero_review.py:283-291 | The validation, and when it passes on a first review's output. |
| Kappa.HistogramIsPairwise | tools/assessment_calibration.py:109-123 | The histogram sum equals the naive sum over all pairs of ratings. |
| Kappa.SumOfSquares | tools/assessment_calibration.py:109-123 | The inequality of Cauchy and Schwarz for the two raters' sums, with equality exactly when the ratings of every work add up to the same number. |
| Kappa.ObservedIsBounded | tools/assessment_calibration.py:109-123 | The observed disagreement is at most twice what chance predicts, and exactly then as much when the ratings mirror each other around a common mean. |
| Kappa.KappaIsCalibrated | tools/assessment_calibration.py:109-123 | Kappa is undefined exactly when both raters gave one and the same constant score; otherwise it lies in [-1, 1], is 1 exactly on pointwise agreement, and is symmetric. |
| Kappa.KappaIsExact | tools/assessment_calibration.py:109-123 | The value: 1 minus kappa, times the disagreement of every rating of one rater with every rating of the other, is the number of works times the disagreement of the pairs; it is -1 exactly when the two ratings of every work add up to the same number and the raters' sums are equal. |
| Kappa.KappaReachesMinusOne | tools/assessment_calibration.py:109-123 | The ratings 1, 7 against 7, 1 give -1, so that the lower bound is reached. |
| RevertDaemon.Daemon.FindPrior | tools/direct_apply_daemon.py:681-688 | The search finds the last commit whose trailer the pattern matches, or none. |
| RevertDaemon.Daemon.ExecuteRevert | tools/direct_apply_daemon.py:651-750 | At most one inverse commit is added, and only if the search for an earlier one failed or found none and undoing the run changes the document; a failure leaves HEAD where it was and, once the tree was found clean, the tree as well; and when nothing fails, except perhaps the search, answer and history are exactly what the document's texts and the search make them. |
| RevertDaemon.Utf8IsShortest | tools/direct_apply_daemon.py:728-737 | A text is measured in UTF-8: each code point takes the fewest bytes that have room for it. |
| RevertDaemon.LastMatchIsLast | tools/direct_apply_daemon.py:681-688 | No later commit matches. |
| RevertDaemon.Daemon.ResumeOrInvert | tools/direct_apply_daemon.py:681-750 | On a clean tree: reverted already only if the matching commit is HEAD, ambiguous if it is further back or HEAD cannot be read, inverted only if there is none or the search failed. |
| RevertDaemon.Daemon.Invert | tools/direct_apply_daemon.py:705-750 | Each failure after the clean-tree check resets; when nothing fails it is a conflict, a refusal or an inverse commit according to what undoing makes of the document. |
| RevertDaemon.Daemon.StageAndCommit | tools/direct_apply_daemon.py:728-737 | The guard before the commit: an inverse that leaves the document as it is, or a text of more than 131072 bytes, is refused and reset. |
| RevertDaemon.Daemon.Handle | tools/direct_apply_daemon.py:1015-1087 | A request that is journaled as merged or quarantined is not executed and adds no commit; quarantine is only for a landed and journaled request; and when nothing fails, a request whose inverse lands, or has landed at HEAD, ends up journaled, and quarantined if the Worker refuses its completion. |
| RevertDaemon.Daemon.Tick | tools/direct_apply_daemon.py:1010-1087 | The same for a whole tick; and when nothing fails, every request that is neither journaled nor quarantined is executed, in order, each on the history the one before it left. |
| RevertDaemon.Daemon.Run | tools/direct_apply_daemon.py:1010-1087 | The same for any number of ticks and crashes, with other commits between them: each tick starts from the history the one before it left and the commits of others; and when nothing fails each goes through one attempt for every request that is due. |
| RevertDaemon.AtMostOnce | tools/direct_apply_daemon.py:651-750 | A request has at most one inverse commit if and only if no search failed while its commit was there and the inverse landed all the same; so always, if no search fails. Once journaled it has one, and one more for each such repetition. |
| RevertDaemon.RepetitionIsExact | tools/direct_apply_daemon.py:681-737 | With nothing else failing, a repetition lands if and only if the search failed and undoing the run still changes the document. |
| RevertDaemon.RepetitionNeedsChange | tools/direct_apply_daemon.py:716-732 | Between two inverse commits for a request someone else changed its document, if undoing a run twice is undoing it once. |
| RevertDaemon.AtOnceNothing | tools/direct_apply_daemon.py:716-732 | Right after an inverse commit even a repetition with a failed search does nothing. |
| RevertDaemon.RevertedTwice | tools/direct_apply_daemon.py:651-750 | A history in which a request gets two inverse commits. |
| RevertDaemon.RevertsTwice | tools/direct_apply_daemon.py:1010-1087 | The daemon doing so: two ticks list the request, someone puts the undone text back between them, the search and the journal fail, and there are two inverse commits, one of them blind. |
| MarkdownBlocks.SegmentsPartition | tools/build_site.py:451-547 | The segments of any lines are ordered and disjoint and cover exactly the lines that are not blank. |
| MarkdownBlocks.SegmentsAreRight | tools/build_site.py:451-547 | Each segment is made of lines of its kind, in the order in which the renderer asks, and goes on as long as it can. |
| MarkdownBlocks.Disjoint | tools/build_site.py:451-547 | No line is in two segments. |
| MarkdownBlocks.SpansApart | tools/build_site.py:404-548 | Ordered segments give spans that hold a line each, in order and without overlap. |
| MarkdownBlocks.Markdown | tools/build_site.py:404-548 | The loop terminates on any lines and emits exactly the spans of the segments: none empty, in order, without overlap, and each made of the right lines. |
| MarkdownBlocks.EmitBlock | tools/build_site.py:455-538 | One turn of the loop consumes at least one line and emits the spans of what it consumed. |
| MarkdownBlocks.EmitItems | tools/build_site.py:516-538 | A list emits one span per item. |
| MarkdownBlocks.SkipRun | tools/build_site.py:481-514 | The inner loops over tables and quotations. |
| MarkdownBlocks.Flush | tools/build_site.py:442-448 | A paragraph ends exactly where the next line is something else. |
| BatchChain.CollapseKeepsLast | tools/build_prod_review_backfill.py:17 | Of the batches that repeat an id exactly the last one is kept. |
| BatchChain.Remaining | tools/build_prod_review_backfill.py:17 | The loop of the dictionary comprehension holds these batches, each once. |
| BatchChain.ByBase | tools/build_prod_review_backfill.py:17-22 | The index by base exists exactly when no two batches share a base. |
| BatchChain.NextOfChain | tools/build_prod_review_backfill.py:24-32 | While a chain exists the batch on the expected base is its next one. |
| BatchChain.Chain | tools/build_prod_review_backfill.py:16-33 | It succeeds exactly when, of the batches that repeat an id only the last one counted, some order of them is complete, has distinct bases and links from the production base, and returns that order: the only one, whatever the input order. |
| AlphaCompositing.OverAssociates | tools/a11y_audit.js:63-68 | Source-over compositing is associative wherever something shows. |
| AlphaCompositing.TransparentIsIdentity | tools/a11y_audit.js:63-68 | A transparent layer is the identity from either side. |
| AlphaCompositing.OpaqueHides | tools/a11y_audit.js:63-68 | An opaque layer hides what is behind it. |
| AlphaCompositing.Accumulate | tools/a11y_audit.js:82-93 | Accumulated alpha reaches one exactly at an opaque layer, and the rest of the stack still composes. |
| AlphaCompositing.BgOf | tools/a11y_audit.js:82-93 | Front-to-back accumulation with its early return equals painting back to front whenever some ancestor is opaque, and is white otherwise. |
| AlphaCompositing.BackgroundIsExact | tools/a11y_audit.js:82-93 | It equals the painted background if and only if some layer is opaque or every showing layer is white. |
| AlphaCompositing.DarkLayerDropped | tools/a11y_audit.js:82-93 | One half-transparent black layer shows as grey and is reported as white. |
| AlphaCompositing.NothingShowsThrough | tools/a11y_audit.js:82-93 | The early return is sound: nothing behind the first opaque layer shows. |
| AlphaCompositing.ContrastIsCalibrated | tools/a11y_audit.js:73-76 | Contrast is symmetric, lies between 1 and 21, is 1 exactly for equal luminances and 21 exactly for black on white. |
| AlphaCompositing.ContrastGrows | tools/a11y_audit.js:73-76 | Moving two luminances further apart never lowers their contrast. |

## Left out

Contracts stated weaker than what the code does:

- JsonNumbers.NumberValue: reads a float as the exact real its token spells, because rounding is not the point; a finite float handed to an edit comes with its spelling. Python's limit on the digits of an integer and on recursion depth are not modelled.
- JsonPaths.ListIndex: takes what Python's `int` makes of a path component as given with the component.
- JsonPaths.SetAt: an assignment yields a new value; that Python updates nested dictionaries and lists in place is not captured, and no two paths share a part of a decoded document.
- JsonInsertLoops.InsertObjectProperties: several insertions of which some do not survive being written and others are there already, and containers that are there with an equal value of another spelling, get what the gate itself guarantees. When all are new the outcome is exact for any values, and so it is for finite values that survive, new or there already.
- JsonInsert.ExpectOne: containers are values, so those of a list are distinct and the list is the same when it is used again. In the source the expected document holds the caller's own dictionary and later insertions change it (tools/json_surgical.py:379): with one dictionary `d = {}`, the list `("", "a", d), ("a", "b", 1)` may be used twice because `d` has changed by then, and `("", "a", d), ("", "b", d), ("a", "x", 1)` is refused by the gate.
- IdentifierRewriter.ReplaceTokens: on text that is not JSON the source may raise on a token that does not decode, where the model leaves the token alone; the source calls it only on text that `json.loads` accepts.
- IdentifierCounts.BaseCount: counts the bases of a JSON document; the byte counts of other files, and of files that are no JSON, are not modelled.
- CanonicalRefs.Final: a chain of symbolic refs is followed as deep as git follows it.
- CanonicalRefCas.Repository.Execute: objects, URLs, credentials, other worktrees and the push probe are inspections that pass or fail; the receipt holds the fields about refs only. A third party that writes while a single git command runs is seen as writing before or after it.
- Migration.Run.Execute: a signal is a failure of an injected call, not of the code between two calls; an injected call does not raise the migration's own exception types, except for an interrupt while the window is being entered; a lock does not swallow an exception.
- ApplyTransaction.ApplyFilePatches: how a patch is located in its file and spliced is a parameter that decides an outcome per patch and the new text; the group gates are a parameter too.
- ApplyJsonFile.ApplyScalarPatches: a JSON file on which every patch sets a scalar; prose, structural, adding and overriding patches are not modelled. The schema's coercion and the whole-file rewriting are parameters.
- ApplyJsonFile.WriteJsonEdits: the created and the deleted paths of a file are not modelled.
- ApplyTransaction.Transaction.RunApply: starts after a successful claim; what a pipeline stage says depends on the tree only; the journal calls, value-sync companions and the digest are not modelled, and a stage that raises ends the run.
- ReviewEvidence.AtomicReviewOperations: takes the opcodes as any list that meets difflib's contract; stable ids, hashes, surrounding context and the pairing of moves are not modelled.
- DayZeroProofs.RoundTrip: covers files, coverage and bytes; the date half of the check is not modelled. Newline translation while a Markdown file is read as text is not either.
- ReviewResolution.Resolve: durable locators and full-date tests are answers of the repository; descriptive fields that resolution overwrites with constants are not modelled.
- ReviewFixpoint.ResolutionIsAFixpoint: for governed rows listed once, distinct resolved holdout keys and proposals of the two known categories; without these the rebuilt governed rows are not the original ones.
- Kappa.KappaIsCalibrated: on exact reals, without the rounding of the report and the validation of the ratings.
- RevertDaemon.Daemon.Run: the revert half of a tick; deployment, heartbeats and notifications only succeed or fail. What undoing a run makes of a clean tree is a parameter, and so is which completions the Worker refuses for what they say; a rebuild is taken to leave the document alone.
- MarkdownBlocks.Markdown: a line is given by which of the renderer's tests it passes; texts, ids and HTML of a block are not modelled.
- AlphaCompositing.BgOf: on exact reals; the parsing of CSS colours, and the luminance curve behind `ratio`, are not modelled.

Not modelled at all:

- Processes, files, HTTP, flock and the deployment provider: they are the free choices described above. Durable writes, staging files and receipts on disk are part of this.
- The threshold report and the validation of calibration ratings, digests, history, taxonomy, page rendering, charts, the model-prompt tools and the provider registry: they would add members that are read off their bodies.
- Date, citation and inline-format recognition by regular expressions.
