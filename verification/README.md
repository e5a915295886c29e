# ColaMeta core: a Dafny model

ColaMeta answers tool calls of coding agents. Before an answer leaves the system its text is searched for hidden
credentials, its recommended actions are classified, and confirmations, facts archives and plans pass through small
stateful components. This project models those algorithms and state machines and proves what they promise.

| component | modules |
|---|---|
| text decoding | `JsonEscapes`, `BackslashLayers`, `EscapeReaders`, `XmlEntities`, `DecodeClosure` |
| text scanning | `BracketScanner`, `DuplicateMembers`, `TextContainers`, `StructuredScan`, `XmlRsaScan`, `XmlOpenElements`, `UriTruncation` |
| next-action policy | `ActionTree`, `NextActionPolicy`, `NextActionLaws` |
| current facts | `IsoTime`, `PreviewStore`, `ArchiveProtocol`, `ArchiveAlone`, `SemanticIdentity` |
| confirmation guard | `DangerousActionGuard` |
| agent projection | `AgentBinding`, `AgentAction`, `AgentProjection`, `AgentConfirmation`, `ProjectionSources` |
| plan bundles | `PlanText`, `PlanBundle`, `PlanLines`, `PlanLayout` |

`dafny verify dfyconfig.toml` checks everything. Text that is scanned code point by code point is a `seq<int>`
(`TextModel`); line-oriented text is a `string`. Loops that update variables are methods with invariants, objects with
updated fields are classes, and each such method is proved against a function or a predicate that the lemmas are about.
Credential predicates, the JSON and Python-literal parsers, percent-decoding, lower-casing, the digest, the calendar
and the clock are parameters; each module says the little it asks of them.

## Findings

What the code does differently from what its names or documents suggest. The model follows the code.

- A call of the archive writer that answers `already_present` has read both files in full, but they may be gone
  afterwards: another writer can still fail and remove them (`AlreadyPresentMayVanish`). The JSON file stays for good if
  and only if the call that created it has returned (`FileLastsIffCreatorReturned`). The Markdown file does if and only
  if its creator is neither writing nor about to remove it, even before that call returns (`MarkdownLastsIffSettled`,
  `MarkdownMayOutlastARunningCreator`), and the pair if and only if both do (`PairLastsIffBothDo`).
- The plan parser reads list items by the last line before them that sets the section, whatever key they stand under.
  For any lines at all, an item is read as an allowed file if and only if that line is `allowed_files:`, and a
  `- command:` line as an acceptance command if and only if it is `acceptance_commands:` (`WhatReachesTheVersions`). A
  version's lists therefore come out as written if and only if no list under another key stands after `allowed_files:`
  and before the next of the two keys, and none with commands after `acceptance_commands:` and before the next
  (`ListsComeBack`). Files under `forbidden_files:` come out allowed in the order of keys of the repository's own
  template and in the other order too (`ForbiddenFilesComeOutAllowed`, `ForbiddenFilesAfterTheCommandsComeOutAllowed`),
  and commands under `rollback_commands:` come out as acceptance commands (`RollbackCommandsComeOutAsAcceptance`).
- A command written as a `|` block loses blank and `#` lines and the white space at the end of its last line. A printed
  plan is parsed to the plan as written if and only if every block has none of these and no list is read as part of
  another (`ParseUndoesPrint`).
- The scan for private RSA members recognises tag names of at most 128 ASCII characters and looks through elements with
  other names. For a name it does not recognise that makes no difference to the plain tree search on any text if and
  only if the name, without its prefix, is neither `RSAKeyValue` nor a private member (`NameIsHarmlessIff`); behind a
  prefix with another letter a private member is missed (`PrefixedMemberIsMissed`).
- The policy and the response contract keep separate lists. They disagree on a confirmation exactly for a Git action
  that ends in `_apply` and is not one of the six the contract knows (`ConfirmationIsMutatingOrUnknownApply`). The
  policy sees a poll the contract does not see exactly for a status word where the contract does not look for it, with
  no recovery workflow (`PollIsContractPollUnlessOutOfPlace`). The contract sees a poll the policy does not see exactly
  for one with a recovery workflow, a manifest review, or a smoke packet without a status word
  (`ContractPollIsPollUnlessInDisguise`).
- The policy lists four Git actions as recovery, but only the two previews among them ever count as such: the two apply
  steps are taken for confirmations first (`RecoveryKind`).
- What is selected fails the contract's own rule for the outcome if and only if the first candidate of the wanted kind
  is one the two disagree on, or confirmation is wanted, no candidate asks for it and none can be made up
  (`ContractAcceptsIffSuited`). Results on which this happens are given (`ConfirmationMayBeRefused`,
  `PollMayBeRefused`).

## Model

| member | source | states |
|---|---|---|
| `JsonEscapes.DecodeJsonEscapesWithStack` | runner/commander_contract.py:4249-4288 | the loop over the `rebuilt` list computes the rewriting function `Decode`, in either mode |
| `JsonEscapes.DecodeReachesNormalForm` | runner/commander_contract.py:4249-4288 | the output holds no escape that could still be reduced, in either mode |
| `JsonEscapes.CollapseSeparatesBackslashes` | runner/commander_contract.py:4268-4287 | in collapse mode no two backslashes of the output are adjacent |
| `JsonEscapes.FixedPoints` | runner/commander_contract.py:4249-4288 | a text is unchanged if and only if it holds nothing to reduce |
| `JsonEscapes.DecodeIsIdempotent` | runner/commander_contract.py:4249-4288 | a second run changes nothing |
| `JsonEscapes.DecodeShortens` | runner/commander_contract.py:4249-4288 | any change makes the text strictly shorter |
| `JsonEscapes.DecodeContractsLeftmost` | runner/commander_contract.py:4249-4288 | the result is that of reducing, again and again, the reducible escape that ends first |
| `JsonEscapes.DecodeIsADerivation` | runner/commander_contract.py:4249-4288 | the result is reached from the text by single escape reductions only |
| `JsonEscapes.RewritingKeepsTheResult` | runner/commander_contract.py:4249-4288 | in preserve mode, reducing any escape anywhere first leaves the result the same |
| `JsonEscapes.PreserveNormalFormIsUnique` | runner/commander_contract.py:4249-4288 | in preserve mode every way of reducing to a normal form ends at the decoder's output |
| `JsonEscapes.CollapseDependsOnOrder` | runner/commander_contract.py:4268-4287 | a text of two backslashes and an n on which another order of collapse reductions ends differently |
| `JsonEscapes.ShortEscapesSpelled` | runner/commander_contract.py:753-762 | which letters may follow a backslash and what each stands for (section 7 of RFC 8259) |
| `JsonEscapes.FourDigitsAreANumeral` | runner/commander_contract.py:4259-4272 | four hexadecimal digits, small or capital, name the code point they are the numeral of |
| `JsonEscapes.OnlyHexDigits` | runner/commander_contract.py:4263-4266 | nothing else is a hexadecimal digit |
| `BackslashLayers.DecodeEscapedBackslashLayer` | runner/commander_contract.py:4291-4303 | the loop computes one layer of backslash halving |
| `BackslashLayers.SplitIsThePrintedRuns` | runner/commander_contract.py:4291-4303 | every text is, in exactly one way, backslash runs separated by other characters |
| `BackslashLayers.LayerHalvesRuns` | runner/commander_contract.py:4291-4303 | a layer turns each maximal run of n backslashes into ceil(n/2) and keeps every other character |
| `BackslashLayers.JsonEscapeDecodedCandidates` | runner/commander_contract.py:4306-4325 | the generator's loop yields the flattened form of each new layer and stops when a layer changes nothing |
| `BackslashLayers.LayerCount` | runner/commander_contract.py:4306-4325 | with longest run m the loop yields exactly ceil(log2 m) times, and ends with no adjacent backslashes |
| `BackslashLayers.CeilLog2IsUnique` | runner/commander_contract.py:4306-4325 | that number is determined by m |
| `BackslashLayers.LayersShrink` | runner/commander_contract.py:4306-4325 | each layer is strictly shorter than the one before |
| `BackslashLayers.CandidatesAreNewAndComplete` | runner/commander_contract.py:4306-4325 | every yielded text comes from its own layer, and none of the layers is skipped |
| `EscapeReaders.ScanNestedJsonEscape` | runner/commander_contract.py:4207-4230 | the scan of a backslash run and the escape after it, as a loop |
| `EscapeReaders.NestedJsonEscapeTokens` | runner/commander_contract.py:4233-4246 | the tokens yielded are exactly the escapes a left-to-right reading meets, in order and without overlap |
| `EscapeReaders.UnicodeReadersAreInverse` | runner/commander_contract.py:4559-4574 | reading a unicode escape ending at an index and reading one at its run start give each other back |
| `EscapeReaders.ShortReaderIsInverse` | runner/commander_contract.py:4577-4594 | the same for one-letter escapes |
| `EscapeReaders.BackwardUndoesForward` | runner/commander_contract.py:4597-4664 | what the forward reader finds at the start of a run the backward reader finds at its end, unless it is the low half of an escaped pair |
| `EscapeReaders.ForwardUndoesBackward` | runner/commander_contract.py:4612-4664 | what the backward reader finds, the forward reader finds at its start with the same end and character, unless it is a high half whose low half follows |
| `EscapeReaders.CombineUndoesUtf16` | runner/commander_contract.py:4612-4664 | combined surrogates lie in 0x10000..0x10FFFF and undo the UTF-16 split (section 2.2 of RFC 2781) |
| `XmlEntities.XmlDecodingShortens` | runner/commander_contract.py:6323-6347 | one pass of entity decoding either changes nothing, or there is an ampersand and the text gets strictly shorter |
| `XmlEntities.DecodingGivesTheMeaning` | runner/commander_contract.py:6323-6347 | one pass undoes a printer that writes each character plainly or as a reference by name, by decimal or by hexadecimal digits: it gives the characters meant, a number that names none stays as printed, and no result is read again (sections 2.2, 4.1 and 4.6 of XML 1.0) |
| `XmlEntities.EveryTextHasAReading` | runner/commander_contract.py:972-986 | every text is such a print, in which an ampersand is plain only where no reference begins |
| `XmlEntities.ReferenceIsRead` | runner/commander_contract.py:6323-6345 | a reference at the start of a text is read whole, as the character it stands for |
| `XmlEntities.OnlyReferencesAreRead` | runner/commander_contract.py:972-979 | nothing else is read |
| `DecodeClosure.Decoders.FinalIsFixed` | runner/commander_contract.py:5145-5231 | the last text is a fixed point of every enabled decoder |
| `DecodeClosure.Decoders.NothingHiddenMeansAllClear` | runner/commander_contract.py:5145-5231 | nothing is hidden if and only if the predicate fails on every decoded form of every text the search passes through |
| `DecodeClosure.Decoders.HiddenMeansSomeChangeMatches` | runner/commander_contract.py:5160-5228 | something is hidden if and only if some decoder changes what it is given, on some text of the search, to a text that satisfies the predicate |
| `DecodeClosure.Decoders.ChainDecodesInTurn` | runner/commander_contract.py:5160-5231 | each text of the search is the one before it percent-decoded, then JSON-decoded, then XML-decoded where that is enabled |
| `DecodeClosure.Decoders.DepthsCountChanges` | runner/commander_contract.py:5160-5228 | the states a decoder needs are the texts of the search on which it changes what it is given |
| `DecodeClosure.DecodedCandidateMatches` | runner/commander_contract.py:5145-5231 | the answer is yes exactly when a decoded form satisfies the predicate or some decoder needs more than 16 states; at most 46 rounds, 31 without XML |
| `BracketScanner.BoundedPythonLiteralContainerEnd` | runner/commander_contract.py:5476-5512 | the loop with its stack of expected closers computes the scanner function |
| `BracketScanner.BracketsSpelled` | runner/commander_contract.py:5476-5512 | which characters open, close and quote, and what closes what |
| `BracketScanner.EndMeetsGrammar` | runner/commander_contract.py:5476-5512 | an end is returned if and only if a balanced container of at most 8192 characters and depth 13 ends there |
| `BracketScanner.ExhaustionMeansCutWhileOpen` | runner/commander_contract.py:5476-5512 | exhaustion is reported if and only if a limit cut a container that was still open |
| `BracketScanner.RunOfContainer` | runner/commander_contract.py:5476-5512 | reading a printed container closes exactly at its last character, or stops as soon as it nests too deep |
| `BracketScanner.ReadTextIsUnfinished` | runner/commander_contract.py:5476-5512 | whatever was read without closing is the beginning of some container |
| `DuplicateMembers.ProductMembers` | runner/commander_contract.py:5603-5606 | the product of lists holds exactly the tuples that take one value from each |
| `DuplicateMembers.ChoicesAreSelections` | runner/commander_contract.py:5572-5611 | checking every choice among duplicated names checks exactly every selection of one occurrence per name (section 4 of RFC 8259) |
| `DuplicateMembers.SelectionIsAChoice` | runner/commander_contract.py:5603-5611 | no selection is missed |
| `DuplicateMembers.ChoiceIsASelection` | runner/commander_contract.py:5603-5611 | nothing else is checked |
| `DuplicateMembers.SelectionsChooseMembers` | runner/commander_contract.py:5574-5611 | a selection gives exactly the names that occur, each with the value of some member of that name |
| `TextContainers.Parsers.FindFromListsAttempts` | runner/commander_contract.py:5613-5671 | the containers found are those read at the attempts, which start at each next opener no earlier attempt has read over; a value is read by JSON, else as a literal up to the end the bracket scanner gives, and where nothing is read the attempt covers one character |
| `TextContainers.Parsers.AttemptsAreDetermined` | runner/commander_contract.py:5613-5671 | the text leaves no choice of attempts |
| `TextContainers.Parsers.AttemptsDoNotOverlap` | runner/commander_contract.py:5613-5671 | they go left to right, none inside what an earlier one has read |
| `TextContainers.Parsers.OpenersAreAttemptedOrCovered` | runner/commander_contract.py:5613-5671 | every opener is attempted or inside what an attempt has read |
| `TextContainers.Parsers.OpenersOutsideValuesAreAttempted` | runner/commander_contract.py:5624-5671 | every opener that lies in no value a parser has read before it is itself attempted |
| `TextContainers.Parsers.ContainersOutsideValuesAreFound` | runner/commander_contract.py:5640-5670 | a container that JSON or the literal parser reads at such an opener is found |
| `TextContainers.Parsers.WholeDocumentOrParts` | runner/commander_contract.py:5613-5631 | a text that is one JSON object or array between white space holds just that; a text without an opener holds nothing; any other is read in parts |
| `TextContainers.Parsers.FindContainers` | runner/commander_contract.py:5613-5671 | the loop finds exactly those containers, or says that the attempts exceed the budget, and when an attempt gave up |
| `StructuredScan.Scan.ObjectPairsMatch` | runner/commander_contract.py:5572-5611 | False means no selection matches; the budget drops by exactly the number of selections, or not at all when they do not fit, and then the answer is yes |
| `StructuredScan.Scan.CombinationsWithin` | runner/commander_contract.py:5589-5600 | the division test admits a product exactly when it fits the remaining budget |
| `StructuredScan.Search.StepKeepsTheAnswer` | runner/commander_contract.py:5676-5722 | taking an entry off the worklist and pushing its children keeps the answer of the recursive search |
| `StructuredScan.Search.StaysOnTrack` | runner/commander_contract.py:5676-5722 | and keeps the balance of visited nodes and spent candidates, so a budget is only exceeded when the whole search exceeds it |
| `StructuredScan.Search.TextMatchesIffSomePathDoes` | runner/commander_contract.py:5676-5722 | the recursive search says yes if and only if a path through members, elements and texts leads from a container of the text to an object with a matching selection, or to where the hint answers for what is not searched |
| `StructuredScan.WholeDocumentIsSearched` | runner/commander_contract.py:5613-5631 | for a text that is one JSON object or array that is a path from that value |
| `StructuredScan.Scan.ContainsStructuredJsonMapping` | runner/commander_contract.py:5559-5722 | a scan that reaches no budget answers exactly as the recursive search, so in particular every scan of a text whose whole search fits; with a hint that always says yes it never misses; at most 4096 nodes are expanded |
| `StructuredScan.LastWinsIsTheOnlySelection` | runner/commander_contract.py:5576-5587 | without duplicate names there is one selection, the ordinary dictionary |
| `StructuredScan.DivisionTest` | runner/commander_contract.py:5590-5600 | the integer division in the test loses nothing |
| `XmlRsaScan.HeaderEndMeetsGrammar` | runner/commander_contract.py:6050-6069 | a tag header ends at a `>` if and only if the at most 4096 characters before it are quoted values and characters that are no marks: the first `>` outside quotes with no `<` outside quotes before it |
| `XmlRsaScan.FindTagHeaderEnd` | runner/commander_contract.py:6050-6069 | the quote-aware loop finds that end |
| `XmlRsaScan.ContainsXmlSerializedRsaPrivateKey` | runner/commander_contract.py:6102-6157 | the loop with its frame stack computes the scan function the tree and open-element lemmas are about, for any text |
| `XmlRsaScan.ScanOverNode` | runner/commander_contract.py:6102-6157 | reading a printed node answers yes when the tree search does or recognised elements nest too deep, and otherwise restores the frames |
| `XmlRsaScan.ScanOverElement` | runner/commander_contract.py:6102-6157 | the same for an element with a recognised name and its body, whose text decides a private member |
| `XmlRsaScan.ScanOverUnknownElement` | runner/commander_contract.py:6102-6157 | around the content of an element with any other name nothing is read |
| `XmlRsaScan.ScanMeetsTreeSearch` | runner/commander_contract.py:6102-6157 | on the printed form of any forest of elements, with any XML names and quoted attributes, the scan answers exactly as the tree search that looks through elements with other names, or yes beyond depth 256 (sections 2.3, 2.4 and 3.1 of XML 1.0) |
| `XmlRsaScan.ScanMeetsPlainSearch` | runner/commander_contract.py:6102-6157 | where every name is recognised or irrelevant that is the plain tree search |
| `XmlRsaScan.NameIsHarmlessIff` | runner/commander_contract.py:6102-6157 | the exact names for which the two searches agree on every forest |
| `XmlRsaScan.PrefixedMemberIsMissed` | runner/commander_contract.py:6102-6157 | a text on which the tree search finds a private member and the scan does not |
| `XmlOpenElements.ScanMeetsSearchOfParts` | runner/commander_contract.py:6102-6157 | on a text of closed nodes, closing tags that close nothing and elements left open, which may end in a tag cut off in its header: yes if and only if a closed node holds a private member, an open element is one with a nonblank rest, the cut tag is or lies in an RSAKeyValue, or elements nest beyond 256 |
| `XmlOpenElements.ScanOverParts` | runner/commander_contract.py:6102-6157 | the same after any open elements |
| `XmlRsaScan.LocalNameAfterPrefix` | runner/commander_contract.py:6098-6099 | the local name is what follows the last colon, in lower case |
| `XmlRsaScan.PrivateMembersSpelled` | runner/commander_contract.py:991-993 | the names of the private members |
| `XmlRsaScan.SelfClosingEndsInSlash` | runner/commander_contract.py:6136-6138 | a header closes its own tag when a slash is the last of it but white space |
| `XmlRsaScan.NonemptyBody` | runner/commander_contract.py:6091-6095 | a body counts when something other than white space is in it, or when it is longer than 4096 characters |
| `XmlRsaScan.KeyValueSpelled` | runner/commander_contract.py:6124-6126 | the local name of the key |
| `UriTruncation.ShortestUri` | runner/commander_contract.py:568-589 | no opaque resource URI is shorter than 43 characters, and one is that short |
| `UriTruncation.Cutter.TruncatePreservingResourceUris` | runner/commander_contract.py:5035-5058 | the result is that of a run of replacements of split URIs, then a cut inside no recognised URI; for a positive limit it fits |
| `UriTruncation.Cutter.OutcomeIsDetermined` | runner/commander_contract.py:5043-5057 | such a run has only one outcome, in one number of rounds |
| `UriTruncation.Cutter.EachRoundShrinks` | runner/commander_contract.py:5053-5057 | every round removes at least 29 characters |
| `UriTruncation.Cutter.TextBeforeEveryCrossingStays` | runner/commander_contract.py:5053-5057 | text before every URI that is ever split is kept |
| `UriTruncation.Cutter.UrisSurviveWhole` | runner/commander_contract.py:5043-5058 | each recognised URI of the text the loop stops at is in the result whole, or starts past the cut |
| `UriTruncation.Cutter.WhatIsShown` | runner/commander_contract.py:5043-5058 | a text that fits is shown as it is, a longer one up to an ellipsis that takes the last place |
| `UriTruncation.Cutter.CrossesMeans` | runner/commander_contract.py:5045-5052 | a URI is split when some of its characters are kept and some are not |
| `UriTruncation.Cutter.ReplacePutsThePlaceholder` | runner/commander_contract.py:5053-5057 | the URI gives way to the placeholder, and the text around it stays |
| `UriTruncation.Cutter.PrefixDropsTheRest` | runner/commander_contract.py:5053-5058 | cutting drops what is past the position, or the last characters for a negative one |
| `UriTruncation.CommanderPublicText` | runner/commander_contract.py:4006-4031 | the public text has at most `max_chars` characters for every `max_chars` that is not negative; a text that fits is unchanged, a limit of 0 or 1 just cuts, above that no recognised URI is split |
| `ActionTree.WalkListsTheCandidates` | runner/commander_workflow_policy.py:146-157 | the walk lists exactly the objects with a tool name under an action container, each once, in document order |
| `NextActionPolicy.Policy.ConfirmationIsMutatingOrUnknownApply` | runner/commander_workflow_policy.py:263-287 | the policy asks for confirmation if and only if the contract counts the action as mutating, or it is a Git `_apply` action the contract does not know |
| `NextActionPolicy.Policy.PollIsContractPollUnlessOutOfPlace` | runner/commander_contract.py:3450-3467 | exactly when an action the policy takes for a poll is none for the contract |
| `NextActionPolicy.Policy.ContractPollIsPollUnlessInDisguise` | runner/commander_contract.py:3450-3467 | exactly when a poll for the contract is something else for the policy |
| `NextActionPolicy.Policy.RewrittenCommitWorkflow` | runner/commander_workflow_policy.py:216-227 | an old commit workflow stays a mutation exactly in its two commit phases, and never becomes one |
| `NextActionPolicy.Policy.RewrittenCommitKeeps` | runner/commander_workflow_policy.py:216-227 | the preview, message, project and binding survive the rewriting |
| `NextActionPolicy.Policy.RewrittenCommitTool` | runner/commander_workflow_policy.py:228-242 | of the old commit tool's actions only `commit` becomes a mutation |
| `NextActionPolicy.Policy.RewrittenReadTools` | runner/commander_workflow_policy.py:243-253 | the old status tool becomes a poll, the old diff tool neither poll nor mutation |
| `NextActionPolicy.Policy.NormalizingAddsNoMutation` | runner/commander_workflow_policy.py:160-260 | an action that counts as a mutation comes only from a candidate that asked for one |
| `NextActionPolicy.Policy.SyntheticConfirmationAction` | runner/commander_workflow_policy.py:350-420 | made up exactly for a confirmable call with a preview id; carries out what was previewed: the same Git step with its message, the validation, the commit of a commit workflow or the same workflow in the phase its preview leads to; carries over preview, project and binding; always a mutation for the contract |
| `NextActionPolicy.GitApplyCarriesOutTheStep` | runner/commander_workflow_policy.py:374-381 | a Git preview is carried out by the action of the same name with `_preview` replaced by `_apply` |
| `NextActionPolicy.Policy.SyntheticPollAction` | runner/commander_workflow_policy.py:423-462 | asks about the run named in the result, else about the workflow called and its batch, else about the whole project; always a poll for the contract |
| `NextActionPolicy.Policy.CollectCandidates` | runner/commander_workflow_policy.py:506-513 | the loop collects an entry for every allowed candidate and no other |
| `NextActionPolicy.FirstByRank` | runner/commander_workflow_policy.py:514-516 | the first of the sorted list: nothing ranks before it by priority and then document order |
| `NextActionPolicy.Policy.LeastEntryIsChosen` | runner/commander_workflow_policy.py:506-516 | it belongs to the allowed candidate of least priority, earliest in the document |
| `NextActionLaws.KindsInOrder` | runner/commander_workflow_policy.py:308-329 | the order of preference of the kinds, and the outcomes after which each is allowed |
| `NextActionLaws.RecoveryKind` | runner/commander_workflow_policy.py:288-292 | recovery is a recovery workflow or the preview of a Git recovery: the apply steps in the list never count as recovery |
| `NextActionLaws.OtherKinds` | runner/commander_workflow_policy.py:293-305 | the remaining kinds go by the tool |
| `NextActionLaws.FirstStringIsFirst` | runner/commander_workflow_policy.py:332-347 | the string taken for a preview or run id is that of the first object in document order that has one |
| `NextActionLaws.NothingUsableMeansNone` | runner/commander_workflow_policy.py:332-347 | there is none only if no object has one |
| `NextActionLaws.FirstKeyCounts` | runner/commander_workflow_policy.py:332-338 | in one object the first of the keys counts |
| `NextActionLaws.CommitNames` | runner/commander_workflow_policy.py:231-239 | what the actions of the older commit tool are called today |
| `NextActionLaws.CommitToolKeeps` | runner/commander_workflow_policy.py:228-242 | the older commit tool's other arguments stay as they are |
| `NextActionLaws.ReadToolsSay` | runner/commander_workflow_policy.py:243-253 | the older tools for reading a repository ask for its status and its difference, in the project they name |
| `NextActionLaws.WorkflowsStay` | runner/commander_workflow_policy.py:213-215 | a workflow kept for compatibility is never recommended, any other but the commit workflow keeps its arguments |
| `NextActionLaws.ManifestIsRead` | runner/commander_workflow_policy.py:182-200 | a manifest URI is read where it names a subject, else its status is, with the page it names |
| `NextActionLaws.ArtifactIsRead` | runner/commander_workflow_policy.py:160-181 | an artifact URI is read with the page it names |
| `NextActionLaws.DataOfResult` | runner/commander_workflow_policy.py:102-104 | a result's data is its `data` object, else the result itself |
| `NextActionLaws.BindingOfData` | runner/commander_workflow_policy.py:361-366 | the binding stands in the data, else in its confirmation |
| `NextActionLaws.StrippedText` | runner/commander_workflow_policy.py:333-337 | white space around a string is dropped, and a blank one does not count |
| `NextActionLaws.ReasonIsHandedOn` | runner/commander_workflow_policy.py:255-260 | the reason a candidate gives is handed on, and replaced when it gives none |
| `NextActionLaws.ReasonOfResource` | runner/commander_workflow_policy.py:177-201 | for a resource any reason is handed on as it is, unless it counts as false |
| `NextActionPolicy.Policy.SelectCommanderNextAction` | runner/commander_workflow_policy.py:490-523 | the chosen candidate, or else the outcome's fallback: the confirmation that carries out the preview, the poll of the run or workflow called, or the way out of a blocked call; no mutation unless the outcome is `confirmation_required`; always a public tool; in progress always an action |
| `NextActionPolicy.Policy.ContractAcceptsIffSuited` | runner/commander_contract.py:1460-1511 | the contract's rule accepts what is selected if and only if the first wanted candidate is one both agree on, or none is there and a confirmation can be made up |
| `NextActionPolicy.Policy.ConfirmationMayBeRefused` | runner/commander_contract.py:1460-1466 | a tool result for which whatever is selected for confirmation fails the contract's rule |
| `NextActionPolicy.Policy.PollMayBeRefused` | runner/commander_contract.py:1505-1511 | a tool result for which whatever is selected while in progress fails it |
| `IsoTime.IsoKeepsOrder` | runner/current_facts_artifact.py:175-184 | for UTC times of the years 1 to 9999 text order of the ISO form is time order, with or without microseconds |
| `IsoTime.DigitsKeepOrder` | runner/current_facts_artifact.py:175-184 | zero-padded numbers of one width sort as numbers |
| `IsoTime.IsoSpelled` | runner/current_facts_artifact.py:175-184 | the separators, the fraction and the offset of the ISO form |
| `PreviewStore.CurrentFactsPreviewStore.Put` | runner/current_facts_artifact.py:130-147 | purges, stores, trims: the new contents as a function of the old |
| `PreviewStore.CurrentFactsPreviewStore.Get` | runner/current_facts_artifact.py:149-159 | returns exactly the unexpired entry with that id and project root, after a purge; a blank id touches nothing |
| `PreviewStore.CurrentFactsPreviewStore.PurgeExpired` | runner/current_facts_artifact.py:167-173 | the in-place purge keeps exactly the unexpired entries, in order |
| `PreviewStore.CurrentFactsPreviewStore.TrimToMax` | runner/current_facts_artifact.py:175-184 | the in-place trim by expiry text |
| `PreviewStore.IsoStampKeepsOrder` | runner/current_facts_artifact.py:175-184 | the ISO stamp is one for which the sort by text is a sort by time |
| `PreviewStore.FirstOldestMeaning` | runner/current_facts_artifact.py:175-184 | the entry a stable sort puts first is the oldest, and of equals the first stored |
| `PreviewStore.TrimDropsTheOldest` | runner/current_facts_artifact.py:175-184 | one entry too many removes exactly the oldest one |
| `PreviewStore.PutEvictsAtMostOne` | runner/current_facts_artifact.py:130-147 | a put evicts at most one unexpired entry, exactly when the store was full; that is the new one exactly when every other expires later |
| `PreviewStore.PutMovesWindow` | runner/current_facts_artifact.py:130-147 | a put moves the window of kept puts on |
| `PreviewStore.StoreRefinesHistory` | runner/current_facts_artifact.py:114-184 | over any history of calls that take effect in the order of their clock readings, with fresh ids, the contents are the last `max_items` puts unexpired as of the last call |
| `ArchiveProtocol.StepKeepsInv` | runner/current_facts_artifact.py:245-314 | every atomic step of every writer keeps the protocol invariant and changes files only as its phase allows |
| `ArchiveProtocol.RunKeepsInv` | runner/current_facts_artifact.py:245-314 | so does every interleaving of any number of writers |
| `ArchiveProtocol.FilesBelongToTheirCreator` | runner/current_facts_artifact.py:543-555 | an existing file is never overwritten, and only the call that created a file changes or removes it |
| `ArchiveProtocol.FinishedFilesNeverChange` | runner/current_facts_artifact.py:245-314 | a file whose creator has returned stays as it is for ever |
| `ArchiveProtocol.WrittenIsLasting` | runner/current_facts_artifact.py:275-293 | after "written" both files hold exactly that call's bytes, for ever |
| `ArchiveProtocol.JsonFileIsALock` | runner/current_facts_artifact.py:276-281 | at most one call is past creating the JSON file at a time |
| `ArchiveProtocol.RemovalsKeepFilesHeld` | runner/current_facts_artifact.py:276-291 | while removals succeed, an unfinished file is held by a running creator |
| `ArchiveProtocol.MarkdownNeverStandsAlone` | runner/current_facts_artifact.py:276-291 | while removals succeed, the Markdown file never exists without the JSON file |
| `ArchiveProtocol.AlreadyPresentWasRead` | runner/current_facts_artifact.py:260-274 | "already_present" means that both files were read with exactly this call's bytes, the JSON file first |
| `ArchiveProtocol.ReadingMarkdownMeansJsonWasRead` | runner/current_facts_artifact.py:269-273 | a call that reads the Markdown file has read the JSON file with its bytes before |
| `ArchiveProtocol.AlreadyPresentMayVanish` | runner/current_facts_artifact.py:260-291 | a run after which a call answered "already_present" and neither file exists |
| `ArchiveProtocol.FileLastsIffCreatorReturned` | runner/current_facts_artifact.py:275-291 | a JSON file outlasts every continuation if and only if the call that created it has returned, failing removals included |
| `ArchiveProtocol.MarkdownLastsIffSettled` | runner/current_facts_artifact.py:282-291 | a Markdown file does if and only if its creator is neither writing nor about to remove it |
| `ArchiveProtocol.MarkdownMayOutlastARunningCreator` | runner/current_facts_artifact.py:286-291 | a run that leaves a Markdown file for good although its creator has not returned |
| `ArchiveProtocol.PairLastsIffBothDo` | runner/current_facts_artifact.py:260-291 | the pair that "already_present" is about lasts if and only if both files do |
| `ArchiveProtocol.UnfinishedFileCanVanish` | runner/current_facts_artifact.py:282-291 | otherwise some continuation removes it |
| `ArchiveProtocol.ExactlyOneWrites` | runner/current_facts_artifact.py:254-293 | from an empty archive and without failures, once all calls have returned exactly one has written, and both files hold its bytes |
| `ArchiveAlone.AllOrNothing` | runner/current_facts_artifact.py:245-314 | a call that is not disturbed leaves both files with its bytes where there was none, or the disk as it was, whatever fails but the removals; each answer tells what it found |
| `ArchiveAlone.NothingFails` | runner/current_facts_artifact.py:245-314 | when nothing fails it returns within six steps: written, already present or conflict by what was there |
| `SemanticIdentity.IdentityForgetsOnlyTheTimes` | runner/current_facts_artifact.py:626-664 | two states have one identity if and only if they agree at every place but the two collection times |
| `SemanticIdentity.IdentityIsIdempotent` | runner/current_facts_artifact.py:634-664 | the identity of an identity is itself |
| `SemanticIdentity.TimesSpelled` | runner/current_facts_artifact.py:626-664 | the two times are `observed_at` at the top and inside `freshness` |
| `DangerousActionGuard.Guard.CreatePreview` | runner/dangerous_action_guard.py:57-100 | the preview map gains exactly this unused preview |
| `DangerousActionGuard.Guard.Confirm` | runner/dangerous_action_guard.py:117-166 | the reply and the new state are given functions of the old state; a mismatch changes nothing |
| `DangerousActionGuard.Setting.StateIsHistory` | runner/dangerous_action_guard.py:57-166 | after any calls an id holds its latest preview, used exactly if some later call used it up |
| `DangerousActionGuard.Setting.SuccessExactly` | runner/dangerous_action_guard.py:117-166 | a confirm succeeds if and only if it presents the id's latest preview in time, unused, with every binding and the payload digest equal |
| `DangerousActionGuard.Setting.NoMismatchMeansBinds` | runner/dangerous_action_guard.py:117-166 | no binding is found to differ if and only if all agree, where a missing and an empty one are the same and the digest leaves out the id of the confirmation |
| `DangerousActionGuard.Setting.OnlyTheIdIsLeftOut` | runner/dangerous_action_guard.py:15-18 | the payload that is digested is the given one without `confirmation_id` |
| `DangerousActionGuard.Setting.ReasonIsTrue` | runner/dangerous_action_guard.py:138-160 | a mismatch is told only of a binding that differs |
| `DangerousActionGuard.Setting.SuccessNeedsANewPreview` | runner/dangerous_action_guard.py:117-166 | between two successes for one id there is a creation for it |
| `DangerousActionGuard.Setting.UsedUpStaysUsedUp` | runner/dangerous_action_guard.py:138-161 | a used or expired preview never becomes usable again |
| `DangerousActionGuard.Setting.ConfirmedAtMostOncePerCreation` | runner/dangerous_action_guard.py:57-166 | over any history the successes for an id never exceed its creations |
| `AgentProjection.FilterActions` | runner/agent_state_projection.py:218-227 | a list is replaced by fresh copies of the kept actions, in order, with everything else in place |
| `AgentProjection.FilterUnreachableNavigationActions` | runner/agent_state_projection.py:211-247 | the copy is made of new objects only, down to the depth bound, and holds the filtered form of the original |
| `AgentProjection.FilteredShowsFilterTree` | runner/agent_state_projection.py:211-247 | that form is the filter of the whole tree, envelope by envelope |
| `AgentProjection.HasConfirmationNavigationAction` | runner/agent_state_projection.py:250-281 | yes if and only if some list within the depth bound holds an action that requires confirmation |
| `AgentConfirmation.FilterReaches` | runner/agent_state_projection.py:211-247 | afterwards every named-tool action in any list within the bound uses an allowed tool |
| `AgentConfirmation.FilterChangesOnlyTheUnreachable` | runner/agent_state_projection.py:211-247 | filtering changes a response if and only if it holds an unreachable action |
| `AgentConfirmation.FilterEntriesKeeps` | runner/agent_state_projection.py:218-227 | every allowed entry is kept, and the list stays whole exactly when all are |
| `AgentConfirmation.ClearConfirmationState` | runner/agent_state_projection.py:284-310 | clears in place: only the given envelopes change, only by lowering flags other than `can_apply`, confirmation dictionaries are copied, and no flag within the bound stays true |
| `AgentConfirmation.ClearedStays` | runner/agent_state_projection.py:299-310 | what one branch has cleared stays cleared while other branches are |
| `AgentConfirmation.ReconcileUnreachableConfirmation` | runner/agent_state_projection.py:313-343 | clears exactly when the response asks for a confirmation its tools can no longer give, and otherwise changes nothing; `can_apply` is lowered in the status at the top and nowhere else |
| `AgentBinding.ProjectBoundAction` | runner/agent_state_projection.py:88-112 | every dictionary of arguments of a bound action is the one it had with the name of the project added unless it has one, an action without arguments gets those of its tool call to copy, and every other field is the same |
| `AgentBinding.BindTopLevelActions` | runner/agent_state_projection.py:115-133 | a copy made of new objects in which the four single actions and the actions of the three own lists are bound and everything else is the same |
| `AgentBinding.BoundFilters` | runner/agent_state_projection.py:1119-1157 | binding does not change which actions are kept |
| `AgentBinding.BoundConfirms` | runner/agent_state_projection.py:1119-1166 | nor whether one of them confirms |
| `AgentAction.NormalizeAgentAction` | runner/agent_state_projection.py:136-178 | an action comes out if and only if it or its tool call to copy names a tool; it is bound to the project and has every field it had but the required arguments, with the missing ones filled in |
| `AgentAction.FillingInKeeps` | runner/agent_state_projection.py:160-178 | no field that is there is replaced but the required arguments |
| `AgentAction.NameIsTheFirst` | runner/agent_state_projection.py:159-165 | an action without a name has that of its arguments' action, phase or workflow, in this order |
| `AgentAction.TruthyMeans` | runner/agent_state_projection.py:155-157 | what counts as false: nothing, false, zero and whatever is empty |
| `AgentBinding.DefaultKeepsTheRest` | runner/agent_state_projection.py:88-112 | a default leaves every entry that is there alone |
| `AgentConfirmation.AddAgentStateProjection` | runner/agent_state_projection.py:1096-1221 | the action found comes out as the primary one if and only if it is reachable and names a tool, with its tool, its flag and every field but its arguments, and is written into the response; nothing the caller holds changes; every listed action that names a tool is reachable; a stranded response ends with no true flag in any envelope; any other is exactly the filtered bound response under the fields written last |
| `AgentConfirmation.PrimaryKeeps` | runner/agent_state_projection.py:1144-1157 | the primary action keeps every field of the action found that neither binding nor filling in is about |
| `AgentProjection.ReachableMeans` | runner/agent_state_projection.py:204-208 | reachable means unrestricted or with an allowed tool |
| `AgentProjection.ConfirmsMeans` | runner/agent_state_projection.py:255-263 | an action confirms when its flag is true |
| `AgentConfirmation.IsTrueMeans` | runner/agent_state_projection.py:284-298 | a flag counts only when it is true itself |
| `AgentConfirmation.IsTextMeans` | runner/agent_state_projection.py:313-343 | a text counts only when it is the very text |
| `AgentConfirmation.WritingKeepsTheOutcome` | runner/agent_state_projection.py:1168-1221 | the fields written last bring back neither unreachable actions nor raised flags |
| `ProjectionSources.FindProjectionSources` | runner/agent_state_projection.py:48-76 | lists exactly the envelopes within five steps, each once, nearest first |
| `ProjectionSources.NoneMissed` | runner/agent_state_projection.py:48-76 | skipping seen envelopes misses none, because breadth-first order finds each at its least depth |
| `PlanBundle.Parser.ReadLine` | runner/bootstrap.py:386-484 | one iteration of the loop over the flags and the current version |
| `PlanBundle.ParsePlanBundleYamlSubset` | runner/bootstrap.py:386-484 | the parser computes the function the lemmas are about |
| `PlanBundle.ScalarIsRead` | runner/bootstrap.py:486-490 | a scalar in quotes of either kind, or bare, is read as the value it was written for, whatever white space stands around it |
| `PlanBundle.EveryScalarIsWritten` | runner/bootstrap.py:486-490 | every text is such a scalar |
| `PlanLines.WhatReachesTheVersions` | runner/bootstrap.py:386-484 | for any lines: as many versions as lines that begin one, and in each exactly the items whose section line is `allowed_files:` and the commands whose section line is `acceptance_commands:`, in order, each with its block |
| `PlanLines.SectionLineIsTheLast` | runner/bootstrap.py:440-465 | the section line of a line is the last one before it that begins or ends a section |
| `PlanLines.StepTracks` | runner/bootstrap.py:393-482 | one iteration of the parser keeps its flags, block and plan equal to what the lines read so far say |
| `PlanLines.OpenIsUnique` | runner/bootstrap.py:410-420 | at most one block is open at any line |
| `PlanLayout.ReadBlock` | runner/bootstrap.py:386-484 | block lines are captured with their indent removed, blank and `#` lines dropped |
| `PlanLayout.ReadSections` | runner/bootstrap.py:451-482 | what a run of sections in any order adds to a version, and which list the parser is in afterwards |
| `PlanLayout.ParseOfPrint` | runner/bootstrap.py:386-484 | what parsing the printed lines of any plan gives, sections in any order, other keys, comments and blocks included |
| `PlanLayout.ListsComeBack` | runner/bootstrap.py:451-482 | each of the two lists comes out as written if and only if no list under another key stands where it is read as more of it, and the commands are clean |
| `PlanLayout.ParseUndoesPrint` | runner/bootstrap.py:386-484 | the parsed plan is the plan as written if and only if that holds in every version |
| `PlanLayout.ParseUndoesPrintedText` | runner/bootstrap.py:386-490 | the same for the printed text, lines and all |
| `PlanLayout.VersionComesBack` | runner/bootstrap.py:413-484 | the same for one version |
| `PlanLayout.CleanCommandsComeBack` | runner/bootstrap.py:410-420 | a command comes back as written if and only if its block has no blank or comment line and its last line no trailing white space, or is one empty line |
| `PlanLayout.ForbiddenFilesComeOutAllowed` | runner/bootstrap.py:297-350 | a plan in the template's order of keys whose forbidden files are read as allowed |
| `PlanLayout.ForbiddenFilesAfterTheCommandsComeOutAllowed` | runner/bootstrap.py:451-470 | the same with the commands first and nothing between the allowed files and the commands |
| `PlanLayout.RollbackCommandsComeOutAsAcceptance` | runner/bootstrap.py:451-482 | a plan whose commands under another key are read as acceptance commands |
| `PlanText.SplitUndoesTerminated` | runner/bootstrap.py:386-392 | splitting a text of terminated lines gives the lines back |

## Left out

- The catalogue of credential patterns, path patterns and boundary rules of `runner/commander_contract.py`: credential
  tests are predicates, recognised URI spans a function.
- The insides of `json`, `ast`, `unquote`, `hashlib`, `str.lower` and `datetime`: parameters with the facts used.
- Journey stages, summaries, localized error messages, receipts, Markdown and schema descriptions.
- `NextActionPolicy.Policy.ContractAcceptsIffSuited`: applies the contract's rule to the selected action; the contract's
  cleaning of the arguments before that, and the rest of its validation, are not part of this model.
- Processes, HTTP, Git, path resolution, ignore and symlink checks around the archive: files are created, read, written
  and removed, each step atomic.
- `ArchiveProtocol.MarkdownNeverStandsAlone`: assumes that removals succeed; a failed removal leaves a partial file in
  the source as in the model.
- The source's list of created files is the phase a call of the archive model is in.
- `PreviewStore.StoreRefinesHistory`: assumes fresh ids and calls that take effect in the order of their clock readings;
  the source draws ids at random and reads the clock before it takes the lock, so two calls can take it in the other
  order. `PutEvictsAtMostOne` covers that case.
- `PreviewStore.CurrentFactsPreviewStore.Put`: instants past the year 9999, where Python raises, are excluded. The lock
  itself is not modelled: each call is the part done under it, with its clock reading given.
- Times of the guard are real numbers; its rounding to floating point is not modelled.
- `XmlOpenElements.ScanMeetsSearchOfParts`: is about elements, closing tags and character data; comments, CDATA
  sections, processing instructions, headers over 4096 characters before the end of the text, attribute values with a
  `<` and closing tags that close nothing inside a closed element are not among them. The method and the scan function
  cover every text.
- `XmlRsaScan.ScanMeetsTreeSearch`: likewise, and without elements left open.
- `StructuredScan.Scan.ContainsStructuredJsonMapping`: of a scan that does reach a budget it is stated only that it
  never misses under a hint that always says yes, since its answer depends on the hint.
- `AgentConfirmation.AddAgentStateProjection`: which action is found for the primary one, the routing metadata of tools
  and the descriptive fields written last are inputs. Dictionary keys the code looks for by name are constructors, every
  other key is `Named`.
- `PlanLayout.ParseUndoesPrint`: is about printed plans with quoted values; lists under other keys hold texts and inline
  commands. `PlanLines.WhatReachesTheVersions` covers every other text.
- The worklist's branch for plain dictionaries: both parsers hand out member lists, so it is never taken.
- A tool name that is not hashable, on which Python raises, does not occur in the model's values.
- `NextActionPolicy.FirstByRank`: the list is scanned for its first element in sorted order instead of being sorted.
- The public error code that asks for a project to be chosen is an input of the policy.
- Converting keys of a canonical state to text: JSON keys are text already.
