# A verified model of the Nouns tooling

This project models, in Dafny, the parts of the Nouns monorepo that carry its hardest promises, and
proves those promises for all inputs, all runs and all reachable states. Verify it with
`dafny verify dfyconfig.toml`.

- **The image codec** (`Hex`, `Palette`, `Rle`, `Grid`, `Image`, `Painter`, `SvgBuilder`,
  `Collection`, `CodecFailures`, `CollectionFormat`). An image is cut to the tight box of its visible pixels, its
  colours join a palette shared with other images, its cells are run-length encoded across line
  breaks and printed as hex. The text is parsed again and painted as rectangles that are cut wherever
  a run crosses the right bound. The theorem about the whole: what is painted is what was in the
  pixels.
- **The subgraph indexer** (`Entities`, `TokenIndex`, `DelegatedVotes`, `Quorum`, `Governor`,
  `Frames`, `Events`, `ContractRuns`, `Transactions`, `VoteRuns`, `ParamRuns`, `StateRuns`, `Counters`,
  `Failures`, `Subgraph`). Handlers load copies of entities, change them and save them. The redundant lists, balances and totals they keep agree, after every
  well-formed run, with a ground truth of two maps: who owns each noun and whom each holder
  delegates to. `Subgraph.Subgraph` is the indexer itself, with its fields updated in place; each
  handler is proved to do what the function of its event says, and the theorems are about those
  functions: what the records hold is also said over whole runs in terms of the events alone.
- **The web app** (`Verdict`, `LogKeys`, `LogCache`, `Auction`). The derived proposal state (over
  runs in `StateRuns`), the log cache with its key printer and parser, and the reducers of the live
  auction.
- **The bots and the assets** (`Bots`, `BotTasks`, `Seeds`). Notification ticks over a cache, with a
  trace of what was announced, also when the tasks of a tick interleave; and seed parts cut from the
  text of a hash.

`Wrappers`, `Lists`, `Numbers` and `Sums` are shared helpers.

Where the code meets its promise only under a condition, the condition is proved exact (if and only
if) and an input outside it is given: a transfer to the owner, a noun minted again or sent by
another than its owner, a delegate changed to itself, a delegator without nouns, an account that
delegated and comes back after it held nothing, a balance that goes from 0 to 0 or from another than
the recorded one, a second vote by one voter, a proposal that is created again after it was queued, a
log filter without topics, a text with letters for digits, an image with a visible pixel in column
255, a palette that does not start with transparent, a name listed twice in a folder,
a folder named `root`, an auction replaced while bids are stored, a bid after the settlement, two bids
of one value by two senders, and a seed of more than five parts. For the picture that is painted the
condition is exact in the columns; in rows and colours it is exact for the texts and sufficient for the
picture, and for each there is a picture outside it that is painted wrong.

Notes on the model:

- `None` stands for a handler that aborts, for NaN, and for an exception. A handler of the subgraph
  aborts when it divides by a total supply of 0, when the basis points do not fit in 32 bits, and
  when it saves a proposal that was never created, because that lacks required fields; an aborted
  handler leaves the store as it was.
- What is assumed of the events: a transfer mints a new noun or is from the owner to somebody else; a
  delegate change is by a holder, from its recorded delegate, to another; a vote-balance change names
  the recorded balance and one of its two balances is positive; proposal ids are new; each voter votes
  once on a proposal; and no handler aborts. The token contract does not guarantee all of this: it
  lets an owner send a noun to itself, and any account delegate at any time, to anybody, from the
  delegate it has in the contract, which outlives its last noun. `ContractRuns` says exactly which
  runs of the contract's events are harmless, and `Governor.VoteAbortsExact` when a vote aborts.
  Burned nouns are owned by the zero address (EIP-721, "Specification").
- The contract mints in two transfers, from the zero address to its owner and from there to the
  receiver. A mint to the contract's owner is therefore a transfer to the owner of the noun that no
  user makes, and once the contract has no owner the second transfer is one from the zero address of
  a noun that is known already. By `TokenIndex.TransferExact` the index goes wrong in both;
  `Transactions` keeps to the other mints.
- A `Map` keeps its keys in insertion order (ECMA-262, "Map Objects"). Later rectangles cover earlier
  ones (section 3.3 of SVG 1.1). White space and line terminators, which matter to `parseInt` and to
  the pattern that cuts the runs, are those of sections 12.2 and 12.3 of ECMA-262.
- `toPaddedHex` also prints negative numbers: a picture without rows has its bottom at -1, and the
  text still reads back.
- The documentation of the bit shift in the assets package speaks of emulating a shift and a cast;
  the code does so only when enough digits are left, and the model follows the code.

## Model

| member | source | states |
|---|---|---|
| `Collection.WhatIsPaintedIsWhatWasInThePixels` | packages/nouns-sdk/src/image/image.ts:36-65 | For any pictures encoded in turn against one palette, and any point of the SVG built from their texts: the point has the colour of the last picture whose pixel there has alpha not 0; where there is none it has `#` and the background colour if one is given that is not empty, and no colour otherwise. Needs every visible pixel in the first 255 columns and 256 rows, and its colour among the first 256 of the final palette |
| `Collection.EncodeAndBuild` | packages/nouns-sdk/src/image/svg-builder.ts:44-87 | The same of the program: a method that calls `encodeImage` on each picture and `buildSVG` on the texts and the palette they left always returns the SVG of these texts, and on that condition one with that picture over that background |
| `Collection.ColorSpells` | packages/nouns-sdk/src/image/utils.ts:16-18 | The colour of a pixel is spelled as its red, its green and its blue, two digits each |
| `Collection.AllEncodedEnd` | packages/nouns-sdk/src/image/svg-builder.ts:53-81 | The painter gets through the texts of every run of encodings, whether their numbers fit or not |
| `Collection.WideIsNotPainted` | packages/nouns-sdk/src/image/svg-builder.ts:10-15 | Whatever the other pictures and the palette: a pixel that is visible beyond the first 255 columns is not painted, and the point shows no colour instead of one |
| `Collection.PictureExactInColumns` | packages/nouns-sdk/src/image/image.ts:56-64 | For pictures whose rows and colours are in range: at every point over no background what is painted is what was in the pixels, if and only if every visible pixel is in the first 255 columns |
| `CodecFailures.TallPicture` | packages/nouns-sdk/src/image/image.ts:57-64 | A black column of 257 rows: its first cell is painted in a colour of no palette |
| `CodecFailures.ManyColors` | packages/nouns-sdk/src/image/image.ts:77-89 | One pixel whose colour is the 257th of its palette: it is painted in the 17th |
| `Collection.PrintsExact` | packages/nouns-sdk/src/image/image.ts:56-64 | Every number of a picture's text fits on two characters if and only if every visible pixel is in the first 255 columns and 256 rows and its colour among the first 256 |
| `Collection.TextsRead` | packages/nouns-sdk/src/image/svg-builder.ts:7-27 | The texts of a whole run of encodings read back as the boxes and runs they were printed from, with the indexes of the final palette, if and only if every picture's pixels meet that condition |
| `Collection.KeysAppendOnly` | packages/nouns-sdk/src/image/image.ts:46-52 | Over any sequence of encodings the palette only grows at its end and stays a palette: transparent first, no colour twice |
| `Collection.EncodingStable` | packages/nouns-sdk/src/image/image.ts:46-52 | The runs of a picture are the same under every longer palette, so earlier encodings stay right |
| `Collection.SmallPicturesPrint` | packages/nouns-sdk/src/image/image.ts:56-64 | Pictures of at most 255 columns and 256 rows meet the condition as long as the palette has at most 256 colours |
| `Collection.WidePicture` | packages/nouns-sdk/src/image/image.ts:56-64 | A picture with a visible pixel in column 255 does not read back: its right bound takes three digits |
| `Collection.PNGCollectionEncoder.EncodeImage` | packages/nouns-sdk/src/image/png-collection-encoder.ts:40-51 | For any colour map: the returned text is the picture's under the grown map, it is stored under the name, and the name is added to its folder, if any; with a palette in key order the text is that of the palette's positions |
| `Collection.PNGCollectionEncoder.EncodeAll` | packages/nouns-sdk/src/image/png-collection-encoder.ts:40-51 | A run of calls, into any folders, returns the texts and leaves the palette that the theorems speak of; each name has the text of its last call, and each folder has its names in the order of the calls after those it had |
| `Collection.PNGCollectionEncoder.constructor` | packages/nouns-sdk/src/image/png-collection-encoder.ts:10-18 | The encoder starts with the transparent colour and the given palette; the map is in key order exactly for the lists that keep every colour at its own position |
| `CollectionFormat.Format` | packages/nouns-sdk/src/image/png-collection-encoder.ts:65-95 | The loops sort the stored texts into folders and leave the rest to `root`, deleting from a working copy as they go |
| `CollectionFormat.FlattenedExact` | packages/nouns-sdk/src/image/png-collection-encoder.ts:84-93 | Flattened, `root` has every image with its text, in insertion order, and there is no other folder |
| `CollectionFormat.FolderFilesExact` | packages/nouns-sdk/src/image/png-collection-encoder.ts:70-81 | Every folder lists its files in order, each with its text if and only if it is stored and not listed before, in an earlier folder or earlier in its own |
| `CollectionFormat.FilesHaveTexts` | packages/nouns-sdk/src/image/png-collection-encoder.ts:75-81 | Every file in a folder has its text if and only if no name is listed twice, in one folder or in two |
| `CollectionFormat.NothingLostExact` | packages/nouns-sdk/src/image/png-collection-encoder.ts:65-95 | Every stored image is in the output with its text if and only if nothing is left for `root` or no folder of that name is the first to list an image |
| `CollectionFormat.ListedTwice` | packages/nouns-sdk/src/image/png-collection-encoder.ts:75-81 | A name listed twice in a folder has its text once |
| `CollectionFormat.RootFolderOverwritten` | packages/nouns-sdk/src/image/png-collection-encoder.ts:88-93 | An image in a folder named `root` is lost when another image is in no folder |
| `Image.Image.CalcBounds` | packages/nouns-sdk/src/image/image.ts:93-138 | The loops find the box that the two theorems below are about |
| `Image.TightBoxHolds` | packages/nouns-sdk/src/image/image.ts:93-120 | The box holds every visible pixel, lies in the picture, and has no columns exactly when no pixel is visible, then with left bound 0 |
| `Image.TightBoxIsSmallest` | packages/nouns-sdk/src/image/image.ts:93-120 | Every rectangle that holds all visible pixels contains the box |
| `Image.Image.Encode` | packages/nouns-sdk/src/image/image.ts:71-91 | The loop prints the greedy run list of its data; the `tuples` field gets all but the last run |
| `Image.Image.ScanBox` | packages/nouns-sdk/src/image/image.ts:41-54 | For any colour map: the double loop puts the box's colours in it in raster order and lists each cell's number in the map as it ends up, although it looked it up when the map was smaller |
| `Image.Image.ToRLE` | packages/nouns-sdk/src/image/image.ts:36-65 | For any colour map: the text is that of the tight box and of the greedy runs of its cells' numbers; the caller's map grew by the new colours |
| `Image.InKeyOrder` | packages/nouns-sdk/src/image/image.ts:46-52 | A colour map in key order stays in key order, and the numbers are the positions in the palette of its keys |
| `Image.IndexIsReal` | packages/nouns-sdk/src/image/image.ts:46-52 | A visible colour never gets index 0, and its index leads back to it |
| `Image.SameIndexSameColor` | packages/nouns-sdk/src/image/image.ts:46-52 | Two visible pixels have the same index if and only if they have the same red, green and blue |
| `Rle.GreedyExpands` | packages/nouns-sdk/src/image/image.ts:71-91 | The runs stand for exactly the data, and every count is from 1 to 255 |
| `Rle.GreedyIsShortest` | packages/nouns-sdk/src/image/image.ts:71-91 | No list of runs with counts from 1 to 255 that stands for the same data is shorter |
| `Palette.InitialPaletteExact` | packages/nouns-sdk/src/image/png-collection-encoder.ts:11-18 | The constructor's index assignment gives every colour its position in key order if and only if the list starts with transparent (or with its first colour twice) and has no other repeat |
| `Palette.FirstColorIsLost` | packages/nouns-sdk/src/image/png-collection-encoder.ts:11-18 | With a palette that does not start with transparent the first colour shares the transparent index |
| `Palette.GrowAppends` | packages/nouns-sdk/src/image/image.ts:46-49 | Inserting colours moves none, loses none, and keeps a palette one |
| `Palette.ExtendTable` | packages/nouns-sdk/src/image/image.ts:46-52 | Putting colours in any colour map changes no number in it and appends the new ones to its keys |
| `Palette.ColorMap.Add` | packages/nouns-sdk/src/image/image.ts:46-52 | A colour that is not in the map gets the size of the map; nothing else changes |
| `Hex.FieldRoundTrip` | packages/nouns-sdk/src/image/utils.ts:6-8 | A number from -15 to 255 prints on two characters that read back as it |
| `Hex.RgbToHexInjective` | packages/nouns-sdk/src/image/utils.ts:16-18 | Six digits name one colour: the texts are equal if and only if the colours are |
| `SvgBuilder.TextRoundTrip` | packages/nouns-sdk/src/image/svg-builder.ts:7-27 | For any bounds and runs: the text reads back as them, with no number lost, if and only if each number fits on two characters; the empty run list included |
| `SvgBuilder.PaintPart` | packages/nouns-sdk/src/image/svg-builder.ts:50-81 | On every part for which the line-splitting loop ends (see the next rows) it pushes exactly the strokes that the theorems about the painter speak of, scaled by ten, also when bounds or colours are NaN |
| `SvgBuilder.LoopEndsExact` | packages/nouns-sdk/src/image/svg-builder.ts:61-80 | From every position a run can start at, the loop for it ends after some number of turns if and only if the part has no columns or the run has a length |
| `SvgBuilder.PartEndsExact` | packages/nouns-sdk/src/image/svg-builder.ts:53-81 | So the loop ends for every run of a part, wherever it starts, if and only if the part has no columns or all its runs have lengths |
| `SvgBuilder.MalformedText` | packages/nouns-sdk/src/image/svg-builder.ts:7-27 | A text whose only run starts with two letters that are no digits: the loop never ends |
| `SvgBuilder.BuildSVG` | packages/nouns-sdk/src/image/svg-builder.ts:44-87 | The rectangles of all parts in order, over the background colour that is given, or over none when it is absent or empty |
| `SvgBuilder.PartPicture` | packages/nouns-sdk/src/image/svg-builder.ts:50-81 | One part over any background: a point of a cell to which the runs give a colour shows it, any other shows what was below |
| `Painter.PaintedExactly` | packages/nouns-sdk/src/image/svg-builder.ts:53-81 | For any bounds and any runs: the colour of the last stroke over a cell is the colour at the cell's flat position in the expanded runs, and there is no stroke where that is 0 or outside |
| `Painter.StrokesInRasterOrder` | packages/nouns-sdk/src/image/svg-builder.ts:53-81 | Each stroke lies in one row between the bounds; any two are in raster order and cover no common cell |
| `Events.EveryRunIsSound` | packages/nouns-subgraph/src/nouns-erc-721.ts:39-213 | After every well-formed run from nothing the store agrees with the ground truth: ownership lists, balances, delegates, representation lists, holder totals, delegate votes, tallies, and no early ETA |
| `Events.StepKeeps` | packages/nouns-subgraph/src/nouns-erc-721.ts:39-213 | Every well-formed event of every kind keeps that agreement |
| `Events.NounsAfterEveryRun` | packages/nouns-subgraph/src/nouns-erc-721.ts:39-213 | After every well-formed run each noun ever minted occurs exactly once across all representation lists: in that of its owner's recorded delegate |
| `Events.HoldersAfterEveryRun` | packages/nouns-subgraph/src/nouns-erc-721.ts:116-212 | After every well-formed run an account's nouns are what it owns, without repeats, its balance is their number, it has a delegate if and only if the balance is positive, and `currentTokenHolders` counts the accounts with a positive balance |
| `Events.SupplyAfterEveryRun` | packages/nouns-subgraph/src/nouns-erc-721.ts:117-163 | After every well-formed run `totalTokenHolders` is the number of mints minus the number of burns |
| `Events.NewProposalSupply` | packages/nouns-subgraph/src/nouns-dao.ts:92-93 | A proposal created after any well-formed run records minted minus burned as its supply |
| `TokenIndex.TransferExact` | packages/nouns-subgraph/src/nouns-erc-721.ts:100-213 | In every state that agrees with the truth, a transfer keeps the agreement if and only if it mints a new noun or sends an owned noun to somebody else |
| `TokenIndex.DelegationExact` | packages/nouns-subgraph/src/nouns-erc-721.ts:39-77 | A delegate change keeps the agreement if and only if the delegator holds a noun, `fromDelegate` is its recorded delegate, and `toDelegate` is another |
| `TokenIndex.TransferAccounts` | packages/nouns-subgraph/src/nouns-erc-721.ts:116-212 | What a transfer does to every account, with the copies loaded before either is saved |
| `TokenIndex.TransferLists` | packages/nouns-subgraph/src/nouns-erc-721.ts:124-183 | What a transfer does to every delegate's list: the noun leaves the sender's delegate's and joins the receiver's delegate's |
| `TokenIndex.TransferTotals` | packages/nouns-subgraph/src/nouns-erc-721.ts:117-202 | What a transfer does to the holder counts, whichever governance copy is saved last |
| `TokenIndex.DelegationLists` | packages/nouns-subgraph/src/nouns-erc-721.ts:48-61 | What a delegate change does to every list; of two copies of one delegate the last saved wins |
| `Subgraph.Subgraph.HandleTransfer` | packages/nouns-subgraph/src/nouns-erc-721.ts:100-213 | The handler takes the store to what the transfer function says, entity by entity |
| `Subgraph.Subgraph.HandleDelegateChanged` | packages/nouns-subgraph/src/nouns-erc-721.ts:39-77 | The handler, with its loop over the delegator's nouns, takes the store to what the delegation function says |
| `Subgraph.Subgraph.HandleDelegateVotesChanged` | packages/nouns-subgraph/src/nouns-erc-721.ts:79-97 | The handler takes the store to what the vote-change function says, with the governance copy loaded before a delegate may be created |
| `DelegatedVotes.VotesChangedExact` | packages/nouns-subgraph/src/nouns-erc-721.ts:79-97 | `delegatedVotes` stays the sum over the delegates and `currentDelegates` the number of positive ones if and only if the event names the recorded balance and one of its two balances is positive |
| `ContractRuns.ContractRunExact` | packages/nouns-subgraph/src/nouns-erc-721.ts:39-213 | In any run of events as the token contract emits them the index is right all along, and every holder's recorded delegate is the contract's, if and only if no noun goes to its owner, no account gets its first noun while the contract has another delegate for it, and every delegation is by a holder, to another, and not to nobody; such runs are well formed |
| `ContractRuns.TokensExact` | packages/nouns-subgraph/src/nouns-erc-721.ts:39-213 | One event that the contract emits keeps both, if and only if it meets these conditions |
| `ContractRuns.TransferFollows` | packages/nouns-subgraph/src/nouns-erc-721.ts:194-202 | A transfer keeps the recorded delegates the contract's if and only if the receiver held a noun before or is its own delegate in the contract |
| `ContractRuns.DelegationFollows` | packages/nouns-subgraph/src/nouns-erc-721.ts:45-46 | A delegation does if and only if it is not to the zero address |
| `ContractRuns.RecordedIsContracts` | packages/nouns-contracts/contracts/base/ERC721Checkpointable.sol:88-91 | Then an account has a recorded delegate exactly when it has a balance, and it is the one the contract's `delegates` returns |
| `ContractRuns.StaleDelegate` | packages/nouns-contracts/contracts/base/ERC721Checkpointable.sol:197-203 | An account that delegated, sent its only noun away and got it back delegates again: the contract emits its old delegate, and the noun ends in two lists |
| `ContractRuns.StaleRun` | packages/nouns-contracts/contracts/base/ERC721Checkpointable.sol:197-203 | The same as a run of five events that the contract emits: it is not tame, and at its end the noun is in two lists |
| `Transactions.RecordedVotesAreNouns` | packages/nouns-contracts/contracts/base/ERC721Checkpointable.sol:100-107 | In tame runs of mints, transfers and delegations, with the vote events that each transaction emits: after each transaction a delegate's recorded votes are the number of nouns in its list, and the votes that the contract keeps for it |
| `Transactions.TransactionKeeps` | packages/nouns-contracts/contracts/base/ERC721Checkpointable.sol:205-229 | One transaction keeps that, and with it that every vote event names the recorded balance |
| `Transactions.TransactionsAreRuns` | packages/nouns-contracts/contracts/base/ERC721Checkpointable.sol:197-260 | The state after some transactions is that of the run of the events they emit |
| `Failures.MintedAgain` | packages/nouns-subgraph/src/nouns-erc-721.ts:117-119 | A noun that is minted again is listed for both its owners |
| `Failures.NotTheOwner` | packages/nouns-subgraph/src/nouns-erc-721.ts:121-125 | A sender that does not own the noun gets a balance of -1 |
| `Failures.WrongPrevious` | packages/nouns-subgraph/src/nouns-erc-721.ts:82-95 | A vote-balance change that names another balance than the recorded one makes the total differ from the sum |
| `Failures.SelfTransfer` | packages/nouns-subgraph/src/nouns-erc-721.ts:101-102 | A noun sent to its owner is listed twice |
| `Failures.SameDelegate` | packages/nouns-subgraph/src/nouns-erc-721.ts:41-42 | A delegate changed to itself represents the noun twice |
| `Failures.IdleAccountDelegates` | packages/nouns-subgraph/src/nouns-erc-721.ts:45-46 | An account without nouns delegates for the first time, as the contract lets it: it has a delegate and no balance |
| `Failures.ZeroToZero` | packages/nouns-subgraph/src/nouns-erc-721.ts:91-93 | A balance that stays 0 makes the number of delegates -1 |
| `Subgraph.Subgraph.GetOrCreateAccount` | packages/nouns-subgraph/src/utils/helpers.ts:12-33 | Loads the account, or creates an empty one and saves it |
| `Subgraph.Subgraph.GetOrCreateDelegate` | packages/nouns-subgraph/src/utils/helpers.ts:37-63 | Loads the delegate, or creates it, counting it on the stored governance entity unless it is the zero address |
| `Subgraph.Subgraph.GetOrCreateParams` | packages/nouns-subgraph/src/utils/helpers.ts:124-144 | Loads the quorum parameters and writes the start block as the parameter function says; over runs that is the block of the first parameter event (`ParamRuns.ParamsOverRun`) |
| `Subgraph.Subgraph.Dispatch` | packages/nouns-subgraph/src/nouns-erc-721.ts:39-213 | One event of any kind takes the store to the state machine's next state, or leaves it when the handler aborts |
| `Subgraph.Subgraph.Index` | packages/nouns-subgraph/src/nouns-dao.ts:55-222 | A list of events takes the store to what the run of the state machine says, and fails exactly when a handler of the run aborts |
| `Governor.VoteAbortsExact` | packages/nouns-subgraph/src/nouns-dao.ts:185-198 | A vote aborts if and only if its proposal was never created, or its quorum is dynamic and there is no supply or the basis points do not fit in 32 bits |
| `Quorum.NeverAbortsExact` | packages/nouns-subgraph/src/utils/dynamicQuorum.ts:11-16 | With no more votes against than supply the quorum is always defined, if and only if there is a supply and a hundredth of the coefficient plus the minimum fits in 32 bits, as for every 16-bit minimum and 32-bit coefficient |
| `Governor.VoteCastExact` | packages/nouns-subgraph/src/nouns-dao.ts:141-204 | Every tally of every proposal stays the sum of the stored votes with that support if and only if the vote the voter had on the proposal, if any, counts for nothing |
| `Governor.VotesCommute` | packages/nouns-subgraph/src/nouns-dao.ts:177-203 | Two votes on a proposal give the same proposal in either order, also when one aborts |
| `Governor.CreatedConservesExact` | packages/nouns-subgraph/src/nouns-dao.ts:83-85 | A created proposal starts with right tallies if and only if no stored vote on its id counts for anything, as for every new id |
| `VoteRuns.StepsCommute` | packages/nouns-subgraph/src/nouns-dao.ts:141-204 | Two votes by different voters, or on different proposals, take the whole store to the same store in either order |
| `VoteRuns.VotesInAnyOrder` | packages/nouns-subgraph/src/nouns-dao.ts:141-204 | Any permutation of any list of votes, one per voter and proposal, takes the store to the same store, or aborts as well |
| `VoteRuns.QuorumFromCreation` | packages/nouns-subgraph/src/nouns-dao.ts:92-98 | From a proposal's creation over any run: if the parameters had started in an earlier block and it has been voted on, its quorum is the floor of supply * min(maximum, coefficient * (against * 10000 / supply) / 10^6 + minimum) / 10000, with the supply and the parameters of the store at its creation and all votes against since; otherwise it is that of the creation event |
| `VoteRuns.QuorumOverRun` | packages/nouns-subgraph/src/nouns-dao.ts:185-198 | Over any run with non-decreasing blocks: whether a proposal uses the dynamic quorum is fixed when it is created, by whether the start block is earlier; its against tally is the sum of the votes against, and after the first vote its quorum is that floor of this tally under the parameters of its creation |
| `ParamRuns.QuorumFromEvents` | packages/nouns-subgraph/src/nouns-dao.ts:185-198 | The same in terms of the events alone: of the votes against since, under the nouns minted and not burned before, the minimum, maximum and coefficient set last before, if the first parameter event was in an earlier block |
| `ParamRuns.ParamsOverRun` | packages/nouns-subgraph/src/utils/helpers.ts:124-144 | After every run the start block is the block of the first parameter event, and absent before any; each of the three parameters is what the last event of its kind set, and 0 before |
| `VoteRuns.QuorumNeverFalls` | packages/nouns-subgraph/src/nouns-dao.ts:190-198 | After the first vote a stored dynamic quorum never falls, whatever parameter changes come |
| `Quorum.QuorumMonotone` | packages/nouns-subgraph/src/utils/dynamicQuorum.ts:4-19 | More votes against or larger parameters never lower the quorum, and what is computed for the larger is computed for the smaller |
| `Quorum.QuorumCapped` | packages/nouns-subgraph/src/utils/dynamicQuorum.ts:16-18 | The quorum is at most the floor of the maximum's share of the supply |
| `Quorum.RoundingBound` | packages/nouns-subgraph/src/utils/dynamicQuorum.ts:11-18 | The quorum is never above the exact rational quorum, and below it by less than 1 + supply * (1 + coefficient / 10^6) / 10000 |
| `VoteRuns.CreatedRecord` | packages/nouns-subgraph/src/nouns-dao.ts:71-100 | A created proposal records its event's blocks and quorum, no votes, and the supply and parameters of the store |
| `StateRuns.RecordFromEvents` | packages/nouns-subgraph/src/nouns-dao.ts:55-100 | Over any run since its creation a proposal has its proposer and blocks, the tallies of the votes cast since, is active if it was created in or after its start block or has been voted on and pending otherwise, and has an ETA only if it had one when it was created again |
| `Counters.VoteFromEvents` | packages/nouns-subgraph/src/nouns-dao.ts:141-175 | A stored vote is the last that its voter cast on the proposal: its support, votes and block, and the nouns that the voter represented then |
| `Counters.CountersAfterEveryRun` | packages/nouns-subgraph/src/nouns-dao.ts:117-139 | After every run `proposals` counts the ids created, `proposalsQueued` the queue events less the executions, and a delegate's `tokenHoldersRepresentedAmount` the delegate changes to it less those away from it to another |
| `Counters.EverHeldAfterEveryRun` | packages/nouns-subgraph/src/nouns-erc-721.ts:186-189 | After every run an account has held in total as many nouns as were transferred to it |
| `Counters.TotalDelegatesAfterEveryRun` | packages/nouns-subgraph/src/utils/helpers.ts:53-58 | After every well-formed run `totalDelegates` counts the delegates that a delegate change, a proposal or a vote was the first to name; those that a transfer or a change of votes brought are never counted, because a copy that was loaded before is saved after |
| `Subgraph.Subgraph.HandleProposalCreated` | packages/nouns-subgraph/src/nouns-dao.ts:55-101 | The handler writes the proposal with its supply and parameter snapshot; an old ETA stays |
| `Subgraph.Subgraph.SetStatus` | packages/nouns-subgraph/src/nouns-dao.ts:103-115 | Cancel and veto: the status changes; a proposal never created aborts the handler |
| `Subgraph.Subgraph.HandleProposalQueued` | packages/nouns-subgraph/src/nouns-dao.ts:117-127 | The proposal is queued with its ETA and counted |
| `Subgraph.Subgraph.HandleProposalExecuted` | packages/nouns-subgraph/src/nouns-dao.ts:129-139 | The proposal is executed, its ETA cleared and the queue counted down |
| `Subgraph.Subgraph.HandleVoteCast` | packages/nouns-subgraph/src/nouns-dao.ts:141-204 | The handler takes the store to what the vote function says, or leaves it as it was when it aborts; what that stores is said over runs by `ParamRuns.QuorumFromEvents`, `StateRuns.RecordFromEvents` and `Counters.VoteFromEvents` |
| `Subgraph.Subgraph.HandleParamSet` | packages/nouns-subgraph/src/nouns-dao.ts:206-222 | One parameter is set, and the start block if it was not, as the parameter function says; over runs `ParamRuns.ParamsOverRun` says to what |
| `Failures.Revote` | packages/nouns-subgraph/src/nouns-dao.ts:177-183 | A voter who votes twice is tallied twice and stored once |
| `Failures.CreatedAgain` | packages/nouns-subgraph/src/nouns-dao.ts:55-88 | A queued proposal that is created again keeps its ETA, and is active for ever once carried |
| `Verdict.VerdictAfterEveryRun` | packages/nouns-webapp/src/wrappers/nounsDao.ts:352-366 | In every state that a well-formed run reaches, a pending or active proposal whose vote is over is succeeded or defeated as the voters decided, and nothing else |
| `StateRuns.CreatedFromEvents` | packages/nouns-webapp/src/wrappers/nounsDao.ts:342-366 | A proposal whose last status event is its creation, after any run: undetermined at an unknown block, pending up to its start block if it was created before that and nobody has voted, active up to its end block, then defeated without a majority or a quorum of the votes since, and otherwise succeeded, or active for ever if it was queued before |
| `StateRuns.QueuedFromEvents` | packages/nouns-webapp/src/wrappers/nounsDao.ts:367-376 | A proposal that was queued last, with an ETA in seconds, is queued until 14 days after it and expired from then on, at any block |
| `StateRuns.ClosedFromEvents` | packages/nouns-webapp/src/wrappers/nounsDao.ts:342-377 | A proposal that was cancelled, vetoed or executed last shows that at any block and time |
| `Verdict.UndeterminedExact` | packages/nouns-webapp/src/wrappers/nounsDao.ts:343-371 | The state is undetermined if and only if a pending or active record meets an unknown block, or a queued one an unknown time or no ETA |
| `Verdict.StateAdvances` | packages/nouns-webapp/src/wrappers/nounsDao.ts:337-378 | For a fixed record the derived state never moves backwards as block and time advance |
| `LogKeys.StableExact` | packages/nouns-webapp/src/utils/logParsing.ts:17-42 | Parsing a key and printing it again gives the key if and only if it has one colon and no empty topic after it |
| `LogKeys.FilterStableExact` | packages/nouns-webapp/src/utils/logParsing.ts:17-42 | The logs fetched for a filter land under the key that asked for them if and only if the filter has a topic, no part holds a colon, and no part between dashes is empty |
| `LogKeys.NormalIsStable` | packages/nouns-webapp/src/utils/logParsing.ts:17-42 | Whatever the key, the key it leads to is stable: printing after parsing is idempotent |
| `LogKeys.CleanFilterIsStable` | packages/nouns-webapp/src/utils/logParsing.ts:17-42 | Filters of nonempty parts without separators, with at least one topic, are stable |
| `LogKeys.FilterRoundTripExact` | packages/nouns-webapp/src/utils/logParsing.ts:17-42 | A filter is read back from its key if and only if it has no first block, an address that is absent or neither empty nor with a colon, and at least one topic, each a text of its own or two or more alternatives without separators |
| `LogKeys.NoTopics` | packages/nouns-webapp/src/utils/logParsing.ts:17-23 | A filter without topics asks under one key and is answered under another |
| `LogCache.ResultsNeverOlder` | packages/nouns-webapp/src/state/slices/logs.ts:26-80 | Under any sequence of actions a key stays, and the block number of its results never decreases |
| `LogCache.ResultsExact` | packages/nouns-webapp/src/state/slices/logs.ts:46-75 | Over any run a key's results are, with their logs, the newest that were delivered since somebody first listened; of one block the last |
| `LogCache.NeedsFetchExact` | packages/nouns-webapp/src/state/updaters/logs.ts:17-33 | Over any run a key needs a fetch in a block if and only if somebody listens, the last fetch for it was dispatched in an earlier block, and every answer is of an earlier block |
| `LogCache.PassExact` | packages/nouns-webapp/src/state/updaters/logs.ts:17-40 | After a pass of the updater a key still needs a fetch if and only if it needed one and is not stable |
| `LogCache.NeverServedExact` | packages/nouns-webapp/src/state/updaters/logs.ts:17-78 | Over runs in which fetches are the updater's and logs arrive for what it dispatched: a key never gets a result, in any run, if and only if it is not stable |
| `LogCache.UnstableUntouched` | packages/nouns-webapp/src/state/updaters/logs.ts:17-78 | Nor is a fetch ever recorded for such a key |
| `LogCache.RefetchedForever` | packages/nouns-webapp/src/state/updaters/logs.ts:17-40 | So a filter without topics, as long as somebody listens, needs a fetch in every block of every such run |
| `LogCache.Ranges` | packages/nouns-webapp/src/state/updaters/logs.ts:42-51 | The range loop ends, with the ranges that the two theorems below are about |
| `LogCache.BlocksAsked` | packages/nouns-webapp/src/state/updaters/logs.ts:44-51 | Every block from the first to the last is asked for and no other; once, except the blocks at which two ranges meet, which are asked for twice |
| `LogCache.RangesTouch` | packages/nouns-webapp/src/state/updaters/logs.ts:44-51 | Consecutive ranges share exactly one block |
| `LogCache.LogsSlice.HandleFetchingLogs` | packages/nouns-webapp/src/state/slices/logs.ts:34-45 | The loop marks the listed keys that exist, and no others |
| `LogCache.LogsSlice.HandleFetchedLogs` | packages/nouns-webapp/src/state/slices/logs.ts:46-60 | Results are stored unless the key is gone or has newer ones |
| `LogCache.LogsSlice.HandleFetchedLogsError` | packages/nouns-webapp/src/state/slices/logs.ts:61-75 | A failed fetch is stored as results without logs, on the same condition |
| `Auction.HighestAndEarliest` | packages/nouns-webapp/src/state/slices/auction.ts:48-86 | After any arrivals, with repeats: the amount is the highest value of the noun's bids and the bidder the sender of the earliest arrival of that value; with no bid for the noun the auction is as it was |
| `Auction.ActiveAuctionShown` | packages/nouns-webapp/src/state/slices/auction.ts:69-98 | After any actions, an auction that becomes active, and any actions on it: noun and start are its own, the end is the last it was extended to, it is settled if it was since, and amount and bidder are those of the last settlement, or of its bids if one was stored later or it was not settled |
| `Auction.UnsettledShown` | packages/nouns-webapp/src/state/slices/auction.ts:69-86 | So until it is settled the highest bid since it became active is shown with the earliest sender of it, and without one nothing and nobody |
| `Auction.SettlementShown` | packages/nouns-webapp/src/state/slices/auction.ts:87-93 | Once settled it stays so; the last settlement's winner and amount are shown as long as no more bids are stored, and from then on what the bids come to as if there had been no settlement |
| `Auction.LateBid` | packages/nouns-webapp/src/state/slices/auction.ts:78-86 | A bid that arrives after the settlement is shown in place of the winner |
| `Auction.FullAuctionShown` | packages/nouns-webapp/src/state/slices/auction.ts:74-98 | The same of a full auction, which starts as it is given, over the bids that are stored |
| `Auction.BidsKept` | packages/nouns-webapp/src/state/slices/auction.ts:78-86 | The stored bids are those that arrived for the active noun, one for each transaction |
| `Auction.ArrivalOrderExact` | packages/nouns-webapp/src/state/slices/auction.ts:48-86 | When one transaction is one bid: every arrival of the same bids, in any order and with any repeats, ends with the same auction, if and only if all the highest bids on the noun are one sender's |
| `Auction.ArrivalOrderDoesNotMatter` | packages/nouns-webapp/src/state/slices/auction.ts:78-86 | So the order never matters for bids of distinct values |
| `Auction.TieGoesToTheFirst` | packages/nouns-webapp/src/state/slices/auction.ts:48-52 | Two bids of one value by two senders: each order shows its first |
| `Auction.TidyRunExact` | packages/nouns-webapp/src/state/slices/auction.ts:65-100 | Over any run of the five actions the stored bids belong to the active noun, one for each transaction, all along, if and only if each full auction is for the active noun or finds no bids |
| `Auction.FullAuctionExact` | packages/nouns-webapp/src/state/slices/auction.ts:74-77 | After `setFullAuction` the stored bids belong to the active noun if and only if the noun is the same or there are none |
| `Auction.StaleBid` | packages/nouns-webapp/src/state/slices/auction.ts:74-86 | A bid on one noun that stays when another noun's auction is set hides a lower bid on that noun |
| `Auction.AuctionSlice.Handle` | packages/nouns-webapp/src/state/slices/auction.ts:69-98 | Each reducer takes the slice to what its action's function says |
| `Auction.AuctionSlice.Append` | packages/nouns-webapp/src/state/slices/auction.ts:78-86 | The fold over the stored bids finds the bid that the theorems speak of |
| `Bots.AuctionsAnnouncedOnce` | packages/nouns-bots/src/index.ts:48-84 | Over any run of ticks the auctions announced as new are, in order, those whose id exceeds the cached one and every earlier tick's, and those announced as ending soon the same among the ticks less than 20 minutes before the end; so each is announced once |
| `Bots.AuctionNoticesExact` | packages/nouns-bots/src/index.ts:48-84 | Over any run of ticks all the notices about auctions, in order, are those that each tick calls for after the ones before it: the auction as new, its first bid if it is another than the latest, its end |
| `Bots.EachVoteOnce` | packages/nouns-bots/src/index.ts:94-128 | Over any run of ticks in which a proposal's votes only grow, each of its votes with positive weight that is not in its first cached snapshot is announced exactly once, and no other vote of it ever |
| `Bots.ProposalsAnnouncedOnce` | packages/nouns-bots/src/index.ts:94-128 | Over any run of ticks each proposal is announced as new exactly once when it is first cached, and its expiry is warned of at most once |
| `Bots.StatusAndExpiryExact` | packages/nouns-bots/src/index.ts:98-124 | Over any run of ticks a status is announced each time a known proposal is read with it after another, and an expiry once, when a known proposal is first read as queued and within two days of 14 days after its ETA |
| `Bots.NewVotesCount` | packages/nouns-bots/src/utils/proposals.ts:46-51 | One snapshot of distinct votes announces a vote once if it has weight and was not cached, and otherwise not |
| `Bots.NotificationBot.ProcessAuctionTick` | packages/nouns-bots/src/index.ts:48-84 | The tick takes cache and trace to what its function says |
| `Bots.NotificationBot.ProcessGovernanceTick` | packages/nouns-bots/src/index.ts:94-128 | The tick with its tasks one after the other, one of the schedules below, takes cache and trace to what its function says |
| `BotTasks.AnyTurns` | packages/nouns-bots/src/index.ts:94-128 | A governance tick as concurrent tasks, one for each proposal: whatever turns they take between their waits, once all have ended the caches are those of the proposals processed one after the other, and the same notices were given as often |
| `BotTasks.SevenTurnsEach` | packages/nouns-bots/src/index.ts:97-126 | A schedule that gives every task at least seven turns brings all to their end |
| `BotTasks.AnyTurnsInRuns` | packages/nouns-bots/src/index.ts:94-128 | The same over any run of ticks, each with its own schedule |
| `BotTasks.AnnouncedOnceWhateverTheTurns` | packages/nouns-bots/src/index.ts:94-128 | So whatever the turns each vote is announced as often as it is due, and each proposal once |
| `BotTasks.AuctionsWhateverTheTurns` | packages/nouns-bots/src/index.ts:48-84 | And the notices about auctions are, in order, those that the ticks call for |
| `BotTasks.StatusWhateverTheTurns` | packages/nouns-bots/src/index.ts:94-128 | And statuses and expiries are announced as often as the readings call for |
| `BotTasks.TakeTurn` | packages/nouns-bots/src/index.ts:97-126 | One turn of one task, from one wait to the next, on the bot's caches |
| `BotTasks.RunTasks` | packages/nouns-bots/src/index.ts:94-128 | A tick run by a schedule ends, when all its tasks have, like the tick in order |
| `Seeds.CastExact` | packages/nouns-assets/src/utils.ts:78-85 | The text reads back as the shifted value modulo 16 to the digits kept if and only if at least one digit is kept and the shifted value prints on at least as many; any other call makes a text that is no number |
| `Seeds.CastIsShiftAndMask` | packages/nouns-assets/src/utils.ts:78-85 | For a size in whole digits the text denotes (value >> shift) mod 2^size if and only if that many even-padded digits are there |
| `Seeds.SeedOfWindows` | packages/nouns-assets/src/utils.ts:94-125 | A seed is made if and only if every part's count is positive and the hash, without the bits before the part, has the digits that the part needs; then part `i` is hash / 2^(i * size) mod 2^size mod its count |
| `Seeds.NoSeedOfSixParts` | packages/nouns-assets/src/utils.ts:109-125 | From a hash of 64 digits no seed of six parts or more is ever made: the sixth part starts at bit 240 |
| `Seeds.SmallValueFails` | packages/nouns-assets/src/utils.ts:83-84 | 5, not shifted, cast to 48 bits gives a text with two prefixes |

## Left out

- User interface, network, Redis, Twitter, Discord, IPFS, deployment and contract code: not modelled; the contracts appear only as the events they emit, and the token contract as the delegates it keeps. Its checkpoints by block are left out: the votes it keeps are the latest.
- The bots' clocks are parameters, their caches one value, their handlers a recorded trace. Two ticks do not overlap, although the timers of the source would start one while another waits; the tasks of one governance tick do.
- `SvgBuilder.BuildSVG`: takes parts on which its loop ends; on any other, one with columns and a run whose length is NaN, the source does not return. The SVG is a list of rectangles over a background, not its text; a rectangle whose `y` is NaN is not rendered, and the 320 by 320 viewport, outside which nothing is shown, is not modelled.
- `CollectionFormat.Format`: the insertion order of the images, and the order of the folders that `Object.entries` gives, are parameters. `writeToFile` is file output and not modelled.
- `Image.Image.Encode`: the `tuples` field misses the last run, as in the source; the run-length theorems are about the text.
- TransferEvent and DelegationEvent records, noun seeds, vote reasons, the boolean form of the support value, and a proposal's title, text, targets, values, threshold and transaction: written and never read by the handlers.
- `Subgraph.Subgraph.DebitSender` and `Subgraph.Subgraph.CreditReceiver`: the two branches for a balance that went down to above 0 from 0, or up to 0 from above, are dead and dropped.
- `Subgraph.Subgraph.HandleParamSet`: stands for the three handlers that set one parameter each; `Subgraph.Subgraph.SetStatus` stands for cancel and veto.
- Addresses, transaction hashes, noun and proposal ids are natural numbers, and a vote's id is the pair that the source joins with a dash.
- `VoteRuns.VotesInAnyOrder`: is about votes that reach the store one after the other with nothing in between; a transfer between two votes changes the nouns that the later vote records.
- `Auction`: amounts, addresses and hashes are numbers; the JSON form of big numbers is not modelled.
- `LogKeys.KeyToFilter`: takes texts with a colon, which every printed key has; on others the source throws. A filter's `fromBlock` is not part of a key and is lost, as in the source.
- `Seeds`: big numbers are natural numbers; shifting a negative one throws in the library, whose own code is not part of this model. The names of the parts and the encoded part data are left out.
- The colour-reduction scripts, `extractTitle`, and the bots' message texts: text formatting that would only add easy members.
