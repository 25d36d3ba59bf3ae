# DigitalRecipe ledger, modelled in Dafny

DigitalRecipe keeps recipes in a small proof-of-work blockchain. The model covers three parts of it.

**The ledger class (`blockchain.js`).** `RecipeBlockchain` does the following:
- it adopts a stored chain or mines a genesis block;
- `addRecipe` appends a recipe as a new block, sealed by searching for a nonce whose SHA-256 digest starts with `difficulty` zeros;
- `setOnchainData` attaches anchoring data to a block;
- `validateChain` and `verifyBlock` check every stored digest and every `previous_hash` link.

**The pure server helpers (`server.js`):**
- the check and clean-up of a POST body before it reaches `addRecipe`;
- the anchoring fingerprint;
- the mapping from a validation result to the HTTP status and body of the verify and validate routes.

**The pure client helpers (`client/src/App.jsx`):**
- splitting the ingredient and step boxes into lists;
- the check made before submitting;
- the search filter.

Files:

| file | module | contents |
|---|---|---|
| `common.dfy` | `Common` | `Option`, `Result` |
| `jstext.dfy` | `JsText` | `String.prototype.trim`, `.filter(Boolean)` after trimming, decimal printing of integers, ASCII `toLowerCase`, `includes` |
| `keysort.dfy` | `KeySort` | `Array.prototype.sort` on strings: sorted, a permutation, and the only sorted permutation |
| `json.dfy` | `Json` | `JSON.stringify` with a PropertyList (key list) and an indent, and lemmas about what the text depends on |
| `blockchain.dfy` | `Blockchain` | blocks, the sealing digest, mining, validation, and the `RecipeBlockchain` class |
| `server.dfy` | `Server` | the POST body check, `fingerprintRecipe`, the verify and validate routes |
| `client.dfy` | `Client` | `parseList`, `parseSteps`, the submit check, `filteredRecipes` |

How SHA-256 is handled:
- SHA-256 is a parameter: any function from text to 64 lowercase hex digits.
- The class stores `calculateHash` as the function value `Recompute(sha256)`.
- Validation and mining are stated for any digest function `hashOf`.
- Facts specific to `calculateHash` are therefore proved once, about the digest input `HashInput`. Examples: the stored `hash` does not enter the digest, and the contents of `onchain` do not either.
- That the order in which an object's members were created does not reach the text is proved for any object printed under its own sorted key list (`Json.SortedKeysFixOrder`). It is not restated for `HashInput`: a block is a record here, so its members always come in one order.

How the class is modelled:
- `RecipeBlockchain` is a Dafny class.
- The chain is a `seq<Block>` field that the methods reassign.
- `persisted` is a ghost field that records what was last written to the storage file.
- `mineBlock`'s nonce search is a `while` loop proved against `SealedFrom`. `SealedFrom` says the chosen nonce is the least one at or above the block's own that seals it.
- `validateChain` is a `for` loop proved equal to the function `ValidationReport`.
- `ValidationReport` is characterised by lemmas. It is valid exactly when every block is sound. Otherwise it reports the lowest faulty block, with the source's exact message.

## Model

| member | source | states |
|---|---|---|
| `JsText.Trim` | DigitalRecipe/server.js:100-103 | `trim()` leaves no JavaScript whitespace or line terminator at either end of its result. The result is empty exactly when the input is all whitespace, and text that is already trimmed comes back unchanged. |
| `JsText.TrimIsSlice` | DigitalRecipe/server.js:100-103 | `trim()` cuts only whitespace: its input is a run of whitespace, then the result, then another run of whitespace. |
| `JsText.Tidy` | DigitalRecipe/server.js:101-102 | Trimming each item and dropping the empty ones leaves only non-empty, trimmed items, never more than the input had. |
| `JsText.TidyOne` | DigitalRecipe/server.js:101-102 | One piece becomes its trim, or nothing when it is blank. With `TidyAppend` this fixes the result on every list: the trims of the non-blank pieces, in order. |
| `JsText.TidyAppend` | DigitalRecipe/server.js:101-102 | Trim-and-filter works item by item across a concatenation, so it keeps the order of the items. |
| `JsText.TidyKeepsCleanPieces` | DigitalRecipe/client/src/App.jsx:16-17 | A list whose items are already non-empty and trimmed passes through trim-and-filter unchanged. |
| `JsText.TidyIdempotent` | DigitalRecipe/client/src/App.jsx:16-17 | Trimming and filtering twice equals doing it once. |
| `JsText.Dec` | DigitalRecipe/blockchain.js:104 | `${i}` of a non-negative integer is a non-empty run of decimal digits without a leading zero. |
| `JsText.Lower` | DigitalRecipe/client/src/App.jsx:111 | `toLowerCase` keeps the length and lowercases each character. |
| `JsText.Includes` | DigitalRecipe/client/src/App.jsx:112 | The empty needle is always included, a needle longer than the text never is, and a prefix always is. |
| `JsText.DecRoundTrip` | DigitalRecipe/blockchain.js:104 | The decimal text of a block number reads back as that number. |
| `JsText.DecInjective` | DigitalRecipe/blockchain.js:109 | Different block numbers print differently, so the fault messages name distinct blocks. |
| `KeySort.SortSorted` | DigitalRecipe/blockchain.js:56 | `Object.keys(block).sort()` is in ascending code-unit order. |
| `KeySort.Sort` | DigitalRecipe/blockchain.js:56 | Sorting keeps exactly the same keys, as a multiset. |
| `KeySort.SortedUnique` | DigitalRecipe/blockchain.js:56 | Two sorted lists of the same keys are equal. |
| `KeySort.SortIgnoresOrder` | DigitalRecipe/blockchain.js:56 | The sorted key list depends only on which keys there are, not on the order they were added in. |
| `Json.Lookup` | DigitalRecipe/server.js:87 | Reading a property finds a value exactly when the object has that key, and the value is one of its members. |
| `Json.LookupFindsMember` | DigitalRecipe/server.js:87 | In an object with distinct keys, reading `k` gives `v` exactly when `k: v` is a member. |
| `Json.Serialize` | DigitalRecipe/blockchain.js:56 | An object prints between `{` and `}`, an array between `[` and `]`, and a string between double quotes. |
| `Json.Stringify` | DigitalRecipe/server.js:38-48 | At the top level an object prints between `{` and `}` and an array between `[` and `]`. |
| `Json.SerializeWithoutAbsent` | DigitalRecipe/blockchain.js:51-56 | A key the value never mentions can be dropped from the PropertyList without changing the text. |
| `Json.SortedKeysFixOrder` | DigitalRecipe/blockchain.js:56 | Stringified under its own sorted key list, an object gives the same text whatever order its members were created in. |
| `Json.AppendedMemberShows` | DigitalRecipe/blockchain.js:56 | Adding a member whose key enters the key list just before a key with another initial letter changes the compact text. |
| `Blockchain.TimestampText` | DigitalRecipe/blockchain.js:33 | `Date.now() / 1000` prints as the whole seconds, then, when the milliseconds are not zero, a point and at most three digits without trailing zeros. Padded back to three digits, those digits read as the milliseconds. |
| `Blockchain.HashableBlock` | DigitalRecipe/blockchain.js:50-53 | `hashableBlock` is an object without a `hash` key, and every other property reads as on the block. |
| `Blockchain.HashInput` | DigitalRecipe/blockchain.js:55-56 | The digest input is the text of a JSON object: it opens with `{` and closes with `}`. |
| `Blockchain.CalculateHash` | DigitalRecipe/blockchain.js:55-58 | The digest is SHA-256 of `HashInput`, 64 lowercase hex digits. Its properties are stated by `HashIgnoresStoredHash` and `AnchorChangesHashInput`. |
| `Blockchain.Recompute` | DigitalRecipe/blockchain.js:102 | The digest function the ledger uses, `block => this.calculateHash(block)`. Its properties are stated by `RecomputeIgnoresSeal` and `RecomputeIgnoresAnchorData`. |
| `Blockchain.HashInputIgnoresSeal` | DigitalRecipe/blockchain.js:50-58 | Because `hashableBlock` drops `hash` and the key list then names an absent property, the digest input of a sealed block is that of the unsealed block. |
| `Blockchain.HashIgnoresStoredHash` | DigitalRecipe/blockchain.js:50-58 | Blocks that differ only in `hash` get the same recomputed digest. |
| `Blockchain.HashInputIgnoresOnchainContents` | DigitalRecipe/blockchain.js:56 | The anchoring object prints as `{}` under the block's key list, so its contents never reach the digest input. |
| `Blockchain.HashInputDeterminedBy` | DigitalRecipe/blockchain.js:50-58 | The digest input is fixed by the fields other than `hash` and `onchain`, together with whether `onchain` is present. |
| `Blockchain.AnchorChangesHashInput` | DigitalRecipe/blockchain.js:55-58 | Attaching anchoring data to a block without any changes its digest input, because `onchain` joins the key list and prints as `"onchain":{}`. |
| `Blockchain.RecomputeIgnoresSeal` | DigitalRecipe/blockchain.js:55-58 | As a function value, `calculateHash` ignores the stored hash. |
| `Blockchain.RecomputeIgnoresAnchorData` | DigitalRecipe/blockchain.js:55-58 | Two anchored forms of a block have the same digest. |
| `Blockchain.Clamp` | DigitalRecipe/blockchain.js:8 | `Math.max(1, difficulty)` is at least 1 and at least `difficulty`. It equals `difficulty` when that is already at least 1, and 1 otherwise. |
| `Blockchain.NoSealAbove64` | DigitalRecipe/blockchain.js:60-69 | With a difficulty above 64, no nonce seals any block, because a digest has only 64 characters. The mining loop then never ends. |
| `Blockchain.SealedBlockChecks` | DigitalRecipe/blockchain.js:60-69 | A block sealed by mining carries its own digest and meets the difficulty. |
| `Blockchain.FirstFaultFrom` | DigitalRecipe/blockchain.js:100-111 | The scan from block `i` finds the lowest faulty block at or after `i`, or reports that there is none. |
| `Blockchain.ValidationReport` | DigitalRecipe/blockchain.js:99-113 | The result is valid exactly when every block's digest matches and every link matches. It then reads "Chain is valid". Otherwise the message names the lowest faulty block: a hash mismatch at `i`, or a previous-hash mismatch between `i-1` and `i`. |
| `Blockchain.VerifyReport` | DigitalRecipe/blockchain.js:115-125 | An out-of-range index gives "Block not found". A block whose digest does not match gives "Block hash has been tampered with". Otherwise the result is that of `validateChain`. It is valid exactly when the index is in range and the chain is sound. |
| `Blockchain.TamperedBlockReported` | DigitalRecipe/blockchain.js:99-125 | Verifying a block whose digest does not match reports tampering, whatever the blocks before it are. When the blocks before it are also sound, validation reports a hash mismatch at that block. |
| `Blockchain.WellFormedValidates` | DigitalRecipe/blockchain.js:99-113 | A chain whose blocks are numbered, sealed, linked and meet the difficulty validates. |
| `Blockchain.AppendKeepsWellFormed` | DigitalRecipe/blockchain.js:71-87 | Appending a mined block built from the last block keeps the chain well formed. |
| `Blockchain.AnnotatedBlockReported` | DigitalRecipe/blockchain.js:89-113 | After annotation, when the block's recomputed digest no longer matches, validation reports a hash mismatch at that block. |
| `Blockchain.AnnotationBreaksValidation` | DigitalRecipe/blockchain.js:89-113 | Unless SHA-256 collides on the two digest inputs, annotating a block of a well-formed chain for the first time makes `validateChain` report that block. |
| `Blockchain.RecomputeAnchorFreeIgnoresAnchor` | DigitalRecipe/blockchain.js:50-58 | The corrected digest ignores both the stored hash and any anchoring data. |
| `Blockchain.RecomputeAnchorFreeAgrees` | DigitalRecipe/blockchain.js:55-58 | The corrected digest equals `calculateHash` on every block without anchoring data, so existing chains stay valid. |
| `Blockchain.AnnotationKeepsWellFormed` | DigitalRecipe/blockchain.js:89-97 | With a digest that ignores anchoring data, annotating any block keeps the chain well formed. |
| `Blockchain.RecipeBlockchain.constructor` | DigitalRecipe/blockchain.js:6-11 | The difficulty is `Math.max(1, difficulty)`. A non-empty stored array is adopted verbatim. Otherwise the chain is one genesis block, mined from the fixed genesis template and well formed. |
| `Blockchain.RecipeBlockchain.LoadChain` | DigitalRecipe/blockchain.js:13-28 | A non-empty parsed array becomes the chain. Otherwise the chain is a freshly mined genesis block, and it is persisted. |
| `Blockchain.RecipeBlockchain.CreateGenesisBlock` | DigitalRecipe/blockchain.js:30-43 | The genesis block has index 0, the fixed title, lists and creator, and sixty-four zeros as `previous_hash`. It is sealed with the least sufficient nonce and carries its own digest. |
| `Blockchain.RecipeBlockchain.MineBlock` | DigitalRecipe/blockchain.js:60-69 | The returned nonce is the first one at or above the block's own whose digest starts with `difficulty` zeros. The returned hash is that digest. |
| `Blockchain.RecipeBlockchain.AddRecipe` | DigitalRecipe/blockchain.js:71-87 | The chain grows by exactly the returned block. That block has the next index, links to the last block's hash, is sealed from the recipe with the least sufficient nonce, and carries its digest. A well-formed chain stays well formed. |
| `Blockchain.RecipeBlockchain.SetOnchainData` | DigitalRecipe/blockchain.js:89-97 | An index outside the chain gives the error "Block N not found" and changes nothing. Otherwise only that block's `onchain` changes, its stored hash is kept, the block is returned and the chain is persisted. |
| `Blockchain.RecipeBlockchain.ValidateChain` | DigitalRecipe/blockchain.js:99-113 | The loop returns exactly `ValidationReport` of the current chain. |
| `Blockchain.RecipeBlockchain.VerifyBlock` | DigitalRecipe/blockchain.js:115-125 | Returns exactly `VerifyReport` of the current chain and index. |
| `Blockchain.RecipeBlockchain.ToJSON` | DigitalRecipe/blockchain.js:127-129 | Returns the chain itself. |
| `Blockchain.BuildAndValidate` | DigitalRecipe/blockchain.js:6-113 | A ledger started without a stored file and grown only by `addRecipe` validates as "Chain is valid". |
| `Server.Sanitize` | DigitalRecipe/server.js:87-108 | "Missing required fields" exactly when the title or creator is not a string, or the ingredients or steps are not a non-empty array. Otherwise, when stringifying a list item throws, the handler's catch answers 500 "Internal server error". Otherwise the title and creator are trimmed and the list items are stringified, trimmed and filtered. A well-typed body is accepted exactly when the cleaned title, creator, ingredients and steps are all non-empty; otherwise the answer is "All fields must be non-empty". Whatever passes is clean. |
| `Server.ToJsString` | DigitalRecipe/server.js:101-102 | `String(item)` throws exactly when the item is an object with its own `toString` key, or an array holding such an item at any depth. Otherwise `null` is "null", a boolean is "true" or "false", a number is its own text, a string is itself, any other object is "[object Object]", an empty array is empty and a one-string array is that string. |
| `Server.ToJsStringOfStrings` | DigitalRecipe/server.js:101-102 | An array of any number of strings prints as those strings joined by commas. |
| `Server.CleanItems` | DigitalRecipe/server.js:101-102 | The map throws exactly when some item's `String` throws. Otherwise the cleaned list has only non-empty, trimmed items, never more than the array had. |
| `Server.CleanItemsOne` | DigitalRecipe/server.js:101-102 | A single item cleans to the trim of its `String`, or to nothing when that is blank; it fails exactly when its `String` throws. |
| `Server.CleanItemsAppend` | DigitalRecipe/server.js:101-102 | Cleaning works item by item: the cleaned concatenation is the cleaned first part followed by the cleaned second part, and it fails when either part fails. With `CleanItemsOne` this fixes the whole result: each item trimmed, blank ones dropped, order kept. |
| `Server.CleanItemsOfStrArray` | DigitalRecipe/server.js:101-102 | An array of strings cleans to the trims of its non-blank strings, in their order. |
| `Server.OwnToStringThrows` | DigitalRecipe/server.js:99-119 | A body whose ingredient is `{"toString":1}`, alone or inside an array, gets the 500 reply "Internal server error". |
| `Server.CleanBodyAccepted` | DigitalRecipe/server.js:87-108 | A body carrying a clean recipe passes the check unchanged. |
| `Server.SanitizeIdempotent` | DigitalRecipe/server.js:99-108 | Sanitising the body of an accepted recipe again gives the same recipe. |
| `Server.FingerprintObject` | DigitalRecipe/server.js:38-48 | The object the fingerprint prints has exactly the keys `index, title, ingredients, steps, creator, timestamp`, then `previous_hash` and `hash` when the block has them, in that order; so neither `nonce` nor `onchain`. |
| `Server.FingerprintShowsBlockFields` | DigitalRecipe/server.js:38-48 | Every property the fingerprint prints has the value the block itself holds under that key. |
| `Server.Fingerprint` | DigitalRecipe/server.js:35-54 | The fingerprint is `0x` followed by 64 lowercase hex digits. What it commits to is stated by the `FingerprintObject` rows and `FingerprintIgnoresNonceAndAnchor`. |
| `Server.FingerprintIgnoresNonceAndAnchor` | DigitalRecipe/server.js:38-48 | The fingerprint does not depend on the nonce or the anchoring data. |
| `Server.ReportReply` | DigitalRecipe/server.js:128-130 | The status is 200 exactly when the result is valid and 400 otherwise, and the body repeats `valid` and `message`. |
| `Server.VerifyRoute` | DigitalRecipe/server.js:123-131 | A NaN index gives 400 "Invalid index". Otherwise the reply is `verifyBlock`'s result, and it is 200 exactly when the index is in range and the chain is sound. |
| `Server.ValidateRoute` | DigitalRecipe/server.js:133-137 | The reply is 200 exactly when the chain is sound and carries `validateChain`'s message. |
| `Client.Split` | DigitalRecipe/client/src/App.jsx:13-23 | Splitting always yields at least one piece. |
| `Client.SplitJoin` | DigitalRecipe/client/src/App.jsx:13-23 | Items without separators, joined by a separator, split back into exactly those items. |
| `Client.ParseList` | DigitalRecipe/client/src/App.jsx:13-17 | Every parsed ingredient is non-empty and trimmed. |
| `Client.ParseSteps` | DigitalRecipe/client/src/App.jsx:19-23 | Every parsed step is non-empty and trimmed. |
| `Client.ParseListJoin` | DigitalRecipe/client/src/App.jsx:13-17 | Items typed separated by commas, or one per line, parse to the trims of the non-blank items, in order. Clean items come back exactly. |
| `Client.ParseStepsJoin` | DigitalRecipe/client/src/App.jsx:19-23 | Steps typed one per line parse to the trims of the non-blank steps, in order, commas included. Clean steps come back exactly. |
| `Client.SplitJoinCrlf` | DigitalRecipe/client/src/App.jsx:13-23 | Items without separators, joined by `\r\n`, split back into exactly those items: the `\r` goes with the line feed. |
| `Client.ParseListCrlfJoin` | DigitalRecipe/client/src/App.jsx:13-17 | Items typed on `\r\n` lines parse to the trims of the non-blank items, in order. |
| `Client.ParseStepsCrlfJoin` | DigitalRecipe/client/src/App.jsx:19-23 | Steps typed on `\r\n` lines parse to the trims of the non-blank steps, in order. |
| `Client.OneLineIsOneStep` | DigitalRecipe/client/src/App.jsx:19-23 | Text with no line feed is a single step, its trimmed self. |
| `Client.Submit` | DigitalRecipe/client/src/App.jsx:133-145 | The form is submitted exactly when the trimmed title and creator and both parsed lists are non-empty, and then the payload is sent. Otherwise the status reads "Please fill in every field before submitting.". |
| `Client.SubmitAgreesWithServer` | DigitalRecipe/client/src/App.jsx:133-145 | The server accepts a payload exactly when the client lets it be submitted, and it then stores it unchanged. |
| `Client.Haystack` | DigitalRecipe/client/src/App.jsx:111 | The lowercased "title creator" is the lowercased title, a space, and the lowercased creator. |
| `Client.Matching` | DigitalRecipe/client/src/App.jsx:110-113 | A recipe is kept exactly when its lowercased "title creator" includes the needle. |
| `Client.MatchingAppend` | DigitalRecipe/client/src/App.jsx:110-113 | The filter works recipe by recipe and keeps their order. |
| `Client.FilterRecipes` | DigitalRecipe/client/src/App.jsx:108-114 | A blank query shows every recipe. Otherwise exactly the recipes whose lowercased "title creator" includes the trimmed, lowercased query are shown, in order. |

## Findings

| source | as written | input that shows it | evidently intended | confidence | as-written member | corrected member |
|---|---|---|---|---|---|---|
| DigitalRecipe/blockchain.js:55-58 | `calculateHash` keys the digest on every own property of the block. Once `setOnchainData` (line 94) adds `onchain`, that key enters the sorted key list and `"onchain":{}` enters the digest input. The stored hash then no longer matches. | Start the server with anchoring configured. POST a valid recipe: anchoring attaches `{dataHash, txHash}`, or `{dataHash, error}` when it fails. Then GET /api/chain/validate, which answers 400 "Hash mismatch at block N" unless SHA-256 collides on the two inputs. | Anchoring data is attached to an already-sealed block without invalidating it. The digest should leave `onchain` out, as it leaves out `hash`. | not executed | `Blockchain.AnnotationBreaksValidation` | `Blockchain.RecomputeAnchorFreeIgnoresAnchor` |

The server's own use shows the digest change is unintended. The POST handler (server.js:110-114) calls `setOnchainData` right after `addRecipe` whenever anchoring returns data, so every anchored block is annotated after it has been sealed. The server's own routes would then reject the ledger: GET /api/chain/validate (server.js:133-137) answers 400 "Hash mismatch at block N", and the verify route (server.js:123-131) answers "Block hash has been tampered with" for that block. The model keeps the code as written:
- the ledger class keeps `calculateHash` as written;
- `SetOnchainData` promises to keep the chain well formed only under a digest that ignores anchoring data (`IgnoresAnchor`);
- `RecomputeAnchorFree` is such a digest, and it agrees with `calculateHash` on unanchored blocks.

## Left out

- **File I/O.**
  - Reading and `JSON.parse` of the storage file become the parameter `stored`. `None` stands for a missing, unreadable or non-array file.
  - `persist` is recorded in the ghost field `persisted`, not written out.
  - The model does not check that a parsed array holds well-shaped blocks. Like the source, it adopts any non-empty array.
- **SHA-256** is a parameter, not computed. `AnnotationBreaksValidation` assumes it does not collide on the two specific digest inputs.
- **`Date.now()`** is a parameter `now`, in milliseconds. The stored timestamp is printed as `now / 1000` with up to three decimals. The model assumes the floating-point quotient prints that way.
- **Numbers and strings.**
  - JavaScript numbers are unbounded integers here.
  - Numbers that print in exponent form (1e21 and above) are not modelled.
  - Strings are sequences of code points, and key order is by code point. These differ from UTF-16 order only for characters outside the Basic Multilingual Plane, which no block key contains.
- **`toLowerCase`** is modelled for ASCII letters only.
- **JSON objects** with duplicate keys are not modelled: a lookup takes the first one.
- **Mining.**
  - `Blockchain.RecipeBlockchain.MineBlock`, `CreateGenesisBlock`, `AddRecipe` and the constructor require that some nonce at or above the block's own seals it. The source loops forever otherwise.
  - The nonce is unbounded, with no loss of precision beyond 2^53.
  - A difficulty above 64 can never be met (`NoSealAbove64`), so the source's constructor hangs for it. The model requires mineability instead of modelling the hang.
- **Aliasing.**
  - `mineBlock` mutates the nonce of the object it is given, and `setOnchainData` mutates the stored block that `addRecipe` returned.
  - Blocks are values here, so the returned block and the chain entry are not aliases of each other.
  - The model states the resulting chain, not the shared references.
- **The POST route's sequence after the check** is not modelled: `addRecipe`, then `anchorToSepolia`, then `setOnchainData`, then the 201 reply. Nor is the 500 reply on exceptions thrown after the check; the one thrown by `String(item)` during the check is modelled. The pieces are modelled separately:
  - `AddRecipe`;
  - `Fingerprint`;
  - the `Onchain` data;
  - `SetOnchainData`.
- **`anchorToSepolia`**, the ethers contract, environment variables, Express routing, static file serving and the React components and state are not modelled. They are I/O and UI.
- **`Server.VerifyRoute`** takes `Number(req.params.index)` already converted. `None` stands for NaN. Non-integer and infinite numbers are not modelled. `verifyBlock` treats an infinite index as out of range; a fractional index inside the range reads an `undefined` block and the handler throws.
- **`Server.ToJsString`** decides whether `String(item)` throws from the item's own keys. That is exact for parsed JSON, whose properties are never callable. The 500 reply is modelled as the rejection `Threw`; the logging of the error is not.
- Client.ParseList and Client.ParseSteps: their own contracts state only that every item is non-empty and trimmed. Which items come out is stated by `ParseListJoin`, `ParseStepsJoin`, `ParseListCrlfJoin` and `ParseStepsCrlfJoin` for text typed with one kind of separator. Text that mixes separators is covered only by the definition, which splits and then applies `Tidy`; `TidyOne` and `TidyAppend` fix `Tidy` completely.
- **Deployment scripts** (`scripts/`) are not part of this model.
