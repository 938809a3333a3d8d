# Proofs about the SignerOS signing appliance

SignerOS is an offline Bitcoin signer: a kiosk program that creates wallets, imports
recovery words, inspects PSBT files and signs them, and a script that writes and reads the
file formats it meets. This project models the parts of it that carry the safety argument
and proves what its documentation promises of them.

* **Codecs** (`Wire`, `Psbt`, `Reader`, `Regroup`, `Bech32`, `Address`, `Numerals`, `Base58`,
  `Der`): the writers and readers of transactions, BIP174 files, witness addresses, base58
  with a checksum, and DER signatures, as inverse pairs.
* **Secret text** (`SlotText`, `GridTest`, `SecureString`, `Grid`, `Mnemonics`): the fixed array edited in
  place that holds every secret, read as a list of slots and as a list of words, and the two
  fast passes over it.
* **The signing engine** (`Scripts`, `Outputs`, `Engine`, `PsbtEngine`, `WalletExport`,
  `Vsize`): a machine over load, key, clear, sign and export with a cached summary; the
  verdict on each output; 64-bit totals; the size estimate.
* **The screens** (`SecretBuffers`, `CreateWizard` and `CreateScreen`, `SignWizard` and
  `SignScreen`, `ImportGrid` and `ImportScreen`): each once as a pure machine, about which the
  laws over all sequences of events are proved, and once as a class that edits its fields and
  the shared buffers, each method proved to be a step of that machine.
* **The touchpad** (`Touchpad`, `TouchpadDevice`) and **the entropy pool** (`Entropy`), in the
  same two forms.

A loop or an object of the program is a method or a class here; what it computes is stated
with a pure function, and the laws are lemmas about that function. Cryptography and the
operating system appear as unknown functions; no hash is assumed to be injective. A screen that
makes an export makes it with the same function `WalletExports.ExportFrom` the export itself is
proved to compute.

## What turned out not to hold

Each of these is proved, with the exact condition where there is one.

* The DER decoder describes itself as strict but ignores bytes behind the second integer
  (`Der.TrailingByteAccepted`, `Der.StrictExactly`).
* "Word count equals slot count" does not always mean a complete grid
  (`GridTests.CompleteGridTestNeedsSpaces`, `GridTests.CompleteGridTestRight`).
* Totals are kept in 64 bits. The fee shown can be wrong by a multiple of 2^64
  (`Engine.WrappedFee`, `Engine.FeeExactly`), and a file whose outputs exceed its inputs by
  2^64 can be signed (`Engine.OverspendSigned`, `Engine.OverspendExactly`).
* Clearing the key does not restore the label of an output whose first key path entry is
  unreadable (`Engine.ClearingRestores`), and an export beside a loaded file leaves labels
  without a key (`Engine.ExportLeavesLabels`, `Engine.LabelsOutliveExactly`); neither can lead
  to a signature.
* The size estimate misses one weight unit for each legacy input among segregated ones and
  eight for a script signature of 253 bytes or more (`Vsize.MixedUndercounted`,
  `Vsize.LongScriptUndercounted`, `Vsize.MixedExactly`).
* A word suggestion can fill a cell after "Discard" (`CreateWizard.SuggestionOutlivesDiscard`,
  `CreateWizard.DiscardIsFinal`, `CreateWizard.LingersExactly`), and the save-as page of the
  import screen can show an empty export (`ImportGrid.EmptyExportReachesName`,
  `ImportGrid.EmptyExportExactly`); nothing can be written from either.
* "Delete word" takes more or less than a word when a line break is in the last stretch
  (`SecureText.WordBackspacedDropsStretch`).

## Model

| member | source | states |
|---|---|---|
| Wire.VarIntRead | scripts/make_test_data.py:437-444 | A count up to 2^64-1 reads back from its encoding, whatever bytes follow it. |
| Wire.TxRoundTrip | scripts/make_test_data.py:502-536 | Every transaction whose lengths fit 64 bits reads back from its serialisation as itself. |
| Wire.CountAgrees | scripts/make_test_data.py:673-703 | On any bytes, well formed or not, the counting pass and the parser see the same number of inputs and outputs; where counting fails, parsing fails. |
| PsbtWire.MapRead | scripts/make_test_data.py:639-671 | A key-value map, closed by its zero byte, reads back as its fields (a later duplicate key winning), whatever follows it. |
| PsbtWire.BodyRead | scripts/make_test_data.py:639-671 | Any file of maps, whatever fields they hold, reads back as those maps, one per input and output of its unsigned transaction. |
| PsbtWire.PsbtRoundTrip | scripts/make_test_data.py:572-709 | Parsing what the writer wrote returns the same unsigned bytes and exactly the written maps; those bytes parse to the same transaction, and the counting pass agrees with it. |
| Readers.Reader.Take | scripts/make_test_data.py:610-620 | Moves the cursor by n and returns the bytes passed over, or fails on a truncated input. |
| Readers.Reader.VarInt | scripts/make_test_data.py:622-630 | The moving reader computes the pure reader of the remaining bytes. |
| Readers.Reader.VarBytes | scripts/make_test_data.py:632-633 | The same for a counted byte string. |
| Readers.Reader.Eof | scripts/make_test_data.py:635-636 | Says whether nothing remains. |
| Readers.Reader.ReadFields | scripts/make_test_data.py:653-663 | The loop over a map collects the pure reader's fields and stops behind the map. |
| Readers.ParseTransaction | scripts/make_test_data.py:688-703 | The imperative parser equals the pure one on every input. |
| Readers.CountInputsOutputs | scripts/make_test_data.py:673-685 | The imperative counting pass equals the pure one on every input. |
| Readers.ParseFile | scripts/make_test_data.py:639-671 | The imperative file reader, base64 included, equals the pure one on every input. |
| Regroup.ConvertBits | scripts/make_test_data.py:305-318 | With padding the output denotes the input's number times 2^padding, padding under one output digit, all digits in range; without padding the leftover bits are dropped. For all widths. |
| Regroup.RegroupedLength | scripts/make_test_data.py:305-318 | The output has ceil(from*n/to) digits. |
| Regroup.RegroupedInjective | scripts/make_test_data.py:305-318 | For inputs of one length the output determines the input. |
| Regroup.RegroupedUnique | scripts/make_test_data.py:305-318 | Only one output meets that promise. |
| Polymod.ComputePolymod | scripts/make_test_data.py:290-298 | The loop with its five conditional feedback terms computes the register function the laws below are about. |
| Polymod.PolyLinear | scripts/make_test_data.py:290-298 | The register is linear over xor: what the symbols add does not depend on the state they meet. |
| Polymod.ChecksumHolds | scripts/make_test_data.py:290-337 | Appending the six computed symbols to any symbols steers the register to exactly the target constant. |
| Polymod.OneErrorDetected | scripts/make_test_data.py:290-298 | Changing one 5-bit symbol anywhere changes the final register value. |
| Address.Encode | scripts/make_test_data.py:321-337 | Every version below 32 yields an address whose data regroups the program and whose checksum verifies (1 for version 0, 0x2bc830a3 otherwise); later versions fail. |
| Address.SumsVerify | scripts/make_test_data.py:321-337 | Expanded prefix, data and computed symbols give exactly the constant of BIP173 or BIP350. |
| Address.WrittenDecodes | scripts/make_test_data.py:287-337 | The characters of an address decode to its symbols. |
| Address.AddressInjective | scripts/make_test_data.py:321-337 | An address text determines its prefix, its version and its program, of whatever length: its last '1' is the separator. |
| Address.OneWrongSymbol | scripts/make_test_data.py:290-337 | No valid address stays valid with one symbol changed. |
| Numerals.MinimalUnique | scripts/make_test_data.py:273-284 | A digit string without a leading zero is the one form the division loop produces of its number. |
| Numerals.MinimalDigits | scripts/make_test_data.py:273-284 | That form has digits in range, no leading zero, and the right value. |
| Base58.RebasedBack | scripts/make_test_data.py:273-284 | Changing base and changing back returns every digit string, leading zeros included. |
| Base58.WriteNumber | scripts/make_test_data.py:276-279 | The division loop writes the minimal base-58 form of any number. |
| Base58.CheckEncode | scripts/make_test_data.py:273-284 | The two loops write the payload and checksum rebased to 58. |
| Base58.OnesAreLeadingZeros | scripts/make_test_data.py:280-283 | The text opens with exactly one '1' for each leading zero byte. |
| Base58.CheckRoundTrip | scripts/make_test_data.py:273-284 | Every payload is read back from its text. |
| Base58.CheckInjective | scripts/make_test_data.py:273-284 | Two payloads with the same text are equal. |
| Der.Sig64ToDer | scripts/make_test_data.py:1106-1114 | The encoding of 64 bytes is 8 to 72 bytes long. |
| Der.RoundTrip | scripts/make_test_data.py:247-263 | Decoding the encoding of any 64 bytes returns them. |
| Der.StrictExactly | scripts/make_test_data.py:247-263 | An accepted input re-encodes to itself exactly when its two integers use it up and carry no superfluous byte. |
| Der.TrailingByteAccepted | scripts/make_test_data.py:247-249 | A concrete input with a trailing byte that the decoder accepts, although it calls itself strict. |
| SlotText.SlotsInjective | src/btc_signer_gui/src/core/secure_memory.cpp:273-302 | A text is determined by its slots. |
| SlotText.SlotsOfConcatenation | src/btc_signer_gui/src/core/secure_memory.cpp:273-302 | The slots of a concatenation are the two slot lists with the adjoining slots run together. |
| SlotText.SlotsOfJoin | src/btc_signer_gui/src/core/secure_memory.cpp:273-302 | Reading the slots of joined slots returns them. |
| SlotText.SpanReplaced | src/btc_signer_gui/src/core/secure_memory.cpp:366-412 | Writing over the span of one slot replaces that slot and no other. |
| GridTests.WordsBySlots | src/btc_signer_gui/src/core/secure_memory.cpp:158-173 | On every text the words are those of the slots, one slot after the other: no word reaches over a slot. |
| GridTests.CompleteGridExactly | src/btc_signer_gui/src/core/secure_memory.h:191-195 | On every text word count equals slot count exactly when the words that share a slot make up in number for the slots without a word. |
| GridTests.CompleteGridTestRight | src/btc_signer_gui/src/core/secure_memory.h:191-195 | So the test for a complete grid is right exactly when a full grid has as many surplus words as blank slots, and a grid with holes does not make up for all of them. |
| GridTests.CompleteGridTest | src/btc_signer_gui/src/core/secure_memory.h:191-195 | Where spaces are the only whitespace it is always right. |
| GridTests.CompleteGridTestNeedsSpaces | src/btc_signer_gui/src/core/secure_memory.h:191-195 | A concrete text with a tab for which the counts agree and a slot is empty. |
| SlotText.NormalisedKeepsWords | src/btc_signer_gui/src/core/secure_memory.cpp:202-228 | Normalising keeps the words and is idempotent. |
| SlotText.NormalisedFixedPoints | src/btc_signer_gui/src/core/secure_memory.cpp:202-228 | It is the identity exactly on the empty text and on full grids without other whitespace. |
| SecureText.SecureString.Append | src/btc_signer_gui/src/core/secure_memory.cpp:107-114 | Appends within capacity or refuses and changes nothing; every byte past the end stays zero (part of Valid, as in every row of this class). |
| SecureText.SecureString.AppendText | src/btc_signer_gui/src/core/secure_memory.cpp:116-127 | The same for a string. |
| SecureText.SecureString.Assign | src/btc_signer_gui/src/core/secure_memory.cpp:129-133 | Replaces the text, or leaves it empty when the new one does not fit. |
| SecureText.SecureString.Backspace | src/btc_signer_gui/src/core/secure_memory.cpp:135-140 | Drops the last character. |
| SecureText.SecureString.BackspaceWord | src/btc_signer_gui/src/core/secure_memory.cpp:142-150 | Drops trailing blanks, then the non-blanks before them. |
| SecureText.WordBackspacedDropsStretch | src/btc_signer_gui/src/core/secure_memory.cpp:142-150 | On every text the words that go are those of the last stretch without a space or a tab; exactly one goes exactly when that stretch is one word. |
| SecureText.WordBackspacedDropsLastWord | src/btc_signer_gui/src/core/secure_memory.cpp:142-150 | In a text without line breaks the last word goes. |
| SecureText.SecureString.Clear | src/btc_signer_gui/src/core/secure_memory.cpp:152-156 | Empties the text and zeroes the whole array. |
| SecureText.SecureString.WordCount | src/btc_signer_gui/src/core/secure_memory.cpp:158-173 | Counts the words. |
| SecureText.SecureString.TrailingWordLength | src/btc_signer_gui/src/core/secure_memory.cpp:175-187 | The length of the last stretch without whitespace. |
| SecureText.SecureString.NormaliseWhitespace | src/btc_signer_gui/src/core/secure_memory.cpp:202-228 | The in-place two-index pass leaves the words joined by single spaces and zeroes what it vacated. |
| SecureText.SecureString.InsertAt | src/btc_signer_gui/src/core/secure_memory.cpp:235-254 | Inserts in the middle by shifting, or refuses and changes nothing. |
| SecureText.SecureString.EraseAt | src/btc_signer_gui/src/core/secure_memory.cpp:256-271 | Erases in the middle by shifting and zeroes the vacated tail. |
| SecureText.SecureString.SlotCount | src/btc_signer_gui/src/core/secure_memory.cpp:273-281 | Counts the slots. |
| SecureText.SecureString.FindSlot | src/btc_signer_gui/src/core/secure_memory.cpp:283-302 | Finds the span of a slot, or reports that there is none. |
| SecureText.SecureString.CopySlot | src/btc_signer_gui/src/core/secure_memory.cpp:311-328 | Copies a slot, cut to the room there is, with its terminator. |
| SecureText.SecureString.SetSlotCount | src/btc_signer_gui/src/core/secure_memory.cpp:330-364 | Lays out the asked number of slots or refuses. |
| SecureText.SlotCountSetSlots | src/btc_signer_gui/src/core/secure_memory.cpp:330-364 | More slots are appended empty; fewer drop the ones past the new end; all others read as before. |
| SecureText.SecureString.AppendToSlot | src/btc_signer_gui/src/core/secure_memory.cpp:366-375 | Appends to a slot or refuses. |
| SecureText.AppendIsLocal | src/btc_signer_gui/src/core/secure_memory.cpp:366-375 | ...touching no other slot. |
| SecureText.SecureString.BackspaceInSlot | src/btc_signer_gui/src/core/secure_memory.cpp:377-384 | Drops the last character of a slot. |
| SecureText.BackspaceIsLocal | src/btc_signer_gui/src/core/secure_memory.cpp:377-384 | ...touching no other slot. |
| SecureText.SecureString.ClearSlot | src/btc_signer_gui/src/core/secure_memory.cpp:386-393 | Empties a slot. |
| SecureText.ClearIsLocal | src/btc_signer_gui/src/core/secure_memory.cpp:386-393 | ...touching no other slot. |
| SecureText.SecureString.SetSlot | src/btc_signer_gui/src/core/secure_memory.cpp:395-412 | Puts a word in a slot, or fails. |
| SecureText.SetIsLocal | src/btc_signer_gui/src/core/secure_memory.cpp:395-412 | ...touching no other slot; a word that does not fit leaves the slot empty, not unchanged. |
| SecureText.SecureString.FirstEmptySlot | src/btc_signer_gui/src/core/secure_memory.cpp:414-422 | Finds the first empty slot, or the slot count. |
| Grid.UnknownSlots | src/btc_signer_gui/src/core/psbt_engine.cpp:734-781 | The clearing pass with early exit marks cell i exactly when i is below 32 and the slot count, is not the one in progress, is not empty, and reads no word of the list; an unreadable list marks every such cell. |
| Grid.ClearMatches | src/btc_signer_gui/src/core/psbt_engine.cpp:763-779 | One word of the list clears exactly the outstanding cells that read it. |
| Grid.CompareGrid | src/btc_signer_gui/src/ui/screen_create.cpp:76-112 | Marks, counts and `complete` are their per-cell definitions, the half-typed cell under the cursor excepted. |
| Grid.CompleteMeansRetyped | src/btc_signer_gui/src/ui/screen_create.cpp:110 | `complete` holds exactly when all reference words, at most 32 and none empty, open the typed grid. |
| Grid.CompleteIgnoresSurplusCells | src/btc_signer_gui/src/ui/screen_create.cpp:110 | With more cells than the reference it need not mean equality. |
| Grid.CompleteMeansSameText | src/btc_signer_gui/src/ui/screen_create.cpp:110 | A grid that is `complete` is the same text as the reference exactly when it has no more cells. |
| Scripts.ContainsBytes | src/btc_signer_gui/src/core/psbt_engine.cpp:250-259 | Finds the needle exactly when it occurs verbatim; an empty one never. |
| Scripts.JudgeScript | src/btc_signer_gui/src/core/psbt_engine.cpp:268-350 | The branching judgement computes the verdict function. |
| Scripts.VerifiedCommits | src/btc_signer_gui/src/core/psbt_engine.cpp:261-350 | Verified implies that the script is the key's own (BIP44, 49, 84, 86 forms) or commits, by BIP16 or BIP141, to a supplied script that names the key. |
| Scripts.VerifiedExactly | src/btc_signer_gui/src/core/psbt_engine.cpp:268-350 | On every input, but one whose redeem script collides with the key's own program: Verified holds exactly when the script is of a known form, the scripts it commits to are supplied, and it pays the key or commits to a script that names it. |
| Scripts.CollisionMisjudged | src/btc_signer_gui/src/core/psbt_engine.cpp:310-345 | Where the two do collide, a script that pays the key is judged a Mismatch. |
| Scripts.SingleKeyUnique | src/btc_signer_gui/src/core/psbt_engine.cpp:268-350 | An output of a single-key form belongs to one key, up to the sign a taproot key drops, or the two keys are a collision of the hash or of the tweak. |
| Outputs.JudgeOutput | src/btc_signer_gui/src/core/psbt_engine.cpp:1391-1445 | The loop over both key path maps, leaving early at the first proof, computes the label, the claim and the path shown. |
| Outputs.LabelIgnoresOrder | src/btc_signer_gui/src/core/psbt_engine.cpp:1391-1445 | The label depends on the set of entries only, not on their order or on the map they are in. |
| Outputs.VerifiedIsOurs | src/btc_signer_gui/src/core/psbt_engine.cpp:1376-1388 | A verified output commits to a child key of this wallet along one of its own entries. |
| Outputs.ThirdPartyExactly | src/btc_signer_gui/src/core/psbt_engine.cpp:1432-1445 | The label is ThirdParty exactly when no entry names our master. |
| Outputs.VerifiedSettles | src/btc_signer_gui/src/core/psbt_engine.cpp:1394-1429 | Entries behind a verified one cannot change anything that is recorded. |
| SigningEngine.PsbtEngine.Load | src/btc_signer_gui/src/core/psbt_engine.cpp:850-874 | Unloads first; a failed load leaves the engine empty, a successful one summarised. |
| SigningEngine.PsbtEngine.Resummarise | src/btc_signer_gui/src/core/psbt_engine.cpp:1145-1317 | The in-place passes build the summary that is a function of the file, its signatures included, and the key alone. |
| SigningEngine.PsbtEngine.SummariseInputs | src/btc_signer_gui/src/core/psbt_engine.cpp:1181-1258 | Amount sources in order, 64-bit total, signatures already there, derivation count. |
| SigningEngine.PsbtEngine.SummariseOutputs | src/btc_signer_gui/src/core/psbt_engine.cpp:1260-1298 | Data outputs, claims of the file, 64-bit total. |
| SigningEngine.PsbtEngine.EvaluateSignability | src/btc_signer_gui/src/core/psbt_engine.cpp:1319-1457 | What a key adds: the inputs it can sign given the signatures they carry, judged outputs, change and leaving. |
| SigningEngine.PsbtEngine.DeriveFindings | src/btc_signer_gui/src/core/psbt_engine.cpp:1459-1665 | The refusals, the first of which is the reason given. |
| SigningEngine.PsbtEngine.SetKeyFromMnemonic | src/btc_signer_gui/src/core/psbt_engine.cpp:1732-1766 | Clears the slot first; a failure leaves it empty; success summarises anew. |
| SigningEngine.PsbtEngine.SetKeyFromXprv | src/btc_signer_gui/src/core/psbt_engine.cpp:1768-1795 | The same, and a public-only key is refused. |
| SigningEngine.PsbtEngine.ClearKey | src/btc_signer_gui/src/core/psbt_engine.cpp:1797-1813 | Takes the key and everything that depended on it. |
| SigningEngine.PsbtEngine.Sign | src/btc_signer_gui/src/core/psbt_engine.cpp:1835-1896 | Refuses without file, key, clearance or a signable input; reports the signatures added, and only for a file that is safe for the key; a call that reports none leaves everything as it was. |
| Engine.RunsStayUpToDate | src/btc_signer_gui/src/core/psbt_engine.cpp:850-1317 | Over every run of loads, keys, clears, signatures, network changes and exports: with a key and a file the summary, signature counts and signable inputs included, equals a fresh computation; without a key its facts about the file still do. |
| Engine.SafeExactly | src/btc_signer_gui/src/core/psbt_engine.cpp:1459-1665 | A fresh summary clears signing exactly when every amount is known, the 64-bit total of the outputs does not exceed that of the inputs, some input says who signs it, the file is complete and unfinalised, and no output is a Mismatch. |
| Engine.SignedIsSafe | src/btc_signer_gui/src/core/psbt_engine.cpp:1835-1896 | In every run, the signing call is made only for a file that is safe for the key that signs, with an input it can sign; outputs exceed inputs only if they wrapped 64 bits more often, and the fee shown is the difference exactly when both wrapped equally often. |
| Engine.OverspendExactly | src/btc_signer_gui/src/core/psbt_engine.cpp:1509-1512 | A file cleared for signing pays out no more than it spends exactly when its outputs wrapped 64 bits no more often than its inputs. |
| Engine.SmallTotals | src/btc_signer_gui/src/core/psbt_engine.cpp:1300-1303 | While both totals fit 64 bits, outputs do not exceed inputs and the fee shown is the difference. |
| Engine.OverspendSigned | src/btc_signer_gui/src/core/psbt_engine.cpp:1509-1512 | A run of two events that reaches the signing call with outputs 2^64 above the inputs and a fee of zero on the screen. |
| Engine.SilentSigning | src/btc_signer_gui/src/core/psbt_engine.cpp:1863-1896 | A signing that reports no new signature has changed no signature either, so the path that skips the refresh leaves the summary right. |
| Engine.OpenAfterSigning | src/btc_signer_gui/src/core/psbt_engine.cpp:1835-1896 | After a signature the program signs again exactly while the key can still sign some input of the signed file. |
| Engine.FeeExactly | src/btc_signer_gui/src/core/psbt_engine.cpp:1300-1303 | The fee shown is the true difference exactly when both totals wrapped 64 bits equally often. |
| Engine.WrappedFee | src/btc_signer_gui/src/core/psbt_engine.cpp:1256-1303 | A concrete file with two inputs that shows a fee of zero although the inputs exceed the outputs by 2^64. |
| Engine.ConservationExactly | src/btc_signer_gui/src/core/psbt_engine.cpp:1453-1456 | Verified change and leaving make up the total exactly when the wrapped change does not pass the wrapped total. |
| Engine.ChangeAndLeaving | src/btc_signer_gui/src/core/psbt_engine.cpp:1449-1456 | While the outputs fit 64 bits, change is the sum of the verified outputs, leaving the sum of all others. |
| Engine.ClearingRestores | src/btc_signer_gui/src/core/psbt_engine.cpp:1797-1813 | Clearing the key restores the keyless totals, and each label exactly when its output had a readable first entry or no entry was followed. |
| Engine.LabelsOutliveExactly | src/btc_signer_gui/src/core/psbt_engine.cpp:1802-1808 | Over all runs: labels stand without the key that earned them exactly when an export took it while a complete file was loaded, and since then nothing was loaded, unloaded, entered or cleared. |
| Engine.ExportLeavesLabels | src/btc_signer_gui/src/core/wallet_export.cpp:336-476 | An export beside the engine leaves labels standing exactly when there was a key and a complete file; an output then still shows a verdict exactly when one of its entries named the key's master. |
| WalletExports.BuildWalletExport | src/btc_signer_gui/src/core/wallet_export.cpp:317-481 | Failed validation leaves the slot untouched; any other outcome leaves it empty, and the export holds all six keys or none. |
| WalletExports.ExportBeside | src/btc_signer_gui/src/core/wallet_export.cpp:317-481 | To an engine sharing the slot that is one step of its machine. |
| Vsize.EstimateVsize | src/btc_signer_gui/src/core/psbt_engine.cpp:1009-1143 | The loop over inputs computes the estimate by kind of input. |
| Vsize.WeightOfSigned | src/btc_signer_gui/src/core/psbt_engine.cpp:1009-1020 | The BIP141 weight of a concretely serialised signed transaction (BIP144) in terms of the unsigned one. |
| Vsize.ScriptPush | src/btc_signer_gui/src/core/psbt_engine.cpp:352-381 | An m-of-n script of compressed keys, n up to 16, never has a length at which a push costs less than a length prefix. |
| Vsize.InputBound | src/btc_signer_gui/src/core/psbt_engine.cpp:1078-1137 | No standard input costs more than was estimated for it, but for a longer prefix of its script signature and the empty witness of a legacy input; with signatures of full length it costs exactly that. |
| Vsize.EstimateIsUpperBound | src/btc_signer_gui/src/core/psbt_engine.cpp:1009-1143 | With only segregated inputs of the standard kinds, or only p2pkh inputs, the estimate is at least the virtual size of the signed transaction. |
| Vsize.WeightBound | src/btc_signer_gui/src/core/psbt_engine.cpp:1009-1143 | On any mix, plain p2sh multisig included, the weight passes the estimate by no more than an excess the scripts determine, which full signatures reach. |
| Vsize.MixedExactly | src/btc_signer_gui/src/core/psbt_engine.cpp:1140-1142 | Every standard signing of given inputs stays within the estimate exactly when that excess goes into the rounding: legacy inputs among segregated ones and long script signatures, less what multisig witness scripts have over. |
| Vsize.MixedUndercounted | src/btc_signer_gui/src/core/psbt_engine.cpp:1140-1142 | A concrete mix, three p2pkh inputs beside a p2wpkh one, that can be signed larger than estimated. |
| Vsize.LongScriptUndercounted | src/btc_signer_gui/src/core/psbt_engine.cpp:1103-1124 | A single 2-of-3 multisig input in plain p2sh, signed larger than estimated. |
| SecretBuffers.Buffers.WipeAll | src/btc_signer_gui/src/ui/secret_buffers.cpp:67-73 | Empties all four shared buffers. |
| SecretBuffers.Buffers.PassphraseConfirmed | src/btc_signer_gui/src/ui/secret_buffers.cpp:75-81 | Compares passphrase and repeat. |
| Mnemonics.GridLength | src/btc_signer_gui/src/ui/screen_import.cpp:663-683 | A grid of n cells of at most 8 letters is at most 9n-1 long. |
| CreateScreens.CreateScreen.RefreshVerify | src/btc_signer_gui/src/ui/screen_create.cpp:1261-1374 | The verdict and the suggestions are computed anew after every edit, the latter for the floating keyboard or for the page. |
| CreateScreens.CreateScreen.VerifyEvent | src/btc_signer_gui/src/ui/screen_create.cpp:1185-1269 | Each key, click or button of the verification page is its step of the wizard. |
| CreateScreens.CreateScreen.ApplyVerifySuggestion | src/btc_signer_gui/src/ui/screen_create.cpp:1376-1402 | A suggestion fills the cell and moves on, on whatever page it arrives. |
| CreateScreens.CreateScreen.PassphraseEvent | src/btc_signer_gui/src/ui/screen_create.cpp:1408-1527 | Each key or button of the passphrase page is its step of the wizard. |
| CreateScreens.CreateScreen.GoTo | src/btc_signer_gui/src/ui/screen_create.cpp:1002-1067 | Entering the verification page lays out the grid; entering the passphrase page withdraws the suggestions. |
| CreateScreens.CreateScreen.Generate | src/btc_signer_gui/src/ui/screen_create.cpp:1147-1179 | A refusal changes nothing; new words reset the verification. |
| CreateScreens.CreateScreen.ShowNamePage | src/btc_signer_gui/src/ui/screen_create.cpp:1670-1698 | The save-as page is reached only with the export of the buffers as they are. |
| CreateScreens.CreateScreen.DoCreate | src/btc_signer_gui/src/ui/screen_create.cpp:1700-1716 | What is written is the export of the generated words, re-typed letter for letter, with an empty or confirmed passphrase; a written file wipes the buffers. |
| CreateScreens.CreateScreen.Handle | src/btc_signer_gui/src/ui/screen_create.cpp:877-942 | Every event, on every page, changes buffers and fields exactly as the machine steps. |
| CreateWizard.RefreshIsRight | src/btc_signer_gui/src/ui/screen_create.cpp:1261-1275 | After a refresh the verdict is never stale. |
| CreateWizard.RunsStaySound | src/btc_signer_gui/src/ui/screen_create.cpp:1002-1716 | The invariant of the wizard over every sequence of events. |
| CreateWizard.FileMatchesBackup | src/btc_signer_gui/src/ui/screen_create.cpp:1670-1716 | Over all runs: on the save-as page the export is the one of the generated words, these were re-typed letter for letter, and the passphrase is empty or equals its repeat. |
| CreateWizard.NothingLeftBehind | src/btc_signer_gui/src/ui/screen_create.cpp:1712-1716 | On the result page every secret buffer is empty. |
| CreateWizard.OffersCompleteCell | src/btc_signer_gui/src/ui/screen_create.cpp:1330-1374 | Over all runs: every word offered on the verification page completes the cell under the cursor. |
| CreateWizard.DiscardIsFinal | src/btc_signer_gui/src/ui/screen_create.cpp:512-518 | Over all runs: "Discard" is final, with a word then chosen, exactly when the floating keyboard is not up with that word on it. |
| CreateWizard.LingersExactly | src/btc_signer_gui/src/ui/screen_create.cpp:1002-1067 | Over all runs: words linger on the floating keyboard away from their page exactly when that page was left with the keyboard up and words on it, and since then the keyboard was not put away, no word chosen and the page not come back to. |
| CreateWizard.SuggestionOutlivesDiscard | src/btc_signer_gui/src/ui/screen_create.cpp:512-518 | A run of eight events after which a suggestion fills a cell of the buffers "Discard" had wiped. |
| SignScreens.SignScreen.TypeCharacter | src/btc_signer_gui/src/ui/screen_sign.cpp:914-954 | A character disarms the check and clears the key before it is stored, if it is. |
| SignScreens.SignScreen.SetKeySource | src/btc_signer_gui/src/ui/screen_sign.cpp:879-899 | Another source clears the text and disarms the check. |
| SignScreens.SignScreen.SetField | src/btc_signer_gui/src/ui/screen_sign.cpp:782-801 | The repeat can be typed only while there is a passphrase to repeat. |
| SignScreens.SignScreen.RefreshDisplays | src/btc_signer_gui/src/ui/screen_sign.cpp:1197-1224 | A repeat of no passphrase is dropped. |
| SignScreens.SignScreen.ApplySuggestion | src/btc_signer_gui/src/ui/screen_sign.cpp:1477-1502 | A suggestion replaces the word being typed and disarms the check. |
| SignScreens.SignScreen.CheckKey | src/btc_signer_gui/src/ui/screen_sign.cpp:1512-1594 | Passphrase gate, then normalisation, then derivation; checked only if something can be signed. |
| SignScreens.SignScreen.DoSign | src/btc_signer_gui/src/ui/screen_sign.cpp:1603-1640 | Signs only while the check stands, and then with the key of the text in the buffers for a file safe for it; success wipes before anything is named. |
| SignScreens.SignScreen.Handle | src/btc_signer_gui/src/ui/screen_sign.cpp:999-1109 | Every event, on every page, is its step of the machine. |
| SignWizard.RunsStaySound | src/btc_signer_gui/src/ui/screen_sign.cpp:747-1626 | The invariant of the signing screen, the engine's included, over every sequence of events. |
| SignWizard.CheckedMeansDerived | src/btc_signer_gui/src/ui/screen_sign.cpp:1512-1626 | Over all runs: while the check stands, the slot holds the key of the text now in the buffers, some input can be signed, and the passphrase is empty or confirmed. |
| SignWizard.EverySignatureProper | src/btc_signer_gui/src/ui/screen_sign.cpp:1603-1626 | Every signature of a run was made with that key, for a file safe for it; while its totals fit 64 bits, the outputs did not exceed the inputs and the fee shown was the true one, and beyond that exactly as the wrapping allows. |
| SignWizard.CharacterDisarms | src/btc_signer_gui/src/ui/screen_sign.cpp:914-954 | A character that arrives on the confirmation page takes the key away, even when there is no room for it. |
| SignWizard.SigningWipes | src/btc_signer_gui/src/ui/screen_sign.cpp:1603-1626 | After a signature neither key nor text is left. |
| ImportScreens.ImportScreen.SetWordCount | src/btc_signer_gui/src/ui/screen_import.cpp:663-683 | Lays out the grid and keeps the cursor on it. |
| ImportScreens.ImportScreen.TypeWord | src/btc_signer_gui/src/ui/screen_import.cpp:739-757 | A letter goes into the current cell, a space ends it. |
| ImportScreens.ImportScreen.DeriveKeys | src/btc_signer_gui/src/ui/screen_import.cpp:1152-1193 | An unfinished grid is reported before its blanks could be collapsed; a full one gives the export of its words. |
| ImportScreens.ImportScreen.DoWrite | src/btc_signer_gui/src/ui/screen_import.cpp:1376-1396 | Writes only the export of the words, the confirmed passphrase and the account on the screen, and then wipes them. |
| ImportScreens.ImportScreen.SetAccount | src/btc_signer_gui/src/ui/screen_import.cpp:1198-1213 | Another account derives anew on the review page. |
| ImportScreens.ImportScreen.Handle | src/btc_signer_gui/src/ui/screen_import.cpp:715-824 | Every event, on every page, is its step of the machine. |
| ImportGrid.LayoutFits | src/btc_signer_gui/src/ui/screen_import.cpp:663-683 | A grid of any offered size can be laid out over any other, whatever its cells hold. |
| ImportGrid.GridNeverRefuses | src/btc_signer_gui/src/ui/screen_import.cpp:663-824 | Over all runs: one cell per word, the cursor in range, each cell at most 8 lower-case letters; so no edit is refused for lack of room. |
| ImportGrid.FullGridIsNormal | src/btc_signer_gui/src/ui/screen_import.cpp:1160-1175 | A full grid passes through the derivation unchanged. |
| ImportGrid.WrittenIsShown | src/btc_signer_gui/src/ui/screen_import.cpp:1152-1396 | Over all runs: a written file is the export of the words, passphrase and account on the screen; writing wipes them. |
| ImportGrid.EmptyExportExactly | src/btc_signer_gui/src/ui/screen_import.cpp:1198-1213 | Over all runs: the save-as page shows an empty export exactly when the account on the screen gives none with the words and passphrase typed, and exactly then nothing can be written from it. |
| ImportGrid.EmptyExportReachesName | src/btc_signer_gui/src/ui/screen_import.cpp:1198-1213 | A run from the start to that page: twelve words chosen, derived, and an account picked that does not derive. |
| TouchpadDevices.Touchpad.HandleEvent | src/btc_signer_gui/src/ui/touchpad.cpp:214-282 | Every raw event updates contacts, buttons and pointer as the machine steps, slot indices in range. |
| TouchpadDevices.Touchpad.ActiveContacts | src/btc_signer_gui/src/ui/touchpad.cpp:284-299 | Counts the fingers, by slot or by tool bit. |
| TouchpadDevices.Touchpad.PrimaryPosition | src/btc_signer_gui/src/ui/touchpad.cpp:301-319 | The position of the first finger. |
| TouchpadDevices.Touchpad.FrameComplete | src/btc_signer_gui/src/ui/touchpad.cpp:321-400 | The end of a frame: tap logic, jump rejection, motion or scrolling. |
| TouchpadDevices.Touchpad.MovePointer | src/btc_signer_gui/src/ui/touchpad.cpp:404-441 | Gain, clamped acceleration, clamping to the screen. |
| TouchpadDevices.Touchpad.ReadEvents | src/btc_signer_gui/src/ui/touchpad.cpp:187-199 | A batch of events is the run of the machine over it. |
| Touchpads.SlotCount | src/btc_signer_gui/src/ui/touchpad.cpp:143-151 | The contact table has 1 to 16 slots, whatever the device announces. |
| Touchpads.StepInRange | src/btc_signer_gui/src/ui/touchpad.cpp:218-229 | Whatever slot number the device sends, indexing stays inside the table. |
| Touchpads.ButtonsAlternate | src/btc_signer_gui/src/ui/touchpad.cpp:471-477 | On every event stream the presses and releases of each button strictly alternate, taps included. |
| Touchpads.PointerStays | src/btc_signer_gui/src/ui/touchpad.cpp:427-437 | The pointer never leaves the screen. |
| Touchpads.MotionNeedsSameFingers | src/btc_signer_gui/src/ui/touchpad.cpp:331-384 | Motion and scrolling happen only at the end of a frame with as many fingers as the frame before; one moves, two scroll, or move while a button is held. |
| Touchpads.PrevFingersAreLastFrame | src/btc_signer_gui/src/ui/touchpad.cpp:352 | "Before" is the last complete frame of the stream. |
| Touchpads.MoveIsShort | src/btc_signer_gui/src/ui/touchpad.cpp:366-437 | One report moves the pointer by at most 0.35*2.6/1.3 = 0.7 of the screen on each axis from where it is taken to stand, or from the nearest point of the screen if that lies outside. |
| Touchpads.TapIsClean | src/btc_signer_gui/src/ui/touchpad.cpp:331-352 | A tap click comes from one finger that touched an otherwise untouched pad with the physical button up and left within 180 ms; the button was not pressed in between and is up. |
| EntropyPools.DrawCpuWords | src/btc_signer_gui/src/core/entropy.cpp:119-137 | Ten attempts a word; a failed word is given up; the words stand in the order drawn. |
| EntropyPools.CpuWordsLookSane | src/btc_signer_gui/src/core/entropy.cpp:188-211 | The nested loop accepts exactly runs of two or more different words, none all-zero or all-one. |
| EntropyPools.EntropyPool.Mix | src/btc_signer_gui/src/core/entropy.cpp:282-299 | The state is the HMAC fold of every sample mixed in since the reset. |
| EntropyPools.EntropyPool.Reset | src/btc_signer_gui/src/core/entropy.cpp:265-280 | Forgets everything: the state is the public starting value, no sample mixed in. |
| EntropyPools.EntropyPool.MixUserEvent | src/btc_signer_gui/src/core/entropy.cpp:301-321 | An event folds in one sample and counts. |
| EntropyPools.SamplesDiffer | src/btc_signer_gui/src/core/entropy.cpp:301-321 | Two events with different counters never fold in the same sample. |
| EntropyPools.EntropyPool.Finalise | src/btc_signer_gui/src/core/entropy.cpp:364-561 | Everything drawn is folded in, counted or not, then the policy decides; the output is folded back. |
| EntropyPools.EveryWordAccounted | src/btc_signer_gui/src/core/entropy.cpp:454-484 | Counted and rejected words together are the words drawn, at most 32. |
| EntropyPools.CountedRunsAreSane | src/btc_signer_gui/src/core/entropy.cpp:470-481 | Whatever is counted is a whole run of at least two sane, different words. |
| EntropyPools.RdrandNeverDecides | src/btc_signer_gui/src/core/entropy.cpp:213-232 | The policy verdict is the same whatever RDRAND answers, or if it is absent. |
| EntropyPools.VerdictIgnoresRdrand | src/btc_signer_gui/src/core/entropy.cpp:533-556 | The outcome of a finalisation can differ with RDRAND only by the last HMAC call failing for one and not for the other. |
| EntropyPools.RunsIgnoreRdrand | src/btc_signer_gui/src/core/entropy.cpp:364-561 | Two runs of events, resets and finalisations that differ only in RDRAND report the same at every finalisation but for RDRAND's own account, with the same verdict of the policy; the same ones make a key while that call answers. |
| EntropyPools.StuckGeneratorRefused | src/btc_signer_gui/src/core/entropy.cpp:188-232 | RDSEED stuck at any value never makes a key by itself. |

## Left out

- libwally, secp256k1 and all hashes: unknown functions. A failed signing call is taken to leave the file unchanged, a successful one only to add entries to the signature maps the program counts; signatures libwally may keep elsewhere, such as those for taproot keys, are not modelled. Whether a key can sign an input is a function of its fields, its signatures and the key.
- Files, directories, clocks, page locking, swap and the mount poll: parameters of the events they lead to.
- Qt widgets, painting, focus, hints and status texts: no state that any law here depends on. Whether a button is lit is modelled only where it guards a step.
- Base64 text, strict against permissive parsing and the refusal of Elements files: inside the outcome of `Load` and of the file reader's base64 function.
- Informational findings (fee rate, percentages, sighash flags, branches, accounts) and the input's fingerprint and path lines: shown, never a reason to refuse.
- Address, path, amount and file name formatting, descriptors and the text of the export: only the six keys of an export are modelled, path by path.
- SecureText.SecureString.CopySlot: the twin that copies the trailing word is not modelled; it only feeds labels. `mutableData` is outside the class invariant, as its own comment says.
- Grid.UnknownSlots: the 32-bit mask is the set of its raised bits, and the list of 2048 words is a list of any length.
- Vsize.EstimateIsUpperBound: multisig in plain p2sh and mixed inputs are covered by `Vsize.WeightBound` and `Vsize.MixedExactly` instead, where the bound is not always kept.
- Engine.SignedIsSafe: amounts are those the file states; that a witness UTXO is not authenticated by its previous transaction is as in the program. Several engines on one key slot are not modelled.
- WalletExports.BuildWalletExport: the order of names, labels, descriptors and first addresses inside the export is not modelled.
- Touchpads.ButtonsAlternate: speaks of the transitions the handler posts; an event posted while no window exists is lost and is not modelled. Coordinates are integers, positions reals, and the length of a motion is an unknown function of it.
- EntropyPools.EntropyPool.Finalise: the kernel's read loops, the jitter measurement and the wall clock are given samples; on machines without the two instructions the corresponding pass is simply absent.
- CreateWizard.FileMatchesBackup: that the library's word lists and generated words have a valid length and lower-case words of at most eight letters is its promise; words of any other shape are treated as a failed generation.
- ImportGrid.GridNeverRefuses: not on the result page, where nothing typed has any use.
- RIPEMD-160, elliptic curve arithmetic, BIP32 derivation and the BIP39 checksum: no property beyond being functions.
- Splash, home, scan, inspect and shutdown screens: they enter the laws only as "another screen used the buffers" (`Elsewhere`).
