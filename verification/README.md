# A verified model of ccbt's bencode codec and configuration engine

This project models, in Dafny, the parts of the BitTorrent client `ccbt` whose logic is
densest, and proves what they promise.

* **The bencode codec.** The decoder is a class with one cursor `pos`, moved by while loops
  and mutual recursion, and the encoder is loops that append to `result` after a stable sort
  of the dictionary keys by raw bytes. The decoder's cursor machine is proved equal to a pure
  reader, and the reader equal to a grammar of concrete syntax trees (`Syntax`, which keeps
  the very digits of every length and integer). The grammar is BEP 3's "bencoding" section plus
  the code's own leniencies: `i-0e`, `i-03e` and `i--5e` decode, length prefixes may have a sign
  on keys and redundant zeros anywhere, keys may be unsorted and repeated, and the last one wins.
  On top stand the round trip for mixed `str`/`bytes` keys, prefix freedom, truncation,
  canonical form and re-encoding.
* **The configuration tree algebra.** Two deep mergers written as loops over dictionaries, the
  dotted-key functions, leaf diff and patch, and the environment overlay with its table of
  variables. Paths are written and deleted twice: on values (`ConfigTree.Set`, `ConfigTree.Remove`),
  which is what the algebra is about, and on the heap (`NestedDicts`), where a reference walks
  down mutable dictionaries as in the source and the last one is changed in place.
* **Three stateful pieces.** The capability detector's TTL cache with one cached value computed
  from another, the auto-tuner's nine overlapping passes, and the port validator.

## What turned out to be conditional

* A dictionary key is read without the digit test that guards every other string
  (`ccbt/core/bencode.py:141`), so its length may be negative and the cursor may move backwards.
  The decoder class and the reader name this case as an outcome of its own,
  `NegativeKeyLength`. That this is the only departure is proved against a second,
  fuel-indexed model that follows Python's indexing and slicing for negative positions as well
  (`BencodeCursor`): it terminates and agrees everywhere else, while
  `d-4:` recurses for ever, `d0:0:-5:` loops for ever and `d-2:abe` returns. Whatever the
  input, either no chain of nested calls and loop turns of this machine is longer than six times
  the input plus one, or it never ends (`BencodeDivergence`); fuel measures the length of such a
  chain, not the number of steps.
* Encoding, decoding and encoding again gives the same bytes if and only if no two keys of one
  dictionary have the same bytes (a text key and a byte-string key may collide, as in
  `{"a": 1, b"a": 2}`, `CollidingKeys`).
* The deep merge is associative if and only if no leaf is sandwiched between two sections
  (`NoSandwich`), unless the last section already settles everything in the first;
  `{k: {x: 1}}`, `{k: 2}` and `{k: {}}` show the difference (`SandwichedLeaf`).
* Applying a diff in a given order raises if and only if some key of a leaf of the second
  configuration comes before the key of a leaf of the first that stands above it, and gives the
  target otherwise (`PatchOrderIff`). Hence every order is right if and only if no leaf of the
  first stands above leaves of the second (`NoClash`), and some order always is (`GoodOrder`);
  from `{a: 1}` to `{a: {b: 2}}` one order raises (`LeafBecomesSection`).
* `apply_changes` works on a shallow copy, so the configuration passed in may be changed too.
  What both of them hold after any list of additions, modifications and removals, a raise in
  the middle included, is `ShallowCopy.Run`, and the heap is proved to follow it. The
  configuration passed in holds its old tree all along if and only if no change, made before
  any is blocked, has an effect below one of its sections whose place no earlier change took
  (`Through`; which change is blocked is read off the tree and the list by `Changes.Blocked`), and
  holds it at the end in the same cases when no changed key is nested in another. Setting
  `a.b` and then failing at `s.t` changes it and returns nothing (`ChangedThenRaised`); nested
  keys may undo each other (`NestedMayCancel`).
* Auto-tuning keeps every field in its declared range if and only if the system reports at
  least 0.6 GiB of memory and, when a worker count has to be lowered, at least one CPU. A failed
  memory probe reports 0.0, and the declared defaults are then tuned to no peers at all
  (`FailedProbeLeavesRange`).
* The auto-tuner's caps on peers per torrent (50, 30 and 20) never bind: the limit is always a
  fixed share of the global one (`TunedPeersPerTorrent`).
* The fallback tracker port 64123 can itself collide with the DHT port it is meant to avoid:
  with the default listen port 64122 and the DHT on 64123 the validator rejects its own default.

## Files

| file | content |
|---|---|
| `Wrappers`, `Bytes`, `Decimal`, `Utf8`, `StableSort` | options and results, byte strings and their order, numerals, RFC 3629, stable sorting |
| `BencodeGrammar`, `BencodeReader`, `BencodeDecoder` | grammar, pure reader, the cursor class |
| `BencodeCursor`, `BencodeDivergence` | the unrestricted machine, and when it never ends |
| `BencodeEncoder`, `BencodeCanonical`, `BencodeTheorems` | the encoder loops, canonical form, what both promise together |
| `BencodeVectors` | what digits and leading bytes do for all inputs, and samples as plain byte numbers |
| `Changes` | lists of changes: what the tree reads after them, and when they raise |
| `ConfigTree`, `NestedDicts`, `MergedDicts`, `ConfigMerge`, `DottedKeys`, `ConfigDiff`, `ConfigPatch`, `EnvOverlay` | trees on values and on the heap, merging, dotted keys, diff, patch, overlay |
| `ShallowCopy`, `PatchInPlace` | what `apply_changes` does to its result and to its argument, on values and on the heap |
| `CapabilityCache`, `SystemTuning`, `PortValidation` | the three stateful pieces |

`dafny verify dfyconfig.toml` checks the project.

## Model

| member | source | states |
|---|---|---|
| Bytes.BelowIff | ccbt/core/bencode.py:194-197 | one key comes before another exactly when it is a proper prefix of it or has the smaller byte at the first place where they differ |
| Decimal.DigitsRead | ccbt/core/bencode.py:174-180 | the decimal text of a natural reads back as that natural and has no redundant zero |
| Decimal.DigitsOfNatOf | ccbt/core/bencode.py:97-107 | writing back the value of any digit text never takes more digits, and gives the same text exactly when it had no redundant zero |
| Decimal.NatOfIsPositional | ccbt/core/bencode.py:97-107 | the value of any digit text, redundant zeros or not, is the sum of its digits times the powers of ten of their places |
| Decimal.LeadingZero | ccbt/core/bencode.py:97-107 | a zero put in front of any digit text does not change its value |
| Decimal.NumeralIs | ccbt/core/bencode.py:67-84 | digits alone or after one plus or minus are a numeral, of the positional value of the digits, negated after a minus |
| Decimal.NumeralOnly | ccbt/core/bencode.py:67-84 | and nothing else is a numeral |
| Decimal.IntegerTextIs | ccbt/core/bencode.py:70-84 | after a minus any numeral is taken, a signed or zero-padded one included, and negated; other texts are taken exactly when they are numerals without a redundant leading zero |
| Decimal.IntegerTextRead | ccbt/core/bencode.py:67-84 | what the encoder writes between `i` and `e` passes the decoder's leading-zero test and reads back as the same integer |
| Decimal.IntegerTextOfValue | ccbt/core/bencode.py:67-84 | for every text the decoder accepts between `i` and `e`, writing its value never takes more bytes, and gives the same bytes exactly when the text is canonical |
| Decimal.LengthTextOfValue | ccbt/core/bencode.py:97-107 | the same for length prefixes, signed ones included |
| Utf8.CharPrefixFree | ccbt/core/bencode.py:163-164 | the first character of a UTF-8 text and the bytes that follow it are determined by its bytes |
| Utf8.EncodeInjective | ccbt/core/bencode.py:163-164 | distinct texts have distinct UTF-8 bytes, so only a text and a byte string can collide as keys |
| Utf8.EncodedBits | ccbt/core/bencode.py:163-164 | each character is written in one to four bytes whose payload bits, six to a byte after the first, make up its code point |
| Utf8.DecodableIff | ccbt/core/bencode.py:67-67 | the bytes that decode as UTF-8 are exactly the encodings of texts |
| StableSort.SortAscending | ccbt/core/bencode.py:194-197 | the sorted entries ascend by raw key bytes |
| StableSort.SortOrders | ccbt/core/bencode.py:194-197 | of two sorted entries, the earlier one's key equals the later one's, is a proper prefix of it, or is smaller at the first byte where they differ |
| StableSort.SortGroup | ccbt/core/bencode.py:194-197 | for each key, the entries with that key come out of the sort as they went in: same entries, same order |
| StableSort.SortUnique | ccbt/core/bencode.py:194-197 | any ascending arrangement with the same groups is the same sequence, so every stable sort gives this result |
| BencodeReader.Scan | ccbt/core/bencode.py:60-65 | the scan stops at the first terminator at or after the cursor, or at the end of the input |
| BencodeReader.StringSound | ccbt/core/bencode.py:86-117 | a string read without error is a numeral, a colon and exactly that many bytes, and the cursor stands behind them |
| BencodeReader.ReadSound | ccbt/core/bencode.py:32-153 | what the control flow accepts at a position is an instance of the grammar ending at the cursor it leaves |
| BencodeReader.ReadComplete | ccbt/core/bencode.py:32-153 | every instance of the grammar at a position is accepted there, with exactly that tree and that final cursor |
| BencodeReader.ReadIffDerives | ccbt/core/bencode.py:32-153 | the control flow and the grammar accept the same trees at the same positions, so the grammar is unambiguous |
| BencodeReader.ReadStable | ccbt/core/bencode.py:32-153 | a success, and every error other than a truncation, is unchanged by appending bytes to the input |
| BencodeGrammar.LastFieldWins | ccbt/core/bencode.py:139-146 | a decoded dictionary has an entry for a key exactly when the key was read, and it is the one it was last read with |
| BencodeDecoder.BencodeDecoder.constructor | ccbt/core/bencode.py:27-30 | a new decoder stands at the start of its data |
| BencodeDecoder.BencodeDecoder.Decode | ccbt/core/bencode.py:32-52 | the call returns or raises what the reader says at the old cursor, and leaves the cursor the reader says, on errors too |
| BencodeDecoder.BencodeDecoder.DecodeInteger | ccbt/core/bencode.py:54-84 | the same, by the scanning loop; text that is not UTF-8 leaves the cursor at the terminator, any other bad text behind it |
| BencodeDecoder.BencodeDecoder.ParseNumber | ccbt/core/bencode.py:70-84 | the branches on the text accept exactly the integer texts of the grammar and give their value |
| BencodeDecoder.BencodeDecoder.DecodeString | ccbt/core/bencode.py:86-117 | the same, by the scanning loop, for strings and keys |
| BencodeDecoder.BencodeDecoder.DecodeList | ccbt/core/bencode.py:119-132 | the same, by a loop that appends to the result; each turn moves the cursor forward |
| BencodeDecoder.BencodeDecoder.DecodeDict | ccbt/core/bencode.py:134-153 | the same, by a loop that stores into a dictionary, later keys overriding earlier ones |
| BencodeDecoder.Decode | ccbt/core/bencode.py:221-224 | the module-level function is one decoding from position 0 |
| BencodeEncoder.Encode | ccbt/core/bencode.py:159-172 | the bytes of the object's syntax tree, or a refusal exactly for objects with an unsupported part at any depth |
| BencodeEncoder.EncodeList | ccbt/core/bencode.py:182-188 | the same for a list, by the appending loop |
| BencodeEncoder.EncodeDict | ccbt/core/bencode.py:190-218 | the same for a dictionary, by the loop over the sorted entries |
| BencodeEncoder.SupportedIs | ccbt/core/bencode.py:159-218 | integers, byte strings and texts are taken; lists when all items are; dictionaries when all keys are byte strings or texts and all values are taken; nothing else is |
| BencodeEncoder.LastEntryWins | ccbt/core/bencode.py:194-216 | of the entries whose keys have the same bytes, the normal form keeps the one inserted last |
| BencodeEncoder.KeysWrittenInOrder | ccbt/core/bencode.py:194-216 | the keys of a dictionary are written in raw-byte order: equal ones apart, the proper prefix or the one smaller at the first difference comes first |
| BencodeEncoder.FieldsOfSort | ccbt/core/bencode.py:194-216 | sorting the entries and then spelling them is sorting what they are spelled as |
| BencodeEncoder.SortMeaning | ccbt/core/bencode.py:139-146 | sorting the fields of a dictionary does not change which entry wins for any key, because the sort is stable |
| BencodeEncoder.TreeOfMeans | ccbt/core/bencode.py:159-218 | the tree written for an object is well formed and means its normal form: text as UTF-8, the later of two colliding keys kept, at every depth |
| BencodeCanonical.CanonicalUnique | ccbt/core/bencode.py:190-218 | a value has at most one canonical spelling |
| BencodeCanonical.TreeOfCanonical | ccbt/core/bencode.py:190-218 | the encoder's output is canonical exactly when no two keys of one dictionary have the same bytes |
| BencodeTheorems.RoundTrip | ccbt/core/bencode.py:32-230 | wherever an encoding stands in an input and whatever follows it, decoding there gives the object's normal form and stops exactly behind it |
| BencodeTheorems.SameEncodingIffSameNormal | ccbt/core/bencode.py:190-218 | for objects with distinct keys, equal encodings exactly for equal normal forms: the bytes do not depend on insertion order, and encoding is injective |
| BencodeTheorems.TruncationDetected | ccbt/core/bencode.py:34-36 | every proper prefix of an encoding is rejected, with an error that says the input is cut short |
| BencodeTheorems.PrefixFree | ccbt/core/bencode.py:174-218 | no encoding is a proper prefix of another |
| BencodeTheorems.SplitUnique | ccbt/core/bencode.py:174-218 | two lists of objects whose encodings concatenate to the same bytes have as many objects, with the same bytes and normal form one by one |
| BencodeTheorems.DecodeLocal | ccbt/core/bencode.py:32-153 | a success consumes at least two bytes, stays inside the input, and is the same wherever those bytes stand in any other input |
| BencodeTheorems.StoreRepresents | ccbt/core/bencode.py:146-146 | storing into an ordered dictionary changes the value at one key and at no other |
| BencodeTheorems.DecodedRepresents | ccbt/core/bencode.py:119-153 | the ordered object that decoding builds stands for the decoded value, and encoding it never takes more bytes than were read |
| BencodeTheorems.Reencode | ccbt/core/bencode.py:54-218 | for every input that decodes: re-encoding never grows, reproduces the bytes consumed exactly when they were canonical, and decodes to the same value |
| BencodeTheorems.ReencodeStable | ccbt/core/bencode.py:174-218 | re-encoding a decoded encoding gives the same bytes |
| BencodeTheorems.ReencodeFixedIffDistinct | ccbt/core/bencode.py:190-218 | encoding, decoding and encoding again is the identity exactly when no two keys of one dictionary have the same bytes |
| BencodeTheorems.CollidingKeys | ccbt/core/bencode.py:194-216 | `{"a": 1, b"a": 2}` is supported, its keys collide, and re-encoding what it decodes to gives other bytes |
| BencodeVectors.MinusDecodes | ccbt/core/bencode.py:67-84 | for all digits, zero-padded or not: after `i-` and an optional further sign they decode to their positional value, negated once for each minus |
| BencodeVectors.PlainDecodes | ccbt/core/bencode.py:67-84 | without that minus they decode to their positional value, with a plus or without a redundant leading zero |
| BencodeVectors.RedundantRefused | ccbt/core/bencode.py:79-84 | and are refused behind the terminator with a redundant leading zero |
| BencodeVectors.StringDecodes | ccbt/core/bencode.py:86-117 | any digits whose positional value is the length, a colon and that many bytes decode to those bytes, whatever follows |
| BencodeVectors.MinusThenZero | ccbt/core/bencode.py:67-84 | `i-03e` is -3, as byte numbers |
| BencodeVectors.MinusMinus | ccbt/core/bencode.py:67-84 | `i--5e` is 5 |
| BencodeVectors.WithoutMinus | ccbt/core/bencode.py:67-84 | `i42e` is 42 and `i+3e` is 3 |
| BencodeVectors.PlusThenZero | ccbt/core/bencode.py:67-84 | `i+03e` is 3 |
| BencodeVectors.ZeroRefused | ccbt/core/bencode.py:79-84 | `i03e` is refused |
| BencodeVectors.Strings | ccbt/core/bencode.py:86-117 | `03:abc` is `abc` with the cursor at 6; `3:abcd` is `abc` with the last byte left |
| BencodeVectors.InOrder | ccbt/core/bencode.py:119-132 | `li1ei2ee` is the list of 1 and 2 in this order |
| BencodeVectors.Overridden | ccbt/core/bencode.py:134-153 | `d1:ai1e1:ai2ee` holds 2 at `a` |
| BencodeVectors.LeadingBytes | ccbt/core/bencode.py:38-52 | a value begins with `i`, `l`, `d`, a digit or one of three superscript digits; exactly the other bytes are refused on the spot |
| BencodeVectors.StopsEarly | ccbt/core/bencode.py:32-153 | each of the six truncation errors, with its cursor, on a shortest input |
| BencodeVectors.Malformed | ccbt/core/bencode.py:32-117 | `ie`, `i-e`, `1x:a` and `x`: the error and the cursor of each |
| BencodeVectors.NotText | ccbt/core/bencode.py:67-67 | a byte that is not UTF-8 in an integer or a length stops the cursor at the terminator |
| BencodeVectors.WrittenScalars | ccbt/core/bencode.py:159-180 | the bytes of -42, 0, a byte string and a text of one two-byte character, whose bytes are what its length counts |
| BencodeVectors.WrittenText | ccbt/core/bencode.py:163-164 | the text `ab` is written as its two characters in order, as a value and as a key |
| BencodeVectors.WrittenList | ccbt/core/bencode.py:182-188 | the bytes of a list of an integer and a string |
| BencodeVectors.WrittenSorted | ccbt/core/bencode.py:190-218 | the dictionary with 2 at `b` and then 1 at `a` inserted is written `d1:ai1e1:bi2ee`, as byte numbers |
| BencodeCursor.DecodeAgrees | ccbt/core/bencode.py:32-153 | unless a key of negative length is met, the unrestricted machine finishes, in chains of nested calls and turns no longer than twice the remaining bytes plus one, and agrees with the reader |
| BencodeCursor.SliceIs | ccbt/core/bencode.py:97-115 | what indexing and slicing give for every pair of positions: negative ones count from the end, an index outside is an error, a slice is cut to fit and keeps, byte by byte, what lies between its ends |
| BencodeCursor.RecursesForever | ccbt/core/bencode.py:97-115 | `d-4:` never finishes |
| BencodeCursor.LoopsForever | ccbt/core/bencode.py:139-146 | the dictionary loop of `d0:0:-5:` never finishes |
| BencodeCursor.LoopIsReached | ccbt/core/bencode.py:139-146 | that loop is reached from the start of the input |
| BencodeCursor.NegativeLengthMayReturn | ccbt/core/bencode.py:109-115 | `d-2:abe` returns, with an empty key |
| BencodeDivergence.NextLevel | ccbt/core/bencode.py:119-153 | a call that needs exactly one more unit of fuel than it has makes a nested call, or another turn, that does with one unit less |
| BencodeDivergence.EndsSoonOrNever | ccbt/core/bencode.py:32-153 | for every input and start, negative key lengths included: a chain of nested calls and turns longer than six times the input plus one means that the machine never ends |
| BencodeDivergence.ResultSettled | ccbt/core/bencode.py:32-153 | and its result is the same for all fuel from that bound on |
| ConfigTree.SetSucceeds | ccbt/config/config_diff.py:243-260 | writing succeeds exactly when no leaf stands on the way |
| ConfigTree.LookupSet | ccbt/config/config_diff.py:243-260 | after writing: what was written below the path, sections on the way, everything else as before |
| ConfigTree.LeafAtSet | ccbt/config/config_diff.py:243-260 | the same for leaves |
| ConfigTree.LeafAtRemove | ccbt/config/config_diff.py:263-281 | after deleting: nothing below the path, every other leaf as before |
| NestedDicts.Changed | ccbt/config/config_diff.py:260-260 | changing one entry of one dictionary on the heap changes the whole tree at that path and nowhere else |
| NestedDicts.SetThroughEmpty | ccbt/config/config.py:379-383 | creating the next missing section on the way does not change what the write amounts to |
| NestedDicts.Descend | ccbt/config/config_diff.py:255-258 | the walk of `current` reaches the dictionary on the way to the last part, creating only what is missing, and creates nothing before it meets a scalar |
| NestedDicts.SetNestedValue | ccbt/config/config_diff.py:243-260 | in place, the heap goes from holding `n` to holding `Set(n, parts, x)`; only dictionaries on the way are written; it raises exactly when `Set` fails, and then the tree is as it was |
| NestedDicts.RemoveNestedValue | ccbt/config/config_diff.py:263-281 | in place, the heap goes from holding `n` to holding `Remove(n, parts)` |
| ShallowCopy.RunIsApplyAll | ccbt/config/config_diff.py:131-146 | the copy of the run is the tree with the changes applied in order, and the run raises exactly when applying them does (Changes.RaisesIff says when that is) |
| ShallowCopy.StepReads | ccbt/config/config_diff.py:131-144 | after each change, the configuration passed in reads from the copy below the keys under which both still have the same section, and as before everywhere else |
| ShallowCopy.SharedIs | ccbt/config/config_diff.py:131-144 | a key stays shared exactly when it was a section and no change has had just that key |
| ShallowCopy.EffectiveIff | ccbt/config/config_diff.py:243-281 | a write changes the tree exactly when something else stood at its path, a removal exactly when something stood there |
| ShallowCopy.StepMovesIff | ccbt/config/config_diff.py:131-144 | one change moves the configuration passed in exactly when it is made, goes through a shared section and has an effect |
| ShallowCopy.BaseKeptThroughoutIff | ccbt/config/config_diff.py:131-146 | for any list of changes, the configuration passed in holds its tree all along exactly when no change goes through |
| ShallowCopy.BaseKeptIff | ccbt/config/config_diff.py:131-146 | for keys not nested in each other, it holds its tree at the end exactly in the same cases |
| ShallowCopy.ChangedThenRaised | ccbt/config/config_diff.py:131-146 | a list of two changes that raises at the second and has changed the configuration passed in |
| ShallowCopy.NestedMayCancel | ccbt/config/config_diff.py:131-146 | a removal and an addition below it that go through and undo each other |
| PatchInPlace.ApplyEdit | ccbt/config/config_diff.py:136-144 | one change of the tree on the heap, a written section or scalar or a removal, does what the change does to its value |
| PatchInPlace.ApplyStep | ccbt/config/config_diff.py:136-144 | if the heap holds the two views of a state, one change in place makes it hold the two views of the next state, or raises with both as they were |
| PatchInPlace.ApplyEdits | ccbt/config/config_diff.py:131-146 | the whole call: it raises exactly when `ShallowCopy.Run` does, and in either case the copy and the configuration passed in hold what `ShallowCopy.Run` says; the latter's own top dictionary is never written |
| PatchInPlace.OneTree | ccbt/config/config_diff.py:131-134 | a dictionary on the heap holds one tree only |
| PatchInPlace.BaseStillHoldsIff | ccbt/config/config_diff.py:131-146 | after the call, raised or not, the configuration passed in still holds its old tree exactly when no change went through one of its sections |
| PatchInPlace.PatchByDiff | ccbt/config/config_diff.py:42-146 | patching c1 in place by its diff to c2 in a given order raises exactly when a key of a leaf of c2 comes before the key of a leaf of c1 above it, and otherwise holds the leaves of c2 |
| MergedDicts.MergeTurn | ccbt/config/config.py:402-410 | one turn of the merge loop on the heap: the new dictionary holds the tree merged up to and with this key, and both sides still hold theirs |
| MergedDicts.MergeDicts | ccbt/config/config.py:394-412 | on the heap: a new dictionary ends up holding the merged tree, made of dictionaries of the two sides, taken over as they are, and of new ones; no dictionary of either side is written |
| ConfigMerge.DeepMergeWithConflicts | ccbt/config/config_diff.py:284-351 | the loop with recursion computes the recursive merge and reports exactly its conflicts |
| ConfigMerge.MergeConfig | ccbt/config/config.py:394-412 | the loop with recursion computes the recursive overlay |
| ConfigMerge.ShallowMergeWithConflicts | ccbt/config/config_diff.py:354-390 | the loop replaces whole entries and reports exactly the keys with differing values |
| ConfigMerge.MergeConfigs | ccbt/config/config_diff.py:76-112 | the configurations merged one after the other, each conflict logged with the number of the configuration that met it |
| ConfigMerge.FirstWinsIsLastWinsSwapped | ccbt/config/config_diff.py:300-351 | first-wins of (a, b) is last-wins of (b, a) |
| ConfigMerge.ManualKeepsBase | ccbt/config/config_diff.py:300-351 | manual without a resolver is first-wins |
| ConfigMerge.NoConflictIffCommute | ccbt/config/config_diff.py:300-351 | no conflict is reported exactly when last-wins gives the same tree in both orders |
| ConfigMerge.MergedKid | ccbt/config/config_diff.py:303-349 | at every depth: a key on one side is kept, two sections are merged, equal values are kept, and of two others last-wins keeps the override's, first-wins and manual the base's, and a resolver's answer, when it gives one, is taken instead |
| ConfigMerge.ConflictIff | ccbt/config/config_diff.py:315-318 | a conflict is reported exactly when some path has a value on each side, not both sections and not equal, and it holds the last key of the path, the base's value and the override's |
| ConfigMerge.ShallowReads | ccbt/config/config_diff.py:373-388 | each top key of a shallow last-wins merge holds the override's whole entry where it has one and the base's elsewhere; of a first-wins merge, the other way round |
| ConfigMerge.ShallowFirstIsLastSwapped | ccbt/config/config_diff.py:373-388 | shallow first-wins of (a, b) is shallow last-wins of (b, a) |
| ConfigMerge.ShallowManualIsFirst | ccbt/config/config_diff.py:383-385 | shallow manual is shallow first-wins, with a resolver too |
| ConfigMerge.NoShallowConflictIffCommute | ccbt/config/config_diff.py:373-388 | the shallow conflicts are the keys of both sides with different entries, each with the base's and the override's; there is none exactly when last-wins gives the same in both orders |
| ConfigMerge.LastWinsIsOverlay | ccbt/config/config.py:394-412 | the two mergers compute the same tree on all inputs |
| ConfigMerge.EmptyIsIdentity | ccbt/config/config.py:394-412 | the empty tree is a two-sided identity of the merge |
| ConfigMerge.OverlayTwice | ccbt/config/config.py:394-412 | merging an override twice is merging it once |
| ConfigMerge.CoveredIffAbsorbed | ccbt/config/config.py:394-412 | the override swallows the base exactly when it has each of its keys, section for section |
| ConfigMerge.OverlayAssociativeIff | ccbt/config/config.py:394-412 | the merge of three trees is associative exactly when no leaf is sandwiched between two sections |
| ConfigMerge.SandwichedLeaf | ccbt/config/config.py:394-412 | three trees whose two groupings differ |
| ConfigMerge.OverlayReads | ccbt/config/config.py:394-412 | every path reads from the override where it has something at the path or a leaf above it, and from the base elsewhere |
| ConfigMerge.MergeAllReads | ccbt/config/config_diff.py:97-112 | after merging any number of configurations, every path reads from the last one that has a say there |
| ConfigMerge.ShallowChainKeepsLast | ccbt/config/config_diff.py:97-112 | after any number of shallow last-wins merges each top key holds the entry of the last configuration that has the key, of the base if none has |
| ConfigMerge.ShallowChainKeepsFirst | ccbt/config/config_diff.py:97-112 | after any number of shallow first-wins merges, of the first that has the key, the base before all others |
| DottedKeys.GetAllKeys | ccbt/config/config_diff.py:196-217 | the loop with recursion collects exactly the dotted keys of the leaves |
| DottedKeys.JoinSplit | ccbt/config/config_diff.py:232-232 | joining the parts of any string restores it |
| DottedKeys.SplitJoin | ccbt/config/config_diff.py:207-207 | a path of dot-free parts survives joining and splitting |
| DottedKeys.KeyIffLeaf | ccbt/config/config_diff.py:196-240 | in a tree of non-empty dot-free keys, a string is listed exactly when the path it splits into ends in a leaf |
| ConfigDiff.GetNestedValue | ccbt/config/config_diff.py:220-240 | the walk returns what stands at the path, or None |
| ConfigDiff.CompareConfigs | ccbt/config/config_diff.py:42-73 | the loop over the keys of both sides fills the four buckets with exactly the keys whose pair of values belongs there |
| ConfigDiff.ApplyChanges | ccbt/config/config_diff.py:131-146 | the changes one after the other, raising where one does |
| Changes.AppliedReads | ccbt/config/config_diff.py:131-146 | after a list of changes every path reads what the last change at or above it wrote, or as before |
| Changes.RaisesIff | ccbt/config/config_diff.py:131-146 | a list of changes raises exactly when one of its writes is blocked: a leaf, by the tree or the last earlier change above it, stands on its way |
| Changes.MadeIff | ccbt/config/config_diff.py:131-146 | and the changes up to any one are made exactly when none of them is blocked |
| ConfigDiff.OneBucket | ccbt/config/config_diff.py:42-73 | every leaf path of either side, and nothing else, is in one bucket, and in only one |
| ConfigDiff.Classified | ccbt/config/config_diff.py:42-73 | from what stands at a key's path on either side: exactly when it is added, removed, modified or the same, and with which values; a null leaf counts as nothing |
| ConfigDiff.MetadataIgnored | ccbt/config/config_diff.py:43-45 | with metadata ignored, a key whose first part is `_version` or `_migration_log` is in no bucket |
| ConfigDiff.OthersKeepBucket | ccbt/config/config_diff.py:43-45 | every other key is in the bucket it is in otherwise, with the same values |
| ConfigDiff.DiffSwaps | ccbt/config/config_diff.py:42-73 | swapping the sides exchanges added with removed and flips each modified pair |
| ConfigDiff.NoDiffIffSameLeaves | ccbt/config/config_diff.py:42-73 | the three change buckets are empty exactly when the leaf maps are equal |
| ConfigDiff.NoReportIff | ccbt/config/config_diff.py:42-73 | with metadata ignored, the three change buckets are empty exactly when the leaves outside those two top keys agree |
| ConfigPatch.PatchReads | ccbt/config/config_diff.py:42-146 | in whatever order the changes of a diff come, the last one at or above a path leaves there what c2 has |
| ConfigPatch.BlockedIff | ccbt/config/config_diff.py:243-260 | a write of the patch is blocked exactly when a key of a leaf of c1 above it comes later |
| ConfigPatch.PatchOrderIff | ccbt/config/config_diff.py:42-146 | patching in a given order succeeds exactly when no key of a leaf of c2 comes before the key of a leaf of c1 above it, and then gives exactly the leaves of c2 |
| ConfigPatch.DiffThenPatch | ccbt/config/config_diff.py:42-146 | applying the diff of (c1, c2) to c1 in any order succeeds and gives exactly the leaves of c2, when nothing clashes |
| ConfigPatch.ClashRaises | ccbt/config/config_diff.py:243-260 | when a leaf of c1 stands above leaves of c2, some order raises |
| ConfigPatch.PatchAnyOrderIff | ccbt/config/config_diff.py:42-146 | patching is right in every order exactly when nothing clashes |
| ConfigPatch.GoodOrder | ccbt/config/config_diff.py:42-146 | whatever clashes, patching is right in some order: the leaves of c1 first |
| ConfigPatch.LeafBecomesSection | ccbt/config/config_diff.py:243-260 | a diff with an order in which patching raises |
| EnvOverlay.GetEnvConfig | ccbt/config/config.py:379-392 | the loop over the table builds the tree of the variables that are set, in the order of the table |
| EnvOverlay.AssignmentsAre | ccbt/config/config.py:386-390 | what is set, in order: exactly the rows whose variable, looked up by its name, has a value, each with that value parsed for the row's path |
| EnvOverlay.EnvTreeReads | ccbt/config/config.py:379-392 | when no path leads through another, setting never raises, each set path reads its last value, and no other path has a leaf |
| EnvOverlay.LoadedConfigReads | ccbt/config/config.py:133-135 | over the file's tree, each set path reads its environment value and every leaf neither above nor below a set path keeps its value |
| EnvOverlay.EnvOrderIrrelevant | ccbt/config/config.py:133-135 | the order in which the variables are set does not matter |
| EnvOverlay.MappedPrefixFree | ccbt/config/config.py:149-350 | no path of the table leads through another |
| EnvOverlay.MappedAssignments | ccbt/config/config.py:149-350 | so any choice of mapped paths satisfies the hypothesis of the theorems above |
| EnvOverlay.TableLoads | ccbt/config/config.py:133-392 | the same for any table in which no path leads through another, mapped or not |
| EnvOverlay.MappedTableLoads | ccbt/config/config.py:133-392 | for any table whose rows name mapped paths, any environment and any parsing: setting never raises; a path reads the parsed value of the last row for it whose variable is set; a path above or below a set one reads no leaf; any other reads the file |
| EnvOverlay.LoadConfig | ccbt/config/config.py:133-135 | end to end, in terms of the table, the environment and the parser: it raises exactly when the tree of the values cannot be built, never when no row's path leads through another's, and then every path reads the last set row for it, nothing along a set one, and the file elsewhere |
| CapabilityCache.SystemCapabilities.GetCached | ccbt/config/config_capabilities.py:33-48 | a value exactly while it is younger than the time to live; an expired entry is deleted and nothing else changes |
| CapabilityCache.SystemCapabilities.SetCached | ccbt/config/config_capabilities.py:50-58 | the entry is stored with the present time and nothing else changes |
| CapabilityCache.SystemCapabilities.DetectStorageType | ccbt/config/config_capabilities.py:459-569 | the answer and the new cache of a cached probe |
| CapabilityCache.SystemCapabilities.DetectStorageSpeed | ccbt/config/config_capabilities.py:571-613 | the answer and the new cache of a cached value computed from the cached probe |
| CapabilityCache.SystemCapabilities.ClearCache | ccbt/config/config_capabilities.py:708-710 | the cache is empty |
| CapabilityCache.TypeAnswerIs | ccbt/config/config_capabilities.py:459-569 | a type under its key and younger than the time to live is answered as it is; otherwise the probe's answer is, and is stored under that key with the present time |
| CapabilityCache.SpeedAnswerIs | ccbt/config/config_capabilities.py:571-613 | the same for a speed, which is computed from the type answered now; no key but these two is touched |
| CapabilityCache.SpeedTable | ccbt/config/config_capabilities.py:588-611 | the two speeds and the category of each kind of storage |
| CapabilityCache.TypeAnswer | ccbt/config/config_capabilities.py:459-569 | from a sound cache, the type answered was probed at the present instant or less than one time to live ago, and the cache stays sound |
| CapabilityCache.SpeedAnswer | ccbt/config/config_capabilities.py:571-613 | the same for the speed with twice the time to live |
| CapabilityCache.RunSound | ccbt/config/config_capabilities.py:33-58 | every run of detections and clearings under a non-decreasing clock keeps the cache sound |
| CapabilityCache.BoundedStaleness | ccbt/config/config_capabilities.py:459-613 | over every run: a type answered is younger than one time to live, a speed rests on a probe younger than two |
| CapabilityCache.StalenessTight | ccbt/config/config_capabilities.py:571-613 | no smaller bound holds: for every d below the time to live there is a run whose speed rests on a probe exactly 2 d old |
| SystemTuning.Config.AdjustForSystem | ccbt/config/config_conditional.py:286-312 | all nine passes in sequence on a copy; the configuration passed in is unchanged |
| SystemTuning.Config.ApplyConditionalConfig | ccbt/config/config_conditional.py:33-54 | the first six passes in sequence on a copy |
| SystemTuning.Config.ValidateAgainstSystem | ccbt/config/config_conditional.py:429-489 | valid exactly when the system has every feature that is switched on |
| SystemTuning.AdjustIdempotent | ccbt/config/config_conditional.py:56-427 | tuning a tuned configuration changes nothing, although several passes write the same fields |
| SystemTuning.InterfacesDoNotShow | ccbt/config/config_conditional.py:136-354 | what the network pass decides from the number of interfaces never shows in the result: the peer pass overrides it |
| SystemTuning.AdjustedIsSupported | ccbt/config/config_conditional.py:429-489 | the tuned configuration always passes the validity flag |
| SystemTuning.ValidIffNothingSwitchedOff | ccbt/config/config_conditional.py:429-489 | a configuration is valid for a system exactly when tuning it would switch no feature off |
| SystemTuning.TunedFeatures | ccbt/config/config_conditional.py:56-427 | two features are set to what the system has, the other two kept only where it has them |
| SystemTuning.TunedCache | ccbt/config/config_conditional.py:56-284 | the cache size in closed form over the memory and the disk pass, which both write it |
| SystemTuning.TunedBuffers | ccbt/config/config_conditional.py:56-427 | read-ahead and both socket buffers are the value nearest to the configured one that the memory allows |
| SystemTuning.TunedWorkers | ccbt/config/config_conditional.py:56-427 | hash and disk workers by number of processors, zero and less included |
| SystemTuning.TunedTimeout | ccbt/config/config_conditional.py:356-385 | the timeout is the nearest value of at most 30, at most 60 or at least 90 seconds |
| SystemTuning.TunedPeers | ccbt/config/config_conditional.py:314-354 | the global peer limit in closed form, whatever was configured |
| SystemTuning.TunedPeersPerTorrent | ccbt/config/config_conditional.py:314-354 | the limit per torrent in closed form; its caps of 50, 30 and 20 never bind |
| SystemTuning.ConditionalIs | ccbt/config/config_conditional.py:33-54 | the six passes agree with all nine except in the last three passes' fields, and hold the global limit by the number of interfaces |
| SystemTuning.PeerLimits | ccbt/config/config_conditional.py:314-354 | per-torrent peers never exceed global peers, both have fixed ceilings, and the former is positive exactly from 0.6 GiB |
| SystemTuning.AdjustKeepsRangesIff | ccbt/config/config_conditional.py:56-427 | fields that start in their declared ranges stay there exactly with at least 0.6 GiB and, where workers are lowered, a CPU |
| SystemTuning.FailedProbeLeavesRange | ccbt/config/config_conditional.py:314-354 | with no memory reported the declared defaults leave their range: both peer limits become zero |
| PortValidation.Config.FillDefaults | ccbt/models.py:2317-2328 | the default ports, as a function of the settings before |
| PortValidation.FindConflicts | ccbt/models.py:2352-2366 | the seen-map loop reports exactly the ports with more than one name, with all their names in order, and nothing exactly when the ports are pairwise distinct |
| PortValidation.SharedPorts | ccbt/models.py:2362-2366 | the reporting loop lists exactly the ports with more than one name |
| PortValidation.Config.ValidateConfig | ccbt/models.py:2311-2402 | accepts exactly when TCP ports are pairwise distinct, UDP ports are pairwise distinct and an enabled DHT port differs from the TCP port; it reports exactly the ports of either protocol with several names, with all their names in order; the settings afterwards are the defaulted ones, with limits reflected on acceptance |
| PortValidation.AcceptedIff | ccbt/models.py:2311-2402 | in terms of the settings as given: a conflict exactly when two non-zero ports of one protocol are equal, out of the nine pairs, with the defaults filled in; else rejected exactly when the DHT is on the TCP port |
| PortValidation.ValidatedIs | ccbt/models.py:2311-2402 | every field afterwards: three ports filled in, and on acceptance a limit in place of a global limit of zero |
| PortValidation.CollectedIs | ccbt/models.py:2330-2348 | which names each port is collected under, for each protocol |
| PortValidation.NamesAtAre | ccbt/models.py:2352-2366 | the names reported for a port are those collected with it, in the order of collection |
| PortValidation.DistinctIff | ccbt/models.py:2350-2383 | pairwise distinct means that no port carries two names |
| PortValidation.ValidationIdempotent | ccbt/models.py:2311-2402 | validating accepted settings again accepts them unchanged |
| PortValidation.DefaultTrackerCollidesIff | ccbt/models.py:2321-2328 | the default tracker port collides with the UDP listen port or the DHT port exactly when the DHT port is next to a UDP listen port of 64123, or of 64122 with the DHT enabled |
| PortValidation.FallbackRejected | ccbt/models.py:2321-2328 | the default listen port with the DHT next to it is rejected through the fallback port |

## Left out

Bencode:

- `int()` is an optional sign and ASCII digits; the whitespace, underscore and Unicode-digit forms that Python also takes are not modelled.
- Python `bool` (which encodes as `iTruee`), lone surrogates in `str`, recursion limits, and exact exception classes and messages: every exception is one named error outcome.
- A key of negative length in `BencodeDecoder` and `BencodeReader` is the outcome `NegativeKeyLength`; what the machine does then is modelled in `BencodeCursor` only.
- BencodeDecoder.BencodeDecoder.DecodeString: stops with that outcome where the code would move its cursor backwards.
- BencodeCursor.DecodeAgrees: does not compare the machine with the reader on inputs that reach a negative key length; there BencodeDivergence.EndsSoonOrNever bounds how deep it can get.
- The number of steps of the unrestricted machine is not bounded, only the length of a chain of nested calls and turns.
- Current Python versions limit the digits that `int(text)` and the formatting of an integer take (4300 by default); integers are unbounded here, so longer ones, which Python refuses, round-trip in the model.
- The encoder's errors are one value, `Unencodable`; which of two unsupported parts is met first is not modelled.
- `sorted` is modelled as insertion sort; StableSort.SortUnique makes the choice of algorithm invisible.

Configuration trees:

- Leaves are compared structurally, so Python's `1 == True` and a NaN that differs from itself are not modelled.
- Theorems on diff and patch assume non-empty dot-free keys and, apart from those on the buckets, no null leaves (`Plain`); the functions themselves are defined on all trees.
- ConfigMerge.DeepMergeWithConflicts: states which conflicts are reported, not in which order or how often, because a dictionary is visited in arbitrary order here.
- ConfigMerge.ShallowMergeWithConflicts: the same.
- ConfigMerge.MergeConfigs: the same for each configuration's part of the log.
- DottedKeys.GetAllKeys: states which keys are listed, not their order, for the same reason.
- A resolver is a function of key and values; it may raise or return None, and has no state of its own.
- PatchInPlace.ApplyEdits: assumes that the sections that are written share no dictionary with each other or with the configuration passed in, and that the latter shares none within itself.
- ConfigMerge.MergeConfig: builds new values; MergedDicts.MergeDicts is the same loop on the heap.
- MergedDicts.MergeDicts: assumes that the two sides share no dictionary, and does not say path by path which of their dictionaries the result took over; the merger with conflict policies is modelled on values only.
- NestedDicts.SetNestedValue: assumes that the tree, and the section written into it, share no dictionary within themselves or with each other.
- NestedDicts.RemoveNestedValue: assumes that the tree shares no dictionary within itself.
- Reading the environment and parsing a value are parameters; file formats, list-valued settings, password decryption, reports and file comparison are left out.

Stateful pieces:

- CapabilityCache.BoundedStaleness: a call is one instant, so the time a probe takes is not modelled; the probe is any function of path and time.
- CapabilityCache.SystemCapabilities.DetectStorageType: likewise; the two clock readings of the code are one.
- CapabilityCache.SystemCapabilities.DetectStorageSpeed: likewise; and the dictionary it returns is the very one it caches, so that a caller who edits the answer edits the cache, while here both are values.
- The other detectors appear as events that use keys of their own; a cached `None` is not modelled.
- SystemTuning works in real arithmetic, so floating-point rounding is not modelled; log lines and the recommendation functions are left out.
- SystemTuning.Config.AdjustForSystem: the list of warnings it also returns is not modelled.
- SystemTuning.Config.ApplyConditionalConfig: nor is this one's.
- SystemTuning.Config.ValidateAgainstSystem: nor is this one's; only the flag is.
- EnvOverlay.MappedAssignments: the 172 mapped paths are given as names by section, not as the table's rows; EnvOverlay.MappedTableLoads takes any table over those paths, and EnvOverlay.LoadConfig any in which no path leads through another.
- PortValidation reports conflicts as pairs of port and names instead of message text; the field-by-field range checks of the settings (a default tracker port of 65536, for instance) are left out.
- Command line, daemon, network protocol, disk I/O, hot reload, backups, encryption and migration are not modelled.
