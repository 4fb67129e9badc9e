# A verified model of the CasperLabs execution engine

Dafny models, with proofs, of five parts of the execution engine:

1. the 512-bit integer of the AssemblyScript contract library (`Arith`, `Digits`, `Limbs`, `LimbLoops`, `LimbText`,
   `BigNum`): sixteen 32-bit limbs updated in place, with schoolbook arithmetic, shift-subtract division and codecs;
2. the byte format of values, types and keys (`Bytesrepr`, `Uint`, `CLTypes`, `Keys`);
3. transforms and effects (`Ints`, `Transforms`, `Additive`, `Effects`, `Cuts`, `Tracking`, `Results`), and the deploy
   that runs payment, session and finalization and merges what they did (`Accounting`, `Deploy`);
4. the mint and the proof-of-stake contract (`MapSum`, `Mint`, `Stakes`, `Queue`, `ProofOfStake`, `Solvency`,
   `Settlement`, `PosRuns`, `PosContract`);
5. the metrics accumulator shared by one pusher and any number of drainers (`Accumulator`).

`dafny verify dfyconfig.toml` checks everything.

Code that works in place is a class or a method here too: `BigNum.U512`, `Stakes.StakesTable`, `Queue.PendingQueue`,
`Mint.MintContract`, `PosContract.Contract`, `Additive.AdditiveMap`, `Tracking.TrackingCopy`,
`Results.ExecutionResultBuilder`, `Deploy.Deploy`, `Accumulator.Buffers`. Each method is proved against a function of
the state before, and the main results are lemmas about those functions. The accumulator's locks are modelled as a
state machine whose steps are the lock operations, in every interleaving.

## The main results

- Division (`BigNum.U512.DivMod`) is exact Euclidean division for every pair of operands; no shift in it loses a bit.
- Over every run of bonds, unbondings, block steps, finalizations, transfers, payments to accounts and mints
  (`PosRuns.SolventForever`) the bonding purse covers all stakes and both queues, its surplus never shrinks, and the
  money grows by exactly what the system account mints, as long as only the contract spends from that purse. If every
  account has a purse the mint knows, it keeps one, and no payout ever fails (`PosRuns.HomedForever`,
  `Solvency.StepPaysAll`).
- A settled deploy returns one merged effect. Committed to the state before the deploy, it leaves the state that payment,
  session and finalization leave in turn, a failed session undone, if and only if no merge failed and what was cut off
  the amounts under each key, within the phases and between them, comes to nothing at the width of the integer stored
  there (`Deploy.Deploy`). The same is exact for the record of one phase (`Tracking.RecordReplaysIff`) and for the
  builder (`Results.BuildPreservesMeaning`). 512-bit amounts always meet it (`Deploy.WideDeployReplays`). A deploy
  charged by force moves exactly the maximal payment from the account to the rewards.
- Encoding and parsing of types are inverse in both directions (`CLTypes.CLTypeLawful`).
- For every interleaving the accumulator keeps order and loses only what expires (`Accumulator.QueueOverRuns`), and a
  push ends after at most four steps of its own (`Accumulator.PushIsWaitFree`).

## Where the code does not do what one might expect

Each of these is stated with the exact condition.

- Merging two additions (`Transforms.CombineRefinesSequence`) can change the sum: an `AddUInt64` followed by an
  `AddInt32` is cut to 32 bits before it meets a 64-bit integer. `Transforms.MergeCanLose` gives the case and
  `Transforms.MergeExact` says when it does not happen. 512-bit amounts always merge exactly. Over several merges the
  cuts can make up for each other (`Cuts.CutsCanCancel`), so a whole record is right more often than each of its merges:
  exactly when the cuts under each key add up to nothing (`Cuts.ReplaysIff`).
- The comment on `finalize_payment` promises an empty payment purse at the end of each deploy.
  `Settlement.PaymentPurseEmptyIff` shows, from the state before the call, when that holds;
  `Settlement.RefundIntoPaymentPurse` shows that it does not when the refund purse that was set is the payment purse
  itself.
- The forced transfer writes the account's balance and adds to the rewards under two keys. If both were one key the
  second insertion would replace the first and the balance would grow by the charge (`Accounting.ChargedIff`,
  `Accounting.ForcedOntoItself`).
- The comment on `Stakes::unbond` says a request above the stake takes all of it. The code refuses such a request, and
  so does the model.
- A vector of keys or strings writes its length as a `u32` without checking it, so it round trips exactly below 2^32
  entries (`Bytesrepr.VecRoundTrip`, `Keys.KeyVecRoundTrip`). The size check of `BTreeMap` looks at the lower bound of
  a flattened iterator, which is 0, so it never refuses anything (`Bytesrepr.MapRoundTrip`).
- A parsed `U512` re-encodes to its own bytes only if its last significant byte is not zero (`Uint.Reencodes`).

## How the model abstracts

- Amounts are naturals below 2^512. An overflow that panics in the source is the error `Panicked`, and a call that
  ends in an error is rolled back. `Stakes` limits multiply the total by up to 10^9; where a statement needs that
  product to fit it says so.
- A host function that aborts the deploy (a balance it cannot read, an account key that holds something else) ends the
  contract call with `Panicked`, also where the contract ignores failed payouts. `Purses.others` are such keys.
- Addresses come from a generator that never repeats one. Purse references carry their three rights.
- The clock, the caller, the phase and the block time are parameters.
- What the Wasm executor does in a phase is a list of reads, writes and additions with a gas cost, and it may fail.
  The session is handed its gas limit and is taken to stay within it.
- `shr` compares indices as signed numbers.
- Constants of 512-bit size are named through their bounds (`BigNum.LIMBS`, `Ints.WIDEST`), and `Cuts.PLUS` is wrapping
  addition named through what it computes, so that proofs treat them as symbols.

## Model

| member | source | states |
|---|---|---|
| BigNum.U512.constructor | execution-engine/contract-as/assembly/bignum.ts:28-30 | sixteen zero limbs, the number 0 |
| BigNum.U512.Add | execution-engine/contract-as/assembly/bignum.ts:93-106 | the sum modulo 2^512 in place, also when a number is added to itself |
| BigNum.U512.Increment | execution-engine/contract-as/assembly/bignum.ts:140-145 | plus one modulo 2^512, the carry rippling as far as it must |
| BigNum.U512.Decrement | execution-engine/contract-as/assembly/bignum.ts:147-152 | minus one modulo 2^512 |
| BigNum.U512.Neg | execution-engine/contract-as/assembly/bignum.ts:108-116 | the negation modulo 2^512, in new storage |
| BigNum.U512.Sub | execution-engine/contract-as/assembly/bignum.ts:118-121 | the difference modulo 2^512 in place |
| BigNum.U512.AddRow | execution-engine/contract-as/assembly/bignum.ts:129-135 | the inner multiplication loop leaves the limbs of the running total plus one row |
| BigNum.U512.Mul | execution-engine/contract-as/assembly/bignum.ts:123-138 | the product modulo 2^512; operands unchanged |
| BigNum.U512.Clone | execution-engine/contract-as/assembly/bignum.ts:180-190 | equal limbs in storage of its own |
| BigNum.U512.Bits | execution-engine/contract-as/assembly/bignum.ts:192-201 | the bit length: below 2^b and, unless zero, at least 2^(b-1) |
| BigNum.U512.Shl | execution-engine/contract-as/assembly/bignum.ts:254-271 | times 2^shift modulo 2^512, for every shift |
| BigNum.U512.ShlLimbInto | execution-engine/contract-as/assembly/bignum.ts:262-267 | one turn of the loop moves one limb into the result, or-ing what crosses the limb border |
| BigNum.U512.Shr | execution-engine/contract-as/assembly/bignum.ts:273-290 | divided by 2^shift, for every shift |
| BigNum.U512.ShrLimbInto | execution-engine/contract-as/assembly/bignum.ts:281-286 | likewise for the right shift |
| BigNum.U512.Cmp | execution-engine/contract-as/assembly/bignum.ts:292-303 | the order of the two numbers |
| BigNum.U512.SetBitAt | execution-engine/contract-as/assembly/bignum.ts:231 | setting a clear bit adds its weight and leaves lower bits clear |
| BigNum.U512.TakeOff | execution-engine/contract-as/assembly/bignum.ts:229-232 | quotient times divisor plus remainder is kept, the remainder falls below the shifted divisor |
| BigNum.U512.Halve | execution-engine/contract-as/assembly/bignum.ts:233 | the divisor for the next lower bit |
| BigNum.U512.SubtractDown | execution-engine/contract-as/assembly/bignum.ts:225-235 | the loop keeps that sum and ends with a remainder below the divisor |
| BigNum.U512.Reduce | execution-engine/contract-as/assembly/bignum.ts:225-237 | in-place division of a number by a divisor of no more bits |
| BigNum.U512.DivMod | execution-engine/contract-as/assembly/bignum.ts:203-238 | null exactly for divisor 0; else this = q * other + r with r < other, both operands unchanged |
| BigNum.U512.ToBytesLE | execution-engine/contract-as/assembly/bignum.ts:335-342 | the 64 little-endian bytes of the number |
| BigNum.U512.SetBytesLE | execution-engine/contract-as/assembly/bignum.ts:344-349 | the number those bytes denote |
| BigNum.U512.ToBytes | execution-engine/contract-as/assembly/bignum.ts:403-421 | the same bytes as the Rust encoder, for every number |
| BigNum.U512.FromBytes | execution-engine/contract-as/assembly/bignum.ts:385-401 | a number exactly for the inputs the Rust decoder accepts, with the same value; null for no input, a trap otherwise |
| BigNum.U512.SetHex | execution-engine/contract-as/assembly/bignum.ts:56-82 | the value of the leading hexadecimal digits modulo 2^512; a trap exactly when the character after them is outside the digit table |
| BigNum.CountDigits | execution-engine/contract-as/assembly/bignum.ts:60-64 | the number of leading hexadecimal digits, and whether the lookup behind them traps |
| BigNum.U512.ToHex | execution-engine/contract-as/assembly/bignum.ts:351-379 | digits that denote the number, without leading zeros |
| BigNum.HexRoundTrip | execution-engine/contract-as/assembly/bignum.ts:56-82 | reading back what ToHex wrote gives the number |
| BigNum.HexBytes | execution-engine/contract-as/assembly/bignum.ts:66-78 | two digits to a byte from the end of the text; what does not fit is dropped |
| BigNum.LastByte | execution-engine/contract-as/assembly/bignum.ts:72-76 | the byte of the last two digits, or of the one that is left |
| BigNum.TopByteIndex | execution-engine/contract-as/assembly/bignum.ts:355-361 | the highest byte that is not zero |
| BigNum.FirstByteText | execution-engine/contract-as/assembly/bignum.ts:360-370 | one or two digits that denote the byte, no leading zero |
| BigNum.HexText | execution-engine/contract-as/assembly/bignum.ts:360-379 | digits that denote the bytes, no leading zero |
| BigNum.LengthPrefixed | execution-engine/contract-as/assembly/bignum.ts:405-419 | the count of significant bytes and then those bytes |
| Limbs.ShlValue | execution-engine/contract-as/assembly/bignum.ts:254-271 | the limbs a left shift leaves denote the product modulo 2^512 |
| Limbs.ShrValue | execution-engine/contract-as/assembly/bignum.ts:273-290 | the limbs a right shift leaves denote the quotient |
| LimbLoops.Accumulate | execution-engine/contract-as/assembly/bignum.ts:132-134 | the 64-bit accumulator never overflows and its upper half is a limb |
| LimbLoops.AddValue | execution-engine/contract-as/assembly/bignum.ts:97-104 | the limbs of the carry loop denote the sum modulo 2^512 |
| LimbLoops.MulValue | execution-engine/contract-as/assembly/bignum.ts:127-136 | the limbs of the nested loops denote the product modulo 2^512 |
| LimbLoops.TopLimbBits | execution-engine/contract-as/assembly/bignum.ts:194-199 | 32 per lower limb plus the bits of the top limb is the bit length |
| LimbLoops.AlignedShift | execution-engine/contract-as/assembly/bignum.ts:225-226 | aligning the divisor loses no bit and leaves more than half the dividend |
| LimbLoops.SetBit | execution-engine/contract-as/assembly/bignum.ts:231 | or-ing a clear bit into a limb adds its power of two to the number |
| LimbLoops.QuotientBit | execution-engine/contract-as/assembly/bignum.ts:229-233 | moving one shifted divisor from remainder to quotient keeps the dividend |
| LimbText.BytesOfIsToLe | execution-engine/contract-as/assembly/bignum.ts:335-342 | limbs stored one after the other are the bytes of the number |
| LimbText.LoadedValue | execution-engine/contract-as/assembly/bignum.ts:344-349 | limbs loaded from a buffer denote what its bytes denote |
| Bytesrepr.DeserializeInverts | execution-engine/types/src/bytesrepr.rs:64-71 | a whole buffer holding an encoding gives the value back |
| Bytesrepr.PrefixFree | execution-engine/types/src/bytesrepr.rs:25-36 | no encoding is a proper prefix of another |
| Bytesrepr.UnsignedRoundTrip | execution-engine/types/src/bytesrepr.rs:134-162 | an n-byte write of x reads back as x modulo 256^n and leaves the rest |
| Bytesrepr.ScalarsLawful | execution-engine/types/src/bytesrepr.rs:85-162 | bool, u8, u32 and u64 round trip before any rest, and parsing consumes exactly the encoding |
| Bytesrepr.PairLawful | execution-engine/types/src/bytesrepr.rs:589-604 | so do tuples of such types |
| Bytesrepr.OptionLawful | execution-engine/types/src/bytesrepr.rs:216-248 | so do options |
| Bytesrepr.ResultLawful | execution-engine/types/src/bytesrepr.rs:544-572 | so do results |
| Bytesrepr.ByteVecLawful | execution-engine/types/src/bytesrepr.rs:179-200 | so do byte vectors, up to the size the encoder refuses |
| Bytesrepr.DecodeVecLoop | execution-engine/types/src/bytesrepr.rs:332-344 | the loop over the remaining slice decodes the counted items, or fails where the first of them fails |
| Bytesrepr.VecRoundTrip | execution-engine/types/src/bytesrepr.rs:332-360 | vectors round trip if and only if they have fewer than 2^32 items |
| Bytesrepr.VecReencodes | execution-engine/types/src/bytesrepr.rs:332-360 | a parsed vector re-encodes to what was consumed |
| Bytesrepr.MapOfFixed | execution-engine/types/src/bytesrepr.rs:511-527 | inserting pairs in turn gives an ordered map, and the pairs themselves exactly if their keys ascend |
| Bytesrepr.MapRoundTrip | execution-engine/types/src/bytesrepr.rs:474-527 | ordered maps round trip if and only if they have fewer than 2^32 entries |
| Bytesrepr.MapReencodes | execution-engine/types/src/bytesrepr.rs:511-527 | a parsed map re-encodes to what was consumed if and only if its keys ascended |
| Uint.ToBytesShape | execution-engine/types/src/uint.rs:43-54 | skipping zeros backwards, pushing the count and reversing gives the count and the significant bytes |
| Uint.RoundTrip | execution-engine/types/src/uint.rs:43-68 | every number of the width reads back, leaving the rest |
| Uint.Reencodes | execution-engine/types/src/uint.rs:56-68 | a parsed number fits the width, and re-encodes to its bytes if and only if the last one is not zero |
| CLTypes.FromBytes | execution-engine/types/src/cl_type.rs:171-248 | every successful parse consumes at least one byte, which is why nesting ends |
| CLTypes.AppendOnto | execution-engine/types/src/cl_type.rs:117-168 | appending adds the same bytes to any stream |
| CLTypes.SerializedLenCorrect | execution-engine/types/src/cl_type.rs:81-110 | the length computed without encoding is the length of the encoding |
| CLTypes.ParseInvertsEncode | execution-engine/types/src/cl_type.rs:171-273 | parsing an encoding followed by anything gives the type and leaves the rest |
| CLTypes.EncodeInvertsParse | execution-engine/types/src/cl_type.rs:171-273 | a successful parse consumed exactly the encoding of its result |
| CLTypes.CLTypeLawful | execution-engine/types/src/cl_type.rs:117-282 | both together: a bijection between types and the byte strings the parser consumes |
| CLTypes.CLValueLawful | execution-engine/types/src/cl_value.rs:78-102 | values with their type round trip both ways, and their cheap length is right |
| CLTypes.SumLenCorrect | execution-engine/types/src/cl_value.rs:104-109 | the precomputed length of a list is that of its encoded items |
| CLTypes.ValuesRoundTrip | execution-engine/types/src/cl_value.rs:104-153 | every list the encoder accepts reads back whole; its length prefix never wraps |
| Keys.AddrLawful | execution-engine/types/src/bytesrepr.rs:425-446 | 32-byte addresses round trip both ways |
| Keys.RightsLawful | execution-engine/types/src/access_rights.rs:54-68 | access rights round trip both ways; unknown bits are refused |
| Keys.URefLawful | execution-engine/types/src/uref.rs:126-142 | references with optional rights round trip both ways |
| Keys.KeyLawful | execution-engine/types/src/key.rs:220-274 | keys of all four kinds round trip both ways |
| Keys.KeyVecRoundTrip | execution-engine/types/src/key.rs:276-306 | vectors of keys round trip if and only if they have fewer than 2^32 entries |
| Ints.IntRoundTrip | execution-engine/types/src/bytesrepr.rs:119-177 | signed and unsigned integers of every width round trip |
| Ints.WrapEqual | execution-engine/types/src/uint.rs:116-121 | two numbers wrap to one value if and only if they are congruent modulo the size of the type |
| Ints.WrapTwice | execution-engine/types/src/uint.rs:116-268 | wrapping at every step of two additions or once at the end is the same |
| Ints.SignExtension | execution-engine/types/src/uint.rs:128-148 | casting a negative number to a wide unsigned type gives its two's complement |
| Transforms.MergeExactIff | execution-engine/engine-shared/src/transform.rs:183-210 | the merged amount acts on an integer type like both amounts in turn if and only if the condition on widths and sum holds |
| Transforms.NumbersMerge | execution-engine/engine-shared/src/transform.rs:109-148 | for stored integers: merged and sequential addition agree if and only if that condition holds |
| Transforms.KeysMerge | execution-engine/engine-shared/src/transform.rs:161-176 | merging named keys, the later binding winning, is adding them in turn |
| Transforms.CombineRefinesSequence | execution-engine/engine-shared/src/transform.rs:150-263 | for any two transforms that apply in turn: the combined one gives the same value if and only if no amount was cut |
| Transforms.MergeCanLose | execution-engine/engine-shared/src/transform.rs:212-263 | two additions whose combination is not a failure and still gives another value |
| Transforms.BalancesMerge | execution-engine/engine-shared/src/transform.rs:212-263 | 512-bit amounts on 512-bit balances always merge |
| Additive.AdditiveMap.InsertAdd | execution-engine/engine-shared/src/additive_map.rs:22-29 | the entry becomes its old value, or the default, plus the new one; the others stay |
| Additive.AdditiveMap.InsertAddAll | execution-engine/engine-core/src/engine_state/execution_result.rs:319-330 | all entries of a map are added, in any order |
| Effects.Commit | execution-engine/engine-storage/src/global_state/mod.rs:115-185 | on success each named key moved as its transform says and the others stayed; an error is one some key gives |
| Effects.CommitDeterministic | execution-engine/engine-storage/src/global_state/mod.rs:144-185 | the order in which the map yields its keys does not matter |
| Effects.AddEffects | execution-engine/engine-core/src/engine_state/execution_result.rs:319-330 | merges operations and transforms key by key |
| Effects.MergePreservesMeaning | execution-engine/engine-core/src/engine_state/execution_result.rs:319-330 | for effects that commit in turn: the merged one leaves the same state if and only if no key loses part of an amount |
| Effects.SumDescribes | execution-engine/engine-core/src/engine_state/op.rs:15-27 | the sum of two operations describes the combined transform: a read changes nothing, an addition overwrites nothing |
| Effects.MergeDescribes | execution-engine/engine-core/src/engine_state/execution_result.rs:319-330 | merging keeps operations and transforms of an effect in agreement |
| Effects.RecordStep | execution-engine/engine-core/src/tracking_copy/mod.rs:249-254 | recording one more transform keeps the record faithful to the view if and only if it merges exactly |
| Effects.WriteStep | execution-engine/engine-core/src/tracking_copy/mod.rs:179-184 | a recorded write, also of a new key, keeps the record faithful |
| Cuts.OffByNothing | execution-engine/engine-shared/src/transform.rs:109-148 | a stored integer that is off by an amount is right if and only if the amount is nothing modulo the size of its type |
| Cuts.AmountsInTurn | execution-engine/engine-shared/src/transform.rs:109-148 | of amounts added in turn, and one added in their place, the second result is off by the difference |
| Cuts.LeadsOn | execution-engine/engine-shared/src/transform.rs:212-263 | merging a second transform into a first leads to where both lead in turn, off by the cuts of both and of the merge |
| Cuts.ReplaysIff | execution-engine/engine-shared/src/transform.rs:212-263 | a record replays to the state it follows if and only if no merge failed and the cuts under each key come to nothing |
| Cuts.ThenFollows | execution-engine/engine-core/src/engine_state/execution_result.rs:319-330 | the merged record of two follows what both do, with the cuts of both and of the merges |
| Cuts.ThreeInTurn | execution-engine/engine-core/src/engine_state/execution_result.rs:319-330 | for three effects that commit in turn: the merged one leaves the same state if and only if under every old key no merge failed and the merged amount is the sum of the three at the stored width; new keys always come out right |
| Cuts.CutsCanCancel | execution-engine/engine-shared/src/transform.rs:212-263 | three additions of which the first two do not merge exactly and the merge of all three does |
| Tracking.TrackingCopy.constructor | execution-engine/engine-core/src/tracking_copy/mod.rs:117-126 | shows the base and has recorded nothing |
| Tracking.TrackingCopy.Fork | execution-engine/engine-core/src/tracking_copy/mod.rs:144-146 | reads what this copy shows, records only its own changes |
| Tracking.TrackingCopy.Record | execution-engine/engine-core/src/tracking_copy/mod.rs:171-183 | adds an operation and a transform under a key, keeping them in agreement |
| Tracking.TrackingCopy.Read | execution-engine/engine-core/src/tracking_copy/mod.rs:164-177 | the value in the view under the normalized key; recorded without changing what the record means |
| Tracking.TrackingCopy.Write | execution-engine/engine-core/src/tracking_copy/mod.rs:179-184 | the view changes at the normalized key, and the record still replays to it |
| Tracking.TrackingCopy.Add | execution-engine/engine-core/src/tracking_copy/mod.rs:186-261 | when it succeeds, what the view becomes, that failure changes nothing, and exactly when the record still replays |
| Tracking.TrackingCopy.Run | execution-engine/engine-core/src/tracking_copy/mod.rs:144-265 | whatever is done through a copy shows in its view and its record; at any widths the record replays to the view if and only if no merge failed and it holds, at each stored width, the sum added since the last write; in particular if no addition is cut |
| Tracking.AccessStep | execution-engine/engine-core/src/tracking_copy/mod.rs:164-261 | one read, write or addition keeps the record true to the view if and only if it is not cut |
| Tracking.ExactIffSound | execution-engine/engine-core/src/tracking_copy/mod.rs:164-261 | over a list of accesses, at any widths: the record replays to the view after each of them if and only if none is cut |
| Tracking.ExactReplays | execution-engine/engine-core/src/tracking_copy/mod.rs:144-265 | so after the whole list the record replays to the view |
| Tracking.TraceFollows | execution-engine/engine-core/src/tracking_copy/mod.rs:144-265 | a record with its cuts follows whatever is done through the copy |
| Tracking.TracedCut | execution-engine/engine-core/src/tracking_copy/mod.rs:249-254 | what has been cut under a key is the sum added since the last write less the recorded amount |
| Tracking.RecordReplaysIff | execution-engine/engine-core/src/tracking_copy/mod.rs:144-265 | the last record alone replays to the view if and only if no merge failed and each recorded amount is, at the stored width, the sum added since the last write |
| Tracking.WideIsExact | execution-engine/engine-core/src/tracking_copy/mod.rs:186-261 | accesses that add only 512-bit amounts are never cut |
| Tracking.WideCombines | execution-engine/engine-shared/src/transform.rs:212-263 | 512-bit amounts stay so when merged and merge exactly with any stored value |
| Results.ReduceIdentityWrites | execution-engine/engine-core/src/engine_state/execution_result.rs:332-364 | the loop over the written keys leaves the reduced effect |
| Results.ReducedShape | execution-engine/engine-core/src/engine_state/execution_result.rs:332-364 | same keys, only writes change, and no remaining write repeats the value the reader has |
| Results.ReductionPreservesMeaning | execution-engine/engine-core/src/engine_state/execution_result.rs:332-364 | the reduced effect commits to a state if and only if the effect does |
| Results.ExecutionResultBuilder.Build | execution-engine/engine-core/src/engine_state/execution_result.rs:261-317 | the merged result: a failed payment alone, a failed session without effect, a failed finalization as a free failure |
| Results.BuildPreservesMeaning | execution-engine/engine-core/src/engine_state/execution_result.rs:261-330 | for phases that commit in turn, a failed session counting as none: the built effect leaves the final state if and only if under every old key no merge failed and the merged amount is the sum of the phases at the stored width; so it does if no merge loses anything |
| Results.MergeInSteps | execution-engine/engine-core/src/engine_state/execution_result.rs:261-330 | if no merge loses part of an amount, the merged effect of all phases replays |
| Results.BuiltIsDescribed | execution-engine/engine-core/src/engine_state/execution_result.rs:261-364 | the operations of the built effect describe its transforms, identity writes reduced to reads included |
| Accounting.GoesOnIff | execution-engine/engine-core/src/engine_state/execution_result.rs:147-174 | no forced transfer if and only if payment succeeded and its gas was paid for |
| Accounting.CostsAreCovered | execution-engine/engine-core/src/engine_state/mod.rs:1070-1075 | the session's gas limit does not underflow, and is the largest cost whose total price neither overflows nor exceeds the payment |
| Accounting.FinalizeIsCovered | execution-engine/engine-core/src/engine_state/mod.rs:1131-1134 | so finalization finds enough in the payment purse and succeeds |
| Accounting.StoredBalanceReads | execution-engine/engine-core/src/tracking_copy/ext.rs:96-115 | a stored balance reads back |
| Accounting.CreditAdds | execution-engine/engine-core/src/engine_state/execution_result.rs:32-36 | adding to a stored balance stores the sum |
| Accounting.ForcedTransferMoves | execution-engine/engine-core/src/engine_state/execution_result.rs:9-39 | the forced effect moves exactly the charge from one balance to the other and touches nothing else |
| Accounting.ForcedOntoItself | execution-engine/engine-core/src/engine_state/execution_result.rs:9-39 | under one key the second insertion replaces the first, and the balance grows by the charge |
| Accounting.ChargedIff | execution-engine/engine-core/src/engine_state/execution_result.rs:9-39 | the account is charged if and only if the two balances have different keys |
| Deploy.Execute | execution-engine/engine-core/src/execution/executor.rs:107-155 | the phase shows in the copy, also if it fails; success returns the recorded effect, failure the snapshot from before; the record replays if and only if it keeps what was added |
| Deploy.ReadPurse | execution-engine/engine-core/src/tracking_copy/ext.rs:96-115 | the balance the copy shows; reading changes no meaning |
| Deploy.RunSession | execution-engine/engine-core/src/engine_state/mod.rs:1064-1102 | finalization starts from the state after the session, or after payment when the session failed; the session effect is its record, and leads to its state if and only if it keeps what was added |
| Deploy.RunFinalize | execution-engine/engine-core/src/engine_state/mod.rs:1109-1173 | finalization runs on a fork, reports its record, which leads to its state if and only if it keeps what was added, and fails exactly if it does |
| Deploy.Settle | execution-engine/engine-core/src/engine_state/mod.rs:1064-1187 | session, then finalization for the price of payment and session: a refusal, or one result with the total cost and the error of the session, whose effect replays all phases if and only if no merge failed and the cuts under each key come to nothing |
| Deploy.RunBoth | execution-engine/engine-core/src/engine_state/mod.rs:1064-1174 | session and finalization report what they did, finalization from the state the session leaves |
| Deploy.SettledFollows | execution-engine/engine-core/src/engine_state/execution_result.rs:261-330 | the merged record of the three phases follows all they do, whatever was cut |
| Deploy.Complete | execution-engine/engine-core/src/engine_state/mod.rs:1064-1187 | the same after a payment that covers the deploy: the session is handed the gas that is left |
| Deploy.PhasesAreCovered | execution-engine/engine-core/src/engine_state/mod.rs:1073-1133 | that gas does not underflow, and the price of both phases does not overflow |
| Deploy.BuildResult | execution-engine/engine-core/src/engine_state/mod.rs:1176-1186 | the result the builder makes of the three |
| Deploy.AfterPayment | execution-engine/engine-core/src/engine_state/mod.rs:1013-1187 | after payment code: a refusal, the forced charge, or the rest of the deploy |
| Deploy.Deploy | execution-engine/engine-core/src/engine_state/mod.rs:940-1187 | every ending of a deploy told in states: refused; charged by force, and then exactly the maximal payment moves from account to rewards; or settled, with one effect that replays payment, session and finalization if and only if no merge failed and what was cut under each key comes to nothing |
| Deploy.PaymentReplays | execution-engine/engine-core/src/engine_state/mod.rs:971-1011 | payment replays from the state before it if and only if its record keeps what was added, so if nothing is cut |
| Deploy.ChargeReplays | execution-engine/engine-core/src/engine_state/mod.rs:1048-1060 | the forced effect committed to the state before the deploy moves exactly the maximal payment |
| Deploy.SettledReplaysIff | execution-engine/engine-core/src/engine_state/mod.rs:940-1187 | if each phase keeps what it added, the effect of a settled deploy replays them if and only if the merged amounts are the sums of those of the phases |
| Deploy.ExactDeployReplays | execution-engine/engine-core/src/engine_state/mod.rs:940-1187 | at any widths: if nothing is cut, the effect of a settled deploy leaves the final state |
| Deploy.WideDeployReplays | execution-engine/engine-core/src/engine_state/mod.rs:940-1187 | so it does always where only 512-bit amounts are added |
| Mint.FundsIsBalance | execution-engine/mint/src/lib.rs:38-47 | on a well-formed ledger the balance of every known purse can be read |
| Mint.TransferSucceeds | execution-engine/mint/src/lib.rs:49-71 | a transfer succeeds if and only if rights, both purses and the funds are there |
| Mint.TransferMoves | execution-engine/mint/src/lib.rs:49-71 | it moves the amount and nothing else, keeps the total, wraps nowhere; to itself it changes nothing |
| Mint.CreateAdds | execution-engine/mint/src/lib.rs:19-36 | a new purse has its own balance and disturbs no other |
| Mint.MintContract.Mint | execution-engine/mint/src/lib.rs:19-36 | only the system account creates money; an error changes nothing |
| Mint.MintContract.Transfer | execution-engine/mint/src/lib.rs:49-71 | the ledger after the transfer, or its error and the ledger as it was |
| Mint.SupplyOverRuns | execution-engine/mint/src/lib.rs:19-71 | over every run the supply grows by exactly what the system account mints, and no two purses share a balance |
| Stakes.StakesTable.Total | execution-engine/proof-of-stake/src/stakes.rs:133-137 | the total stakes, saturating |
| Stakes.StakesTable.MaxWithout | execution-engine/proof-of-stake/src/stakes.rs:123-130 | the largest stake of the others, none if there are none |
| Stakes.StakesTable.MinWithout | execution-engine/proof-of-stake/src/stakes.rs:113-120 | the smallest stake of the others, none if there are none |
| Stakes.StakesTable.RelativeLimit | execution-engine/proof-of-stake/src/stakes.rs:46 | the share of the total, unless the product overflows |
| Stakes.SaturatedProduct | execution-engine/proof-of-stake/src/stakes.rs:46 | a saturated total does not hide that overflow |
| Stakes.StakesTable.Unbond | execution-engine/proof-of-stake/src/stakes.rs:41-79 | the payout or the error, and the table after it; the spread limit never bites |
| Stakes.StakesTable.Bond | execution-engine/proof-of-stake/src/stakes.rs:82-87 | adds to one stake, unless it overflows |
| Stakes.StakesTable.ValidateBonding | execution-engine/proof-of-stake/src/stakes.rs:90-110 | admits by the share of the total alone |
| Stakes.PayoutIff | execution-engine/proof-of-stake/src/stakes.rs:41-79 | exactly which requests are paid: part of a stake, or a whole stake that is not the last, within nine tenths of a total whose limit does not overflow |
| Stakes.UnbondKeeps | execution-engine/proof-of-stake/src/stakes.rs:41-79 | exactly the payout leaves one stake, at most nine tenths of the total, and the table is never emptied |
| Stakes.StakesSurviveUnbonding | execution-engine/proof-of-stake/src/stakes.rs:41-79 | after k successful requests at least a 10^k-th of the total is left |
| Stakes.AdmissionIff | execution-engine/proof-of-stake/src/stakes.rs:90-110 | a bond is admitted if and only if it is at most a thousand times the total and nothing overflows |
| Stakes.BondedAdds | execution-engine/proof-of-stake/src/stakes.rs:82-87 | the total grows by the bond |
| Queue.PendingQueue.Push | execution-engine/proof-of-stake/src/queue.rs:70-81 | appends, or refuses a second request or a time that went back |
| Queue.PendingQueue.PopDue | execution-engine/proof-of-stake/src/queue.rs:84-91 | returns the due entries in order and keeps the others |
| Queue.PushKeeps | execution-engine/proof-of-stake/src/queue.rs:70-81 | a push keeps the queue sorted and free of repeated validators |
| Queue.PopSplits | execution-engine/proof-of-stake/src/queue.rs:84-91 | on a sorted queue what is due is a prefix and what stays is the rest |
| Queue.PopConserves | execution-engine/proof-of-stake/src/queue.rs:84-91 | no amount is lost between the two parts |
| Queue.EntryLawful | execution-engine/proof-of-stake/src/queue.rs:33-54 | entries round trip |
| Queue.QueueRoundTrip | execution-engine/proof-of-stake/src/queue.rs:94-115 | stored queues read back whole |
| Solvency.HostReadsFunds | execution-engine/engine-core/src/execution/runtime/mod.rs:2325-2356 | on a well-formed ledger the host reads the balance of every known purse and none of others |
| Solvency.PayMoves | execution-engine/engine-core/src/execution/runtime/mod.rs:2172-2286 | a payment to an account moves its amount or nothing, keeps the total, lacks funds only when they are not there, and aborts the deploy if and only if the key holds something other than an account |
| Solvency.PaySucceeds | execution-engine/engine-core/src/execution/runtime/mod.rs:2259-2286 | a covered payment out of a writeable purse goes through, to an old account or a new one |
| Solvency.PayKeepsHomed | execution-engine/engine-core/src/execution/runtime/mod.rs:2172-2286 | a payment keeps every account with a purse the mint knows, a new account included |
| Solvency.PayEachTakes | execution-engine/proof-of-stake/src/lib.rs:74-80 | a list of payouts takes from the purse exactly what went through |
| Solvency.PayoutsAreFunded | execution-engine/proof-of-stake/src/lib.rs:44-49 | a purse that covers a list of payouts never turns one down for lack of funds |
| Solvency.CoveredIsPaid | execution-engine/proof-of-stake/src/lib.rs:44-49 | if every account has a purse the mint knows, all payouts of a covered list go through |
| Solvency.NothingAborts | execution-engine/proof-of-stake/src/lib.rs:74-80 | while every account key holds an account no payout aborts the deploy |
| Solvency.ApplyBondsAdds | execution-engine/proof-of-stake/src/lib.rs:220-223 | applying bonds adds their amounts to the stakes |
| Solvency.StepQueuesMoves | execution-engine/proof-of-stake/src/lib.rs:203-227 | stepping only moves what is owed: from queue to stakes, and out to payouts |
| Solvency.EnqueueBondOwes | execution-engine/proof-of-stake/src/lib.rs:156-176 | an enqueued bond is owed |
| Solvency.EnqueueUnbondOwes | execution-engine/proof-of-stake/src/lib.rs:181-200 | an enqueued payout is owed instead of the stake |
| Solvency.BondSurplus | execution-engine/proof-of-stake/src/lib.rs:30-51 | a bond keeps the surplus if and only if it is not paid out of the bonding purse |
| Solvency.UnbondSurplus | execution-engine/proof-of-stake/src/lib.rs:53-65 | an unbonding keeps the surplus |
| Solvency.StepSurplus | execution-engine/proof-of-stake/src/lib.rs:67-82 | a block step raises the surplus by exactly the payouts that failed, none for lack of funds |
| Solvency.StepPaysAll | execution-engine/proof-of-stake/src/lib.rs:67-82 | if every account has a purse the mint knows, a block step pays each payout that is due, fails only where stepping the queues does, and leaves the surplus as it is |
| Solvency.BondTransferFailsIff | execution-engine/proof-of-stake/src/lib.rs:30-51 | then a bond reports a failed transfer if and only if its own transfer fails, never over a payout |
| Solvency.UnbondPayoutSucceeds | execution-engine/proof-of-stake/src/lib.rs:53-65 | then an unbonding never fails over a payout |
| Settlement.FinalizeMoves | execution-engine/proof-of-stake/src/lib.rs:276-334 | what finalization does to every purse: spent to rewards, the rest to the refund purse or the account, total kept, refund purse unset |
| Settlement.RefundTakenIff | execution-engine/proof-of-stake/src/lib.rs:311-320 | whether the set refund purse takes the refund can be told before the call: it is addable and the mint knows it |
| Settlement.PaymentPurseEmptyIff | execution-engine/proof-of-stake/src/lib.rs:276-334 | in terms of the state before the call: the payment purse ends empty if and only if nothing spent and no refund goes back into it |
| Settlement.RefundIntoPaymentPurse | execution-engine/proof-of-stake/src/lib.rs:84-95 | with the payment purse named as refund purse the refund stays in it |
| Settlement.FinalizeSucceeds | execution-engine/proof-of-stake/src/lib.rs:280-323 | with the purses in place it succeeds if and only if the payment covers what was spent |
| PosRuns.FinalizeLeaves | execution-engine/proof-of-stake/src/lib.rs:280-323 | finalization leaves the bonding purse covered |
| PosRuns.CallKeepsSafe | execution-engine/proof-of-stake/src/lib.rs:23-108 | every call, payment and mint keeps solvency, never lowers the surplus, and changes the money by what it mints |
| PosRuns.SolventForever | execution-engine/proof-of-stake/src/lib.rs:23-108 | so does every run, failed calls rolled back; the money grows by exactly what the system account mints |
| PosRuns.CallKeepsHomed | execution-engine/proof-of-stake/src/lib.rs:23-108 | every call leaves every account with a purse the mint knows; bonds, unbondings and steps then keep the surplus exactly |
| PosRuns.HomedForever | execution-engine/proof-of-stake/src/lib.rs:23-108 | so does every run, and runs of bonds, unbondings and steps keep the surplus exactly |
| PosRuns.OrderedForever | execution-engine/proof-of-stake/src/queue.rs:70-91 | over every run both queues stay sorted, free of repeated validators, and within their limits |
| PosRuns.BondIsImmediate | execution-engine/proof-of-stake/src/lib.rs:143-176 | with no delay and empty queues a bond is the direct update, with the same errors, and leaves the queues empty |
| PosRuns.UnbondIsImmediate | execution-engine/proof-of-stake/src/lib.rs:143-200 | the same for an unbonding, paid at once |
| PosRuns.StepIsIdle | execution-engine/proof-of-stake/src/lib.rs:203-227 | a step with empty queues changes nothing |
| PosRuns.RunIsImmediate | execution-engine/proof-of-stake/src/lib.rs:143-227 | over every run the queued protocol is one without queues, call for call and error for error; the queues are empty between calls |
| PosRuns.StepsDrainInOrder | execution-engine/proof-of-stake/src/lib.rs:203-227 | however block steps fall, what they applied and what they left is the queue in order; one late enough drains it; none fails while every account key holds an account |
| PosRuns.AdmissionFitsFuture | execution-engine/proof-of-stake/src/lib.rs:156-176 | an admitted bond meets the stakes it was checked against, and is at most a thousand times their total |
| PosContract.Contract.TransferToAccount | execution-engine/engine-core/src/execution/runtime/mod.rs:2172-2286 | pays an account or creates it, step by step against the mint, and aborts where the host does |
| PosContract.Contract.PayAll | execution-engine/proof-of-stake/src/lib.rs:44-49 | the payout loop that stops at the first failure |
| PosContract.Contract.PayAny | execution-engine/proof-of-stake/src/lib.rs:74-80 | the payout loop that ignores failures, and ends where the host aborts |
| PosContract.Contract.BondAll | execution-engine/proof-of-stake/src/lib.rs:168-170 | the loop that bonds entry after entry |
| PosContract.Contract.QueueBond | execution-engine/proof-of-stake/src/lib.rs:156-176 | simulates earlier bonds, checks admission, queues; the simulated stakes are not written |
| PosContract.Contract.QueueUnbond | execution-engine/proof-of-stake/src/lib.rs:181-200 | writes the lowered stakes and queues the payout |
| PosContract.Contract.StepBoth | execution-engine/proof-of-stake/src/lib.rs:203-227 | the whole step: what is due leaves the queues, bonds reach the stakes, payouts are returned |
| PosContract.Contract.PopQueues | execution-engine/proof-of-stake/src/lib.rs:206-218 | pops both queues; each is written only if something was due |
| PosContract.Contract.ApplyDue | execution-engine/proof-of-stake/src/lib.rs:219-223 | bonds what was due and writes the stakes |
| PosContract.Contract.BondCall | execution-engine/proof-of-stake/src/lib.rs:30-51 | the whole call is the bond the lemmas speak of, error for error |
| PosContract.Contract.UnbondCall | execution-engine/proof-of-stake/src/lib.rs:53-65 | likewise for unbonding |
| PosContract.Contract.StepCall | execution-engine/proof-of-stake/src/lib.rs:67-82 | likewise for the block step |
| PosContract.Contract.FinalizeCall | execution-engine/proof-of-stake/src/lib.rs:280-334 | likewise for finalization |
| PosContract.Contract.Divide | execution-engine/proof-of-stake/src/lib.rs:289-300 | the purses and the refund, or the first error on the way to them |
| PosContract.Contract.PayRewards | execution-engine/proof-of-stake/src/lib.rs:301-322 | unsets the refund purse, pays the rewards, then the refund |
| PosContract.Contract.GiveRefund | execution-engine/proof-of-stake/src/lib.rs:311-334 | to the purse that was set, else or failing that to the account |
| PosContract.Contract.Perform | execution-engine/proof-of-stake/src/lib.rs:23-108 | any call, rolled back after an error |
| Accumulator.Buffers.MergeAlt | execution-engine/engine-metrics-scraper/src/accumulator.rs:71-73 | moves the side buffer behind main, as the step of the protocol does |
| Accumulator.Buffers.IsExpired | execution-engine/engine-metrics-scraper/src/accumulator.rs:74-77 | whether the last drain is longer ago than the expiration |
| Accumulator.Buffers.Append | execution-engine/engine-metrics-scraper/src/accumulator.rs:78-81 | drops the oldest item if expired, then appends |
| Accumulator.Buffers.PushMain | execution-engine/engine-metrics-scraper/src/accumulator.rs:69-82 | the three in turn: the critical section of a push |
| Accumulator.Buffers.AppendAside | execution-engine/engine-metrics-scraper/src/accumulator.rs:83-87 | appends behind everything waiting |
| Accumulator.Buffers.Drain | execution-engine/engine-metrics-scraper/src/accumulator.rs:94-100 | returns all of main, which comes before everything that stays |
| Accumulator.RunKeepsInv | execution-engine/engine-metrics-scraper/src/accumulator.rs:65-101 | every interleaving keeps the lock discipline, and everything pushed is what left, then main, then alt |
| Accumulator.QueueOverRuns | execution-engine/engine-metrics-scraper/src/accumulator.rs:65-101 | main and alt are a suffix of what was pushed; what was drained is an in-order part of the rest, and all of it when nothing expired |
| Accumulator.LossIsDue | execution-engine/engine-metrics-scraper/src/accumulator.rs:31-35 | an item is lost only by a push, one at a time, and only when the last drain is longer ago than the expiration |
| Accumulator.PushNeverWaits | execution-engine/engine-metrics-scraper/src/accumulator.rs:37-42 | the next step of a push is never blocked, not even by a waiting writer |
| Accumulator.NoDeadlock | execution-engine/engine-metrics-scraper/src/accumulator.rs:94-100 | a drainer can go on, or waits for main while its holder can |
| Accumulator.ReachableStatesMove | execution-engine/engine-metrics-scraper/src/accumulator.rs:65-101 | both hold in every state any interleaving reaches |
| Accumulator.PushIsWaitFree | execution-engine/engine-metrics-scraper/src/accumulator.rs:68-88 | a push is over, its item in the queue, after at most four turns of its own |
| Accumulator.PushAlone | execution-engine/engine-metrics-scraper/src/accumulator.rs:68-82 | undisturbed, the steps of a push add up to the critical section |
| Accumulator.DrainAlone | execution-engine/engine-metrics-scraper/src/accumulator.rs:94-100 | undisturbed, the steps of a drain add up to the critical section |

## Left out

- Wasm preparation, the executor, the runtime's other host functions, trie storage and the servers: only what a phase does to the state is modelled.
- Genesis, upgrades, module loading, account key thresholds and the checks of a deploy before its balance check: they would only add easy members.
- Tracking.TrackingCopy.Run: the read cache and its eviction are not modelled, since a cached value always equals the one the reader gives.
- Stakes stored as strings in the named keys of the contract, and the purse names: the contract's names are a record of four.
- Conversions between integer widths, which copy or truncate limbs, are the value modulo the size of the target type.
- Key, CLType, U512, queue and vector encoders that append to a growing buffer are functions on sequences; the buffer itself, its capacity and failed allocations are not modelled.
- Vectors of integers and of byte vectors, whose encoders refuse large inputs first, and fixed-size arrays: the vector and byte-array lemmas cover what they accept.
- The validity of UTF-8 in names and strings: they are byte strings.
- Hashing and the generation of addresses: a fresh address each time.
- Poisoned locks of the accumulator, which need a thread to panic while holding one.
- contract-as/assembly/bytesrepr.ts, the operators of `U512` that only call those above, error texts and display code.
