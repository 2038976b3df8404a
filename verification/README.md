# DefianceLoader, modelled and proved in Dafny

DefianceLoader patches a running game. This project models its engine and proves what it promises: a patch unit is
found by signature, relocated to a build, linked where it lands, and installed in two modules as one transaction,
whatever the process does to the writes. Around the engine it models the instruction-length decoder that makes hooks
safe, the SHA-256 that identifies builds, the JSON of the descriptors, the animation codec and compositor, the launch
protocol of the plugin host, the export lookup, and the patch inventory's overlap check.

`dafny verify dfyconfig.toml` checks everything (Dafny 4.11).

## How the model is built

Code that changes state step by step is a class or a method with the loops of the original; each is proved equal to a
function of its inputs, and the promises are lemmas about that function. A result is `Ok` or `Err`; one error
constructor stands for one family of messages (`Outcome.dfy`).

- `Bytes`, `Units`, `Spans`, `Layouts`, `Recovery`, `Checks`: little-endian words, unit descriptors, linking, the span
  check, the block layout, finding an installed block again, and what the preflight asks of memory and files.
- `Memory`, `Transaction`, `Phases`, `Apply`, `Repeat`, `Unrecognized`: the target process as a byte map under an
  arbitrary fault schedule, and the installer. `Process.schedule` decides for every operation whether it fails, what a
  torn write leaves in its span, what the span holds midway, and which address a reservation gets; `Process.trace`
  keeps every memory the process went through, so safety is stated over all of them; `Process.clean` says that no
  fault has struck.
- `Scan`, `Relocate`, `Relocated`: signature search, the distance of each function group, and relocation.
- `Decode`, `Encodings`: instruction lengths, and the encodings they are the lengths of.
- `Sha256`, `Fips`: streaming SHA-256, and the standard it computes (FIPS 180-4, sections 4 to 6).
- `Utf8`, `Json`, `RoundTrip`, `Grammar`, `Printed`: the JSON printer and parser on bytes (RFC 8259 section 7, RFC 3629
  section 3), the grammar of what is read, and the layout of what is printed.
- `Anim`, `AnimCodec`, `Clips`: ANIM v1, its two validators and its reader, and which files hold which clips. A float32
  is its bit pattern; times are compared as exact reals.
- `Rigid`, `Rotations`, `Channels`, `Samples`, `Loop`, `Compose`, `Legs`, `Strays`: quaternions, sampling, looped keys
  and the locomotion compositor over exact reals. `Maths` stands for `sqrt`, `sin` and `acos`; `Sound` says what is used
  of them: the root is the nonnegative one, `sin 0` is zero, and `sin (acos d)` is positive for `d` up to 0.9995;
  `Samples` adds a cosine and the difference formulas.
- `Launch`, `Progress`, `Exports`, `Images`: the launch protocol as a state machine over the steps of any number of launchers,
  loading threads and hosts; the export lookup through a partial reader that is defined inside the image only, so that
  verifying the search proves every read to stay inside; the image format; and the startup status block.
- `Inventory`: the sorted sweep for overlapping writes.

## Results that correct a first impression

- Relocation is not a fixed point of every unit. A relocated delta whose function lies at rva 0 is refused the second
  time, because a stock of 0 means "no stock" (`crates/core/src/unit.rs:399`). `ZeroUnitIsNoFixedPoint` shows such a
  unit, and `RelocationIsFixedPoint` proves that exactly these fail.
- A relocated unit need not be well formed any more: `Unit::relocate` does not repeat `Unit::check`, and where the
  retargeted call became another instruction the result fails it (`GoneUnitIsMalformed`). `RelocatedChecks` proves
  exactly when it passes, which is what the installer asks of its units.
- A host whose exports cannot be read counts as absent (`injector/src/host_mode.rs:309`), so two calls of `start` can
  then both answer true (`OversightAllowsTwoTrues`); a wait for a loading thread that times out
  (`TimeoutAllowsTwoHosts`), a launcher that dies with the lock (`DeathAllowsTwoHosts`) and a host loaded outside the
  lock (`OutsiderAllowsTwoHosts`) let two hosts load. `AtMostOneHost` holds for every run without these four.
- An installation is not always found again. A module that only edits is refused the second time, since no branch
  leads back to its block (`EditsAloneAreNotFound`), and so is one that wrote another byte over its own anchor
  (`OverwrittenAnchorIsNotFound`). `RepeatFindsInstalled` proves that the modules are found installed if and only if each
  has a branch whose placed bytes differ from the bytes they replace and no anchor asks for a byte that was overwritten
  with another. A block that an earlier run left is taken to lie apart from the modules and the other blocks, as every
  reserved block does.
- Looped keys out of order by less than the inspector's tolerance need not come into order (`SwappedKeysStaySwapped`).
  Of the gathered keys exactly those more than 1e-6 away from the next one stay (`CollapsedIsKept`), and the emitted
  times are in order if and only if theirs are (`LoopedTimeline`). At a time that an earlier key lies at or past, the
  composed thigh need not follow the run (`SwappedThighStrays`); `ThighFollowsRun` holds at all other key times.
- A composed thigh's sampled rotation has the run's direction; its length is the sampled quaternion's. `ThighFollowsRun`
  states the factor, and `ThighFollowsRunUpToSign` that it is a sign between rotations of one length, such as unit ones.

## Model

| member | source | states |
|---|---|---|
| Apply.Install | crates/core/src/unit_apply.rs:213-353 | For every fault schedule: a refused run, torn hook writes included, leaves every byte and every reservation as it was; "patched" changes nothing but the new blocks and the hook sites of modules not yet installed, and leaves all payloads and hooks in place; after a failed rollback exactly the blocks of the modules' plan are kept, each with its whole payload, and only sites of that plan differ; a run that ever changed a byte of before carried out the plan the preflight fixed, and in every memory on the way all its payloads were loaded while any site differed, so each finished hook enters its whole payload; a run that is not refused had fitting targets, and at every module the whole preflight passed, so every file was readable and, where there is one, has the hash each payload names; without faults a refusal is a failed check of the targets, of the preflight or of the last module prepared, and an installed set answers "already patched" |
| Apply.HookEntersItsUnit | crates/core/src/unit_apply.rs:109-136 | Write number i of unit u, when it is a branch, leads to that unit's own entry at its offset in the block, inside the unit, and there the whole linked code of that unit stands |
| Apply.FinishedBranchEnters | crates/core/src/unit_apply.rs:308-351 | At every moment of every run either no byte of before differs, or each finished branch of a module that was not installed, read from that memory, leads to its own entry in its own unit, whose whole linked code is in that memory |
| Apply.RecoveredBlockHolds | crates/core/src/unit_apply.rs:140-179 | A block is only recovered when its identity header and every placed byte of every unit are in memory |
| Apply.ValidateTargets | crates/core/src/unit_apply.rs:218-235 | The checks before a run: modules given, one process, no address overflow, ranges apart |
| Apply.TargetsDecide | crates/core/src/unit_apply.rs:218-235 | The first failed check decides the answer: no modules, two processes, an end past 2^64, or ranges that overlap; accepted ranges are pairwise apart |
| Apply.TargetsApart | crates/core/src/unit_apply.rs:232-235 | Comparing only sorted neighbours is enough: accepted module ranges are pairwise apart |
| Apply.Commit | crates/core/src/unit_apply.rs:308-346 | Payloads before hooks; the outcome of a run once everything is prepared, with every memory in between safe |
| Apply.GiveBack | crates/core/src/unit_apply.rs:347-351 | Releasing the new blocks after a failure gives back exactly the memory and the reservations of before |
| Apply.InstalledNeverFails | crates/core/src/unit_apply.rs:272-307 | When every module is installed, preparing them reserves nothing and refuses nothing |
| Phases.PrepareModule | crates/core/src/unit_apply.rs:273-307 | One module is given a new block apart from everything mapped, or its installed block is checked byte for byte outside its cells and the ring |
| Phases.WritePayload | crates/core/src/unit_apply.rs:309-312 | A payload write that is read back is completely in its block, and faults stay inside new blocks |
| Phases.WriteHooks | crates/core/src/unit_apply.rs:314-340 | All hooks are in place, or every site holds its old bytes again, or the rollback failed and only sites of this run differ |
| Phases.Rollback | crates/core/src/unit_apply.rs:324-330 | Answers true only when every touched site holds its old bytes; other bytes stay |
| Phases.ReleaseBlocks | crates/core/src/unit_apply.rs:348-350 | Releasing the blocks of a run leaves the original memory map and reservations |
| Phases.PlanSites | crates/core/src/unit_apply.rs:241-271 | After the preflight every hook site of the plan holds its stock bytes, all sites are apart, and each lies in its own module |
| Memory.Process.WriteBytes | crates/core/src/unit_apply.rs:309-320 | Whatever fault strikes, a write changes nothing outside its own span, at no moment |
| Memory.TearsAreAnything | crates/core/src/unit_apply.rs:309-330 | A failed, lost or unfinished write may leave any bytes in its span, and only there |
| Memory.Process.Reserve | crates/core/src/unit_apply.rs:275 | A reservation is new and apart from everything mapped |
| Recovery.RecoverBlock | crates/core/src/unit_apply.rs:140-179 | Reads the sites, the header and the placed bytes and answers what the memory says, or refuses |
| Recovery.CheckModules | crates/core/src/unit_apply.rs:241-271 | The preflight of all modules, before anything is reserved or written; `Checks.PreflightDecides` says what it asks |
| Checks.PreflightDecides | crates/core/src/unit_apply.rs:241-271 | A module passes if and only if its writes and anchors fit, its file is absent or has the hash every payload names, its units are laid out as stated, its block is found as memory tells, every anchor is in memory, and, without a block, so are the bytes every write replaces |
| Checks.UnfitFileRefuses | crates/core/src/unit_apply.rs:244-249 | An unreadable file, or one whose hash a payload does not name, is refused with the error of its kind |
| Checks.PreflightStops | crates/core/src/unit_apply.rs:241-271 | A refused preflight has a first module that does not pass, and the ones before it do |
| Checks.RecoversExactly | crates/core/src/unit_apply.rs:140-179 | A block is found if and only if the first branch that was written leads into it, its identity and every placed byte are in memory; none exactly when no branch was written |
| Recovery.ReadCode | crates/core/src/unit_apply.rs:286-297 | The code comparison with the cells and the ring spliced out |
| Repeat.CodeIntactMeaning | crates/core/src/unit_apply.rs:286-297 | The comparison passes exactly when the block holds the linked code outside the cells and the ring |
| Repeat.ModuleRecovers | crates/core/src/unit_apply.rs:140-179 | A module whose hooks and code stand is found again at its block exactly when one of its branches changed its site |
| Repeat.SecondModule | crates/core/src/unit_apply.rs:241-271 | The second preflight of a module: refused exactly where an anchor was overwritten with another byte or only edits changed something, found in its block where a branch tells, and taken for new where no write changed anything |
| Repeat.RepeatFindsInstalled | crates/core/src/unit_apply.rs:240-345 | After a run that patched, and any change of cells and ring, the modules are found installed if and only if each has a branch that changed its site and no anchor asks for an overwritten byte |
| Repeat.RunAgain | crates/core/src/unit_apply.rs:213-353 | The second run without faults answers "already patched" and changes no byte and no reservation exactly for those modules, and refuses where an anchor was overwritten or only edits changed something |
| Repeat.OnlyNewModulesChange | crates/core/src/unit_apply.rs:308-345 | A byte that differs after a run lies at a site of a module that was not installed before, so an installed module among others is not touched |
| Unrecognized.EditsAloneAreNotFound | crates/core/src/unit_apply.rs:143-178 | A module that only edits is installed, and the next preflight refuses its edited site |
| Unrecognized.OverwrittenAnchorIsNotFound | crates/core/src/unit_apply.rs:251-257 | A module that overwrites its own anchor is installed, and the next preflight refuses the anchor |
| Transaction.ReserveExtends | crates/core/src/unit_apply.rs:273-283 | One more reserved block keeps the account of what a run has mapped and reserved |
| Transaction.ReleaseShrinks | crates/core/src/unit_apply.rs:348-350 | Releasing the next block keeps that account |
| Transaction.QuietIsSafe | crates/core/src/unit_apply.rs:239-313 | Before a hook is touched no hook of the run is finished |
| Layouts.ComputeLayout | crates/core/src/unit_apply.rs:30-54 | The layout loop with its streaming hash computes the specified offsets and identity |
| Layouts.LayoutIsExact | crates/core/src/unit_apply.rs:30-54 | A layout is computed if and only if it is this one: a header of 32 bytes that is the digest of the installer's name and of every unit's description and code, the units in order at multiples of 16, each as long as its descriptor says, and a ring of 528 bytes behind them; otherwise a length differs or a sum passes 2^64 |
| Layouts.LayoutIsDisjoint | crates/core/src/unit_apply.rs:30-54 | Header, units and ring of a layout never overlap, and the units have their declared size |
| Layouts.LinkBlock | crates/core/src/unit_apply.rs:109-136 | The linking loop fills the block as specified |
| Layouts.LinkedModuleHolds | crates/core/src/unit_apply.rs:116-135 | A linked block has the laid-out size, starts with the identity, is zero between its units and in the ring, and its writes are those of every unit in order |
| Layouts.LinkedUnitStands | crates/core/src/unit_apply.rs:119-128 | The linked code of every unit stands whole at its offset: no later unit overwrites an earlier one |
| Layouts.SharedSlots | crates/core/src/unit_apply.rs:119-126 | In a linked unit every slot of a shared cell leads to the trace ring |
| Layouts.SharedLinks | crates/core/src/unit_apply.rs:119-126 | A unit links exactly when each cell it asks for is the trace ring, within 32 bits, and every other slot resolves |
| Layouts.PlacedAllSpans | crates/core/src/unit_apply.rs:119-134 | The placed writes cover exactly the spans that were checked |
| Spans.ValidateSpans | crates/core/src/unit_apply.rs:79-107 | The span loops answer as specified |
| Spans.NeighboursDecide | crates/core/src/unit_apply.rs:102-105 | Sorted neighbours decide whether all pairs of nonempty spans are apart |
| Spans.SpansDecideDisjointness | crates/core/src/unit_apply.rs:79-107 | Accepts exactly the units whose writes and anchors lie in the module and whose writes are pairwise disjoint |
| Units.LinkBlob | crates/core/src/unit.rs:474-517 | The fixup loop computes the linked blob |
| Units.LinkIsExact | crates/core/src/unit.rs:474-517 | With disjoint slots, linking is refused exactly when a slot cannot be resolved in 32 bits, and otherwise every slot decodes to its target and every other byte is untouched |
| Units.LinkIsIdempotent | crates/core/src/unit.rs:474-517 | Linking a linked blob for the same place changes nothing |
| Units.PlacedKeepsLength | crates/core/src/unit.rs:521-539 | A write lands at its address with as many bytes as it replaces |
| Units.PlacedBytes | crates/core/src/unit.rs:521-539 | A jump is placed as 0xe9 and a call as 0xe8, followed by the distance to the unit's entry and the tail; an edit is placed as it is |
| Units.RecoveryInvertsPlacement | crates/core/src/unit.rs:521-539 | A placed branch is 0xe9 for a jump and 0xe8 for a call, and decoding at its site gives back the block it was placed for |
| Bytes.LowByteFirst | crates/core/src/unit.rs:129-133 | Words are little-endian and signed ones in two's complement |
| Bytes.Rel32 | crates/core/src/unit.rs:129-133 | A displacement outside 32 bits is refused, and one inside leads to its target |
| Scan.ScanImage | crates/core/src/scan.rs:53-86 | The search that skips from one lead byte to the next finds what the exhaustive search finds |
| Scan.SearchIsExact | crates/core/src/scan.rs:53-86 | Exactly the offsets at which every fixed byte of the pattern stands, in increasing order; none for a pattern without a fixed byte |
| Scan.FindSites | crates/core/src/scan.rs:213-256 | The loops over sites and pairs answer as specified |
| Scan.LocateIsExact | crates/core/src/scan.rs:213-256 | Sites are located with some distances if and only if each signature stands in exactly one place, that far from its site's start, and the sites of a group moved by one distance |
| Scan.LocateRefuses | crates/core/src/scan.rs:213-256 | A refusal names the first signature that stands nowhere or in two places, or else that a group moved apart |
| Scan.MoveAddress | crates/core/src/scan.rs:261-274 | The loop over windows answers as specified |
| Scan.AtIsRigid | crates/core/src/scan.rs:261-274 | An address moves exactly when a window covers it and all covering windows moved alike; the answer is the same through each and never negative |
| Scan.FindSignature | crates/core/src/sites.rs:57-74 | Succeeds exactly when the alternatives together name one place, and tells missing from ambiguous |
| Scan.TargetIsBranch | crates/core/src/sites.rs:86-92 | A target is read exactly where a call or a jump with the distance to it stands |
| Scan.TargetReadsPlaced | crates/core/src/sites.rs:86-92 | Reading the branch that a write placed gives the entry it was aimed at |
| Relocate.Relocate | crates/core/src/unit.rs:384-469 | The relocation loops compute the specified unit or refusal |
| Relocated.RelocationTracksBuild | crates/core/src/unit.rs:384-469 | Every address moves with its sites, natives, anchors and sites included; replaced bytes and anchors are read from the image; every stock is the function this build's branch reaches and one function stays one, every delta aims at such a function, and every edit's slot leads to its moved target |
| Relocated.RelocatedChecks | crates/core/src/unit.rs:326-375 | Told from the unit, the image and the located sites: the relocated unit keeps the shape rules if and only if a rel32 branch, or one that reaches rva 0, stands where each retargeted call moves to, and no branch moves in front of a retargeted edit at its address; where no two writes move to one address only the branches count |
| Relocated.GoneUnitIsMalformed | crates/core/src/unit.rs:394-420 | A unit that passes the shape rules and whose relocation does not |
| Relocated.RelocationIsFixedPoint | crates/core/src/unit.rs:384-469 | Relocating a relocated unit changes nothing if and only if no relocated delta aims at rva 0, and is refused otherwise |
| Relocated.ZeroUnitIsNoFixedPoint | crates/core/src/unit.rs:399-433 | A unit whose relocation is refused the second time |
| Relocated.AimTwice | crates/core/src/unit.rs:435-454 | Aiming all edits a second time changes nothing, even when they overlap |
| Decode.DecodeInstruction | crates/core/src/decode.rs:35-147 | The prefix loop and the tables compute the length and relativity of `Encodings.DecodesExactly` |
| Encodings.DecodesExactly | crates/core/src/decode.rs:35-147 | Against a classification of all bytes of both opcode maps: the length is prefixes, opcode, ModRM with SIB and displacement, and immediate, with at most 15 bytes; relative are 70-7F, E0-E3, EB, E8, E9, 0F 80-8F, C7 F8 and an operand of mod 0 and r/m 5, and nothing else; every other code is refused |
| Decode.DecodeIsLocal | crates/core/src/decode.rs:35-147 | An accepted instruction has 1 to 15 bytes, lies in the code, and depends on no byte behind it |
| Decode.EncodingsArePrefixFree | crates/core/src/decode.rs:35-147 | No accepted encoding is a proper prefix of another |
| Decode.Displaced | crates/core/src/decode.rs:150-161 | The least instruction boundary at or past the minimum, and an error exactly when there is none |
| Decode.ValidateCopy | crates/core/src/decode.rs:23-33 | Accepts the spans `Encodings.CopyableExactly` describes |
| Encodings.CopyableExactly | crates/core/src/decode.rs:23-33 | A span is copyable if and only if it can be cut into encodings of which none is relative |
| Encodings.PlacedBranchDecodes | crates/core/src/unit.rs:521-539 | The branch a write places decodes as a relative instruction of five bytes, and a span that holds it is not copied |
| Decode.CopyableConcat | crates/core/src/decode.rs:23-33 | Copyable spans are closed under concatenation, and behind one only copyable code is copyable |
| Decode.CopyableEndsAtBoundary | crates/core/src/decode.rs:20-33 | A copyable span ends at an instruction boundary of any code it starts |
| Sha256.Hasher.Update | crates/core/src/sha256.rs:35-60 | Whatever is buffered, the bytes taken in are the old ones and then the input, absorbed block by block |
| Sha256.Hasher.Finish | crates/core/src/sha256.rs:62-75 | The digest of everything taken in, however it was split |
| Sha256.PaddingIsStandard | crates/core/src/sha256.rs:62-69 | The padding is that of FIPS 180-4 section 5.1.1: the fewest zero bits that leave 64 bits of a block, then the length |
| Fips.InitialIsRoots | crates/core/src/sha256.rs:23-33 | The initial hash value is the first 32 bits of the fractional parts of the square roots of the first eight primes |
| Fips.ConstantsAreRoots | crates/core/src/sha256.rs:4-13 | The round constants are those of the cube roots of the first 64 primes |
| Fips.CompressIsStandard | crates/core/src/sha256.rs:90-132 | One block is compressed as section 6.2.2 of FIPS 180-4 says: the schedule, 64 rounds of eight words with the functions stated bit by bit, and the sum |
| Fips.DigestIsStandard | crates/core/src/sha256.rs:25-75 | The digest of any message is that of FIPS 180-4: padded, cut into blocks, and chained from the initial value |
| Sha256.CompressBlock | crates/core/src/sha256.rs:90-132 | The rounds in place compute section 6.2.2 of FIPS 180-4 |
| Sha256.BuildSchedule | crates/core/src/sha256.rs:91-107 | The message schedule of the standard |
| Sha256.RunRound | crates/core/src/sha256.rs:109-128 | One round, with the working variables shifted through the array |
| Sha256.HashChunks | crates/core/src/sha256.rs:144-157 | A file's digest does not depend on where its reads fell |
| Sha256.ConcatJoins | crates/core/src/sha256.rs:144-157 | The bytes of a chunk alone are that chunk, and those of two rows of chunks are the first's and then the second's |
| Utf8.DecodeEncode | crates/core/src/json.rs:316-338 | A scalar value's encoding decodes to it, and its lead byte tells its length |
| Utf8.EncodeDecode | crates/core/src/json.rs:316-338 | Only a scalar value's own encoding decodes to it |
| Utf8.DecodeAllExactly | tools/inspect_infantry_animation.py:83-86 | Text is read from bytes if and only if the bytes are its encoding |
| Json.WriteValue | crates/core/src/json.rs:106-145 | The printer appends exactly the specified text |
| Json.RenderValue | crates/core/src/json.rs:99-104 | Rendering is the value at depth 0 and a new line |
| Json.QuoteText | crates/core/src/json.rs:155-171 | Quoting writes the escapes as specified |
| Json.Parser.AnyValue | crates/core/src/json.rs:209-221 | The parser answers as `Grammar.ParsesExactly` describes and stands where the value ends; it terminates on every input |
| Json.Parser.Entries | crates/core/src/json.rs:223-249 | The entry loop keeps the entries in order, repeated keys included |
| Json.Parser.Items | crates/core/src/json.rs:251-272 | The item loop |
| Json.Parser.Text | crates/core/src/json.rs:274-343 | The string loop with its escapes and UTF-8 |
| Json.ParseText | crates/core/src/json.rs:65-77 | A whole text is one value between spaces |
| Grammar.ParsesExactly | crates/core/src/json.rs:65-374 | A text parses to a value if and only if it spells it by the grammar: spaces, numbers, names, all eight short escapes, `\u` of four hexadecimal digits, a high surrogate read together with the escape behind it, the replacement character for what is no scalar, and depth up to the limit |
| RoundTrip.TextReads | crates/core/src/json.rs:155-171 | A quoted text reads back as itself, and the reader stops behind its closing quote |
| RoundTrip.NumberReads | crates/core/src/json.rs:147-153 | A printed integer reads back as itself |
| RoundTrip.ValueReads | crates/core/src/json.rs:106-374 | A printed value at any depth reads back as itself wherever it stands, and the reader stops exactly at its end |
| RoundTrip.ParseRender | crates/core/src/json.rs:99-104 | Parsing a rendered value gives that value |
| RoundTrip.RenderIsInjective | crates/core/src/json.rs:99-104 | Different values are rendered differently |
| Printed.RendersExactly | crates/core/src/json.rs:99-171 | The layout of every printed value: two spaces a level, one entry a line, the separators, the escape of every character, decimal integers and a new line at the end |
| Anim.InspectFile | tools/inspect_infantry_animation.py:128-207 | The inspector's stream, totals, names and digest compute the report or refusal that `Clips.AcceptedExactly` describes |
| Anim.Stream.Keys | tools/inspect_infantry_animation.py:89-125 | The key loop with its previous time and tail |
| Anim.Stream.TrackName | tools/inspect_infantry_animation.py:72-86 | The name loop with its limit |
| Anim.ReadClip | tools/compose_infantry_animation.py:52-90 | The reader's loops return the specified clip |
| Anim.EncodeClip | tools/compose_infantry_animation.py:93-142 | The encoder's loops write the bytes that `Clips.EncodedExactly` describes or refuse |
| Clips.EncodedExactly | tools/compose_infantry_animation.py:93-142 | A clip is encoded to a file if and only if the file holds it field by field and it is storable: names and counts within their limits, all components finite, a nonnegative duration, every time in [-1e-4, duration + 1e-4] and no time more than 1e-4 below the one before |
| Clips.AcceptedExactly | tools/inspect_infantry_animation.py:72-207 | A file is accepted if and only if it holds a storable clip; it is read as that clip and no other, and the report counts that clip's keys and names its digest |
| Clips.RealOfIsIeee | tools/inspect_infantry_animation.py:21-24 | A bit pattern stands for its IEEE 754 value: 1.0 and the spacing at it, doubling with the exponent, subnormals and the sign |
| Clips.FloatOrder | tools/inspect_infantry_animation.py:108-118 | Nonnegative values are ordered like their bit patterns |
| AnimCodec.InspectedKeys | tools/inspect_infantry_animation.py:108-125 | Keys the inspector accepts are encoded to the bytes they were read from |
| AnimCodec.WrittenKeys | tools/compose_infantry_animation.py:129-139 | Keys the encoder writes are accepted and read back |
| AnimCodec.AcceptedIsReencoded | tools/compose_infantry_animation.py:52-142 | A file the inspector accepts is read without error and its clip encodes to the very same bytes; the report is that clip's summary |
| AnimCodec.EncodedIsAccepted | tools/compose_infantry_animation.py:93-151 | What the encoder writes, the inspector accepts and the reader returns as the same clip |
| AnimCodec.AcceptedIffEncoded | tools/inspect_infantry_animation.py:128-207 | The accepted files are exactly the encodings of clips |
| AnimCodec.WriteClip | tools/compose_infantry_animation.py:145-150 | Inspecting what was encoded refuses nothing: a clip is written exactly when it can be encoded |
| AnimCodec.RewriteFile | tools/compose_infantry_animation.py:546-556 | The round trip succeeds exactly for the accepted files and is always byte exact |
| AnimCodec.EncodingIsInjective | tools/compose_infantry_animation.py:93-142 | Two clips are never encoded to one file |
| Rigid.RotateIsRational | tools/compose_infantry_animation.py:237-251 | Normalising by the root and rotating is a rational function of the quaternion; only the zero quaternion is refused |
| Rigid.TurnedBack | tools/compose_infantry_animation.py:269-278 | Rotating by the conjugate and then by the quaternion is the identity |
| Rigid.Norm2OfProduct | tools/compose_infantry_animation.py:222-234 | The length of a product is the product of the lengths |
| Rigid.ComposeRelative | tools/compose_infantry_animation.py:281-283 | Composing a parent with the relative transform gives the world transform; only a zero parent rotation is refused |
| Rigid.RelativeCompose | tools/compose_infantry_animation.py:260-283 | The relative transform of a composition is the local transform |
| Rotations.OrdersAgree | tools/compose_infantry_animation.py:202-251 | In either order of the components i j = k, and the quarter turn about the third axis takes the first to the second |
| Rotations.TurnIsSandwich | tools/compose_infantry_animation.py:237-251 | Rotating a vector is multiplying it by the quaternion and by its conjugate |
| Rotations.TurnedByProduct | tools/compose_infantry_animation.py:222-251 | The rotation by a product is the rotation by its second factor and then by its first |
| Rotations.ComposingAssociates | tools/compose_infantry_animation.py:260-267 | Composing transforms is associative, refusals included |
| Channels.SlerpAtEnd | tools/compose_infantry_animation.py:517-543 | At its end the interpolation, both branches of it, is the second quaternion at unit length up to its sign |
| Channels.PositionAtKey | tools/compose_infantry_animation.py:160-177 | A position sampled at the time of a key later than all before it is that key's |
| Channels.RotationAtKey | tools/compose_infantry_animation.py:180-199 | A rotation sampled at the time of a key later than all before it is that key's up to a factor, and fails exactly next to a zero quaternion |
| Samples.PositionsAreLinear | tools/compose_infantry_animation.py:153-177 | Between two keys every component has moved by the part of its way that is the part of the time gone; outside the keys the sample is the nearest key |
| Samples.RotationsAreSlerped | tools/compose_infantry_animation.py:180-199 | Between two keys the sample is their interpolation at the part of the time gone; outside the keys it is the nearest key as it stands |
| Samples.SlerpTurnsEvenly | tools/compose_infantry_animation.py:517-543 | The interpolation of two quaternions of any lengths has unit length, and its angles from the first and from the nearer of the second and its opposite share the angle between them as t and 1 - t; within an angle whose cosine is over 0.9995 it lies on the chord |
| Samples.ChannelIsSample | tools/compose_infantry_animation.py:323-330 | A channel is sampled exactly when it has a key and its sample is defined, positions always |
| Loop.LoopRecords | tools/compose_infantry_animation.py:333-371 | The nested loops, the closing sample and the collapse compute the specified keys |
| Loop.LoopedExactly | tools/compose_infantry_animation.py:333-371 | The looped keys are a sequence if and only if it keeps, of the source's keys moved by 0, 1, 2, ... loops up to 1e-6 past the output's end and of a closing sample at that end where none is within 1e-6, the last and those more than 1e-6 away from the next |
| Loop.LoopedTimeline | tools/compose_infantry_animation.py:333-371 | Whatever the source, no emitted time is more than 1e-6 past the output's end and the last is within 1e-6 of it; the emitted times are more than 1e-6 apart if and only if the gathered keys that stay are, and so for every source in time order over at most one loop |
| Loop.CollapsedIsKept | tools/compose_infantry_animation.py:362-371 | The collapse keeps exactly the last gathered key and each one more than 1e-6 away from the key gathered after it |
| Loop.SwappedKeysStaySwapped | tools/compose_infantry_animation.py:344-371 | Any three source keys of which the last two are out of order by 5e-5 are emitted out of order |
| Loop.LoopedComesFrom | tools/compose_infantry_animation.py:344-361 | Every emitted key is a source key moved by whole loops, or the closing sample |
| Loop.PhaseInLoop | tools/compose_infantry_animation.py:374-378 | The phase is the one number in the loop that differs from the time by whole loops, and 0 where that is at most 1e-6 |
| Compose.WorldTransform | tools/compose_infantry_animation.py:302-320 | The chain walked up and composed down is the parent's transform with the node's own |
| Compose.Descend | tools/compose_infantry_animation.py:421-427 | The sweep reaches exactly the nodes that hang below the roots, in whatever order it visits them |
| Compose.ComposeLegs | tools/compose_infantry_animation.py:388-487 | Succeeds exactly when the skeleton checks pass and every lower track can be replaced, and then replaces exactly those |
| Compose.CompositionLayers | tools/compose_infantry_animation.py:459-487 | Of the composed clip's own tracks: a node below a thigh that is in both clips and not kept as static has the run's looped keys on both channels, and every other node below them keeps the action's track |
| Compose.LowerFollowsRun | tools/compose_infantry_animation.py:474-481 | Every key of such a track is a key of the run's moved by whole loops or the closing sample, and the last is within 1e-6 of the action's end |
| Compose.ComposableExactly | tools/compose_infantry_animation.py:388-457 | A composition exists exactly when every thigh and its spine can be sampled and every track below them is in the run or static |
| Legs.UpperBodyStays | tools/compose_infantry_animation.py:459-487 | Every node not below a thigh keeps the action's world transform at every time, the spine included |
| Legs.ThighFollowsRun | tools/compose_infantry_animation.py:429-457 | At a time both thigh channels have a key for and no earlier key lies at or past, the composed thigh stands where the run has it at the loop phase, rotated like it up to a factor whose square is the ratio of the spine's and the run's squared lengths |
| Legs.ThighFollowsRunUpToSign | tools/compose_infantry_animation.py:429-457 | Where the action's spine and the run's thigh have rotations of one length, the composed thigh has the run's world position and, up to its sign, its world rotation |
| Legs.InOrderIsFirst | tools/compose_infantry_animation.py:429-457 | For a run whose thigh keys are in time order over at most one loop, no key of the composed thigh has an earlier key at or past its time |
| Strays.SwappedThighStrays | tools/compose_infantry_animation.py:344-457 | A composition in which an earlier key lies past a key time of the thigh, its sample there is not its key, and the thigh is not where the run has it |
| Launch.AtMostOneHost | injector/src/host_mode.rs:467-492 | Over every untroubled run of any number of launchers at most one load succeeds, one host is loaded and one `start` answers true |
| Launch.FilenameOutlivesThread | injector/src/host_mode.rs:327-439 | Over every run, timeouts and deaths included, the filename of a thread that may still run is not freed, and a `start` that returned has seen a host ready |
| Progress.FilenamesAreFreed | injector/src/host_mode.rs:325-439 | Over every untroubled run exactly the launchers between allocating a filename and finding their module hold one: none is left behind |
| Progress.EveryCallCanEnd | injector/src/host_mode.rs:467-492 | No call is stuck: from every state of an untroubled run there is a way on, without failures, to the end of any given call, and to a ready host for a call still before the lock while no host has failed |
| Progress.EveryCallCanRefuse | injector/src/host_mode.rs:327-439 | A call that has not ended can be refused at every step; it then gives the lock back, and keeps its filename only for a thread it did not wait for |
| Launch.StepKeepsSound | injector/src/host_mode.rs:91-111 | Every step keeps: the launcher in a locked phase holds the lock, filenames outlive threads, readiness was seen |
| Launch.StepKeepsSingle | injector/src/host_mode.rs:304-323 | Every untroubled step keeps one load and one host |
| Launch.TimeoutAllowsTwoHosts | injector/src/host_mode.rs:400-413 | A run in which only a wait for a loading thread fails and two hosts end up loaded |
| Launch.DeathAllowsTwoHosts | injector/src/host_mode.rs:91-111 | A run in which only a launcher dies with the lock and two hosts end up loaded |
| Launch.OutsiderAllowsTwoHosts | injector/src/host_mode.rs:304-323 | A run in which only a host is loaded outside the lock and two hosts end up loaded |
| Launch.OversightAllowsTwoTrues | injector/src/host_mode.rs:307-320 | A run in which only a host's exports cannot be read and two calls answer true |
| Exports.LookUp | injector/src/host_mode.rs:181-259 | The search ends on every image, asks for no byte outside it, and answers as specified |
| Exports.LookUpIsExact | injector/src/host_mode.rs:219-258 | On sorted names the answer is none exactly when the name is absent, and otherwise its function |
| Exports.LookUpIsSound | injector/src/host_mode.rs:238-255 | On any image an answered address is the function-table entry at the ordinal of an entry of that name, not forwarded, with its block inside the image |
| Images.DirectoryExactly | injector/src/host_mode.rs:196-218 | The directory is found if and only if the image has the signatures and a directory at the offsets of the PE32+ format, and none exactly when the format says there is none |
| Images.AnswerIsExport | injector/src/host_mode.rs:219-258 | An answer is an export of the image by the format's own offsets: its name by the name table, its ordinal and its function |
| Images.LookUpFindsExport | injector/src/host_mode.rs:219-258 | On an image whose names are in order, none is answered exactly for an absent name, and a refusal only where the entry of that name has no function |
| Exports.StatusOfBlock | injector/src/host_mode.rs:261-277 | The status of a published block is its state, for its process or while it is dormant and unowned |
| Images.BlockAt | injector/src/host_mode.rs:261-277 | The block of a state and an owner, byte by byte |
| Exports.StatusNeedsBlock | injector/src/host_mode.rs:261-277 | Nothing but a published block has a status |
| Inventory.Overlaps | tools/patch_inventory.py:169-177 | The sweep with its early break reports every conflicting pair of the sorted spans |
| Inventory.SweepIsExact | tools/patch_inventory.py:169-177 | In whatever order nonempty spans are given, a pair is reported exactly when two plugins write one byte, and as many pairs as conflict |

## Left out

- Memory.Process.Release: releasing a block is taken to succeed, as the code takes it; opening the process, page
  protection and how near a block is reserved are not modelled, and `rel32` failing is what refuses a block out of reach.
- Memory.Process.ReadBytes: a read that succeeds is truthful; a read may fail at any time.
- Apply.Install: `Unit::check` is a precondition because `apply` does not repeat it. The export and initialise callbacks
  are functions, and initialise keeps the length; a unit's debug text, which enters the identity, is a parameter.
- Layouts.LinkBlock: sums of addresses are unbounded except where the code checks them and where a slot stores 64 bits.
- Units.LinkIsExact: states exactness for disjoint slots; overlapping slots are covered by `Units.LinkIsIdempotent` only.
- Repeat.RepeatFindsInstalled: what hooks may change in between is limited to named cells and the trace ring, and a
  block found by an earlier run lies where a reservation could have put it (`Repeat.Reusable`).
- Json.Parser.AnyValue: numbers are the integers below 10^15 in size; a text of any other number is refused in the
  model.
- Json.ParseText: the same numbers only.
- Anim.InspectFile: times are compared over exact reals with the decimal 1e-4, not with a double's rounding; a clip's
  components are float32 values, so packing never rounds. The report's path and its constants are left out, and its
  digest is bytes, not hexadecimal text.
- Legs.ThighFollowsRun: at a key time that an earlier key lies at or past nothing is claimed, as it need not hold there.
- Loop.LoopRecords: float rounding is left out throughout the compositor, and so is a quaternion of NaN.
- Compose.WorldTransform: a cyclic skeleton, on which the original does not end, is excluded; skeleton files list
  parents before children.
- Compose.ComposeLegs: which of several errors is reported first, since the original visits a set.
- Launch.AtMostOneHost: one host per path, hosts are not unloaded, and a launcher calls `start` once.
- Exports.LookUp: which module is a legacy loader, and the version resources that tell it.
- Inventory.Overlaps: modules, kinds and plugins are numbers in the order of their names, and only the overlap report of
  `compare` is modelled.
- `validate`, `cell` and `retime_clip`: facts that need no proof.
- `closest` and `near_miss`: the nearest code named in an error message.
- `crates/core/src/rtti.rs`, `crates/core/src/pe.rs`, the Windows calls, packaging, and the tools built on external
  libraries.
