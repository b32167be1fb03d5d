# Verified model of the bridge remote signer

The bridge remote signer is a sidecar that holds a validator's keys. It signs bridge
checkpoints and oracle attestations over gRPC, and consensus votes for one of several nodes
that share a key. This project models its three parts that carry the safety of the whole, and
proves what they promise.

**Checkpoint signing.** A request is recomputed and checked, then runs three critical
sections: advance the high-water mark, ask the key, record the signature. A repeat is answered
from a memo. `SigningProtocol` is a step machine over any number of such requests on one state
file. A crash or a power loss may fall between any two steps, also inside the replacement of
the file. `CheckpointReplayGuard` is the guard as an object over a text file, `GuardFile` is
that text, and `AtomicFile` is the file system below it, with directory entries, inodes and
what survives a power loss. Each layer is proved to do what the layer above takes for granted:
`StepRefinesDisk` takes inodes to one replaceable file, `WriteDecodes` takes text to guard
states, `SectionsAreCalls` and `HandlerIsARun` take the methods to steps of the machine, and
`WriterIsARun` takes a file writer, call by call, to steps of the file-system machine.

**Active-passive election.** `PrimaryArbiter` decides which node's votes are signed.
`DialLoops` runs one connection loop per node over it, with signing as a later step than the
grant. Results about the arbiter are proved for every sequence of calls, and every
interleaving of the loops is such a sequence.

**Encodings.** `Abi` is the Solidity contract ABI as the ABI specification defines it, and is
the reference the hand-rolled encoders are compared with. `Checkpoint` and `Attestation` hold
the preimages, `ValidatorOrder` the canonical sort, `SignaturePacking` the Ethereum signature
format, `RepeatingReader` the password reader.

Conventions. keccak256, sha256, key recovery and point compression are parameters, and nothing
is assumed of them, nor of what the JSON library makes of a state file in a shape the guard
does not write. Where a result needs a hash not to collide, it says instead that the
inputs agree or that the two named inputs are a collision: no function to 32 bytes is
injective, so assuming one would make the claim empty. I/O outcomes, the clock, the backend's
answer and inode numbers are parameters, so every result holds for every environment. Go's
64-bit wrap-around is written out where it can occur. Encoders are pinned by decoders and by
their bytes, parsers by a relation that says what a text means, and each machine by what it may
do as well as by what it never does.

Three things the proofs brought out:

- The source's comments say that a failed write advances nothing and that memory never claims a
  mark that is not on disk. Neither is quite so. A directory fsync that fails after the rename
  rolls memory back while the file keeps the new mark, and a restart on such a file takes up a
  mark that a power loss can still undo (`FileAheadOfMemory`). `FileVersusMemory` says exactly
  when, over every run and while the lock is free. The visible file is ahead of memory, and
  otherwise level with it, if and only if an advance failed after its rename with no completed
  advance, renamed memo or restart since. It may come back behind memory if and only if the
  process restarted on a mark that was renamed and never made durable. In either case every
  image covers every timestamp the backend was asked for (`MarksCoverEverythingAsked`).
- Without a release or an idle takeover, the role changes at most once per distinct listed
  target. The one exception starts with nobody elected and an unlisted target asking first:
  then it is one change more, for every preference list (`FewChanges`, `OneMoreIsReached`). So
  the bound is kept if and only if somebody holds the role, or only listed targets ask, or some
  listed target never does (`FewChangesIff`). With `prefer_target_order` the program lists
  every target it dials, and the bound holds without exception (`NoPingPong`).
- The arbiter does not serialise signing. Two granted requests can be in flight at once
  (`TwoCanBeInFlight`), and then the first loop was overtaken while its request was outstanding
  (`InFlightTogether`); `InFlightTogetherIff` says exactly which requests do that.

`dafny verify dfyconfig.toml` checks the project.

## Model

| member | source | states |
|---|---|---|
| SigningProtocol.StepInv | server/replay_guard.go:142-226 | every step of every request, failed write, crash, power loss and restart keeps the invariant tying memory, file images, lock, requests and logs together |
| SigningProtocol.NoEquivocation | server/server.go:485-541 | over every run from any settled state file, with or without a memo, all signatures returned for one timestamp, fresh or memoized, are for one checkpoint and are the same bytes |
| SigningProtocol.SignedAtMostOnce | server/server.go:485-530 | over every run the backend is asked at most once per timestamp, and everything returned was produced for that question |
| SigningProtocol.MarksCoverEverythingAsked | server/replay_guard.go:187-226 | every image the file may come back with has a mark covering every timestamp handed to the backend; with the lock free the visible file is not behind memory |
| SigningProtocol.FileVersusMemory | server/replay_guard.go:183-212 | over every run, with the lock free: the visible mark is above memory's if and only if an advance failed after its rename and no completed advance, renamed memo or restart followed, and equal to it otherwise; a durable mark is below memory's if and only if the process restarted on a renamed mark that was never made durable |
| SigningProtocol.FileAheadOfMemory | server/replay_guard.go:205-209 | both disagreements occur: a run in which a failed directory fsync leaves the file ahead of memory, and a continuation with a durable image behind memory |
| SigningProtocol.MemoRefinesLog | server/replay_guard.go:142-181 | a memo hit is the one answer the full log of produced signatures gives for that timestamp; a present memo answers exactly the entry logged at the mark |
| SigningProtocol.SectionsExclude | server/replay_guard.go:143-144 | while one request is inside a section no step of another changes memory, disk or lock |
| SigningProtocol.SectionsAreCalls | server/replay_guard.go:142-212 | a section, however interleaved, ends with exactly what one call of CheckAndAdvance or RecordSignature makes of the state it found, for each way its write can end; a rejected advance and a record whose timestamp was passed change nothing, for every fate; a lookup answers exactly the memo of that checkpoint at the mark |
| SigningProtocol.RecordedIsProduced | server/replay_guard.go:167-181 | over every run, whichever signed request records next and however its write fares, the memo left in memory and in every content the file may have is a signature produced for that timestamp and checkpoint; a request whose timestamp was passed leaves both as they were |
| SigningProtocol.NeverStuck | server/replay_guard.go:143-201 | in every reachable state an unfinished request can take its next step, with every failure open to it, or the holder of the lock can |
| SigningProtocol.AnythingCanHappen | server/replay_guard.go:67-115 | any request may arrive at any time, a crash or power loss may fall anywhere, and a restart takes up exactly what the file shows |
| SigningProtocol.AbandonedBurns | server/server.go:521-530 | a granted request that loses its signing to an error, a malformed signature, a crash or a power loss burns its timestamp |
| SigningProtocol.BurntForever | server/replay_guard.go:183-193 | a burnt timestamp is never handed to the backend later, in any continuation with any number of restarts |
| SigningProtocol.RecordSettles | server/replay_guard.go:167-181 | RecordSignature returning nil puts the memo in memory, in the visible file and in every durable image |
| SigningProtocol.RepeatsAreAnswered | server/server.go:485-504 | from then on, through any crashes and restarts, every repeat is rejected by the mark and answered with exactly that signature, until a higher timestamp is advanced to |
| CheckpointHandler.Server.SignBridgeCheckpoint | server/server.go:383-559 | the handler's verdict, reply, backend digest, new guard state and new file content, for every fault of either write and every backend answer, with a state file or without; a refused request changes nothing; if every content the file may have would load, that stays so |
| CheckpointHandler.HandlerIsARun | server/server.go:484-541 | the uninterrupted handler is a run of the protocol machine with the same memory, disk and reply |
| CheckpointHandler.OneSetPerTimestamp | server/server.go:383-541 | two accepted requests with one timestamp that were ever answered got the same signature and agree on domain, threshold and validator multiset, and on the chain, or named inputs collide or hit the mainnet constant |
| ReplayGuard.CheckpointReplayGuard.Open | server/replay_guard.go:67-115 | the guard starts exactly if there is no path, or the file can be read and its text stands for a state, and then with that state; at zero for an absent file |
| ReplayGuard.ReadIff | server/replay_guard.go:73-115 | reading succeeds exactly if the content stands for a state, and gives that one |
| ReplayGuard.CheckpointReplayGuard.PersistLocked | server/replay_guard.go:215-226 | the file is replaced by the rendering of the current state, as far as the failing system call lets it; if every content it may have loads before, then so does whatever a crash leaves in each state the file system goes through |
| ReplayGuard.CheckpointReplayGuard.CheckAndAdvance | server/replay_guard.go:187-212 | rejection at or below the mark, otherwise new mark with no memo, rolled back in memory when the write reports an error |
| ReplayGuard.CheckpointReplayGuard.RecordSignature | server/replay_guard.go:167-181 | the memo is set in memory before it is written and kept there on failure; a passed timestamp records nothing |
| ReplayGuard.CheckpointReplayGuard.CachedSignature | server/replay_guard.go:142-158 | a hit exactly for the checkpoint memoized at the mark |
| ReplayGuard.WriteDecodes | server/replay_guard.go:215-226 | replacing the text by a rendered state is, for the visible and every durable content, replacing the state |
| ReplayGuard.SafeIsReadable | server/replay_guard.go:82-115 | if whatever was on disk loads, then whatever is left in any state on the way to a rendered state loads |
| GuardFile.Load | server/replay_guard.go:82-115 | whatever loads has both halves of the memo at full length or no memo |
| GuardFile.LoadIff | server/replay_guard.go:82-115 | on every text: a text without a brace loads exactly if it is a non-empty run of digits below 2^64, as that mark; one with a brace exactly if it is in the guard's own shape or the JSON library decodes it, and each present half is hex of its length |
| GuardFile.UnmarshalIff | server/replay_guard.go:83-87 | the reader takes exactly the documents of the guard's own shape, and gives their fields |
| GuardFile.DocumentIff | server/replay_guard.go:88-105 | a decoded document gives its mark, and a memo exactly if both halves are present; a half that is not hex of its length is an error |
| GuardFile.DecodeHexIff | server/replay_guard.go:123 | a text decodes to some bytes exactly if it is their encoding in either case of letters |
| GuardFile.DecimalPlaces | server/replay_guard.go:108 | a run of digits has its value by place |
| GuardFile.DecimalDigit | server/replay_guard.go:108 | one digit has its own value |
| GuardFile.TrimSpaceMeans | server/replay_guard.go:82 | every text is white space, its trimmed form and white space, and the trimmed form begins and ends with none |
| GuardFile.SpacesAre | server/replay_guard.go:82 | the white space characters, one by one |
| GuardFile.RenderText | server/replay_guard.go:58-62 | the text of a state, with its field names in their order |
| GuardFile.DecodeOptionalHex | server/replay_guard.go:119-131 | a present field that decodes has exactly the wanted length |
| GuardFile.RenderRoundTrip | server/replay_guard.go:215-226 | every state the handler can persist reloads without error to the same mark and memo, whatever the JSON library does elsewhere |
| GuardFile.LegacyMeaning | server/replay_guard.go:107-115 | a bare decimal with any white space around it loads as that mark with no memo exactly when it fits in 64 bits |
| GuardFile.DocumentMeaning | server/replay_guard.go:83-105 | for any mark and any two byte strings: an error for an oversized mark or a half of wrong length, no memo if a half is missing, and the memo exactly for two full halves |
| GuardFile.DecimalRoundTrip | server/replay_guard.go:108 | decimal rendering parses back and has no leading zero |
| GuardFile.HexRoundTrip | server/replay_guard.go:123 | hex encoding decodes back and never contains a quote or a backslash |
| GuardFile.DocumentRoundTrip | server/replay_guard.go:58-62 | the JSON document, with empty string fields omitted, gives back its fields |
| AtomicFile.StepInv | server/replay_guard.go:232-266 | every system call, crash and power loss keeps published inodes complete, flushed and private to their writer |
| AtomicFile.PowerLossAnywhere | server/replay_guard.go:228-231 | a power loss may fall anywhere, bring back any surviving entry, and leave anything in an inode that was not flushed |
| AtomicFile.NeverStuck | server/replay_guard.go:232-266 | no writer waits for another, and each of its calls may fail |
| AtomicFile.PublishNames | server/replay_guard.go:261-263 | a rename moves the temp name to the target; a link adds the target and leaves the temp name |
| AtomicFile.StepRefinesDisk | server/replay_guard.go:232-279 | seen through the path, each step of each concurrent writer is nothing, one whole replacement, making the visible file durable, or a power loss that keeps one durable content |
| AtomicFile.AllOrNothing | server/replay_guard.go:228-266 | over every run of any writers the path holds the complete old content or the complete content of some writer, now and after a power loss |
| AtomicFile.NilIsDurable | server/replay_guard.go:261-279 | from the rename or link that took effect, through any run, to the nil result: the file as it then stands is what every power loss leaves, and it is the writer's own data unless another writer published in between |
| AtomicFile.NeverReplaced | signer/atomicwrite.go:43-48 | the no-replace writers never change a file that is durably there, whatever runs and however often power is lost |
| AtomicFile.NeverReplacedWhileUp | signer/atomicwrite.go:43-48 | without a power loss they never change any file that is visible, durable or not |
| AtomicFile.AtMostOneCreatorSucceeds | signer/atomicwrite.go:15-51 | over a whole run with crashes at most one creator gets nil, and then the file is durably what it wrote |
| AtomicFile.WriterIsARun | server/replay_guard.go:232-279 | either writer alone, for each failing system call, is a run of the machine through exactly the states between its calls, ending in success exactly if nothing it reports failed and nothing was in the way |
| AtomicFile.WriterIsSafe | server/replay_guard.go:232-266 | in each of these states every content a crash may leave is an old one or the whole new one |
| AtomicFile.WriterAbs | server/replay_guard.go:232-279 | seen through the path, the writer as a whole does nothing, renames, or renames and makes durable, as its failing call decides |
| AtomicFile.BlockedIsInvisible | signer/atomicwrite.go:43-48 | a creator that finds a file in place leaves its visible and durable contents alone in each of these states |
| AtomicFile.FileSystem.WriteBytesAtomic | server/replay_guard.go:232-266 | the outcome for each failing system call, no temp file left; the file system goes through exactly the writer's states, and each of them holds only old contents or the complete new one |
| AtomicFile.FileSystem.WriteNewFileAtomic | signer/atomicwrite.go:15-77 | success exactly with an acceptable mode, an absent target and no fault, where closing the directory may fail with the link already durable; it goes through exactly the writer's states with the same crash safety, and an existing target is the same in every one of them |
| AtomicFile.PermMeans | signer/atomicwrite.go:53-61 | exactly the eight modes with only owner bits are accepted |
| PrimaryArbiter.PrimaryArbiter.constructor | consensus/primary.go:62-74 | the rank of an id is its first position in the list, duplicates or not |
| PrimaryArbiter.PrimaryArbiter.Acquire | consensus/primary.go:97-142 | the verdict and the new primary, idle timer and height mark for each case |
| PrimaryArbiter.PrimaryArbiter.Release | consensus/primary.go:147-160 | the role is cleared exactly when the caller holds it |
| PrimaryArbiter.PrimaryArbiter.Grant | consensus/primary.go:163-167 | the height mark is the maximum of the old mark and the height |
| PrimaryArbiter.RanksAreDistinct | consensus/primary.go:66-73 | distinct ids have distinct ranks, and exactly the listed ids are ranked |
| PrimaryArbiter.PreferenceIsStrict | consensus/primary.go:78-91 | preference is irreflexive, transitive and total on listed ids |
| PrimaryArbiter.MarkCoversGrants | consensus/primary.go:163-167 | after any calls the height mark is at least every height granted |
| PrimaryArbiter.FailBackHasCaughtUp | consensus/primary.go:126-137 | a fail-back is granted only at a height no earlier grant exceeds |
| PrimaryArbiter.GrantIffJustified | consensus/primary.go:97-142 | after a grant to p, the next request of another q is granted if and only if p was released, or p is idle past the timeout, or q is preferred and has caught up with every grant |
| PrimaryArbiter.NextGrantIff | consensus/primary.go:97-142 | after any calls the next request of any id is granted if and only if the last grant was its own, or the last grantee was released, or is idle past the timeout, or the id is preferred and has caught up |
| PrimaryArbiter.GrantedIffJustified | consensus/primary.go:97-142 | from a new arbiter, over all call sequences, exactly the justified requests are granted: the first of all, or as above |
| PrimaryArbiter.ChangesArePaid | consensus/primary.go:131-137 | without a release or idle takeover, changes made plus changes still possible never grow |
| PrimaryArbiter.FewChanges | consensus/primary.go:131-137 | in such a stretch the role changes at most once per distinct listed id, and once more only if nobody held it and an unlisted id was the first to ask |
| PrimaryArbiter.OneMoreIsReached | consensus/primary.go:108-137 | for every preference list and every unlisted id asking first while nobody is elected, there is a stretch with one change more than listed ids |
| PrimaryArbiter.FewChangesIff | consensus/primary.go:97-142 | the bound by the number of listed ids holds for all stretches if and only if somebody holds the role, or only listed ids ask, or some listed id never asks |
| PrimaryArbiter.PreemptedStaysOut | consensus/primary.go:131-137 | in such a stretch an id that lost the role does not regain it |
| PrimaryArbiter.Overtaken | consensus/primary.go:115-137 | an id granted and not released loses the role only to an idle takeover or a preferred id |
| DialLoops.StepInv | consensus/server.go:71-146 | every step of every dial loop keeps the invariant tying loops, arbiter, call log and signed heights together |
| DialLoops.PrimaryIsAttached | consensus/server.go:43-50 | in every interleaving the primary's loop is between its connect callback and its release; a dialing, waiting or stopped loop never holds the role |
| DialLoops.GateMeans | consensus/server.go:56-86 | in every reachable state every vote and every proposal is put to the arbiter at its height, goes on exactly if it is justified, and is otherwise refused with nothing passed on; other messages do not touch the arbiter |
| DialLoops.GrantedAreSignedOnce | consensus/server.go:71-86 | in every interleaving each grant is in flight or signed, never both, no grant is signed twice, and nothing is signed without one, for another target or at another height |
| DialLoops.EndReleases | consensus/server.go:43-50 | a connection that ends or could not be made releases the role if it holds it, and nothing else |
| DialLoops.ServesOn | consensus/server.go:167-188 | the primary has a vote or proposal signed and answered and goes on serving with the role |
| DialLoops.Redials | consensus/server.go:136-145 | a connection that fails while reading or answering gives up the role and is dialled again |
| DialLoops.FailBackOvertakesNothing | consensus/server.go:71-86 | at every fail-back the granted height is at least that of every vote or proposal signed so far or in flight in any loop |
| DialLoops.InterleavingsAreJustified | consensus/server.go:71-86 | in every interleaving a request of another target is granted if and only if it is justified |
| DialLoops.NoPingPong | cmd/bridge-signer/cmd_start.go:152-168 | in any stretch of any run without an effective release or idle takeover the role moves at most once per listed target, once more only if it elects an unlisted target from nobody, and never more when every dialled target is listed |
| DialLoops.PreemptedLoopStaysOut | consensus/primary.go:131-137 | in such a stretch of any run a target that lost the role does not regain it |
| DialLoops.StretchIsCalls | consensus/server.go:43-86 | between any two points of any run the arbiter changes exactly as by the loops' own calls in that stretch |
| DialLoops.InFlightTogether | consensus/server.go:73-84 | two requests in flight at once imply the first loop was overtaken while its request was outstanding |
| DialLoops.InFlightTogetherIff | consensus/server.go:73-84 | while any target's request is in flight, another target's request leaves both in flight if and only if the last grant was its own, or the last grantee was released or is idle past the timeout, or it is preferred and has caught up |
| DialLoops.TwoCanBeInFlight | consensus/server.go:73-84 | a concrete run with two requests in flight at once |
| ValidatorOrder.SortBridgeValidators | server/checkpoint.go:32-39 | the array ends in the canonical order of its input |
| ValidatorOrder.CanonicalSorts | server/checkpoint.go:32-39 | the canonical order is sorted and a permutation of the input |
| ValidatorOrder.CanonicalOrder | server/checkpoint.go:28-38 | powers never rise, and equal powers come in ascending order of the address as a number |
| ValidatorOrder.SortedUnique | server/checkpoint.go:32-39 | a multiset has only one sorted arrangement |
| ValidatorOrder.CanonicalIffPermutation | server/checkpoint.go:28-38 | two lists have the same canonical order exactly when they are permutations of each other |
| ValidatorOrder.BeforeTotal | server/checkpoint.go:33-38 | the comparison is a strict total order on validators with addresses of any length |
| ValidatorOrder.LexDecides | server/checkpoint.go:35 | the first differing byte decides, and a proper prefix comes first |
| ValidatorOrder.LexIsNumeric | server/checkpoint.go:35 | on addresses of one length, byte order is numeric order |
| Checkpoint.EncodeAndHashValidatorSet | server/checkpoint.go:49-84 | the bytes built in the loop are the ABI encoding of one dynamic array of (address, uint256) |
| Checkpoint.LayoutIsAbi | server/checkpoint.go:60-83 | the hand-rolled layout equals the reference encoding for every length |
| Checkpoint.SetRoundTrip | server/checkpoint.go:60-83 | a decoder recovers the validator list |
| Checkpoint.DecodeSetSound | server/checkpoint.go:60-83 | nothing but encodings decodes |
| Checkpoint.CanonicalBytesIffPermutation | server/checkpoint.go:49-84 | two lists get the same set bytes exactly when they are permutations of each other |
| Checkpoint.DomainLayout | server/checkpoint.go:98-107 | the two-string preimage is two offsets, then each string with its length word in front and zeros behind |
| Checkpoint.DomainRoundTrip | server/checkpoint.go:98-107 | a decoder that follows the offsets recovers "checkpoint" and the chain id, and decodes nothing but that preimage |
| Checkpoint.DomainSeparatorMeans | server/checkpoint.go:91-108 | mainnet has the text "checkpoint" and 22 zeros, every other chain the hash of bytes that decode to that text and its own name |
| Checkpoint.AddressIsLowBytes | server/checkpoint.go:70-71 | an address is the low 160 bits of the bytes it is taken from, whatever their number |
| Checkpoint.Fixed32At | server/checkpoint.go:116-120 | a word holds the bytes from the front and zeros behind, byte by byte |
| Checkpoint.DomainSeparatorBinds | server/checkpoint.go:91-108 | a separator names one chain, unless two named inputs collide or the hash hits the mainnet constant |
| Checkpoint.CheckpointLayout | server/checkpoint.go:115-145 | the checkpoint preimage is four words |
| Abi.DynRoundTrip | server/attestation.go:104-115 | a decoder recovers a length-prefixed, zero-padded byte string |
| Abi.DynSound | server/attestation.go:104-115 | only a length, that many bytes and zeros up to a multiple of 32 decode |
| Abi.TwoRoundTrip | server/checkpoint.go:102-103 | a decoder recovers two strings through their offsets |
| Checkpoint.CheckpointBinds | server/checkpoint.go:115-146 | a checkpoint determines domain separator, threshold, timestamp and validator multiset, or two named inputs collide |
| CheckpointRequest.Validate | server/server.go:386-482 | the loops and the in-place sort compute the loop-free verdict |
| CheckpointRequest.ComputeThreshold | server/server.go:435-439 | the wrapping loop gives a third of twice the true sum modulo 2^64, which is two thirds of the sum, rounded down, exactly when the sum is below 2^63 |
| CheckpointRequest.PowerSumAppend | server/server.go:435-438 | the sum is additive and one validator contributes its power |
| CheckpointRequest.PowerSumUniform | server/server.go:435-438 | equal powers sum to their number times the power |
| CheckpointRequest.ThresholdExact | server/server.go:435-439 | the same for every sum |
| CheckpointRequest.IsMember | server/server.go:455-461 | the loop finds the signer's address exactly when some validator has it |
| CheckpointRequest.CopyValidators | server/server.go:403-415 | the copy succeeds exactly when every address has 20 bytes and every power is positive, and is then the list |
| CheckpointRequest.VerdictIgnoresOrder | server/server.go:417-482 | a permutation of the validator list gets the same verdict and checkpoint |
| CheckpointRequest.AcceptedMeans | server/server.go:386-482 | a request is accepted if and only if it names a chain, every validator has 20 address bytes and power, one is the signer, and its separator, set hash, threshold and four-word checkpoint are what the set and chain yield; its threshold is then two thirds of the true sum exactly below 2^63 |
| CheckpointRequest.RefusedMeans | server/server.go:386-482 | a refused request is refused for the first failing gate, in the source's order |
| CheckpointRequest.AcceptedAgree | server/server.go:420-482 | requests accepted for one checkpoint agree on everything it stands for, or two named inputs collide |
| Attestation.PreimageLayout | server/attestation.go:91-120 | the ten head words in argument order, then the length, the value byte by byte from position 352, and zeros; the length is 352 plus the value length rounded up to 32 |
| Attestation.DomainIsText | server/attestation.go:18 | the domain is the text "tellorCurrentAttestation" |
| Attestation.ReportRoundTrip | server/attestation.go:43-120 | a decoder recovers every field, of query_id the word it was padded to |
| Attestation.DecodeReportSound | server/attestation.go:43-120 | nothing but preimages decodes |
| Attestation.PreimageInjective | server/attestation.go:43-120 | the preimage determines every field, for values of any length, with query_id up to its zero padding |
| Attestation.Fixed32Iff | server/attestation.go:58-60 | two query_ids give the same word exactly when they differ in trailing zeros only |
| Attestation.PreimagesDisjoint | server/attestation.go:54-120 | an attestation preimage is never a checkpoint, validator-set or domain-separator preimage |
| Attestation.AttestationIsNoCheckpoint | server/server.go:614-616 | a digest signed for an attestation equals one signed for a checkpoint only if a hash collides on two named inputs |
| Attestation.SignOracleAttestation | server/server.go:569-639 | the backend is asked exactly when the gates pass and the recomputed snapshot equals the expected one, for that snapshot's digest; only its 64-byte answer is returned |
| SignaturePacking.LowSIsCanonical | signer/sig_utils.go:77-84 | the low s is the minimum of s and N - s, the same for both, and stable |
| SignaturePacking.PackedDecodes | signer/sig_utils.go:93-101 | the 64 bytes decode to r and min(s, N - s) |
| SignaturePacking.PackedIffTwins | signer/sig_utils.go:77-101 | two signatures pack alike exactly when they are equal up to the twin of s |
| SignaturePacking.PackInto | signer/sig_utils.go:93-101 | copying the shortest bytes to the right ends of the two windows gives the fixed-width forms of r and s, at 32 bytes and at any other width |
| SignaturePacking.RecoverV | signer/sig_utils.go:129-168 | the first of 0 and 1 that recovers the key, or none |
| SignaturePacking.RecoversMeans | signer/sig_utils.go:152-162 | the recovered key is a tag, x and y, and matches exactly if the point (x, y) compresses to the expected key |
| SignaturePacking.RsToEthSig | signer/sig_utils.go:63-122 | on success 65 bytes, the packed signature and 27 or 28, which selects a recovery of the expected key; failure exactly if neither recovers it |
| RepeatingReader.RepeatingReader.Read | signer/keyring.go:75-82 | the next chunk up to the end of the buffer or of the line, the new offset, nothing else in the buffer touched, and never zero bytes into a non-empty buffer |
| RepeatingReader.StreamRepeatsTheLine | signer/keyring.go:70-82 | over any buffer sizes the k-th byte delivered is line[k mod length] |

## Left out

- GuardFile.Load: reads the documents the guard writes, with any field values, and the legacy integer; for a JSON document of another shape (other key order, extra keys, white space, escapes) the JSON library's answer is a parameter, so the general JSON grammar is not modelled.
- SigningProtocol.NoEquivocation: one process at a time uses the state file; a server without a state path forgets its mark at a restart, and nothing is claimed across it.
- AtomicFile.AllOrNothing: temp names and inode numbers are never reused, and an fsync that reported an error does not later pretend to have succeeded.
- ValidatorOrder.SortBridgeValidators: the standard library's stable sort is modelled by insertion with adjacent swaps, which is what it does on short slices; the result is the same for any correct sort.
- SignaturePacking.RsToEthSig: r and s are taken in [1, N-1], as Ecdsa-Sig-Value of section 2.2.3 of RFC 3279 is used with ECDSA; larger values make the source panic.
- DialLoops.StepInv: a sign request carries its vote or proposal, since its height is read before the nil check; target ids are distinct and non-empty.
- Double-sign safety of consensus keys: it rests on the locked signer's own state file, which is not part of this model; signing is one opaque step.
- Backoff and waiting times of the dial loop, frame reading and writing: they only pick when a step happens.
- gRPC plumbing, interceptors, TLS, the primary gate, host parsing, SignTx, SignInitial and the disabled RPCs: single branches or foreign decoders.
- Field checks of consensus requests, configuration, health, logging, metrics, connection keys, the Fortanix client and keyring access: flat checks and I/O.
- ASN.1 parsing and the insides of the hashes and the curve.
