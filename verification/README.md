# Proofs about the sample secure services

This project models the stateful services of the repository and proves what they
guarantee over all inputs, all runs and all outcomes of the world around them.
`dafny verify dfyconfig.toml` checks everything.

Everything the services get from outside is a parameter of the event it belongs to:
whether an allocation, a send, an accept or a call into the crypto library works, which
event bits are set, what a key retriever or the random device returns. A theorem about a
step or a run therefore holds for every combination of these.

## How it is built

| part | files |
|---|---|
| opaque-handle table of the key service | `AccessToken`, `HwkeySpec` (state machine), `HwkeyRuns` (theorems over runs), `HwkeyService` (the imperative code), `SlotTable` |
| random number service | `HwrngSpec` (state machine), `HwrngWalk` (the list walk on values), `HwrngRuns` and `HwrngTurns` (theorems), `HwrngService` (the imperative code) |
| counter generator and what follows from it | `CounterProvider`, `CounterTokens`, `CounterHandles` (handle lifetimes with it), `BalancedStream`, `SharedGenerator` (both services on one generator), `TokenClash` (two handles with one token) |
| software SPI driver | `SwspiSpec` (direct execution, bus ownership), `SwspiDriver` (the imperative code), `SwspiSharing` (several devices at once), `Digest` |
| keybox | `Keybox`, `KeyboxService` |
| AES service and wrapped keys | `Cbc`, `Evp` (cipher context), `DerivedKey`, `HwaesSpec`, `HwaesService`, `HandleUse` (AES service and key service together) |
| shared | `Bytes`, `BitOps`, `Lists` |

The services that change state are classes with the source's fields; lists that the
source links through nodes are sequences of node objects, cut and extended in place.
Each event handler is proved to take exactly one step of a state machine on values,
and the theorems over runs are about that machine.

## What came out

- A handle works for its slot from the reply that carries its token until its session
  ends, whatever other sessions do, and never after, provided that no other entry holds
  the same token meanwhile (`HwkeyRuns.HandleLifetime`). The comment at
  `hwcrypto/hwkey_srv.c:63-67` says a client may have one entry per slot; the code is
  stricter, one entry per slot in all, and the model follows the code.
- Without that provision the statement is false, and with the counter generator the
  provision fails easily: tokens are equal if and only if their first bytes are
  (`CounterTokens.TokensCollideIffFirstBytesAgree`). With the shipped slots, a fetch of the
  app loader's first encryption key, 222 random bytes for any client and a fetch of the
  second key yield one token twice, and it opens the first key
  (`TokenClash.ShippedHandlesClash`). A token is issued again if and only if a later draw
  begins where the counter's next non-zero byte is its first byte
  (`CounterHandles.NotReissuedIff`). That this never happens, and that no listed token has
  that first byte at the issue, is enough for a handle's life to be as stated above
  (`CounterHandles.HandleLifetimeWithCounter`). It is not necessary: what is both, for any
  run and in both halves, key and not-found, is that the table offers no such token to the
  client unpromised or ahead of the handle's own entry (`HwkeyRuns.HandleLifetimeIff`, by
  first bytes `CounterHandles.HandleLifetimeWithCounterIff`).
- `hwrng_kick_req_queue` throws the verdict of `hwrng_handle_req_queue` away, so one
  event makes one pass and progress is stated per channel event
  (`HwrngRuns.RunDelivers`) and per pass. The verdict itself is exact, and
  looping on it would stop (`HwrngRuns.NeedMoreIsExact`, `HwrngRuns.PassesTerminate`).
- `hwkey_get_derived_key` runs into its assertion on the output length, instead of
  returning an error, exactly when everything before it works and the ciphertext is not
  a whole number of blocks (`DerivedKey.Verdict`); one byte of ciphertext will do
  (`DerivedKey.OneByteOfCiphertextAborts`).
- The keybox service's explicit overflow test never decides anything: the comparison
  after it rejects the same requests (`KeyboxService.OverflowNeverMatches`). Nor can the
  output buffer be too short, since it is as large as the largest keybox received.
- An AES operation can fail after its output buffer has been written: a wrong tag in
  decryption, a tag buffer of more than 16 bytes in encryption, or a library failure in the
  last calls. `HwaesSpec.FailureWritesIff` says exactly when, and
  `HwaesSpec.LongTagBufferFailsAfterOutput` gives an encryption that does it.
- A handle is as good as its key, but for one corner: an empty key behind the handle
  together with an unknown mode is reported differently (`HwaesSpec.HandleIsTransparent`,
  at an input `HwaesSpec.EmptyKeyUnknownMode`).
- The keybox channel handler shuts the channel down once for a failed message and once for
  a hang-up, so it frees its context twice exactly when both come in one event
  (`KeyboxService.ChanHandler`, at an input `KeyboxService.HangUpWithUnreadableMessage`).

## Model

| member | source | states |
|---|---|---|
| HwkeyService.Service.ChanHandler | hwcrypto/hwkey_srv.c:375-437 | any event on a session's channel takes exactly the state machine's step, whose replies `HwkeyRuns.DirectSlotAnswers` to `HwkeyRuns.SessionEnds` give case by case from the slot table, and keeps the table's invariant; so none of the table's assertions can fail |
| HwkeyService.Service.PortHandler | hwcrypto/hwkey_srv.c:442-482 | a session exists afterwards only if accept, allow-list, allocation and cookie all worked; a half-built session leaves no trace |
| HwkeyService.Service.CtxClose | hwcrypto/hwkey_srv.c:101-112 | closing removes the session and, while the list is walked, exactly the entries it owns, keeping the others in order |
| HwkeyService.Service.DeleteOpaqueHandle | hwcrypto/hwkey_srv.c:88-96 | one entry goes and its token is wiped, while no other entry's token changes |
| HwkeyService.Service.FindOpaqueHandleForSlot | hwcrypto/hwkey_srv.c:140-151 | finds an entry of the slot if and only if there is one |
| HwkeyService.Service.InsertHandleNode | hwcrypto/hwkey_srv.c:157-174 | a slot without an entry gets one with a zeroed token at the end of the list; otherwise nothing changes; fails only without memory |
| HwkeyService.Service.GetKeyHandle | hwcrypto/hwkey_srv.c:507-564 | a finished token is never handed out again; a new entry is either filled with a token or taken away again when the random device fails part-way |
| HwkeyService.Service.IsEmptyToken | hwcrypto/hwkey_srv.c:496-505 | tells all-zero tokens from finished ones, and the assertion on the length of a finished token holds |
| HwkeyService.Service.TokenMatches | hwcrypto/hwkey_srv.c:588-591 | comparing 32 raw bytes of the request buffer with a token is comparing the request's string with the token's |
| HwkeyService.Service.GetOpaqueKey | hwcrypto/hwkey_srv.c:566-596 | walks to the first entry that the client may redeem with this string, and meets no empty token on the way |
| HwkeyService.Service.HandleSlots | hwcrypto/hwkey_srv.c:176-209 | a lookup does what the state machine's fetch does for the string in the buffer, whatever else the buffer holds; a slot's own retriever is answered for with its result and no change |
| HwkeyService.Service.TerminateId | hwcrypto/hwkey_srv.c:391-395 | the buffer then holds the string of the message, independent of what earlier messages left in it |
| HwkeyService.Service.ChanHandleMsg | hwcrypto/hwkey_srv.c:375-409 | every message's payload goes through the request buffer and each command is answered as the state machine says; only the material of a derive request is wiped from the buffer |
| HwkeySpec.FindSlot | hwcrypto/hwkey_srv.c:185-203 | the first slot with this id, this owner and a handler; a match without handler is passed over |
| HwkeySpec.WithoutOwnerMembers | hwcrypto/hwkey_srv.c:104-109 | what stays in the list is what was there and belongs to someone else |
| HwkeyRuns.StepKeepsInv | hwcrypto/hwkey_srv.c:157-174 | every event keeps: at most one entry per slot, owners alive with the slot's uuid, handle slots only, tokens of 31 non-zero bytes and a zero |
| HwkeyRuns.RunKeepsInv | hwcrypto/hwkey_srv.c:414-437 | a run from a state with the invariant ends in one |
| HwkeyRuns.ReachableStatesKeepInv | hwcrypto/hwkey_srv.c:414-437 | the invariant holds in every state reached from start-up |
| HwkeyRuns.ExtraSessionRun | hwcrypto/hwkey_srv.c:414-437 | a session that does nothing makes no difference to any run of the others |
| HwkeyRuns.AbandonedConnect | hwcrypto/hwkey_srv.c:475-480 | opening a session and closing it again leaves the state as it was |
| HwkeyRuns.DirectSlotAnswers | hwcrypto/hwkey_srv.c:185-203 | the first slot with the message's id, the session's uuid and a handler, if that is the slot's own retriever: a delivered request is answered with its result, success or error, and changes nothing |
| HwkeyRuns.HeldSlotAnswers | hwcrypto/hwkey_srv.c:518-528 | if it is a handle slot with an entry, whoever owns that: already exists, and nothing changes |
| HwkeyRuns.FreeSlotAnswers | hwcrypto/hwkey_srv.c:534-564 | if it is a handle slot without one: a draw with enough non-zero bytes is answered with the first 31 of them and a zero, and the table gets that entry at its end |
| HwkeyRuns.FreeSlotFails | hwcrypto/hwkey_srv.c:157-174 | or without memory the generic error, and with a failing random device its error; no entry is left either way |
| HwkeyRuns.UnmatchedAnswers | hwcrypto/hwkey_srv.c:205-209 | if no slot with that id, uuid and a handler exists, the tokens in the table alone decide: the first that spells the string for this client gives its slot's key, none gives not-found |
| HwkeyRuns.OtherCommandsAnswer | hwcrypto/hwkey_srv.c:392-406 | a derive request is answered with the derivation's result, an unknown command as not implemented, and neither changes the state |
| HwkeyRuns.ConnectionOpens | hwcrypto/hwkey_srv.c:442-482 | a session with the peer's uuid appears if and only if accept, allow-list, allocation and cookie all work, and nothing else changes |
| HwkeyRuns.SessionEnds | hwcrypto/hwkey_srv.c:414-437 | a hang-up, a failed receive or a failed send ends that session and no other, and is not answered |
| HwkeyRuns.IssueAddsEntry | hwcrypto/hwkey_srv.c:507-564 | a delivered token is a well-formed new entry of a slot that had none |
| HwkeyRuns.StepHandles | hwcrypto/hwkey_srv.c:375-437 | an event only appends to the list or drops exactly one session's entries |
| HwkeyRuns.EntrySurvives | hwcrypto/hwkey_srv.c:101-112 | over any run an entry lasts as long as its owner's session |
| HwkeyRuns.FetchWhileHeld | hwcrypto/hwkey_srv.c:518-528 | while the first issuer lasts, every fetch of the slot by any client is told it exists and changes nothing |
| HwkeyRuns.IssuedTwiceMeansClosedBetween | hwcrypto/hwkey_srv.c:518-528 | between two issues for one slot the first issuer's session has ended |
| HwkeyRuns.TokenNeverComesBack | hwcrypto/hwkey_srv.c:101-112 | once its session ends, a token that is not issued anew stays out of the table |
| HwkeyRuns.RedeemSoleHolder | hwcrypto/hwkey_srv.c:566-596 | presenting a token held once gives the slot's key to the allowed and not-found to all others |
| HwkeyRuns.OpensOwnEntryIff | hwcrypto/hwkey_srv.c:571-593 | without that premise: an entry is the one reached if and only if no earlier entry offers the same token to the client |
| HwkeyRuns.HandleLifetime | hwcrypto/hwkey_srv.c:176-209 | over any run after the issue in which no other entry holds the token (none at the issue, none issued with it later), it opens exactly its slot's retriever result for allowed clients until the issuing session ends, and nothing afterwards |
| HwkeyRuns.AnsweredAsPromisedIff | hwcrypto/hwkey_srv.c:566-596 | an entry's token yields its slot's key where that is promised and not-found where it is not, whatever the retrievers return, if and only if the table offers it to the client neither unpromised nor ahead of that entry |
| HwkeyRuns.HandleLifetimeIff | hwcrypto/hwkey_srv.c:176-209 | the same for an issued handle after any run, with no premise on tokens: the key while the issuing session lasts and not-found afterwards, if and only if that holds of the table |
| HwkeyRuns.EmptyIdOpensNothing | hwcrypto/hwkey_srv.c:575-591 | the empty id opens nothing in any reachable state |
| AccessToken.TokenOf | hwcrypto/hwkey_srv.c:542-564 | the token of an accepted draw is 31 non-zero bytes and a terminator |
| AccessToken.TokenAsCString | hwcrypto/hwkey_srv.c:496-505 | a token read as a string has length 31, as asserted |
| AccessToken.RawComparisonIsStringComparison | hwcrypto/hwkey_srv.c:588-591 | the fixed-size comparison agrees with string equality, so bytes behind the terminator never matter |
| AccessToken.CollectNonZero | hwcrypto/hwkey_srv.c:545-555 | a draw yields a token if and only if at most 3 of its 34 bytes are zero, and then its first 31 non-zero bytes in order |
| AccessToken.GenerateToken | hwcrypto/hwkey_srv.c:534-561 | the result is the token of the accepted draw alone, nothing from rejected draws is left, and the final assertion holds |
| CounterProvider.Counter.GetRngData | hwcrypto/hwrng_srv_fake_provider.c:35-43 | the wrapping counter hands out consecutive windows of one 256-periodic stream, wrap-around included, and writes nothing behind the window |
| CounterProvider.WindowIsBalanced | hwcrypto/hwrng_srv_fake_provider.c:38-43 | any window of 256k bytes holds every byte value exactly k times, wherever it starts |
| CounterTokens.FirstDrawIsAccepted | hwcrypto/hwkey_srv.c:534-558 | with the counter the first draw is always accepted |
| CounterTokens.TokenCountsUp | hwcrypto/hwkey_srv.c:534-561 | such a token counts up from its first byte, skipping zero |
| CounterTokens.TokensCollideIffFirstBytesAgree | hwcrypto/hwkey_srv.c:534-561 | two tokens from the counter are equal if and only if their first bytes are |
| CounterHandles.NotReissuedIff | hwcrypto/hwkey_srv.c:534-561 | with the counter, over any run and whoever else draws in between: a token is not issued again if and only if no later delivered draw begins where the next non-zero byte is its first byte |
| CounterHandles.HandleLifetimeWithCounter | hwcrypto/hwkey_srv.c:176-209 | from start-up, the life of a handle with its premise read off the counter: no entry's first byte at the issue, and no later draw's, is the one the counter is at |
| CounterHandles.HandleLifetimeWithCounterIff | hwcrypto/hwkey_srv.c:176-209 | from start-up with the counter, the exact condition in terms of first bytes alone |
| TokenClash.SecondHandleOpensFirstKey | hwcrypto/hwkey_srv.c:534-593 | both services, wherever the counter stands: a fetch, 222 random bytes and a second fetch give one token twice, and redeeming it yields the first slot's key |
| TokenClash.ShippedHandlesClash | hwcrypto/hwkey_srv_fake_provider.c:572-620 | that run exists with the shipped slots, for the app loader's two encryption keys |
| SlotTable.TokenNamesNoSlot | hwcrypto/hwkey_srv_fake_provider.c:572-660 | in the shipped table no token is ever a slot's name |
| SlotTable.NoAccessSlotNeverOpens | hwcrypto/hwkey_srv_fake_provider.c:220-224 | a handle of a slot that allows nobody opens for nobody, as long as no other entry holds its token |
| HwrngService.Service.ChanHandler | hwcrypto/hwrng_srv.c:184-209 | any event on a channel, then the kick, takes exactly the state machine's step, with the same messages sent; what that is for each channel is `HwrngTurns.TurnOf` |
| HwrngService.Service.PortHandler | hwcrypto/hwrng_srv.c:214-252 | a new channel is owed nothing and not queued; failures leave no trace |
| HwrngService.Service.HandleReqQueue | hwcrypto/hwrng_srv.c:91-143 | the walk with deletion in the loop visits every queued channel once, gives each its own outcome, and reports exactly whether one was served but not finished |
| HwrngService.Service.ChanHandleMsg | hwcrypto/hwrng_srv.c:155-179 | a request is appended to the queue, or added modulo 2^w to the one in progress |
| HwrngService.Service.CloseChan | hwcrypto/hwrng_srv.c:79-86 | the channel disappears from the queue, in which the others keep their order |
| HwrngService.Service.ServeChan | hwcrypto/hwrng_srv.c:102-139 | one attempt skips, holds, drops or serves at most 4096 bytes cut from the generator's stream |
| HwrngWalk.WalkIsPass | hwcrypto/hwrng_srv.c:100-142 | visiting channel after channel while the list shrinks equals the per-channel description of a pass |
| HwrngSpec.StepKeepsInv | hwcrypto/hwrng_srv.c:184-209 | every event keeps: queued once, queued channels open, an unqueued channel owed nothing and not blocked, counts within size_t |
| HwrngRuns.OneVisit | hwcrypto/hwrng_srv.c:100-140 | a queued channel gets the result of exactly one visit per pass |
| HwrngRuns.PassIsFifo | hwcrypto/hwrng_srv.c:100-140 | replies go out in queue order and those who stay queued keep their order |
| HwrngRuns.PassConserves | hwcrypto/hwrng_srv.c:105-132 | a pass turns pending bytes into sent bytes one for one, blocked sends included |
| HwrngRuns.StepConserves | hwcrypto/hwrng_srv.c:155-209 | an event adds what it requests and a pass conserves, short of 2^w when the counter wraps |
| HwrngRuns.RunConserves | hwcrypto/hwrng_srv.c:91-209 | over any run: sent plus pending equals requested, less 2^w for each wrap of the pending count, exact when it never wraps |
| HwrngRuns.NeedMoreIsExact | hwcrypto/hwrng_srv.c:97-142 | need_more holds if and only if an unblocked channel is still queued afterwards |
| HwrngRuns.SomeoneWantedMore | hwcrypto/hwrng_srv.c:126-142 | if n passes in a row want another, a channel started with more than 4096n bytes |
| HwrngRuns.PassesTerminate | hwcrypto/hwrng_srv.c:97-142 | repeating passes until none is needed stops within max(1, ceil(pending / 4096)), whatever device and transport do |
| HwrngRuns.ChunksAddUp | hwcrypto/hwrng_srv.c:105-108 | k chunks of n bytes add up to min(n, 4096k) and are full except possibly the last |
| HwrngRuns.PassesDeliver | hwcrypto/hwrng_srv.c:100-140 | a channel whose own attempts succeed in k passes gets exactly those chunks and leaves the queue when done, whatever happens to the others |
| HwrngRuns.RunDelivers | hwcrypto/hwrng_srv.c:184-209 | in runs of the service: a channel left alone whose own attempts succeed has had exactly those chunks after k channel events of any clients, whatever else happens in between |
| HwrngTurns.TurnOf | hwcrypto/hwrng_srv.c:184-209 | what an event does to any one channel, whose event it may or may not be: closed if hung up, unreadable, or the device or the send fails; blocked with all it is owed if there is no room or it was blocked before; otherwise it gets one message of at most 4096 bytes and waits for the others |
| HwrngTurns.BlockedWaits | hwcrypto/hwrng_srv.c:102-103 | over any run in which nothing closes or unblocks it, a blocked channel gets nothing and stays open, queued and blocked, owed what it was plus what it asks for |
| HwrngTurns.OwedIsSum | hwcrypto/hwrng_srv.c:168-174 | what it is then owed is the whole sum, modulo the size of size_t |
| HwrngTurns.UnblockedDelivers | hwcrypto/hwrng_srv.c:195-209 | from its unblock event on, a channel left alone whose own attempts succeed gets exactly its chunks, one per channel event of any client, the unblock event being the first |
| HwrngTurns.BlockedThenDelivered | hwcrypto/hwrng_srv.c:184-209 | both in one run: everything asked for before and while it was blocked is delivered once it is unblocked |
| HwrngTurns.StepKeepsOrder | hwcrypto/hwrng_srv.c:172-175 | a first request goes behind all that wait, and an event never changes the order of those who stay queued |
| HwrngTurns.NobodyOvertakes | hwcrypto/hwrng_srv.c:91-209 | over any run in which a channel stays queued, whoever was behind it, not queued, or not even open, is behind it at the end if queued, however often it left and came back |
| BalancedStream.RunSendsWholePeriods | hwcrypto/hwrng_srv.c:105-132 | requests in multiples of 256 are answered in counter windows of such lengths only, also after blocked chunks were redrawn |
| BalancedStream.ServedChannelIsBalanced | hwcrypto/hwrng_srv.c:105-132 | a fully served channel that asked for 256k bytes so has every byte value exactly k times |
| SharedGenerator.StepInOrder | hwcrypto/hwkey_srv.c:534-555 | one event of either service takes its bytes from the generator after all earlier ones |
| SharedGenerator.RunInOrder | hwcrypto/hwrng_srv.c:111-124 | over any run of both services all replies and token draws are disjoint, increasing windows, even where chunks or draws were thrown away |
| SharedGenerator.KeyViewIsRun | hwcrypto/hwrng_srv_fake_provider.c:35-43 | the key service's part of any run of both is a run of its own in which somebody else draws bytes, so all theorems about its runs apply |
| SharedGenerator.RngViewIsRun | hwcrypto/hwrng_srv_fake_provider.c:35-43 | the random number service's part of any run of both, messages included, is a run of its own in which somebody else draws bytes |
| SharedGenerator.IssuedTokenIsUse | hwcrypto/hwkey_srv.c:534-561 | a token that is handed out comes from a draw used for nothing else |
| SharedGenerator.CounterValuesAreFresh | hwcrypto/hwrng_srv_fake_provider.c:35-43 | until the counter comes round no counter value serves twice across both services |
| SwspiDriver.Device.SeqBegin | spi/swspi-srv/driver/swspi.c:181-193 | an idle device becomes active with an empty recording it alone owns, or stays idle without memory |
| SwspiDriver.Device.Record | spi/swspi-srv/driver/swspi.c:42-79 | recording appends one request and takes over its allocation, which no other entry shares |
| SwspiDriver.Device.ReqXfer | spi/swspi-srv/driver/swspi.c:141-158 | records the transfer, or without memory records nothing |
| SwspiDriver.Device.ReqDelay | spi/swspi-srv/driver/swspi.c:165-179 | records the delay, or without memory records nothing |
| SwspiDriver.Device.RandBuf | spi/swspi-srv/driver/swspi.c:94-101 | fills the front of the buffer with the seeded pattern and nothing behind it |
| SwspiDriver.Device.ExecXferArgs | spi/swspi-srv/driver/swspi.c:114-139 | loopback copies or zeroes; otherwise the pattern seeded by the digest of the old transmit bytes, also when both buffers are the same |
| SwspiDriver.Device.SeqFree | spi/swspi-srv/driver/swspi.c:195-206 | frees the array and every argument exactly once and nothing else; the device is idle |
| SwspiDriver.Device.SeqCommit | spi/swspi-srv/driver/swspi.c:208-223 | executes what was recorded, each once and in order, as direct execution would, then frees all of it; every position of every buffer holds what the last transfer into it received, or is unchanged |
| SwspiDriver.Device.SeqAbort | spi/swspi-srv/driver/swspi.c:225-228 | frees everything without having executed anything |
| SwspiDriver.Device.RunSequence | spi/swspi-srv/driver/swspi.c:141-228 | begin, record and commit equals direct execution, buffers and owner alike, and leaves in every position what the last transfer into it received, or its old byte; aborting after a failed allocation has no effect; nothing stays allocated |
| SwspiDriver.Device.OperateBeside | spi/swspi-srv/driver/swspi.c:141-228 | begin, record, commit or abort on one device leaves another device's recording and memory on the same heap and bus untouched |
| SwspiSharing.PerformAll | spi/swspi-srv/driver/swspi.c:141-228 | calls of several devices interleaved in any way, each keeping to the protocol on its own: every device ends up with what its own calls recorded, and bus and buffers are as if only the commits had happened in their order, each with the transfers of `SwspiSpec.CompletedTransfers`; it completes exactly if they do |
| SwspiSpec.CompletedTransfers | spi/swspi-srv/driver/swspi.c:208-223 | a completed sequence, position by position of every buffer: unchanged where no transfer receives, and otherwise what the last transfer into it puts there |
| SwspiSpec.LastTransferDecides | spi/swspi-srv/driver/swspi.c:114-139 | that is, from the transmit bytes as the requests before it left them: in loopback the byte itself, or zero without transmit buffer; otherwise the generator's number modulo 255, seeded with the digest of those bytes, or with zero |
| SwspiSpec.NotReceivedInto | spi/swspi-srv/driver/swspi.c:208-223 | a position no transfer receives into keeps its byte |
| SwspiSpec.CommitCompletesIff | spi/swspi-srv/driver/swspi.c:51-70 | no ownership assertion fails if and only if asserts and deasserts alternate from the current owner on, and the owner afterwards |
| SwspiSpec.BalancedCommitsReleaseBus | spi/swspi-srv/driver/swspi.c:208-223 | balanced sequences of any devices in any order all complete and leave the bus released each time |
| SwspiSpec.OnlyCommitterOwnsBus | spi/swspi-srv/driver/swspi.c:51-70 | at every point of a balanced sequence the owner is its own device or nobody |
| Digest.ComputeDigest | spi/swspi-srv/driver/swspi.c:82-91 | the loop computes the digest the laws below are about |
| Digest.DigestIsXorOfTurned | spi/swspi-srv/driver/swspi.c:85-89 | the digest is the xor of byte i rotated right by (n-1-i) mod 8 |
| Digest.DigestAppend | spi/swspi-srv/driver/swspi.c:85-89 | the digest of two buffers in a row from their digests and the second length |
| Digest.DigestIsLinear | spi/swspi-srv/driver/swspi.c:85-89 | the digest of xored buffers is the xor of the digests |
| Digest.DigestDetectsChange | spi/swspi-srv/driver/swspi.c:85-89 | changing any one byte always changes the digest |
| BitOps.BitOfXor | hwcrypto/keybox/keybox.c:59 | the exclusive or of two bytes has exactly the bits in which they differ |
| BitOps.RorIsLinear | spi/swspi-srv/driver/swspi.c:86-88 | shifting right and moving the lowest bit to the top respects exclusive or |
| BitOps.RorByModulo8 | spi/swspi-srv/driver/swspi.c:86-87 | rotation has period 8 |
| BitOps.RorOfSplit | spi/swspi-srv/driver/swspi.c:86-87 | rotating right by one moves the lowest bit to the top and the others down |
| BitOps.XorAllDetectsChange | hwcrypto/keybox/keybox.c:57-60 | changing one byte always changes a xor checksum |
| Keybox.Unwrap | hwcrypto/keybox/keybox.c:39-74 | success if and only if there is a checksum, the buffer is large enough and all bytes xor to zero; the plaintext is then every byte but the last xored with 0x42, and what wraps to the input; failures write nothing |
| Keybox.ChecksumMatches | hwcrypto/keybox/keybox.c:57-65 | the checksum matches if and only if all bytes xor to zero |
| Keybox.WrapUndone | hwcrypto/keybox/keybox.c:57-71 | wrapping the unmasked bytes again gives back the input |
| Keybox.WrapIsInjective | hwcrypto/keybox/keybox.c:67-71 | no two plaintexts wrap to the same keybox |
| Keybox.WrapUnmasks | hwcrypto/keybox/keybox.c:57-71 | a wrapped keybox is its plaintext with every byte xored with 0x42, followed by the exclusive or of those bytes |
| KeyboxService.HandleUnwrap | hwcrypto/keybox/srv.c:64-100 | through the framing: success if and only if the declared length is right and at least 1 and the bytes xor to zero; the reply's data is then every byte but the last xored with 0x42, and wraps to the request |
| KeyboxService.HandleMsg | hwcrypto/keybox/srv.c:109-138 | every received message is answered, unknown commands as invalid, and the channel is shut down exactly when receiving or sending failed |
| KeyboxService.ChanHandler | hwcrypto/keybox/srv.c:140-156 | an event with a message, a hang-up or both: the context is freed at most once if and only if a hang-up does not come with a failed message |
| KeyboxService.HangUpWithUnreadableMessage | hwcrypto/keybox/srv.c:146-155 | an event that frees the context twice |
| KeyboxService.WrappedIsUnwrapped | hwcrypto/keybox/srv.c:64-100 | a wrapped keybox comes back as its plaintext |
| KeyboxService.TamperedIsRejected | hwcrypto/keybox/srv.c:84-91 | any change to exactly one byte is rejected as an unwrap failure |
| KeyboxService.AnswerIsUnique | hwcrypto/keybox/srv.c:64-100 | the request determines the reply |
| Cbc.DecryptEncrypt | hwcrypto/hwkey_srv.c:283-290 | cipher block chaining is undone block after block for any block cipher with an inverse (section 6.2 of NIST SP 800-38A) |
| Cbc.EncryptBlock | hwaes/main.c:136-139 | every ciphertext block encrypts its text block xored with the ciphertext block before it, the first one with the initialization vector (section 6.2 of NIST SP 800-38A) |
| Cbc.DecryptBlock | hwcrypto/hwkey_srv.c:283-290 | every text block is its ciphertext block decrypted and xored with the ciphertext block before it, the first one with the initialization vector |
| DerivedKey.GetDerivedKey | hwcrypto/hwkey_srv.c:211-316 | verdict and key buffer for every input, retriever result, buffer size and library failure; once the decryption call has worked, whole block i of the buffer is block i + 1 of the stored key decrypted and xored with block i, and everything behind the whole blocks is untouched; nothing is written before that call |
| DerivedKey.Verdict | hwcrypto/hwkey_srv.c:219-307 | done if and only if all of it works on whole blocks; the length assertion fails if and only if it is reached with a partial block |
| DerivedKey.RefusalCodes | hwcrypto/hwkey_srv.c:224-303 | the retriever's error is passed on; a key that does not fit the buffer is a bad length, found before the later library calls; a wrong wrapping key length, no ciphertext or a failing call is the generic error |
| DerivedKey.OpenedBlock | hwcrypto/hwkey_srv.c:231-290 | the same block law for any stored key that comes to be decrypted, whole blocks or not |
| DerivedKey.OneByteOfCiphertextAborts | hwcrypto/hwkey_srv.c:292-294 | an input that fails the length assertion |
| DerivedKey.OpensWhatWasWrapped | hwcrypto/hwkey_srv_priv.h:93-110 | for 16- and 32-byte keys any IV followed by the encryption of m >= 1 blocks opens to that plaintext and its length, and the rest of the buffer is untouched |
| HwaesService.AesOp | hwaes/main.c:62-278 | code, output and tag are a function of the request alone, whatever earlier operations left in the shared context, the one described by `HwaesSpec.AnswersWithKey`, `HwaesSpec.CbcOutputBlock` and `HwaesSpec.GcmOutput`; the output-length assertion holds |
| HwaesService.Compute | hwaes/main.c:193-277 | the same for the part that drives the context, for every library failure |
| HwaesSpec.SucceedsIff | hwaes/main.c:68-277 | for every library failure, the exact set of requests that succeed, from the request's fields: the buffers, the sizes of key, vector and text in numbers, which tags each mode takes, and a tag that begins the right one |
| HwaesSpec.AnswersWithKey | hwaes/main.c:68-277 | the code of any request whose key is given or can be fetched, by the first thing wrong with it, sizes in numbers |
| HwaesSpec.AnswersWithoutKey | hwaes/main.c:104-131 | the answer when the key cannot be had: a handle too long or without terminator is invalid, no session the generic error, a refusal an I/O error, and no output is touched |
| HwaesSpec.CbcOutputBlock | hwaes/main.c:136-139 | a successful CBC operation, block by block: chained to the ciphertext block before it, the first to the initialization vector |
| HwaesSpec.GcmOutput | hwaes/main.c:242-277 | a successful GCM operation: text and key stream, and in encryption the front of the tag over additional data and ciphertext |
| HwaesSpec.DecryptsWhatWasEncrypted | hwaes/main.c:62-278 | output and tag of any successful encryption, in CBC or GCM, decrypt to the original text, however either side gives the key |
| HwaesSpec.TagDecides | hwaes/main.c:233-263 | authenticated decryption succeeds if and only if the presented tag begins the right one |
| HwaesSpec.FailureWritesIff | hwaes/main.c:242-277 | over all requests and library failures, a failed operation has changed its output buffer if and only if it produced a different output and failed after that; a failure never changes the tag buffer |
| HwaesSpec.LongTagBufferFailsAfterOutput | hwaes/main.c:267-274 | an encryption with a 17-byte tag buffer writes its ciphertext and then fails |
| HwaesSpec.EmptyKeyUnknownMode | hwaes/main.c:73-77 | an input where handle and key are answered differently |
| HwaesSpec.HandleIsTransparent | hwaes/main.c:104-131 | a handle answers like the key behind it, with the one exception stated exactly |
| HandleUse.LookUpLeavesNoTrace | hwaes/main.c:114-123 | whatever other sessions do between connecting, asking and hanging up, the look-up is answered by redeeming the handle as things stand at the request, and the key service ends up as if only the others had acted |
| HandleUse.AesWithHandle | hwaes/main.c:104-131 | end to end, over any run of the key service since the issue in which no other entry holds the token, other sessions interleaved with the look-up: like the slot's key while the handle lives and the AES service may redeem, an I/O error otherwise |

## Left out

- IPC, ports, cookies and the event loop: an event arrives with its results; which handle it came in on, and error bits other than hang-up, are not modelled.
- `hwcrypto/main.c`, logging, hex dumps, self-test vectors, constant-time comparison and the wiping of response buffers.
- The crypto library: block ciphers, key stream and authenticator are parameters (`Cbc.Prims`), and `Evp.CipherCtx` states what the calls do to a context, a failing call leaving the output alone and a successful one without padding finishing with no further output. That GCM is a key stream plus an authenticator over additional data and ciphertext is all that is used of it.
- Key derivation (`derive_key_v1`, HKDF, version choice): the derive command's result is an input of its event. All lengths are within the limit of section 2.3 of RFC 5869, so little would remain but copying.
- Key retrievers: what a slot's retriever returns is an input of the request. `DerivedKey` models the one that decrypts.
- The client library of the key service is not part of this model; `HandleUse.FetchedOf` assumes that it passes on a successful reply that fits the caller's buffer and reports anything else as an error.
- `AES_KEY_MAX_SIZE`, `HWKEY_OPAQUE_HANDLE_MAX_SIZE` and `KEYBOX_MAX_SIZE` are defined outside the repository; they are parameters.
- AES arguments are values: a missing argument is an empty one, a null initialization vector of non-zero length is not representable, and output buffers that overlap each other or an input are not modelled (operating in place on equal buffers gives the same bytes as far as the library allows it).
- Session and channel addresses are values of an arbitrary type that may come back after a close; that the allocator never returns a live address is assumed.
- AccessToken.GenerateToken: a draw loop that never accepts is not a completed event; the outcome of the loop is described by how many draws it rejected and how it ended.
- HwrngRuns.PassesTerminate: about passes in a row, as a caller heeding the verdict would make them; the service makes one pass per channel event, for which delivery is `HwrngRuns.RunDelivers`.
- SwspiDriver.Device.RunSequence: the batch layer above the driver is represented by this protocol; a null pointer from a zero-length allocation counts as failed allocation, and buffers are distinct or the same, not partly overlapping.
- Real time of a delay, and the clock setting, which the driver itself ignores.
- Connection logic and system calls exercised by `app-mgmt-test`, shared pages of `memref-test`, and the demos and tests that only wire up libraries: nothing stateful of their own is visible in the repository.
