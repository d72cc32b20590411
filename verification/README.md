# AixvoLinkPBX: a verified model

AixvoLinkPBX is a SIP back-to-back user agent that anchors RTP between two call legs.
This project models the parts of it where state, wrap-around arithmetic or concurrency
make the behaviour hard to see from the code, and proves what they keep.
`dafny verify dfyconfig.toml` checks everything.

| files | component |
|---|---|
| `Wrap` | 16- and 32-bit wrap-around and the signed 16-bit distance |
| `RtpTracker`, `RtpHistory`, `RtpLoss`, `RtpCounters` | reception statistics of one RTP stream |
| `RtpRewriter` | the outbound stream of a forwarded leg |
| `RtcpRoundTrip` | compact NTP times, delay fields and round-trip time |
| `PortPool`, `PortProtocol` | media port pool: one caller alone, and all interleavings |
| `ReInvite`, `ReInviteSlot` | pending re-INVITE of a session: all interleavings, and the methods that guard it |
| `SdpText`, `Sdp`, `SdpMeaning`, `SdpRoundTrip`, `SdpNegotiation` | audio session descriptions: parse, what a text means, print, negotiate |
| `MediaAnswer`, `MediaForward` | applying an answer to both legs; the forwarding decision per packet |
| `CallActor`, `CallSnapshot` | call state actor and what its snapshot shows |
| `CallSetup`, `CallMailbox` | the changes of state a session asks of the actor: set-up, waiting for its reply, hanging up |
| `CallRecord`, `CallSystem` | event bus and call rows |
| `Registration` | the two registration stores and the manager's plan |
| `DigestReplay` | nonce lifetimes and the replay cache |

Code that updates objects is modelled by classes proved against specification functions;
concurrent protocols are state machines over their critical sections, and their theorems
quantify over every interleaving. Clocks, randomness, bind results, publisher results and
network answers are parameters.

## What the code does not promise

Some laws one would expect hold only under a condition. Each has a concrete input on which
it fails and the exact condition under which it holds.

- Loss and extended maximum of a stream are exact after every packet if and only if no
  arrival is misread: a new number, not before the first, taken for a duplicate because its
  slot holds the same 16-bit number, or a late number that fills no gap (already seen but
  overwritten in its slot, or before the first) while some number is missing
  (`RtpLoss.LossExactIff`; inputs: `RtpLoss.FarJumpMiscounts`, `RtpLoss.LateRepeatMiscounts`).
- The stored round-trip time is within the expected error for every exchange if and only if
  the peer answered within 65536 s, or so late (from 131071.999984741 s) that nothing in range
  is stored: the delay field is clipped (`RtcpRoundTrip.RttAccurateIff`; inputs:
  `RtcpRoundTrip.ClippedDelayMisjudges`, `RtcpRoundTrip.SecondTurnMisjudges`).
- A publish that is refused takes the call's state back but not the times and the cause written
  for it. The snapshot's answer time is that of the last answer delivered if and only if no
  answer was refused between it and the last event delivered (or the last one refused read the
  same time); before a terminal event it shows no end and no cause if and only if no terminal
  state was refused (`CallSnapshot.AnswerTimeIff`, `CallSnapshot.EndTimeIff`; inputs:
  `CallSnapshot.RefusedAnswerShows`, `CallSnapshot.RefusedFailureShows`).
- Setting up a call asks for an invalid transition if and only if the callee rings (180, or 183
  without a description) after early media has begun, or the caller cannot be told of the answer
  and the Terminating event is refused (`CallSetup.SetupInvalidIff`; input:
  `CallSetup.RingingAfterEarlyMediaFails`).
- A re-INVITE answered with 500 has already replaced offer, legs and answer. That happens if and
  only if everything before succeeded and the change of state was not served in time, or the event
  for a new state was refused. A refused change leaves the call in its old state; one that was
  only late is made all the same, so the caller is told 500 and the call is put on hold
  (`MediaAnswer.Session.HandleReInvite`; inputs: `MediaAnswer.RefusedHoldStays`,
  `MediaAnswer.TimedOutHoldIsMade`).
- Any other refusal of a re-INVITE leaves the media as they were, but a 2xx of the callee has by
  then replaced the dialog's last exchange and been acknowledged. After any re-INVITEs the legs
  are in step with what the callee was last acknowledged if and only if that answer was not
  refused with 488 (`MediaAnswer.HandleReInvites`; input:
  `MediaAnswer.UnusableAnswerIsAcknowledged`).
- Hanging up sends BYE to the other side if and only if the actor serves the request for
  Terminating in time, before its own cancellation, and the event is published; on shutdown the
  actor may end the call first, and then no BYE is sent (`CallMailbox.Mailbox.HandleHangup`; input:
  `CallMailbox.ShutdownSendsNoBye`).
- A round trip whose difference fits 32 bits is stored if and only if the report's compact time is
  not zero, the difference is positive and no turn of the compact time lies between the report's
  time plus the delay and the arrival (`RtcpRoundTrip.StoredIff`; input:
  `RtcpRoundTrip.TurnIsDropped`).
- The clock is read before a registration reaches the store, so concurrent refreshes can be
  served out of the order of their readings. The SQL store then stays within the limit if and
  only if no contact is refreshed that is active at its own reading but expired at one served
  before it while the limit is full (`Registration.SqlWithinIff`; input:
  `Registration.SqlExceedsLimit`). The memory store skips the limit for any stored contact, so
  for it "active at its own reading" drops out (`Registration.MemoryWithinIff`; input:
  `Registration.MemoryExceedsLimit`), and it differs from the SQL store if and only if an expired
  contact is refreshed at the limit (`Registration.StoresAgreeIff`).
- A printed description parses back to itself if and only if its codecs are supported, have
  payload types below 128, no payload type names two codecs, its address is a specified one and
  both ports are non-zero (`SdpRoundTrip.RoundTripIff`; inputs:
  `SdpRoundTrip.HighPayloadTypeIsLost`, `SdpRoundTrip.UnspecifiedHostIsLost`).
- Requests authenticated concurrently may be checked before and recorded after the expiry of
  their nonce. A repeated nonce count is then accepted if and only if its entry was dropped
  in between and there is room (`DigestReplay.RepeatAcceptedIff`; input:
  `DigestReplay.LateRepeatIsAccepted`). One at a time it never is.

## Model

| member | source | states |
|---|---|---|
| RtpTracker.Tracker.Observe | internal/media/rtp/stats.go:70-120 | the table, head and counters after one packet, and its class, are those of the value-level step every theorem below is about |
| RtpTracker.Tracker.Advance | internal/media/rtp/stats.go:86-105 | an accepted packet of a started stream moves the maximum only forward in signed 16-bit distance and is Reordered exactly when that distance is negative |
| RtpHistory.TableIsHistory | internal/media/rtp/stats.go:71-78 | after any stream each of the 128 slots holds the 16-bit image of the last number of its residue |
| RtpHistory.DuplicateIff | internal/media/rtp/stats.go:71-78 | Duplicate is reported exactly when the last packet of the same residue had the same 16-bit number, over the whole history |
| RtpHistory.RepeatIsReported | internal/media/rtp/stats.go:71-78 | while every packet is less than 128 below the running maximum, every repeat is reported Duplicate |
| RtpHistory.TruthMeans | internal/media/rtp/stats.go:90-100 | the reference used below is the first number, the maximum and the set of numbers of the stream |
| RtpLoss.ArrivalEffect | internal/media/rtp/stats.go:80-105 | what any packet does to the extended maximum modulo 2^32 and to the loss, from its hit and its signed distance alone |
| RtpLoss.Conservation | internal/media/rtp/stats.go:80-139 | for every stream, loss plus accepted packets exceeds the extended maximum's advance plus one by exactly the decrements stopped at zero and the accepted arrivals at distance 0 |
| RtpLoss.ExtendedIsMaximum | internal/media/rtp/stats.go:90-100 | cycles plus maximum equals, modulo 2^32, the true maximum of accepted packets offset by the first, through any number of wraps |
| RtpLoss.MissingForward | internal/media/rtp/stats.go:90-96 | a number beyond the maximum adds exactly the skipped numbers to the missing set |
| RtpLoss.MissingBack | internal/media/rtp/stats.go:101-105 | a late number removes one missing number exactly when it fills a gap |
| RtpLoss.ExactForward | internal/media/rtp/stats.go:90-100 | from an exact account, a forward arrival keeps it exact if and only if it is not misread |
| RtpLoss.ExactBack | internal/media/rtp/stats.go:101-105 | from an exact account, a late arrival keeps it exact if and only if it is not misread |
| RtpLoss.LossExactIff | internal/media/rtp/stats.go:70-105 | over streams within the int16 half range, loss is the number of missing numbers and the maximum is exact after every packet if and only if no arrival is misread |
| RtpLoss.FirstMisreadMiscounts | internal/media/rtp/stats.go:70-105 | the account is exact up to the first misread arrival and wrong after it |
| RtpLoss.FarJumpMiscounts | internal/media/rtp/stats.go:71-78 | a stream in range whose account goes wrong because a number looks like the one a turn before |
| RtpLoss.LateRepeatMiscounts | internal/media/rtp/stats.go:101-105 | a repeat 128 below the maximum makes the account wrong |
| RtpLoss.LossIsMissing | internal/media/rtp/stats.go:70-105 | loss equals the count of numbers between first and maximum never observed, for streams less than 128 late, at most 32767 ahead and free of slot collisions |
| RtpCounters.LastSequenceIff | internal/media/rtp/stats.go:122-130 | after any stream the published number is the last packet's, in the turn of the extended maximum; it is that maximum exactly when the packet carries the maximum's number |
| RtpCounters.LastSequenceIsMaximum | internal/media/rtp/stats.go:122-130 | after a new maximum it is the true number offset by the first packet, modulo 2^32 |
| RtpCounters.CountersAreCounts | internal/media/rtp/stats.go:70-130 | packets, duplicates, reordered packets and SSRC changes are the numbers of packets of each kind in the history |
| RtpCounters.ClassIff | internal/media/rtp/stats.go:70-120 | a packet is told Reordered exactly when it is new and below the maximum so far, Duplicate exactly when it repeats its slot |
| RtpRewriter.Rewriter.constructor | internal/media/rtp/rewriter.go:34-43 | a new outbound stream with the given identifiers and nothing sent |
| RtpRewriter.Rewriter.Rewrite | internal/media/rtp/rewriter.go:46-64 | the outputs so far are one stream: own SSRC, consecutive numbers, timestamps offset as the inputs; payload kept, payload type as asked |
| RtpRewriter.TimestampsKeepDistance | internal/media/rtp/rewriter.go:46-64 | any two output timestamps differ modulo 2^32 as the inputs did |
| RtpRewriter.RewrittenStreamIsSmooth | internal/media/rtp/rewriter.go:46-64 | a tracker fed the outputs reports no loss, reordering, duplicate or SSRC change after any prefix, whatever arrived |
| RtcpRoundTrip.Endpoint.Write | internal/media/session/rtcp.go:84-122 | the sent compact time kept is the one inside the report; the report echoes the last one received and its age |
| RtcpRoundTrip.Endpoint.Read | internal/media/session/rtcp.go:47-58 | a sender report is remembered with its arrival; the round trip is updated from the report about our stream |
| RtcpRoundTrip.Endpoint.UpdateRemoteReport | internal/media/session/endpoint.go:118-135 | only the first report about our stream counts, and only if it answers the last sender report |
| RtcpRoundTrip.CompactIsUnits | internal/media/session/rtcp.go:145-151 | the compact time is the wall time in whole 1/65536 s modulo 2^32 |
| RtcpRoundTrip.DelayIsElapsed | internal/media/session/rtcp.go:124-137 | below 2^47 ns the delay field is the elapsed whole units or its maximum, free of int64 overflow |
| RtcpRoundTrip.NoDelay | internal/media/session/rtcp.go:130-133 | no delay without a report received or with a clock that went back |
| RtcpRoundTrip.OursMeans | internal/media/session/endpoint.go:119-122 | the report that counts is the first with our SSRC |
| RtcpRoundTrip.NanosOfUnits | internal/media/session/endpoint.go:130-132 | the nanoseconds kept are the length of the units, rounded down |
| RtcpRoundTrip.StoredIsDifference | internal/media/session/endpoint.go:118-135 | a stored value is the true difference modulo 2^32 wherever the wraps fall |
| RtcpRoundTrip.StoredIff | internal/media/session/endpoint.go:118-135 | an exchange whose difference fits is stored exactly when it is positive and no turn of the compact time lies between the time due and the arrival |
| RtcpRoundTrip.TurnIsDropped | internal/media/session/endpoint.go:128-132 | a concrete round trip of one second that is not stored |
| RtcpRoundTrip.RttIsAccurate | internal/media/session/endpoint.go:118-135 | with at most 65536 s at the peer a stored round trip is more than x - 1 and less than x + 2 units, x the true one |
| RtcpRoundTrip.ClippedDelayMisjudges | internal/media/session/rtcp.go:130-137 | for every longer stay up to 131071 s some exchange breaks the bound |
| RtcpRoundTrip.SecondTurnMisjudges | internal/media/session/rtcp.go:130-137 | so does a concrete exchange for every stay from there to the last that breaks it |
| RtcpRoundTrip.LongDelayIsVacuous | internal/media/session/endpoint.go:118-135 | beyond that no exchange with a difference in range is stored |
| RtcpRoundTrip.RttAccurateIff | internal/media/session/rtcp.go:124-151 | for every stay below 2^47 ns, the bound holds of all exchanges if and only if the stay is at most 65536 s or at least 131071.999984741 s |
| RtcpRoundTrip.Exchange | internal/media/session/rtcp.go:47-122 | two nodes end to end, for all times: what the first keeps is the difference modulo 2^32, within the bound in units and in nanoseconds for every stay of the exact range |
| PortPool.EvenPorts | internal/media/portalloc/pool.go:46-65 | the queue starts as the even ports of the range in order |
| PortPool.EvenPortsOnce | internal/media/portalloc/pool.go:46-65 | each even port of the range is queued exactly once and no other |
| PortPool.FirstThatBinds | internal/media/portalloc/pool.go:68-97 | the port leased is the first in queue order that binds; all before it failed |
| PortPool.NothingIsLost | internal/media/portalloc/pool.go:68-97 | queue and lease together are the old queue; when every port failed the queue is unchanged |
| PortPool.Pool.constructor | internal/media/portalloc/pool.go:46-65 | a pool over a valid range has all its even ports queued and none leased |
| PortPool.Pool.Acquire | internal/media/portalloc/pool.go:68-97 | leases the first port that binds, or reports cancellation or exhaustion with nothing leased, and keeps queued plus leased ports the configured ones |
| PortPool.Lease.Release | internal/media/portalloc/pool.go:141-153 | the first release queues the port again, a later one changes nothing |
| PortPool.LeaseBoth | internal/media/session/session.go:96-106 | two leases on distinct ports in queue order, or none held; exactly when each happens |
| PortPool.NewSession | internal/media/session/session.go:96-130 | a session with two distinct pairs, or the leases as they were |
| PortPool.Session.Close | internal/media/session/session.go:217-224 | both pairs go back exactly once |
| PortProtocol.PartitionStep | internal/media/portalloc/pool.go:68-153 | every critical section keeps queued, in-flight and leased ports a partition of the configured ports and the in-use count |
| PortProtocol.PortsArePartitioned | internal/media/portalloc/pool.go:46-153 | so in every state of every interleaving |
| PortProtocol.NoSharedPort | internal/media/portalloc/pool.go:68-97 | a held pair is not queued and shares no RTP or RTCP port with another held pair |
| PortProtocol.SendNeverBlocks | internal/media/portalloc/pool.go:141-153 | whoever is about to queue a port finds room in the channel |
| PortProtocol.ReleasedExactlyOnce | internal/media/portalloc/pool.go:141-153 | over a run a lease is sent back once if released, however often Release is called |
| PortProtocol.QuietPoolIsFull | internal/media/portalloc/pool.go:68-159 | with nothing held InUse is zero and every port is queued |
| ReInvite.InvStep | internal/sip/b2bua/in_dialog.go:176-265 | every critical section of handlers, command loop, ACKs, watchers and teardown keeps the bookkeeping consistent |
| ReInvite.InvAlways | internal/sip/b2bua/in_dialog.go:14-32 | so in every state of every interleaving, including handlers that gave up waiting |
| ReInvite.NeverOverwrites | internal/sip/b2bua/in_dialog.go:208-214 | setting the pending slot finds it empty and the transaction new to it |
| ReInvite.TerminatedOnce | internal/sip/b2bua/in_dialog.go:216-255 | no transaction is terminated twice; at session end those made pending have been terminated once and no others |
| ReInvite.OnlyItsOwn | internal/sip/b2bua/in_dialog.go:227-265 | a pending transaction is cleared only by its own watcher, its own CSeq, its own completion or session end |
| ReInvite.AdmittedAlone | internal/sip/b2bua/in_dialog.go:192-200 | a re-INVITE is admitted exactly when no other is handled and none awaits its ACK |
| ReInvite.NoCommandLost | internal/sip/b2bua/in_dialog.go:114-174 | in every interleaving a queued command is answered, being worked on, or still in the mailbox |
| ReInvite.AlwaysWatched | internal/sip/b2bua/in_dialog.go:208-265 | in every interleaving a pending transaction has its watcher |
| ReInviteSlot.Session.BeginReInvite | internal/sip/b2bua/in_dialog.go:192-200 | implements its protocol step; admits exactly when no handler is active and nothing is pending |
| ReInviteSlot.Session.FinishReInvite | internal/sip/b2bua/in_dialog.go:202-206 | implements its step; afterwards no handler is active |
| ReInviteSlot.Session.SetPendingReInvite | internal/sip/b2bua/in_dialog.go:208-214 | implements its step, and found the slot empty without looking |
| ReInviteSlot.Session.CompletePendingReInvite | internal/sip/b2bua/in_dialog.go:216-225 | session end terminates what is pending, once |
| ReInviteSlot.Session.CompletePendingReInviteCSeq | internal/sip/b2bua/in_dialog.go:227-240 | an ACK terminates the pending transaction exactly when it carries that transaction's CSeq |
| ReInviteSlot.Session.CompletePendingReInviteTransaction | internal/sip/b2bua/in_dialog.go:242-255 | terminates the transaction it was called for if pending, and otherwise leaves the slot alone |
| ReInviteSlot.Session.HasPendingReInvite | internal/sip/b2bua/in_dialog.go:176-190 | true exactly when a transaction without a waiting ACK is pending; otherwise the slot is empty afterwards and an acknowledged one terminated once |
| SdpText.DecimalOfItoa | internal/sip/sdp/audio.go:118-168 | reading a printed decimal gives the number back |
| SdpText.FieldsOfTwo | internal/sip/sdp/audio.go:123-126 | field splitting inverts joining with a space |
| SdpText.SplitOnce | internal/sip/sdp/audio.go:131-134 | splitting at the slash inverts joining with it |
| SdpText.DecimalIff | internal/sip/sdp/audio.go:127-138 | a text is read as a number exactly when it is that number in decimal after any zeros |
| SdpText.FieldsSkip | internal/sip/sdp/audio.go:123-126 | spaces in front of a field are skipped |
| SdpText.FieldsTake | internal/sip/sdp/audio.go:123-126 | a run without spaces up to a space or the end is one field; with the last row this determines the fields of every text |
| SdpText.AsciiSpaces | internal/sip/sdp/audio.go:123-126 | which ASCII characters separate fields |
| SdpText.SplitMeans | internal/sip/sdp/audio.go:131-134 | splitting gives the parts without slashes that, joined again, are the text |
| SdpText.UpperMeans | internal/sip/sdp/audio.go:139 | small letters become their capitals and nothing else changes |
| Sdp.ParseCodecs | internal/sip/sdp/audio.go:118-168 | the two loops compute the format list looked up in the last mapping of each payload type, or the error |
| Sdp.BuildAudio | internal/sip/sdp/audio.go:232-280 | succeeds exactly for one parsable host and at least one audio codec, with the error otherwise, and prints all codecs, RTCP port and direction |
| SdpMeaning.RtpMapIff | internal/sip/sdp/audio.go:118-140 | an rtpmap is read as a codec exactly when its text is a payload type below 128, a name in any letters, a slash and a clock rate |
| SdpMeaning.TableMeans | internal/sip/sdp/audio.go:118-140 | the attributes are refused exactly when an rtpmap spells no codec; otherwise the last rtpmap of each payload type holds |
| SdpMeaning.ParsedCodecsMean | internal/sip/sdp/audio.go:118-168 | parsing any media description returns, in format order, the supported codecs its formats denote, 0 and 8 being PCMU and PCMA where no rtpmap says otherwise, or the right error |
| SdpMeaning.StaticFormat | internal/sip/sdp/audio.go:150-155 | without an rtpmap the format 0 is PCMU and 8 is PCMA |
| SdpMeaning.AnyLetters | internal/sip/sdp/audio.go:118-140 | a printed rtpmap with a name in any letters is read with the name in capitals |
| SdpMeaning.TelephoneEvent | internal/sip/sdp/audio.go:139 | the DTMF name in small letters is the supported one |
| SdpMeaning.DirectionMeans | internal/sip/sdp/audio.go:183-193 | inactive, sendonly and recvonly, in the media or in the session, in this order; otherwise sendrecv |
| SdpMeaning.RtcpPortMeans | internal/sip/sdp/audio.go:86-98 | the next port without an rtcp attribute, otherwise the non-zero port the first one begins with |
| SdpMeaning.ParseAudioMeans | internal/sip/sdp/audio.go:64-107 | the first audio media decides: each error in its turn, or address (the media's before the session's), ports, direction and codecs |
| SdpMeaning.NoAudioMeans | internal/sip/sdp/audio.go:69-72 | a description without audio media is refused as such |
| SdpRoundTrip.RtpMapInverse | internal/sip/sdp/audio.go:118-150 | parsing a printed mapping of a supported codec gives it back, or is refused from payload type 128 |
| SdpRoundTrip.DirectionSurvives | internal/sip/sdp/audio.go:183-193 | the printed direction is the one read |
| SdpRoundTrip.RtcpSurvives | internal/sip/sdp/audio.go:86-100 | the printed RTCP port is the one read, unless zero |
| SdpRoundTrip.CodecsSurvive | internal/sip/sdp/audio.go:118-168 | the codec list is read back in order if and only if payload types are below 128 and none names two codecs |
| SdpRoundTrip.FormatsAreSupported | internal/sip/sdp/audio.go:150-172 | whatever is parsed, only supported codecs come out |
| SdpRoundTrip.RoundTripIff | internal/sip/sdp/audio.go:64-280 | printing then parsing returns the same endpoint exactly under the stated condition |
| SdpRoundTrip.UnsupportedIsLeftOut | internal/sip/sdp/audio.go:232-258 | printing a list is printing its supported codecs |
| SdpRoundTrip.PrintedTexts | internal/sip/sdp/audio.go:232-280 | what is printed beyond what is read back: profile, DTMF range, packet time and sendrecv in words |
| SdpNegotiation.NegotiatesFirstCommon | internal/sip/sdp/audio.go:196-220 | the first answer codec the offer has is chosen, and failure means there is none |
| SdpNegotiation.NegotiationMeans | internal/sip/sdp/audio.go:196-230 | the first G.711 codec of the answer that is offered is mapped to the offer's first like it, and DTMF exactly when both sides list it |
| SdpNegotiation.ParsedIsCoherent | internal/sip/sdp/audio.go:118-168 | in a parsed endpoint a payload type names one supported codec and an audio codec is present |
| SdpNegotiation.NegotiatedIsSound | internal/sip/sdp/audio.go:196-220 | each payload type of the mapping denotes the named codec in its own side's list |
| SdpNegotiation.LegsAreUnambiguous | internal/sip/sdp/audio.go:196-220 | audio and DTMF payload types of a leg differ |
| SdpNegotiation.MappedIff | internal/media/session/forward.go:94-102 | audio goes to audio, and DTMF to DTMF where both legs have it and the type is not the audio's |
| SdpNegotiation.ForwardingKeepsMeaning | internal/media/session/forward.go:94-102 | exactly the negotiated payload types are forwarded, each to one of the same codec and rate on the other leg, and mapping back returns the original, in both directions |
| SdpNegotiation.AnswerIsFromOffer | internal/sip/sdp/audio.go:283-289 | the answer to the caller lists only codec and payload-type pairs of its offer and an audio codec |
| MediaAnswer.Session.ApplyMediaAnswer | internal/sip/b2bua/engine.go:400-427 | succeeds exactly when the answer parses and agrees with the mapping; an error changes nothing although it may come after the legs are configured, success sets legs, mapping and reply together and never changes a mapping |
| MediaAnswer.Session.Configure | internal/media/session/session.go:164-173 | both legs are configured or, for a mapping that names no codec, neither |
| MediaAnswer.Session.ApplyForOffer | internal/sip/b2bua/in_dialog.go:154-161 | a new offer stays exactly with an answer that was applied |
| MediaAnswer.Session.ReplyIsRead | internal/sip/b2bua/engine.go:416-424 | the caller reads from its answer the caller leg's own address and ports, the callee's direction and the agreed codecs |
| MediaAnswer.Session.OutboundIsRead | internal/sip/b2bua/in_dialog.go:124-133 | the callee reads from what it is sent the callee leg's own address and ports and the caller's direction and codecs |
| MediaAnswer.RefusalMeans | internal/sip/b2bua/in_dialog.go:114-161 | 488 for what cannot be used, 408 for silence, the callee's own code, 503 for a failed ACK, in this order |
| MediaAnswer.Session.HandleAnswer | internal/sip/b2bua/engine.go:318-345 | the final answer is accepted exactly when its body, or else the early media, can be used and the ACK is sent; then the legs are in step with it |
| MediaAnswer.Session.Relay | internal/sip/b2bua/in_dialog.go:114-161 | refused with exactly these codes and then the media are as before; the dialog is replaced exactly by a 2xx, and what is acknowledged exactly by one whose ACK is sent |
| MediaAnswer.Session.HandleReInvite | internal/sip/b2bua/in_dialog.go:114-174 | the exact codes; 500 exactly when the change of state is not served in time or is refused for a new state; the state the call reaches once the mailbox is worked off in each case; the legs in step after an acknowledged 2xx exactly when it is not refused |
| MediaAnswer.Session.ChangeState | internal/sip/b2bua/engine.go:493-497 | a hold or resume is never invalid; when it is confirmed and what state is reached, served in time, late or not at all |
| MediaAnswer.LastMeans | internal/sip/b2bua/in_dialog.go:148-161 | the condition of the next row, said of the last command whose 2xx was acknowledged |
| MediaAnswer.HandleReInvites | internal/sip/b2bua/in_dialog.go:114-174 | over any re-INVITEs the mapping stays, the legs are in step with the last acknowledged answer exactly when it was not refused, and while the actor runs the state is that of the last change made |
| MediaAnswer.AfterMeans | internal/sip/b2bua/in_dialog.go:162-171 | the state after any re-INVITEs is that of the last change made: Held exactly when its offer was not sendrecv |
| MediaAnswer.RefusedHoldStays | internal/sip/b2bua/in_dialog.go:155-170 | a concrete call that stays Answered with the media of a hold that was refused |
| MediaAnswer.TimedOutHoldIsMade | internal/sip/b2bua/in_dialog.go:168-171 | a concrete hold answered with 500 that is made later all the same |
| MediaAnswer.UnusableAnswerIsAcknowledged | internal/sip/b2bua/in_dialog.go:148-161 | a concrete 200 that is acknowledged, refused with 488 and leaves the legs out of step |
| MediaForward.Forward | internal/media/session/forward.go:42-90 | which packets are counted, which leave, which count as invalid and which are passed over, exactly; what leaves is the next packet of the outbound stream under the mapped payload type |
| CallActor.DeliveredStep | internal/core/call/actor.go:143-176 | a request, published or not, extends the delivered path |
| CallActor.DeliveredPath | internal/core/call/actor.go:143-176 | for any requests and any failing publishes, delivered events are an unbroken path of allowed transitions to the current state with increasing sequence numbers |
| CallActor.TerminalIsLast | internal/core/call/actor.go:183-206 | nothing is delivered after a terminal event |
| CallActor.RankDrops | internal/core/call/actor.go:183-206 | every event but hold and resume lowers a rank, so their number is bounded by the start state |
| CallActor.EnteredFrom | internal/core/call/actor.go:183-204 | from which states each state is entered |
| CallActor.AppliedShape | internal/core/call/actor.go:143-176 | a request delivers nothing and keeps the state, or one event with the old and the requested state, its reason and the time of publishing |
| CallActor.CancellationReplies | internal/core/call/actor.go:91-102 | cancellation fails only where the publisher refuses |
| CallActor.CancellationTerminates | internal/core/call/actor.go:91-102 | from any other state cancellation reaches Terminated when both publishes succeed, with at most two events |
| CallSnapshot.LoggedIff | internal/core/call/actor.go:143-176 | a state appears in the delivered log exactly when a request for it was delivered |
| CallSnapshot.SequenceCounts | internal/core/call/actor.go:168-170 | sequence numbers count attempts to publish, so a refused one leaves a gap |
| CallSnapshot.AnswerTimeIff | internal/core/call/actor.go:147-166 | over every run, the snapshot shows the answer time of the last delivered answer, or none, if and only if no answer was refused since, up to the last delivered event, or the last refused read the same time |
| CallSnapshot.EndTimeIff | internal/core/call/actor.go:147-166 | over every run, a delivered terminal event shows its own end and cause; before one, the snapshot shows none if and only if no terminal state was refused, else those of the last refused |
| CallSnapshot.RefusedAnswerShows | internal/core/call/actor.go:150-163 | a run whose snapshot has an answer time although no answer was delivered |
| CallSnapshot.RefusedFailureShows | internal/core/call/actor.go:153-163 | a run whose snapshot shows the end and the cause of a failure that was never delivered |
| CallSetup.Run | internal/sip/b2bua/engine.go:222-351 | the replies the actor gives during set-up, and whether the command loop is entered, are those of the value-level run |
| CallSetup.OnResponse | internal/sip/b2bua/engine.go:284-304 | what one response of the callee asks of the actor and whether the wait goes on |
| CallSetup.ResponseMeans | internal/sip/b2bua/engine.go:284-304 | 100 and final responses are ignored, 180 and 183 ask for a state, any other progress is only passed on |
| CallSetup.StageMeans | internal/sip/b2bua/engine.go:288-302 | the stage reached is early media exactly after a 183 with a description, and routing exactly before any progress |
| CallSetup.HeardAllMeans | internal/sip/b2bua/engine.go:284-304 | over any responses, an invalid transition is asked for exactly when the callee rings too late, and the wait goes on exactly when nothing disturbs it |
| CallSetup.SetupInvalidIff | internal/sip/b2bua/engine.go:222-351 | a set-up asks for an invalid transition if and only if the callee rings too late or an untold answer meets a refused Terminating; the command loop is entered, in state Answered, exactly when everything succeeds |
| CallSetup.RingingAfterEarlyMediaFails | internal/sip/b2bua/engine.go:288-302 | 183 with a description and then 180 fails the call although every event is accepted |
| CallMailbox.Mailbox.Serve | internal/core/call/actor.go:103-108 | queued requests are applied in order |
| CallMailbox.Mailbox.Transition | internal/core/call/actor.go:84-132 | the reply of a request served in time, after everything queued before it; a request only waited for too briefly stays queued; a cancelled actor ends the call itself |
| CallMailbox.CalmStays | internal/core/call/actor.go:183-206 | holds and resumes, refused or not, keep a call answered or held |
| CallMailbox.Mailbox.HandleHangup | internal/sip/b2bua/engine.go:465-482 | in an answered call, on shutdown too: BYE is sent exactly when Terminating is served in time and published, no request is invalid, and which state each ending leaves |
| CallMailbox.ShutdownSendsNoBye | internal/sip/b2bua/engine.go:361-363 | a concrete shutdown that ends the call without a BYE |
| CallActor.CallActor.Apply | internal/core/call/actor.go:143-166 | state, snapshot, sequence, reply and delivered events are those of the value-level step |
| CallActor.CallActor.Run | internal/core/call/actor.go:84-111 | the created event, then a prefix of the mailbox in order, then cancellation; stops early only in a terminal state and succeeds exactly in one |
| CallRecord.Store.WriteCallEvent | internal/platform/mysql/store.go:203-249 | one transaction: the event is inserted under its key and folded into its own row, or, on a failure or a key already there, nothing changes |
| CallRecord.CallBus.Run | internal/event/call_bus.go:40-54 | events are written to both tables in order up to the first that fails, which is lost |
| CallRecord.ReplayMeans | internal/platform/mysql/store.go:203-249 | a row shows, of its events, the last state and time, the first time, the time of the first that enters Answered despite hold and resume, of the last that enters Terminated or Failed, and the last reason |
| CallRecord.RowsAreReplays | internal/platform/mysql/store.go:203-249 | with many calls interleaved each row is the replay of its own events |
| CallSystem.InvAlways | internal/event/call_bus.go:30-54 | in every interleaving of actors, bus and consumer the logs are paths and what is written, lost and queued is what was delivered |
| CallSystem.EndedIff | internal/core/call/actor.go:143-206 | a written prefix holds the end of the call exactly when its last event is the end |
| CallSystem.KeysAreNew | migrations/000001_phase1.sql:49-63 | in every interleaving the next event to be written has a key of call_events that no written event has, so the insert never fails on it |
| CallSystem.RowIsOwnReplay | internal/platform/mysql/store.go:203-249 | each row shows exactly a prefix of its call's own delivered events; its end is set exactly in Terminated or Failed, and then nothing of the call is outstanding |
| Registration.MemoryStore.Upsert | internal/platform/memory/registration_store.go:30-51 | accepts any known contact, a new one below the limit; a refusal changes nothing |
| Registration.MemoryStore.DeleteAll | internal/platform/memory/registration_store.go:65-77 | removes exactly the address of record's contacts |
| Registration.MemoryStore.DeleteExpired | internal/platform/memory/registration_store.go:96-110 | removes exactly the expired contacts and counts them |
| Registration.SqlStore.Upsert | internal/platform/mysql/store.go:71-133 | accepts an active contact, any other below the limit; a refusal changes nothing |
| Registration.CountActive | internal/platform/memory/registration_store.go:39-44 | the loop counts the active contacts of the address of record |
| Registration.UpsertWithinIff | internal/platform/mysql/store.go:71-133 | storing a contact keeps the limits at any given time if and only if it does not overfill its own address of record then |
| Registration.SqlAcceptsIff | internal/platform/mysql/store.go:96-112 | at its own reading the SQL rule accepts exactly what keeps the limits |
| Registration.SqlWithinIff | internal/platform/mysql/store.go:71-201 | in any order of service the SQL store is within the limits at the latest reading after every operation if and only if no refresh is overtaken |
| Registration.SqlWithinLimit | internal/platform/mysql/store.go:71-201 | served in the order of the readings it is within the limits after every operation and at every later time |
| Registration.SqlExceedsLimit | internal/platform/mysql/store.go:71-133 | a refresh read before its contact expired but served after the replacement exceeds the limit |
| Registration.DecisionsDifferIff | internal/platform/memory/registration_store.go:38-46 | the two rules differ exactly on a present but expired contact at the limit |
| Registration.StoresAgreeIff | internal/platform/memory/registration_store.go:30-110 | both stores make the same decisions on the same tables throughout a run if and only if that never occurs |
| Registration.MemoryWithinIff | internal/platform/memory/registration_store.go:30-110 | in any order of service the memory store is within the limits if and only if no stored contact is revived over them |
| Registration.MemoryExceedsLimit | internal/platform/memory/registration_store.go:38-46 | a concrete run, in order, that exceeds the limit |
| Registration.ManagerWithinIff | internal/core/registration/manager.go:66-147 | whatever Apply and Expire ask concurrently, both stores are within the limits exactly under those conditions, and the SQL store always when calls are made one at a time |
| Registration.ApplyEffect | internal/core/registration/manager.go:66-108 | what is refused, and what an accepted request does: remove a contact, or all with "*", or store it active until now plus its expiry, and nothing else |
| Registration.ExpireEffect | internal/core/registration/manager.go:141-147 | exactly the contacts expired at the reading are removed |
| DigestReplay.Authenticator.Verify | internal/sip/auth/digest.go:133-171 | verdict and cache are those of the value-level step; the cache is touched last |
| DigestReplay.VerdictMeans | internal/sip/auth/digest.go:133-233 | each verdict exactly: missing, stale, replayed, capacity and accepted, the last with a genuine nonce at most a minute ahead and not expired |
| DigestReplay.CacheAfterVerdict | internal/sip/auth/digest.go:209-233 | an accepted count is kept with its nonce's expiry, only expired entries are dropped and no other changes |
| DigestReplay.Authenticator.RecordNonceCount | internal/sip/auth/digest.go:209-233 | greater counts are accepted, others are replays, a new key may be refused for capacity |
| DigestReplay.Authenticator.Evict | internal/sip/auth/digest.go:222-226 | the loop keeps exactly the unexpired entries |
| DigestReplay.CacheAlwaysSound | internal/sip/auth/digest.go:209-233 | in every run the cache is within its limit and entries carry their nonce's expiry |
| DigestReplay.RememberedIff | internal/sip/auth/digest.go:209-233 | the last accepted count of a nonce and user is in the cache until exactly the first sweep at or after its expiry |
| DigestReplay.RepeatAcceptedIff | internal/sip/auth/digest.go:133-233 | in any interleaving a repeated count is accepted if and only if its entry was swept in between and there is room |
| DigestReplay.AcceptedCountsIncrease | internal/sip/auth/digest.go:133-233 | accepted counts of a nonce and user strictly increase over every run in time, although entries are evicted |
| DigestReplay.OneAtATimeIsInTime | internal/sip/auth/digest.go:133-207 | requests verified one at a time under a clock that never goes back are in time |
| DigestReplay.CapacityIff | internal/sip/auth/digest.go:221-231 | a new key is refused for capacity exactly when unexpired entries fill the cache, and else accepted |
| DigestReplay.LateRepeatIsAccepted | internal/sip/auth/digest.go:133-233 | a concrete interleaving in which one count is accepted twice |

## Left out

- RtpTracker.Tracker.Observe: leaves out jitter, byte counts and arrival times; counters are natural numbers and the compare-and-swap of the loss counter succeeds at once, as there is one writer.
- RtcpRoundTrip.Endpoint.Write: leaves out loss fraction, jitter and counts in the reports.
- RtcpRoundTrip.Endpoint.Read: the two stores of a received sender report are one step, so a report written between them is not modelled.
- RtcpRoundTrip.RttAccurateIff: stays from 2^47 ns on overflow int64 in the delay and are not characterised.
- PortPool.Pool.Acquire: binding a socket pair is an oracle; wire sockets and their close errors are not modelled.
- ReInviteSlot.Session.CompletePendingReInviteTransaction: taking the transaction and terminating it are separate steps of the protocol; the method carries out both without another thread between them.
- ReInviteSlot.Session.HasPendingReInvite: likewise for its look, its poll and its completion.
- MediaAnswer.Session.HandleReInvite: configuring a leg is one step; of the callee's dialog only the descriptions exchanged are kept.
- MediaAnswer.Session.HandleAnswer: the call is failed or ended by the caller of the method.
- CallMailbox.Mailbox.Transition: a request is being published or still queued alike; its event's fate is an input.
- MediaForward.Forward: source address acceptance, port learning, RTP decoding and DTMF decoding are inputs.
- CallActor.CallActor.Run: the mailbox is the sequence of requests it will deliver; waiting and per-request timeouts of callers are not modelled.
- CallSetup.Run: every request to the actor gets its reply, without timeouts; building and sending SIP messages is not modelled.
- CallRecord.Store.WriteCallEvent: columns that only copy identifiers of the event are left out.
- DigestReplay.Authenticator.Verify: hashes, message authentication codes and base64 are inputs, as is the time a nonce carries.
- Session description wire text: attributes and formats are the starting point; upper-casing covers ASCII only.
- Choosing a binding by q value (manager `Resolve`), `List` and `ListActive`: sorting and filtering by a library.
- SQL text and transactions: rows are maps with atomic operations.
- REFER and NOTIFY are relayed unchanged and the admission counter is one bounded counter; neither is modelled.
- DTMF decoding, media summaries, configuration checks and process start-up are not modelled.
