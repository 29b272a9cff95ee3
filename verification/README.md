# Rime OS: verified models

Dafny models of the parts of Rime OS (the `apex-os` repository) whose promises are about whole
runs, unbounded sets or arbitrary input, with proofs of those promises. Each module follows one
source file or one component of it:

- `Room`, `Relay`: the relay room that joins one host to one guest (`relay/src`).
- `Crc`, `CrcRemainder`, `Gpt`, `GptLayout`, `GptWriter`, `Scan`: the GPT reader and content scanner of the Windows
  installer; polynomials over the two-element field and a writer of disks are what they are measured against.
- `Graph`, `ProcessTree`, `Ledger`, `Stat`: what a session started, and the `/proc` line readers.
- `Compositor`: the dirty-region redraw of the splash preview.
- `Destination`, `Rules`: the network allowlist, as rules and as text.
- `LockWatch`, `Grant`: screen locks and system-access grants over time.
- `McpConf`: the launch configuration for connectors.
- `Worktree`: the porcelain worktree listing.
- `Text`, `Common`: the string and result types the others share.

Code that computes a value is a function; code that changes things step by step is a method or a
class whose contracts tie it to a function, and the laws are lemmas about that function. A run is
a list of events applied from the initial state, so every lemma about `Run`, `Runs` or `After`
speaks of every reachable state. The methods that read the disk compute in a 64-bit type, so
their verification includes the absence of overflow and underflow.

`dafny verify dfyconfig.toml` checks everything.

## What the models show to be otherwise

- An anonymous subagent start is documented as recorded and never dropped. Below the cap of 128
  it is (`Ledger.AnonymousStartRecorded`); at the cap the id `anon:128` is drawn again and again,
  so a second anonymous start in a row is always lost (`Ledger.SecondAnonymousStartLost`), and a
  run gets there (`Ledger.LostStartReached`). Evidence of a stop nobody saw start is documented
  as kept; it is exactly under the same conditions (`Ledger.AnonymousStopRecorded`) or, with a
  name, while there is room (`Ledger.NamedStopRecorded`), and runs lose either kind
  (`Ledger.LostStopReached`, `Ledger.LostNamedStopReached`).
- `Rule::covered_by` is documented as a statement about sets of destinations. Every yes is right
  (`Rules.CoveredIsContained`). For the rules of any two lines, a containment answered no is one of
  three (`Rules.LineCoverageExact`): a wildcard under itself, a wildcard that matches nothing, being
  over 251 characters or holding a colon, and an IPv4 address whose text falls under a wildcard
  (`Rules.EqualWildcardOverlooked`, `Rules.LongWildcardOverlooked`, `Rules.AddressOverlooked`). The
  last also contradicts the remark that `decide` matches a literal against address rules only: `*.3.4`
  permits `1.2.3.4` (`Rules.NumericWildcardOverlooked`).
- `Rule::as_line` is documented as the line that would produce the rule. It is, except for a host
  with a colon on a port other than 443 and for a name stored with a final dot
  (`Rules.ParsedRuleRoundTrip`, `Rules.ColonBeforePortIsLost`, `Rules.FinalDotIsLost`).
- A grant cut short by a reboot is documented as reported so. Looked at on the next boot it is;
  after a second reboot past its window it reads as expired (`Grant.ReasonIsTrue`,
  `Grant.TwoRebootsHideTheFirst`).
- The dirty-region redraw is not always the full composition. After any run, a refresh makes a
  pixel right, whatever blending does, exactly when it redraws the pixel or the layers shown there
  at its last redraw are the layers there now (`Compositor.RefreshExact`). Layers differ only
  through a sprite that has drifted in opacity or lost its image (`Compositor.OnlyDriftOrLoss`).
  Where one sprite lies alone, a drift of a hundredth or less goes wrong exactly when one of its
  ends is visible, and a lost image exactly when it was (`Compositor.DriftIsNotRedrawn`,
  `Compositor.LossIsNotRedrawn`).
- The launch document reads back to itself, except when something was wrapped with a binary
  named neither `rime` nor `apex` (`McpConf.DocumentIsFixpoint`, `McpConf.ForeignBinaryIsNoFixpoint`,
  `McpConf.ForeignBinaryWritten`).

## Model

| member | source | states |
|---|---|---|
| Relay.Waiting | relay/src/index.js:201-212 | the first open host without a peer, or none exactly when there is no such socket |
| Relay.SocketFor | relay/src/index.js:217-228 | the first open socket with an id, or none exactly when there is none |
| Relay.DialOutcome | relay/src/index.js:136-188 | a dial refuses with 503 or 409, adds one waiting host, or pairs the waiting host with the guest; it does nothing else |
| Relay.RaceBranchUnreachable | relay/src/index.js:170-177 | the second lookup of the waiting host finds the first one's answer, so the lost-race branch cannot be taken |
| Relay.RefusedOnlyWhen | relay/src/room.js:80-96 | with space, a host is refused exactly when a live unpaired host exists, and a guest exactly when none does; a refusal changes nothing |
| Relay.Reinstate | relay/src/index.js:132-295 | an update that keeps links and reopens no line keeps the room invariant if streams and flows still agree |
| Relay.MessageKeeps | relay/src/index.js:236-263 | every message, on open and closed sockets alike, keeps the room invariant |
| Relay.PartnerLostKeeps | relay/src/index.js:282-294 | telling the partner keeps the invariant and leaves the caller's own socket alone |
| Relay.LookupPartner | relay/src/index.js:282-294 | the stored link finds the partner exactly when its line is open |
| Relay.JoinKeeps | relay/src/index.js:170-184 | pairing keeps the invariant: one new symmetric link and nothing else |
| Relay.RunKeeps | relay/src/index.js:132-295 | the invariant holds in every state reachable by any run |
| Relay.Occupancy | relay/src/index.js:136-228 | in every reachable state links are a symmetric host-to-guest matching, at most one open host is unpaired, no guest is unpaired, at most 16 lines are open, and close code 1013 is never used |
| Relay.Streams | relay/src/index.js:124-130 | everything a socket received in any run: its notices in order, then only acceptable binary frames that are a prefix of what its one peer offered, all of it while open, and peer-gone at most once and last |
| Relay.OfferedIsHistory | relay/src/index.js:236-263 | the offered frames are exactly the acceptable frames the client sent while it had a peer |
| Relay.RunEvolves | relay/src/index.js:158-187 | over any run links are written at most once, a closed line stays closed and receives nothing more, and nothing sent is unsent |
| Relay.BadFrameEndsBoth | relay/src/room.js:155-163 | a text or oversized frame reaches nobody, closes the sender with its code and the partner with peer-gone |
| Relay.GoodFrameDelivered | relay/src/index.js:255-262 | a good frame is appended verbatim to the open partner's stream and to no other |
| Relay.FrameCarried | relay/src/room.js:155-163 | in any run every binary frame of at most 262144 bytes is appended verbatim to the open partner and changes nothing else |
| Relay.FrameRefused | relay/src/room.js:155-163 | any text closes its open sender with 1003 and any longer binary frame with 1009; the open partner gets peer-gone and 1001, and nobody else changes |
| Relay.FrameBeforePairing | relay/src/index.js:236-252 | before there is a partner an acceptable frame changes nothing and any other closes its sender |
| Relay.FrameAfterPartner | relay/src/index.js:255-262 | once the partner is gone an acceptable frame brings its sender peer-gone and 1001 |
| Relay.PartnerIsTold | relay/src/index.js:282-294 | a closing or failing socket brings its open partner peer-gone and 1001 and changes nothing else |
| Relay.RelayRoom.FindWaiting | relay/src/index.js:201-212 | the loop over sockets returns the first waiting host |
| Relay.RelayRoom.FindSocket | relay/src/index.js:217-228 | the loop over sockets returns the first open socket with the id |
| Relay.RelayRoom.Fetch | relay/src/index.js:136-188 | the handler does what the dial step does and keeps the invariant; nothing is sent on a closed line |
| Relay.RelayRoom.WebSocketMessage | relay/src/index.js:236-263 | the handler does what the message step does and keeps the invariant; nothing is sent on a closed line |
| Relay.RelayRoom.WebSocketClose | relay/src/index.js:268-277 | the close and error handlers tell the partner and keep the invariant |
| Crc.ComputeCrc32 | windows-installer/src/lib.rs:21-28 | the two nested loops compute the folded register, complemented |
| Crc.AbsorbReversible | windows-installer/src/lib.rs:24-25 | a small enough difference of registers after a byte determines the difference before it, so a step loses nothing |
| Crc.WindowOrigin | windows-installer/src/lib.rs:21-28 | two windows of up to four bytes that end in one register started from registers differing by the windows' difference |
| Crc.BurstDetected | windows-installer/src/lib.rs:21-28 | different messages of one length, any length, that agree outside four consecutive bytes have different checksums |
| CrcRemainder.ChecksumIsRemainder | windows-installer/src/lib.rs:21-28 | the checksum of any message, complemented and bit-reversed, is the remainder of the message behind 32 ones, times x to the 32, modulo x^32+x^26+x^23+x^22+x^16+x^12+x^11+x^10+x^8+x^7+x^5+x^4+x^2+x+1 |
| CrcRemainder.RemainderUnique | windows-installer/src/lib.rs:21-28 | there is only one such remainder |
| CrcRemainder.CheckValue | windows-installer/src/lib.rs:21-28 | the checksum of the digits 1 to 9 is 0xcbf43926 |
| Gpt.GuidInjective | windows-installer/src/lib.rs:29-33 | two printed identifiers are equal exactly when their 16 bytes are |
| Gpt.GuidFields | windows-installer/src/lib.rs:29-33 | each group of the printed form, read as a hexadecimal number, is its field: three little-endian, the rest big-endian |
| Gpt.Header | windows-installer/src/lib.rs:80-90 | a header is accepted exactly when it can be read, its fields are as required and its checksum matches |
| Gpt.TamperedHeaderRefused | windows-installer/src/lib.rs:80-90 | changing up to four consecutive bytes of the 92, stored checksum included, makes an accepted header refused |
| Gpt.TamperedByteRefused | windows-installer/src/lib.rs:80-90 | changing any one of the 92 bytes makes an accepted header refused |
| GptLayout.ClashMeansIncompatible | windows-installer/src/lib.rs:166-168 | the byte comparison of two partitions finds a clash exactly when identities are equal or sectors are shared |
| GptLayout.AnyClash | windows-installer/src/lib.rs:166-168 | the loop over listed partitions finds a clash exactly when there is one |
| GptLayout.ReadEntry | windows-installer/src/lib.rs:146-165 | an entry is accepted exactly when it is empty throughout or has bounds in range, an identity and a decodable name |
| GptLayout.ReadTable | windows-installer/src/lib.rs:145-170 | a table is accepted exactly when every entry is and no two used ones clash, and then its used entries are listed in order |
| GptLayout.CheckGeometry | windows-installer/src/lib.rs:132-140 | the declared geometry is accepted exactly when the headers agree and the usable range lies outside both copies |
| GptLayout.CheckMbr | windows-installer/src/lib.rs:108-122 | the protective MBR is accepted exactly when it is as required |
| GptLayout.CheckHeaders | windows-installer/src/lib.rs:123-140 | both headers and the declared geometry are accepted exactly when they are as required |
| GptLayout.EnumerateIn | windows-installer/src/lib.rs:105-172 | a disk is accepted exactly when it is valid, and then the layout lists its table, with no 64-bit overflow on the way |
| GptLayout.PartitionBounds | windows-installer/src/lib.rs:151-165 | every listed partition is whole sectors inside the declared usable range, clear of MBR, headers and tables |
| GptLayout.WithinMeansUnreserved | windows-installer/src/lib.rs:125-140 | no byte of such a partition is a byte of the MBR, a header or a table |
| GptLayout.PartitionsDisjoint | windows-installer/src/lib.rs:166-168 | no two listed partitions share an identity or a byte |
| GptLayout.PartitionsComplete | windows-installer/src/lib.rs:146-170 | the list is the non-empty entries, each once, in table order |
| GptWriter.Read32 | windows-installer/src/lib.rs:19 | four bytes written for a number are read as it |
| GptWriter.Read64 | windows-installer/src/lib.rs:20 | eight bytes written for a number are read as it |
| GptWriter.Written64 | windows-installer/src/lib.rs:20 | a number is read only where its bytes stand |
| GptWriter.UnitsAreUtf16 | windows-installer/src/lib.rs:160-164 | the UTF-16 form of any text is a name the reader accepts |
| GptWriter.Utf16IsText | windows-installer/src/lib.rs:160-164 | and it accepts no other |
| GptWriter.DiskAccepted | windows-installer/src/lib.rs:105-172 | every disk written from a sound plan is accepted |
| GptWriter.ReadBack | windows-installer/src/lib.rs:105-172 | reading it gives back its identity and every item, with kind, identity, name, place and attributes, in order, and nothing else |
| GptWriter.AcceptedHeader | windows-installer/src/lib.rs:80-90 | an accepted header carries signature, revision, size, its own checksum and both places in its bytes |
| GptWriter.AcceptedGeometry | windows-installer/src/lib.rs:125-140 | accepted headers carry one range, one identity and a table of 128 entries of 128 bytes, each in its place |
| GptWriter.AcceptedMbr | windows-installer/src/lib.rs:107-122 | an accepted protective MBR carries one partition of type 0xee from sector 1, and nothing else |
| GptWriter.AcceptedEntry | windows-installer/src/lib.rs:146-165 | an accepted entry is zero throughout or has a kind, an identity, a range and a name |
| GptWriter.AcceptedDisk | windows-installer/src/lib.rs:105-172 | an accepted disk carries all of these, and two equal tables with their checksum |
| Scan.ScanExtent | windows-installer/src/lib.rs:180-194 | each answer is justified by the disk, an invalid extent is refused, and reads are consecutive chunks inside the extent |
| Scan.RefinesLinearSearch | windows-installer/src/lib.rs:180-194 | on an extent inside the disk the chunked scan gives the linear search's answer: all zero, or the least nonzero offset and its value |
| Scan.PartitionReadsAreSectors | windows-installer/src/windows.rs:188-202 | every read issued for a listed partition starts on a sector and is whole sectors |
| ProcessTree.GroupByParent | rimed/rime-agent-core/src/graph.rs:474-478 | the map holds each pid's children in list order |
| ProcessTree.KidsConcat | rimed/rime-agent-core/src/graph.rs:474-478 | children come in list order, every entry once |
| ProcessTree.DescendantTree | rimed/rime-agent-core/src/graph.rs:473-523 | terminates on every list and returns the uncapped walk, or its first 64 |
| ProcessTree.TreeNode | rimed/rime-agent-core/src/graph.rs:495-519 | a listed node is the process it shows, with its label and start, is not the root and hangs off a node listed before it that is its real parent, or off nothing under the root |
| ProcessTree.TreeOrder | rimed/rime-agent-core/src/graph.rs:460-472 | each process is listed once, in nondecreasing distance from the root |
| ProcessTree.DescendantsListed | rimed/rime-agent-core/src/graph.rs:469-523 | every process reachable by a chain of parents from the root is listed, no deeper than the chain is long |
| ProcessTree.ListedAreDescendants | rimed/rime-agent-core/src/graph.rs:469-523 | every listed process has a chain of exactly its depth, so depth is distance |
| Ledger.NamesAreNotNumbered | rimed/rime-agent-core/src/graph.rs:399-412 | a clamped name is never a synthesised numbered id |
| Ledger.NameKept | rimed/rime-agent-core/src/graph.rs:399-412 | a name of letters, digits, dashes, underscores and dots is kept up to 48 characters, blanks around it dropped |
| Ledger.LabelIs | rimed/rime-agent-core/src/graph.rs:418-434 | a type of printable words is its own label up to 48 characters |
| Graph.ProcessLabelIs | rimed/rime-agent-core/src/graph.rs:668-679 | a printable process name is its own label up to 48 characters |
| Ledger.OldestClosed | rimed/rime-agent-core/src/graph.rs:380-386 | the earliest-ended closed child, the first of equals, or none when all are open |
| Ledger.PushEffect | rimed/rime-agent-core/src/graph.rs:378-392 | a push drops nothing below the cap and only a closed child at it, and keeps ids unique |
| Ledger.StartEffect | rimed/rime-agent-core/src/graph.rs:181-215 | a start changes no existing child |
| Ledger.StopEffect | rimed/rime-agent-core/src/graph.rs:227-281 | a stop changes at most one child, the first that answers to it: the named one, or an open one without a usable name, never a reported one |
| Ledger.NamedStopEnds | rimed/rime-agent-core/src/graph.rs:236-261 | in any run a stop naming a child that is open, or that a sweep closed, ends it there and then as reported, and changes no other |
| Ledger.AnonymousStopEnds | rimed/rime-agent-core/src/graph.rs:250-261 | a stop without a usable name ends the first open child without one, and changes no other |
| Ledger.ReportedOnce | rimed/rime-agent-core/src/graph.rs:247-250 | a second report about a child changes nothing |
| Ledger.NamedStartRecorded | rimed/rime-agent-core/src/graph.rs:181-215 | a start with a new name appends that child, open, with its label and time, making room by the earliest-ended closed child at the cap; a known name changes nothing |
| Ledger.AnonymousStartIs | rimed/rime-agent-core/src/graph.rs:187-197 | below the cap a start without a usable name appends an open child numbered by the length |
| Ledger.UnseenStopRecorded | rimed/rime-agent-core/src/graph.rs:262-281 | a stop naming an unknown child is recorded as begun and ended at once, in the same place |
| Ledger.SweepEffect | rimed/rime-agent-core/src/graph.rs:299-309 | a sweep ends every open child with its reason and time, and changes no other |
| Ledger.StepEffect | rimed/rime-agent-core/src/graph.rs:181-309 | every event keeps the record valid, never drops an open child and never changes a reported one it keeps |
| Ledger.RunValid | rimed/rime-agent-core/src/graph.rs:162-309 | over every run: unique ids, at most 128 children, an end exactly with a reason |
| Ledger.ReportedUntilEvicted | rimed/rime-agent-core/src/graph.rs:247-250 | over every run a reported child stays as it is until it is evicted |
| Ledger.AnonymousStartRecorded | rimed/rime-agent-core/src/graph.rs:187-197 | an anonymous start is recorded exactly below the cap, or at it when the id is free and a closed child can go |
| Ledger.SecondAnonymousStartLost | rimed/rime-agent-core/src/graph.rs:187-197 | at the cap a second anonymous start in a row is lost in every reachable record |
| Ledger.AnonymousStopRecorded | rimed/rime-agent-core/src/graph.rs:217-281 | an anonymous stop that no open child answers to is recorded exactly under the same condition |
| Ledger.NamedStopRecorded | rimed/rime-agent-core/src/graph.rs:217-281 | a stop naming an unknown child is recorded exactly when there is a free place or a closed child to drop |
| Ledger.StartsFill | rimed/rime-agent-core/src/graph.rs:181-215 | every size up to the cap is reached, by anonymous starts numbered in order |
| Ledger.LostStartReached | rimed/rime-agent-core/src/graph.rs:187-200 | a run after which a start is lost although a closed child could have made room |
| Ledger.LostStopReached | rimed/rime-agent-core/src/graph.rs:217-281 | a run after which an anonymous stop leaves no trace although a closed child could have made room |
| Ledger.LostNamedStopReached | rimed/rime-agent-core/src/graph.rs:217-281 | a run after which every stop with a name leaves no trace |
| Ledger.Record.PushChild | rimed/rime-agent-core/src/graph.rs:378-392 | the in-place append with eviction is the push |
| Ledger.Record.SubagentStarted | rimed/rime-agent-core/src/graph.rs:181-215 | the in-place start is the start step |
| Ledger.Record.SubagentStopped | rimed/rime-agent-core/src/graph.rs:227-281 | the in-place stop is the stop step |
| Ledger.Record.CloseAll | rimed/rime-agent-core/src/graph.rs:299-309 | the in-place sweep is the sweep step and returns how many were open, counted as a set |
| Stat.StatRoundTrip | rimed/rime-agent-core/src/graph.rs:606-619 | from a printed line both readers recover name, parent and start ticks, whatever the name contains |
| Stat.ReadersAgree | rimed/rime-agent-core/src/auth.rs:171-178 | on every line the two readers agree about the start time |
| Compositor.ZOrderSorted | files/branding/plymouth/render-preview.py:116 | the drawing order is ascending in depth |
| Compositor.ZOrderPermutes | files/branding/plymouth/render-preview.py:116 | the drawing order holds exactly the sprites there are |
| Compositor.ZOrderStable | files/branding/plymouth/render-preview.py:116 | sprites of equal depth keep the order in which they were added |
| Compositor.TruncIs | files/branding/plymouth/render-preview.py:111-125 | whole-pixel positions are the nearest towards zero |
| Compositor.LoneSprite | files/branding/plymouth/render-preview.py:61-78 | a sprite alone shows its texel over black inside its rectangle if at least 0.011 opaque, and nothing elsewhere |
| Compositor.TwoSpritesDrawn | files/branding/plymouth/render-preview.py:116-125 | of two sprites the deeper is drawn first, and of equals the one added first |
| Compositor.ShowingZOrder | files/branding/plymouth/render-preview.py:116 | sorting by depth and picking the sprites that show at a pixel commute, which is stability |
| Compositor.CompositionDecided | files/branding/plymouth/render-preview.py:116-125 | two lists of sprites make the same pixel for every blend exactly when their visible layers there agree, bottom to top |
| Compositor.FadedStack | files/branding/plymouth/render-preview.py:116-125 | if no sprite comes into sight at a pixel, its layers stay the same exactly when every sprite showing there does |
| Compositor.FrameIsShown | files/branding/plymouth/render-preview.py:102-126 | after any run each pixel is the full picture of the sprites as they were when it was last redrawn |
| Compositor.RefreshExact | files/branding/plymouth/render-preview.py:102-126 | after any run a refresh makes a pixel right for every blend exactly when it is redrawn or the layers last shown there are the layers now |
| Compositor.OnlyDriftOrLoss | files/branding/plymouth/render-preview.py:104-115 | after any run, at a pixel that is not redrawn, a sprite last shown there has only drifted by at most two hundredths or lost its image, and no other covers it now |
| Compositor.RefreshExactBySprite | files/branding/plymouth/render-preview.py:104-126 | there, unless one sprite came into sight and another went, a refresh is right exactly when each sprite shows as it did or neither then nor now |
| Compositor.TradeCanGoUnnoticed | files/branding/plymouth/render-preview.py:104-126 | when one comes and another goes the pixel can be right by coincidence |
| Compositor.EveryRefreshIsComplete | files/branding/plymouth/render-preview.py:80-126 | over any run in which no refresh finds a visible drift or a visible lost image, every refresh shows the full picture everywhere |
| Compositor.DriftIsNotRedrawn | files/branding/plymouth/render-preview.py:109-110 | a dot drawn at one opacity and set to another is right after a refresh exactly when they differ by more than a hundredth or cannot be told apart |
| Compositor.LossIsNotRedrawn | files/branding/plymouth/render-preview.py:105-106 | a dot drawn and then left without an image is right after a refresh exactly when it could not be seen |
| Compositor.Screen.BlendInto | files/branding/plymouth/render-preview.py:61-78 | exactly the pixels in both clip and image are blended |
| Compositor.Screen.AddSprite | files/branding/plymouth/render-preview.py:100-101 | a new sprite is appended and the pixels stay those of the run |
| Compositor.Screen.ChangeImage | files/branding/plymouth/render-preview.py:87-88 | the image is replaced, a redraw is due, and the pixels stay those of the run |
| Compositor.Screen.ChangePosition | files/branding/plymouth/render-preview.py:89-90 | the position is replaced and the pixels stay those of the run |
| Compositor.Screen.ChangeOpacity | files/branding/plymouth/render-preview.py:91-92 | the opacity is replaced and the pixels stay those of the run |
| Compositor.Screen.RefreshScreen | files/branding/plymouth/render-preview.py:102-126 | every pixel in a dirty rectangle becomes the composition of all sprites, every other pixel is untouched, and the buffer is the run's frame |
| Destination.Decide | rimed/rime-agent-core/src/destination.rs:615-631 | allowed exactly when a rule matches name and port; otherwise no rule, or the ascending ports the name is allowed on |
| Destination.AcceptsAddress | rimed/rime-agent-core/src/destination.rs:640-661 | accepted exactly when the name is allowed and the address is public or written down for the port |
| Destination.NamesReachNothingLocal | rimed/rime-agent-core/src/destination.rs:640-661 | under a list of names an allowed name may lead to exactly the IPv4 addresses, plain or mapped, outside nine blocks given by their first and last address |
| Destination.NamesReachNoLocal6 | rimed/rime-agent-core/src/destination.rs:751-761 | and to exactly the IPv6 addresses outside ::, ::1, fc00::/7, fe80::/10 and ff00::/8 |
| Destination.NamedAddressAccepted | rimed/rime-agent-core/src/destination.rs:649-657 | an address written down for the port is accepted wherever it lies |
| Destination.UnderMeans | rimed/rime-agent-core/src/destination.rs:283-287 | a wildcard matches exactly the names with something and a dot in front of its own |
| Destination.NarrowingNeverWidens | rimed/rime-agent-core/src/destination.rs:595-661 | whatever a narrowed list allows, by name or by address, the runtime's list allows |
| Destination.ChainNeverWidens | rimed/rime-agent-core/src/destination.rs:570-609 | the same through any chain of narrowings |
| Rules.ParsedOk | rimed/rime-agent-core/src/destination.rs:224-277 | every parsed rule holds a normalised host without wildcard and a port from 1 to 65535 |
| Rules.ColonFreeLine | rimed/rime-agent-core/src/destination.rs:224-246 | a line without colon, slash or bracket is a host on port 443, blanks around it dropped |
| Rules.PortLine | rimed/rime-agent-core/src/destination.rs:236-244 | with a colon and a number it is a host on that port, from 1 to 65535, and otherwise refused for it |
| Rules.ManyColonsLine | rimed/rime-agent-core/src/destination.rs:669-681 | with more than one colon and no bracket it is one host on port 443 |
| Rules.BracketsWantPort | rimed/rime-agent-core/src/destination.rs:669-681 | a bracketed host without a port is refused |
| Rules.HostIs | rimed/rime-agent-core/src/destination.rs:264-274 | a host is read as its lower-case name, or as the address it spells, exactly when it is 1 to 253 name characters with dots in order; a stray star is refused |
| Rules.WildcardIs | rimed/rime-agent-core/src/destination.rs:248-263 | a wildcard is read exactly when there is such a name with an inner dot behind it |
| Rules.NotALine | rimed/rime-agent-core/src/destination.rs:225-234 | a blank line, a URL and a path are refused as such |
| Rules.RuleRoundTrip | rimed/rime-agent-core/src/destination.rs:345-356 | a rule comes back from its line exactly when it has no colon before an explicit port and no final dot |
| Rules.ParsedRuleRoundTrip | rimed/rime-agent-core/src/destination.rs:224-277 | the same for the rule parsed from any line |
| Rules.ColonBeforePortIsLost | rimed/rime-agent-core/src/destination.rs:345-356 | an address with colons, written in brackets on a port other than 443, parses, and its printed rule never comes back |
| Rules.FinalDotIsLost | rimed/rime-agent-core/src/destination.rs:689-705 | a line with a host with two final dots keeps one, and its printed rule does not come back |
| Rules.ParseLines | rimed/rime-agent-core/src/destination.rs:546-555 | all lines or the first error, without duplicates |
| Rules.CollectedOnce | rimed/rime-agent-core/src/destination.rs:546-555 | a parsed list holds exactly the parsed rules, each once |
| Rules.ListRoundTrip | rimed/rime-agent-core/src/destination.rs:546-568 | a list rebuilt from its own lines is the original exactly when every rule comes back |
| Rules.Narrow | rimed/rime-agent-core/src/destination.rs:595-609 | each of the three refusals exactly in its case, the last naming the first uncovered rule, and otherwise the parsed list, which the runtime covers |
| Rules.CoveredIsContained | rimed/rime-agent-core/src/destination.rs:292-341 | whenever `covered_by` says yes, every host the first pattern matches is matched by the second |
| Rules.CoverageExact | rimed/rime-agent-core/src/destination.rs:292-341 | for all patterns a line can produce, matched hosts are contained exactly when `covered_by` says so or it is one of the three containments it overlooks |
| Rules.LineCoverageExact | rimed/rime-agent-core/src/destination.rs:292-341 | the same for the destinations, ports included, of the rules of any two lines |
| Rules.AddressUnderWildcard | rimed/rime-agent-core/src/destination.rs:280-290 | an address is contained in a wildcard exactly when it is an IPv4 address whose text falls under it |
| Rules.EqualWildcardOverlooked | rimed/rime-agent-core/src/destination.rs:327-330 | every wildcard line contains itself and is not covered by itself |
| Rules.LongWildcardOverlooked | rimed/rime-agent-core/src/destination.rs:327-339 | a line with a wildcard of 253 characters matches nothing, and is covered by no name or address |
| Rules.AddressOverlooked | rimed/rime-agent-core/src/destination.rs:331-339 | an address under a numeric wildcard is permitted by it and not covered by it |
| Rules.NumericWildcardOverlooked | rimed/rime-agent-core/src/destination.rs:331-339 | `*.3.4` permits the literal `1.2.3.4`, which is not covered by it |
| Rules.LawsHoldTogether | rimed/rime-agent-core/src/destination.rs:707-709 | the laws taken of address text hold together for an address of each kind |
| LockWatch.UnknownOriginIsStrictest | rimed/rime-agent-core/src/lock.rs:209-231 | a session of unknown origin continues exactly when every origin would |
| LockWatch.LockRules | rimed/rime-agent-core/src/lock.rs:174-204 | under a locked or unreadable screen Remote Control goes on exactly if the owner allows it and every other origin exactly if agents may, with the reason; without a lock or a screen everything goes on |
| LockWatch.Watcher.Observe | rimed/rime-agent-core/src/lock.rs:504-544 | the in-place observation is the step |
| LockWatch.HeldAfter | rimed/rime-agent-core/src/lock.rs:515-543 | what is held after a step: present, on a locked tick, and held before or stopped now |
| LockWatch.LockedTickHolds | rimed/rime-agent-core/src/lock.rs:491-525 | after each locked tick of any run every session present is paused, held or permitted |
| LockWatch.LockedTickObeys | rimed/rime-agent-core/src/lock.rs:491-525 | the same in terms of the two settings |
| LockWatch.HeldNow | rimed/rime-agent-core/src/lock.rs:515-523 | a tick asks to hold exactly the sessions it stops that were not held, for a reason of theirs |
| LockWatch.RevokedOncePerLock | rimed/rime-agent-core/src/lock.rs:499-528 | grants are revoked exactly on the first tick of a locked stretch |
| LockWatch.HeldMeans | rimed/rime-agent-core/src/lock.rs:515-543 | a session is held exactly when some tick stopped it and it was present under a locked screen ever since |
| LockWatch.UnlockResumes | rimed/rime-agent-core/src/lock.rs:529-537 | an unlock resumes exactly those of them that are still present, in ascending order |
| LockWatch.PausedByHandStaysPaused | rimed/rime-agent-core/src/lock.rs:461-466 | a session seen only paused since the screen was last unlocked is not resumed, whatever happened at earlier locks |
| LockWatch.UnreadableIsLocked | rimed/rime-agent-core/src/lock.rs:93-102 | over any run replacing locked by unreadable changes no state and no action but reason texts |
| Grant.NeverMoreThanTheCap | rimed/rime-agent-core/src/grant.rs:234-251 | a grant issued through the caps never shows more than an hour left, or eight for system access |
| Grant.TtlIs | rimed/rime-agent-core/src/grant.rs:234-251 | break-glass lasts up to an hour and never by default, system access up to eight hours and half of one by default |
| Grant.IssuedIs | rimed/rime-agent-core/src/grant.rs:234-251 | an issued grant starts now on this boot and ends after its window, or with the clock |
| Grant.CountsDown | rimed/rime-agent-core/src/grant.rs:588-597 | on its own boot an unclosed grant shows the time to its expiry and has then expired |
| Grant.SystemGrant.CloseWith | rimed/rime-agent-core/src/grant.rs:603-609 | an ending is recorded once and the call says whether it was |
| Grant.RecordedForever | rimed/rime-agent-core/src/grant.rs:569-575 | a recorded ending is what is seen for ever after |
| Grant.EndedForever | rimed/rime-agent-core/src/grant.rs:569-597 | with a forward clock and fresh boot ids a grant seen ended is never seen active again |
| Grant.FirstReason | rimed/rime-agent-core/src/grant.rs:576-593 | the reason and time at the first ended look, from the boot it is looked at on |
| Grant.ReasonIsTrue | rimed/rime-agent-core/src/grant.rs:576-587 | it says reboot exactly when a reboot cut the grant short, unless the window ran out between the first later boot and this one |
| Grant.ReasonIsTrueOnNextBoot | rimed/rime-agent-core/src/grant.rs:48-53 | looked at no later than the next boot, the reason is always right |
| Grant.TwoRebootsHideTheFirst | rimed/rime-agent-core/src/grant.rs:576-587 | a grant cut short by one reboot and looked at after a second reads as expired |
| McpConf.RewriteReads | rimed/rime-agent-core/src/mcpconf.rs:833-841 | a rewritten definition has the new command line and every other key as it was |
| McpConf.WrappedUnwraps | rimed/rime-agent-core/src/mcpconf.rs:412-460 | a program wrapped at launch unwraps to its own name and its original command line |
| McpConf.Curate | rimed/rime-agent-core/src/mcpconf.rs:654-765 | the loop builds the document and one decision per definition |
| McpConf.KeysAreKept | rimed/rime-agent-core/src/mcpconf.rs:665-759 | the document's keys are exactly the kept names |
| McpConf.OnlyApproved | rimed/rime-agent-core/src/mcpconf.rs:767-790 | under every policy no name gets in without a definition the user has not disabled and, out of a repository, has approved |
| McpConf.NamesByPolicy | rimed/rime-agent-core/src/mcpconf.rs:767-826 | the exact names under each policy: all approved ones, those that are programs, those on the list, none |
| McpConf.DecisionSays | rimed/rime-agent-core/src/mcpconf.rs:665-826 | each decision says kept by the same rule |
| McpConf.LastDecides | rimed/rime-agent-core/src/mcpconf.rs:750-759 | under a name stands what the last kept definition of it becomes |
| McpConf.PlacedAs | rimed/rime-agent-core/src/mcpconf.rs:679-749 | exactly the unwrapped third-party programs with a usable name start through the wrapper, every other key as it was; any other definition stays as it is |
| McpConf.UnwrapExact | rimed/rime-agent-core/src/mcpconf.rs:435-460 | unwrapping recognises exactly the wrapper command lines |
| McpConf.FileNameIs | rimed/rime-agent-core/src/mcpconf.rs:435-440 | a program is called by the last part of its path |
| McpConf.StringsConcat | rimed/rime-agent-core/src/mcpconf.rs:186-199 | arguments that are no strings are left out, the others keep their order |
| McpConf.KeptSetsNest | rimed/rime-agent-core/src/mcpconf.rs:793-826 | no connectors, local only and as configured keep ever larger sets |
| McpConf.PlaceAgain | rimed/rime-agent-core/src/mcpconf.rs:679-749 | placing a placed definition changes it exactly when it was wrapped with a binary of another name |
| McpConf.DocumentIsFixpoint | rimed/rime-agent-core/src/mcpconf.rs:644-765 | curating what the document holds gives it again exactly when nothing was wrapped with such a binary |
| McpConf.ForeignBinaryIsNoFixpoint | rimed/rime-agent-core/src/mcpconf.rs:412-460 | a third-party program wrapped with a binary of another name is wrapped once more by a second curation |
| McpConf.ForeignBinaryWritten | rimed/rime-agent-core/src/mcpconf.rs:412-460 | such a launch, written out |
| McpConf.FixpointWithOwnBinary | rimed/rime-agent-core/src/mcpconf.rs:424-432 | so always when the binary is named `rime` or `apex`, or there is none |
| Worktree.ParseWorktreeList | rimed/rime-agent-core/src/git.rs:163-205 | the loop returns one record per path line, made of the lines up to the next blank or path line |
| Worktree.RecordsAreSeparate | rimed/rime-agent-core/src/git.rs:158-205 | for any text only the first record is main, and branch and HEAD come from a record's own lines, the last one if several |
| Worktree.StartsComplete | rimed/rime-agent-core/src/git.rs:193-196 | every path line opens a record |
| Worktree.ListingRoundTrip | rimed/rime-agent-core/src/git.rs:163-205 | a printed listing reads back as the same records in order |

## Left out

- Relay: the Worker entry point, the rate limit, hibernation and reading the role and room out of a URL; a dial arrives with its role, and ids drawn are taken to be new.
- GPT: the host-side opening of images and devices, and `lab_policy`; a disk is its bytes and a read past the end fails.
- GPT: partition names are listed as UTF-16 code units, accepted exactly when they are the form of some text, instead of the text.
- Session graph: `live_children`, `account`, `fill_rss` and reading `/proc`; they would only add easy members.
- Compositor: pixel arithmetic, which is a parameter, image loading and resizing, and the animation script; positions and opacities are reals, so floating-point rounding is not modelled. Sprites are records in the screen's list, so references to a sprite held elsewhere are not modelled.
- Destination: reading destinations out of CONNECT authorities and URLs, and the texts shown to a refused session.
- Address text: parsing and printing addresses is any pair of functions; the printing laws assume that a printed address reads back, is lower-case host text, and that text with a colon that reads as an address has two; the coverage laws also that an address with a letter has a colon, that no dot comes before a colon, that an IPv4 address has one text, and that an IPv6 address has one without dots.
- LockWatch.Watcher.Observe: reasons are tags instead of sentences.
- Lock: asking `loginctl`.
- Grant: parsing durations, capabilities, the store on disk, and renewal, which belongs to the daemon.
- McpConf: reading the four configuration surfaces, the sentences explaining decisions, and the report as JSON; paths are Unix paths.
- Worktree: running git.
- Everything else in the repository: checkpoints, hooks, secrets, backup, the Android application, the installers' drivers and the shell scripts.
