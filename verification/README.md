# cargo-unikernel: verification model

A Dafny model of the parts of cargo-unikernel that decide whether a guest is safe, and proofs about
them: the inbound firewall compiler, the shutdown protocol, the scrub, persistent storage, kernel
configuration and its cache, the wire formats between host and guest, the Landlock and seccomp
policies, the output directory, and the start of the app.

`dafny verify dfyconfig.toml` checks the whole project.

## How it is laid out

- Firewall: `Netlink` (attribute trees, an encoder and an independent decoder for the framing of
  section 2.3.2 of RFC 3549), `NlBuf` (the buffer that patches lengths in place), `Nft` and
  `NftBuilder` (expressions, their trees, an independent reader and an evaluator), `Ruleset` (message
  lists and the kernel's transaction), `BatchBuilder`, `Replies`, `FirewallConfig`, `FirewallTheorem`,
  and `EndToEnd`, which joins it to the codecs and to the start of the app. `Bytes`, `Text` and
  `Wrappers` are shared.
- Shutdown: `Shutdown` (one action per atomic step; a run is any interleaving), `DirGraph` and
  `Scrub`, `ZeroWriter`, `Storage`.
- Kernel: `KernelConfig`, `KernelCache`.
- Codecs: `ShellScript`, `BuildScript` (what the guest's build script prints and how Cargo reads it),
  `GuestEnv`; and `DistDir`.
- Policies and start: `Landlock`, `Seccomp`, `Boot` (the child up to its exec), `GuestInit` (PID 1 up
  to the app).

Objects the source updates in place are classes with the source's operations as methods, each proved
against functions on values; the invariants and the main results are lemmas about those functions.
System calls that may fail do so arbitrarily. Where it matters, a history variable (`failed`, `stuck`,
`refused`, `rejected`) records that one did, so that a result can say both what holds regardless and
that nothing but a failure keeps the rest from holding.

## Conventions and findings

- The guest is x86_64 only (guest/src/seccomp.rs:58-61): native byte order is little-endian, and
  lengths (`usize`) are unbounded naturals whose every narrowing is checked as the source checks it.
- Rust's `u16` parser takes a leading plus sign and leading zeros, so a port such as `+443` passes on both
  sides alike (`Text.ParsesSpellings`).
- The acknowledgement count is right exactly while fourteen plus the number of rules stays below two to
  the thirty-second; beyond that the sequence number saturates (`FirewallTheorem.AckCountExact`).
- A table of family ip (images without IPv6) filters only IPv4 packets; the policy is stated for the
  packets such an image's stack delivers.
- A fatal error and a graceful stop can race, and the second to reach the interlock cuts the first's
  wipe short (`Shutdown.SecondEntryCutsAWipeShort`); the source's comment calls that the safe move.
- Validation looks for the list separators only. An exported string that holds a line break is
  printed over several lines by the guest's build script, and Cargo reads each line: a second line of
  the form `cargo:rustc-env=NAME=value` assigns another variable (`GuestEnv.AcceptedButChanged`).
  Trailing whitespace is trimmed and NULs do not survive the shell. What arrives is characterised
  exactly (`GuestEnv.ConfigReachesGuest`).
- The host accepts the reserved all-ones id and memory sizes that overflow a byte count, and the guest
  refuses both at boot; of the constants the guest parses these are the only ones the two
  sides disagree on (`EndToEnd.SidesAgreeOnConstants`).
- A kernel cache entry directory without an image is neither removed nor replaced, so that fingerprint
  never hits again (`KernelCache.StuckEntry`); a crash while an entry is being removed can leave one
  (`KernelCache.CrashSticks`).
- In an image without persistent storage `/var/tmp` is a mount point below `/var`, which the wipe
  cannot remove; that costs the emptiness of `/var` and no file its zeroing
  (`Scrub.FileSystem.WipeWritableState`).
- The scrub needs no tree: the results hold for hard links, shared directories and cycles, which is
  more than a mounted filesystem can contain.

## Model

| member | source | states |
|---|---|---|
| `EndToEnd.ConfigToApp` | guest/src/main.rs:562-644 | The whole way: the script of any accepted configuration that arrives runs, and the guest built by it supervises its app if and only if its numbers are ones the guest takes and the kernel lets it; then the app runs under the configured ids and limits, with exactly the configured variables (of one key the last), confined to the configured paths, behind a filter that enforces the configured entries as they are written |
| `EndToEnd.SidesAgreeOnConstants` | guest/src/main.rs:123-155 | On accepted configurations that arrive the guest takes every constant it was built with if and only if no id is the reserved one and the memory sizes can be expressed in bytes, which the host does not check; it then holds the configured ids, limits and pairs |
| `EndToEnd.ConfiguredAccess` | guest/src/landlock.rs:340-350 | File by file the app can write exactly beneath the table's writable paths and the configured read-write ones, so nothing beneath a path configured only for reading, which it can read; in the default build it executes exactly the payload |
| `EndToEnd.ConfigToPolicy` | src/pipeline/docker/guest_init_script.rs:95-197 | For every configuration the host accepts with no line break in an exported string, the generated script runs, the build script bakes the guest's variables in that environment, and the batch returned is what the guest compiles out of the one for its rules, which makes the kernel accept exactly the configured packets and drop every other one its stack delivers |
| `FirewallTheorem.InstalledPolicy` | guest/src/firewall.rs:499-633 | The same from the wire string on: for every rule list that passes validation, the batch compiled from its encoding, decoded and committed, accepts exactly the packets some entry's text opens, or the fixed rules, and drops the rest |
| `FirewallTheorem.CompiledEnforces` | guest/src/firewall.rs:189-194 | Any string that parses as the rules some entries denote compiles, and to bytes that enforce those entries |
| `FirewallTheorem.CompileEntries` | guest/src/firewall.rs:189-194 | Running the compiler on such a string yields that batch |
| `FirewallTheorem.CompileRules` | guest/src/firewall.rs:772-780 | The guest's half: a malformed string is the fatal branch and the only way to fail, any other gives the encoded batch with its acknowledgement count |
| `FirewallTheorem.BytesDecide` | guest/src/firewall.rs:499-633 | Decoding the batch with the independent decoder and evaluating the chain it sets up gives accept exactly on the allowed packets, else drop, for every packet of a covered family |
| `FirewallTheorem.ChainDecides` | guest/src/firewall.rs:548-622 | The rule list in its order, over the evaluator: loopback, established and related, drop invalid, ICMPv6 types, ICMPv4 type 3, then the ports, default drop, is one condition on the packet |
| `FirewallTheorem.RangesDecide` | guest/src/firewall.rs:196-224 | For entries written as decimal ranges, a packet nothing else decides is let in if and only if some entry has its protocol and its destination port within its two numbers |
| `FirewallTheorem.TableCovers` | guest/src/firewall.rs:115-126 | The table is consulted for IPv4 packets always and for IPv6 ones exactly in images with IPv6 |
| `FirewallTheorem.MoreEntriesAllowMore` | guest/src/firewall.rs:604-622 | Appending entries never closes a packet out |
| `FirewallTheorem.AckableMessages` | guest/src/firewall.rs:499-633 | The messages carrying the ACK flag number twelve more than the rules |
| `FirewallTheorem.AckCountExact` | guest/src/firewall.rs:624-632 | The count read off the last sequence number is that number if and only if the batch fits the 32-bit sequence space |
| `FirewallTheorem.BatchSplits` | guest/src/firewall.rs:690-717 | Splitting the batch's bytes gives exactly fourteen plus n messages with nothing left over, the k-th carrying sequence number k |
| `FirewallTheorem.SplitsIntoMessages` | guest/src/firewall.rs:690-717 | Any encoded message stream is cut back into the encodings of its messages |
| `FirewallConfig.ValidatesEach` | src/schema.rs:1356-1381 | Validation accepts exactly the lists whose every entry is usable |
| `FirewallConfig.SidesAgree` | guest/src/firewall.rs:196-224 | The guest's parser accepts an entry exactly when the host's validation does, and then reads what it denotes, which DenotesNamed pins to the text |
| `FirewallConfig.SpanIsNamed` | guest/src/firewall.rs:212-218 | A port text is read as first and last if and only if it is one number, or two joined by a dash, that spell them, in order and within 1 to 65535 |
| `FirewallConfig.DecimalSpan` | guest/src/firewall.rs:212-218 | Two plain decimals joined by a dash are read as these two numbers, or refused for 0, reversed or too large ones; a single decimal as a range of one |
| `FirewallConfig.DenotesNamed` | guest/src/firewall.rs:207-223 | An entry is usable and denotes a rule if and only if its texts name the protocol (tcp is 6, udp 17) and the ports of that rule |
| `Text.ParsesSpellings` | guest/src/firewall.rs:213-215 | Integer parsing accepts exactly the spellings of the numbers the type holds: decimal digits after any zeros and at most one plus sign |
| `FirewallConfig.InboundRoundTrip` | src/pipeline/docker/guest_init_script.rs:169-185 | Every list the host accepts is parsed by the guest as the rules it denotes, in order, without the fatal branch |
| `Bytes.BigEndianOrder` | guest/src/firewall.rs:609-619 | Byte order of two big-endian ports is their numeric order |
| `Ruleset.CommitBatch` | guest/src/firewall.rs:499-633 | Committing the batch leaves one filter chain on input with policy drop and the given rules in the given order: append keeps order |
| `BatchBuilder.BatchFits` | guest/src/firewall.rs:499-633 | No rule list makes any length of the batch overflow its field |
| `BatchBuilder.BuildBatch` | guest/src/firewall.rs:499-633 | The buffer-patching builder produces exactly the encoding of the message list, and never fails |
| `BatchBuilder.PutChain` | guest/src/firewall.rs:526-546 | Emits the chain message: hook, priority, policy drop, type filter |
| `BatchBuilder.PutPortRule` | guest/src/firewall.rs:607-621 | Emits one rule message with the protocol test, the port test and the accept verdict |
| `BatchBuilder.PutPreamble` | guest/src/firewall.rs:504-602 | Emits the begin marker, table, chain and the ten fixed rules, and returns the sequence number reached |
| `BatchBuilder.PutRules` | guest/src/firewall.rs:604-622 | Emits one message per configured rule, in order, with consecutive sequence numbers |
| `Nft.ReadTree` | guest/src/firewall.rs:363-451 | An independent reader gets each expression back from the attribute tree written for it |
| `Nft.TreeSmall` | guest/src/firewall.rs:363-451 | Every expression with short operands fits its length fields |
| `NftBuilder.MetaLoad` | guest/src/firewall.rs:375-381 | Emits the attribute tree of the meta expression |
| `NftBuilder.CtStateLoad` | guest/src/firewall.rs:383-389 | Emits the attribute tree of the conntrack-state expression |
| `NftBuilder.PayloadLoad` | guest/src/firewall.rs:391-400 | Emits the attribute tree of the payload expression |
| `NftBuilder.CmpReg` | guest/src/firewall.rs:402-410 | Emits the attribute tree of the comparison |
| `NftBuilder.RangeReg` | guest/src/firewall.rs:413-425 | Emits the attribute tree of the range test |
| `NftBuilder.BitwiseMask` | guest/src/firewall.rs:428-440 | Emits the attribute tree of the mask |
| `NftBuilder.SetVerdict` | guest/src/firewall.rs:443-452 | Emits the attribute tree of the verdict |
| `Netlink.AttrsRoundTrip` | guest/src/firewall.rs:237-352 | The decoder recovers exactly the attribute forest that was encoded, at any nesting and any lengths that fit |
| `Netlink.MsgsRoundTrip` | guest/src/firewall.rs:286-306 | The same for a stream of messages |
| `NlBuf.BuildMsgs` | guest/src/firewall.rs:237-352 | Building any list of messages succeeds exactly when every attribute fits its 16-bit length and every message its 32-bit one, and then an independent decoder recovers exactly those messages |
| `NlBuf.NestedCloses` | guest/src/firewall.rs:332-342 | Patching a nested length in place turns header and children into the encoding of one attribute, or sets the latch |
| `NlBuf.MsgCloses` | guest/src/firewall.rs:286-306 | The same for a message and its 32-bit length, ending aligned |
| `NlBuf.NlBuf.PutAttr` | guest/src/firewall.rs:308-318 | Appends exactly the padded encoding of one attribute, or sets the latch, keeping alignment |
| `NlBuf.NlBuf.PutBe32` | guest/src/firewall.rs:321-323 | Appends one attribute with the value in network order |
| `NlBuf.NlBuf.PutStr` | guest/src/firewall.rs:326-330 | Appends one attribute with the NUL-terminated string |
| `NlBuf.NlBuf.PatchU16` | guest/src/firewall.rs:273-283 | Overwrites two bytes in place and nothing else, or sets the latch when the value or the place does not fit |
| `NlBuf.NlBuf.PatchU32` | guest/src/firewall.rs:261-271 | The same for four bytes |
| `NlBuf.NlBuf.EmitTree` | guest/src/firewall.rs:308-342 | Any bracketed use of the builder emits exactly the tree it brackets |
| `NlBuf.NlBuf.EmitMsg` | guest/src/firewall.rs:286-306 | The same for a message, header to end |
| `NlBuf.NlBuf.Finish` | guest/src/firewall.rs:344-351 | Fails exactly when the latch is set |
| `Replies.SplitMessage` | guest/src/firewall.rs:690-717 | Cuts a datagram into message, padding and a strictly shorter rest |
| `Replies.MessagesFramed` | guest/src/firewall.rs:690-717 | Splitting recovers exactly the messages a datagram consists of, by their own length words and padding |
| `Replies.ChecksBytes` | guest/src/firewall.rs:725-756 | A message counts as an acknowledgement exactly if its type word is 2 and its error code four zero bytes, fails exactly if the code is anything else or cut off, and otherwise counts nothing |
| `Replies.RejectedFails` | guest/src/firewall.rs:735-756 | Once a read brings a rejection before the batch is acknowledged, it never is |
| `Replies.DrainDatagram` | guest/src/firewall.rs:676-684 | Terminates; succeeds exactly on a datagram that consists of whole messages none of which rejects, judged by their bytes, and counts its acknowledgements |
| `Replies.AwaitAcks` | guest/src/firewall.rs:674-687 | Succeeds exactly if some run of clean reads acknowledges every message that asked; never when a rejection comes before that |
| `Shutdown.RunsKeepInv` | guest/src/shutdown.rs:58-456 | Every state of every interleaving satisfies the inductive invariant of signals, flags, watchdog and wipe section |
| `Shutdown.NoLostSignal` | guest/src/shutdown.rs:149-232 | Once a handler has finished, the watcher is never blocked: in the epoll wait the pipe is readable, in the polling fallback the flag is found |
| `Shutdown.SignalLeadsToTrigger` | guest/src/shutdown.rs:58-218 | After a finished handler a spawned watcher can always step, each of its steps brings it closer to the trigger, and no other thread's step takes it back |
| `Shutdown.AppGetsItsGrace` | guest/src/shutdown.rs:287-304 | In every run in which the watcher has come to the interlock it had sent SIGTERM, and between that and the end of its wait the app was gone or the whole grace period had passed |
| `Shutdown.ScrubWaits` | guest/src/shutdown.rs:325-341 | In every run in which the scrub was done everything had been killed, and between that and the scrub everyone was gone or the settling time had passed |
| `Shutdown.WatcherListens` | guest/src/shutdown.rs:151-199 | In every run the watcher waits in epoll only if every device, and all before it, was registered, and polls exactly because something was not |
| `Shutdown.HandlerBeforeApp` | guest/src/main.rs:590-644 | In every run the handler is installed before the app exists, the app before the watcher, and the watcher before PID 1 supervises |
| `Shutdown.SingleWipe` | guest/src/shutdown.rs:325-361 | At most one thread is past the interlock, and what has been done of the wipe is a prefix of arm, kill, settle, scrub; anything done was done with the deadline armed |
| `Shutdown.SecondOrUnarmedGoesOff` | guest/src/shutdown.rs:325-331 | A thread that comes second or cannot arm powers off in that step, having killed and scrubbed nothing itself |
| `Shutdown.WipeCompletesIff` | guest/src/shutdown.rs:325-402 | A run that ended did the whole wipe, in order, if and only if one thread came to the interlock, it armed its deadline and the deadline did not pass; a second entry, a failed arming and an expiry are each an if-and-only-if for the other three endings |
| `Shutdown.HowItEnds` | guest/src/shutdown.rs:325-402 | What each of the four ways of powering off says about the state: the whole log, the second thread at the interlock with the other inside, nothing started, or exactly on the deadline; and nothing happens after it |
| `Shutdown.BoundedWipe` | guest/src/shutdown.rs:344-361 | From arming on, whatever every thread does, no more than the deadline's ticks pass, a due deadline thread running before the clock goes on |
| `Shutdown.OffStaysInReach` | guest/src/shutdown.rs:344-361 | Whatever has happened since a deadline was armed, the clock and the deadline thread alone can still switch the machine off, all of it within the deadline's ticks |
| `Shutdown.SettlesAtOnce` | guest/src/shutdown.rs:440-457 | Once the app no longer runs the settling needs no time: reaping what is left brings the thread to its scrub without a tick of the clock |
| `Shutdown.HungWipeStillPowersOff` | guest/src/shutdown.rs:344-361 | The clock and the deadline thread alone power the machine off on time |
| `Shutdown.NoMisclassifiedExit` | guest/src/main.rs:520-560 | A declared compromise is an app that exited on its own, never one the watcher or the wipe killed; the no-children branch is never taken |
| `Shutdown.NoUnnoticedExit` | guest/src/main.rs:520-560 | The watchdog is never back in its wait with the app reaped and no shutdown under way |
| `Shutdown.SecondEntryCutsAWipeShort` | guest/src/shutdown.rs:40-44 | A run in which PID 1 comes second and cuts a graceful wipe short: completion of the wipe is not promised under that race |
| `Shutdown.OrderlyStop` | guest/src/shutdown.rs:287-342 | A run in which the app obeys SIGTERM, its exit is not taken for a compromise, and the whole wipe is done before power-off |
| `Scrub.FileSystem.WipeWritableState` | guest/src/shutdown.rs:371-391 | Over all roots, in both storage modes and with mount points in the way: without a failed open, read, write or unlink every file a walk could see is zeroed in place; unless an emptied directory stayed, every root of removable things is empty; and with or without, nothing outside changes |
| `Scrub.RootsByMode` | guest/src/shutdown.rs:371-391 | The four scratch directories are always walked, and /var, last, exactly without persistent storage |
| `Scrub.FileSystem.ScrubOpenDir` | guest/src/shutdown.rs:505-570 | The recursive walk on any graph of links, cycles and mount points included: stays fewer than 64 levels below its root, only zeroes files and removes entries whose target was released, and sweeps every directory it can see, a refused directory removal notwithstanding |
| `Scrub.FileSystem.ScrubEntry` | guest/src/shutdown.rs:518-568 | Each kind of entry, known or probed for, is handled as the walk owes it |
| `Scrub.FileSystem.ScrubSubdirectory` | guest/src/shutdown.rs:519-529 | Walks a directory entry and removes it if that emptied it and nothing is mounted there; what is owed to the files below does not depend on the removal |
| `Scrub.FileSystem.UnlinkAt` | guest/src/shutdown.rs:519-529 | A mount point is refused removal and that counts as no failure; a refused directory removal is recorded apart from a refused unlink |
| `Scrub.FileSystem.ScrubFile` | guest/src/shutdown.rs:530-540 | Zeroes then unlinks a file; unlinked unzeroed only after a failed call |
| `Scrub.FileSystem.OverwriteFile` | guest/src/shutdown.rs:470-479 | Zeros for exactly the file's length in place; anything but a regular file is refused |
| `Scrub.AllHandled` | guest/src/shutdown.rs:513-570 | Every entry handled means every reachable directory swept, and a removable directory emptied |
| `DirGraph.SweptFilesWiped` | guest/src/shutdown.rs:505-570 | Where a sweep went without failures, every file it could see holds only zeros, as many as it had bytes, however often it is linked |
| `DirGraph.WalksOrEmpty` | guest/src/shutdown.rs:505-570 | A directory cut off in the course of the walk was emptied first, so nothing is missed in graphs that share directories |
| `DirGraph.WithinTwice` | guest/src/shutdown.rs:489-511 | Confinement to the walked part composes over the whole walk |
| `ZeroWriter.WriteZeros` | guest/src/main.rs:41-57 | Terminates for every length and buffer; on success exactly that many zeros at the handle's offset, on failure a beginning of them; an empty buffer is refused |
| `Storage.OursIsEighteenBytes` | guest/src/storage.rs:74-83 | The marker is the two magic bytes and the sixteen label bytes, padding included, and nothing else |
| `Storage.ZeroedIsForeign` | guest/src/storage.rs:74-83 | A zeroed device carries no marker |
| `Storage.Device.WipeAndFormat` | guest/src/storage.rs:92-127 | mke2fs only ever runs on a device that is zero throughout |
| `Storage.Device.MountPersistentVar` | guest/src/storage.rs:133-159 | The device is written only after a successful read found no marker, never after a read error; what goes live carries the marker; only a failed call stops it |
| `Storage.BootAgainAndAgain` | guest/src/storage.rs:133-159 | From any device, with each live guest rewriting anything but the eighteen marker bytes and any call failing at any boot: once the device is ours no later boot writes to it or formats it, each finds exactly what the last guest left, and until then mke2fs only ran on zeros |
| `KernelConfig.Resolver.ParseFragment` | assets/kernel/build_kernel.sh:166-194 | Reads one fragment's settings in order into the map and the order list, or stops at its first bad line; LineSays pins what a line is read as |
| `KernelConfig.Resolve` | assets/kernel/build_kernel.sh:163-198 | All fragments: fails exactly when the concatenation of their lines does, else the last-write-wins map and first-seen order of the whole stream |
| `KernelConfig.Configure` | assets/kernel/build_kernel.sh:163-198 | From text to file: succeeds exactly if every line is a setting, blank or a comment; then for each of the four directives, if the last line about a key asks for it, the file's one line about the key is the literal line for it |
| `KernelConfig.LineSays` | assets/kernel/build_kernel.sh:169-188 | A line is read as a setting if and only if it is, between blanks, the key, an equals sign and the directive as it is spelled |
| `KernelConfig.LineSilent` | assets/kernel/build_kernel.sh:169-172 | A line is passed over if and only if it is blank or a comment |
| `KernelConfig.KeysSpelled` | assets/kernel/build_kernel.sh:178-180 | A key is the prefix and at least one capital, digit or underscore |
| `KernelConfig.LastLineWins` | assets/kernel/build_kernel.sh:189-193 | The resolved map holds, for each key, what the last line about it says |
| `KernelConfig.OrderIsDomain` | assets/kernel/build_kernel.sh:189-192 | The order list is duplicate-free and names exactly the keys of the map |
| `KernelConfig.ResolvedIsStreamed` | assets/kernel/build_kernel.sh:350-358 | Applying each key once gives, line for line, the file that streaming every directive of every fragment gives |
| `KernelConfig.ApplyDirectives` | assets/kernel/build_kernel.sh:350-358 | The loop applies the resolved directives in order |
| `KernelConfig.VerifyConfig` | assets/kernel/build_kernel.sh:228-279 | Succeeds if and only if every key is known and its directive holds in the file, whatever produced the file |
| `KernelConfig.PrintedIs` | assets/kernel/build_kernel.sh:234-257 | Comparing the joined output of grep with one line tells exactly whether that is the only line about the key |
| `KernelConfig.AboutOne` | assets/kernel/build_kernel.sh:234-234 | No line is about two keys, although one key may be a prefix of another |
| `KernelConfig.ApplyAllHolds` | assets/kernel/build_kernel.sh:350-363 | On a file that sets no key twice, applying the resolved directives makes each of them hold |
| `KernelConfig.FirewallFragmentWins` | assets/kernel/build_kernel.sh:104-157 | With the firewall on, its fragment overrides every category fragment; only its IPv6 companion and the user's file can override it |
| `KernelConfig.ExtraFragmentWins` | assets/kernel/build_kernel.sh:150-155 | What the user's own fragment says is what gets built |
| `KernelConfig.FragmentsChosen` | assets/kernel/build_kernel.sh:106-155 | Which fragments go into a build, each by its own switch |
| `KernelCache.KernelBuilder.Run` | assets/kernel/build_kernel.sh:281-378 | On any cache at all: a hit hands out what an intact entry holds, a product of that request exactly if the entry's checksums were written for one, and happens whenever there is such an entry; config-only runs touch nothing; entries are only ever old, remnants or complete; a finished build is cached if and only if the directory was not in the way |
| `KernelCache.ServableIsProduct` | assets/kernel/build_kernel.sh:281-291 | An entry that matches its checksums holds one product of that very request if and only if the checksums were written for one |
| `KernelCache.KernelBuilder.CheckEntry` | assets/kernel/build_kernel.sh:284-286 | Decides exactly whether an entry is complete, matches its checksums and satisfies the directives |
| `KernelCache.KernelBuilder.Build` | assets/kernel/build_kernel.sh:296-378 | Publishes at most one complete entry, where none was, and only for a configuration in which every directive holds |
| `KernelCache.KernelBuilder.Publish` | assets/kernel/build_kernel.sh:373-378 | A crash at any file leaves the cache as it was; renaming onto an existing directory publishes nothing |
| `KernelCache.Sessions` | assets/kernel/build_kernel.sh:281-378 | Over any runs, crashes and replacements of the whole cache in between, one record a run: every hit handed out an entry that was intact, and as long as no checksum file was planted, what it handed out was compiled for that request with all its directives holding |
| `KernelCache.StuckEntry` | assets/kernel/build_kernel.sh:281-294 | An entry directory without an image is never repaired nor served, however many builds complete: hits are not guaranteed |
| `KernelCache.CrashSticks` | assets/kernel/build_kernel.sh:287-294 | A crash while a rejected entry is being removed makes such a directory, and the request is never served again |
| `GuestEnv.KvRoundTrip` | src/schema.rs:1202-1220 | The guest reads back the pairs the host wrote, in order and without the fatal branch, if and only if validation lets them through |
| `GuestEnv.ListRoundTrip` | src/schema.rs:1224-1247 | The same for lists, minus their empty entries |
| `GuestEnv.ParsedPairsAreValid` | guest/src/main.rs:110-121 | Whatever the string, the pairs the guest reads are ones the host would accept |
| `GuestEnv.ValidateKvEncoding` | src/schema.rs:1202-1220 | Accepts exactly the tables whose keys and values hold no separator, else names an offending key |
| `GuestEnv.ValidateListEncoding` | src/schema.rs:1224-1247 | Accepts exactly the lists whose entries hold no separator, else names one that does |
| `GuestEnv.AppEnvExports` | src/pipeline/docker/guest_init_script.rs:95-197 | Appends all twenty exports, each under its condition, with its encoding and in its place |
| `GuestEnv.EachVariable` | src/pipeline/docker/guest_init_script.rs:95-197 | As long as no exported string holds a line break, each variable is compiled in as its own value, less NULs and trailing whitespace, whatever the others hold |
| `BuildScript.OneLineReads` | guest/build.rs:10-14 | A value of one line is read back trimmed at its end, and reading goes on after it |
| `BuildScript.SecondLineReads` | guest/build.rs:10-14 | A second line of a value that has the form of a directive is one: its assignment is made too |
| `BuildScript.BakesEach` | guest/build.rs:16-71 | Over the whole output in its order: if no value has a line break, each variable is compiled in as the build script saw it, trimmed at its end |
| `BuildScript.SecondLineWins` | guest/build.rs:61-70 | If the resolver list has such a second line it decides what any variable but the search domain is compiled in as |
| `BuildScript.NothingBreaksLines` | guest/build.rs:10-14 | Whatever was printed, nothing with a line break is ever compiled in |
| `BuildScript.NamesDiffer` | guest/build.rs:19-70 | The twenty-two variables have different names |
| `GuestEnv.ConfigReachesGuest` | src/pipeline/docker/guest_init_script.rs:95-214 | Every accepted configuration reaches the guest's parsers, pairs, lists, numbers, texts and rules alike, if and only if no exported string holds a NUL or a line break or ends in whitespace |
| `GuestEnv.RulesReach` | src/pipeline/docker/guest_init_script.rs:169-185 | For the firewall's own variable it is enough that no exported string holds a line break |
| `GuestEnv.ResolverDecidesRules` | src/schema.rs:1224-1247 | For every configuration whose one resolver has a second line assigning the firewall's variable, the guest is compiled with that text for its rules |
| `GuestEnv.AcceptedButChanged` | src/schema.rs:1224-1247 | A concrete configuration that validation accepts and that does not arrive: it exports an empty rule list and the guest is compiled with a rule |
| `GuestEnv.AcceptedAndArrives` | src/schema.rs:1224-1247 | The same configuration without its resolver is accepted and arrives whole |
| `ShellScript.QuotingIsExact` | src/pipeline/docker/helpers.rs:78-80 | A quoted string is read as one word with that value, and the shell goes on exactly where the quoting ended, whatever the string and whatever follows |
| `ShellScript.QuoteRoundTrip` | src/pipeline/docker/helpers.rs:78-80 | Word evaluation undoes quoting if and only if the string holds no NUL |
| `ShellScript.ScriptSets` | src/pipeline/docker/helpers.rs:161-164 | Running the exports sets each variable to its value, less NULs, and leaves the commands after them alone, whatever the values are |
| `ShellScript.ScriptWriter.WriteExport` | src/pipeline/docker/helpers.rs:161-164 | Appends one export to the script text |
| `Landlock.Build` | guest/src/landlock.rs:285-362 | The whole ruleset if and only if the ABI suffices, every path can be passed on, every required one opens and no call fails; the kernel is never asked for anything it refuses on its merits |
| `Landlock.AddRule` | guest/src/landlock.rs:368-427 | One rule: skipped, fatal, or granted with the rights its kind of object can have |
| `Landlock.AttrIsSeenWhole` | guest/src/landlock.rs:68-316 | From ABI 5 on the kernel sees every attribute field as written, governs exactly the filesystem rights it has, scopes all it can scope and leaves the network alone |
| `Landlock.MaskedAccepted` | guest/src/landlock.rs:397-404 | Every mask, cut down for a file, is non-empty, handled and file-only |
| `Landlock.RightsAreGiven` | guest/src/landlock.rs:163-169 | A right is there on a path exactly if some rule on it or above it has it |
| `Landlock.AllRulesOk` | guest/src/landlock.rs:190-233 | Rule by rule: who may hold execute and device ioctl, nobody device-node creation |
| `Landlock.ExecuteOnlyInPayload` | guest/src/landlock.rs:190-233 | In the default build a path can be executed if and only if it is in the payload, whatever the extra paths; otherwise at most the scratch directories join it |
| `Landlock.AccessIsAsListed` | guest/src/landlock.rs:105-350 | A path can be written exactly beneath the scratch directories, the written-to devices and the configured read-write paths, and read exactly beneath those, the payload, the readable paths and the configured read paths |
| `Landlock.ExtrasGive` | guest/src/landlock.rs:340-350 | A configured read-write directory gives all twelve rights an app needs on files of its own, a read directory reading and listing |
| `Landlock.RequiredPaths` | guest/src/landlock.rs:190-233 | The paths a missing one of which stops the boot are exactly the payload, the scratch directories, /proc and the configured ones |
| `Landlock.MaskedExactly` | guest/src/landlock.rs:397-404 | On a file a mask loses exactly the rights only a directory can have |
| `Landlock.DevicesOnlyWhereListed` | guest/src/landlock.rs:133-151 | Device ioctls reach at most the pty devices and on sev-snp the attestation device; device nodes can be made nowhere |
| `Landlock.WriteOrExecute` | guest/src/landlock.rs:105-128 | No path is both writable and executable unless a writable rule lies on a line with the payload |
| `Seccomp.ArchGateKills` | guest/src/seccomp.rs:130-171 | Run by a classic-BPF interpreter, the six instructions kill exactly the calls of another ABI, for every architecture and number |
| `Seccomp.VerdictIsLeast` | guest/src/seccomp.rs:325-338 | The stack's verdict is the most restrictive result |
| `Seccomp.StackKills` | guest/src/seccomp.rs:325-338 | In any position and with any further filters, a call of another ABI or on the denylist kills the process |
| `Seccomp.DeniedByNumber` | guest/src/seccomp.rs:222-291 | The denied calls by number: the same forty-eight in both builds, and the two memfd calls exactly in the build without write-execute |
| `Seccomp.TwoFiltersExactly` | guest/src/seccomp.rs:335-338 | With just the two, in either order, everything else is allowed |
| `Seccomp.ExecIsAllowed` | guest/src/seccomp.rs:227-291 | The exec that starts the app passes |
| `Seccomp.DenylistAloneIsBypassed` | guest/src/seccomp.rs:102-119 | Without the gate every denied call gets through with the x32 bit set |
| `DistDir.HostDistDir` | src/pipeline/mod.rs:24-54 | Creates directories only directly under canonical paths inside the project; returns where the components lead, canonical and inside; accepted settings are never turned down for their components; unobstructed, gives the plain path |
| `DistDir.AcceptedText` | src/schema.rs:1488-1500 | A setting is accepted if and only if it is not blank, does not begin at the root and no piece between slashes is two dots |
| `DistDir.NamesText` | src/pipeline/mod.rs:32-37 | The names of an accepted setting are its pieces, empty ones and dots aside |
| `DistDir.CanonicalizeIdempotent` | src/pipeline/mod.rs:44-46 | Resolution ends at a path without symlinks that resolves to itself |
| `DistDir.StepsFrom` | src/pipeline/mod.rs:44-46 | From a canonical directory resolution goes up to its parent, into what it holds, or through a symlink to where the target leads from there |
| `DistDir.WalkKeeps` | src/pipeline/mod.rs:36-43 | New directories do not change what resolved before |
| `GuestInit.Guest.Boot` | guest/src/main.rs:562-644 | PID 1 supervises an app confined as its image says, with its environment, behind the compiled and acknowledged filter, in place before any interface was up, on a filesystem locked down before the app existed, if and only if every constant parses, the kernel took the filter and can hold the ruleset, no step is refused and no call of the start fails; else it has wiped and no app runs |
| `GuestInit.Guest.ComeUp` | guest/src/main.rs:575-634 | Everything before the app, fatal steps in their order: succeeds exactly if each of them does, and no interface is up without the filter |
| `GuestInit.Guest.InstallFirewall` | guest/src/firewall.rs:772-788 | Succeeds exactly if the rules parse, the batch is sent and every message that asks is acknowledged; then what is in place is the compiled batch |
| `GuestInit.BuildRuleset` | guest/src/landlock.rs:285-362 | In an image with Landlock, gives exactly the grants of its table and extra paths, or stops |
| `GuestInit.EnvironHolds` | guest/src/main.rs:458-460 | The app's environment has exactly the keys of the pairs, each with the value of its last pair |
| `GuestInit.Spawn` | guest/src/main.rs:466-485 | The child executes the app exactly if no call failed, and then only confined and with the given environment |
| `GuestInit.SpawnApp` | guest/src/main.rs:434-488 | The app runs if and only if its ids, limits and environment parse, the ruleset can be built and no call fails; then it is confined as configured, has exactly the variables of its pairs, and no capability whatever its file grants |
| `Boot.PreExec` | guest/src/main.rs:473-484 | Every step still holds the privilege it needs and is struck by no filter already in place; the app is confined unless a call fails for its own reason |
| `Boot.DropPrivileges` | guest/src/main.rs:268-295 | The bounding set loses every capability the kernel has, then groups, group and user go |
| `Boot.ApplyResourceLimits` | guest/src/main.rs:382-394 | All limits are set, soft and hard, with the right to raise them still held |
| `Boot.RestrictSelf` | guest/src/landlock.rs:441-452 | No-new-privileges is in place before the ruleset is enforced |
| `Boot.InstallSeccompBaseline` | guest/src/seccomp.rs:335-338 | Gate then denylist; the gate lets the second installation through |
| `Boot.DroppingUserFirst` | guest/src/main.rs:258-267 | With the user dropped first, the bounding set, the group and a higher limit are refused |

## Left out

- Shutdown.BoundedWipe: time is a counter that cannot pass a due deadline, so a deadline thread that is itself starved by the scheduler is not modelled.
- Shutdown.SignalLeadsToTrigger: says a step is always possible and always progress; that the scheduler takes it is not modelled.
- Landlock.Build: masks are sets of rights instead of 64-bit words, and the layout of the structures passed to the kernel is reduced to which fields a size covers.
- Seccomp.StackKills: the denylist's BPF is compiled by a library and enters as its contract on x86_64, kill if and only if listed.
- KernelCache.KernelBuilder.Run: SHA-256 is injective, damage happens between runs and not between a check and the copy it allows, and compiling gives an arbitrary image.
- KernelConfig.ApplyDirectives: `scripts/config` is not part of this repository; it enters as replacing every line about a key in place or appending one.
- KernelConfig.VerifyConfig: `make olddefconfig` is an arbitrary change of the file, and the text of the diagnostics is not kept.
- BuildScript.ReadLine: of Cargo's directives only the assignment to the compiler's environment is read; any other a second line may form is ignored, where Cargo may act on it or refuse the build.
- Scrub.FileSystem.ReadDir: a listing is a snapshot taken when the directory is read, and nobody else writes during the wipe.
- Storage.Device.MountPersistentVar: mke2fs enters as leaving the marker when it succeeds and anything at all when it fails.
- GuestInit.Guest.Boot: steps whose failure is only a warning (sysctl writes, `/etc`, the attestation device, static addresses, network settling) are not there, and the mounts are two steps that may be refused.
- EndToEnd.ConfigToApp: the features the firewall and Landlock depend on are tied to the configuration; the others are any.
- DistDir.HostDistDir: nobody else changes the filesystem during the walk, and at most forty symlinks are followed for one resolution.
- The kernel's conntrack and header parsing: a packet carries its conntrack word and its transport header.
- Raw sockets, epoll and evdev: a receive is an arbitrary datagram or an error, and the power button is an event that may happen.
- Docker, git and release plumbing, command-line parsing, workflow files, logging and console text: process plumbing.
- The remaining configuration checks and feature selection: each is settled by one branch.
