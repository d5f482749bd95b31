# A file server and its client: verified model

The repository is a small file server with a worker pool and a command-line client. They
speak a framed protocol of their own and support resumable upload and download inside a
virtual directory per connection. This project models that logic in Dafny and proves what
it is for: that resumed transfers end in equal files, that framing survives short reads and
cuts, that the worker pool loses no connection, closes each once and shuts down, and that
path normalisation is right down to the last byte of its buffers.

Where the source changes buffers, files, queues or fields in place, the model does too:
classes and arrays, loops with invariants, methods whose contracts tie the new state to a
function of the old one. The rest is functions and lemmas.

## How it is put together

- `Seqs`, `Endian`, `Framing`, `Files`: facts about sequences, byte order on the wire, the
  frame format byte by byte, file contents.
- `Link`: the socket loops over system calls that move fewer bytes than asked, are
  interrupted, or fail. A `Socket` holds every byte that will still be delivered and how
  many more it will take; how a call splits them is left open. A `Heap` records which
  payload blocks are allocated.
- `Transfer`, `Progress`: both halves of the upload and download protocol as functions on
  messages, composed over two channels, with cuts, lost connections, a client that stops in
  the middle of a write, and reconnections as steps. One inductive invariant; then progress
  and absence of deadlock.
- `Messages`, `Wire`: the same system on bytes, where a cut may fall inside a packet; a
  refinement lifts the invariant and what follows from it, and the results on progress and
  completion, to the byte-level system.
- `Upload`, `Download`, `Client`: the imperative handlers of both programs. Files live in
  arrays, the mapping is the file's own array, `Kernel` records open files and mappings.
  Each handler's contract says exactly how much of the stream it reads. `Agreement` shows
  that handlers and protocol halves do the same.
- `Conversation`: a list of client commands and a server session on one whole connection,
  with what each command achieves told by the client's own argument, the store and the faults.
- `ConnQueue`, `ThreadPool`, `PoolMachine`: the linked queue, the pool's loops over its
  slots, and every interleaving of the accepting thread with the workers, each locked
  region one step, wake-ups possibly spurious, `accept` free to reuse a closed descriptor.
- `Paths`, `PathBuffers`: stacks of path components, and the in-place text algorithm on
  4096-byte buffers that refines them.
- `FileSystem`: the server's store of files and directories. Which system calls fail for
  reasons of their own (permissions, disk errors) is an input, free for every request; so
  each outcome is determined by the store, the request and those faults.
- `Session`, `Handlers`, `Traces`: the current path over a session, dispatch and the
  request loop, and what whole sessions come to: the packets they serve, the bytes they
  send, the files and directories they can touch.

## What turned out not to hold

- The eight bytes `host_to_net_u64` produces are in network order only on a little-endian
  machine. Between machines of different byte order a value survives exactly when its two
  halves are equal (`Endian.CrossHostRoundTrip`); between equal ones always.
- If `mmap` fails after the upload target was extended, the file is left extended with
  zeros. It is then still a prefix of the client's file exactly when the missing bytes are
  all zero, and the next attempt, in which the client has nothing left to send, is
  acknowledged either way (`Upload.MapFailure`, `Upload.MapFailureFollowed`). One byte that
  is not zero is enough (`Upload.MapFailureExample`).
- `extract_file_info` lets `snprintf` scan the file name without a bound. The scan stays
  inside the name's field exactly when there is a NUL in the field, and inside the payload
  exactly when there is one in the payload; 4104 bytes of value 65 make it run past the end
  (`Session.NameIsScanned`, `Session.ScanOverruns`). The name taken is the right one all
  the same.
- The client's upload returns 0 for ACK and for ERROR alike (`Client.FinalReplyIsTaken`);
  completion is tied to the ACK packet.
- Changing to `a/b` is not always changing to `a`, then `b`. As far as normalisation goes,
  the two agree whenever the merged text of the joined argument has fewer than 4096
  characters; a longer one is refused, whatever the two steps give
  (`Paths.ChangeDirComposes`; `Paths.JoinedMayNotFit` has an input). `cd` also builds the
  real path: a joined argument that works then works in two steps if and only if the path
  in the middle has at most 4087 characters, and, given the directories that exist, is one
  of them; two steps that work also work joined if and only if the merged text fits
  (`Session.ChangeDirFits`, `Session.ChangeDirLands`). From the root, 4090 characters and
  then `..` work joined and fail at the first step (`Session.StepMayNotFit`).
- A canonical path of 4096 characters or more is not a fixed point of normalisation, and a
  merged text of exactly 4095 characters is refused exactly when it is already in normal
  form (`Paths.CanonicalFixedPoint`, `Paths.OverflowExactly`).

Comments in the source call the real root directory `./upload`; the code says `../tests`,
and the model follows the code.

## Assumptions

Both files of a transfer change only through the transfer itself. Real file sizes are below
2^63. The final `ftruncate` of an interrupted upload succeeds. In the protocol system
(`Transfer`, `Progress`, `Wire`) the `ftruncate` and `mmap` that prepare an accepted upload
succeed too, as does the reset of an over-long file; the handlers in `Upload` and
`Handlers` model their failure. Memory allocation succeeds.
A locked region is one atomic step. The peers of one connection have the same byte order,
except where the byte order is the subject.

## Model

| member | source | states |
|---|---|---|
| Endian.SameHostRoundTrip | src/common/protocol.c:200-218 | on either byte order, converting a 64-bit value for the network and back gives the value |
| Endian.WireRoundTrip | src/common/protocol.c:200-218 | the same through the eight bytes in memory, as the resume and file-info payloads carry them |
| Endian.NetworkOrder32 | src/common/protocol.c:326-331 | by arithmetic: a word on the wire is its four digits to base 256, most significant first |
| Endian.NetworkRead32 | src/common/protocol.c:393-397 | four bytes are read as a word if and only if they are that word in network order |
| Endian.MemoryOrder32 | src/common/protocol.c:200-218 | by arithmetic: the four bytes in memory, least significant first on a little-endian machine and last on a big-endian one |
| Endian.WordOnWire | src/common/protocol.c:326-331 | a word converted by htonl lies in memory in network order on either machine |
| Endian.WireLayout | src/common/protocol.c:200-211 | the eight bytes each byte order emits: the value in network order on a little-endian machine, its two halves exchanged on a big-endian one |
| Endian.WireBytes | src/common/protocol.c:200-211 | by arithmetic: the eight bytes a little-endian machine emits are the digits of the value to base 256, most significant first |
| Endian.CrossHostRoundTrip | src/common/protocol.c:200-218 | a value sent between two machines survives if and only if they have one byte order or its two halves are equal |
| Endian.CrossHostExample | src/common/protocol.c:200-218 | the value 1 sent from a little-endian to a big-endian machine arrives as 2^32 |
| Framing.DecodeEncodeHeader | src/common/protocol.c:321-331 | unpacking a packed header gives its five words |
| Framing.PacketBytes | src/common/protocol.c:326-358 | byte by byte what goes out: "TLV1", version 1, command, status, payload length, each in network order, then the payload |
| Framing.WireCodes | include/protocol.h:88-121 | the number that stands for each command and each status |
| Framing.GivenUp | src/common/protocol.c:385-415 | a stream is given up if and only if a whole header is there and is not "TLV1", not version 1, or announces more than 64 KiB |
| Framing.GivenUpForGood | src/common/protocol.c:399-415 | giving up loses nothing: no continuation of such a stream begins with a packet |
| Framing.WaitingIsRight | src/common/protocol.c:385-442 | waiting after a whole header is never in vain: some continuation completes the packet |
| Framing.ParseExact | src/common/protocol.c:370-442 | a packet is received if and only if the stream starts with that packet's encoding; the rest of the stream is untouched |
| Framing.RoundTrip | src/common/protocol.c:320-442 | receiving a sent packet sequence yields exactly that sequence with nothing left over |
| Framing.ParseAllExact | src/common/protocol.c:370-442 | any byte stream is the encoding of the packets received from it followed by what was not consumed: nothing is invented |
| Framing.WholePacketsExact | src/common/protocol.c:320-358 | how many packets lie wholly before a byte of their encoding, and no more |
| Framing.CutSafety | src/common/protocol.c:283-310 | a stream cut after any byte yields exactly the packets that fit before the cut and then an end-of-stream error, never an altered packet or a bad header |
| Framing.CutKeepsPrefix | src/common/protocol.c:283-310 | of a stream already partly read and possibly already cut, a further cut keeps exactly the packets in flight that end before it |
| Link.SendN | src/common/protocol.c:232-270 | whatever the counts and interruptions of write, exactly the data goes out, or exactly as much as the connection takes, and the result says which |
| Link.RecvN | src/common/protocol.c:283-310 | exactly the next len bytes are read, or the stream ends and an error is returned |
| Link.SendPacket | src/common/protocol.c:320-358 | emits the packet's encoding, or nothing if it is too long, or the part the connection takes |
| Link.SendFileRange | src/server/handle.c:377-392 | the sendfile loop emits exactly the part of the range that is readable and that the connection takes, whatever the partial counts, and says whether that is all of it |
| Link.SendFileData | src/server/handle.c:353-395 | the hand-built header and the sendfile loop emit the bytes that sending a FILE_DATA packet would emit, or the header and what can be read |
| Link.RecvPacket | src/common/protocol.c:370-442 | receives the first packet of the stream if there is one, leaves exactly the stream behind it, and leaves a payload block allocated exactly when there is a payload |
| Link.FreePacket | src/common/protocol.c:451-459 | frees the payload block once and clears the packet |
| Transfer.StepKeepsInv | src/server/handle.c:568-850 | every step of the composed protocol, with cuts and reconnections, keeps the invariant relating both programs, both channels and the files |
| Transfer.InitHolds | src/server/worker.c:57-71 | a fresh connection, with files that are prefixes of or longer than what they copy, satisfies the invariant |
| Transfer.BlockReceivedKeeps | src/client/client_command_handle.c:433-480 | receiving a block or FILE_END keeps the local file a prefix of the server's, and equal at FILE_END |
| Transfer.StoreKeeps | src/server/handle.c:673-737 | a packet taken by the upload loop keeps the stored part a prefix of the client's file |
| Transfer.EndAnswer | src/server/handle.c:684-748 | while the server half is storing, whatever state the rest is in, FILE_END cuts the file to what arrived and is answered by ACK if and only if that is the announced size |
| Transfer.CutKeeps | src/common/protocol.c:283-310 | losing any suffix of both channels keeps the invariant |
| Progress.StepGrows | src/server/handle.c:568-748 | no step, cut or reconnection shrinks an upload or a download that is not over-long |
| Progress.AckMeansEqual | src/server/handle.c:684-748 | the server answers ACK exactly on the FILE_END of an upload whose stored file equals the client's |
| Progress.NoMistypedPacket | src/client/client_command_handle.c:94-484 | whatever either side reads next is of a type its receive point accepts, also on a cut connection |
| Progress.ReaderIsWaiting | src/client/client_command_handle.c:128-484 | a channel that holds anything has its reader waiting on it, and the other channel is empty |
| Progress.NoDeadlock | src/server/handle.c:568-952 | on a whole connection nothing can move if and only if both sides are idle with empty channels; otherwise a named step is enabled |
| Progress.EveryCommandCompletes | src/client/client_command_handle.c:493-546 | every schedule is bounded, and a schedule that can go no further has returned both sides to idle |
| Progress.TransferSucceeds | src/client/client_command_handle.c:168-484 | however its steps are scheduled, an accepted uninterrupted transfer ends with equal files and a client that was told so |
| Messages.MessageRoundTrip | src/server/handle.c:277-340 | offsets, sizes, names and blocks are read back from a packet exactly as they were put in |
| Messages.MessagesRoundTrip | src/server/handle.c:277-340 | the same for whole sequences |
| Wire.StepRefines | src/common/protocol.c:232-442 | each step of the byte-level system, including a cut inside a packet, is a step of the message-level system, and keeps the invariant |
| Wire.NetNoDeadlock | src/server/handle.c:568-952 | the byte-level system is idle or can move on a whole connection |
| Wire.NetCommandCompletes | src/client/client_command_handle.c:493-546 | on bytes too, every schedule is bounded and can stop only where both sides are idle with empty channels |
| Wire.NetTransferSucceeds | src/client/client_command_handle.c:168-484 | on bytes too, an accepted uninterrupted transfer ends with equal files and a client that was told so |
| Wire.NetAckMeansEqual | src/server/handle.c:684-748 | over any run the server puts an ACK for an upload on the stream only when the stored file equals the client's |
| Wire.RunKeeps | src/server/handle.c:568-850 | the invariant holds in every state of every run of the byte-level system |
| Wire.UploadOverRun | src/server/handle.c:568-748 | over any number of interrupted attempts the server's file stays a prefix of the client's, never shrinks, and equals it once an ACK was seen |
| Wire.DownloadOverRun | src/client/client_command_handle.c:336-484 | over any number of interrupted attempts the client's file stays a prefix of the server's even after a partial write, and on FILE_END sizes and contents are equal |
| Upload.TakePacket | src/server/handle.c:673-720 | one pass of the upload loop: the 64-bit bound check rejects exactly the blocks that do not fit, the copy stays inside the mapping, the packet is freed on every path |
| Upload.ReceiveBlocks | src/server/handle.c:673-720 | for every peer stream the mapping holds the old bytes below the resume offset and then the accepted payloads, and the stream is left just behind the packet that stops the loop |
| Upload.BlocksLeft | src/server/handle.c:673-706 | an upload ended by FILE_END leaves exactly the packets it has not read |
| Upload.StoreBlocks | src/server/handle.c:655-737 | after unmapping and truncating, the file is the old content up to the resume offset followed by the accepted payloads, success means all announced bytes and FILE_END came, and the stream is left as by the loop |
| Upload.AcceptedExactly | src/server/handle.c:673-720 | for any stream: if packet n is the first that is not a block fitting the announced size, exactly the payloads before it are stored, it is the last packet read, and the loop ends well if and only if it is FILE_END |
| Upload.ReachesLoop | src/server/handle.c:609-667 | the receive loop is reached if and only if the system calls before it succeed and the offer goes out |
| Upload.LastWord | src/server/handle.c:734-748 | for any stream, the last reply is ACK if and only if FILE_END stopped the loop and the file left has exactly the announced size; otherwise it is an I/O error; the connection closes unless FILE_END came |
| Upload.EarlyEnd | src/server/handle.c:685-748 | a concrete stream: FILE_END after one byte of two leaves that byte and is answered by an error |
| Upload.HandlePuts | src/server/handle.c:606-748 | the file left on disk, every byte replied, the stream left and the room left, for each outcome of the system calls and each peer stream; descriptor, mapping and payload blocks are given back |
| Upload.LoopIsServer | src/server/handle.c:673-737 | the upload loop stores the same file as the server half of the protocol system |
| Upload.MapFailure | src/server/handle.c:646-667 | after a failed mmap the file is still a prefix if and only if the missing bytes are all zero, and what a further attempt keeps |
| Upload.MapFailureFollowed | src/server/handle.c:602-748 | an attempt in which mmap fails and the next one, followed through the handler: an error, then an ACK, and a file equal to the client's if and only if the missing bytes are all zero |
| Upload.MapFailureExample | src/server/handle.c:646-667 | a concrete file of one byte for which an ACK is sent although the files differ |
| Download.BlockCount | src/server/handle.c:828-843 | the download loop sends the ceiling of (total - resume) / 4096 packets |
| Download.BlocksCarry | src/server/handle.c:828-849 | those packets carry exactly the file from the resume offset to its end |
| Download.CarriedPayloads | src/server/handle.c:828-849 | however a file is cut into blocks, the payloads concatenate to exactly the missing bytes |
| Download.CarriedFeeds | src/client/client_command_handle.c:254-311 | such a stream is what the protocol invariant requires to be in flight |
| Download.CarriedCompletes | src/server/handle.c:673-737 | the upload loop accepts all of such a stream and reports completion |
| Download.StreamFile | src/server/handle.c:823-849 | the bytes sent are the encodings of those packets and FILE_END, or as much as the connection takes, and the connection is closed when a block failed |
| Download.SendFile | src/client/client_command_handle.c:254-311 | the client's upload loop sends blocks that carry the rest of its file, however read cuts it, and FILE_END |
| Download.AwaitResumePoint | src/server/handle.c:799-822 | only a RESUME_POS packet of the right size is accepted, a position beyond the file restarts from 0, and exactly the answer is read |
| Download.PositionRead | src/server/handle.c:799-822 | the position the client sent arrives as that number, or as 0 if it lies beyond the file |
| Download.HandleGets | src/server/handle.c:779-849 | every byte of the download, for every answer of the peer; exactly the answer is read, if the size went out; descriptor and payload blocks are given back |
| Download.HandleGetsDirectory | src/server/handle.c:775-849 | a directory is announced with its size but none of it can be sent: a block header at most, then the connection closes, unless the client claims to have everything |
| Download.WriteN | src/client/client_command_handle.c:24-46 | writes all of the data at the file position, or exactly as much as the disk takes |
| Download.ReceiveFile | src/client/client_command_handle.c:433-480 | the file gains exactly the data that arrived, or the part the disk took; success means FILE_END came and everything was written; the stream is left just behind the packet that stops the loop |
| Download.TakenExactly | src/client/client_command_handle.c:433-480 | for any stream: exactly the payloads before the first packet that is not FILE_DATA are taken, that packet is the last one read, and the loop ends well if and only if it is FILE_END |
| Download.DataLeft | src/client/client_command_handle.c:433-480 | a download that succeeds leaves exactly the packets it has not read |
| Download.ReceiveDownload | src/client/client_command_handle.c:388-484 | the same for the whole attempt, with the reset of an over-long file and the announced position |
| Download.DownloadCompletes | src/server/handle.c:823-849 | the server's stream, received whole onto a prefix, gives exactly the server's file |
| Download.UploadAhead | src/server/handle.c:673-737 | whatever follows a carried file in the stream, the upload loop takes exactly the missing bytes and stops exactly behind FILE_END |
| Download.DownloadAhead | src/client/client_command_handle.c:433-480 | the same for the client's download loop |
| Client.RecvTextResponse | src/client/client_command_handle.c:94-117 | returns 0 exactly for an ACK or ERROR packet, frees it, and reads nothing beyond it |
| Client.HandleSimpleCommand | src/client/client_command_handle.c:128-152 | one request out, one answer in, when that succeeds, and what is left of the stream |
| Client.ArgumentSent | src/client/client_command_handle.c:128-149 | the request carries exactly the argument: the server reads that text, and there is no payload if and only if there is none |
| Client.HandlePuts | src/client/client_command_handle.c:168-321 | the bytes of an upload: the request and, after an offer, exactly the rest of the file from the offered position; when it returns 0; what is left of the stream |
| Client.BaseNameIsLast | src/client/client_command_handle.c:60-72 | the base name of a file named with or without its directory, or with a slash at the end, is its last component |
| Client.FileAnnounced | src/client/client_command_handle.c:200-209 | the server reads from an upload request exactly the base name of the path the client was given and the size of its file |
| Client.OfferRead | src/client/client_command_handle.c:245-256 | the position the server offers arrives as that number, or as 0 if it lies beyond the file |
| Client.FinalReplyIsTaken | src/client/client_command_handle.c:107-116 | the client returns 0 for either final reply; only the packet's type tells success |
| Client.HandleGets | src/client/client_command_handle.c:336-484 | the local file, the bytes sent and the stream left for every answer of the server and every amount of disk space |
| Client.NameAsked | src/client/client_command_handle.c:345-348 | the server reads from a download request exactly the name the client asked for |
| Client.CarriedPrefix | src/server/handle.c:673-737 | what either receive loop gains from the first n packets of a transfer is exactly the next bytes of the file |
| Client.CutUpload | src/server/handle.c:673-737 | of a file sent in blocks and cut after any byte the upload loop stores exactly the next bytes of the file, and all of them, with completion, if and only if nothing was cut |
| Client.UploadAttempt | src/server/handle.c:606-748 | an upload cut after any byte leaves a prefix of the client's file that contains what was kept, or an over-long file that could not be reset; it completes if and only if every byte arrived, and then the files are equal |
| Client.AttemptsHappen | src/server/handle.c:606-748 | for every byte at which the stream may be cut there is an attempt that ends there |
| Client.UploadTries | src/server/handle.c:568-748 | over any number of attempts the file stays a prefix and only ever grows, or is still the over-long file it was |
| Client.DownloadAttempt | src/client/client_command_handle.c:388-484 | a download cut after any byte, onto any amount of disk space, leaves a prefix of the server's file, or an over-long file that could not be reset; success is reported if and only if the position went out and all bytes arrived and fitted, and then the files are equal |
| Client.UploadInStep | src/client/client_command_handle.c:168-321 | on one whole connection each program reads of the other's stream exactly what belongs to the upload, whatever follows it, and the last word is ACK |
| Client.DownloadInStep | src/client/client_command_handle.c:336-484 | the same for a download |
| Conversation.ProcessCommand | src/client/client_command_handle.c:513-545 | the handler of each command, on a connection and disk with room enough, sends and leaves exactly what the conversation model says |
| Conversation.RequestFirst | src/client/client_command_handle.c:513-545 | every command begins by sending its request |
| Conversation.SimpleInStep | src/client/client_command_handle.c:128-152 | over a command without a transfer both programs read exactly what the other sent, and the command does what the client's own argument says: pwd tells the path, cd enters, rm removes, mkdir makes and ls lists if and only if the path resolves and the system call on it succeeds; otherwise an error and nothing changed |
| Conversation.PutsInStep | src/client/client_command_handle.c:168-321 | the same over an upload: if the base name of the client's own argument resolves and its target opens (and an over-long one is reset), the target's content is the kept part followed by the rest of the client's file, equal to it if it could resume, and ACK is reported; otherwise an error and nothing changed |
| Conversation.GetsInStep | src/client/client_command_handle.c:336-484 | the same over a download: if the client's own argument resolves to something that opens and can be stat'ed, a file's missing bytes are appended to the kept part of the local file, which then equals it if it could resume; otherwise an error, and neither side's files change |
| Conversation.SessionInStep | src/server/handle.c:910-952 | a list of client commands against one server session: if no turn loses a reply, closes or fails to map an upload, the server serves exactly the client's commands in order, neither stream has a byte left, and every command does what its own argument says |
| Conversation.PwdSession | src/server/handle.c:417-420 | the shortest such session |
| Agreement.RequestAgrees | src/server/handle.c:602-667 | the upload handler and the protocol's server half keep, extend and offer the same; if the offer does not go out both leave what was kept and hang up |
| Agreement.CommandAgrees | src/server/handle.c:859-904 | a command without a transfer is the protocol system's command, answered by one reply |
| Agreement.TextAgrees | src/client/client_command_handle.c:94-117 | the client's reaction to such a reply and to the last word on an upload |
| Agreement.GetsRequestAgrees | src/server/handle.c:761-797 | a download request: the file information sent is the server half's; if it does not go out both hang up |
| Agreement.UploadAgrees | src/server/handle.c:602-748 | from the request to the end of the receive loop they store the same file and agree on closing |
| Agreement.StoreAnswersAlike | src/server/handle.c:684-748 | for any stream the handler's last word, ACK or error, is what the server half answers; while nothing stops the loop the server half has not answered |
| Agreement.ResumeAgrees | src/server/handle.c:799-823 | they read the same position from the client's answer |
| Agreement.OfferAgrees | src/client/client_command_handle.c:219-256 | the client's upload and the protocol's client half react alike to the server's offer |
| Agreement.InfoAgrees | src/client/client_command_handle.c:354-426 | the client's download and the protocol's client half react alike to the server's file information, also if the position does not go out or an over-long file cannot be reset |
| Agreement.StreamAgrees | src/server/handle.c:828-849 | the download loop sends what the protocol's server half sends |
| Agreement.StreamBreaks | src/server/handle.c:828-849 | on a connection that breaks, the download loop has sent the first messages of the server half and no others |
| Agreement.ReceiveAgrees | src/client/client_command_handle.c:433-480 | the client's receive loop and the protocol's client half build the same file and agree on success, whatever the disk takes |
| Agreement.PartialIsStop | src/client/client_command_handle.c:469-474 | a block written only in part is the protocol system's step of a client that stops in the middle of a write |
| Agreement.StoreLeavesAlike | src/server/handle.c:673-720 | the upload loop and the server half leave the same packets unread |
| Agreement.TakeLeavesAlike | src/client/client_command_handle.c:433-480 | the client's receive loop and the client half leave the same packets unread |
| Agreement.SendAgrees | src/client/client_command_handle.c:254-311 | the upload loop sends what the protocol's client half sends |
| Agreement.SendBreaks | src/client/client_command_handle.c:271-311 | on a connection that breaks, the upload loop has sent the first messages of the client half and no others |
| ConnQueue.Queue.Enqueue | src/server/queue.c:9-30 | appends one descriptor to the sequence the linked list stands for |
| ConnQueue.Queue.Dequeue | src/server/queue.c:36-59 | removes and returns the oldest descriptor, or returns -1 on an empty queue |
| ThreadPool.Pool.constructor | src/server/thread_pool.c:13-52 | all slots are -1 and the queue is empty |
| ThreadPool.ReplaceMultiset | src/server/worker.c:48-53 | registering or unregistering exchanges exactly one slot value |
| ThreadPool.Pool.TakeConnection | src/server/worker.c:42-53 | takes the oldest descriptor and puts it into the first free slot |
| ThreadPool.Pool.UnregisterActiveFd | src/server/thread_pool.c:67-78 | frees the first slot holding the descriptor |
| ThreadPool.Pool.ShutdownActiveFds | src/server/thread_pool.c:88-99 | shuts down exactly the descriptors in slots |
| ThreadPool.Pool.DrainPendingFds | src/server/thread_pool.c:105-117 | closes exactly the queued descriptors, in order, and leaves the queue empty |
| PoolMachine.StepKeepsInv | src/server/worker.c:15-78 | every step of every thread keeps the invariant on connections, slots, queue order, wake-ups and shutdown |
| PoolMachine.LedgerClose | src/server/worker.c:72-76 | closing a held connection closes that connection, once, and no other, although descriptors are reused |
| PoolMachine.ExactlyOnePlace | src/server/worker.c:15-78 | over every run each accepted connection is in exactly one place and not yet closed, or nowhere and closed exactly once |
| PoolMachine.FreeSlot | src/server/worker.c:48-53 | under the invariant a worker about to take a connection always finds a free slot |
| PoolMachine.SlotsNameWorkers | src/server/worker.c:42-76 | every slot in use names an open descriptor, once, and the one worker handling it |
| PoolMachine.TakesInOrder | src/server/worker.c:26-55 | workers take connections in accept order and never take -1 |
| PoolMachine.NoLostWakeup | src/server/worker.c:16-55 | no connection waits while every worker that is not busy sleeps, even with spurious wake-ups |
| PoolMachine.ShutdownReaches | src/server/thread_pool.c:88-99 | once the flag is set no worker dequeues; once the slots are shut down, every connection still being handled has been shut down |
| PoolMachine.ShutdownComplete | src/server/server.c:173-202 | after all joins the queue is empty, every slot is -1, no accepted descriptor is open and each connection was closed once |
| PoolMachine.ShutdownCanMove | src/server/server.c:187-193 | after the slots are shut down and before the last join some step needs no help from any client |
| PoolMachine.ShutdownEnds | src/server/server.c:178-193 | in every interleaving the steps left after setting the flag are bounded, and only a finished server has none |
| Paths.TokensConcat | src/server/handle.c:179-184 | splitting a text at a slash splits its components |
| Paths.CanonicalIsRender | src/server/handle.c:138-219 | paths in normal form are exactly the texts of stacks of ordinary names |
| Paths.WalkLength | src/server/handle.c:182-216 | walking a text lengthens a path by at most the text, and by exactly that much only if it is appended unchanged |
| Paths.OverflowExactly | src/server/handle.c:204-211 | the path being built outgrows its buffer if and only if the merged text has been consumed, fills its buffer to 4095 characters and is already in normal form |
| Paths.NormalizeCanonical | src/server/handle.c:138-219 | every path produced is in normal form and fits its buffer |
| Paths.NormalizeIsWalk | src/server/handle.c:138-219 | from a path in normal form an argument is interpreted component by component |
| Paths.DotStays | src/server/handle.c:184-187 | "." leads nowhere: the path stays as it is, wherever the merged text fits |
| Paths.UpFromChild | src/server/handle.c:192-199 | ".." from a child of a path in normal form leads to that path, wherever the merged text fits |
| Paths.UpAtRoot | src/server/handle.c:192-199 | ".." at the root stays at the root |
| Paths.Descends | src/server/handle.c:201-215 | an ordinary name is appended as a child, or refused if and only if the result has 4096 characters or more |
| Paths.DotSlash | src/server/handle.c:184-187 | a leading "./" changes nothing wherever the longer argument fits |
| Paths.ExtraSlash | src/server/handle.c:179-188 | doubled and trailing slashes change nothing wherever the longer argument fits |
| Paths.RefusedArguments | src/server/handle.c:147-157 | an empty and an absolute argument are refused, whatever the path |
| Paths.ChangeDirComposes | src/server/handle.c:138-219 | normalising a/b gives what normalising a and then b gives, path or refusal, as long as the merged text is shorter than 4096 characters; otherwise it is refused |
| Paths.JoinedMayNotFit | src/server/handle.c:161-173 | a concrete pair of arguments that work one after the other but not joined |
| Paths.JoinedFits | src/server/handle.c:161-173 | where both steps are accepted, the joined argument is accepted if and only if the merged text is shorter than 4096 characters |
| Paths.CanonicalFixedPoint | src/server/handle.c:138-219 | a path in normal form other than the root, re-entered from the root, is unchanged if and only if it is shorter than 4096 characters |
| Paths.RealPathInjective | src/server/handle.c:233-252 | two paths in normal form have one real path only if they are equal |
| Paths.RealPathStep | src/server/handle.c:233-252 | the real path of the root is ../tests, and that of a child is its parent's with a slash and the name |
| Paths.RealPathConfined | src/server/handle.c:233-252 | the real path descends from the base directory name by name |
| Paths.RealFitsExactly | src/server/handle.c:240-251 | the real path fits if and only if the virtual path has at most 4087 characters |
| PathBuffers.PrintInto | src/server/handle.c:166-178 | what snprintf leaves in a buffer and what it returns |
| PathBuffers.PopOneLevel | src/server/handle.c:99-122 | the text left in the buffer, and failure exactly on a text without a slash |
| PathBuffers.PopIsUp | src/server/handle.c:99-122 | on the text of a path it cannot fail and removes the last component |
| PathBuffers.NextToken | src/server/handle.c:179-188 | strtok_r divides the text at its position into separators, one token and the rest, cutting the buffer in place |
| PathBuffers.TokenStep | src/server/handle.c:182-216 | each token moves one component from what is ahead to what is done |
| PathBuffers.AppendName | src/server/handle.c:201-215 | appends a name through the second buffer, refused exactly when it does not fit |
| PathBuffers.ApplyToken | src/server/handle.c:182-216 | one pass of the loop follows one step of the component stack |
| PathBuffers.Resolve | src/server/handle.c:175-216 | the whole loop fails exactly on an overflow and otherwise leaves the path the components lead to |
| PathBuffers.NormalizeVirtualPath | src/server/handle.c:138-219 | succeeds if and only if the argument is accepted, leaves the specified path, and does not touch the output otherwise |
| PathBuffers.BuildRealPath | src/server/handle.c:233-252 | the real path, or failure exactly when it does not fit |
| PathBuffers.ResolveTargetPath | src/server/handle.c:262-271 | both together |
| Session.CopyStringPayload | src/server/handle.c:61-86 | the argument text of a payload with or without its NUL, and which payloads have none |
| Session.ArgumentExactly | src/server/handle.c:61-86 | for any payload: the argument is its bytes before the first NUL, at most 4095 of them, whether or not there is one; there is no argument if and only if the payload is empty, longer than 4096 bytes, or begins with NUL |
| Session.ExtractFileInfo | src/server/handle.c:305-323 | name and size of a file-info payload of the right length |
| Session.NameIsScanned | src/server/handle.c:305-323 | although snprintf scans on through the size and beyond the payload, it takes the name from its field alone; the scan ends inside the field, or the payload, if and only if there is a NUL in it |
| Session.ScanOverruns | src/server/handle.c:314-316 | a concrete payload whose name makes the scan run past its end |
| Session.ArgumentRoundTrip | src/client/client_command_handle.c:128-152 | command arguments and file names reach the server as they were sent |
| Session.NextPathKeeps | src/server/handle.c:430-453 | no request takes the current path out of normal form or over 4087 characters |
| Session.SessionPath | src/server/worker.c:57-66 | over every session the current path is in normal form, at most 4087 characters long, and its real path fits |
| Session.SessionIsOneWalk | src/server/handle.c:430-453 | the current path is where the accepted cd arguments, put together, lead from the root |
| Session.ChangeDirFits | src/server/handle.c:430-453 | cd a/b that resolves does so in two steps if and only if the path in the middle has at most 4087 characters; two steps that resolve do so joined if and only if the merged text fits; and then the paths are the same |
| Session.ChangeDirLands | src/server/handle.c:430-453 | the same for cd with its check that the directory exists: two steps also need the directory in the middle |
| Session.LandsIsEnters | src/server/handle.c:430-453 | what a cd request carrying that argument does |
| Session.StepMayNotFit | src/server/handle.c:233-271 | a concrete argument that works joined and whose first part alone is refused |
| Handlers.Connection.constructor | src/server/worker.c:57-66 | a session starts at the root, not closing |
| Handlers.HandleCd | src/server/handle.c:430-453 | the path changes exactly when the target resolves and opendir succeeds on it; which of the three replies is sent |
| Handlers.HandleLs | src/server/handle.c:459-509 | ACK exactly when the current directory opens and its listing fits; the answer that the path is too long is never given |
| Handlers.HandleRm | src/server/handle.c:515-530 | what the argument names is removed, and nothing else, exactly when remove succeeds on it; which of the three replies is sent |
| Handlers.HandleMkdir | src/server/handle.c:536-551 | the directory the argument names is made, and nothing else, exactly when mkdir succeeds; which of the three replies is sent |
| Handlers.StoreAt | src/server/handle.c:594-748 | the upload is served if and only if its target opens; otherwise an I/O error and nothing changed |
| Handlers.HandlePuts | src/server/handle.c:568-748 | from request packet to last reply: turned down if and only if the payload, the name or the path is bad or the target does not open, and with which status; otherwise what is stored, what is sent, what is left of the stream, whether the connection closes |
| Handlers.OpenStored | src/server/handle.c:775-786 | not found if and only if open fails, an I/O error if and only if open succeeds and fstat fails, otherwise the file with its contents or the directory with its size |
| Handlers.HandleGets | src/server/handle.c:761-850 | from argument to last byte: turned down if and only if the path does not resolve, open fails or fstat fails, each with its status; otherwise the file, or directory, is served; the disk does not change |
| Handlers.TargetsAreInside | src/server/handle.c:233-271 | the one file or directory a request may change lies under the base directory |
| Handlers.ServesTouches | src/server/handle.c:859-904 | serving a request changes no file and no directory but its target |
| Handlers.DispatchCommand | src/server/handle.c:859-904 | for each packet which reply or transfer it gets, determined by the packet, the path, the disk and the faults; what happens to the disk, the current path, the stream and the room, when the connection closes, and that everything taken is given back |
| Handlers.TakeTurn | src/server/handle.c:920-949 | one turn of the request loop serves the packet at the front of the stream and leaves path, files, stream, room and closing exactly as served, or ends the loop |
| Handlers.HandleRequest | src/server/handle.c:910-952 | terminates for every peer stream and whatever faults each turn meets; what it does is a trace of turns under exactly those faults, each starting exactly where the one before ended, until the connection closes, no packet comes or a reply is lost; every payload block, file and mapping is given back |
| Handlers.TurnShortens | src/server/handle.c:920-949 | every turn takes at least its own packet from the stream |
| Traces.TracePath | src/server/handle.c:910-952 | over a whole session the current path follows the requests served |
| Traces.TraceConfined | src/server/handle.c:910-952 | no session creates, changes or removes a file or a directory outside the virtual tree |
| Traces.TraceGood | src/server/worker.c:57-71 | a session that starts at the root is always at a canonical path of at most 4087 characters, the one its accepted cd arguments lead to |
| Traces.TurnReads | src/server/handle.c:920-949 | a turn reads its own packets from the front of the packet sequence and, unless it closes, leaves exactly the others |
| Traces.TraceReads | src/server/handle.c:910-952 | the packets read over a session are the front of what the peer sent; while the connection is open the stream holds exactly the others |
| Traces.ServedInOrder | src/server/handle.c:910-952 | every request served is a packet the peer sent, and later turns serve later packets |
| Traces.TurnsAreFew | src/server/handle.c:920-949 | a session takes no more turns than the peer sent packets |
| Traces.TraceReadsAll | src/server/handle.c:910-952 | a session that ends without closing and without losing a reply has read every packet |
| Traces.TraceSends | src/server/handle.c:910-952 | the peer gets everything the turns had to send, or as much of it as the connection takes |

## Left out

- Sockets, epoll, the signal handler and the self-pipe: an accepted connection and a shutdown request are steps of the accepting thread.
- Logging, configuration, the client's prompt, command-word parsing and all printed or replied wording: reply texts are arbitrary.
- The contents of directory listings, and how the store's tree hangs together: that a parent must exist, or a directory be empty to be removed, is one of the faults a request may meet.
- Symbolic and hard links: claims about paths are about their text.
- Memory exhaustion, a process killed in the middle of an upload, and several sessions writing one file at once.
- A client that goes on using a connection after a local failure in the middle of a transfer: the protocol model lets it stop there and cuts the connection.
- Failures of open, fstat and lseek on the client's own file, and of fstat on an upload target: the handlers are modelled from the open file on.
- A local file that shrinks while it is uploaded: `read` returning 0 before the announced size is not modelled.
- Mutexes and condition variables below the level of one atomic step per locked region.
- Upload.HandlePuts: takes the final ftruncate at src/server/handle.c:734 as succeeding.
- Upload.StoreBlocks: takes the final ftruncate at src/server/handle.c:734 as succeeding.
- Handlers.HandleLs: leaves the listing's text arbitrary, and takes from the faults whether it fits its buffer.
- FileSystem.Disk.OpenToStore: an opened file is handed back to the disk when it is released, so what another session would see in between is not modelled.
